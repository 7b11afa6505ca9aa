/** The edge-triggered threshold alert manager
    (src/alert_managers/basic_alert_manager.py).

    `Step` is the transition of one call, as a pure function; the class
    `BasicAlertManager` is the stateful object of the source, whose
    `GetAlertInfo` is proved to take exactly that transition.  `Run` folds
    `Step` over a sequence of calls, which is what the lemmas about
    alternation and quiet periods speak of. */
module AlertManager {
  import opened AlertTypes

  /** What one call does: the status afterwards and the alert it returns. */
  datatype StepResult = StepResult(next: AlertStatus, alert: Option<AlertInfo>)

  /** One call of the manager in status `s`, with threshold `limit`, fed the
      aggregated `traffic`; `now` stands for the wall-clock reading that
      stamps an emitted alert. */
  function Step(s: AlertStatus, limit: int, traffic: int, now: real): (r: StepResult)
    // emission rule: an alert exactly when the status changed to an alerting one
    ensures r.alert.Some? <==> r.next != s && IsAlertWorthy(r.next)
    // an alert carries the new status, the input traffic and the timestamp
    ensures r.alert.Some? ==> r.alert.value == AlertInfo(r.next, traffic, now)
    // OVER_THRESHOLD means traffic just went over the threshold
    ensures r.alert.Some? && r.alert.value.status == OverThreshold ==> s != OverThreshold && traffic > limit
    // UNDER_THRESHOLD means traffic just went under the threshold
    ensures r.alert.Some? && r.alert.value.status == UnderThreshold ==> s == OverThreshold && traffic < limit
    // UNDER_THRESHOLD never lasts two calls
    ensures s == UnderThreshold ==> r.next != UnderThreshold
  {
    var next :=
      match s
      case NoAlert => if traffic > limit then OverThreshold else NoAlert
      case OverThreshold => if traffic < limit then UnderThreshold else OverThreshold
      case UnderThreshold => if traffic > limit then OverThreshold else NoAlert;
    var emit := next != s && next != NoAlert;
    StepResult(next, if emit then Some(AlertInfo(next, traffic, now)) else None)
  }

  /** The alert manager object: a threshold fixed at construction and one
      mutable status. */
  class BasicAlertManager {
    const trafficLimit: int
    var status: AlertStatus

    constructor (trafficLimit: int)
      ensures this.trafficLimit == trafficLimit
      ensures status == NoAlert
    {
      this.trafficLimit := trafficLimit;
      status := NoAlert;
    }

    /** Updates the status and returns an alert when a threshold is crossed;
        `now` is the timestamp the source reads from the clock. */
    method GetAlertInfo(traffic: int, now: real) returns (info: Option<AlertInfo>)
      modifies this`status
      ensures StepResult(status, info) == Step(old(status), trafficLimit, traffic, now)
      ensures info.Some? ==> info.value.status == status && IsAlertWorthy(status) && info.value.trafficValue == traffic
    {
      var emitAlert := false;
      if status == NoAlert {
        if traffic > trafficLimit {
          status := OverThreshold;
          emitAlert := true;
        }
      } else if status == OverThreshold {
        if traffic < trafficLimit {
          status := UnderThreshold;
          emitAlert := true;
        }
      } else if status == UnderThreshold {
        if traffic > trafficLimit {
          status := OverThreshold;
          emitAlert := true;
        } else {
          status := NoAlert;
        }
      }
      if emitAlert {
        return Some(AlertInfo(status, traffic, now));
      }
      return None;
    }
  }

  // ---------------------------------------------------------------------
  // The transition, one status at a time

  /** From `NoAlert`, only traffic strictly over the limit raises an alert;
      traffic equal to the limit leaves the manager silent in `NoAlert`. */
  lemma NoAlertNeedsStrictlyOver(limit: int, traffic: int, now: real)
    ensures Step(NoAlert, limit, traffic, now).alert.Some? <==> traffic > limit
    ensures traffic <= limit ==> Step(NoAlert, limit, traffic, now) == StepResult(NoAlert, None)
  {
  }

  /** From `OverThreshold`, traffic at or above the limit keeps the status
      silently; only traffic strictly under it emits a recovery alert. */
  lemma OverNeedsStrictlyUnder(limit: int, traffic: int, now: real)
    ensures traffic >= limit ==> Step(OverThreshold, limit, traffic, now) == StepResult(OverThreshold, None)
    ensures traffic < limit ==> Step(OverThreshold, limit, traffic, now).next == UnderThreshold
    ensures Step(OverThreshold, limit, traffic, now).alert.Some? <==> traffic < limit
  {
  }

  /** `UnderThreshold` lasts one call: back over the limit re-alerts, anything
      else decays silently to `NoAlert`. */
  lemma UnderLastsOneCall(limit: int, traffic: int, now: real)
    ensures traffic > limit ==> Step(UnderThreshold, limit, traffic, now) == StepResult(OverThreshold, Some(AlertInfo(OverThreshold, traffic, now)))
    ensures traffic <= limit ==> Step(UnderThreshold, limit, traffic, now) == StepResult(NoAlert, None)
  {
  }

  // ---------------------------------------------------------------------
  // Sequences of calls

  /** One call's inputs: the aggregated traffic and the clock reading. */
  datatype Tick = Tick(traffic: int, now: real)

  /** The outcome of a run: the final status and the alerts returned, in order. */
  datatype RunResult = RunResult(final: AlertStatus, alerts: seq<AlertInfo>)

  /** Feeds `ticks` one after the other to a manager in status `s`. */
  function Run(s: AlertStatus, limit: int, ticks: seq<Tick>): (r: RunResult)
    ensures |r.alerts| <= |ticks|
    ensures forall i :: 0 <= i < |r.alerts| ==> IsAlertWorthy(r.alerts[i].status)
    decreases |ticks|
  {
    if ticks == [] then RunResult(s, [])
    else
      var o := Step(s, limit, ticks[0].traffic, ticks[0].now);
      var rest := Run(o.next, limit, ticks[1..]);
      var emitted := if o.alert.Some? then [o.alert.value] else [];
      RunResult(rest.final, emitted + rest.alerts)
  }

  /** The kind of the next alert a manager in status `s` can emit. */
  function NextAlertKind(s: AlertStatus): (k: AlertStatus)
    ensures IsAlertWorthy(k)
    ensures k == UnderThreshold <==> s == OverThreshold
  {
    if s == OverThreshold then UnderThreshold else OverThreshold
  }

  /** The alerts alternate in kind, the first being of kind `first`. */
  ghost predicate Alternates(alerts: seq<AlertInfo>, first: AlertStatus)
  {
    forall i :: 0 <= i < |alerts| ==>
      alerts[i].status == (if i % 2 == 0 then first else NextAlertKind(first))
  }

  /** Over any sequence of calls the alerts strictly alternate, starting with
      the kind the initial status can emit. */
  lemma {:induction false} RunAlternates(s: AlertStatus, limit: int, ticks: seq<Tick>)
    ensures Alternates(Run(s, limit, ticks).alerts, NextAlertKind(s))
    decreases |ticks|
  {
    if ticks != [] {
      var o := Step(s, limit, ticks[0].traffic, ticks[0].now);
      var rest := Run(o.next, limit, ticks[1..]);
      RunAlternates(o.next, limit, ticks[1..]);
      var alerts := Run(s, limit, ticks).alerts;
      if o.alert.Some? {
        assert o.alert.value.status == NextAlertKind(s);
        assert NextAlertKind(o.next) == NextAlertKind(NextAlertKind(s));
        assert alerts == [o.alert.value] + rest.alerts;
        forall i | 0 <= i < |alerts|
          ensures alerts[i].status == (if i % 2 == 0 then NextAlertKind(s) else NextAlertKind(NextAlertKind(s)))
        {
          if i > 0 {
            assert alerts[i] == rest.alerts[i - 1];
          }
        }
      } else {
        assert NextAlertKind(o.next) == NextAlertKind(s);
        assert alerts == rest.alerts;
      }
    }
  }

  /** A fresh manager emits OVER, UNDER, OVER, ... in that order. */
  lemma FreshManagerAlertsAlternate(limit: int, ticks: seq<Tick>)
    ensures forall i :: 0 <= i < |Run(NoAlert, limit, ticks).alerts| ==>
      Run(NoAlert, limit, ticks).alerts[i].status == (if i % 2 == 0 then OverThreshold else UnderThreshold)
  {
    RunAlternates(NoAlert, limit, ticks);
  }

  /** While the traffic stays at or below the limit, a fresh manager stays in
      `NoAlert` and never returns an alert. */
  lemma {:induction false} QuietAtOrBelowLimit(limit: int, ticks: seq<Tick>)
    requires forall i :: 0 <= i < |ticks| ==> ticks[i].traffic <= limit
    ensures Run(NoAlert, limit, ticks) == RunResult(NoAlert, [])
    decreases |ticks|
  {
    if ticks != [] {
      QuietAtOrBelowLimit(limit, ticks[1..]);
    }
  }

  /** Every index of `ix` moved one call later. */
  function Shift(ix: seq<nat>): (r: seq<nat>)
    ensures |r| == |ix|
    ensures forall k :: 0 <= k < |ix| ==> r[k] == ix[k] + 1
  {
    seq(|ix|, k requires 0 <= k < |ix| => ix[k] + 1)
  }

  /** The indices of the calls of a run that returned an alert, in order. */
  function EmittingCalls(s: AlertStatus, limit: int, ticks: seq<Tick>): seq<nat>
    decreases |ticks|
  {
    if ticks == [] then []
    else
      var o := Step(s, limit, ticks[0].traffic, ticks[0].now);
      var rest := Shift(EmittingCalls(o.next, limit, ticks[1..]));
      if o.alert.Some? then [0] + rest else rest
  }

  /** `ix` lists, in strictly increasing order, one call of `ticks` per alert,
      and the `i`-th alert carries the traffic and timestamp of call `ix[i]`. */
  ghost predicate EmittedBy(alerts: seq<AlertInfo>, ticks: seq<Tick>, ix: seq<nat>)
  {
    && |ix| == |alerts|
    && (forall i :: 0 <= i < |ix| ==> ix[i] < |ticks|)
    && (forall i, j :: 0 <= i < j < |ix| ==> ix[i] < ix[j])
    && (forall i :: 0 <= i < |ix| ==>
          alerts[i].trafficValue == ticks[ix[i]].traffic && alerts[i].timestamp == ticks[ix[i]].now)
  }

  /** Prepending one call to a run shifts the emitting calls by one, and an
      alert returned by that first call is matched with index 0. */
  lemma EmittedByCons(first: seq<AlertInfo>, alerts: seq<AlertInfo>, t: Tick, ticks: seq<Tick>, ix: seq<nat>)
    requires EmittedBy(alerts, ticks, ix)
    requires first == [] || first == [AlertInfo(first[0].status, t.traffic, t.now)]
    ensures EmittedBy(first + alerts, [t] + ticks, (if first == [] then [] else [0]) + Shift(ix))
  {
    var all, tks := first + alerts, [t] + ticks;
    var jx := (if first == [] then [] else [0]) + Shift(ix);
    var d := |first|;
    forall i | d <= i < |jx|
      ensures jx[i] == ix[i - d] + 1 && all[i] == alerts[i - d] && tks[jx[i]] == ticks[ix[i - d]]
    {
    }
  }

  /** The `i`-th alert of a run was returned by call `EmittingCalls(..)[i]`
      and carries that call's traffic and timestamp; the emitting calls are
      distinct and in increasing order. */
  lemma {:induction false} RunAlertsComeFromCalls(s: AlertStatus, limit: int, ticks: seq<Tick>)
    ensures EmittedBy(Run(s, limit, ticks).alerts, ticks, EmittingCalls(s, limit, ticks))
    decreases |ticks|
  {
    if ticks != [] {
      var o := Step(s, limit, ticks[0].traffic, ticks[0].now);
      RunAlertsComeFromCalls(o.next, limit, ticks[1..]);
      var first := if o.alert.Some? then [o.alert.value] else [];
      EmittedByCons(first, Run(o.next, limit, ticks[1..]).alerts, ticks[0], ticks[1..],
                    EmittingCalls(o.next, limit, ticks[1..]));
      assert [ticks[0]] + ticks[1..] == ticks;
    }
  }

  // ---------------------------------------------------------------------
  // Worked scenarios

  /** With threshold 1000, the traffic values 200, 500, 900, 1100, 1200, 900,
      800, 1100 give OVER at 1100, UNDER at 900 and OVER at 1100 again. */
  lemma EdgeTriggeredScenario(t: real)
    ensures Run(NoAlert, 1000,
                [Tick(200, t), Tick(500, t), Tick(900, t), Tick(1100, t),
                 Tick(1200, t), Tick(900, t), Tick(800, t), Tick(1100, t)])
         == RunResult(OverThreshold,
                      [AlertInfo(OverThreshold, 1100, t), AlertInfo(UnderThreshold, 900, t),
                       AlertInfo(OverThreshold, 1100, t)])
  {
    assert Run(NoAlert, 1000, [Tick(1100, t)])
        == RunResult(OverThreshold, [AlertInfo(OverThreshold, 1100, t)]);
    assert Run(UnderThreshold, 1000, [Tick(800, t), Tick(1100, t)])
        == RunResult(OverThreshold, [AlertInfo(OverThreshold, 1100, t)]);
    assert Run(OverThreshold, 1000, [Tick(900, t), Tick(800, t), Tick(1100, t)])
        == RunResult(OverThreshold, [AlertInfo(UnderThreshold, 900, t), AlertInfo(OverThreshold, 1100, t)]);
    assert Run(OverThreshold, 1000, [Tick(1200, t), Tick(900, t), Tick(800, t), Tick(1100, t)])
        == RunResult(OverThreshold, [AlertInfo(UnderThreshold, 900, t), AlertInfo(OverThreshold, 1100, t)]);
    assert Run(NoAlert, 1000, [Tick(1100, t), Tick(1200, t), Tick(900, t), Tick(800, t), Tick(1100, t)])
        == RunResult(OverThreshold, [AlertInfo(OverThreshold, 1100, t), AlertInfo(UnderThreshold, 900, t), AlertInfo(OverThreshold, 1100, t)]);
    assert Run(NoAlert, 1000, [Tick(900, t), Tick(1100, t), Tick(1200, t), Tick(900, t), Tick(800, t), Tick(1100, t)])
        == RunResult(OverThreshold, [AlertInfo(OverThreshold, 1100, t), AlertInfo(UnderThreshold, 900, t), AlertInfo(OverThreshold, 1100, t)]);
    assert Run(NoAlert, 1000, [Tick(500, t), Tick(900, t), Tick(1100, t), Tick(1200, t), Tick(900, t), Tick(800, t), Tick(1100, t)])
        == RunResult(OverThreshold, [AlertInfo(OverThreshold, 1100, t), AlertInfo(UnderThreshold, 900, t), AlertInfo(OverThreshold, 1100, t)]);
    assert Run(NoAlert, 1000, [Tick(200, t), Tick(500, t), Tick(900, t), Tick(1100, t), Tick(1200, t), Tick(900, t), Tick(800, t), Tick(1100, t)])
        == RunResult(OverThreshold, [AlertInfo(OverThreshold, 1100, t), AlertInfo(UnderThreshold, 900, t), AlertInfo(OverThreshold, 1100, t)]);
  }

  /** The sequence of tests/test_alert_manager.py:24-59 (100, 200, ..., 1000,
      then 1100 twice, then 1000 twice with limit 1000) yields one OVER alert
      and no recovery: at traffic equal to the limit the manager stays in
      `OverThreshold`, where the test expects an UNDER_THRESHOLD alert. */
  lemma RecoveryAtLimitIsSilent(t: real)
    ensures Run(NoAlert, 1000,
                [Tick(100, t), Tick(200, t), Tick(300, t), Tick(400, t), Tick(500, t),
                 Tick(600, t), Tick(700, t), Tick(800, t), Tick(900, t), Tick(1000, t),
                 Tick(1100, t), Tick(1100, t), Tick(1000, t), Tick(1000, t)])
         == RunResult(OverThreshold, [AlertInfo(OverThreshold, 1100, t)])
  {
    assert Run(OverThreshold, 1000, [Tick(1000, t)])
        == RunResult(OverThreshold, []);
    assert Run(OverThreshold, 1000, [Tick(1000, t), Tick(1000, t)])
        == RunResult(OverThreshold, []);
    assert Run(OverThreshold, 1000, [Tick(1100, t), Tick(1000, t), Tick(1000, t)])
        == RunResult(OverThreshold, []);
    assert Run(NoAlert, 1000, [Tick(1100, t), Tick(1100, t), Tick(1000, t), Tick(1000, t)])
        == RunResult(OverThreshold, [AlertInfo(OverThreshold, 1100, t)]);
    assert Run(NoAlert, 1000, [Tick(1000, t), Tick(1100, t), Tick(1100, t), Tick(1000, t), Tick(1000, t)])
        == RunResult(OverThreshold, [AlertInfo(OverThreshold, 1100, t)]);
    assert Run(NoAlert, 1000, [Tick(900, t), Tick(1000, t), Tick(1100, t), Tick(1100, t), Tick(1000, t), Tick(1000, t)])
        == RunResult(OverThreshold, [AlertInfo(OverThreshold, 1100, t)]);
    assert Run(NoAlert, 1000, [Tick(800, t), Tick(900, t), Tick(1000, t), Tick(1100, t), Tick(1100, t), Tick(1000, t), Tick(1000, t)])
        == RunResult(OverThreshold, [AlertInfo(OverThreshold, 1100, t)]);
    assert Run(NoAlert, 1000, [Tick(700, t), Tick(800, t), Tick(900, t), Tick(1000, t), Tick(1100, t), Tick(1100, t), Tick(1000, t), Tick(1000, t)])
        == RunResult(OverThreshold, [AlertInfo(OverThreshold, 1100, t)]);
    assert Run(NoAlert, 1000, [Tick(600, t), Tick(700, t), Tick(800, t), Tick(900, t), Tick(1000, t), Tick(1100, t), Tick(1100, t), Tick(1000, t), Tick(1000, t)])
        == RunResult(OverThreshold, [AlertInfo(OverThreshold, 1100, t)]);
    assert Run(NoAlert, 1000, [Tick(500, t), Tick(600, t), Tick(700, t), Tick(800, t), Tick(900, t), Tick(1000, t), Tick(1100, t), Tick(1100, t), Tick(1000, t), Tick(1000, t)])
        == RunResult(OverThreshold, [AlertInfo(OverThreshold, 1100, t)]);
    assert Run(NoAlert, 1000, [Tick(400, t), Tick(500, t), Tick(600, t), Tick(700, t), Tick(800, t), Tick(900, t), Tick(1000, t), Tick(1100, t), Tick(1100, t), Tick(1000, t), Tick(1000, t)])
        == RunResult(OverThreshold, [AlertInfo(OverThreshold, 1100, t)]);
    assert Run(NoAlert, 1000, [Tick(300, t), Tick(400, t), Tick(500, t), Tick(600, t), Tick(700, t), Tick(800, t), Tick(900, t), Tick(1000, t), Tick(1100, t), Tick(1100, t), Tick(1000, t), Tick(1000, t)])
        == RunResult(OverThreshold, [AlertInfo(OverThreshold, 1100, t)]);
    assert Run(NoAlert, 1000, [Tick(200, t), Tick(300, t), Tick(400, t), Tick(500, t), Tick(600, t), Tick(700, t), Tick(800, t), Tick(900, t), Tick(1000, t), Tick(1100, t), Tick(1100, t), Tick(1000, t), Tick(1000, t)])
        == RunResult(OverThreshold, [AlertInfo(OverThreshold, 1100, t)]);
    assert Run(NoAlert, 1000, [Tick(100, t), Tick(200, t), Tick(300, t), Tick(400, t), Tick(500, t), Tick(600, t), Tick(700, t), Tick(800, t), Tick(900, t), Tick(1000, t), Tick(1100, t), Tick(1100, t), Tick(1000, t), Tick(1000, t)])
        == RunResult(OverThreshold, [AlertInfo(OverThreshold, 1100, t)]);
  }
}

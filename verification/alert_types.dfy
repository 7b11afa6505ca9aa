/** The value types shared by every alert manager: the three alert statuses
    and the immutable record an alert manager hands out when a threshold is
    crossed (src/interfaces/abstract_alert_manager.py). */
module AlertTypes {

  /** An optional value; `None` is what the source returns when no threshold
      was crossed. */
  datatype Option<+T> = None | Some(value: T)

  /** The internal state of an alert manager.  `NoAlert` and `UnderThreshold`
      are both "not alerting"; `UnderThreshold` marks the one call right after
      a recovery. */
  datatype AlertStatus = NoAlert | OverThreshold | UnderThreshold

  /** An alert record.  Being a datatype value, its three fields are fixed
      when it is built, as the frozen dataclass of the source requires.  The
      timestamp is the wall-clock reading taken at emission. */
  datatype AlertInfo = AlertInfo(status: AlertStatus, trafficValue: int, timestamp: real)

  /** The status an alert carries is never `NoAlert`. */
  predicate IsAlertWorthy(s: AlertStatus)
  {
    s == OverThreshold || s == UnderThreshold
  }

  /** Every status is one of exactly three, pairwise distinct, values. */
  lemma ExactlyThreeStatuses(s: AlertStatus)
    ensures s == NoAlert || s == OverThreshold || s == UnderThreshold
    ensures NoAlert != OverThreshold && OverThreshold != UnderThreshold && NoAlert != UnderThreshold
  {
  }
}

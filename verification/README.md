# HTTP traffic monitor: alert manager and collector, in Dafny

This project models the two stateful parts of a small HTTP traffic monitor.
A sniffer hands parsed requests to a collector. Every ten seconds a controller
passes the collector's hosts and byte total to a view, then clears the
collector. A threshold alert manager turns a traffic value into edge-triggered
alerts; in the repository only its tests create and call it.

- **The threshold alert manager** (`alert_manager.dfy` and `alert_types.dfy`).
  It has three statuses: `NoAlert`, `OverThreshold` and `UnderThreshold`. Each
  call receives one aggregated traffic value and compares it against a traffic
  limit that is fixed at construction. It returns an `AlertInfo` record only on
  an edge: traffic going strictly over the limit, or strictly back under it.
  `UnderThreshold` lasts exactly one call and then decays silently to `NoAlert`,
  unless the traffic goes over the limit again on that call.
  - `Step` is the transition of a single call, written as a pure function.
  - `BasicAlertManager.GetAlertInfo` is the stateful method. It mirrors the
    source's `emit_alert` flag and is proved to take exactly the `Step` transition.
  - `Run` folds `Step` over a sequence of calls. The alternation and quiet-period
    lemmas are stated over `Run`.
- **The in-memory collector** (`collector.dfy`). It is a map from each host to
  the list of `HttpInfo` records received for it, plus a running total of
  content lengths. `CollectHttpInfo` appends a record to its host's list and
  adds to the total. `Clear` empties both. The object invariant `Valid` says two
  things:
  - the total equals the sum of the content lengths over all stored lists;
  - the lists are exactly the records received since the last clear, grouped by
    host and kept in arrival order. A ghost field `arrivals` records those
    records in order.

The clock reading that stamps an alert is a parameter `now: real` of
`GetAlertInfo` and `Step`.

Notes on the source:
- tests/test_alert_manager.py:50-55 expects a recovery alert when the traffic
  drops to exactly the limit. The code at
  src/alert_managers/basic_alert_manager.py:26 uses a strict `<`, so the manager
  stays in `OverThreshold` and returns nothing. The model follows the code.
  `RecoveryAtLimitIsSilent` proves the outcome of the test's exact input
  sequence: a single OVER alert and no recovery.
- The doc comment at src/interfaces/abstract_alert_manager.py:37 says
  `UNDER_THRESHOLD` means that the traffic "went over" the threshold. The code
  emits it when the traffic goes under. `Step`'s contract states the
  code's meaning.
- The collector keys its records by host and keeps one running total, which
  `Clear` resets; there is no time window and no per-section ranking.
- In the source, the members of the `AlertStatus` enum carry the values `(0,)`,
  `(1,)` and `2` because of trailing commas. Nothing reads these values, so the
  model keeps only the three distinct constructors.

## Model

| member | source | states |
|---|---|---|
| `AlertTypes.ExactlyThreeStatuses` | src/interfaces/abstract_alert_manager.py:7-11 | a status is one of exactly three pairwise distinct values |
| `AlertManager.Step` | src/alert_managers/basic_alert_manager.py:18-41 | an alert is returned iff the status changed to `OverThreshold` or `UnderThreshold`; the alert carries the new status, the input traffic and the timestamp; an OVER alert means the traffic just went strictly over the limit from a non-over status; an UNDER alert means it just went strictly under the limit from `OverThreshold`; `UnderThreshold` never persists |
| `AlertManager.BasicAlertManager.constructor` | src/alert_managers/basic_alert_manager.py:8-10 | the manager starts in `NoAlert` with the given limit; the limit is a `const` and so never changes afterwards |
| `AlertManager.BasicAlertManager.GetAlertInfo` | src/alert_managers/basic_alert_manager.py:12-41 | the new status and the returned value are exactly those of `Step` on the old status; a returned alert carries the new status (never `NoAlert`) and the input traffic |
| `AlertManager.NoAlertNeedsStrictlyOver` | src/alert_managers/basic_alert_manager.py:19-23 | from `NoAlert`, an alert comes iff traffic > limit; traffic equal to the limit keeps `NoAlert` silently |
| `AlertManager.OverNeedsStrictlyUnder` | src/alert_managers/basic_alert_manager.py:24-28 | from `OverThreshold`, traffic >= limit keeps the status and returns nothing; an alert comes iff traffic < limit, and then the status becomes `UnderThreshold` |
| `AlertManager.UnderLastsOneCall` | src/alert_managers/basic_alert_manager.py:29-36 | from `UnderThreshold`, traffic > limit re-alerts with `OverThreshold`; anything else decays to `NoAlert` without an alert |
| `AlertManager.Run` | src/alert_managers/basic_alert_manager.py:37-41 | a run returns at most one alert per call, and no alert carries `NoAlert` |
| `AlertManager.RunAlternates` | src/alert_managers/basic_alert_manager.py:18-36 | over any sequence of calls, the alerts strictly alternate in kind; the first is UNDER if the run starts in `OverThreshold`, and OVER otherwise |
| `AlertManager.FreshManagerAlertsAlternate` | src/alert_managers/basic_alert_manager.py:8-36 | a fresh manager emits OVER, UNDER, OVER, ... in that order |
| `AlertManager.QuietAtOrBelowLimit` | tests/test_alert_manager.py:12-22 | while every input is at or below the limit, a fresh manager stays in `NoAlert` and returns no alert |
| `AlertManager.RunAlertsComeFromCalls` | src/alert_managers/basic_alert_manager.py:37-40 | the `i`-th alert of a run is returned by a definite call of the run and carries that call's traffic value and timestamp; one alert per emitting call, the emitting calls in strictly increasing order |
| `AlertManager.EdgeTriggeredScenario` | src/alert_managers/basic_alert_manager.py:18-41 | with limit 1000, the inputs 200, 500, 900, 1100, 1200, 900, 800, 1100 give exactly OVER(1100), UNDER(900), OVER(1100) |
| `AlertManager.RecoveryAtLimitIsSilent` | tests/test_alert_manager.py:24-59 | on the test's input sequence, the manager returns only one OVER(1100) alert and ends in `OverThreshold`: no recovery alert at traffic equal to the limit |
| `Collector.SumLengthsAppend` | src/collectors/basic_collector.py:14 | appending a record adds exactly its content length to the sum of a list |
| `Collector.MapTotalUpdate` | src/collectors/basic_collector.py:13-14 | replacing one host's list changes the total over all lists by the difference of the old and new lists' sums |
| `Collector.MapTotalAppend` | src/collectors/basic_collector.py:13-14 | appending a record to its host's list, creating the list if absent, adds exactly the record's content length to the total over all lists |
| `Collector.GroupedAppend` | src/collectors/basic_collector.py:13 | appending a new arrival to its host's list keeps the container equal to the arrivals grouped by host, in arrival order |
| `Collector.ByHostAppend` | src/collectors/basic_collector.py:13 | a new record lands at the end of its own host's group, and every other host's group is unchanged |
| `Collector.GroupedWellKeyed` | src/collectors/basic_collector.py:13 | in the container, every list is non-empty and every stored record sits in the list keyed by its own host |
| `Collector.GroupedTotal` | src/collectors/basic_collector.py:8-18 | the total over all stored lists equals the total content length of the records received since the last clear |
| `Collector.BasicCollector.constructor` | src/collectors/basic_collector.py:8-10 | a fresh collector has an empty container, a zero total and satisfies the invariant |
| `Collector.BasicCollector.CollectHttpInfo` | src/collectors/basic_collector.py:12-14 | the record is appended to the end of its host's list, and the list is created if the host is new; no other host's list changes; the total grows by exactly the record's content length; the invariant is kept |
| `Collector.BasicCollector.Clear` | src/collectors/basic_collector.py:16-18 | no keys remain and the total is zero, whatever the state before, so clearing twice is the same as clearing once; the invariant is kept |

## Left out

- The wall-clock reading `time()` that stamps an alert is a parameter. Its
  floating-point nature is not modelled, since the value is only stored.
- Concurrency is not modelled. In the source, the sniffer thread calls the
  collector while the controller's tick copies the container and then clears
  it (src/controllers/controller.py), and there is no lock. The model treats
  the collector sequentially.
- The order in which hosts first arrived is not stated by any contract. The
  source's dict keeps insertion order, and the controller hands the view
  `list(dict(http_container).keys())` (src/controllers/controller.py:28-29),
  so the view sees hosts in first-arrival order. The model's
  `map<string, seq<HttpInfo>>` has no key order; that order could be read off
  the ghost `arrivals`, but no contract says so.
- The stored lists are modelled as values. The source appends in place to a
  Python list that a shallow copy of the container may share. The model does
  not capture that aliasing.
- Packet capture and parsing (src/sniffers/), rendering (src/views/), the tick
  loop and process start-up (src/controllers/controller.py, src/main.py) are
  input, output and timing code. They are outside this model.
- The interfaces src/interfaces/abstract_collector.py, abstract_view.py and
  abstract_sniffer.py declare signatures only and have no behaviour to model.
- `extract_section` is exercised by tests/test_extract_section.py, but its
  implementation is not part of this model: src/types/http_info.py defines no
  such method.

/** What the unit monitor makes of the snapshots of one unit: edge detectors and the
    sliding window of restarts (hblog/sources/units.py, `_detect`). */
module Observer {
  import opened Model
  import opened Text
  import opened Systemctl
  import Classify
  import Signature
  import Tables

  /** One snapshot of a unit and the clock at the poll that took it. */
  datatype Sample = Sample(now: real, props: Props)

  /** What the monitor remembers about one unit. */
  datatype UnitState = UnitState(
    prev: Option<Props>,
    heartbeat: Option<real>,
    restarts: seq<real>,
    loopActive: bool)

  const FRESH := UnitState(None, None, [], false)

  function Prop(p: Props, key: string, default: string): string {
    if key in p then p[key] else default
  }

  function IntProp(p: Props, key: string): Option<int> {
    if key in p then ParseInt(p[key]) else None
  }

  function ActiveState(p: Props): string { Prop(p, "ActiveState", "unknown") }

  predicate IsFailed(p: Props) { ActiveState(p) == "failed" }

  predicate IsActive(p: Props) { ActiveState(p) == "active" }

  predicate WasFailed(prev: Option<Props>) { prev.Some? && IsFailed(prev.value) }

  /** By how much the restart counter grew; a first or unreadable snapshot counts as no
      growth, and so does a counter that went back. */
  function Increase(prev: Option<Props>, p: Props): nat {
    var cur := IntProp(p, "NRestarts").GetOr(0);
    var before := if prev.Some? then IntProp(prev.value, "NRestarts") else None;
    if before.Some? && cur > before.value then cur - before.value else 0
  }

  function Repeat(t: real, n: nat): seq<real> {
    if n == 0 then [] else Repeat(t, n - 1) + [t]
  }

  /** Expired time stamps are taken off the front of the queue, up to the first one
      that is not expired. */
  function Trimmed(dq: seq<real>, now: real, window: real): seq<real> {
    if dq != [] && now - dq[0] > window then Trimmed(dq[1..], now, window) else dq
  }

  // --- events -------------------------------------------------------------------------

  function TruncatedSeconds(r: real): int {
    if r >= 0.0 then r.Floor else -((-r).Floor)
  }

  function LoopEvent(unit: string, count: nat, window: int, now: real): Event {
    Event(now, unit + ": restart loop — " + Decimal(count) + " restarts in " + Signature.ShowInt(window) + "s",
          PRIORITY_ERR, Some(unit), "units", Some(RestartLoop), None, None, None, false, None)
  }

  const CLD_EXITED := 1
  const CLD_KILLED := 2
  const CLD_DUMPED := 3

  function FailureEvent(unit: string, p: Props, now: real): Event {
    var result := Lower(Prop(p, "Result", ""));
    var code := IntProp(p, "ExecMainCode");
    var status := IntProp(p, "ExecMainStatus");
    var died := status.Some? && status.value != 0;
    var exited := result != "oom-kill" && code == Some(CLD_EXITED) && died;
    var killed := result != "oom-kill" && (code == Some(CLD_KILLED) || code == Some(CLD_DUMPED)) && died;
    var detail :=
      if exited then "exit code " + Signature.ShowInt(status.value)
      else if killed then "signal " + Signature.ShowInt(status.value)
      else "result '" + result + "'";
    Event(now, unit + ": entered failed state (" + detail + ")", PRIORITY_ERR, Some(unit), "units",
          Some(if result == "oom-kill" then Oom else if exited || killed then Crash else Failed),
          if exited then status else None,
          if killed then status else None,
          None, false, None)
  }

  function StatusOf(unit: string, x: Sample, heartbeat: Option<real>): Tables.ServiceStatus {
    Tables.ServiceStatus(unit, ActiveState(x.props), Prop(x.props, "SubState", "unknown"),
                         Prop(x.props, "Result", "success"), IntProp(x.props, "NRestarts").GetOr(0),
                         heartbeat.GetOr(0.0), x.now)
  }

  // --- one observation ------------------------------------------------------------------

  predicate Recovers(prev: Option<Props>, p: Props) { IsActive(p) && WasFailed(prev) }

  predicate Fails(prev: Option<Props>, p: Props) { IsFailed(p) && !WasFailed(prev) }

  function Window(cfg: Config, s: UnitState, x: Sample): seq<real> {
    Trimmed(s.restarts + Repeat(x.now, Increase(s.prev, x.props)), x.now, cfg.restartLoopWindow)
  }

  predicate Over(cfg: Config, s: UnitState, x: Sample) {
    |Window(cfg, s, x)| >= cfg.restartLoopThreshold
  }

  predicate Loops(cfg: Config, s: UnitState, x: Sample) {
    Over(cfg, s, x) && (Recovers(s.prev, x.props) || !s.loopActive)
  }

  function Observed(cfg: Config, s: UnitState, x: Sample): UnitState {
    UnitState(Some(x.props), if IsActive(x.props) then Some(x.now) else s.heartbeat,
              Window(cfg, s, x), Over(cfg, s, x))
  }

  function EventsOf(cfg: Config, unit: string, s: UnitState, x: Sample): seq<Event> {
    (if Recovers(s.prev, x.props) then [Classify.RecoveryMarker(unit, x.now)] else [])
    + (if Fails(s.prev, x.props) then [FailureEvent(unit, x.props, x.now)] else [])
    + (if Loops(cfg, s, x)
       then [LoopEvent(unit, |Window(cfg, s, x)|, TruncatedSeconds(cfg.restartLoopWindow), x.now)] else [])
  }

  /** What is remembered after a history of snapshots of the unit. */
  function Run(cfg: Config, h: seq<Sample>): UnitState {
    if h == [] then FRESH else Observed(cfg, Run(cfg, h[..|h| - 1]), h[|h| - 1])
  }

  /** The events emitted at snapshot `j`. */
  function Emitted(cfg: Config, unit: string, h: seq<Sample>, j: nat): seq<Event>
    requires j < |h|
  {
    EventsOf(cfg, unit, Run(cfg, h[..j]), h[j])
  }

  /** Observing a snapshot again, at whatever time, emits nothing. */
  lemma AgainIsSilent(cfg: Config, unit: string, s: UnitState, x: Sample, later: real)
    ensures EventsOf(cfg, unit, Observed(cfg, s, x), Sample(later, x.props)) == []
  {
    var t := Observed(cfg, s, x);
    assert Increase(t.prev, x.props) == 0;
    assert t.restarts + Repeat(later, 0) == t.restarts;
    TrimShrinks(t.restarts, later, cfg.restartLoopWindow);
  }

  /** Observing it again within the same poll changes nothing at all. */
  lemma AgainIsNothing(cfg: Config, s: UnitState, x: Sample)
    ensures Observed(cfg, Observed(cfg, s, x), x) == Observed(cfg, s, x)
  {
    var t := Observed(cfg, s, x);
    assert Increase(t.prev, x.props) == 0;
    assert t.restarts + Repeat(x.now, 0) == t.restarts;
    TrimTwice(s.restarts + Repeat(x.now, Increase(s.prev, x.props)), x.now, cfg.restartLoopWindow);
  }

  lemma {:induction false} TrimShrinks(dq: seq<real>, now: real, window: real)
    ensures |Trimmed(dq, now, window)| <= |dq|
  {
    if dq != [] { TrimShrinks(dq[1..], now, window); }
  }

  lemma {:induction false} TrimTwice(dq: seq<real>, now: real, window: real)
    ensures Trimmed(Trimmed(dq, now, window), now, window) == Trimmed(dq, now, window)
  {
    if dq != [] && now - dq[0] > window { TrimTwice(dq[1..], now, window); }
  }

  // --- the window is a recount ------------------------------------------------------------

  /** The time stamps that the window still covers, in order. */
  function Within(ts: seq<real>, now: real, window: real): seq<real> {
    if ts == [] then []
    else if now - ts[0] <= window then [ts[0]] + Within(ts[1..], now, window)
    else Within(ts[1..], now, window)
  }

  /** No expired time stamp stands behind one that is not expired. */
  predicate ExpiredFirst(ts: seq<real>, now: real, window: real) {
    forall i, j :: 0 <= i < j < |ts| && now - ts[j] > window ==> now - ts[i] > window
  }

  lemma ExpiredFirstTail(ts: seq<real>, now: real, window: real)
    requires ts != [] && now - ts[0] > window
    ensures ExpiredFirst(ts, now, window) <==> ExpiredFirst(ts[1..], now, window)
  {
    var rest := ts[1..];
    assert forall i :: 1 <= i < |ts| ==> ts[i] == rest[i - 1];
    if ExpiredFirst(ts, now, window) {
      forall i, j | 0 <= i < j < |rest| && now - rest[j] > window ensures now - rest[i] > window {
        assert rest[i] == ts[i + 1] && rest[j] == ts[j + 1];
      }
    }
  }

  /** Trimming from the front is the same as filtering exactly when the expired time
      stamps stand first. */
  lemma {:induction false} TrimIsFilterIff(ts: seq<real>, now: real, window: real)
    ensures Trimmed(ts, now, window) == Within(ts, now, window) <==> ExpiredFirst(ts, now, window)
  {
    if ts == [] {
    } else if now - ts[0] > window {
      TrimIsFilterIff(ts[1..], now, window);
      ExpiredFirstTail(ts, now, window);
    } else {
      WithinIsAll(ts, now, window);
    }
  }

  lemma {:induction false} WithinIsAll(ts: seq<real>, now: real, window: real)
    ensures |Within(ts, now, window)| <= |ts|
    ensures Within(ts, now, window) == ts <==> forall k :: 0 <= k < |ts| ==> now - ts[k] <= window
  {
    if ts != [] {
      WithinIsAll(ts[1..], now, window);
      assert ts == [ts[0]] + ts[1..];
      if now - ts[0] <= window {
        assert ([ts[0]] + Within(ts[1..], now, window))[1..] == Within(ts[1..], now, window);
      }
    }
  }

  /** Every restart ever seen in a history, as the time of the poll that saw it. */
  function AllRestarts(h: seq<Sample>): seq<real> {
    if h == [] then []
    else
      var p, x := h[..|h| - 1], h[|h| - 1];
      AllRestarts(p) + Repeat(x.now, Increase(if p == [] then None else Some(p[|p| - 1].props), x.props))
  }

  predicate ClockRuns(h: seq<Sample>) {
    forall i, j :: 0 <= i <= j < |h| ==> h[i].now <= h[j].now
  }

  predicate Sorted(ts: seq<real>) {
    forall i, j :: 0 <= i <= j < |ts| ==> ts[i] <= ts[j]
  }

  lemma {:induction false} RepeatIs(t: real, n: nat)
    ensures |Repeat(t, n)| == n && forall i :: 0 <= i < n ==> Repeat(t, n)[i] == t
  {
    if n > 0 { RepeatIs(t, n - 1); }
  }

  lemma {:induction false} RestartsSorted(h: seq<Sample>)
    requires ClockRuns(h)
    ensures Sorted(AllRestarts(h))
    ensures forall i :: 0 <= i < |AllRestarts(h)| ==> h != [] && AllRestarts(h)[i] <= h[|h| - 1].now
  {
    if h != [] {
      var p, x := h[..|h| - 1], h[|h| - 1];
      RestartsSorted(p);
      RepeatIs(x.now, Increase(if p == [] then None else Some(p[|p| - 1].props), x.props));
      assert p != [] ==> p[|p| - 1].now <= x.now;
    }
  }

  lemma {:induction false} WithinAppend(a: seq<real>, b: seq<real>, now: real, window: real)
    ensures Within(a + b, now, window) == Within(a, now, window) + Within(b, now, window)
  {
    if a == [] {
      assert a + b == b;
    } else {
      assert (a + b)[1..] == a[1..] + b;
      WithinAppend(a[1..], b, now, window);
    }
  }

  lemma {:induction false} WithinLater(ts: seq<real>, t0: real, t1: real, window: real)
    requires t0 <= t1
    ensures Within(Within(ts, t0, window), t1, window) == Within(ts, t1, window)
  {
    if ts != [] {
      WithinLater(ts[1..], t0, t1, window);
      if t1 - ts[0] <= window {
        var rest := Within(ts[1..], t0, window);
        assert ([ts[0]] + rest)[1..] == rest;
      } else if t0 - ts[0] <= window {
        var rest := Within(ts[1..], t0, window);
        assert ([ts[0]] + rest)[1..] == rest;
      }
    }
  }

  lemma {:induction false} WithinSorted(ts: seq<real>, now: real, window: real)
    requires Sorted(ts)
    ensures Sorted(Within(ts, now, window))
    ensures forall t :: t in Within(ts, now, window) ==> t in ts
  {
    if ts != [] {
      WithinSorted(ts[1..], now, window);
      var rest := Within(ts[1..], now, window);
      assert forall i :: 0 <= i < |rest| ==> rest[i] in rest;
      assert forall t :: t in ts[1..] ==> t in ts && ts[0] <= t;
    }
  }

  lemma PrevIs(cfg: Config, h: seq<Sample>)
    ensures Run(cfg, h).prev == if h == [] then None else Some(h[|h| - 1].props)
  {
  }

  /** With a clock that does not go back, the queue of a unit is exactly the restarts
      ever seen that the window covers now: the threshold test agrees with a recount of
      the whole history. */
  lemma {:induction false} WindowIsRecount(cfg: Config, h: seq<Sample>)
    requires h != [] && ClockRuns(h)
    ensures Run(cfg, h).restarts == Within(AllRestarts(h), h[|h| - 1].now, cfg.restartLoopWindow)
    decreases |h|
  {
    var p, x := h[..|h| - 1], h[|h| - 1];
    var w := cfg.restartLoopWindow;
    PrevIs(cfg, p);
    var n := Increase(Run(cfg, p).prev, x.props);
    var all, new_ := AllRestarts(p), Repeat(x.now, n);
    RestartsSorted(p);
    RepeatIs(x.now, n);
    var dq := Run(cfg, p).restarts;
    if p != [] {
      WindowIsRecount(cfg, p);
      WithinSorted(all, p[|p| - 1].now, w);
      WithinLater(all, p[|p| - 1].now, x.now, w);
      assert forall i :: 0 <= i < |dq| ==> dq[i] in all;
    }
    assert forall i :: 0 <= i < |dq| ==> dq[i] <= x.now;
    SortedAppend(dq, new_, x.now);
    TrimIsFilterIff(dq + new_, x.now, w);
    WithinAppend(dq, new_, x.now, w);
    WithinAppend(all, new_, x.now, w);
  }

  lemma SortedAppend(a: seq<real>, b: seq<real>, t: real)
    requires Sorted(a)
    requires forall i :: 0 <= i < |a| ==> a[i] <= t
    requires forall i :: 0 <= i < |b| ==> b[i] == t
    ensures Sorted(a + b)
  {
  }

  // --- restart-loop events are rising edges --------------------------------------------------

  /** The recount at snapshot `j` reaches the threshold. */
  predicate OverAt(cfg: Config, h: seq<Sample>, j: nat)
    requires j < |h|
  {
    |Run(cfg, h[..j + 1]).restarts| >= cfg.restartLoopThreshold
  }

  predicate RecoversAt(h: seq<Sample>, j: nat)
    requires j < |h|
  {
    j > 0 && IsActive(h[j].props) && IsFailed(h[j - 1].props)
  }

  predicate IsLoopEvent(e: Event) { e.kind == Some(RestartLoop) }

  predicate IsFailureEvent(e: Event) { e.kind == Some(Crash) || e.kind == Some(Oom) || e.kind == Some(Failed) }

  predicate IsRecoveryEvent(e: Event) { e.recovery }

  function Number(evs: seq<Event>, p: Event -> bool): nat {
    if evs == [] then 0 else Number(evs[..|evs| - 1], p) + (if p(evs[|evs| - 1]) then 1 else 0)
  }

  lemma {:induction false} NumberAppend(a: seq<Event>, b: seq<Event>, p: Event -> bool)
    ensures Number(a + b, p) == Number(a, p) + Number(b, p)
    decreases |b|
  {
    if b == [] {
      assert a + b == a;
    } else {
      assert (a + b)[..|a + b| - 1] == a + b[..|b| - 1];
      NumberAppend(a, b[..|b| - 1], p);
    }
  }

  lemma NumberOne(c: bool, e: Event, p: Event -> bool)
    ensures Number(if c then [e] else [], p) == if c && p(e) then 1 else 0
  {
    assert [e][..0] == [];
  }

  /** The events of one snapshot, counted by sort. */
  lemma EventCounts(cfg: Config, unit: string, s: UnitState, x: Sample)
    ensures Number(EventsOf(cfg, unit, s, x), IsRecoveryEvent) == if Recovers(s.prev, x.props) then 1 else 0
    ensures Number(EventsOf(cfg, unit, s, x), IsFailureEvent) == if Fails(s.prev, x.props) then 1 else 0
    ensures Number(EventsOf(cfg, unit, s, x), IsLoopEvent) == if Loops(cfg, s, x) then 1 else 0
  {
    CountOne(cfg, unit, s, x, IsRecoveryEvent);
    CountOne(cfg, unit, s, x, IsFailureEvent);
    CountOne(cfg, unit, s, x, IsLoopEvent);
  }

  lemma CountOne(cfg: Config, unit: string, s: UnitState, x: Sample, p: Event -> bool)
    ensures Number(EventsOf(cfg, unit, s, x), p)
            == (if Recovers(s.prev, x.props) && p(Classify.RecoveryMarker(unit, x.now)) then 1 else 0)
             + (if Fails(s.prev, x.props) && p(FailureEvent(unit, x.props, x.now)) then 1 else 0)
             + (if Loops(cfg, s, x) && p(LoopEvent(unit, |Window(cfg, s, x)|,
                                                   TruncatedSeconds(cfg.restartLoopWindow), x.now)) then 1 else 0)
  {
    var r, f := Classify.RecoveryMarker(unit, x.now), FailureEvent(unit, x.props, x.now);
    var l := LoopEvent(unit, |Window(cfg, s, x)|, TruncatedSeconds(cfg.restartLoopWindow), x.now);
    var a := if Recovers(s.prev, x.props) then [r] else [];
    var b := if Fails(s.prev, x.props) then [f] else [];
    var c := if Loops(cfg, s, x) then [l] else [];
    NumberOne(Recovers(s.prev, x.props), r, p);
    NumberOne(Fails(s.prev, x.props), f, p);
    NumberOne(Loops(cfg, s, x), l, p);
    NumberAppend(a, b, p);
    NumberAppend(a + b, c, p);
  }

  /** Restart-loop events are exactly the rising edges of "over the threshold", where a
      recovery counts as a fall. */
  lemma LoopEventsAreEdges(cfg: Config, unit: string, h: seq<Sample>, j: nat)
    requires j < |h|
    ensures Number(Emitted(cfg, unit, h, j), IsLoopEvent)
            == if OverAt(cfg, h, j) && (j > 0 ==> RecoversAt(h, j) || !OverAt(cfg, h, j - 1)) then 1 else 0
    ensures Run(cfg, h[..j + 1]).loopActive == OverAt(cfg, h, j)
  {
    EventCounts(cfg, unit, Run(cfg, h[..j]), h[j]);
    RunStep(cfg, h, j);
    if j > 0 { RunStep(cfg, h, j - 1); }
    PrevIs(cfg, h[..j]);
  }

  lemma RunStep(cfg: Config, h: seq<Sample>, j: nat)
    requires j < |h|
    ensures Run(cfg, h[..j + 1]) == Observed(cfg, Run(cfg, h[..j]), h[j])
  {
    assert h[..j + 1][..j] == h[..j];
  }

  /** Between two restart-loop events the count fell below the threshold or the unit
      recovered. */
  lemma LoopEventsAreSeparated(cfg: Config, unit: string, h: seq<Sample>, i: nat, j: nat)
    requires i < j < |h|
    requires Number(Emitted(cfg, unit, h, i), IsLoopEvent) > 0 && Number(Emitted(cfg, unit, h, j), IsLoopEvent) > 0
    ensures exists m :: i < m <= j && ((m < j && !OverAt(cfg, h, m)) || RecoversAt(h, m))
  {
    LoopEventsAreEdges(cfg, unit, h, i);
    LoopEventsAreEdges(cfg, unit, h, j);
    if RecoversAt(h, j) {
    } else {
      assert !OverAt(cfg, h, j - 1);
    }
  }

  function Total(cfg: Config, unit: string, h: seq<Sample>, p: Event -> bool): nat {
    if h == [] then 0
    else Total(cfg, unit, h[..|h| - 1], p) + Number(Emitted(cfg, unit, h, |h| - 1), p)
  }

  /** With a positive threshold a restart-loop event outside a recovery needs a restart
      seen in that very poll. */
  lemma LoopNeedsRestart(cfg: Config, unit: string, h: seq<Sample>, j: nat)
    requires j < |h| && cfg.restartLoopThreshold > 0
    requires Number(Emitted(cfg, unit, h, j), IsLoopEvent) > 0 && !RecoversAt(h, j)
    ensures j > 0 && Increase(Some(h[j - 1].props), h[j].props) > 0
  {
    LoopEventsAreEdges(cfg, unit, h, j);
    PrevIs(cfg, h[..j]);
    assert h[..j + 1][..j] == h[..j];
    var s := Run(cfg, h[..j]);
    var n := Increase(s.prev, h[j].props);
    RepeatIs(h[j].now, n);
    TrimShrinks(s.restarts + Repeat(h[j].now, n), h[j].now, cfg.restartLoopWindow);
  }

  /** Over a whole life of the monitor: no more loop events than restarts and recoveries. */
  lemma {:induction false} LoopEventsBounded(cfg: Config, unit: string, h: seq<Sample>)
    requires cfg.restartLoopThreshold > 0
    ensures Total(cfg, unit, h, IsLoopEvent) <= |AllRestarts(h)| + Total(cfg, unit, h, IsRecoveryEvent)
    decreases |h|
  {
    if h != [] {
      var j := |h| - 1;
      LoopEventsBounded(cfg, unit, h[..j]);
      var s := Run(cfg, h[..j]);
      EventCounts(cfg, unit, s, h[j]);
      PrevIs(cfg, h[..j]);
      RepeatIs(h[j].now, Increase(s.prev, h[j].props));
      if Loops(cfg, s, h[j]) && !RecoversAt(h, j) {
        LoopNeedsRestart(cfg, unit, h, j);
      }
    }
  }

  // --- failures and recoveries ----------------------------------------------------------------

  /** [i, j) is a run of failed snapshots that cannot be extended. */
  ghost predicate MaximalRun(h: seq<Sample>, i: nat, j: nat) {
    && i < j <= |h|
    && (forall k :: i <= k < j ==> IsFailed(h[k].props))
    && (i > 0 ==> !IsFailed(h[i - 1].props))
    && (j < |h| ==> !IsFailed(h[j].props))
  }

  function RunEnd(h: seq<Sample>, i: nat): (j: nat)
    requires i <= |h|
    ensures i <= j <= |h|
    ensures forall k :: i <= k < j ==> IsFailed(h[k].props)
    ensures j < |h| ==> !IsFailed(h[j].props)
    decreases |h| - i
  {
    if i < |h| && IsFailed(h[i].props) then RunEnd(h, i + 1) else i
  }

  function RunStart(h: seq<Sample>, j: nat): (i: nat)
    requires j <= |h|
    ensures i <= j
    ensures forall k :: i <= k < j ==> IsFailed(h[k].props)
    ensures i > 0 ==> !IsFailed(h[i - 1].props)
  {
    if j > 0 && IsFailed(h[j - 1].props) then RunStart(h, j - 1) else j
  }

  /** Failure events correspond to the maximal runs of failed snapshots: one at the
      start of each, and no others. */
  lemma FailuresAreRuns(cfg: Config, unit: string, h: seq<Sample>, i: nat)
    requires i < |h|
    ensures Number(Emitted(cfg, unit, h, i), IsFailureEvent)
            == if exists j: nat :: MaximalRun(h, i, j) then 1 else 0
  {
    EventCounts(cfg, unit, Run(cfg, h[..i]), h[i]);
    PrevIs(cfg, h[..i]);
    if Fails(Run(cfg, h[..i]).prev, h[i].props) {
      assert MaximalRun(h, i, RunEnd(h, i));
    }
  }

  /** Recovery markers correspond to the maximal runs that an active snapshot follows. */
  lemma RecoveriesEndRuns(cfg: Config, unit: string, h: seq<Sample>, j: nat)
    requires j < |h|
    ensures Number(Emitted(cfg, unit, h, j), IsRecoveryEvent)
            == if IsActive(h[j].props) && exists i: nat :: MaximalRun(h, i, j) then 1 else 0
  {
    EventCounts(cfg, unit, Run(cfg, h[..j]), h[j]);
    PrevIs(cfg, h[..j]);
    if RecoversAt(h, j) {
      assert MaximalRun(h, RunStart(h, j), j);
    }
  }

  /** Every recovery is preceded by a failure, with no recovery in between. */
  lemma RecoveryFollowsFailure(cfg: Config, unit: string, h: seq<Sample>, j: nat)
    requires j < |h| && Number(Emitted(cfg, unit, h, j), IsRecoveryEvent) > 0
    ensures exists i: nat :: i < j && Number(Emitted(cfg, unit, h, i), IsFailureEvent) == 1
                        && forall k :: i <= k < j ==> Number(Emitted(cfg, unit, h, k), IsRecoveryEvent) == 0
  {
    RecoveriesEndRuns(cfg, unit, h, j);
    var i: nat :| MaximalRun(h, i, j);
    FailuresAreRuns(cfg, unit, h, i);
    forall k | i <= k < j ensures Number(Emitted(cfg, unit, h, k), IsRecoveryEvent) == 0 {
      RecoveriesEndRuns(cfg, unit, h, k);
      assert IsFailed(h[k].props);
    }
  }

  // --- restart loops group into one incident -------------------------------------------------

  lemma LoopKey(unit: string, n: nat, v: int, t: real, errorPriority: int)
    ensures var e := LoopEvent(unit, n, v, t);
            var c := Classify.Classified(e, errorPriority);
            c.kind.Some? &&
            Tables.KeyOf(c) == Tables.Key(unit, RestartLoop, Signature.Cut(Signature.Normalise(e.message)))
  {
  }

  function LoopHead(unit: string): string { unit + ": restart loop — " }

  function LoopTail(window: int): string { " restarts in " + Signature.ShowInt(window) + "s" }

  lemma CountIrrelevant(unit: string, n: nat, m: nat, window: int)
    ensures Signature.Normalise(LoopHead(unit) + Decimal(n) + LoopTail(window))
         == Signature.Normalise(LoopHead(unit) + Decimal(m) + LoopTail(window))
  {
    var p, tail := LoopHead(unit), LoopTail(window);
    assert p[|p| - 1] == ' ' && tail[0] == ' ' && Lower(tail)[0] == ' ';
    Signature.NumbersDoNotMatter(p, Decimal(n), Decimal(m), tail);
  }

  lemma LoopMessage(unit: string, n: nat, v: int, t: real)
    ensures LoopEvent(unit, n, v, t).message == LoopHead(unit) + Decimal(n) + LoopTail(v)
    ensures LoopEvent(unit, n, v, t).message == LoopFront(unit, n) + Signature.ShowInt(v) + "s"
  {
  }

  function LoopFront(unit: string, n: nat): string { LoopHead(unit) + Decimal(n) + " restarts in " }

  /** Two restart-loop events of a unit have one incident key, whatever counts and windows
      their texts name, if and only if the windows have the same sign (a configured window
      may be negative) or the sign lies behind the cut of the signature. In particular all
      events under one configuration fall into one incident. */
  lemma LoopEventsShareKeyIff(unit: string, n: nat, m: nat, v: int, w: int, t: real, u: real, errorPriority: int)
    ensures var a := Classify.Classified(LoopEvent(unit, n, v, t), errorPriority);
            var b := Classify.Classified(LoopEvent(unit, m, w, u), errorPriority);
            && a.kind.Some? && b.kind.Some?
            && (Tables.KeyOf(a) == Tables.KeyOf(b)
                <==> (v < 0 <==> w < 0) || |Signature.Front(LoopFront(unit, n))| >= 80)
  {
    hide Signature.Normalise, Signature.Cut, Signature.Front, Signature.ShowInt, Decimal, LoopEvent, LoopFront;
    LoopKey(unit, n, v, t, errorPriority);
    LoopKey(unit, m, w, u, errorPriority);
    LoopMessage(unit, n, v, t);
    LoopMessage(unit, m, w, u);
    LoopMessage(unit, n, w, u);
    CountIrrelevant(unit, n, m, w);
    FrontEndsWithSpace(unit, n);
    Signature.DurationIrrelevantIff(LoopFront(unit, n), v, w);
  }

  lemma FrontEndsWithSpace(unit: string, n: nat)
    ensures Signature.EndsWithSpace(LoopFront(unit, n))
  {
  }

  predicate IsDeath(k: Option<Kind>) { k == Some(Crash) || k == Some(Oom) || k == Some(Failed) }

  /** What the journal says about a death and what the monitor sees of it: two problems of
      these kinds fall into one incident exactly when they are of one unit and one kind
      and, for crashes, tell the same way of dying; their messages do not matter. */
  lemma OneIncidentIff(a: Event, b: Event, errorPriority: int)
    requires a.signature.None? && b.signature.None?
    requires IsDeath(Classify.Classified(a, errorPriority).kind) && IsDeath(Classify.Classified(b, errorPriority).kind)
    ensures var c, d := Classify.Classified(a, errorPriority), Classify.Classified(b, errorPriority);
            Tables.KeyOf(c) == Tables.KeyOf(d)
            <==> && a.unit.GetOr("") == b.unit.GetOr("") && c.kind == d.kind
                 && (c.kind == Some(Crash) ==>
                       Signature.DeathOf(c.exitCode, c.signal) == Signature.DeathOf(d.exitCode, d.signal))
  {
    var c, d := Classify.Classified(a, errorPriority), Classify.Classified(b, errorPriority);
    KeptByClassify(a, errorPriority);
    KeptByClassify(b, errorPriority);
    Signature.CrashKeyIff(c.exitCode, c.signal, c.message, d.exitCode, d.signal, d.message);
  }

  /** The first 80 characters. */
  ghost function Head80(s: string): string { if |s| <= 80 then s else s[..80] }

  /** Two errors fall into one incident exactly when they are of one unit and their messages
      have the same normal form, as far as its first 80 characters. */
  lemma ErrorsShareKeyIff(a: Event, b: Event, errorPriority: int)
    requires a.signature.None? && b.signature.None?
    requires Classify.Classified(a, errorPriority).kind == Some(Error)
    requires Classify.Classified(b, errorPriority).kind == Some(Error)
    ensures var c, d := Classify.Classified(a, errorPriority), Classify.Classified(b, errorPriority);
            Tables.KeyOf(c) == Tables.KeyOf(d)
            <==> && a.unit.GetOr("") == b.unit.GetOr("")
                 && Head80(Signature.Normalise(a.message)) == Head80(Signature.Normalise(b.message))
  {
    KeptByClassify(a, errorPriority);
    KeptByClassify(b, errorPriority);
    hide Classify.Classified, Signature.Normalise;
  }

  lemma KeptByClassify(ev: Event, errorPriority: int)
    requires ev.signature.None?
    ensures var c := Classify.Classified(ev, errorPriority);
            c.unit == ev.unit && c.message == ev.message
            && (c.kind.Some? ==>
                  c.signature == Some(Signature.SignatureOf(c.kind.value, c.exitCode, c.signal, c.message)))
  {
    hide Classify.IsOom, Classify.IsSegfault, Classify.MainExitFrom, Classify.FailedResultFrom, Contains,
         Signature.SignatureOf, Classify.BeforeSlash, ParseInt;
  }
}

/** What the unit monitor reports, read off the properties that systemctl shows: restart
    counters, states and exit data, by their own names (hblog/sources/units.py). */
module Readings {
  import opened Model
  import opened Text
  import opened Systemctl
  import opened Observer
  import Classify
  import Signature
  import Tables
  import M = Monitor

  // --- what a snapshot says ---------------------------------------------------------------------

  /** The number that a property shows, if it shows one. */
  ghost function Shown(x: Sample, key: string): Option<int> {
    if key in x.props then ParseInt(x.props[key]) else None
  }

  ghost predicate InState(x: Sample, state: string) {
    "ActiveState" in x.props && x.props["ActiveState"] == state
  }

  ghost predicate HasResult(x: Sample, result: string) {
    "Result" in x.props && Lower(x.props["Result"]) == result
  }

  /** Reading is the inverse of showing. */
  lemma ShownReadsBack(n: int)
    ensures ParseInt(Signature.ShowInt(n)) == Some(n)
  {
    var m := if n < 0 then -n else n;
    Signature.DecimalReads(m);
    DigitsRead(Decimal(m));
  }

  /** Numbers in print. */
  lemma NumbersShown()
    ensures Decimal(7) == "7" && Decimal(42) == "42" && Signature.ShowInt(-15) == "-15"
  {
    assert Decimal(4) == "4" && Decimal(1) == "1";
    assert Decimal(15) == Decimal(1) + "5";
  }

  lemma DigitsRead(d: string)
    requires d != [] && AllDigits(d)
    ensures ParseInt(d) == Some(DigitsValue(d)) && ParseInt("-" + d) == Some(0 - DigitsValue(d))
  {
    hide Strip, DigitsValue;
    var m := "-" + d;
    assert m[|m| - 1] == d[|d| - 1] && m[1..] == d;
    NothingStripped(d);
    NothingStripped(m);
    assert d[0] != '-' && d[0] != '+';
  }

  // --- restarts are what the counter grew by ------------------------------------------------------

  /** By how much snapshot `j` shows the counter grown: nothing unless the snapshot before
      shows a smaller one; a counter that is not shown is zero. */
  ghost function Grown(h: seq<Sample>, j: nat): nat
    requires j < |h|
  {
    if j == 0 then 0
    else
      match Shown(h[j - 1], "NRestarts")
      case None => 0
      case Some(before) =>
        var cur := match Shown(h[j], "NRestarts") { case None => 0 case Some(n) => n };
        if cur > before then cur - before else 0
  }

  lemma IncreaseIsGrown(h: seq<Sample>, j: nat)
    requires j < |h|
    ensures Increase(if j == 0 then None else Some(h[j - 1].props), h[j].props) == Grown(h, j)
  {
  }

  /** The restarts that one more snapshot adds are as many as the counter grew by, each with
      the time of the snapshot. */
  lemma RestartsAdded(h: seq<Sample>, j: nat)
    requires j < |h|
    ensures var old_, new_ := AllRestarts(h[..j]), AllRestarts(h[..j + 1]);
            && |new_| == |old_| + Grown(h, j) && old_ <= new_
            && forall i :: |old_| <= i < |new_| ==> new_[i] == h[j].now
  {
    hide Grown, Increase, Repeat;
    var p, x := h[..j], h[j];
    assert h[..j + 1][..j] == p && h[..j + 1][j] == x;
    IncreaseIsGrown(h, j);
    assert j > 0 ==> p[|p| - 1] == h[j - 1];
    RepeatIs(x.now, Grown(h, j));
  }

  /** A counter that is always shown and never goes back is counted in full. */
  lemma {:induction false} CounterIsCount(h: seq<Sample>, first: int, last: int)
    requires h != [] && Shown(h[0], "NRestarts") == Some(first) && Shown(h[|h| - 1], "NRestarts") == Some(last)
    requires forall j :: 0 <= j < |h| ==> Shown(h[j], "NRestarts").Some?
    requires forall j :: 0 < j < |h| ==> Shown(h[j - 1], "NRestarts").value <= Shown(h[j], "NRestarts").value
    ensures |AllRestarts(h)| == last - first
    decreases |h|
  {
    var n := |h| - 1;
    assert h[..n + 1] == h;
    RestartsAdded(h, n);
    if n == 0 {
      assert h[..0] == [];
    } else {
      assert h[..n][0] == h[0] && h[..n][n - 1] == h[n - 1];
      hide AllRestarts, Shown;
      CounterIsCount(h[..n], first, Shown(h[n - 1], "NRestarts").value);
    }
  }

  // --- the alarm ---------------------------------------------------------------------------------------

  /** How many restarts the first `n` snapshots show that are not older than the window. */
  ghost function Recent(h: seq<Sample>, n: nat, now: real, window: real): nat
    requires n <= |h|
  {
    if n == 0 then 0
    else Recent(h, n - 1, now, window) + (if now - h[n - 1].now <= window then Grown(h, n - 1) else 0)
  }

  lemma {:induction false} WithinRepeat(t: real, n: nat, now: real, window: real)
    ensures |Within(Repeat(t, n), now, window)| == if now - t <= window then n else 0
  {
    if n > 0 {
      WithinRepeat(t, n - 1, now, window);
      WithinAppend(Repeat(t, n - 1), [t], now, window);
      assert [t][1..] == [];
    }
  }

  lemma {:induction false} RecentIs(h: seq<Sample>, n: nat, now: real, window: real)
    requires n <= |h|
    ensures |Within(AllRestarts(h[..n]), now, window)| == Recent(h, n, now, window)
  {
    if n > 0 {
      var p, x := h[..n - 1], h[n - 1];
      assert h[..n][..n - 1] == p && h[..n][n - 1] == x;
      hide Grown, Increase, Repeat, Within;
      IncreaseIsGrown(h, n - 1);
      assert n > 1 ==> p[|p| - 1] == h[n - 2];
      RecentIs(h, n - 1, now, window);
      WithinAppend(AllRestarts(p), Repeat(x.now, Grown(h, n - 1)), now, window);
      WithinRepeat(x.now, Grown(h, n - 1), now, window);
    }
  }

  /** The restarts that snapshot `j` finds in the window. */
  ghost function InWindow(cfg: Config, h: seq<Sample>, j: nat): nat
    requires j < |h|
  {
    Recent(h, j + 1, h[j].now, cfg.restartLoopWindow)
  }

  ghost predicate RecoveredAt(h: seq<Sample>, j: nat)
    requires j < |h|
  {
    j > 0 && InState(h[j], "active") && InState(h[j - 1], "failed")
  }

  lemma WindowIs(cfg: Config, h: seq<Sample>, j: nat)
    requires j < |h| && ClockRuns(h)
    ensures |Observer.Run(cfg, h[..j + 1]).restarts| == InWindow(cfg, h, j)
  {
    hide Observer.Run, AllRestarts, Within, Recent;
    assert h[..j + 1][j] == h[j];
    WindowIsRecount(cfg, h[..j + 1]);
    RecentIs(h, j + 1, h[j].now, cfg.restartLoopWindow);
  }

  /** When the alarm is due: the window holds as many restarts as the threshold asks for,
      and did not at the snapshot before, or the unit has just recovered. */
  ghost predicate AlarmDue(cfg: Config, h: seq<Sample>, j: nat)
    requires j < |h|
  {
    && InWindow(cfg, h, j) >= cfg.restartLoopThreshold
    && (j == 0 || InWindow(cfg, h, j - 1) < cfg.restartLoopThreshold || RecoveredAt(h, j))
  }

  lemma RecoversIs(h: seq<Sample>, j: nat)
    requires j < |h|
    ensures RecoversAt(h, j) <==> RecoveredAt(h, j)
  {
  }

  /** Truncation towards zero. */
  lemma SecondsAreTruncated(r: real)
    ensures var t := TruncatedSeconds(r) as real;
            && (r >= 0.0 ==> t <= r < t + 1.0)
            && (r < 0.0 ==> t - 1.0 < r <= t)
  {
  }

  /** The alarm's event. */
  ghost predicate IsAlarm(cfg: Config, unit: string, x: Sample, count: nat, e: Event) {
    && e.ts == x.now && e.unit == Some(unit) && e.source == "units" && e.priority == 3
    && e.kind == Some(RestartLoop) && e.exitCode == None && e.signal == None
    && e.message == unit + ": restart loop — " + Decimal(count) + " restarts in "
                    + Signature.ShowInt(TruncatedSeconds(cfg.restartLoopWindow)) + "s"
    && e.cursor == None && !e.recovery && e.signature == None
  }

  /** With a clock that does not go back: a snapshot raises the alarm if and only if it is
      due, and then once, with the number of restarts in the window. */
  lemma AlarmIff(cfg: Config, unit: string, h: seq<Sample>, j: nat)
    requires j < |h| && ClockRuns(h)
    ensures (exists e :: e in Emitted(cfg, unit, h, j) && e.kind == Some(RestartLoop)) <==> AlarmDue(cfg, h, j)
    ensures forall e :: e in Emitted(cfg, unit, h, j) && e.kind == Some(RestartLoop)
                        ==> IsAlarm(cfg, unit, h[j], InWindow(cfg, h, j), e)
  {
    LoopIff(cfg, unit, h, j);
    AlarmContents(cfg, unit, h, j);
    hide Emitted, InWindow, IsAlarm, Number;
    NumberPositive(Emitted(cfg, unit, h, j), IsLoopEvent);
  }

  lemma {:induction false} NumberPositive(evs: seq<Event>, p: Event -> bool)
    ensures Number(evs, p) > 0 <==> exists e :: e in evs && p(e)
    decreases |evs|
  {
    if evs != [] {
      var n := |evs| - 1;
      NumberPositive(evs[..n], p);
      assert evs == evs[..n] + [evs[n]];
    }
  }

  lemma LoopIff(cfg: Config, unit: string, h: seq<Sample>, j: nat)
    requires j < |h| && ClockRuns(h)
    ensures Number(Emitted(cfg, unit, h, j), IsLoopEvent) > 0 <==> AlarmDue(cfg, h, j)
  {
    hide Emitted, InWindow, Observer.Run, Number;
    LoopEventsAreEdges(cfg, unit, h, j);
    WindowIs(cfg, h, j);
    if j > 0 { WindowIs(cfg, h, j - 1); }
    RecoversIs(h, j);
  }

  lemma AlarmContents(cfg: Config, unit: string, h: seq<Sample>, j: nat)
    requires j < |h| && ClockRuns(h)
    ensures forall e :: e in Emitted(cfg, unit, h, j) && e.kind == Some(RestartLoop)
                        ==> IsAlarm(cfg, unit, h[j], InWindow(cfg, h, j), e)
  {
    hide InWindow, Observer.Run, ParseInt, Increase, Trimmed, Lower, Decimal, Signature.ShowInt, TruncatedSeconds;
    WindowIs(cfg, h, j);
    RunStep(cfg, h, j);
    assert |Window(cfg, Observer.Run(cfg, h[..j]), h[j])| == InWindow(cfg, h, j);
  }

  /** Five restarts between two polls are five restarts: a jump of the counter by the
      threshold raises the alarm at once. */
  lemma JumpAlarms(cfg: Config, unit: string, a: Sample, b: Sample, before: int, after: int)
    requires Shown(a, "NRestarts") == Some(before) && Shown(b, "NRestarts") == Some(after)
    requires after - before >= cfg.restartLoopThreshold > 0
    requires a.now <= b.now && cfg.restartLoopWindow >= 0.0
    ensures exists e :: e in Emitted(cfg, unit, [a, b], 1) && e.kind == Some(RestartLoop)
  {
    var h := [a, b];
    hide Emitted, Shown;
    AlarmIff(cfg, unit, h, 1);
    assert Grown(h, 0) == 0 && Grown(h, 1) == after - before;
    assert Recent(h, 0, b.now, cfg.restartLoopWindow) == 0 && Recent(h, 0, a.now, cfg.restartLoopWindow) == 0;
    assert Recent(h, 1, b.now, cfg.restartLoopWindow) == 0 && Recent(h, 1, a.now, cfg.restartLoopWindow) == 0;
  }

  // --- failures ----------------------------------------------------------------------------------------

  /** What a failed snapshot says about the death: killed by the kernel for memory, exited
      (1) with a code, killed (2) or dumped (3) by a signal; else nothing is known. */
  ghost predicate TellsDeath(x: Sample, kind: Option<Kind>, exitCode: Option<int>, signal: Option<int>) {
    var how, status := Shown(x, "ExecMainCode"), Shown(x, "ExecMainStatus");
    var told := !HasResult(x, "oom-kill") && status.Some? && status != Some(0);
    && (HasResult(x, "oom-kill") ==> kind == Some(Oom) && exitCode == None && signal == None)
    && (told && how == Some(1) ==> kind == Some(Crash) && exitCode == status && signal == None)
    && (told && (how == Some(2) || how == Some(3)) ==> kind == Some(Crash) && exitCode == None && signal == status)
    && (!HasResult(x, "oom-kill") && !(told && (how == Some(1) || how == Some(2) || how == Some(3))) ==>
          kind == Some(Failed) && exitCode == None && signal == None)
  }

  ghost predicate IsFailure(unit: string, x: Sample, e: Event) {
    && e.ts == x.now && e.unit == Some(unit) && e.source == "units" && e.priority == 3
    && TellsDeath(x, e.kind, e.exitCode, e.signal)
    && (exists detail :: e.message == unit + ": entered failed state (" + detail + ")")
    && e.cursor == None && !e.recovery && e.signature == None
  }

  lemma FailureTells(unit: string, x: Sample)
    ensures IsFailure(unit, x, FailureEvent(unit, x.props, x.now))
  {
    hide Signature.ShowInt, ParseInt;
    assert Lower("") == "";
    ResultIs(x);
  }

  lemma ResultIs(x: Sample)
    ensures Lower(Prop(x.props, "Result", "")) == "oom-kill" <==> HasResult(x, "oom-kill")
  {
    assert Lower("") == "";
  }

  /** A failure is reported at the first failed snapshot behind one that was not, and then
      once, with what the snapshot tells about the death. */
  lemma FailureIff(cfg: Config, unit: string, h: seq<Sample>, j: nat)
    requires j < |h|
    ensures (exists e :: e in Emitted(cfg, unit, h, j) && e.kind.Some? && e.kind != Some(RestartLoop))
            <==> InState(h[j], "failed") && (j == 0 || !InState(h[j - 1], "failed"))
    ensures forall e :: e in Emitted(cfg, unit, h, j) && e.kind.Some? && e.kind != Some(RestartLoop)
                        ==> IsFailure(unit, h[j], e)
  {
    EmittedIs(cfg, unit, h, j);
    FailureTells(unit, h[j]);
    var f := FailureEvent(unit, h[j].props, h[j].now);
    assert f.kind.Some? && f.kind != Some(RestartLoop);
    FailsIs(h, j);
    hide Emitted, IsFailure, InState, Fails, Recovers, Loops, FailureEvent;
    assert forall e :: e in Emitted(cfg, unit, h, j) && e.kind.Some? && e.kind != Some(RestartLoop) ==> e == f;
  }

  // --- recoveries ----------------------------------------------------------------------------------------

  ghost predicate IsRecovery(unit: string, x: Sample, e: Event) {
    && e.ts == x.now && e.unit == Some(unit) && e.source == "units" && e.priority == 5
    && e.kind == None && e.exitCode == None && e.signal == None
    && e.message == unit + ": recovered (active)"
    && e.cursor == None && e.recovery && e.signature == None
  }

  /** A recovery is reported at an active snapshot directly behind a failed one, and then
      before everything else. */
  lemma RecoveryIff(cfg: Config, unit: string, h: seq<Sample>, j: nat)
    requires j < |h|
    ensures (exists e :: e in Emitted(cfg, unit, h, j) && e.recovery) <==> RecoveredAt(h, j)
    ensures RecoveredAt(h, j) ==> IsRecovery(unit, h[j], Emitted(cfg, unit, h, j)[0])
    ensures forall i :: 0 < i < |Emitted(cfg, unit, h, j)| ==> !Emitted(cfg, unit, h, j)[i].recovery
    ensures forall e :: e in Emitted(cfg, unit, h, j) ==> e.recovery || e.kind.Some?
  {
    EmittedIs(cfg, unit, h, j);
    RecoversIs(h, j);
    FailsIs(h, j);
    RecoverOrFail(h, j);
    hide Emitted, InState, Fails, Loops, Recovers, RecoveredAt, LoopEvent;
  }

  /** At most three events, in this order. */
  lemma EmittedIs(cfg: Config, unit: string, h: seq<Sample>, j: nat)
    requires j < |h|
    ensures var s, x := Observer.Run(cfg, h[..j]), h[j];
            Emitted(cfg, unit, h, j)
            == (if RecoversAt(h, j) then [Classify.RecoveryMarker(unit, x.now)] else [])
               + (if IsFailed(x.props) && (j > 0 ==> !IsFailed(h[j - 1].props)) then [FailureEvent(unit, x.props, x.now)] else [])
               + (if Loops(cfg, s, x)
                  then [LoopEvent(unit, |Window(cfg, s, x)|, TruncatedSeconds(cfg.restartLoopWindow), x.now)] else [])
  {
    PrevIs(cfg, h[..j]);
    hide Observer.Run, FailureEvent, LoopEvent, Window, Loops;
  }

  lemma FailsIs(h: seq<Sample>, j: nat)
    requires j < |h|
    ensures IsFailed(h[j].props) && (j > 0 ==> !IsFailed(h[j - 1].props))
            <==> InState(h[j], "failed") && (j == 0 || !InState(h[j - 1], "failed"))
  {
  }

  lemma RecoverOrFail(h: seq<Sample>, j: nat)
    requires j < |h|
    ensures !(RecoversAt(h, j) && IsFailed(h[j].props))
  {
  }

  // --- status rows -------------------------------------------------------------------------------------------

  ghost predicate SaysOr(x: Sample, key: string, value: string, default: string) {
    if key in x.props then value == x.props[key] else value == default
  }

  /** Snapshot `j` is the last active one. */
  ghost predicate LastActive(h: seq<Sample>, j: nat) {
    j < |h| && InState(h[j], "active") && forall k :: j < k < |h| ==> !InState(h[k], "active")
  }

  /** The heartbeat is the time of the last active snapshot, or 0 without one. */
  ghost predicate IsHeartbeat(h: seq<Sample>, t: real) {
    && (forall j: nat :: LastActive(h, j) ==> t == h[j].now)
    && ((forall k :: 0 <= k < |h| ==> !InState(h[k], "active")) ==> t == 0.0)
  }

  lemma {:induction false} HeartbeatIs(cfg: Config, h: seq<Sample>)
    ensures IsHeartbeat(h, Observer.Run(cfg, h).heartbeat.GetOr(0.0))
    decreases |h|
  {
    if h != [] {
      var n := |h| - 1;
      var p, t := h[..n], Observer.Run(cfg, h).heartbeat.GetOr(0.0);
      HeartbeatIs(cfg, p);
      HeartbeatStep(cfg, h);
      hide Observer.Run, InState;
      forall j: nat | LastActive(h, j) ensures t == h[j].now {
        if j < n { LastActiveBefore(h, j); }
      }
      if forall k :: 0 <= k < |h| ==> !InState(h[k], "active") {
        assert forall k :: 0 <= k < n ==> p[k] == h[k];
      }
    }
  }

  lemma HeartbeatStep(cfg: Config, h: seq<Sample>)
    requires h != []
    ensures var n := |h| - 1;
            Observer.Run(cfg, h).heartbeat.GetOr(0.0)
            == if InState(h[n], "active") then h[n].now else Observer.Run(cfg, h[..n]).heartbeat.GetOr(0.0)
  {
    hide Window, Over;
  }

  lemma LastActiveBefore(h: seq<Sample>, j: nat)
    requires LastActive(h, j) && j < |h| - 1
    ensures LastActive(h[..|h| - 1], j) && !InState(h[|h| - 1], "active")
  {
    hide InState;
    var p := h[..|h| - 1];
    assert forall k :: 0 <= k < |p| ==> p[k] == h[k];
  }

  /** The status row of a unit after its snapshots `h`. */
  ghost predicate IsStatus(unit: string, h: seq<Sample>, s: Tables.ServiceStatus)
    requires h != []
  {
    var x := h[|h| - 1];
    && s.unit == unit && s.updatedAt == x.now && IsHeartbeat(h, s.lastHeartbeat)
    && SaysOr(x, "ActiveState", s.state, "unknown")
    && SaysOr(x, "SubState", s.subState, "unknown")
    && SaysOr(x, "Result", s.result, "success")
    && (forall n :: Shown(x, "NRestarts") == Some(n) ==> s.restartCount == n)
    && (Shown(x, "NRestarts") == None ==> s.restartCount == 0)
  }

  lemma StatusIs(cfg: Config, unit: string, h: seq<Sample>)
    requires h != []
    ensures IsStatus(unit, h, StatusOf(unit, h[|h| - 1], Observer.Run(cfg, h).heartbeat))
  {
    HeartbeatIs(cfg, h);
    hide Observer.Run, IsHeartbeat, ParseInt;
  }

  // --- a whole poll ----------------------------------------------------------------------------------------------

  /** systemctl shows the unit. */
  ghost predicate IsShown(props: map<string, Props>, u: string) {
    u in props && props[u] != map[]
  }

  /** The history of a unit with the snapshot of this poll. */
  ghost function Now(seen: M.Histories, props: map<string, Props>, now: real, u: string): seq<Sample>
    requires IsShown(props, u)
  {
    M.HistoryOf(seen, u) + [Sample(now, props[u])]
  }

  lemma NowIs(cfg: Config, seen: M.Histories, props: map<string, Props>, now: real, u: string)
    requires IsShown(props, u)
    ensures var h, x := M.HistoryOf(seen, u), Sample(now, props[u]);
            && EventsOf(cfg, u, Observer.Run(cfg, h), x) == Emitted(cfg, u, Now(seen, props, now, u), |h|)
            && Observer.Run(cfg, h + [x]) == Observed(cfg, Observer.Run(cfg, h), x)
  {
    var h, x := M.HistoryOf(seen, u), Sample(now, props[u]);
    M.RunAppend(cfg, h, x);
    assert (h + [x])[..|h|] == h;
  }

  /** What the monitor remembers of a unit after its turn, or turns, in a poll. */
  lemma {:induction false} PollRemembers(cfg: Config, seen: M.Histories, units: seq<string>, props: map<string, Props>,
                                         now: real, u: string)
    ensures var o := M.PolledAll(cfg, M.Outcome(seen, [], []), units, props, now);
            Observer.Run(cfg, M.HistoryOf(o.seen, u))
            == if u in units && IsShown(props, u) then Observer.Run(cfg, Now(seen, props, now, u))
               else Observer.Run(cfg, M.HistoryOf(seen, u))
    decreases |units|
  {
    if units != [] {
      var n := |units| - 1;
      var v := units[n];
      assert units == units[..n] + [v];
      hide Observer.Run, EventsOf;
      PollRemembers(cfg, seen, units[..n], props, now, u);
      if u == v && IsShown(props, v) {
        var p := M.PolledAll(cfg, M.Outcome(seen, [], []), units[..n], props, now);
        TurnRemembers(cfg, M.HistoryOf(seen, v), M.HistoryOf(p.seen, v), Sample(now, props[v]), v in units[..n]);
      }
    }
  }

  lemma TurnRemembers(cfg: Config, h: seq<Sample>, g: seq<Sample>, x: Sample, again: bool)
    requires Observer.Run(cfg, g) == Observer.Run(cfg, if again then h + [x] else h)
    ensures Observer.Run(cfg, g + [x]) == Observer.Run(cfg, h + [x])
  {
    hide Observer.Run;
    M.RunAppend(cfg, g, x);
    M.RunAppend(cfg, h, x);
    AgainIsNothing(cfg, Observer.Run(cfg, h), x);
  }

  ghost predicate Reports(cfg: Config, seen: M.Histories, props: map<string, Props>, now: real, u: string, e: Event) {
    IsShown(props, u) && var h := Now(seen, props, now, u); e in Emitted(cfg, u, h, |h| - 1)
  }

  /** A poll reports exactly what the snapshots of its units imply, each in view of all the
      snapshots of that unit before. */
  lemma {:induction false} PollReportsIff(cfg: Config, seen: M.Histories, units: seq<string>, props: map<string, Props>,
                                          now: real, e: Event)
    ensures e in M.PolledAll(cfg, M.Outcome(seen, [], []), units, props, now).events
            <==> exists u :: u in units && Reports(cfg, seen, props, now, u, e)
    decreases |units|
  {
    if units != [] {
      var n := |units| - 1;
      var v := units[n];
      assert units == units[..n] + [v];
      hide Observer.Run, EventsOf, Reports;
      PollReportsIff(cfg, seen, units[..n], props, now, e);
      if IsShown(props, v) {
        PollRemembers(cfg, seen, units[..n], props, now, v);
        TurnReports(cfg, seen, M.PolledAll(cfg, M.Outcome(seen, [], []), units[..n], props, now).seen, props, now, v,
                    v in units[..n], e);
      } else {
        HiddenReportsNothing(cfg, seen, props, now, v, e);
      }
    }
  }

  /** Events and statuses come in the order of the units: those of the first units first. */
  lemma {:induction false} PollInOrder(cfg: Config, seen: M.Histories, units: seq<string>, props: map<string, Props>,
                                       now: real, n: nat)
    requires n <= |units|
    ensures var some, all := M.PolledAll(cfg, M.Outcome(seen, [], []), units[..n], props, now),
                             M.PolledAll(cfg, M.Outcome(seen, [], []), units, props, now);
            some.events <= all.events && some.statuses <= all.statuses
    decreases |units|
  {
    if n == |units| {
      assert units[..n] == units;
    } else {
      hide Observer.Run, EventsOf, StatusOf;
      var m := |units| - 1;
      assert units[..m][..n] == units[..n];
      PollInOrder(cfg, seen, units[..m], props, now, n);
    }
  }

  lemma HiddenReportsNothing(cfg: Config, seen: M.Histories, props: map<string, Props>, now: real, v: string, e: Event)
    requires !IsShown(props, v)
    ensures !Reports(cfg, seen, props, now, v, e)
  {
  }

  /** A unit's turn reports what is new, and on a second turn nothing. */
  lemma TurnReports(cfg: Config, seen: M.Histories, later: M.Histories, props: map<string, Props>, now: real, v: string,
                    again: bool, e: Event)
    requires IsShown(props, v)
    requires Observer.Run(cfg, M.HistoryOf(later, v))
          == if again then Observer.Run(cfg, Now(seen, props, now, v)) else Observer.Run(cfg, M.HistoryOf(seen, v))
    ensures var evs := EventsOf(cfg, v, Observer.Run(cfg, M.HistoryOf(later, v)), Sample(now, props[v]));
            e in evs <==> !again && Reports(cfg, seen, props, now, v, e)
  {
    hide Observer.Run, EventsOf, Emitted;
    var h, x := M.HistoryOf(seen, v), Sample(now, props[v]);
    NowIs(cfg, seen, props, now, v);
    AgainIsSilent(cfg, v, Observer.Run(cfg, h), x, now);
  }

  lemma {:induction false} WatchedOnlyIs(cfg: Config, units: seq<string>, u: string)
    ensures u in M.WatchedOnly(cfg, units) <==> u in units && Wanted(cfg, Some(u))
  {
    if units != [] {
      var n := |units| - 1;
      assert units == units[..n] + [units[n]];
      WatchedOnlyIs(cfg, units[..n], u);
      WatchedIsWanted(cfg, Some(units[n]));
    }
  }

  /** The units a poll asks about. */
  ghost function Asked(cfg: Config, listing: string): seq<string> {
    M.WatchedOnly(cfg, Listed(Lines(listing)))
  }

  /** A poll covers the listed units that are wanted and shown, and reports exactly what
      their snapshots imply. */
  lemma PollCovers(cfg: Config, seen: M.Histories, now: real, listing: string, show: seq<string> -> string, e: Event)
    ensures var props := Parsed(show(Asked(cfg, listing)));
            e in M.WholePoll(cfg, seen, now, listing, show).events
            <==> exists u :: u in Listed(Lines(listing)) && Wanted(cfg, Some(u)) && Reports(cfg, seen, props, now, u, e)
  {
    hide Reports, Wanted, Parsed, Lines, Listed, M.PolledAll, M.WatchedOnly;
    var units := Asked(cfg, listing);
    var props := if units != [] then Parsed(show(units)) else map[];
    PollReportsIff(cfg, seen, units, props, now, e);
    forall u ensures u in units <==> u in Listed(Lines(listing)) && Wanted(cfg, Some(u)) {
      WatchedOnlyIs(cfg, Listed(Lines(listing)), u);
    }
  }

  /** After it the monitor remembers one snapshot more of each of those, and of no other. */
  lemma PollRemembersWhole(cfg: Config, seen: M.Histories, now: real, listing: string, show: seq<string> -> string, u: string)
    ensures var props := Parsed(show(Asked(cfg, listing)));
            Observer.Run(cfg, M.HistoryOf(M.WholePoll(cfg, seen, now, listing, show).seen, u))
            == if u in Listed(Lines(listing)) && Wanted(cfg, Some(u)) && IsShown(props, u)
               then Observer.Run(cfg, Now(seen, props, now, u)) else Observer.Run(cfg, M.HistoryOf(seen, u))
  {
    hide Wanted, Parsed, Lines, Listed, M.PolledAll, M.WatchedOnly, Observer.Run, IsShown;
    var units := Asked(cfg, listing);
    var props := if units != [] then Parsed(show(units)) else map[];
    PollRemembers(cfg, seen, units, props, now, u);
    WatchedOnlyIs(cfg, Listed(Lines(listing)), u);
  }

  ghost predicate Shows(cfg: Config, seen: M.Histories, props: map<string, Props>, now: real, u: string,
                        s: Tables.ServiceStatus)
  {
    IsShown(props, u) && IsStatus(u, Now(seen, props, now, u), s)
  }

  /** The statuses of a poll are those of its units. */
  lemma {:induction false} PollStatuses(cfg: Config, seen: M.Histories, units: seq<string>, props: map<string, Props>,
                                        now: real)
    ensures var sts := M.PolledAll(cfg, M.Outcome(seen, [], []), units, props, now).statuses;
            && (forall s :: s in sts ==> s.unit in units && Shows(cfg, seen, props, now, s.unit, s))
            && (forall u :: u in units && IsShown(props, u) ==> exists s :: s in sts && s.unit == u)
    decreases |units|
  {
    if units != [] {
      var n := |units| - 1;
      var v := units[n];
      assert units == units[..n] + [v];
      hide Observer.Run, EventsOf, Shows;
      PollStatuses(cfg, seen, units[..n], props, now);
      if IsShown(props, v) {
        PollRemembers(cfg, seen, units[..n], props, now, v);
        var p := M.PolledAll(cfg, M.Outcome(seen, [], []), units[..n], props, now);
        TurnShows(cfg, seen, p.seen, props, now, v, v in units[..n]);
      }
    }
  }

  lemma TurnShows(cfg: Config, seen: M.Histories, later: M.Histories, props: map<string, Props>, now: real, v: string,
                  again: bool)
    requires IsShown(props, v)
    requires Observer.Run(cfg, M.HistoryOf(later, v))
          == if again then Observer.Run(cfg, Now(seen, props, now, v)) else Observer.Run(cfg, M.HistoryOf(seen, v))
    ensures var x := Sample(now, props[v]);
            var s := StatusOf(v, x, Observer.Run(cfg, M.HistoryOf(later, v) + [x]).heartbeat);
            s.unit == v && Shows(cfg, seen, props, now, v, s)
  {
    hide Observer.Run;
    var x := Sample(now, props[v]);
    TurnRemembers(cfg, M.HistoryOf(seen, v), M.HistoryOf(later, v), x, again);
    StatusIs(cfg, v, Now(seen, props, now, v));
  }
}

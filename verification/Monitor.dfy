/** The unit-state monitor (hblog/sources/units.py, `UnitMonitor`). The ghost `seen`
    records every snapshot the monitor has processed, by unit. */
module Monitor {
  import opened Model
  import opened Systemctl
  import opened Observer
  import Classify
  import Tables

  type Histories = map<string, seq<Sample>>

  function HistoryOf(seen: Histories, unit: string): seq<Sample> {
    if unit in seen then seen[unit] else []
  }

  /** The watched units of a listing, in order. */
  function WatchedOnly(cfg: Config, units: seq<string>): seq<string> {
    if units == [] then []
    else
      WatchedOnly(cfg, units[..|units| - 1])
      + (if cfg.UnitIsWatched(Some(units[|units| - 1])) then [units[|units| - 1]] else [])
  }

  // --- a poll as a function of the snapshots seen before ------------------------------------

  datatype Outcome = Outcome(seen: Histories, events: seq<Event>, statuses: seq<Tables.ServiceStatus>)

  /** One unit's turn in a poll; a unit without a snapshot is passed over. */
  function Polled(cfg: Config, o: Outcome, unit: string, props: map<string, Props>, now: real): Outcome {
    if unit !in props || props[unit] == map[] then o
    else
      var h := HistoryOf(o.seen, unit);
      var x := Sample(now, props[unit]);
      Outcome(o.seen[unit := h + [x]],
              o.events + EventsOf(cfg, unit, Run(cfg, h), x),
              o.statuses + [StatusOf(unit, x, Run(cfg, h + [x]).heartbeat)])
  }

  function PolledAll(cfg: Config, o: Outcome, units: seq<string>, props: map<string, Props>, now: real): Outcome {
    if units == [] then o
    else Polled(cfg, PolledAll(cfg, o, units[..|units| - 1], props, now), units[|units| - 1], props, now)
  }

  /** The outcome of a whole poll. */
  function WholePoll(cfg: Config, seen: Histories, now: real, listing: string, show: seq<string> -> string): Outcome {
    var units := WatchedOnly(cfg, Listed(Lines(listing)));
    PolledAll(cfg, Outcome(seen, [], []), units, if units != [] then Parsed(show(units)) else map[], now)
  }

  lemma EventsIgnoreHeartbeat(cfg: Config, unit: string, s: UnitState, t: UnitState, x: Sample)
    requires s == t.(heartbeat := s.heartbeat)
    ensures EventsOf(cfg, unit, s, x) == EventsOf(cfg, unit, t, x)
    ensures Observed(cfg, s, x).restarts == Observed(cfg, t, x).restarts
    ensures Observed(cfg, s, x).loopActive == Observed(cfg, t, x).loopActive
  {
  }

  lemma RunAppend(cfg: Config, h: seq<Sample>, x: Sample)
    ensures Run(cfg, h + [x]) == Observed(cfg, Run(cfg, h), x)
  {
    assert (h + [x])[..|h|] == h;
  }

  /** A unit that is listed twice in one poll emits nothing the second time, and the
      monitor remembers the same. */
  lemma ListedTwice(cfg: Config, o: Outcome, unit: string, props: map<string, Props>, now: real)
    ensures var once := Polled(cfg, o, unit, props, now);
            var twice := Polled(cfg, once, unit, props, now);
            && twice.events == once.events
            && forall u :: Run(cfg, HistoryOf(twice.seen, u)) == Run(cfg, HistoryOf(once.seen, u))
  {
    hide Run, EventsOf;
    if unit in props && props[unit] != map[] {
      var h, x := HistoryOf(o.seen, unit), Sample(now, props[unit]);
      var once := Polled(cfg, o, unit, props, now);
      var twice := Polled(cfg, once, unit, props, now);
      TwiceSilent(cfg, unit, h, x);
      assert HistoryOf(once.seen, unit) == h + [x];
      assert twice.events == once.events + [];
      assert forall u :: u != unit ==> HistoryOf(twice.seen, u) == HistoryOf(once.seen, u);
    }
  }

  lemma TwiceSilent(cfg: Config, unit: string, h: seq<Sample>, x: Sample)
    ensures EventsOf(cfg, unit, Run(cfg, h + [x]), x) == []
    ensures Run(cfg, h + [x] + [x]) == Run(cfg, h + [x])
  {
    RunAppend(cfg, h, x);
    RunAppend(cfg, h + [x], x);
    AgainIsSilent(cfg, unit, Run(cfg, h), x, x.now);
    AgainIsNothing(cfg, Run(cfg, h), x);
  }

  // --- the object ---------------------------------------------------------------------------

  class UnitMonitor {
    const config: Config
    var prev: map<string, Props>
    var heartbeat: map<string, real>
    var restarts: map<string, seq<real>>
    var loopActive: map<string, bool>
    ghost var seen: Histories

    function Queue(unit: string): seq<real>
      reads this
    {
      if unit in restarts then restarts[unit] else []
    }

    predicate Active(unit: string)
      reads this
    {
      unit in loopActive && loopActive[unit]
    }

    function Prev(unit: string): Option<Props>
      reads this
    {
      if unit in prev then Some(prev[unit]) else None
    }

    function Heartbeat(unit: string): Option<real>
      reads this
    {
      if unit in heartbeat then Some(heartbeat[unit]) else None
    }

    ghost function View(unit: string): UnitState
      reads this
    {
      UnitState(Prev(unit), Heartbeat(unit), Queue(unit), Active(unit))
    }

    ghost predicate Valid()
      reads this
    {
      forall u :: View(u) == Run(config, HistoryOf(seen, u))
    }

    constructor (config: Config)
      ensures Valid() && this.config == config && seen == map[]
    {
      this.config := config;
      prev, heartbeat, restarts, loopActive, seen := map[], map[], map[], map[], map[];
    }

    /** Polls once. `listing` is what systemctl lists, `show` what it shows of units. */
    method Poll(now: real, listing: string, show: seq<string> -> string)
      returns (events: seq<Event>, statuses: seq<Tables.ServiceStatus>)
      requires Valid()
      modifies this
      ensures Valid()
      ensures Outcome(seen, events, statuses) == WholePoll(config, old(seen), now, listing, show)
    {
      var all := ParseList(listing);
      var units := WatchedOnly(config, all);
      var props: map<string, Props> := map[];
      if units != [] {
        props := ParseShow(show(units));
      }
      events, statuses := [], [];
      ghost var start := Outcome(seen, [], []);
      for i := 0 to |units|
        invariant Valid()
        invariant Outcome(seen, events, statuses) == PolledAll(config, start, units[..i], props, now)
      {
        var unit := units[i];
        assert units[..i + 1][..i] == units[..i];
        if unit !in props || props[unit] == map[] {
          continue;
        }
        var out, status := PollUnit(unit, props[unit], now);
        events := events + out;
        statuses := statuses + [status];
      }
      assert units[..|units|] == units;
    }

    method PollUnit(unit: string, p: Props, now: real)
      returns (out: seq<Event>, status: Tables.ServiceStatus)
      requires Valid()
      modifies this
      ensures Valid()
      ensures seen == old(seen)[unit := HistoryOf(old(seen), unit) + [Sample(now, p)]]
      ensures out == EventsOf(config, unit, Run(config, HistoryOf(old(seen), unit)), Sample(now, p))
      ensures status == StatusOf(unit, Sample(now, p), Run(config, HistoryOf(seen, unit)).heartbeat)
    {
      ghost var h, x := HistoryOf(seen, unit), Sample(now, p);
      var state := ActiveState(p);
      if state == "active" {
        heartbeat := heartbeat[unit := now];
      }
      status := Tables.ServiceStatus(unit, state, Prop(p, "SubState", "unknown"), Prop(p, "Result", "success"),
                                     IntProp(p, "NRestarts").GetOr(0), Heartbeat(unit).GetOr(0.0), now);
      ghost var s := Run(config, h);
      assert Prev(unit) == s.prev && Queue(unit) == s.restarts && Active(unit) == s.loopActive;
      EventsIgnoreHeartbeat(config, unit, View(unit), s, x);
      out := Detect(unit, p, state, now);
      Remember(unit, p, now);
    }

    method Remember(unit: string, p: Props, now: real)
      requires forall v :: v != unit ==> View(v) == Run(config, HistoryOf(seen, v))
      requires View(unit).(prev := Some(p)) == Observed(config, Run(config, HistoryOf(seen, unit)), Sample(now, p))
      modifies this`prev, this`seen
      ensures Valid()
      ensures seen == old(seen)[unit := HistoryOf(old(seen), unit) + [Sample(now, p)]]
      ensures Run(config, HistoryOf(seen, unit)).heartbeat == Heartbeat(unit)
    {
      ghost var h := HistoryOf(seen, unit);
      RunAppend(config, h, Sample(now, p));
      prev := prev[unit := p];
      seen := seen[unit := h + [Sample(now, p)]];
      forall v | v != unit ensures View(v) == Run(config, HistoryOf(seen, v)) {
        assert View(v) == old(View(v)) && HistoryOf(seen, v) == old(HistoryOf(seen, v));
      }
      assert View(unit) == old(View(unit)).(prev := Some(p));
    }

    method Detect(unit: string, p: Props, state: string, now: real) returns (out: seq<Event>)
      requires state == ActiveState(p)
      modifies this`restarts, this`loopActive
      ensures out == EventsOf(config, unit, old(View(unit)), Sample(now, p))
      ensures Queue(unit) == Observed(config, old(View(unit)), Sample(now, p)).restarts
      ensures Active(unit) == Observed(config, old(View(unit)), Sample(now, p)).loopActive
      ensures forall v :: v != unit ==> Queue(v) == old(Queue(v)) && Active(v) == old(Active(v))
    {
      out := DetectStateEdges(unit, p, state, now);
      var loop := CheckRestartLoop(unit, p, Prev(unit), now);
      if loop.Some? {
        out := out + [loop.value];
      }
    }

    /** Recovery and failure edges. */
    method DetectStateEdges(unit: string, p: Props, state: string, now: real) returns (out: seq<Event>)
      requires state == ActiveState(p)
      modifies this`loopActive
      ensures out == (if Recovers(Prev(unit), p) then [Classify.RecoveryMarker(unit, now)] else [])
                     + (if Fails(Prev(unit), p) then [FailureEvent(unit, p, now)] else [])
      ensures Active(unit) <==> old(Active(unit)) && !Recovers(Prev(unit), p)
      ensures forall v :: v != unit ==> Active(v) == old(Active(v))
    {
      var previous := Prev(unit);
      var prevState := if previous.Some? && "ActiveState" in previous.value
                       then Some(previous.value["ActiveState"]) else None;
      out := [];
      if state == "active" && prevState == Some("failed") {
        loopActive := loopActive[unit := false];
        out := out + [Classify.RecoveryMarker(unit, now)];
      }
      if state == "failed" && prevState != Some("failed") {
        out := out + [FailureEvent(unit, p, now)];
      }
    }

    method CheckRestartLoop(unit: string, p: Props, previous: Option<Props>, now: real)
      returns (loop: Option<Event>)
      modifies this`restarts, this`loopActive
      ensures Queue(unit) == Trimmed(old(Queue(unit)) + Repeat(now, Increase(previous, p)), now, config.restartLoopWindow)
      ensures Active(unit) <==> |Queue(unit)| >= config.restartLoopThreshold
      ensures loop == if Active(unit) && !old(Active(unit))
                      then Some(LoopEvent(unit, |Queue(unit)|, TruncatedSeconds(config.restartLoopWindow), now))
                      else None
      ensures forall v :: v != unit ==> Queue(v) == old(Queue(v)) && Active(v) == old(Active(v))
    {
      CountRestarts(unit, p, previous, now);
      var n := |Queue(unit)|;
      var over := n >= config.restartLoopThreshold;
      if over && !Active(unit) {
        loopActive := loopActive[unit := true];
        return Some(LoopEvent(unit, n, TruncatedSeconds(config.restartLoopWindow), now));
      }
      if !over {
        loopActive := loopActive[unit := false];
      }
      return None;
    }

    /** Brings the queue of restarts up to date. */
    method CountRestarts(unit: string, p: Props, previous: Option<Props>, now: real)
      modifies this`restarts
      ensures Queue(unit) == Trimmed(old(Queue(unit)) + Repeat(now, Increase(previous, p)), now, config.restartLoopWindow)
      ensures forall v :: v != unit ==> Queue(v) == old(Queue(v))
    {
      var cur := IntProp(p, "NRestarts").GetOr(0);
      var prevN := if previous.Some? then IntProp(previous.value, "NRestarts") else None;
      var dq := Queue(unit);
      if prevN.Some? && cur > prevN.value {
        dq := Extend(dq, now, cur - prevN.value);
      } else {
        assert dq + Repeat(now, 0) == dq;
      }
      dq := DropExpired(dq, now, config.restartLoopWindow);
      restarts := restarts[unit := dq];
    }

    /** Takes expired time stamps off the front. */
    static method DropExpired(queue: seq<real>, now: real, window: real) returns (dq: seq<real>)
      ensures dq == Trimmed(queue, now, window)
    {
      dq := queue;
      while dq != [] && now - dq[0] > window
        invariant Trimmed(dq, now, window) == Trimmed(queue, now, window)
      {
        dq := dq[1..];
      }
    }

    /** Appends `n` time stamps. */
    static method Extend(queue: seq<real>, now: real, n: nat) returns (dq: seq<real>)
      ensures dq == queue + Repeat(now, n)
    {
      dq := queue;
      for i := 0 to n
        invariant dq == queue + Repeat(now, i)
      {
        dq := dq + [now];
      }
    }
  }
}

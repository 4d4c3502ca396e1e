/** The main thread of the collector (hblog/daemon.py): draining the queue, unit polls,
    status clean-up, and what a recovery does to the open incidents. */
module Daemon {
  import opened Model
  import opened Tables
  import opened Pipeline
  import opened Incidents
  import Classify
  import Text
  import Retention
  import D = Database
  import M = Monitor

  /** _RESOLVE_KINDS */
  const RESOLVE_KINDS: set<Kind> := {Crash, Failed, Oom, RestartLoop}

  // --- the events of a poll -----------------------------------------------------------------

  function Resolution(unit: Option<string>): Txn {
    [Resolve(unit.GetOr(""), RESOLVE_KINDS)]
  }

  /** A recovery resolves the stored incidents of its unit; then the event is submitted. */
  function Handled(p: Pipe, cfg: Config, ev: Event): Pipe {
    Submitted(if ev.recovery then p.(log := p.log + [Resolution(ev.unit)]) else p, cfg, ev)
  }

  function HandledAll(p: Pipe, cfg: Config, evs: seq<Event>): Pipe {
    if evs == [] then p else Handled(HandledAll(p, cfg, evs[..|evs| - 1]), cfg, evs[|evs| - 1])
  }

  // --- status rows ----------------------------------------------------------------------------

  /** The status table and the watched set the daemon remembers. */
  datatype Watch = Watch(services: map<string, ServiceStatus>, watched: Option<set<string>>)

  function UnitsOf(sts: seq<ServiceStatus>): set<string> {
    set s | s in sts :: s.unit
  }

  function UnitList(sts: seq<ServiceStatus>): seq<string> {
    seq(|sts|, i requires 0 <= i < |sts| => sts[i].unit)
  }

  lemma UnitListIs(sts: seq<ServiceStatus>)
    ensures (set u | u in UnitList(sts)) == UnitsOf(sts)
  {
    forall u | u in UnitsOf(sts) ensures u in UnitList(sts) {
      var s :| s in sts && s.unit == u;
      var i :| 0 <= i < |sts| && sts[i] == s;
      assert UnitList(sts)[i] == u;
    }
  }

  function PutAll(services: map<string, ServiceStatus>, sts: seq<ServiceStatus>): map<string, ServiceStatus> {
    if sts == [] then services
    else
      var s := sts[|sts| - 1];
      PutAll(services, sts[..|sts| - 1])[s.unit := s]
  }

  function Keep(services: map<string, ServiceStatus>, units: set<string>): map<string, ServiceStatus> {
    map u | u in services && u in units :: services[u]
  }

  predicate NeedsCleaning(watched: Option<set<string>>, units: set<string>) {
    units != {} && watched != Some(units)
  }

  /** What a poll does: stale rows are deleted only when the watched set has changed. */
  function Recorded(w: Watch, sts: seq<ServiceStatus>): Watch {
    var services := PutAll(w.services, sts);
    if NeedsCleaning(w.watched, UnitsOf(sts)) then Watch(Keep(services, UnitsOf(sts)), Some(UnitsOf(sts)))
    else w.(services := services)
  }

  function RecordedAll(w: Watch, polls: seq<seq<ServiceStatus>>): Watch {
    if polls == [] then w else Recorded(RecordedAll(w, polls[..|polls| - 1]), polls[|polls| - 1])
  }

  /** The simple form: delete stale rows after every poll that saw any unit. */
  function AlwaysCleaned(services: map<string, ServiceStatus>, polls: seq<seq<ServiceStatus>>)
    : map<string, ServiceStatus>
  {
    if polls == [] then services
    else
      var sts := polls[|polls| - 1];
      var s := PutAll(AlwaysCleaned(services, polls[..|polls| - 1]), sts);
      if UnitsOf(sts) != {} then Keep(s, UnitsOf(sts)) else s
  }

  lemma {:induction false} PutAllKeys(services: map<string, ServiceStatus>, sts: seq<ServiceStatus>)
    ensures PutAll(services, sts).Keys == services.Keys + UnitsOf(sts)
  {
    if sts != [] {
      var n := |sts| - 1;
      PutAllKeys(services, sts[..n]);
      assert sts == sts[..n] + [sts[n]];
      assert UnitsOf(sts) == UnitsOf(sts[..n]) + {sts[n].unit};
    }
  }

  /** Once a watched set is remembered the status table has exactly its units, and
      skipping the clean-up while the set is unchanged never shows. */
  lemma {:induction false} SkippedCleanupIsSound(w: Watch, polls: seq<seq<ServiceStatus>>)
    requires w.watched.Some? ==> w.services.Keys == w.watched.value
    ensures var r := RecordedAll(w, polls);
            && (r.watched.Some? ==> r.services.Keys == r.watched.value)
            && r.services == AlwaysCleaned(w.services, polls)
  {
    if polls != [] {
      var n := |polls| - 1;
      SkippedCleanupIsSound(w, polls[..n]);
      var r := RecordedAll(w, polls[..n]);
      PutAllKeys(r.services, polls[n]);
      var s := PutAll(r.services, polls[n]);
      if UnitsOf(polls[n]) != {} && r.watched == Some(UnitsOf(polls[n])) {
        assert Keep(s, UnitsOf(polls[n])) == s;
      }
    }
  }

  /** `s` is the last status of its unit. */
  ghost predicate LastStatus(sts: seq<ServiceStatus>, s: ServiceStatus) {
    exists i :: 0 <= i < |sts| && sts[i] == s && forall j :: i < j < |sts| ==> sts[j].unit != s.unit
  }

  lemma {:induction false} PutAllIsLast(services: map<string, ServiceStatus>, sts: seq<ServiceStatus>, u: string)
    requires u in UnitsOf(sts)
    ensures u in PutAll(services, sts) && PutAll(services, sts)[u].unit == u && LastStatus(sts, PutAll(services, sts)[u])
    decreases |sts|
  {
    var n := |sts| - 1;
    assert sts == sts[..n] + [sts[n]];
    if sts[n].unit == u {
      assert LastStatus(sts, sts[n]);
    } else {
      PutAllIsLast(services, sts[..n], u);
      var s := PutAll(services, sts[..n])[u];
      var i :| 0 <= i < n && sts[i] == s && forall j :: i < j < n ==> sts[j].unit != u;
      assert LastStatus(sts, s);
    }
  }

  /** Behind a poll that saw any unit the status table has exactly the units of that poll,
      each with its last status. */
  lemma TableShowsLastPoll(w: Watch, polls: seq<seq<ServiceStatus>>, u: string)
    requires w.watched.Some? ==> w.services.Keys == w.watched.value
    requires polls != [] && polls[|polls| - 1] != []
    ensures var t, last := RecordedAll(w, polls).services, polls[|polls| - 1];
            && (u in t <==> exists s :: s in last && s.unit == u)
            && (u in t ==> t[u].unit == u && LastStatus(last, t[u]))
  {
    hide LastStatus, PutAll;
    SkippedCleanupIsSound(w, polls);
    var n := |polls| - 1;
    var sts := polls[n];
    assert sts[0] in sts && sts[0].unit in UnitsOf(sts);
    PutAllKeys(AlwaysCleaned(w.services, polls[..n]), sts);
    if u in UnitsOf(sts) { PutAllIsLast(AlwaysCleaned(w.services, polls[..n]), sts, u); }
  }

  /** The transactions that record the statuses of a poll. */
  function StatusTxns(watched: Option<set<string>>, sts: seq<ServiceStatus>): seq<Txn> {
    Puts(sts) + if NeedsCleaning(watched, UnitsOf(sts)) then [[KeepStatuses(UnitsOf(sts))]] else []
  }

  /** What a poll with these results does to the pipeline and the log. */
  function AfterPoll(p: Pipe, cfg: Config, watched: Option<set<string>>, events: seq<Event>,
                     statuses: seq<ServiceStatus>): Pipe
  {
    var q := HandledAll(p.(log := p.log + StatusTxns(watched, statuses)), cfg, events);
    if events != [] then Flushed(q) else q
  }

  function Puts(sts: seq<ServiceStatus>): seq<Txn> {
    if sts == [] then [] else Puts(sts[..|sts| - 1]) + [[PutStatus(sts[|sts| - 1])]]
  }

  /** What retention adds to the log. */
  ghost function Pruned(p: Pipe, cfg: Config, clock: real, slices: nat): Pipe {
    p.(log := p.log + D.PruneTxns(D.Cutoff(clock, cfg.retentionDays), D.Cutoff(clock, cfg.incidentRetentionDays), slices))
  }

  // --- a round of the main loop -----------------------------------------------------------------

  /** What one round of the main loop did: events drained, the outcome of the poll if one
      was due, whether the flush was due, and clock and slices of the retention run. */
  datatype Turn = Turn(drained: nat, poll: Option<M.Outcome>, flushed: bool, prune: Option<(real, nat)>)

  /** The pipeline and the log behind a round. */
  ghost function AfterTurn(p: Pipe, cfg: Config, watched: Option<set<string>>, queue: seq<Event>, t: Turn): Pipe
    requires t.drained <= |queue|
  {
    var a := SubmittedAll(p, cfg, queue[..t.drained]);
    var b := if t.poll.Some? then AfterPoll(a, cfg, watched, t.poll.value.events, t.poll.value.statuses) else a;
    var c := if t.flushed then Flushed(b) else b;
    if t.prune.Some? then Pruned(c, cfg, t.prune.value.0, t.prune.value.1) else c
  }

  // --- a whole life -------------------------------------------------------------------------------

  /** A poll is one of the monitor. */
  ghost predicate TruePoll(cfg: Config, t: Turn) {
    t.poll.Some? ==> exists seen, clock, listing, show ::
                       t.poll.value == M.WholePoll(cfg, seen, clock, listing, show)
  }

  /** Before a round the reader thread has queued some more events. */
  datatype Lap = Lap(arrived: nat, watched: Option<set<string>>, turn: Turn)

  /** Pipeline and queue, and how much of the reader's events has been queued. */
  datatype Main = Main(pipe: Pipe, queue: seq<Event>, taken: nat)

  ghost predicate LapOk(m: Main, cfg: Config, source: seq<Event>, lap: Lap) {
    && m.taken + lap.arrived <= |source| && |m.queue| + lap.arrived <= QUEUE_SIZE
    && lap.turn.drained <= |m.queue| + lap.arrived && TruePoll(cfg, lap.turn)
  }

  function Fed(m: Main, source: seq<Event>, n: nat): Main
    requires m.taken + n <= |source|
  {
    m.(queue := m.queue + source[m.taken..m.taken + n], taken := m.taken + n)
  }

  ghost function AfterLap(m: Main, cfg: Config, source: seq<Event>, lap: Lap): Main
    requires LapOk(m, cfg, source, lap)
  {
    var f := Fed(m, source, lap.arrived);
    f.(pipe := AfterTurn(f.pipe, cfg, lap.watched, f.queue, lap.turn), queue := f.queue[lap.turn.drained..])
  }

  /** Behind a sequence of laps, if each was possible. */
  ghost function AfterLaps(m: Main, cfg: Config, source: seq<Event>, laps: seq<Lap>): Option<Main> {
    if laps == [] then Some(m)
    else
      match AfterLaps(m, cfg, source, laps[..|laps| - 1])
      case None => None
      case Some(k) =>
        if LapOk(k, cfg, source, laps[|laps| - 1]) then Some(AfterLap(k, cfg, source, laps[|laps| - 1])) else None
  }

  lemma LapsNext(m: Main, cfg: Config, source: seq<Event>, laps: seq<Lap>, k: Main, lap: Lap)
    requires AfterLaps(m, cfg, source, laps) == Some(k) && LapOk(k, cfg, source, lap)
    ensures AfterLaps(m, cfg, source, laps + [lap]) == Some(AfterLap(k, cfg, source, lap))
  {
    assert (laps + [lap])[..|laps|] == laps;
  }

  /** What a round of the main loop finds: events that arrive, how many more it drains than
      one, the clocks, and what systemctl and the file system answer. */
  datatype Input = Input(arriving: nat, more: nat, mono: real, clock: real, listing: string,
                         show: seq<string> -> string, size: (nat, seq<Row>) -> nat)

  // --- the object -----------------------------------------------------------------------------

  class Daemon {
    const config: Config
    const db: D.Database
    const pipeline: Pipeline
    const monitor: M.UnitMonitor
    var queue: seq<Event>
    var lastPoll: real
    var lastMaint: real
    var watched: Option<set<string>>

    ghost predicate Valid()
      reads this, db, pipeline, monitor
    {
      && pipeline.db == db && pipeline.config == config && monitor.config == config
      && pipeline.Valid() && monitor.Valid()
      && |queue| <= QUEUE_SIZE
      && (watched.Some? ==> db.services.Keys == watched.value)
      && DaemonLog(db.log)
    }

    constructor (config: Config, db: D.Database, now: real)
      requires config.Valid() && db.Valid() && db.open == [] && DaemonLog(db.log)
      ensures Valid() && fresh(pipeline) && fresh(monitor) && this.db == db && this.config == config
      ensures queue == [] && watched == None && pipeline.State() == Pipe([], None, db.log)
      ensures monitor.seen == map[] && lastPoll == 0.0 && lastMaint == now && pipeline.lastFlush == now
    {
      this.config, this.db := config, db;
      pipeline := new Pipeline(db, config, now);
      monitor := new M.UnitMonitor(config);
      queue, lastPoll, lastMaint, watched := [], 0.0, now, None;
    }

    /** Where the reader is to resume. */
    method InitialCursor() returns (cursor: Option<Cursor>)
      requires Valid()
      ensures var meta := Replay(Flatten(db.log)).meta;
              cursor == if CURSOR_KEY in meta then Some(meta[CURSOR_KEY]) else None
    {
      assert Flatten(db.log) + [] == Flatten(db.log);
      cursor := db.GetMeta(CURSOR_KEY);
    }

    /** The reader thread queues events while there is room, at most `n`. */
    method Feed(source: seq<Event>, from: nat, n: nat) returns (taken: nat)
      requires Valid() && from <= |source|
      modifies this`queue
      ensures Valid() && from <= taken <= |source| && queue == old(queue) + source[from..taken]
      ensures taken <= from + n && |queue| <= 10000
      ensures taken == |source| || taken == from + n || |queue| == 10000
    {
      taken := from;
      while taken < |source| && taken < from + n && |queue| < QUEUE_SIZE
        invariant Valid() && from <= taken <= |source| && taken <= from + n
        invariant queue == old(queue) + source[from..taken]
      {
        Put(source[taken]);
        taken := taken + 1;
      }
    }

    ghost function State(taken: nat): Main
      reads this, pipeline, pipeline.db
    {
      Main(pipeline.State(), queue, taken)
    }

    /** Events arrive, then a round. */
    method OneLap(source: seq<Event>, from: nat, input: Input) returns (taken: nat, ghost lap: Lap)
      requires Valid() && from <= |source|
      modifies this`queue, this`lastPoll, this`lastMaint, this`watched, pipeline, db, monitor
      ensures Valid() && taken <= |source|
      ensures LapOk(old(State(from)), config, source, lap)
      ensures State(taken) == AfterLap(old(State(from)), config, source, lap)
    {
      hide Replay, Flatten, DaemonLog, M.HistoryOf, M.WholePoll, AfterTurn, TruePoll, Settled;
      ghost var w := watched;
      taken := Feed(source, from, input.arriving);
      ghost var t := Round(input.more, input.mono, input.clock, input.listing, input.show, input.size);
      lap := Lap(taken - from, w, t);
    }

    /** A life of the daemon over the events that the reader hands over: rounds of the main
        loop, then the final flush. */
    method Run(source: seq<Event>, inputs: seq<Input>, stopped: real)
      returns (taken: nat, ghost laps: seq<Lap>, ghost last: Main)
      requires Valid()
      modifies this`queue, this`lastPoll, this`lastMaint, this`watched, pipeline, db, monitor
      ensures Valid()
      ensures AfterLaps(old(State(0)), config, source, laps) == Some(last)
      ensures State(taken) == last.(pipe := Flushed(last.pipe))
    {
      taken, laps := 0, [];
      for i := 0 to |inputs|
        invariant Valid() && taken <= |source|
        invariant AfterLaps(old(State(0)), config, source, laps) == Some(State(taken))
      {
        ghost var m := State(taken);
        ghost var lap;
        taken, lap := OneLap(source, taken, inputs[i]);
        LapsNext(old(State(0)), config, source, laps, m, lap);
        laps := laps + [lap];
      }
      last := State(taken);
      FinalFlush(stopped);
    }

    /** One round of the main loop; `t` records what it found due. */
    method Round(more: nat, mono: real, clock: real, listing: string, show: seq<string> -> string,
                 size: (nat, seq<Row>) -> nat)
      returns (ghost t: Turn)
      requires Valid()
      modifies this`queue, this`lastPoll, this`lastMaint, this`watched, pipeline, db, monitor
      ensures Valid()
      ensures t.drained <= |old(queue)| && queue == old(queue)[t.drained..]
      ensures t.drained == 0 ==> old(queue) == []
      ensures t.poll == if mono - old(lastPoll) >= config.pollInterval
                        then Some(M.WholePoll(config, old(monitor.seen), clock, listing, show)) else None
      ensures t.prune.Some? <==> mono - old(lastMaint) >= config.maintenanceInterval
      ensures TruePoll(config, t)
      ensures pipeline.State() == AfterTurn(old(pipeline.State()), config, old(watched), old(queue), t)
      ensures lastPoll == (if t.poll.Some? then mono else old(lastPoll))
      ensures monitor.seen == (if t.poll.Some? then t.poll.value.seen else old(monitor.seen))
      ensures lastMaint == (if t.prune.Some? then mono else old(lastMaint))
      ensures pipeline.buffer == [] || mono - pipeline.lastFlush < config.flushInterval
      ensures t.prune.Some? ==>
                && (forall r :: r in db.events ==> r.ev.ts >= clock - config.retentionDays * 86400.0)
                && (db.events == [] || size(t.prune.value.1, db.events) as real <= config.maxDbMb * 1048576.0)
    {
      hide Replay, Flatten, DaemonLog, M.HistoryOf, M.WholePoll, AfterPoll, Pruned, SubmittedAll, Flushed, Recorded, Settled;
      t := Turn(0, None, false, None);
      ghost var p, q, w := pipeline.State(), queue, watched;
      DrainQueue(more, mono);
      t := t.(drained := if more + 1 < |q| then more + 1 else |q|);
      if mono - lastPoll >= config.pollInterval {
        t := t.(poll := Some(M.WholePoll(config, monitor.seen, clock, listing, show)));
      }
      MaybePollUnits(mono, clock, listing, show);
      t := t.(flushed := mono - pipeline.lastFlush >= config.flushInterval);
      MaybeFlush(mono);
      ghost var slices := MaybeMaintain(mono, clock, size);
      if mono - old(lastMaint) >= config.maintenanceInterval {
        t := t.(prune := Some((clock, slices)));
      }
    }

    method MaybeFlush(now: real)
      requires Valid()
      modifies pipeline, db
      ensures Valid()
      ensures pipeline.State() == if now - old(pipeline.lastFlush) >= config.flushInterval
                                  then Flushed(old(pipeline.State())) else old(pipeline.State())
      ensures pipeline.buffer == [] || now - pipeline.lastFlush < config.flushInterval
    {
      MaybeFlushKeeps(pipeline.State(), now - pipeline.lastFlush >= config.flushInterval);
      assert Flatten(db.log) + [] == Flatten(db.log);
      pipeline.MaybeFlush(now);
      assert Flatten(db.log) + [] == Flatten(db.log);
    }

    /** Retention, if it is due. */
    method MaybeMaintain(mono: real, clock: real, size: (nat, seq<Row>) -> nat) returns (ghost slices: nat)
      requires Valid()
      modifies this`lastMaint, db
      ensures Valid()
      ensures pipeline.State() ==
              if mono - old(lastMaint) >= config.maintenanceInterval
              then Pruned(old(pipeline.State()), config, clock, slices) else old(pipeline.State())
      ensures lastMaint == if mono - old(lastMaint) >= config.maintenanceInterval then mono else old(lastMaint)
      ensures mono - old(lastMaint) >= config.maintenanceInterval ==>
                && (forall r :: r in db.events ==> r.ev.ts >= clock - config.retentionDays * 86400.0)
                && (db.events == [] || size(slices, db.events) as real <= config.maxDbMb * 1048576.0)
    {
      hide Replay, Flatten, D.AfterSlices, D.SlicesDue, D.Slices, Retention.KeepsNewest, DaemonLog, M.HistoryOf;
      slices := 0;
      if mono - lastMaint < config.maintenanceInterval {
        return;
      }
      lastMaint := mono;
      var byAge, bySize, incidentsPruned;
      ghost var aged;
      byAge, bySize, incidentsPruned, slices, aged :=
        db.Prune(clock, config.retentionDays, config.incidentRetentionDays, config.maxDbMb, size);
      PruneKeepsDaemonLog(old(db.log), D.Cutoff(clock, config.retentionDays),
                          D.Cutoff(clock, config.incidentRetentionDays), slices);
    }

    /** The reader thread's side of the queue; it blocks while the queue is full. */
    method Put(ev: Event)
      requires Valid() && |queue| < QUEUE_SIZE
      modifies this`queue
      ensures Valid() && queue == old(queue) + [ev]
    {
      queue := queue + [ev];
    }

    /** Submits the first queued event and, until the deadline, some more of them. */
    method DrainQueue(more: nat, now: real)
      requires Valid()
      modifies this`queue, pipeline, db
      ensures Valid()
      ensures var n := if more + 1 < |old(queue)| then more + 1 else |old(queue)|;
              && queue == old(queue)[n..]
              && pipeline.State() == SubmittedAll(old(pipeline.State()), config, old(queue)[..n])
    {
      ghost var all := queue;
      var i := 0;
      while i <= more && queue != []
        invariant Valid() && i <= more + 1 && i <= |all| && queue == all[i..]
        invariant pipeline.State() == SubmittedAll(old(pipeline.State()), config, all[..i])
        decreases more + 1 - i
      {
        DrainOne(now);
        i := i + 1;
        assert all[..i][..i - 1] == all[..i - 1];
      }
    }

    method DrainOne(now: real)
      requires Valid() && queue != []
      modifies this`queue, pipeline, db
      ensures Valid() && queue == old(queue)[1..]
      ensures pipeline.State() == Submitted(old(pipeline.State()), config, old(queue)[0])
    {
      var ev := queue[0];
      queue := queue[1..];
      SubmitEvent(ev, now);
    }

    /** Submits an event; the status table is not touched. */
    method SubmitEvent(ev: Event, now: real)
      requires Valid()
      modifies pipeline, db
      ensures Valid() && db.services == old(db.services)
      ensures pipeline.State() == Submitted(old(pipeline.State()), config, ev)
    {
      SubmitKeeps(pipeline.State(), config, ev);
      var obj := new Classify.EventObject(ev);
      assert Flatten(db.log) + [] == Flatten(db.log);
      pipeline.Submit(obj, now);
      assert Flatten(db.log) + [] == Flatten(db.log);
    }

    /** A unit poll, if one is due. */
    method MaybePollUnits(mono: real, clock: real, listing: string, show: seq<string> -> string)
      requires Valid()
      modifies this`lastPoll, this`watched, pipeline, db, monitor
      ensures Valid()
      ensures mono - old(lastPoll) < config.pollInterval ==>
                pipeline.State() == old(pipeline.State()) && monitor.seen == old(monitor.seen)
      ensures mono - old(lastPoll) >= config.pollInterval ==>
                var o := M.WholePoll(config, old(monitor.seen), clock, listing, show);
                && monitor.seen == o.seen
                && pipeline.State() == AfterPoll(old(pipeline.State()), config, old(watched), o.events, o.statuses)
                && Watch(db.services, watched) == Recorded(old(Watch(db.services, watched)), o.statuses)
      ensures lastPoll == if mono - old(lastPoll) >= config.pollInterval then mono else old(lastPoll)
    {
      if mono - lastPoll < config.pollInterval {
        return;
      }
      lastPoll := mono;
      var events, statuses := monitor.Poll(clock, listing, show);
      RecordStatuses(statuses);
      HandleEvents(events, mono);
    }

    method RecordStatuses(sts: seq<ServiceStatus>)
      requires Valid()
      modifies this`watched, db
      ensures Valid()
      ensures Watch(db.services, watched) == Recorded(old(Watch(db.services, watched)), sts)
      ensures pipeline.State() == old(pipeline.State().(log := db.log + StatusTxns(watched, sts)))
    {
      hide Replay, Flatten, DaemonLog, PutAll, Puts, M.HistoryOf;
      UpsertAll(sts);
      PutAllKeys(old(db.services), sts);
      var units := UnitsOf(sts);
      if NeedsCleaning(watched, units) {
        UnitListIs(sts);
        DeleteStale(UnitList(sts), units);
        watched := Some(units);
      }
    }

    method UpsertAll(sts: seq<ServiceStatus>)
      requires db.Valid() && db.open == [] && DaemonLog(db.log)
      modifies db
      ensures db.Valid() && db.open == [] && DaemonLog(db.log)
      ensures db.services == PutAll(old(db.services), sts)
      ensures db.log == old(db.log) + Puts(sts)
    {
      for i := 0 to |sts|
        invariant db.Valid() && db.open == [] && DaemonLog(db.log)
        invariant db.services == PutAll(old(db.services), sts[..i])
        invariant db.log == old(db.log) + Puts(sts[..i])
      {
        PutOne(sts[i]);
        assert sts[..i + 1][..i] == sts[..i];
      }
      assert sts[..|sts|] == sts;
    }

    method PutOne(s: ServiceStatus)
      requires db.Valid() && db.open == [] && DaemonLog(db.log)
      modifies db
      ensures db.Valid() && db.open == [] && DaemonLog(db.log)
      ensures db.services == old(db.services)[s.unit := s]
      ensures db.log == old(db.log) + [[PutStatus(s)]]
    {
      assert [] + [PutStatus(s)] == [PutStatus(s)];
      db.UpsertServiceStatus(s);
    }

    method DeleteStale(keep: seq<string>, units: set<string>)
      requires db.Valid() && db.open == [] && DaemonLog(db.log)
      requires units == (set u | u in keep) && units != {}
      modifies db
      ensures db.Valid() && db.open == [] && DaemonLog(db.log)
      ensures db.services == Keep(old(db.services), units)
      ensures db.log == old(db.log) + [[KeepStatuses(units)]]
    {
      assert [] + [KeepStatuses(units)] == [KeepStatuses(units)];
      var n := db.PruneServiceStatus(keep);
    }

    method HandleEvents(events: seq<Event>, now: real)
      requires Valid()
      modifies pipeline, db
      ensures Valid() && db.services == old(db.services)
      ensures var q := HandledAll(old(pipeline.State()), config, events);
              pipeline.State() == if events != [] then Flushed(q) else q
    {
      for i := 0 to |events|
        invariant Valid() && db.services == old(db.services)
        invariant pipeline.State() == HandledAll(old(pipeline.State()), config, events[..i])
      {
        HandleEvent(events[i], now);
        assert events[..i + 1][..i] == events[..i];
      }
      assert events[..|events|] == events;
      if events != [] {
        FinalFlush(now);
      }
    }

    method HandleEvent(ev: Event, now: real)
      requires Valid()
      modifies pipeline, db
      ensures Valid() && db.services == old(db.services)
      ensures pipeline.State() == Handled(old(pipeline.State()), config, ev)
    {
      if ev.recovery {
        Resolve(ev.unit);
      }
      SubmitEvent(ev, now);
    }

    method Resolve(unit: Option<string>)
      requires Valid()
      modifies db
      ensures Valid() && db.services == old(db.services)
      ensures pipeline.State() == old(pipeline.State().(log := db.log + [Resolution(unit)]))
    {
      hide Replay, Flatten, DaemonLog;
      ResolutionKeeps(db.log, unit);
      assert Flatten(db.log) + [] == Flatten(db.log);
      db.ResolveIncidentsForUnit(unit, RESOLVE_KINDS);
      assert db.log == old(db.log) + [Resolution(unit)] by {
        assert [] + Resolution(unit) == Resolution(unit);
      }
      assert Flatten(db.log) + [] == Flatten(db.log);
    }

    method FinalFlush(now: real)
      requires Valid()
      modifies pipeline, db
      ensures Valid() && db.services == old(db.services)
      ensures pipeline.State() == Flushed(old(pipeline.State()))
    {
      FlushKeeps(pipeline.State());
      assert Flatten(db.log) + [] == Flatten(db.log);
      pipeline.Flush(now);
      assert Flatten(db.log) + [] == Flatten(db.log);
    }
  }

  // --- what leaves the status table alone -------------------------------------------------------

  ghost predicate NoStatusOps(ops: seq<Op>) {
    forall op :: op in ops ==> !op.PutStatus? && !op.KeepStatuses?
  }

  lemma {:induction false} ServicesKept(db: Db, ops: seq<Op>)
    requires NoStatusOps(ops)
    ensures ApplyAll(db, ops).services == db.services
    decreases |ops|
  {
    if ops != [] {
      assert ops[|ops| - 1] in ops;
      ServicesKept(db, ops[..|ops| - 1]);
    }
  }

  lemma TxnKeepsServices(log: seq<Txn>, t: Txn)
    requires NoStatusOps(t)
    ensures Replay(Flatten(log + [t])).services == Replay(Flatten(log)).services
  {
    FlattenOne(log, t);
    ReplayAppend(Flatten(log), t);
    ServicesKept(Replay(Flatten(log)), t);
  }

  lemma ResolutionKeeps(log: seq<Txn>, unit: Option<string>)
    ensures Replay(Flatten(log + [Resolution(unit)])).services == Replay(Flatten(log)).services
    ensures DaemonLog(log) ==> DaemonLog(log + [Resolution(unit)])
  {
    TxnKeepsServices(log, Resolution(unit));
    assert DaemonTxn(Resolution(unit));
  }

  lemma WriteTxnKeeps(log: seq<Txn>, t: Txn)
    requires OnlyWrites(t)
    ensures Replay(Flatten(log + [t])).services == Replay(Flatten(log)).services
    ensures DaemonLog(log) ==> DaemonLog(log + [t])
  {
    TxnKeepsServices(log, t);
    assert DaemonTxn(t);
  }

  lemma FlushKeeps(p: Pipe)
    ensures Replay(Flatten(Flushed(p).log)).services == Replay(Flatten(p.log)).services
    ensures DaemonLog(p.log) ==> DaemonLog(Flushed(p).log)
  {
    if p.buffer != [] {
      var batch := Writes(p.buffer);
      WriteTxnKeeps(p.log, batch);
      if p.pending.Some? {
        WriteTxnKeeps(p.log + [batch], CursorTxn(p.pending.value));
      }
    }
  }

  lemma MaybeFlushKeeps(p: Pipe, due: bool)
    ensures var q := if due then Flushed(p) else p;
            && Replay(Flatten(q.log)).services == Replay(Flatten(p.log)).services
            && (DaemonLog(p.log) ==> DaemonLog(q.log))
  {
    FlushKeeps(p);
  }

  lemma SubmitKeeps(p: Pipe, cfg: Config, ev: Event)
    ensures Replay(Flatten(Submitted(p, cfg, ev).log)).services == Replay(Flatten(p.log)).services
    ensures DaemonLog(p.log) ==> DaemonLog(Submitted(p, cfg, ev).log)
  {
    var q := Buffered(p, cfg, ev);
    assert q.log == p.log;
    if Accepts(cfg, ev) && |q.buffer| >= cfg.batchSize {
      FlushKeeps(q);
    }
  }

  // --- error incidents ----------------------------------------------------------------------------

  /** The daemon resolves only the kinds a recovery stands for. */
  ghost predicate DaemonTxn(t: Txn) {
    forall op :: op in t && op.Resolve? ==> op.kinds == RESOLVE_KINDS
  }

  /** A commit log that only daemons (and retention) have written. */
  ghost predicate DaemonLog(log: seq<Txn>) {
    forall t :: t in log ==> DaemonTxn(t)
  }

  lemma {:induction false} SlicesResolveNothing(limit: nat, n: nat)
    ensures DaemonLog(D.Slices(limit, n))
  {
    if n > 0 { SlicesResolveNothing(limit, n - 1); }
  }

  lemma PruneKeepsDaemonLog(log: seq<Txn>, cutoff: real, incidentCutoff: real, slices: nat)
    requires DaemonLog(log)
    ensures DaemonLog(log + D.PruneTxns(cutoff, incidentCutoff, slices))
  {
    SlicesResolveNothing(D.SLICE, slices);
  }

  lemma {:induction false} DaemonLogOps(log: seq<Txn>)
    requires DaemonLog(log)
    ensures DaemonTxn(Flatten(log))
    decreases |log|
  {
    if log != [] {
      assert log[|log| - 1] in log;
      DaemonLogOps(log[..|log| - 1]);
    }
  }

  /** In any daemon run an incident of kind error is open for ever, and its count is the
      number of such events ever written. */
  lemma ErrorIncidentsLastForever(log: seq<Txn>, k: Key)
    requires DaemonLog(log) && k.kind == Error
    ensures k in Replay(Flatten(log)).incidents <==> Problems(Flatten(log), 0, k) != []
    ensures k in Replay(Flatten(log)).incidents ==>
              var r := Replay(Flatten(log)).incidents[k];
              r.count == |Problems(Flatten(log), 0, k)| && r.status == Open
  {
    DaemonLogOps(log);
    NeverResolvedCount(Flatten(log), k);
  }

  // --- recovery and reopening -----------------------------------------------------------------------

  /** Statements that neither delete incidents nor resolve `k`. */
  ghost predicate QuietFor(ops: seq<Op>, k: Key) {
    forall op :: op in ops ==> !op.DropIncidents? && !Resolves(op, k)
  }

  ghost predicate QuietSince(later: seq<Txn>, log: seq<Txn>, k: Key) {
    exists more: seq<Txn> :: later == log + more && QuietFor(Flatten(more), k)
  }

  lemma QuietBy(log: seq<Txn>, later: seq<Txn>, t: Txn, k: Key)
    requires QuietSince(later, log, k) && QuietFor(t, k)
    ensures QuietSince(later + [t], log, k)
  {
    var more: seq<Txn> :| later == log + more && QuietFor(Flatten(more), k);
    FlattenOne(more, t);
    assert later + [t] == log + (more + [t]);
  }

  lemma FlushQuiet(log: seq<Txn>, p: Pipe, k: Key)
    requires QuietSince(p.log, log, k)
    ensures QuietSince(Flushed(p).log, log, k)
  {
    if p.buffer != [] {
      QuietBy(log, p.log, Writes(p.buffer), k);
      if p.pending.Some? {
        QuietBy(log, p.log + [Writes(p.buffer)], CursorTxn(p.pending.value), k);
      }
    }
  }

  /** No event of `evs` is a recovery of the unit of `k`. */
  ghost predicate NoRecoveryOf(evs: seq<Event>, k: Key) {
    forall e :: e in evs && e.recovery ==> e.unit.GetOr("") != k.unit
  }

  lemma {:induction false} HandledQuiet(log: seq<Txn>, p: Pipe, cfg: Config, evs: seq<Event>, k: Key)
    requires cfg.Valid() && Settled(p, cfg) && NoRecoveryOf(evs, k) && QuietSince(p.log, log, k)
    ensures QuietSince(HandledAll(p, cfg, evs).log, log, k)
    decreases |evs|
  {
    if evs != [] {
      var n := |evs| - 1;
      assert forall e :: e in evs[..n] ==> e in evs;
      assert evs[n] in evs;
      HandledQuiet(log, p, cfg, evs[..n], k);
      var q := HandledAll(p, cfg, evs[..n]);
      if evs[n].recovery {
        QuietBy(log, q.log, Resolution(evs[n].unit), k);
      }
      var r := if evs[n].recovery then q.(log := q.log + [Resolution(evs[n].unit)]) else q;
      FlushQuiet(log, Buffered(r, cfg, evs[n]), k);
    }
  }

  lemma ResolutionWritesNothing(p: Pipe, unit: Option<string>)
    ensures Stream(p.(log := p.log + [Resolution(unit)])) == Stream(p)
  {
    FlattenOne(p.log, Resolution(unit));
    WrittenAppend(Flatten(p.log), Resolution(unit));
    assert Written(Resolution(unit)) == [] by { assert Resolution(unit)[..0] == []; }
  }

  lemma HandledConserves(p: Pipe, cfg: Config, ev: Event)
    requires cfg.Valid() && Settled(p, cfg)
    ensures Settled(Handled(p, cfg, ev), cfg)
    ensures Stream(Handled(p, cfg, ev)) == Stream(p) + Accepted(cfg, [ev])
  {
    ResolutionWritesNothing(p, ev.unit);
    var r := if ev.recovery then p.(log := p.log + [Resolution(ev.unit)]) else p;
    SubmitConserves(r, cfg, ev);
  }

  /** Resolving in between does not change what is written: nothing is lost or added. */
  lemma {:induction false} HandledAllConserves(p: Pipe, cfg: Config, evs: seq<Event>)
    requires cfg.Valid() && Settled(p, cfg)
    ensures Settled(HandledAll(p, cfg, evs), cfg)
    ensures Stream(HandledAll(p, cfg, evs)) == Stream(p) + Accepted(cfg, evs)
    decreases |evs|
  {
    if evs != [] {
      var n := |evs| - 1;
      hide Handled, Settled, Stream, Accepted;
      HandledAllConserves(p, cfg, evs[..n]);
      HandledConserves(HandledAll(p, cfg, evs[..n]), cfg, evs[n]);
      AcceptedAppend(cfg, evs[..n], [evs[n]]);
      assert evs == evs[..n] + [evs[n]];
    }
  }

  /** A poll with events leaves nothing waiting: they are all written, behind what was
      waiting before, and in order; one without events writes nothing. */
  lemma PollConserves(p: Pipe, cfg: Config, watched: Option<set<string>>, evs: seq<Event>, sts: seq<ServiceStatus>)
    requires cfg.Valid() && Settled(p, cfg)
    ensures var q := AfterPoll(p, cfg, watched, evs, sts);
            && Settled(q, cfg) && Stream(q) == Stream(p) + Accepted(cfg, evs)
            && (evs != [] ==> q.buffer == [] && Written(Flatten(q.log)) == Stream(q))
            && (evs == [] ==> q.buffer == p.buffer)
  {
    hide StatusTxns, Handled, Accepted, Flatten, Written, Submitted;
    var r := p.(log := p.log + StatusTxns(watched, sts));
    StatusesWriteNothing(p.log, watched, sts);
    HandledAllConserves(r, cfg, evs);
    FlushConserves(HandledAll(r, cfg, evs));
    if evs == [] { assert Accepted(cfg, evs) == [] by { NoneAccepted(cfg); } }
  }

  lemma NoneAccepted(cfg: Config)
    ensures Accepted(cfg, []) == []
  {
  }

  lemma WritesNothing(log: seq<Txn>, t: Txn)
    requires forall op :: op in t ==> !op.Write?
    ensures Written(Flatten(log + [t])) == Written(Flatten(log))
  {
    FlattenOne(log, t);
    WrittenAppend(Flatten(log), t);
    NoWrites(t);
  }

  lemma {:induction false} NoWrites(t: Txn)
    requires forall op :: op in t ==> !op.Write?
    ensures Written(t) == []
    decreases |t|
  {
    if t != [] {
      assert t[|t| - 1] in t;
      NoWrites(t[..|t| - 1]);
    }
  }

  lemma {:induction false} PutsWriteNothing(log: seq<Txn>, sts: seq<ServiceStatus>)
    ensures Written(Flatten(log + Puts(sts))) == Written(Flatten(log))
  {
    hide Flatten, Written;
    if sts == [] {
      assert log + Puts(sts) == log;
    } else {
      var n := |sts| - 1;
      PutsWriteNothing(log, sts[..n]);
      WritesNothing(log + Puts(sts[..n]), [PutStatus(sts[n])]);
      assert log + Puts(sts) == log + Puts(sts[..n]) + [[PutStatus(sts[n])]];
    }
  }

  lemma StatusesWriteNothing(log: seq<Txn>, watched: Option<set<string>>, sts: seq<ServiceStatus>)
    ensures Written(Flatten(log + StatusTxns(watched, sts))) == Written(Flatten(log))
  {
    hide Flatten, Written;
    var units := UnitsOf(sts);
    PutsWriteNothing(log, sts);
    if NeedsCleaning(watched, units) {
      WritesNothing(log + Puts(sts), [KeepStatuses(units)]);
      assert log + StatusTxns(watched, sts) == log + Puts(sts) + [[KeepStatuses(units)]];
    } else {
      assert log + StatusTxns(watched, sts) == log + Puts(sts);
    }
  }

  lemma {:induction false} SlicesWriteNothing(log: seq<Txn>, limit: nat, n: nat)
    ensures Written(Flatten(log + D.Slices(limit, n))) == Written(Flatten(log))
  {
    hide Flatten, Written;
    if n == 0 {
      assert log + D.Slices(limit, n) == log;
    } else {
      SlicesWriteNothing(log, limit, n - 1);
      WritesNothing(log + D.Slices(limit, n - 1), [DropOldest(limit)]);
      assert log + D.Slices(limit, n) == log + D.Slices(limit, n - 1) + [[DropOldest(limit)]];
    }
  }

  lemma PruneWritesNothing(log: seq<Txn>, cutoff: real, incidentCutoff: real, slices: nat)
    ensures Written(Flatten(log + D.PruneTxns(cutoff, incidentCutoff, slices))) == Written(Flatten(log))
  {
    hide Flatten, Written;
    var t := [DropEvents(cutoff), DropIncidents(incidentCutoff)];
    WritesNothing(log, t);
    SlicesWriteNothing(log + [t], D.SLICE, slices);
    assert log + D.PruneTxns(cutoff, incidentCutoff, slices) == log + [t] + D.Slices(D.SLICE, slices);
  }

  /** Over a whole round nothing is lost, added or reordered: behind what was written or
      waiting come the wanted events drained from the queue, then those of the poll. After
      a poll with events, or a due flush, all of it is written. */
  lemma TurnConserves(p: Pipe, cfg: Config, watched: Option<set<string>>, queue: seq<Event>, t: Turn)
    requires cfg.Valid() && Settled(p, cfg) && t.drained <= |queue|
    ensures var q := AfterTurn(p, cfg, watched, queue, t);
            var polled := if t.poll.Some? then t.poll.value.events else [];
            && Settled(q, cfg)
            && Stream(q) == Stream(p) + Accepted(cfg, queue[..t.drained]) + Accepted(cfg, polled)
            && (polled != [] || t.flushed ==> q.buffer == [] && Written(Flatten(q.log)) == Stream(q))
  {
    hide AfterPoll, Flatten, Written, Accepted, Flushed, SubmittedAll, D.PruneTxns, D.Cutoff;
    SubmittedAllConserves(p, cfg, queue[..t.drained]);
    var a := SubmittedAll(p, cfg, queue[..t.drained]);
    NoneAccepted(cfg);
    var b := a;
    if t.poll.Some? {
      PollConserves(a, cfg, watched, t.poll.value.events, t.poll.value.statuses);
      b := AfterPoll(a, cfg, watched, t.poll.value.events, t.poll.value.statuses);
    }
    FlushConserves(b);
    FlushSettles(b, cfg);
    var c := if t.flushed then Flushed(b) else b;
    if t.prune.Some? {
      PruneWritesNothing(c.log, D.Cutoff(t.prune.value.0, cfg.retentionDays),
                         D.Cutoff(t.prune.value.0, cfg.incidentRetentionDays), t.prune.value.1);
    }
  }

  lemma FlushSettles(p: Pipe, cfg: Config)
    requires cfg.Valid() && Settled(p, cfg)
    ensures Settled(Flushed(p), cfg)
  {
  }

  lemma {:induction false} HandledAllAppend(p: Pipe, cfg: Config, a: seq<Event>, b: seq<Event>)
    ensures HandledAll(p, cfg, a + b) == HandledAll(HandledAll(p, cfg, a), cfg, b)
    decreases |b|
  {
    if b == [] {
      assert a + b == a;
    } else {
      assert (a + b)[..|a + b| - 1] == a + b[..|b| - 1];
      HandledAllAppend(p, cfg, a, b[..|b| - 1]);
    }
  }

  ghost predicate AnyOf(evs: seq<Event>, k: Key) {
    exists e :: e in evs && Belongs(e, k)
  }

  /** After statements that leave `k` alone but for writing it. */
  lemma {:induction false} ReopenedIff(db: Db, ops: seq<Op>, k: Key)
    requires QuietFor(ops, k)
    requires k in db.incidents ==> db.incidents[k].status == Resolved
    ensures var t := ApplyAll(db, ops).incidents;
            && (k in t && t[k].status == Open <==> AnyOf(Written(ops), k))
            && (!AnyOf(Written(ops), k) ==> (k in t <==> k in db.incidents))
            && (k in t && t[k].status != Open ==> t[k].status == Resolved)
    decreases |ops|
  {
    if ops != [] {
      var rest, op := ops[..|ops| - 1], ops[|ops| - 1];
      assert op in ops;
      ReopenedIff(db, rest, k);
      if op.Write? {
        assert Written(ops) == Written(rest) + [op.ev];
        assert op.ev in Written(ops);
        assert forall e :: e in Written(ops) <==> e in Written(rest) || e == op.ev;
      } else {
        assert Written(ops) == Written(rest) + [];
      }
    }
  }

  /** The tables after log `later`, which leaves `k` alone since it was resolved behind
      `log`, given what has been written in between. */
  lemma ResolvedThen(log: seq<Txn>, unit: Option<string>, later: seq<Txn>, evs: seq<Event>, k: Key)
    requires unit.GetOr("") == k.unit && k.kind != Error
    requires QuietSince(later, log + [Resolution(unit)], k)
    requires Written(Flatten(later)) == Written(Flatten(log + [Resolution(unit)])) + evs
    ensures var t := Replay(Flatten(later)).incidents;
            && (k in t && t[k].status == Open <==> AnyOf(evs, k))
            && (!AnyOf(evs, k) ==> (k in t <==> k in Replay(Flatten(log)).incidents))
  {
    var base := log + [Resolution(unit)];
    var more: seq<Txn> :| later == base + more && QuietFor(Flatten(more), k);
    FlattenAppend(base, more);
    WrittenAppend(Flatten(base), Flatten(more));
    Text.PrefixUnique(Written(Flatten(base)), Written(Flatten(more)), evs);
    ReplayAppend(Flatten(base), Flatten(more));
    FlattenOne(log, Resolution(unit));
    ReplayOne(Flatten(log), Resolve(unit.GetOr(""), RESOLVE_KINDS));
    ReopenedIff(Replay(Flatten(base)), Flatten(more), k);
  }

  /** A poll whose last recovery of unit u is the event `m`: afterwards an incident of u
      of any kind but error is open exactly when a problem with its key was still in the
      buffer at the resolution or came later in the poll (the marker included). With
      neither, the incidents that existed are all there and resolved. */
  lemma RecoveryThenOpenIff(p: Pipe, cfg: Config, pre: seq<Event>, m: Event, post: seq<Event>, k: Key)
    requires cfg.Valid() && Settled(p, cfg)
    requires m.recovery && m.unit.GetOr("") == k.unit && k.kind != Error
    requires NoRecoveryOf(post, k)
    ensures var before := HandledAll(p, cfg, pre);
            var late := before.buffer + Accepted(cfg, [m] + post);
            var t := Replay(Flatten(Flushed(HandledAll(p, cfg, pre + ([m] + post))).log)).incidents;
            && (k in t && t[k].status == Open <==> AnyOf(late, k))
            && (!AnyOf(late, k) ==> (k in t <==> k in Replay(Flatten(before.log)).incidents))
  {
    var before := HandledAll(p, cfg, pre);
    HandledAllConserves(p, cfg, pre);
    HandledAllAppend(p, cfg, pre, [m] + post);
    MarkerThenRest(before, cfg, m, post);
    var r := before.(log := before.log + [Resolution(m.unit)]);
    var q := HandledAll(Submitted(r, cfg, m), cfg, post);
    SinceResolution(r, cfg, m, post, k);
    ResolvedThen(before.log, m.unit, Flushed(q).log, before.buffer + Accepted(cfg, [m] + post), k);
  }

  /** The same for the poll as a whole, from the recording of its statuses to its flush. */
  lemma PollRecoveryIff(p: Pipe, cfg: Config, watched: Option<set<string>>, sts: seq<ServiceStatus>,
                        pre: seq<Event>, m: Event, post: seq<Event>, k: Key)
    requires cfg.Valid() && Settled(p, cfg)
    requires m.recovery && m.unit.GetOr("") == k.unit && k.kind != Error
    requires NoRecoveryOf(post, k)
    ensures var before := HandledAll(p.(log := p.log + StatusTxns(watched, sts)), cfg, pre);
            var late := before.buffer + Accepted(cfg, [m] + post);
            var t := Replay(Flatten(AfterPoll(p, cfg, watched, pre + ([m] + post), sts).log)).incidents;
            && (k in t && t[k].status == Open <==> AnyOf(late, k))
            && (!AnyOf(late, k) ==> (k in t <==> k in Replay(Flatten(before.log)).incidents))
  {
    hide StatusTxns, HandledAll, Accepted, Flatten, Replay, Flushed;
    var r := p.(log := p.log + StatusTxns(watched, sts));
    assert pre + ([m] + post) != [];
    RecoveryThenOpenIff(r, cfg, pre, m, post, k);
  }

  /** From the resolution to the end of the poll. */
  lemma SinceResolution(r: Pipe, cfg: Config, m: Event, post: seq<Event>, k: Key)
    requires cfg.Valid() && Settled(r, cfg) && NoRecoveryOf(post, k)
    ensures var q := HandledAll(Submitted(r, cfg, m), cfg, post);
            && QuietSince(Flushed(q).log, r.log, k)
            && Written(Flatten(Flushed(q).log))
               == Written(Flatten(r.log)) + (r.buffer + Accepted(cfg, [m] + post))
  {
    var s := Submitted(r, cfg, m);
    var q := HandledAll(s, cfg, post);
    QuietStart(r.log, k);
    FlushQuiet(r.log, Buffered(r, cfg, m), k);
    SubmitConserves(r, cfg, m);
    HandledAllConserves(s, cfg, post);
    AcceptedAppend(cfg, [m], post);
    HandledQuiet(r.log, s, cfg, post, k);
    FlushQuiet(r.log, q, k);
    FlushConserves(q);
    FourParts(Written(Flatten(r.log)), r.buffer, Accepted(cfg, [m]), Accepted(cfg, post));
  }

  lemma FourParts<T>(a: seq<T>, b: seq<T>, c: seq<T>, d: seq<T>)
    ensures a + b + c + d == a + (b + (c + d))
  {
  }

  lemma QuietStart(log: seq<Txn>, k: Key)
    ensures QuietSince(log, log, k)
  {
    assert log == log + [];
    assert QuietFor(Flatten([]), k);
  }

  lemma MarkerThenRest(p: Pipe, cfg: Config, m: Event, post: seq<Event>)
    requires m.recovery
    ensures HandledAll(p, cfg, [m] + post)
         == HandledAll(Submitted(p.(log := p.log + [Resolution(m.unit)]), cfg, m), cfg, post)
  {
    HandledAllAppend(p, cfg, [m], post);
    assert [m][..0] == [];
    assert HandledAll(p, cfg, [m]) == Handled(p, cfg, m);
  }
}

/** The main loop of the daemon object is a run of the protocol: whatever a round drains,
    polls, flushes and prunes is a sequence of protocol steps, so the guarantees over all
    runs hold between the rounds of the object (hblog/daemon.py, `_main_loop`). */
module MainLoop {
  import opened Model
  import opened Tables
  import opened Pipeline
  import opened Journal
  import opened Protocol
  import opened Delivery
  import opened Daemon
  import opened Observer
  import D = Database
  import M = Monitor
  import opened Reader
  import Systemctl

  ghost predicate Reaches(env: Env, s: Sys, t: Sys) {
    exists steps: seq<Step> :: CanRun(env, s, steps) && After(env, s, steps) == t
  }

  lemma ReachesItself(env: Env, s: Sys)
    ensures Reaches(env, s, s)
  {
    assert CanRun(env, s, []) && After(env, s, []) == s;
  }

  lemma ReachesNext(env: Env, s: Sys, step: Step)
    requires Enabled(env, s, step)
    ensures Reaches(env, s, Do(env, s, step))
  {
    RunOne(env, s, step);
  }

  lemma Chain(env: Env, s: Sys, t: Sys, u: Sys)
    requires Reaches(env, s, t) && Reaches(env, t, u)
    ensures Reaches(env, s, u)
  {
    var a: seq<Step> :| CanRun(env, s, a) && After(env, s, a) == t;
    var b: seq<Step> :| CanRun(env, t, b) && After(env, t, b) == u;
    RunAppend(env, s, a, b);
  }

  function With(s: Sys, p: Pipe): Sys { s.(pipe := p) }

  lemma FlushReaches(env: Env, s: Sys)
    requires s.phase == FlushDue || s.phase == Idle
    requires s.phase == FlushDue ==> s.pipe.buffer != []
    ensures Reaches(env, s, s.(pipe := Flushed(s.pipe), phase := Idle))
  {
    if s.pipe.buffer == [] {
      ReachesItself(env, s);
    } else {
      var t := Do(env, s, CommitBatch);
      ReachesNext(env, s, CommitBatch);
      ReachesNext(env, t, CommitCursor);
      Chain(env, s, t, Do(env, t, CommitCursor));
    }
  }

  /** Taking an event and the flush that may be due are the object's submit. */
  lemma TakeReaches(env: Env, s: Sys, t: Sys, ev: Event)
    requires env.Valid() && s.phase == Idle && Reaches(env, s, Take(env, t, ev)) && t.phase == Idle
    ensures Reaches(env, s, With(t, Submitted(t.pipe, env.cfg, ev)))
  {
    var u := Take(env, t, ev);
    SubmitIsTakeAndFlush(env, t, ev);
    if u.phase == FlushDue {
      FlushReaches(env, u);
      Chain(env, s, u, u.(pipe := Flushed(u.pipe), phase := Idle));
    }
  }

  lemma DequeueReaches(env: Env, s: Sys)
    requires env.Valid() && s.phase == Idle && s.queue != []
    ensures Reaches(env, s, s.(queue := s.queue[1..], pipe := Submitted(s.pipe, env.cfg, s.queue[0])))
  {
    ReachesNext(env, s, Dequeue);
    TakeReaches(env, s, s.(queue := s.queue[1..]), s.queue[0]);
  }

  lemma InjectReaches(env: Env, s: Sys, ev: Event)
    requires env.Valid() && s.phase == Idle && ev.cursor.None?
    ensures Reaches(env, s, With(s, Submitted(s.pipe, env.cfg, ev)))
  {
    ReachesNext(env, s, Inject(ev));
    TakeReaches(env, s, s, ev);
  }

  function Logged(s: Sys, txns: seq<Txn>): Sys {
    s.(pipe := s.pipe.(log := s.pipe.log + txns))
  }

  ghost predicate AllNeutral(txns: seq<Txn>) {
    forall t :: t in txns ==> Neutral(t)
  }

  lemma {:induction false} MaintainReaches(env: Env, s: Sys, txns: seq<Txn>)
    requires s.phase == Idle && AllNeutral(txns)
    ensures Reaches(env, s, Logged(s, txns))
    decreases |txns|
  {
    if txns == [] {
      assert s.pipe.log + txns == s.pipe.log;
      ReachesItself(env, s);
    } else {
      var n := |txns| - 1;
      assert txns[n] in txns;
      MaintainReaches(env, s, txns[..n]);
      var t := Logged(s, txns[..n]);
      ReachesNext(env, t, Maintain(txns[n]));
      assert s.pipe.log + txns[..n] + [txns[n]] == s.pipe.log + txns;
      Chain(env, s, t, Logged(s, txns));
    }
  }

  lemma {:induction false} DrainReaches(env: Env, s: Sys, n: nat)
    requires env.Valid() && s.phase == Idle && n <= |s.queue|
    ensures Reaches(env, s, s.(queue := s.queue[n..], pipe := SubmittedAll(s.pipe, env.cfg, s.queue[..n])))
    decreases n
  {
    if n == 0 {
      ReachesItself(env, s);
    } else {
      var q := s.queue;
      DrainReaches(env, s, n - 1);
      var t := s.(queue := q[n - 1..], pipe := SubmittedAll(s.pipe, env.cfg, q[..n - 1]));
      DequeueReaches(env, t);
      assert q[n - 1..][1..] == q[n..] && q[..n][..n - 1] == q[..n - 1];
      Chain(env, s, t, s.(queue := q[n..], pipe := SubmittedAll(s.pipe, env.cfg, q[..n])));
    }
  }

  ghost predicate NoCursors(evs: seq<Event>) {
    forall e :: e in evs ==> e.cursor.None?
  }

  lemma HandledReaches(env: Env, s: Sys, ev: Event)
    requires env.Valid() && s.phase == Idle && ev.cursor.None?
    ensures Reaches(env, s, With(s, Handled(s.pipe, env.cfg, ev)))
  {
    if ev.recovery {
      var t := Logged(s, [Resolution(ev.unit)]);
      assert Neutral(Resolution(ev.unit));
      MaintainReaches(env, s, [Resolution(ev.unit)]);
      InjectReaches(env, t, ev);
      Chain(env, s, t, With(s, Handled(s.pipe, env.cfg, ev)));
    } else {
      InjectReaches(env, s, ev);
    }
  }

  lemma {:induction false} HandledAllReaches(env: Env, s: Sys, evs: seq<Event>)
    requires env.Valid() && s.phase == Idle && NoCursors(evs)
    ensures Reaches(env, s, With(s, HandledAll(s.pipe, env.cfg, evs)))
    decreases |evs|
  {
    if evs == [] {
      ReachesItself(env, s);
    } else {
      var n := |evs| - 1;
      assert evs[n] in evs;
      HandledAllReaches(env, s, evs[..n]);
      var t := With(s, HandledAll(s.pipe, env.cfg, evs[..n]));
      HandledReaches(env, t, evs[n]);
      Chain(env, s, t, With(s, HandledAll(s.pipe, env.cfg, evs)));
    }
  }

  lemma {:induction false} PutsNeutral(sts: seq<ServiceStatus>)
    ensures AllNeutral(Puts(sts))
  {
    if sts != [] { PutsNeutral(sts[..|sts| - 1]); }
  }

  lemma {:induction false} SlicesNeutral(limit: nat, n: nat)
    ensures AllNeutral(D.Slices(limit, n))
  {
    if n > 0 { SlicesNeutral(limit, n - 1); }
  }

  lemma PollReaches(env: Env, s: Sys, watched: Option<set<string>>, events: seq<Event>, statuses: seq<ServiceStatus>)
    requires env.Valid() && s.phase == Idle && NoCursors(events)
    ensures Reaches(env, s, With(s, AfterPoll(s.pipe, env.cfg, watched, events, statuses)))
  {
    PutsNeutral(statuses);
    var t := Logged(s, StatusTxns(watched, statuses));
    MaintainReaches(env, s, StatusTxns(watched, statuses));
    HandledAllReaches(env, t, events);
    var u := With(t, HandledAll(t.pipe, env.cfg, events));
    Chain(env, s, t, u);
    if events != [] {
      FlushReaches(env, u);
      Chain(env, s, u, u.(pipe := Flushed(u.pipe), phase := Idle));
    }
  }

  lemma PruneReaches(env: Env, s: Sys, cfg: Config, clock: real, slices: nat)
    requires s.phase == Idle
    ensures Reaches(env, s, With(s, Pruned(s.pipe, cfg, clock, slices)))
  {
    SlicesNeutral(D.SLICE, slices);
    MaintainReaches(env, s, D.PruneTxns(D.Cutoff(clock, cfg.retentionDays),
                                        D.Cutoff(clock, cfg.incidentRetentionDays), slices));
  }

  // --- the events of a poll carry no cursor ---------------------------------------------------

  lemma EventsHaveNoCursor(cfg: Config, unit: string, s: UnitState, x: Sample)
    ensures NoCursors(EventsOf(cfg, unit, s, x))
  {
  }

  lemma {:induction false} PolledAllNoCursors(cfg: Config, o: M.Outcome, units: seq<string>,
                                              props: map<string, Systemctl.Props>, now: real)
    requires NoCursors(o.events)
    ensures NoCursors(M.PolledAll(cfg, o, units, props, now).events)
    decreases |units|
  {
    if units != [] {
      var n := |units| - 1;
      PolledAllNoCursors(cfg, o, units[..n], props, now);
      var u, r := units[n], M.PolledAll(cfg, o, units[..n], props, now);
      if u in props {
        EventsHaveNoCursor(cfg, u, Run(cfg, M.HistoryOf(r.seen, u)), Sample(now, props[u]));
      }
    }
  }

  lemma TurnHasNoCursors(cfg: Config, t: Turn)
    requires TruePoll(cfg, t)
    ensures t.poll.Some? ==> NoCursors(t.poll.value.events)
  {
    if t.poll.Some? {
      var seen, clock, listing, show :| t.poll.value == M.WholePoll(cfg, seen, clock, listing, show);
      var units := M.WatchedOnly(cfg, Systemctl.Listed(Systemctl.Lines(listing)));
      PolledAllNoCursors(cfg, M.Outcome(seen, [], []), units,
                         if units != [] then Systemctl.Parsed(show(units)) else map[], clock);
    }
  }

  // --- the refinement -----------------------------------------------------------------------------

  /** The state of the collector behind a round of the daemon object. */
  ghost function Turned(env: Env, s: Sys, watched: Option<set<string>>, t: Turn): Sys
    requires t.drained <= |s.queue|
  {
    s.(queue := s.queue[t.drained..], pipe := AfterTurn(s.pipe, env.cfg, watched, s.queue, t))
  }

  /** Whatever a round of the main loop does is a run of the protocol. */
  lemma RoundIsRun(env: Env, s: Sys, watched: Option<set<string>>, t: Turn)
    requires env.Valid() && s.phase == Idle && t.drained <= |s.queue| && TruePoll(env.cfg, t)
    ensures Reaches(env, s, Turned(env, s, watched, t))
  {
    TurnHasNoCursors(env.cfg, t);
    var a := s.(queue := s.queue[t.drained..], pipe := SubmittedAll(s.pipe, env.cfg, s.queue[..t.drained]));
    DrainReaches(env, s, t.drained);
    var b := if t.poll.Some?
             then With(a, AfterPoll(a.pipe, env.cfg, watched, t.poll.value.events, t.poll.value.statuses)) else a;
    if t.poll.Some? {
      PollReaches(env, a, watched, t.poll.value.events, t.poll.value.statuses);
      Chain(env, s, a, b);
    }
    var c := if t.flushed then With(b, Flushed(b.pipe)) else b;
    if t.flushed {
      FlushReaches(env, b);
      Chain(env, s, b, c);
    }
    if t.prune.Some? {
      PruneReaches(env, c, env.cfg, t.prune.value.0, t.prune.value.1);
      Chain(env, s, c, With(c, Pruned(c.pipe, env.cfg, t.prune.value.0, t.prune.value.1)));
    }
  }

  // --- the reader thread ------------------------------------------------------------------------

  /** The journal may grow at any time. */
  lemma {:induction false} GrowReaches(env: Env, s: Sys, n: nat)
    requires s.appended <= n <= |env.journal|
    ensures Reaches(env, s, s.(appended := n))
    decreases n
  {
    if n == s.appended {
      ReachesItself(env, s);
    } else {
      GrowReaches(env, s, n - 1);
      ReachesNext(env, s.(appended := n - 1), Append);
      Chain(env, s, s.(appended := n - 1), s.(appended := n));
    }
  }

  /** The reader is between two entries, and the main thread between two steps. */
  ghost predicate AtRest(env: Env, s: Sys) {
    s.phase == Idle && !s.fetched && s.next <= s.appended <= |env.journal|
  }

  /** Queueing entries is a run of the reader's steps. */
  lemma {:induction false} FeedReaches(env: Env, s: Sys, n: nat)
    requires AtRest(env, s) && s.next + n <= s.appended && |s.queue| + n <= QUEUE_SIZE
    ensures Reaches(env, s, s.(queue := s.queue + Entries(env, s.next, s.next + n), next := s.next + n))
    decreases n
  {
    if n == 0 {
      assert s.queue + Entries(env, s.next, s.next) == s.queue;
      ReachesItself(env, s);
    } else {
      FeedReaches(env, s, n - 1);
      var t := s.(queue := s.queue + Entries(env, s.next, s.next + n - 1), next := s.next + n - 1);
      ReachesNext(env, t, Fetch);
      ReachesNext(env, Do(env, t, Fetch), Enqueue);
      var u := Do(env, Do(env, t, Fetch), Enqueue);
      Chain(env, t, Do(env, t, Fetch), u);
      assert u.queue == s.queue + Entries(env, s.next, s.next + n);
      Chain(env, s, t, u);
    }
  }

  /** A failure of the reader, with an entry taken but not queued, changes nothing. */
  lemma FailureReaches(env: Env, s: Sys)
    requires AtRest(env, s) && s.next < s.appended
    ensures Reaches(env, s, Do(env, Do(env, s, Fetch), Reconnect)) && Do(env, Do(env, s, Fetch), Reconnect) == s
  {
    ReachesNext(env, s, Fetch);
    ReachesNext(env, Do(env, s, Fetch), Reconnect);
    Chain(env, s, Do(env, s, Fetch), s);
  }

  /** What the reader thread queues over all its sessions, failures included, is a run of
      the reader's steps from where the cursor is. */
  lemma WorkerIsRun(env: Env, s: Sys, initial: Cursor, queued: seq<Event>, cursor: Cursor)
    requires AtRest(env, s) && s.next == initial + 1 && initial <= cursor < s.appended
    requires queued == Entries(env, initial + 1, cursor + 1) && |s.queue| + |queued| <= QUEUE_SIZE
    ensures Reaches(env, s, s.(queue := s.queue + queued, next := cursor + 1))
  {
    FeedReaches(env, s, |queued|);
  }

  // --- start and stop -----------------------------------------------------------------------------

  /** Opening the database that survived and reading the cursor from it is the restart: the
      reader resumes behind the cursor that get_meta returns, or behind the one that
      collection started from if none has been persisted since. */
  lemma StartIsRestart(env: Env, s: Sys, cursor: Option<Cursor>)
    requires s.phase == Down && LogOk(env, s.pipe.log)
    requires var meta := Replay(Flatten(s.pipe.log)).meta;
             cursor == if CURSOR_KEY in meta then Some(meta[CURSOR_KEY]) else None
    ensures Enabled(env, s, Restart)
    ensures Do(env, s, Restart) == s.(phase := Idle, next := cursor.GetOr(env.start) + 1)
  {
    PersistedIsMeta(env, s.pipe.log);
  }

  // --- a life of the daemon object -----------------------------------------------------------------

  /** The state of the collector that main thread and queue stand for, `first` being the
      entry that the reader began with. */
  function At(s: Sys, first: nat, m: Main): Sys {
    s.(queue := m.queue, pipe := m.pipe, next := first + m.taken)
  }

  lemma FedIs(env: Env, s: Sys, first: nat, m: Main, n: nat)
    requires first + m.taken + n <= s.appended <= |env.journal|
    ensures var f := Fed(m, Entries(env, first, s.appended), n);
            At(s, first, f) == At(s, first, m).(queue := m.queue + Entries(env, first + m.taken, first + m.taken + n),
                                                next := first + m.taken + n)
  {
    var source := Entries(env, first, s.appended);
    assert source[m.taken..m.taken + n] == Entries(env, first + m.taken, first + m.taken + n);
  }

  lemma LapIsRun(env: Env, s: Sys, first: nat, m: Main, lap: Lap)
    requires env.Valid() && AtRest(env, At(s, first, m)) && first <= s.appended
    requires LapOk(m, env.cfg, Entries(env, first, s.appended), lap)
    ensures var n := AfterLap(m, env.cfg, Entries(env, first, s.appended), lap);
            Reaches(env, At(s, first, m), At(s, first, n)) && AtRest(env, At(s, first, n))
  {
    var source := Entries(env, first, s.appended);
    var f := Fed(m, source, lap.arrived);
    FedIs(env, s, first, m, lap.arrived);
    FeedReaches(env, At(s, first, m), lap.arrived);
    RoundIsRun(env, At(s, first, f), lap.watched, lap.turn);
    var n := AfterLap(m, env.cfg, source, lap);
    assert Turned(env, At(s, first, f), lap.watched, lap.turn) == At(s, first, n);
    Chain(env, At(s, first, m), At(s, first, f), At(s, first, n));
  }

  lemma {:induction false} LapsAreRun(env: Env, s: Sys, first: nat, m: Main, laps: seq<Lap>)
    requires env.Valid() && AtRest(env, At(s, first, m)) && first <= s.appended
    requires AfterLaps(m, env.cfg, Entries(env, first, s.appended), laps).Some?
    ensures var n := AfterLaps(m, env.cfg, Entries(env, first, s.appended), laps).value;
            Reaches(env, At(s, first, m), At(s, first, n)) && AtRest(env, At(s, first, n))
    decreases |laps|
  {
    var source := Entries(env, first, s.appended);
    hide Reaches, AtRest, LapOk, AfterLap, At;
    if laps == [] {
      ReachesItself(env, At(s, first, m));
    } else {
      var front := laps[..|laps| - 1];
      LapsAreRun(env, s, first, m, front);
      var k := AfterLaps(m, env.cfg, source, front).value;
      LapIsRun(env, s, first, k, laps[|laps| - 1]);
      Chain(env, At(s, first, m), At(s, first, k), At(s, first, AfterLap(k, env.cfg, source, laps[|laps| - 1])));
    }
  }

  /** A whole life, from the start with an empty queue to the final flush, is a run. */
  lemma LifeIsRun(env: Env, s: Sys, laps: seq<Lap>, last: Main)
    requires env.Valid() && AtRest(env, s) && s.queue == []
    requires AfterLaps(Main(s.pipe, [], 0), env.cfg, Entries(env, s.next, s.appended), laps) == Some(last)
    ensures var end := At(s, s.next, last.(pipe := Flushed(last.pipe)));
            Reaches(env, s, end) && end.phase == Idle && end.pipe.buffer == []
  {
    var m := Main(s.pipe, [], 0);
    assert At(s, s.next, m) == s;
    LapsAreRun(env, s, s.next, m, laps);
    var t := At(s, s.next, last);
    FlushReaches(env, t);
    Chain(env, s, t, t.(pipe := Flushed(t.pipe), phase := Idle));
  }

  /** Restarted after a crash, the daemon lives on: the state it ends in is one of a run. */
  lemma RestartedLifeIsRun(env: Env, s: Sys, n: nat, laps: seq<Lap>, last: Main)
    requires env.Valid() && Inv(env, s) && Cold(s) && s.phase == Down && s.appended <= n <= |env.journal|
    requires var next := Persisted(env.start, s.pipe.log) + 1;
             next <= n && AfterLaps(Main(s.pipe, [], 0), env.cfg, Entries(env, next, n), laps) == Some(last)
    ensures var up := Do(env, s, Restart).(appended := n);
            Enabled(env, s, Restart) && Reaches(env, s, At(up, up.next, last.(pipe := Flushed(last.pipe))))
  {
    hide Reaches, AfterLaps;
    ReachesNext(env, s, Restart);
    var r := Do(env, s, Restart);
    GrowReaches(env, r, n);
    Chain(env, s, r, r.(appended := n));
    LifeIsRun(env, r.(appended := n), laps, last);
    Chain(env, s, r.(appended := n), At(r.(appended := n), r.next, last.(pipe := Flushed(last.pipe))));
  }

  /** What a life of the daemon guarantees at its end, in any history of crashes, restarts
      and earlier lives: no gap in any prefix of the log, copies counted by torn crashes,
      and every watched entry that was taken off the queue covered by the cursor. */
  lemma LifeKeepsGuarantees(env: Env, start: Sys, s: Sys, laps: seq<Lap>, last: Main, n: nat, i: nat)
    requires env.Valid() && Init(env, start) && Reaches(env, start, s) && AtRest(env, s) && s.queue == []
    requires AfterLaps(Main(s.pipe, [], 0), env.cfg, Entries(env, s.next, s.appended), laps) == Some(last)
    requires n <= |Flushed(last.pipe).log|
    ensures var log := Flushed(last.pipe).log;
            && (Covered(env, log[..n], i) ==> Write(env.Entry(i)) in Flatten(log[..n]))
            && Copies(log[..n], i) <= 1 + TornCrashes(s.crashes, i)
            && (env.start < i < s.next + last.taken - |last.queue| && i < |env.journal| && env.Watched(i) ==> Covered(env, log, i))
  {
    hide CanRun, After, Init, AfterLaps, Reaches, Covered, Copies, TornCrashes, Settled;
    var end := At(s, s.next, last.(pipe := Flushed(last.pipe)));
    LifeIsRun(env, s, laps, last);
    Chain(env, start, s, end);
    var steps := RunTo(env, start, end);
    NoGapEver(env, start, steps, n, i);
    CopiesBounded(env, start, steps, n, i);
    FlushedMeansCovered(env, start, steps, i);
    NothingPending(env, start, steps);
  }

  lemma RunTo(env: Env, s: Sys, t: Sys) returns (steps: seq<Step>)
    requires Reaches(env, s, t)
    ensures CanRun(env, s, steps) && After(env, s, steps) == t
  {
    steps :| CanRun(env, s, steps) && After(env, s, steps) == t;
  }

  /** No cursor waits without an event. */
  lemma NothingPending(env: Env, s: Sys, steps: seq<Step>)
    requires env.Valid() && Init(env, s) && CanRun(env, s, steps)
    ensures var t := After(env, s, steps); t.phase != Down && t.pipe.buffer == [] ==> t.pipe.pending == None
  {
    FromInit(env, s, steps, 0);
  }

  /** So the guarantees of every run hold behind a round, from any state that a run from
      the start can be in: no covered entry is missing in any prefix of the commit log,
      and copies beyond the first are counted by torn crashes. */
  lemma RoundKeepsGuarantees(env: Env, start: Sys, s: Sys, watched: Option<set<string>>, t: Turn, n: nat, i: nat)
    requires env.Valid() && Init(env, start) && Reaches(env, start, s)
    requires s.phase == Idle && t.drained <= |s.queue| && TruePoll(env.cfg, t)
    requires n <= |Turned(env, s, watched, t).pipe.log|
    ensures var u := Turned(env, s, watched, t);
            && Reaches(env, start, u)
            && (Covered(env, u.pipe.log[..n], i) ==> Write(env.Entry(i)) in Flatten(u.pipe.log[..n]))
            && Copies(u.pipe.log[..n], i) <= 1 + TornCrashes(u.crashes, i)
  {
    var u := Turned(env, s, watched, t);
    RoundIsRun(env, s, watched, t);
    Chain(env, start, s, u);
    var steps: seq<Step> :| CanRun(env, start, steps) && After(env, start, steps) == u;
    NoGapEver(env, start, steps, n, i);
    CopiesBounded(env, start, steps, n, i);
  }
}

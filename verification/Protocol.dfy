/** The collector as a state machine: the reader thread, the queue, the main thread with
    the two commits of a flush, crashes that may lose any tail of the commit log, and
    restarts. Every interleaving of the steps is considered (hblog/daemon.py,
    hblog/pipeline.py, hblog/sources/journal.py). */
module Protocol {
  import opened Model
  import opened Tables
  import opened Pipeline
  import opened Journal
  import opened Classify

  /** What the main thread is about to do; Down means the process is not running. */
  datatype Phase = Down | Idle | FlushDue | HalfFlushed

  datatype Sys = Sys(
    appended: nat,               // journal entries that exist so far
    phase: Phase,
    next: nat,                   // the reader's own cursor, plus one
    fetched: bool,               // the reader has taken entry `next` but not queued it
    queue: seq<Event>,
    pipe: Pipe,                  // buffer, pending cursor, commit log
    crashes: seq<seq<Txn>>)      // the logs that survived the crashes so far

  datatype Step =
    | Append                     // the system logs an entry
    | Fetch                      // the reader takes the next entry
    | Enqueue                    // ... and puts it on the queue
    | Reconnect                  // the reader fails and resumes from its own cursor
    | Dequeue                    // the main thread submits the first queued event
    | Inject(ev: Event)          // ... or an event of the unit monitor
    | CommitBatch                // first commit of a flush, due or timed
    | CommitCursor               // second commit of a flush
    | Maintain(txn: Txn)         // a resolution, retention, or status transaction
    | Crash(kept: nat)           // the process dies; so many transactions survive
    | Restart

  predicate Neutral(t: Txn) {
    forall i :: 0 <= i < |t| ==> !t[i].Write? && !t[i].SetMeta?
  }

  ghost predicate Enabled(env: Env, s: Sys, step: Step) {
    match step
    case Append => s.appended < |env.journal|
    case Fetch => s.phase != Down && !s.fetched && s.next < s.appended
    case Enqueue => s.phase != Down && s.fetched && |s.queue| < QUEUE_SIZE
    case Reconnect => s.phase != Down
    case Dequeue => s.phase == Idle && s.queue != []
    case Inject(ev) => s.phase == Idle && ev.cursor.None?
    case CommitBatch => (s.phase == Idle || s.phase == FlushDue) && s.pipe.buffer != []
    case CommitCursor => s.phase == HalfFlushed
    case Maintain(t) => s.phase == Idle && Neutral(t)
    case Crash(kept) => s.phase != Down && kept <= |s.pipe.log|
    case Restart => s.phase == Down
  }

  /** The main thread takes an event; a full buffer must be flushed next. */
  function Take(env: Env, s: Sys, ev: Event): Sys {
    if !Accepts(env.cfg, ev) then s
    else
      var p := Buffered(s.pipe, env.cfg, ev);
      s.(pipe := p, phase := if |p.buffer| >= env.cfg.batchSize then FlushDue else Idle)
  }

  ghost function Do(env: Env, s: Sys, step: Step): Sys
    requires Enabled(env, s, step)
  {
    match step
    case Append => s.(appended := s.appended + 1)
    case Fetch => s.(fetched := true)
    case Enqueue =>
      if s.next < |env.journal| then
        s.(queue := s.queue + [env.Raw(s.next)], next := s.next + 1, fetched := false)
      else s
    case Reconnect => s.(fetched := false)
    case Dequeue => Take(env, s.(queue := s.queue[1..]), s.queue[0])
    case Inject(ev) => Take(env, s, ev)
    case CommitBatch => s.(pipe := BatchCommitted(s.pipe), phase := HalfFlushed)
    case CommitCursor => s.(pipe := CursorCommitted(s.pipe), phase := Idle)
    case Maintain(t) => s.(pipe := s.pipe.(log := s.pipe.log + [t]))
    case Crash(kept) =>
      var log := s.pipe.log[..kept];
      Sys(s.appended, Down, 0, false, [], Pipe([], None, log), s.crashes + [log])
    case Restart =>
      s.(phase := Idle, next := Persisted(env.start, s.pipe.log) + 1)
  }

  ghost predicate Init(env: Env, s: Sys) {
    && env.start < s.appended <= |env.journal|
    && s == Sys(s.appended, Idle, env.start + 1, false, [], Pipe([], None, []), [])
  }

  // --- the invariant ------------------------------------------------------------------------

  function LastOf(s: seq<nat>): Option<nat> {
    if s == [] then None else Some(s[|s| - 1])
  }

  /** The first entry the main thread has not taken yet. */
  function Head(s: Sys): int { s.next - |s.queue| }

  /** The queue holds consecutive entries up to the reader's cursor. */
  ghost predicate ReaderOk(env: Env, s: Sys) {
    && Persisted(env.start, s.pipe.log) < Head(s)
    && s.next <= s.appended <= |env.journal|
    && (s.fetched ==> s.next < s.appended)
    && forall j :: 0 <= j < |s.queue| ==> s.queue[j] == env.Raw(Head(s) + j)
  }

  /** The buffer holds the watched entries from the persisted cursor to the head. */
  ghost predicate BufferOk(env: Env, s: Sys)
    requires 0 <= Head(s) <= |env.journal|
  {
    var p := s.pipe;
    && Indices(p.buffer) == env.Range(Persisted(env.start, p.log) + 1, Head(s))
    && p.pending == LastOf(Indices(p.buffer))
    && |p.buffer| <= env.cfg.batchSize
    && (s.phase == Idle ==> |p.buffer| < env.cfg.batchSize)
    && (s.phase == HalfFlushed ==>
          p.log != [] && p.buffer != [] && p.log[|p.log| - 1] == Writes(p.buffer))
  }

  ghost predicate Inv(env: Env, s: Sys) {
    && LogOk(env, s.pipe.log)
    && Persisted(env.start, s.pipe.log) < s.appended <= |env.journal|
    && (s.phase != Down ==> ReaderOk(env, s) && BufferOk(env, s))
  }

  // --- keeping it ------------------------------------------------------------------------------

  lemma SameReader(env: Env, s: Sys, t: Sys)
    requires ReaderOk(env, s) && Persisted(env.start, t.pipe.log) < Head(s)
    requires t.queue == s.queue && t.next == s.next && t.fetched == s.fetched && t.appended == s.appended
    ensures ReaderOk(env, t) && Head(t) == Head(s)
  {
  }

  lemma InitInv(env: Env, s: Sys)
    requires env.Valid() && Init(env, s)
    ensures Inv(env, s)
  {
  }

  lemma EnqueueInv(env: Env, s: Sys)
    requires env.Valid() && Inv(env, s) && Enabled(env, s, Enqueue)
    ensures Inv(env, Do(env, s, Enqueue))
  {
    var t := Do(env, s, Enqueue);
    assert Head(t) == Head(s);
    forall j | 0 <= j < |t.queue| ensures t.queue[j] == env.Raw(Head(t) + j) {
      if j < |s.queue| { assert t.queue[j] == s.queue[j]; }
    }
  }

  lemma BufferedIndices(p: Pipe, cfg: Config, ev: Event)
    ensures Indices(Buffered(p, cfg, ev).buffer)
         == Indices(p.buffer) + (if ev.cursor.Some? then [ev.cursor.value] else [])
    ensures Buffered(p, cfg, ev).pending == if ev.cursor.Some? then ev.cursor else p.pending
    ensures |Buffered(p, cfg, ev).buffer| == |p.buffer| + 1 && Buffered(p, cfg, ev).log == p.log
  {
    var c := Classified(ev, cfg.errorPriority);
    ClassifiedKeeps(ev, cfg.errorPriority);
    assert (p.buffer + [c])[..|p.buffer|] == p.buffer;
  }

  lemma TakeEntry(env: Env, p: Pipe, lo: nat, h: nat)
    requires lo <= h < |env.journal|
    requires Indices(p.buffer) == env.Range(lo, h) && p.pending == LastOf(Indices(p.buffer))
    ensures var q := if env.Watched(h) then Buffered(p, env.cfg, env.Raw(h)) else p;
            Indices(q.buffer) == env.Range(lo, h + 1) && q.pending == LastOf(Indices(q.buffer))
  {
    hide Indices, Buffered;
    BufferedIndices(p, env.cfg, env.Raw(h));
    assert env.Range(lo, h + 1) == env.Range(lo, h) + if env.Watched(h) then [h] else [];
  }

  lemma RestOfQueue(env: Env, s: Sys)
    requires Inv(env, s) && s.phase == Idle && s.queue != []
    ensures 0 < Head(s) < |env.journal| && s.queue[0] == env.Raw(Head(s))
    ensures ReaderOk(env, s.(queue := s.queue[1..])) && Head(s.(queue := s.queue[1..])) == Head(s) + 1
  {
    var h, rest := Head(s), s.queue[1..];
    assert s.queue[0] == env.Raw(h + 0);
    forall j | 0 <= j < |rest| ensures rest[j] == env.Raw(h + 1 + j) {
      assert rest[j] == s.queue[j + 1] == env.Raw(h + (j + 1));
    }
  }

  lemma TakeOk(env: Env, s: Sys, h: nat)
    requires env.Valid() && s.phase == Idle && h < |env.journal| && Head(s) == h + 1
    requires Persisted(env.start, s.pipe.log) < h
    requires Indices(s.pipe.buffer) == env.Range(Persisted(env.start, s.pipe.log) + 1, h)
    requires s.pipe.pending == LastOf(Indices(s.pipe.buffer)) && |s.pipe.buffer| < env.cfg.batchSize
    ensures var t := Take(env, s, env.Raw(h));
            && BufferOk(env, t) && t.pipe.log == s.pipe.log && t.phase != Down
            && t == s.(phase := t.phase, pipe := t.pipe)
  {
    hide Indices, Env.Range, Persisted, Buffered, Config.UnitIsWatched;
    assert Accepts(env.cfg, env.Raw(h)) == env.Watched(h);
    TakeEntry(env, s.pipe, Persisted(env.start, s.pipe.log) + 1, h);
    BufferedIndices(s.pipe, env.cfg, env.Raw(h));
  }

  lemma DequeueInv(env: Env, s: Sys)
    requires env.Valid() && Inv(env, s) && Enabled(env, s, Dequeue)
    ensures Inv(env, Do(env, s, Dequeue))
  {
    RestOfQueue(env, s);
    var r := s.(queue := s.queue[1..]);
    TakeOk(env, r, Head(s));
    SameReader(env, r, Do(env, s, Dequeue));
  }

  lemma InjectInv(env: Env, s: Sys, ev: Event)
    requires env.Valid() && Inv(env, s) && Enabled(env, s, Inject(ev))
    ensures Inv(env, Do(env, s, Inject(ev)))
  {
    BufferedIndices(s.pipe, env.cfg, ev);
    var t := Do(env, s, Inject(ev));
    assert t.pipe.log == s.pipe.log && Head(t) == Head(s) && t.queue == s.queue;
  }

  lemma WritesMoveNoCursor(evs: seq<Event>)
    ensures MovesNoCursor(Writes(evs)) && (!IsCursorTxn(Writes(evs)))
    ensures Written(Writes(evs)) == evs && EntriesOf(Writes(evs)) == Indices(evs)
  {
    WrittenWrites(evs);
    assert |Writes(evs)| == 1 ==> Writes(evs)[0].Write?;
  }

  lemma CommitBatchInv(env: Env, s: Sys)
    requires env.Valid() && Inv(env, s) && Enabled(env, s, CommitBatch)
    ensures Inv(env, Do(env, s, CommitBatch))
  {
    hide Indices, Env.Range, Written;
    var p := s.pipe;
    var t := Writes(p.buffer);
    WritesMoveNoCursor(p.buffer);
    LogStep(env, p.log, t);
    assert DataTxn(env, p.log, t, Head(s));
    var after := Do(env, s, CommitBatch);
    SameReader(env, s, after);
    assert BufferOk(env, after);
  }

  lemma CursorMoves(env: Env, log: seq<Txn>, buffer: seq<Event>, c: Cursor, h: nat)
    requires LogOk(env, log) && log != [] && log[|log| - 1] == Writes(buffer) && h <= |env.journal|
    requires Indices(buffer) == env.Range(Persisted(env.start, log) + 1, h)
    requires LastOf(Indices(buffer)) == Some(c)
    ensures LogOk(env, log + [CursorTxn(c)]) && Persisted(env.start, log + [CursorTxn(c)]) == c
    ensures Persisted(env.start, log) < c < h && env.Range(c + 1, h) == []
  {
    WritesMoveNoCursor(buffer);
    RangeLast(env, Persisted(env.start, log) + 1, h);
    LogStep(env, log, CursorTxn(c));
    assert FollowUp(log, CursorTxn(c));
  }

  lemma CursorOk(env: Env, p: Pipe, h: nat)
    requires env.Valid() && LogOk(env, p.log) && h <= |env.journal|
    requires p.log != [] && p.log[|p.log| - 1] == Writes(p.buffer)
    requires Indices(p.buffer) == env.Range(Persisted(env.start, p.log) + 1, h)
    requires p.pending == LastOf(Indices(p.buffer))
    ensures var log := CursorCommitted(p).log; var c := Persisted(env.start, log);
            LogOk(env, log) && env.Range(c + 1, h) == [] && (c == Persisted(env.start, p.log) || c < h)
  {
    hide LogOk, Indices, Writes;
    if p.pending.Some? {
      CursorMoves(env, p.log, p.buffer, p.pending.value, h);
    }
  }

  lemma EmptyBufferOk(env: Env, t: Sys)
    requires 0 <= Head(t) <= |env.journal| && env.cfg.Valid()
    requires t.phase == Idle && t.pipe.buffer == [] && t.pipe.pending == None
    requires env.Range(Persisted(env.start, t.pipe.log) + 1, Head(t)) == []
    ensures BufferOk(env, t)
  {
  }

  lemma CommitCursorInv(env: Env, s: Sys)
    requires env.Valid() && Inv(env, s) && Enabled(env, s, CommitCursor)
    ensures Inv(env, Do(env, s, CommitCursor))
  {
    hide LogOk, Persisted, Env.Range, Indices, Written;
    var t := Do(env, s, CommitCursor);
    CursorOk(env, s.pipe, Head(s));
    assert t.pipe == CursorCommitted(s.pipe);
    SameReader(env, s, t);
    EmptyBufferOk(env, t);
  }

  lemma NeutralWritesNothing(t: Txn)
    requires Neutral(t)
    ensures Written(t) == []
  {
    if t != [] { NeutralWritesNothing(t[..|t| - 1]); }
  }

  lemma NeutralOk(env: Env, log: seq<Txn>, t: Txn)
    requires env.Valid() && LogOk(env, log) && Neutral(t)
    ensures LogOk(env, log + [t]) && Persisted(env.start, log + [t]) == Persisted(env.start, log)
    ensures EntriesOf(t) == [] && !IsCursorTxn(t)
  {
    NeutralWritesNothing(t);
    PersistedInRange(env, log);
    LogStep(env, log, t);
    assert DataTxn(env, log, t, Persisted(env.start, log) + 1);
  }

  lemma MaintainInv(env: Env, s: Sys, t: Txn)
    requires env.Valid() && Inv(env, s) && Enabled(env, s, Maintain(t))
    ensures Inv(env, Do(env, s, Maintain(t)))
  {
    NeutralOk(env, s.pipe.log, t);
    assert Head(Do(env, s, Maintain(t))) == Head(s);
  }

  lemma CrashInv(env: Env, s: Sys, kept: nat)
    requires env.Valid() && Inv(env, s) && Enabled(env, s, Step.Crash(kept))
    ensures Inv(env, Do(env, s, Step.Crash(kept)))
  {
    LogOkPrefix(env, s.pipe.log, kept);
    PersistedGrows(env, s.pipe.log, kept);
  }

  /** Down, nothing volatile is left. */
  ghost predicate Cold(s: Sys) {
    s.phase == Down ==> s.queue == [] && s.pipe.buffer == [] && s.pipe.pending == None && !s.fetched
  }

  lemma RestartInv(env: Env, s: Sys)
    requires env.Valid() && Inv(env, s) && Cold(s) && Enabled(env, s, Restart)
    ensures Inv(env, Do(env, s, Restart))
  {
    assert Head(Do(env, s, Restart)) == Persisted(env.start, s.pipe.log) + 1;
  }

  lemma StepInv(env: Env, s: Sys, step: Step)
    requires env.Valid() && Inv(env, s) && Cold(s) && Enabled(env, s, step)
    ensures Inv(env, Do(env, s, step)) && Cold(Do(env, s, step))
  {
    hide LogOk, Persisted, Indices, Env.Range;
    match step
    case Append => assert Head(Do(env, s, Append)) == Head(s);
    case Fetch => assert Head(Do(env, s, Fetch)) == Head(s);
    case Enqueue => EnqueueInv(env, s);
    case Reconnect => assert Head(Do(env, s, Reconnect)) == Head(s);
    case Dequeue => DequeueInv(env, s);
    case Inject(ev) => InjectInv(env, s, ev);
    case CommitBatch => CommitBatchInv(env, s);
    case CommitCursor => CommitCursorInv(env, s);
    case Maintain(t) => MaintainInv(env, s, t);
    case Crash(kept) => CrashInv(env, s, kept);
    case Restart => RestartInv(env, s);
  }
}

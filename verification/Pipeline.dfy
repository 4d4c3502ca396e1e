/** Classification, batching and cursor persistence (hblog/pipeline.py). */
module Pipeline {
  import opened Model
  import opened Tables
  import opened Classify
  import D = Database
  import Text

  // --- the pipeline as values -----------------------------------------------------------

  /** What the pipeline holds and the commit log behind it. */
  datatype Pipe = Pipe(buffer: seq<Event>, pending: Option<Cursor>, log: seq<Txn>)

  predicate Accepts(cfg: Config, ev: Event) {
    cfg.UnitIsWatched(ev.unit)
  }

  /** A watched event is classified and buffered, and its cursor remembered. */
  function Buffered(p: Pipe, cfg: Config, ev: Event): Pipe {
    var c := Classified(ev, cfg.errorPriority);
    Pipe(p.buffer + [c], if c.cursor.Some? then c.cursor else p.pending, p.log)
  }

  /** First commit of a flush: the batch. */
  function BatchCommitted(p: Pipe): Pipe {
    p.(log := p.log + [Writes(p.buffer)])
  }

  function CursorTxn(c: Cursor): Txn {
    [SetMeta(CURSOR_KEY, c)]
  }

  /** Second commit of a flush: the cursor, if there is one. */
  function CursorCommitted(p: Pipe): Pipe {
    Pipe([], None, if p.pending.Some? then p.log + [CursorTxn(p.pending.value)] else p.log)
  }

  function Flushed(p: Pipe): Pipe {
    if p.buffer == [] then p else CursorCommitted(BatchCommitted(p))
  }

  function Submitted(p: Pipe, cfg: Config, ev: Event): Pipe {
    if !Accepts(cfg, ev) then p
    else
      var q := Buffered(p, cfg, ev);
      if |q.buffer| >= cfg.batchSize then Flushed(q) else q
  }

  function SubmittedAll(p: Pipe, cfg: Config, evs: seq<Event>): Pipe {
    if evs == [] then p
    else Submitted(SubmittedAll(p, cfg, evs[..|evs| - 1]), cfg, evs[|evs| - 1])
  }

  /** The watched events of a sequence, classified. */
  function Accepted(cfg: Config, evs: seq<Event>): seq<Event> {
    if evs == [] then []
    else
      Accepted(cfg, evs[..|evs| - 1])
      + (if Accepts(cfg, evs[|evs| - 1]) then [Classified(evs[|evs| - 1], cfg.errorPriority)] else [])
  }

  /** A cursor waits only together with the event that brought it; between calls the
      buffer is shorter than a batch. */
  ghost predicate Settled(p: Pipe, cfg: Config) {
    && (p.buffer == [] ==> p.pending.None?)
    && |p.buffer| < cfg.batchSize
  }

  // --- the object -----------------------------------------------------------------------

  class Pipeline {
    const db: D.Database
    const config: Config
    var buffer: seq<Event>
    var lastFlush: real
    var pendingCursor: Option<Cursor>

    ghost function State(): Pipe
      reads this, db
    {
      Pipe(buffer, pendingCursor, db.log)
    }

    ghost predicate Valid()
      reads this, db
    {
      db.Valid() && db.open == [] && config.Valid() && Settled(State(), config)
    }

    constructor (db: D.Database, config: Config, now: real)
      requires db.Valid() && db.open == [] && config.Valid()
      ensures Valid() && this.db == db && this.config == config
      ensures State() == Pipe([], None, db.log) && lastFlush == now
    {
      this.db, this.config := db, config;
      buffer, lastFlush, pendingCursor := [], now, None;
    }

    /** Classifies the event object in place and buffers it; a full buffer is flushed. */
    method Submit(ev: EventObject, now: real)
      requires Valid()
      modifies this, db, ev
      ensures Valid()
      ensures State() == Submitted(old(State()), config, old(ev.Value()))
      ensures ev.Value() == if Accepts(config, old(ev.Value()))
                            then Classified(old(ev.Value()), config.errorPriority) else old(ev.Value())
      ensures Wanted(config, old(ev.Value()).unit) ==>
                Stream(State()) == Stream(old(State())) + [Classified(old(ev.Value()), config.errorPriority)]
      ensures lastFlush == if Wanted(config, old(ev.Value()).unit) && |old(buffer)| + 1 >= config.batchSize
                           then now else old(lastFlush)
    {
      WatchedIsWanted(config, ev.raw.unit);
      SubmitMeans(State(), config, ev.Value());
      if !config.UnitIsWatched(ev.raw.unit) {
        return;
      }
      Classify.Classify(ev, config.errorPriority);
      buffer := buffer + [ev.Value()];
      if ev.raw.cursor.Some? {
        pendingCursor := ev.raw.cursor;
      }
      if |buffer| >= config.batchSize {
        FlushBuffer(now);
      }
    }

    method MaybeFlush(now: real)
      requires Valid()
      modifies this, db
      ensures Valid()
      ensures State() == if now - old(lastFlush) >= config.flushInterval then Flushed(old(State())) else old(State())
      ensures lastFlush == if old(buffer) != [] && now - old(lastFlush) >= config.flushInterval then now else old(lastFlush)
    {
      if buffer != [] && now - lastFlush >= config.flushInterval {
        Flush(now);
      }
    }

    method Flush(now: real)
      requires Valid()
      modifies this, db
      ensures Valid() && State() == Flushed(old(State())) && buffer == []
      ensures lastFlush == if old(buffer) != [] then now else old(lastFlush)
    {
      FlushBuffer(now);
    }

    /** The flush proper, also entered from Submit with a full buffer. */
    method FlushBuffer(now: real)
      requires db.Valid() && db.open == [] && config.Valid()
      requires buffer == [] ==> pendingCursor.None?
      modifies this, db
      ensures Valid() && State() == Flushed(old(State())) && buffer == []
      ensures lastFlush == if old(buffer) != [] then now else old(lastFlush)
    {
      if buffer != [] {
        WriteOut();
        lastFlush := now;
      }
    }

    /** The two commits of a flush. */
    method WriteOut()
      requires db.Valid() && db.open == [] && buffer != []
      modifies this`buffer, this`pendingCursor, db
      ensures db.Valid() && db.open == []
      ensures State() == CursorCommitted(BatchCommitted(old(State())))
    {
      CommitBatch();
      CommitCursor();
      buffer := [];
    }

    method CommitBatch()
      requires db.Valid() && db.open == [] && buffer != []
      modifies db
      ensures db.Valid() && db.open == [] && db.log == old(db.log) + [Writes(buffer)]
    {
      assert [] + Writes(buffer) == Writes(buffer);
      db.WriteBatch(buffer);
    }

    method CommitCursor()
      requires db.Valid() && db.open == []
      modifies db, this`pendingCursor
      ensures db.Valid() && db.open == [] && pendingCursor == None
      ensures db.log == if old(pendingCursor).Some? then old(db.log) + [CursorTxn(old(pendingCursor).value)]
                        else old(db.log)
    {
      if pendingCursor.Some? {
        db.SetMeta(CURSOR_KEY, pendingCursor.value);
        assert db.open == CursorTxn(pendingCursor.value);
        db.Commit();
        pendingCursor := None;
      }
    }

    /** Consumes a finite source and flushes. Afterwards everything watched has been
        written, in order, and nothing else. */
    method RunSource(source: seq<Event>, now: real) returns (n: nat)
      requires Valid()
      modifies this, db
      ensures Valid() && n == |source|
      ensures State() == Flushed(SubmittedAll(old(State()), config, source))
      ensures Written(Flatten(db.log)) == Written(Flatten(old(db.log))) + old(buffer) + Accepted(config, source)
    {
      n := 0;
      while n < |source|
        invariant n <= |source| && Valid()
        invariant State() == SubmittedAll(old(State()), config, source[..n])
      {
        var ev := new EventObject(source[n]);
        Submit(ev, now);
        n := n + 1;
        assert source[..n][..n - 1] == source[..n - 1];
      }
      assert source[..|source|] == source;
      SubmittedAllConserves(old(State()), config, source);
      FlushConserves(State());
      Flush(now);
    }
  }

  // --- nothing is lost, added or reordered by batching ------------------------------------

  /** Everything accepted so far: what is written, then what is buffered. */
  ghost function Stream(p: Pipe): seq<Event> {
    Written(Flatten(p.log)) + p.buffer
  }

  lemma WrittenBatch(log: seq<Txn>, evs: seq<Event>)
    ensures Written(Flatten(log + [Writes(evs)])) == Written(Flatten(log)) + evs
  {
    FlattenOne(log, Writes(evs));
    WrittenAppend(Flatten(log), Writes(evs));
    WrittenWrites(evs);
  }

  lemma WrittenCursor(log: seq<Txn>, c: Cursor)
    ensures Written(Flatten(log + [CursorTxn(c)])) == Written(Flatten(log))
  {
    FlattenOne(log, CursorTxn(c));
    WrittenAppend(Flatten(log), CursorTxn(c));
    assert Written(CursorTxn(c)) == [] by { assert CursorTxn(c)[..0] == []; }
  }

  lemma FlushConserves(p: Pipe)
    ensures Stream(Flushed(p)) == Stream(p)
    ensures Flushed(p).buffer == []
    ensures Written(Flatten(Flushed(p).log)) == Stream(p)
  {
    if p.buffer != [] {
      WrittenBatch(p.log, p.buffer);
      if p.pending.Some? { WrittenCursor(p.log + [Writes(p.buffer)], p.pending.value); }
    }
  }

  lemma BufferedStream(p: Pipe, cfg: Config, ev: Event)
    ensures Stream(Buffered(p, cfg, ev)) == Stream(p) + [Classified(ev, cfg.errorPriority)]
  {
  }

  lemma AcceptedOne(cfg: Config, ev: Event)
    ensures Accepted(cfg, [ev]) == if Accepts(cfg, ev) then [Classified(ev, cfg.errorPriority)] else []
  {
    assert Accepted(cfg, [ev][..0]) == [];
  }

  lemma SubmitConserves(p: Pipe, cfg: Config, ev: Event)
    requires cfg.Valid() && Settled(p, cfg)
    ensures Settled(Submitted(p, cfg, ev), cfg)
    ensures Stream(Submitted(p, cfg, ev)) == Stream(p) + Accepted(cfg, [ev])
  {
    AcceptedOne(cfg, ev);
    if Accepts(cfg, ev) {
      BufferedStream(p, cfg, ev);
      FlushConserves(Buffered(p, cfg, ev));
    }
  }

  /** One submission: nothing happens for a unit that is not wanted; a buffer that is not
      full waits; a full one is written with the event, and the event's cursor persisted. */
  lemma SubmitMeans(p: Pipe, cfg: Config, ev: Event)
    requires cfg.Valid() && Settled(p, cfg)
    ensures var q, c := Submitted(p, cfg, ev), Classified(ev, cfg.errorPriority);
            && (!Wanted(cfg, ev.unit) ==> q == p)
            && (Wanted(cfg, ev.unit) ==> Stream(q) == Stream(p) + [c])
            && (Wanted(cfg, ev.unit) && |p.buffer| + 1 < cfg.batchSize ==> q.log == p.log && q.buffer == p.buffer + [c])
            && (Wanted(cfg, ev.unit) && |p.buffer| + 1 >= cfg.batchSize ==>
                  && Written(Flatten(q.log)) == Stream(p) + [c] && q.buffer == [] && q.pending == None
                  && (ev.cursor.Some? ==> q.log[|q.log| - 1] == [SetMeta("journal_cursor", ev.cursor.value)]))
  {
    WatchedIsWanted(cfg, ev.unit);
    CursorKept(ev, cfg.errorPriority);
    hide Classified, Flatten, Written, Wanted, Config.UnitIsWatched, Accepted;
    SubmitConserves(p, cfg, ev);
    AcceptedOne(cfg, ev);
    FlushConserves(Buffered(p, cfg, ev));
  }

  lemma CursorKept(ev: Event, errorPriority: int)
    ensures Classified(ev, errorPriority).cursor == ev.cursor
  {
  }

  lemma {:induction false} AcceptedAppend(cfg: Config, a: seq<Event>, b: seq<Event>)
    ensures Accepted(cfg, a + b) == Accepted(cfg, a) + Accepted(cfg, b)
    decreases |b|
  {
    if b == [] {
      assert a + b == a;
    } else {
      assert (a + b)[..|a + b| - 1] == a + b[..|b| - 1];
      AcceptedAppend(cfg, a, b[..|b| - 1]);
    }
  }

  lemma {:induction false} SubmittedAllConserves(p: Pipe, cfg: Config, evs: seq<Event>)
    requires cfg.Valid() && Settled(p, cfg)
    ensures Settled(SubmittedAll(p, cfg, evs), cfg)
    ensures Stream(SubmittedAll(p, cfg, evs)) == Stream(p) + Accepted(cfg, evs)
    decreases |evs|
  {
    if evs != [] {
      var n := |evs| - 1;
      SubmittedAllConserves(p, cfg, evs[..n]);
      SubmitConserves(SubmittedAll(p, cfg, evs[..n]), cfg, evs[n]);
      AcceptedAppend(cfg, evs[..n], [evs[n]]);
      assert evs == evs[..n] + [evs[n]];
    }
  }

  // --- batching is invisible ----------------------------------------------------------------

  /** A call on the pipeline: a submission, or a timed flush. */
  datatype Call = Submit(ev: Event) | TimedFlush

  function Called(p: Pipe, cfg: Config, call: Call): Pipe {
    match call
    case Submit(ev) => Submitted(p, cfg, ev)
    case TimedFlush => Flushed(p)
  }

  function CalledAll(p: Pipe, cfg: Config, calls: seq<Call>): Pipe {
    if calls == [] then p
    else Called(CalledAll(p, cfg, calls[..|calls| - 1]), cfg, calls[|calls| - 1])
  }

  function Submissions(calls: seq<Call>): seq<Event> {
    if calls == [] then []
    else
      Submissions(calls[..|calls| - 1])
      + (if calls[|calls| - 1].Submit? then [calls[|calls| - 1].ev] else [])
  }

  /** Statements that only insert events and move the cursor. */
  ghost predicate OnlyWrites(ops: seq<Op>) {
    forall op :: op in ops ==> op.Write? || op.SetMeta?
  }

  /** `later` continues the commit log `log` by inserts and cursor moves. */
  ghost predicate Extends(later: seq<Txn>, log: seq<Txn>) {
    exists more: seq<Txn> :: later == log + more && OnlyWrites(Flatten(more))
  }

  lemma ExtendsBy(log: seq<Txn>, later: seq<Txn>, more: seq<Txn>)
    requires Extends(later, log) && OnlyWrites(Flatten(more))
    ensures Extends(later + more, log)
  {
    hide Flatten;
    var m: seq<Txn> :| later == log + m && OnlyWrites(Flatten(m));
    FlattenAppend(m, more);
    assert later + more == log + (m + more);
    assert OnlyWrites(Flatten(m + more));
  }

  lemma FlushExtends(log: seq<Txn>, q: Pipe)
    requires Extends(q.log, log)
    ensures Extends(Flushed(q).log, log)
  {
    if q.buffer != [] {
      FlattenOne([], Writes(q.buffer));
      assert [] + [Writes(q.buffer)] == [Writes(q.buffer)];
      ExtendsBy(log, q.log, [Writes(q.buffer)]);
      if q.pending.Some? {
        var c := CursorTxn(q.pending.value);
        FlattenOne([], c);
        assert [] + [c] == [c];
        ExtendsBy(log, q.log + [Writes(q.buffer)], [c]);
      }
    }
  }

  lemma {:induction false} CallsExtend(p: Pipe, cfg: Config, calls: seq<Call>)
    ensures Extends(CalledAll(p, cfg, calls).log, p.log)
    decreases |calls|
  {
    if calls == [] {
      assert p.log + [] == p.log;
      assert OnlyWrites(Flatten([]));
    } else {
      var n := |calls| - 1;
      var q := CalledAll(p, cfg, calls[..n]);
      CallsExtend(p, cfg, calls[..n]);
      match calls[n]
      case Submit(ev) => FlushExtends(p.log, Buffered(q, cfg, ev));
      case TimedFlush => FlushExtends(p.log, q);
    }
  }

  /** Between calls, what is written and what is buffered are together exactly the
      watched submissions, classified, in order; and the buffer is shorter than a batch. */
  lemma {:induction false} CallsConserve(p: Pipe, cfg: Config, calls: seq<Call>)
    requires cfg.Valid() && Settled(p, cfg)
    ensures Settled(CalledAll(p, cfg, calls), cfg)
    ensures Stream(CalledAll(p, cfg, calls)) == Stream(p) + Accepted(cfg, Submissions(calls))
    decreases |calls|
  {
    if calls != [] {
      var n := |calls| - 1;
      CallsConserve(p, cfg, calls[..n]);
      var q := CalledAll(p, cfg, calls[..n]);
      match calls[n]
      case Submit(ev) =>
        SubmitConserves(q, cfg, ev);
        AcceptedAppend(cfg, Submissions(calls[..n]), [ev]);
        assert Stream(p) + Accepted(cfg, Submissions(calls[..n])) + Accepted(cfg, [ev])
            == Stream(p) + (Accepted(cfg, Submissions(calls[..n])) + Accepted(cfg, [ev]));
      case TimedFlush =>
        FlushConserves(q);
        assert Submissions(calls) == Submissions(calls[..n]);
    }
  }

  /** Events, incidents and statuses, leaving out the persisted cursor. */
  ghost predicate SameTables(a: Db, b: Db) {
    a.events == b.events && a.nextId == b.nextId && a.incidents == b.incidents && a.services == b.services
  }

  lemma {:induction false} CursorsDoNotMatter(db: Db, ops: seq<Op>)
    requires OnlyWrites(ops)
    ensures SameTables(ApplyAll(db, ops), ApplyAll(db, Writes(Written(ops))))
    decreases |ops|
  {
    if ops == [] {
      assert Writes(Written(ops)) == [];
    } else {
      var rest, op := ops[..|ops| - 1], ops[|ops| - 1];
      assert op in ops;
      CursorsDoNotMatter(db, rest);
      var w := Writes(Written(ops));
      if op.Write? {
        assert Written(ops) == Written(rest) + [op.ev];
        assert w[..|w| - 1] == Writes(Written(rest)) && w[|w| - 1] == op;
      } else {
        assert Written(ops) == Written(rest) + [];
        assert w == Writes(Written(rest));
      }
    }
  }

  /** However the calls are batched and whenever timed flushes happen, a final flush
      leaves the tables as if each watched event had been written on its own, in the
      order of submission. */
  lemma BatchingIsInvisible(log: seq<Txn>, cfg: Config, calls: seq<Call>)
    requires cfg.Valid()
    ensures var q := Flushed(CalledAll(Pipe([], None, log), cfg, calls));
            SameTables(Replay(Flatten(q.log)),
                       ApplyAll(Replay(Flatten(log)), Writes(Accepted(cfg, Submissions(calls)))))
  {
    var p := Pipe([], None, log);
    CallsConserve(p, cfg, calls);
    CallsExtend(p, cfg, calls);
    assert Stream(p) == Written(Flatten(log));
    FlushedTables(log, CalledAll(p, cfg, calls), Accepted(cfg, Submissions(calls)));
  }

  lemma FlushedTables(log: seq<Txn>, c: Pipe, evs: seq<Event>)
    requires Extends(c.log, log)
    requires Stream(c) == Written(Flatten(log)) + evs
    ensures SameTables(Replay(Flatten(Flushed(c).log)), ApplyAll(Replay(Flatten(log)), Writes(evs)))
  {
    FlushExtends(log, c);
    FlushConserves(c);
    ExtensionWrites(log, Flushed(c).log, evs);
  }

  lemma ExtensionWrites(log: seq<Txn>, later: seq<Txn>, evs: seq<Event>)
    requires Extends(later, log)
    requires Written(Flatten(later)) == Written(Flatten(log)) + evs
    ensures SameTables(Replay(Flatten(later)), ApplyAll(Replay(Flatten(log)), Writes(evs)))
  {
    var more: seq<Txn> :| later == log + more && OnlyWrites(Flatten(more));
    FlattenAppend(log, more);
    WrittenAppend(Flatten(log), Flatten(more));
    Text.PrefixUnique(Written(Flatten(log)), Written(Flatten(more)), evs);
    ReplayAppend(Flatten(log), Flatten(more));
    CursorsDoNotMatter(Replay(Flatten(log)), Flatten(more));
  }
}

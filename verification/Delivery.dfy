/** What every run of the collector guarantees: no gap, faithful contents, and copies
    beyond the first only from crashes between the two commits of a flush. */
module Delivery {
  import opened Model
  import opened Tables
  import opened Pipeline
  import opened Journal
  import opened Protocol
  import opened Classify
  import opened EventsTable

  // --- runs -----------------------------------------------------------------------------

  /** The steps can be taken one after the other from `s`. */
  ghost predicate CanRun(env: Env, s: Sys, steps: seq<Step>)
    decreases |steps|
  {
    steps != [] ==> Enabled(env, s, steps[0]) && CanRun(env, Do(env, s, steps[0]), steps[1..])
  }

  ghost function After(env: Env, s: Sys, steps: seq<Step>): Sys
    requires CanRun(env, s, steps)
    decreases |steps|
  {
    if steps == [] then s else After(env, Do(env, s, steps[0]), steps[1..])
  }

  // --- faithful contents --------------------------------------------------------------------

  ghost predicate FaithfulSys(env: Env, s: Sys) {
    Faithful(env, Stream(s.pipe))
  }

  lemma TakeFaithful(env: Env, s: Sys, ev: Event)
    requires FaithfulSys(env, s)
    requires ev.cursor.Some? ==> ev.cursor.value < |env.journal| && ev == env.Raw(ev.cursor.value)
    ensures FaithfulSys(env, Take(env, s, ev))
  {
    ClassifiedKeeps(ev, env.cfg.errorPriority);
    BufferedStream(s.pipe, env.cfg, ev);
  }

  lemma FaithfulPart(env: Env, a: seq<Event>, b: seq<Event>)
    requires Faithful(env, b) && forall e :: e in a ==> e in b
    ensures Faithful(env, a)
  {
  }

  lemma WrittenPrefix(log: seq<Txn>, n: nat)
    requires n <= |log|
    ensures forall e :: e in Written(Flatten(log[..n])) ==> e in Written(Flatten(log))
  {
    var a, b := log[..n], log[n..];
    assert log == a + b;
    FlattenAppend(a, b);
    WrittenAppend(Flatten(a), Flatten(b));
  }

  lemma PrefixFaithful(env: Env, log: seq<Txn>, n: nat)
    requires n <= |log| && Faithful(env, Written(Flatten(log)))
    ensures Faithful(env, Written(Flatten(log[..n])))
  {
    WrittenPrefix(log, n);
    FaithfulPart(env, Written(Flatten(log[..n])), Written(Flatten(log)));
  }

  lemma FlushStepsFaithful(env: Env, p: Pipe)
    requires Faithful(env, Stream(p))
    ensures Faithful(env, Stream(BatchCommitted(p))) && Faithful(env, Stream(CursorCommitted(p)))
  {
    WrittenBatch(p.log, p.buffer);
    FaithfulPart(env, Stream(BatchCommitted(p)), Stream(p));
    if p.pending.Some? { WrittenCursor(p.log, p.pending.value); }
    FaithfulPart(env, Stream(CursorCommitted(p)), Stream(p));
  }

  lemma NeutralStream(p: Pipe, t: Txn)
    requires Neutral(t)
    ensures Stream(p.(log := p.log + [t])) == Stream(p)
  {
    FlattenOne(p.log, t);
    WrittenAppend(Flatten(p.log), t);
    NeutralWritesNothing(t);
  }

  lemma CrashFaithful(env: Env, s: Sys, kept: nat)
    requires FaithfulSys(env, s) && kept <= |s.pipe.log|
    ensures Faithful(env, Stream(Pipe([], None, s.pipe.log[..kept])))
  {
    FaithfulPart(env, Written(Flatten(s.pipe.log)), Stream(s.pipe));
    PrefixFaithful(env, s.pipe.log, kept);
    assert Stream(Pipe([], None, s.pipe.log[..kept])) == Written(Flatten(s.pipe.log[..kept]));
  }

  lemma StepFaithful(env: Env, s: Sys, step: Step)
    requires env.Valid() && Inv(env, s) && Enabled(env, s, step) && FaithfulSys(env, s)
    ensures FaithfulSys(env, Do(env, s, step))
  {
    match step
    case Dequeue =>
      RestOfQueue(env, s);
      TakeFaithful(env, s.(queue := s.queue[1..]), s.queue[0]);
    case Inject(ev) => TakeFaithful(env, s, ev);
    case CommitBatch => FlushStepsFaithful(env, s.pipe);
    case CommitCursor => FlushStepsFaithful(env, s.pipe);
    case Maintain(t) => NeutralStream(s.pipe, t);
    case Crash(kept) => CrashFaithful(env, s, kept);
    case _ =>
  }

  // --- the number of copies --------------------------------------------------------------------

  /** Crashes that kept a batch with entry `i` but no cursor commit behind it. */
  ghost function TornCrashes(crashes: seq<seq<Txn>>, i: nat): nat {
    if crashes == [] then 0
    else TornCrashes(crashes[..|crashes| - 1], i) + (if Unfollowed(crashes[|crashes| - 1], i) then 1 else 0)
  }

  /** At most one copy more than `torn`, and no more than `torn` while the entry is still
      to be read and its last batch is not the end of the log. */
  ghost predicate LogBound(env: Env, log: seq<Txn>, torn: nat, i: nat) {
    && Copies(log, i) <= 1 + torn
    && (i > Persisted(env.start, log) && !Unfollowed(log, i) ==> Copies(log, i) <= torn)
  }

  ghost predicate PrefixBound(env: Env, log: seq<Txn>, torn: nat, i: nat) {
    forall n :: 0 <= n <= |log| ==> LogBound(env, log[..n], torn, i)
  }

  /** Copies of an entry that is still to be read. */
  ghost predicate LiveBound(env: Env, s: Sys, torn: nat, i: nat) {
    i > Persisted(env.start, s.pipe.log) ==>
      Copies(s.pipe.log, i)
      <= torn + if s.phase == HalfFlushed && i in Indices(s.pipe.buffer) then 1 else 0
  }

  ghost predicate Bounded(env: Env, s: Sys, i: nat) {
    var torn := TornCrashes(s.crashes, i);
    PrefixBound(env, s.pipe.log, torn, i) && LiveBound(env, s, torn, i)
  }

  lemma ExtendBound(env: Env, log: seq<Txn>, t: Txn, torn: nat, i: nat)
    requires PrefixBound(env, log, torn, i) && LogBound(env, log + [t], torn, i)
    ensures PrefixBound(env, log + [t], torn, i)
  {
    var after := log + [t];
    forall n | 0 <= n <= |after| ensures LogBound(env, after[..n], torn, i) {
      if n <= |log| {
        assert after[..n] == log[..n];
      } else {
        assert after[..n] == after;
      }
    }
  }

  lemma WholeBound(env: Env, log: seq<Txn>, torn: nat, i: nat)
    requires PrefixBound(env, log, torn, i)
    ensures LogBound(env, log, torn, i)
  {
    assert log[..|log|] == log;
  }

  lemma DataBound(env: Env, log: seq<Txn>, t: Txn, torn: nat, i: nat)
    requires TxnOk(env, log, t) && !IsCursorTxn(t) && LogBound(env, log, torn, i)
    requires i > Persisted(env.start, log) ==> Copies(log, i) <= torn
    ensures LogBound(env, log + [t], torn, i)
    ensures i > Persisted(env.start, log) ==>
              Copies(log + [t], i) <= torn + if i in EntriesOf(t) then 1 else 0
  {
    CopiesStep(log, t, i);
    DataCount(env, log, t, i);
    LogStep(env, log, t);
    UnfollowedStep(log, t, i);
  }

  lemma CursorBound(env: Env, log: seq<Txn>, t: Txn, torn: nat, i: nat)
    requires IsCursorTxn(t) && LogBound(env, log, torn, i)
    requires i > t[0].value ==> Copies(log, i) <= torn
    ensures LogBound(env, log + [t], torn, i)
    ensures Copies(log + [t], i) == Copies(log, i)
  {
    CursorCopies(log, t, i);
    LogStep(env, log, t);
  }

  lemma CommitBatchBounded(env: Env, s: Sys, i: nat)
    requires env.Valid() && Inv(env, s) && Enabled(env, s, CommitBatch) && Bounded(env, s, i)
    ensures Bounded(env, Do(env, s, CommitBatch), i)
  {
    var p, torn := s.pipe, TornCrashes(s.crashes, i);
    var t := Writes(p.buffer);
    WritesMoveNoCursor(p.buffer);
    assert DataTxn(env, p.log, t, Head(s));
    WholeBound(env, p.log, torn, i);
    DataBound(env, p.log, t, torn, i);
    ExtendBound(env, p.log, t, torn, i);
    LogStep(env, p.log, t);
  }

  /** Behind the last entry of the buffer nothing has just been written. */
  lemma BehindBuffer(env: Env, s: Sys, c: Cursor, torn: nat, i: nat)
    requires 0 <= Head(s) <= |env.journal| && BufferOk(env, s) && LiveBound(env, s, torn, i)
    requires s.pipe.pending == Some(c) && i > c
    ensures Copies(s.pipe.log, i) <= torn
  {
    var lo := Persisted(env.start, s.pipe.log) + 1;
    RangeLast(env, lo, Head(s));
    RangeCount(env, lo, c + 1, i);
  }

  lemma CommitCursorBounded(env: Env, s: Sys, i: nat)
    requires env.Valid() && Inv(env, s) && Enabled(env, s, CommitCursor) && Bounded(env, s, i)
    ensures Bounded(env, Do(env, s, CommitCursor), i)
  {
    var p, torn := s.pipe, TornCrashes(s.crashes, i);
    if p.pending.Some? {
      var t := CursorTxn(p.pending.value);
      if i > p.pending.value { BehindBuffer(env, s, p.pending.value, torn, i); }
      WholeBound(env, p.log, torn, i);
      CursorBound(env, p.log, t, torn, i);
      ExtendBound(env, p.log, t, torn, i);
      LogStep(env, p.log, t);
      assert Do(env, s, CommitCursor).pipe == Pipe([], None, p.log + [t]);
    } else {
      assert Indices(p.buffer) == [];
    }
  }

  lemma MaintainBounded(env: Env, s: Sys, t: Txn, i: nat)
    requires env.Valid() && Inv(env, s) && Enabled(env, s, Maintain(t)) && Bounded(env, s, i)
    ensures Bounded(env, Do(env, s, Maintain(t)), i)
  {
    var p, torn := s.pipe, TornCrashes(s.crashes, i);
    WholeBound(env, p.log, torn, i);
    NeutralOk(env, p.log, t);
    LogStep(env, p.log, t);
    DataBound(env, p.log, t, torn, i);
    ExtendBound(env, p.log, t, torn, i);
  }

  lemma CrashBounded(env: Env, s: Sys, kept: nat, i: nat)
    requires Enabled(env, s, Step.Crash(kept)) && Bounded(env, s, i)
    ensures Bounded(env, Do(env, s, Step.Crash(kept)), i)
  {
    var log := s.pipe.log[..kept];
    var crashes := s.crashes + [log];
    assert crashes[..|s.crashes|] == s.crashes;
    var torn := TornCrashes(s.crashes, i);
    assert LogBound(env, log, torn, i);
    forall n | 0 <= n <= |log| ensures LogBound(env, log[..n], TornCrashes(crashes, i), i) {
      assert log[..n] == s.pipe.log[..n];
      assert LogBound(env, s.pipe.log[..n], torn, i);
    }
  }

  lemma StepBounded(env: Env, s: Sys, step: Step, i: nat)
    requires env.Valid() && Inv(env, s) && Enabled(env, s, step) && Bounded(env, s, i)
    ensures Bounded(env, Do(env, s, step), i)
  {
    match step
    case CommitBatch => CommitBatchBounded(env, s, i);
    case CommitCursor => CommitCursorBounded(env, s, i);
    case Maintain(t) => MaintainBounded(env, s, t, i);
    case Crash(kept) => CrashBounded(env, s, kept, i);
    case _ =>
  }

  // --- the guarantees over whole runs -------------------------------------------------------------

  ghost predicate CrashLogsOk(env: Env, s: Sys) {
    forall log :: log in s.crashes ==> LogOk(env, log)
  }

  lemma StepCrashLogs(env: Env, s: Sys, step: Step)
    requires Inv(env, s) && Enabled(env, s, step) && CrashLogsOk(env, s)
    ensures CrashLogsOk(env, Do(env, s, step))
  {
    if step.Crash? { LogOkPrefix(env, s.pipe.log, step.kept); }
  }

  lemma {:induction false} RunKeeps(env: Env, s: Sys, steps: seq<Step>, i: nat)
    requires env.Valid() && CanRun(env, s, steps)
    requires Inv(env, s) && Cold(s) && FaithfulSys(env, s) && CrashLogsOk(env, s) && Bounded(env, s, i)
    ensures var t := After(env, s, steps);
            Inv(env, t) && FaithfulSys(env, t) && CrashLogsOk(env, t) && Bounded(env, t, i)
    decreases |steps|
  {
    if steps != [] {
      StepInv(env, s, steps[0]);
      StepFaithful(env, s, steps[0]);
      StepCrashLogs(env, s, steps[0]);
      StepBounded(env, s, steps[0], i);
      RunKeeps(env, Do(env, s, steps[0]), steps[1..], i);
    }
  }

  lemma FromInit(env: Env, s: Sys, steps: seq<Step>, i: nat)
    requires env.Valid() && Init(env, s) && CanRun(env, s, steps)
    ensures var t := After(env, s, steps);
            Inv(env, t) && FaithfulSys(env, t) && CrashLogsOk(env, t) && Bounded(env, t, i)
  {
    InitInv(env, s);
    assert s.pipe.log == [] && Flatten(s.pipe.log) == [];
    assert Copies([], i) == 0;
    RunKeeps(env, s, steps, i);
  }

  /** No gap, in any run: in every state and for every prefix of the commit log (the part
      that a power loss may leave), each watched entry from the start to the persisted
      cursor has been written, classified and otherwise unaltered. */
  lemma NoGapEver(env: Env, s: Sys, steps: seq<Step>, n: nat, i: nat)
    requires env.Valid() && Init(env, s) && CanRun(env, s, steps)
    requires n <= |After(env, s, steps).pipe.log|
    ensures var log := After(env, s, steps).pipe.log[..n];
            Covered(env, log, i) ==> Write(env.Entry(i)) in Flatten(log)
  {
    FromInit(env, s, steps, i);
    var all := After(env, s, steps).pipe.log;
    LogOkPrefix(env, all, n);
    WrittenFaithful(env, After(env, s, steps));
    PrefixFaithful(env, all, n);
    if Covered(env, all[..n], i) { NoGap(env, all[..n], i); }
  }

  /** Which entries are delivered, in any run and for every prefix of the log: between the
      start and the persisted cursor, the entries without a unit and those whose unit no
      exclude pattern covers and the watch list, unless empty, does cover; no others. */
  lemma DeliveredIff(env: Env, s: Sys, steps: seq<Step>, n: nat, i: nat)
    requires env.Valid() && Init(env, s) && CanRun(env, s, steps)
    requires n <= |After(env, s, steps).pipe.log|
    ensures var log := After(env, s, steps).pipe.log[..n];
            env.start < i <= Persisted(env.start, log) ==>
              && i < |env.journal|
              && (Write(env.Entry(i)) in Flatten(log) <==> Wanted(env.cfg, env.journal[i].unit))
  {
    hide CanRun, After, Inv, FaithfulSys, Bounded, Wanted;
    FromInit(env, s, steps, i);
    var all := After(env, s, steps).pipe.log;
    OkLog(env, After(env, s, steps));
    LogOkPrefix(env, all, n);
    PersistedInRange(env, all[..n]);
    if env.start < i <= Persisted(env.start, all[..n]) {
      WatchedIsWanted(env.cfg, env.journal[i].unit);
      if env.Watched(i) {
        NoGapEver(env, s, steps, n, i);
      } else {
        UnwatchedNotThere(env, all[..n], i);
      }
    }
  }

  lemma OkLog(env: Env, s: Sys)
    requires Inv(env, s)
    ensures LogOk(env, s.pipe.log)
  {
  }

  lemma UnwatchedNotThere(env: Env, log: seq<Txn>, i: nat)
    requires env.Valid() && LogOk(env, log) && i < |env.journal| && !env.Watched(i)
    ensures Write(env.Entry(i)) !in Flatten(log)
  {
    hide LogOk, Env.Entry;
    UnwatchedNeverWritten(env, log, i);
    var e := env.Entry(i);
    if Write(e) in Flatten(log) {
      EntryCursor(env, i);
      WriteIsWritten(Flatten(log), e);
      CountsThere(Written(Flatten(log)), e, i);
    }
  }

  lemma EntryCursor(env: Env, i: nat)
    requires i < |env.journal|
    ensures env.Entry(i).cursor == Some(i)
  {
    ClassifiedKeeps(env.Raw(i), env.cfg.errorPriority);
  }

  lemma {:induction false} WriteIsWritten(ops: seq<Op>, e: Event)
    requires Write(e) in ops
    ensures e in Written(ops)
    decreases |ops|
  {
    var n := |ops| - 1;
    if ops[n] != Write(e) {
      assert ops == ops[..n] + [ops[n]];
      WriteIsWritten(ops[..n], e);
    }
  }

  lemma {:induction false} CountsThere(evs: seq<Event>, e: Event, i: nat)
    requires e in evs && e.cursor == Some(i)
    ensures Count(Indices(evs), i) > 0
    decreases |evs|
  {
    var n := |evs| - 1;
    assert evs == evs[..n] + [evs[n]];
    var last := if evs[n].cursor.Some? then [evs[n].cursor.value] else [];
    CountAppend(Indices(evs[..n]), last, i);
    if evs[n] == e {
      CountOne(i, i);
    } else {
      CountsThere(evs[..n], e, i);
    }
  }

  /** The table behind it: such an entry has a row, and that row is in the events table of
      the replayed log unless a later statement of retention removed it. */
  lemma StoredEver(env: Env, s: Sys, steps: seq<Step>, n: nat, i: nat) returns (k: nat)
    requires env.Valid() && Init(env, s) && CanRun(env, s, steps)
    requires n <= |After(env, s, steps).pipe.log|
    requires env.start < i <= Persisted(env.start, After(env, s, steps).pipe.log[..n]) && i < |env.journal|
    requires Wanted(env.cfg, env.journal[i].unit)
    ensures var h := Flatten(After(env, s, steps).pipe.log[..n]);
            && k < |Written(h)| && Written(h)[k] == env.Entry(i)
            && (Row(k + 1, env.Entry(i)) in Replay(h).events <==> NothingRemoves(h, k))
            && ((forall op :: op in h ==> !op.DropEvents? && !op.DropOldest?) ==> NothingRemoves(h, k))
  {
    hide CanRun, After, Inv, FaithfulSys, Bounded, Wanted, Replay, NothingRemoves, Removes;
    DeliveredIff(env, s, steps, n, i);
    var h := Flatten(After(env, s, steps).pipe.log[..n]);
    WriteIsWritten(h, env.Entry(i));
    k :| k < |Written(h)| && Written(h)[k] == env.Entry(i);
    StoredIff(h, k);
    if forall op :: op in h ==> !op.DropEvents? && !op.DropOldest? {
      AllWrittenIsStored(h);
      assert Replay(h).events[k] == Row(k + 1, env.Entry(i));
    }
  }

  lemma WrittenFaithful(env: Env, s: Sys)
    requires FaithfulSys(env, s)
    ensures Faithful(env, Written(Flatten(s.pipe.log)))
  {
    assert forall e :: e in Written(Flatten(s.pipe.log)) ==> e in Stream(s.pipe);
  }

  /** Nothing that was taken off the queue is lost by a clean stop: whenever no cursor is
      waiting (after a flush in particular) every watched entry before the head of the
      queue is covered by the persisted cursor. */
  lemma FlushedMeansCovered(env: Env, s: Sys, steps: seq<Step>, i: nat)
    requires env.Valid() && Init(env, s) && CanRun(env, s, steps)
    ensures var t := After(env, s, steps);
            t.phase != Down && t.pipe.pending.None? && env.start < i < Head(t) && i < |env.journal| && env.Watched(i)
            ==> Covered(env, t.pipe.log, i)
  {
    hide CanRun, After, LogOk, Persisted, FaithfulSys, Bounded, Indices;
    FromInit(env, s, steps, i);
    var t := After(env, s, steps);
    if t.phase != Down && t.pipe.pending.None? {
      RangeCount(env, Persisted(env.start, t.pipe.log) + 1, Head(t), i);
    }
  }

  /** Bounded duplication, in any run: an entry is written at most once, plus once for
      every crash that kept a batch with it but not the cursor commit behind that batch.
      An unwatched entry is never written. */
  lemma CopiesBounded(env: Env, s: Sys, steps: seq<Step>, n: nat, i: nat)
    requires env.Valid() && Init(env, s) && CanRun(env, s, steps)
    requires n <= |After(env, s, steps).pipe.log|
    ensures var t := After(env, s, steps);
            Copies(t.pipe.log[..n], i) <= 1 + TornCrashes(t.crashes, i)
    ensures var log := After(env, s, steps).pipe.log[..n];
            i < |env.journal| && !env.Watched(i) ==> Copies(log, i) == 0
  {
    FromInit(env, s, steps, i);
    var log := After(env, s, steps).pipe.log;
    LogOkPrefix(env, log, n);
    if i < |env.journal| && !env.Watched(i) { UnwatchedNeverWritten(env, log[..n], i); }
  }

  /** Exactly once, in any run: an entry covered by the persisted cursor has one copy if
      and only if no batch of the log that wrote it lacks its cursor commit; in general
      the torn batches are exactly the extra copies. */
  lemma ExactCopies(env: Env, s: Sys, steps: seq<Step>, n: nat, i: nat)
    requires env.Valid() && Init(env, s) && CanRun(env, s, steps)
    requires n <= |After(env, s, steps).pipe.log|
    ensures var log := After(env, s, steps).pipe.log[..n];
            && Copies(log, i) == (if Covered(env, log, i) then 1 else 0) + Torn(log, i)
            && (Covered(env, log, i) ==>
                  (Copies(log, i) == 1 <==> forall t :: 0 <= t < |log| ==> !TornAt(log, t, i)))
  {
    hide CanRun, After, Persisted, Covered, Copies, Torn, FaithfulSys, Bounded, CrashLogsOk, ReaderOk, BufferOk;
    FromInit(env, s, steps, i);
    var log := After(env, s, steps).pipe.log;
    LogOkPrefix(env, log, n);
    CopiesConserved(env, log[..n], i);
    if Covered(env, log[..n], i) { ExactlyOnceIff(env, log[..n], i); }
  }

  /** What a restart repeats, in any run: at every prefix of the log, so behind every crash,
      the entries that are written and will be read again are those of one flushed buffer,
      the watched ones from the persisted cursor up to some point, at most a batch. */
  lemma RestartRepeatsOneBatch(env: Env, s: Sys, steps: seq<Step>, n: nat) returns (hi: nat)
    requires env.Valid() && Init(env, s) && CanRun(env, s, steps)
    requires n <= |After(env, s, steps).pipe.log|
    ensures RereadUpTo(env, After(env, s, steps).pipe.log[..n], hi)
  {
    hide CanRun, After, LogOk, FaithfulSys, Bounded, RereadUpTo, ReaderOk, BufferOk;
    FromInit(env, s, steps, 0);
    var log := After(env, s, steps).pipe.log;
    LogOkPrefix(env, log, n);
    hi := OneBatchReread(env, log[..n]);
  }

  /** Attribution to a crash: the entries written in what survived it but not followed by a
      cursor commit are those of one flushed buffer. */
  lemma CrashRepeatsOneBatch(env: Env, s: Sys, steps: seq<Step>, k: nat) returns (hi: nat)
    requires env.Valid() && Init(env, s) && CanRun(env, s, steps)
    requires k < |After(env, s, steps).crashes|
    ensures RereadUpTo(env, After(env, s, steps).crashes[k], hi)
    ensures exists h: nat :: UnfollowedUpTo(env, After(env, s, steps).crashes[k], h)
  {
    hide CanRun, After, LogOk, Inv, FaithfulSys, Bounded, UnfollowedUpTo, RereadUpTo;
    FromInit(env, s, steps, 0);
    hi := OneBatchReread(env, After(env, s, steps).crashes[k]);
    var h := OneBatchUnfollowed(env, After(env, s, steps).crashes[k]);
  }

  // --- duplication does happen ---------------------------------------------------------------------

  /** Reads, submits and commits one entry, but not its cursor. */
  const HALF_A_ROUND: seq<Step> := [Fetch, Enqueue, Dequeue, CommitBatch]

  /** The same entry is read again after a crash between the two commits. */
  const TORN_RUN: seq<Step> := HALF_A_ROUND + ([Step.Crash(1), Restart] + (HALF_A_ROUND + [CommitCursor]))

  lemma {:induction false} RunAppend(env: Env, s: Sys, a: seq<Step>, b: seq<Step>)
    requires CanRun(env, s, a) && CanRun(env, After(env, s, a), b)
    ensures CanRun(env, s, a + b) && After(env, s, a + b) == After(env, After(env, s, a), b)
    decreases |a|
  {
    if a == [] {
      assert a + b == b;
    } else {
      assert (a + b)[1..] == a[1..] + b;
      RunAppend(env, Do(env, s, a[0]), a[1..], b);
    }
  }

  lemma RunOne(env: Env, s: Sys, step: Step)
    requires Enabled(env, s, step)
    ensures CanRun(env, s, [step]) && After(env, s, [step]) == Do(env, s, step)
  {
    assert [step][1..] == [];
  }

  lemma RunTwo(env: Env, s: Sys, a: Step, b: Step)
    requires Enabled(env, s, a) && Enabled(env, Do(env, s, a), b)
    ensures CanRun(env, s, [a, b]) && After(env, s, [a, b]) == Do(env, Do(env, s, a), b)
  {
    RunOne(env, Do(env, s, a), b);
    assert [a, b][1..] == [b];
  }

  /** Nothing is under way. */
  ghost predicate Quiet(s: Sys) {
    s.phase == Idle && !s.fetched && s.queue == [] && s.pipe.buffer == [] && s.pipe.pending == None
  }

  lemma HalfRound(env: Env, s: Sys)
    requires env.Valid() && Quiet(s) && s.next < s.appended <= |env.journal| && env.Watched(s.next)
    ensures CanRun(env, s, HALF_A_ROUND)
    ensures var t := After(env, s, HALF_A_ROUND);
            t == s.(next := s.next + 1, phase := HalfFlushed,
                    pipe := Pipe([env.Entry(s.next)], Some(s.next), s.pipe.log + [Writes([env.Entry(s.next)])]))
  {
    hide CanRun, After, Classified, Writes, Head;
    var a := Do(env, s, Fetch);
    var b := Do(env, a, Enqueue);
    RunTwo(env, s, Fetch, Enqueue);
    assert b == s.(queue := [env.Raw(s.next)], next := s.next + 1);
    var c := Do(env, b, Dequeue);
    TakeRaw(env, s, s.next);
    assert b.queue[1..] == [];
    RunTwo(env, b, Dequeue, CommitBatch);
    RunAppend(env, s, [Fetch, Enqueue], [Dequeue, CommitBatch]);
    assert HALF_A_ROUND == [Fetch, Enqueue] + [Dequeue, CommitBatch];
  }

  lemma TakeRaw(env: Env, s: Sys, i: nat)
    requires i < |env.journal| && env.Watched(i) && Quiet(s)
    ensures Accepts(env.cfg, env.Raw(i))
    ensures Buffered(s.pipe, env.cfg, env.Raw(i)) == Pipe([env.Entry(i)], Some(i), s.pipe.log)
  {
    ClassifiedKeeps(env.Raw(i), env.cfg.errorPriority);
  }

  lemma OneEntry(env: Env, i: nat)
    requires i < |env.journal|
    ensures EntriesOf(Writes([env.Entry(i)])) == [i]
  {
    var e := env.Entry(i);
    ClassifiedKeeps(env.Raw(i), env.cfg.errorPriority);
    WritesMoveNoCursor([e]);
    assert [e][..0] == [];
  }

  lemma TwoCopies(w: Txn, i: nat)
    requires EntriesOf(w) == [i]
    ensures Copies([w, w] + [CursorTxn(i)], i) == 2
  {
    CountOne(i, i);
    CopiesStep([], w, i);
    CopiesStep([w], w, i);
    assert [] + [w] == [w] && [w] + [w] == [w, w];
    CursorCopies([w, w], CursorTxn(i), i);
  }

  /** From every initial state whose first entry is watched there is a run that writes
      the entry twice: "without duplicates" does not hold across a crash between the two
      commits of a flush. */
  lemma DuplicatesHappen(env: Env, s: Sys)
    requires env.Valid() && Init(env, s) && env.start + 1 < s.appended && env.Watched(env.start + 1)
    ensures CanRun(env, s, TORN_RUN)
    ensures var log := After(env, s, TORN_RUN).pipe.log;
            Covered(env, log, env.start + 1) && Copies(log, env.start + 1) == 2
  {
    hide Copies, CanRun, After, Env.Entry, Torn;
    var i := env.start + 1;
    var w := Writes([env.Entry(i)]);
    HalfRound(env, s);
    var a := After(env, s, HALF_A_ROUND);
    assert a.pipe.log == [w];
    RunTwo(env, a, Step.Crash(1), Restart);
    var b := After(env, a, [Step.Crash(1), Restart]);
    assert a.pipe.log[..1] == [w];
    WritesMoveNoCursor([env.Entry(i)]);
    assert Persisted(env.start, [w]) == env.start by { assert [w][..0] == []; }
    HalfRound(env, b);
    var c := After(env, b, HALF_A_ROUND);
    RunOne(env, c, CommitCursor);
    var d := Do(env, c, CommitCursor);
    assert d.pipe.log == [w, w] + [CursorTxn(i)];
    RunAppend(env, b, HALF_A_ROUND, [CommitCursor]);
    RunAppend(env, a, [Step.Crash(1), Restart], HALF_A_ROUND + [CommitCursor]);
    RunAppend(env, s, HALF_A_ROUND, [Step.Crash(1), Restart] + (HALF_A_ROUND + [CommitCursor]));
    OneEntry(env, i);
    TwoCopies(w, i);
    assert Persisted(env.start, d.pipe.log) == i;
  }

  // --- the steps are those of the pipeline object ------------------------------------------------------

  /** Taking an event, and the flush that is due when the buffer is full, are the
      object's submit. */
  lemma SubmitIsTakeAndFlush(env: Env, s: Sys, ev: Event)
    requires env.Valid() && s.phase == Idle
    ensures var t := Take(env, s, ev);
            && (t.phase == FlushDue ==> Enabled(env, t, CommitBatch))
            && Submitted(s.pipe, env.cfg, ev) == if t.phase == FlushDue then Flushed(t.pipe) else t.pipe
  {
  }
}

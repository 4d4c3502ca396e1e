/** The journal as the collector sees it, and what a commit log says about it: which
    entries it has written, how often, and where collection would resume
    (hblog/sources/journal.py, hblog/pipeline.py). */
module Journal {
  import opened Model
  import opened Tables
  import opened Pipeline
  import opened Classify

  /** The journal of one boot as far as the run will see it, the configuration, and the
      persisted cursor collection starts from. Entry `i` has cursor `i`. */
  datatype Env = Env(journal: seq<Event>, cfg: Config, start: Cursor) {
    ghost predicate Valid() {
      cfg.Valid() && start < |journal|
    }

    predicate Watched(i: nat)
      requires i < |journal|
    {
      Accepts(cfg, journal[i])
    }

    /** Entry `i` as the reader hands it over. */
    function Raw(i: nat): Event
      requires i < |journal|
    {
      journal[i].(cursor := Some(i))
    }

    /** Entry `i` as it is stored. */
    function Entry(i: nat): Event
      requires i < |journal|
    {
      Classified(Raw(i), cfg.errorPriority)
    }

    /** The watched entries from `lo` up to, not including, `hi`. */
    function Range(lo: nat, hi: nat): seq<nat>
      requires hi <= |journal|
      decreases hi
    {
      if hi <= lo then [] else Range(lo, hi - 1) + (if Watched(hi - 1) then [hi - 1] else [])
    }
  }

  lemma ClassifiedKeeps(ev: Event, errorPriority: int)
    ensures Classified(ev, errorPriority).cursor == ev.cursor
    ensures Classified(ev, errorPriority).unit == ev.unit
  {
  }

  // --- ranges -----------------------------------------------------------------------------

  function Count(s: seq<nat>, i: nat): nat {
    if s == [] then 0 else Count(s[..|s| - 1], i) + (if s[|s| - 1] == i then 1 else 0)
  }

  lemma {:induction false} CountAppend(a: seq<nat>, b: seq<nat>, i: nat)
    ensures Count(a + b, i) == Count(a, i) + Count(b, i)
    decreases |b|
  {
    if b == [] {
      assert a + b == a;
    } else {
      assert (a + b)[..|a + b| - 1] == a + b[..|b| - 1];
      CountAppend(a, b[..|b| - 1], i);
    }
  }

  lemma CountOne(i: nat, j: nat)
    ensures Count([j], i) == if i == j then 1 else 0
  {
    assert [j][..0] == [];
  }

  /** A watched entry is in a range once, any other not at all. */
  lemma {:induction false} RangeCount(env: Env, lo: nat, hi: nat, i: nat)
    requires hi <= |env.journal|
    ensures Count(env.Range(lo, hi), i) == if lo <= i < hi && env.Watched(i) then 1 else 0
    ensures i in env.Range(lo, hi) <==> lo <= i < hi && env.Watched(i)
    decreases hi
  {
    if lo < hi {
      RangeCount(env, lo, hi - 1, i);
      if env.Watched(hi - 1) {
        CountAppend(env.Range(lo, hi - 1), [hi - 1], i);
        CountOne(i, hi - 1);
      } else {
        assert env.Range(lo, hi) == env.Range(lo, hi - 1);
      }
    }
  }

  /** Up to its last watched entry a range is all there is. */
  lemma {:induction false} RangeLast(env: Env, lo: nat, hi: nat)
    requires hi <= |env.journal| && env.Range(lo, hi) != []
    ensures var r := env.Range(lo, hi); var c := r[|r| - 1];
            lo <= c < hi && env.Range(lo, c + 1) == r && env.Range(c + 1, hi) == []
    decreases hi
  {
    if !env.Watched(hi - 1) {
      RangeLast(env, lo, hi - 1);
    }
  }

  // --- what a commit log has written ---------------------------------------------------------

  /** The journal cursors among some events; injected events have none. */
  function Indices(evs: seq<Event>): seq<nat> {
    if evs == [] then []
    else
      Indices(evs[..|evs| - 1])
      + (if evs[|evs| - 1].cursor.Some? then [evs[|evs| - 1].cursor.value] else [])
  }

  lemma {:induction false} IndicesAppend(a: seq<Event>, b: seq<Event>)
    ensures Indices(a + b) == Indices(a) + Indices(b)
    decreases |b|
  {
    if b == [] {
      assert a + b == a;
    } else {
      assert (a + b)[..|a + b| - 1] == a + b[..|b| - 1];
      IndicesAppend(a, b[..|b| - 1]);
    }
  }

  /** The journal entries a transaction writes. */
  function EntriesOf(t: Txn): seq<nat> {
    Indices(Written(t))
  }

  /** How many copies of entry `i` the log has written. */
  function Copies(log: seq<Txn>, i: nat): nat {
    Count(Indices(Written(Flatten(log))), i)
  }

  lemma CopiesStep(log: seq<Txn>, t: Txn, i: nat)
    ensures Copies(log + [t], i) == Copies(log, i) + Count(EntriesOf(t), i)
  {
    FlattenOne(log, t);
    WrittenAppend(Flatten(log), t);
    IndicesAppend(Written(Flatten(log)), Written(t));
    CountAppend(Indices(Written(Flatten(log))), EntriesOf(t), i);
  }

  /** A transaction that moves the persisted cursor. */
  predicate IsCursorTxn(t: Txn) {
    |t| == 1 && t[0].SetMeta? && t[0].key == CURSOR_KEY
  }

  predicate MovesNoCursor(t: Txn) {
    forall i :: 0 <= i < |t| ==> !t[i].SetMeta?
  }

  /** Where collection resumes: the last cursor persisted, else the one at the start. */
  function Persisted(start: Cursor, log: seq<Txn>): Cursor {
    if log == [] then start
    else if IsCursorTxn(log[|log| - 1]) then log[|log| - 1][0].value
    else Persisted(start, log[..|log| - 1])
  }

  /** Entry `i` has been written and no cursor has been persisted since. */
  ghost predicate Unfollowed(log: seq<Txn>, i: nat) {
    exists t :: 0 <= t < |log| && i in EntriesOf(log[t]) && forall u :: t < u < |log| ==> !IsCursorTxn(log[u])
  }

  /** Transaction `t` wrote entry `i` and its cursor commit did not follow. */
  predicate TornAt(log: seq<Txn>, t: nat, i: nat)
    requires t < |log|
  {
    i in EntriesOf(log[t]) && !(t + 1 < |log| && IsCursorTxn(log[t + 1]))
  }

  function TornUpTo(log: seq<Txn>, n: nat, i: nat): nat
    requires n <= |log|
  {
    if n == 0 then 0 else TornUpTo(log, n - 1, i) + (if TornAt(log, n - 1, i) then 1 else 0)
  }

  /** The number of torn batches in the log that wrote entry `i`. */
  function Torn(log: seq<Txn>, i: nat): nat {
    TornUpTo(log, |log|, i)
  }

  // --- well-formed commit logs -------------------------------------------------------------------

  /** A transaction behind log `pre` that does not move the cursor: it writes the watched
      entries from the persisted cursor up to `hi`, and at most a batch. */
  ghost predicate DataTxn(env: Env, pre: seq<Txn>, t: Txn, hi: nat) {
    && MovesNoCursor(t)
    && Persisted(env.start, pre) < hi <= |env.journal|
    && EntriesOf(t) == env.Range(Persisted(env.start, pre) + 1, hi)
    && |Written(t)| <= env.cfg.batchSize
  }

  /** A cursor transaction directly behind the batch whose last entry it names. */
  ghost predicate FollowUp(pre: seq<Txn>, t: Txn) {
    && pre != [] && IsCursorTxn(t)
    && var b := EntriesOf(pre[|pre| - 1]);
       b != [] && t[0].value == b[|b| - 1]
  }

  /** Journal events are stored unaltered but for their classification. */
  ghost predicate Faithful(env: Env, evs: seq<Event>) {
    forall e :: e in evs && e.cursor.Some? ==>
      e.cursor.value < |env.journal| && e == env.Entry(e.cursor.value)
  }

  ghost predicate TxnOk(env: Env, pre: seq<Txn>, t: Txn) {
    FollowUp(pre, t) || exists hi: nat :: DataTxn(env, pre, t, hi)
  }

  ghost predicate LogOk(env: Env, log: seq<Txn>) {
    log != [] ==> LogOk(env, log[..|log| - 1]) && TxnOk(env, log[..|log| - 1], log[|log| - 1])
  }

  lemma CursorWritesNothing(t: Txn)
    requires IsCursorTxn(t)
    ensures Written(t) == [] && EntriesOf(t) == []
  {
    assert t[..0] == [];
  }

  lemma {:induction false} LogOkPrefix(env: Env, log: seq<Txn>, n: nat)
    requires LogOk(env, log) && n <= |log|
    ensures LogOk(env, log[..n])
    decreases |log|
  {
    if n < |log| {
      LogOkPrefix(env, log[..|log| - 1], n);
      assert log[..|log| - 1][..n] == log[..n];
    } else {
      assert log[..n] == log;
    }
  }

  lemma LogStep(env: Env, pre: seq<Txn>, t: Txn)
    ensures LogOk(env, pre + [t]) <==> LogOk(env, pre) && TxnOk(env, pre, t)
    ensures Persisted(env.start, pre + [t]) == if IsCursorTxn(t) then t[0].value else Persisted(env.start, pre)
  {
    assert (pre + [t])[..|pre|] == pre;
  }

  /** A cursor transaction moves the cursor to the end of the batch before it. */
  lemma FollowedBatch(env: Env, pre: seq<Txn>, t: Txn)
    requires LogOk(env, pre) && TxnOk(env, pre, t) && IsCursorTxn(t)
    ensures pre != [] && !IsCursorTxn(pre[|pre| - 1])
    ensures Persisted(env.start, pre) < t[0].value < |env.journal|
    ensures EntriesOf(pre[|pre| - 1]) == env.Range(Persisted(env.start, pre) + 1, t[0].value + 1)
  {
    hide Env.Range, Written, Indices;
    assert !MovesNoCursor(t);
    var b := pre[|pre| - 1];
    if IsCursorTxn(b) { CursorWritesNothing(b); }
    var hi: nat :| DataTxn(env, pre[..|pre| - 1], b, hi);
    RangeLast(env, Persisted(env.start, pre) + 1, hi);
  }

  lemma {:induction false} PersistedInRange(env: Env, log: seq<Txn>)
    requires env.Valid() && LogOk(env, log)
    ensures env.start <= Persisted(env.start, log) < |env.journal|
    decreases |log|
  {
    if log != [] {
      var pre, t := log[..|log| - 1], log[|log| - 1];
      PersistedInRange(env, pre);
      if IsCursorTxn(t) { FollowedBatch(env, pre, t); }
    }
  }

  lemma {:induction false} PersistedGrows(env: Env, log: seq<Txn>, n: nat)
    requires env.Valid() && LogOk(env, log) && n <= |log|
    ensures Persisted(env.start, log[..n]) <= Persisted(env.start, log)
    decreases |log|
  {
    if n == |log| {
      assert log[..n] == log;
    } else {
      var pre, t := log[..|log| - 1], log[|log| - 1];
      PersistedGrows(env, pre, n);
      assert pre[..n] == log[..n];
      if IsCursorTxn(t) { FollowedBatch(env, pre, t); }
    }
  }

  // --- conservation ------------------------------------------------------------------------------

  /** Entry `i` is watched and lies between the start and the persisted cursor. */
  predicate Covered(env: Env, log: seq<Txn>, i: nat) {
    CoveredBy(env, Persisted(env.start, log), i)
  }

  predicate CoveredBy(env: Env, c: Cursor, i: nat) {
    env.start < i <= c && i < |env.journal| && env.Watched(i)
  }

  lemma {:induction false} TornFrame(log: seq<Txn>, t: Txn, n: nat, i: nat)
    requires n < |log|
    ensures TornUpTo(log + [t], n, i) == TornUpTo(log, n, i)
  {
    if n > 0 {
      TornFrame(log, t, n - 1, i);
      assert (log + [t])[n - 1] == log[n - 1] && (log + [t])[n] == log[n];
    }
  }

  lemma TornStep(log: seq<Txn>, t: Txn, i: nat)
    ensures !IsCursorTxn(t) ==> Torn(log + [t], i) == Torn(log, i) + (if i in EntriesOf(t) then 1 else 0)
    ensures IsCursorTxn(t) && log != [] ==>
              Torn(log + [t], i) + (if i in EntriesOf(log[|log| - 1]) then 1 else 0) == Torn(log, i)
  {
    var after, n := log + [t], |log|;
    assert after[n] == t;
    assert TornAt(after, n, i) <==> i in EntriesOf(t);
    assert Torn(after, i) == TornUpTo(after, n, i) + if i in EntriesOf(t) then 1 else 0;
    if IsCursorTxn(t) { CursorWritesNothing(t); }
    if n > 0 {
      TornFrame(log, t, n - 1, i);
      assert after[n - 1] == log[n - 1];
      assert TornAt(log, n - 1, i) <==> i in EntriesOf(log[n - 1]);
      assert TornAt(after, n - 1, i) <==> i in EntriesOf(log[n - 1]) && !IsCursorTxn(t);
      assert TornUpTo(after, n, i) == TornUpTo(log, n - 1, i) + if TornAt(after, n - 1, i) then 1 else 0;
      assert Torn(log, i) == TornUpTo(log, n - 1, i) + if TornAt(log, n - 1, i) then 1 else 0;
    }
  }

  ghost predicate Conserved(env: Env, log: seq<Txn>, i: nat) {
    Copies(log, i) == (if Covered(env, log, i) then 1 else 0) + Torn(log, i)
  }

  /** A data transaction writes watched entries behind the persisted cursor, each once. */
  lemma DataCount(env: Env, pre: seq<Txn>, t: Txn, i: nat)
    requires TxnOk(env, pre, t) && !IsCursorTxn(t)
    ensures Count(EntriesOf(t), i) == if i in EntriesOf(t) then 1 else 0
    ensures i in EntriesOf(t) ==> Persisted(env.start, pre) < i < |env.journal| && env.Watched(i)
  {
    var hi: nat :| DataTxn(env, pre, t, hi);
    RangeCount(env, Persisted(env.start, pre) + 1, hi, i);
  }

  /** What a move of the cursor from `p` to `c` covers in addition. */
  lemma NewlyCovered(env: Env, p: Cursor, c: Cursor, i: nat)
    requires env.start <= p < c < |env.journal|
    ensures i in env.Range(p + 1, c + 1) <==> CoveredBy(env, c, i) && !CoveredBy(env, p, i)
    ensures CoveredBy(env, p, i) ==> CoveredBy(env, c, i)
  {
    RangeCount(env, p + 1, c + 1, i);
  }

  lemma CursorCopies(pre: seq<Txn>, t: Txn, i: nat)
    requires IsCursorTxn(t)
    ensures Copies(pre + [t], i) == Copies(pre, i)
  {
    CopiesStep(pre, t, i);
    CursorWritesNothing(t);
  }

  lemma CursorTorn(env: Env, pre: seq<Txn>, t: Txn, i: nat)
    requires LogOk(env, pre) && TxnOk(env, pre, t) && IsCursorTxn(t)
    ensures var p := Persisted(env.start, pre);
            && p < t[0].value < |env.journal|
            && Torn(pre + [t], i) + (if i in env.Range(p + 1, t[0].value + 1) then 1 else 0) == Torn(pre, i)
  {
    FollowedBatch(env, pre, t);
    TornStep(pre, t, i);
  }

  lemma CursorConserves(env: Env, pre: seq<Txn>, t: Txn, i: nat)
    requires env.Valid() && LogOk(env, pre + [t]) && IsCursorTxn(t) && Conserved(env, pre, i)
    ensures Conserved(env, pre + [t], i)
  {
    LogStep(env, pre, t);
    PersistedInRange(env, pre);
    CursorCopies(pre, t, i);
    CursorTorn(env, pre, t, i);
    NewlyCovered(env, Persisted(env.start, pre), t[0].value, i);
  }

  lemma DataConserves(env: Env, pre: seq<Txn>, t: Txn, i: nat)
    requires env.Valid() && LogOk(env, pre + [t]) && !IsCursorTxn(t) && Conserved(env, pre, i)
    ensures Conserved(env, pre + [t], i)
  {
    LogStep(env, pre, t);
    CopiesStep(pre, t, i);
    DataCount(env, pre, t, i);
    TornStep(pre, t, i);
  }

  /** For every well-formed commit log and every journal entry: the copies written are
      one if the entry is covered by the persisted cursor, plus one for every torn batch
      that wrote it. */
  lemma {:induction false} CopiesConserved(env: Env, log: seq<Txn>, i: nat)
    requires env.Valid() && LogOk(env, log)
    ensures Copies(log, i) == (if Covered(env, log, i) then 1 else 0) + Torn(log, i)
    decreases |log|
  {
    if log != [] {
      var pre, t := log[..|log| - 1], log[|log| - 1];
      assert log == pre + [t];
      CopiesConserved(env, pre, i);
      if IsCursorTxn(t) {
        CursorConserves(env, pre, t, i);
      } else {
        DataConserves(env, pre, t, i);
      }
    }
  }

  /** A covered entry has been written exactly once if and only if no torn batch of the
      log wrote it. */
  lemma ExactlyOnceIff(env: Env, log: seq<Txn>, i: nat)
    requires env.Valid() && LogOk(env, log) && Covered(env, log, i)
    ensures Copies(log, i) == 1 <==> forall t :: 0 <= t < |log| ==> !TornAt(log, t, i)
  {
    CopiesConserved(env, log, i);
    TornZeroIff(log, |log|, i);
  }

  lemma {:induction false} TornZeroIff(log: seq<Txn>, n: nat, i: nat)
    requires n <= |log|
    ensures TornUpTo(log, n, i) == 0 <==> forall t :: 0 <= t < n ==> !TornAt(log, t, i)
  {
    if n > 0 { TornZeroIff(log, n - 1, i); }
  }

  /** No gap: every covered entry stands in the history of statements, classified. */
  lemma NoGap(env: Env, log: seq<Txn>, i: nat)
    requires env.Valid() && LogOk(env, log) && Faithful(env, Written(Flatten(log)))
    requires Covered(env, log, i)
    ensures Write(env.Entry(i)) in Flatten(log)
  {
    CopiesConserved(env, log, i);
    CountedIsThere(Written(Flatten(log)), i);
    WrittenIsThere(Flatten(log), env.Entry(i));
  }

  lemma {:induction false} CountedIsThere(evs: seq<Event>, i: nat)
    requires Count(Indices(evs), i) > 0
    ensures exists e :: e in evs && e.cursor == Some(i)
    decreases |evs|
  {
    var n := |evs| - 1;
    if evs[n].cursor == Some(i) {
      assert evs[n] in evs;
    } else {
      if evs[n].cursor.Some? {
        CountAppend(Indices(evs[..n]), [evs[n].cursor.value], i);
        CountOne(i, evs[n].cursor.value);
      } else {
        assert Indices(evs) == Indices(evs[..n]);
      }
      CountedIsThere(evs[..n], i);
    }
  }

  lemma {:induction false} WrittenIsThere(ops: seq<Op>, e: Event)
    requires e in Written(ops)
    ensures Write(e) in ops
    decreases |ops|
  {
    var n := |ops| - 1;
    if ops[n] != Write(e) {
      WrittenIsThere(ops[..n], e);
    }
  }

  /** Unwatched entries are never written. */
  lemma UnwatchedNeverWritten(env: Env, log: seq<Txn>, i: nat)
    requires env.Valid() && LogOk(env, log) && i < |env.journal| && !env.Watched(i)
    ensures Copies(log, i) == 0
    decreases |log|
  {
    if log != [] {
      var pre, t := log[..|log| - 1], log[|log| - 1];
      assert log == pre + [t];
      UnwatchedNeverWritten(env, pre, i);
      CopiesStep(pre, t, i);
      if IsCursorTxn(t) {
        CursorWritesNothing(t);
      } else {
        DataCount(env, pre, t, i);
      }
    }
  }

  /** The entries written but not followed by a cursor commit are the watched ones from
      the persisted cursor up to `hi`, at most a batch of them. */
  ghost predicate UnfollowedUpTo(env: Env, log: seq<Txn>, hi: nat) {
    var lo := Persisted(env.start, log) + 1;
    && lo <= hi <= |env.journal| && |env.Range(lo, hi)| <= env.cfg.batchSize
    && forall i: nat :: Unfollowed(log, i) <==> i in env.Range(lo, hi)
  }

  lemma NoneUnfollowed(env: Env, log: seq<Txn>)
    requires env.Valid() && Persisted(env.start, log) < |env.journal| && forall i: nat :: !Unfollowed(log, i)
    ensures UnfollowedUpTo(env, log, Persisted(env.start, log) + 1)
  {
    hide Unfollowed, Persisted;
  }

  lemma DataUnfollowed(env: Env, pre: seq<Txn>, t: Txn, h0: nat, h1: nat)
    requires !IsCursorTxn(t) && UnfollowedUpTo(env, pre, h0) && DataTxn(env, pre, t, h1)
    ensures UnfollowedUpTo(env, pre + [t], if h0 <= h1 then h1 else h0)
  {
    hide Unfollowed, Indices, Env.Range, IsCursorTxn, Written, LogOk;
    LogStep(env, pre, t);
    IndicesBound(Written(t));
    var lo, hi := Persisted(env.start, pre) + 1, if h0 <= h1 then h1 else h0;
    forall i: nat ensures Unfollowed(pre + [t], i) <==> i in env.Range(lo, hi) {
      UnfollowedStep(pre, t, i);
      UnionRange(env, lo, h0, h1, i);
    }
  }

  /** The entries a crash behind this log makes the collector repeat are those of one
      flushed buffer: the watched entries up to some point, at most a batch of them. */
  lemma {:induction false} OneBatchUnfollowed(env: Env, log: seq<Txn>) returns (hi: nat)
    requires env.Valid() && LogOk(env, log)
    ensures UnfollowedUpTo(env, log, hi)
    decreases |log|
  {
    hide UnfollowedUpTo, Unfollowed, DataTxn, FollowUp, Persisted;
    PersistedInRange(env, log);
    if log == [] {
      hi := Persisted(env.start, log) + 1;
      forall i: nat ensures !Unfollowed(log, i) { EmptyLog(i); }
      NoneUnfollowed(env, log);
    } else {
      var pre, t := log[..|log| - 1], log[|log| - 1];
      assert log == pre + [t];
      if IsCursorTxn(t) {
        hi := Persisted(env.start, log) + 1;
        forall i: nat ensures !Unfollowed(log, i) { UnfollowedStep(pre, t, i); }
        NoneUnfollowed(env, log);
      } else {
        var h0 := OneBatchUnfollowed(env, pre);
        NotFollowUp(pre, t);
        var h1: nat :| DataTxn(env, pre, t, h1);
        hi := if h0 <= h1 then h1 else h0;
        DataUnfollowed(env, pre, t, h0, h1);
      }
    }
  }

  lemma EmptyLog(i: nat)
    ensures !Unfollowed([], i)
  {
  }

  lemma NotFollowUp(pre: seq<Txn>, t: Txn)
    requires !IsCursorTxn(t)
    ensures !FollowUp(pre, t)
  {
  }

  lemma UnionRange(env: Env, lo: nat, h0: nat, h1: nat, i: nat)
    requires h0 <= |env.journal| && h1 <= |env.journal|
    ensures i in env.Range(lo, if h0 <= h1 then h1 else h0) <==> i in env.Range(lo, h0) || i in env.Range(lo, h1)
  {
    RangeCount(env, lo, h0, i);
    RangeCount(env, lo, h1, i);
  }

  lemma UnfollowedStep(pre: seq<Txn>, t: Txn, i: nat)
    ensures IsCursorTxn(t) ==> !Unfollowed(pre + [t], i)
    ensures !IsCursorTxn(t) ==> (Unfollowed(pre + [t], i) <==> Unfollowed(pre, i) || i in EntriesOf(t))
  {
    var log, n := pre + [t], |pre|;
    assert log[n] == t;
    assert forall u :: 0 <= u < n ==> log[u] == pre[u];
    if IsCursorTxn(t) {
      CursorWritesNothing(t);
    } else if Unfollowed(pre, i) {
      var k :| 0 <= k < n && i in EntriesOf(pre[k]) && forall u :: k < u < n ==> !IsCursorTxn(pre[u]);
      assert i in EntriesOf(log[k]);
    } else if i in EntriesOf(t) {
      assert i in EntriesOf(log[n]);
    }
  }

  // --- what is read again -----------------------------------------------------------------------

  /** Entry `i` has been written and lies behind the persisted cursor, so it will be read
      and written again. */
  ghost predicate Reread(env: Env, log: seq<Txn>, i: nat) {
    i > Persisted(env.start, log) && Copies(log, i) > 0
  }

  /** These entries are the watched ones from the persisted cursor up to `hi`, at most a
      batch of them. */
  ghost predicate RereadUpTo(env: Env, log: seq<Txn>, hi: nat) {
    var lo := Persisted(env.start, log) + 1;
    && lo <= hi <= |env.journal| && |env.Range(lo, hi)| <= env.cfg.batchSize
    && forall i: nat :: Reread(env, log, i) <==> i in env.Range(lo, hi)
  }

  lemma {:induction false} RangeSplit(env: Env, lo: nat, mid: nat, hi: nat)
    requires lo <= mid <= hi <= |env.journal|
    ensures env.Range(lo, hi) == env.Range(lo, mid) + env.Range(mid, hi)
    decreases hi
  {
    if mid < hi { RangeSplit(env, lo, mid, hi - 1); }
  }

  /** A batch adds its entries to those that a crash would make the collector repeat. */
  lemma DataReread(env: Env, pre: seq<Txn>, t: Txn, h0: nat, h1: nat)
    requires !IsCursorTxn(t) && RereadUpTo(env, pre, h0) && DataTxn(env, pre, t, h1)
    ensures RereadUpTo(env, pre + [t], if h0 <= h1 then h1 else h0)
  {
    hide Copies, Indices, Env.Range, IsCursorTxn, Written, LogOk;
    LogStep(env, pre, t);
    IndicesBound(Written(t));
    var lo, hi := Persisted(env.start, pre) + 1, if h0 <= h1 then h1 else h0;
    forall i: nat ensures Reread(env, pre + [t], i) <==> i in env.Range(lo, hi) {
      CopiesStep(pre, t, i);
      CountPositive(EntriesOf(t), i);
      RangeCount(env, lo, h1, i);
      UnionRange(env, lo, h0, h1, i);
    }
  }

  lemma {:induction false} CountPositive(s: seq<nat>, i: nat)
    ensures Count(s, i) > 0 <==> i in s
  {
    if s != [] {
      CountPositive(s[..|s| - 1], i);
      assert s == s[..|s| - 1] + [s[|s| - 1]];
    }
  }

  /** A cursor commit takes away what it covers; entries that an older, longer batch wrote
      behind it remain. */
  lemma CursorReread(env: Env, pre: seq<Txn>, t: Txn, h0: nat)
    requires LogOk(env, pre) && TxnOk(env, pre, t) && IsCursorTxn(t) && RereadUpTo(env, pre, h0)
    ensures RereadUpTo(env, pre + [t], if h0 <= t[0].value + 1 then t[0].value + 1 else h0)
  {
    hide Copies, Indices, Env.Range, Written, LogOk, TxnOk;
    LogStep(env, pre, t);
    FollowedBatch(env, pre, t);
    var p, c := Persisted(env.start, pre), t[0].value;
    var hi := if h0 <= c + 1 then c + 1 else h0;
    if h0 > c + 1 {
      RangeSplit(env, p + 1, c + 1, h0);
    } else {
      EmptyRange(env, c + 1);
    }
    forall i: nat ensures Reread(env, pre + [t], i) <==> i in env.Range(c + 1, hi) {
      CursorCopies(pre, t, i);
      RangeCount(env, p + 1, h0, i);
      RangeCount(env, c + 1, hi, i);
    }
  }

  lemma EmptyRange(env: Env, lo: nat)
    requires lo <= |env.journal|
    ensures env.Range(lo, lo) == []
  {
  }

  lemma NothingReread(env: Env)
    requires env.Valid()
    ensures RereadUpTo(env, [], env.start + 1)
  {
    EmptyRange(env, env.start + 1);
    assert forall i: nat :: Copies([], i) == 0;
  }

  /** Whatever the log: the entries that will be written again are those of one flushed
      buffer, the watched entries from the persisted cursor up to some point, at most a
      batch of them. */
  lemma {:induction false} OneBatchReread(env: Env, log: seq<Txn>) returns (hi: nat)
    requires env.Valid() && LogOk(env, log)
    ensures RereadUpTo(env, log, hi)
    decreases |log|
  {
    hide RereadUpTo, DataTxn, FollowUp, Persisted;
    if log == [] {
      hi := env.start + 1;
      NothingReread(env);
    } else {
      var pre, t := log[..|log| - 1], log[|log| - 1];
      assert log == pre + [t];
      var h0 := OneBatchReread(env, pre);
      if IsCursorTxn(t) {
        hi := if h0 <= t[0].value + 1 then t[0].value + 1 else h0;
        CursorReread(env, pre, t, h0);
      } else {
        NotFollowUp(pre, t);
        var h1: nat :| DataTxn(env, pre, t, h1);
        hi := if h0 <= h1 then h1 else h0;
        DataReread(env, pre, t, h0, h1);
      }
    }
  }

  lemma {:induction false} IndicesBound(evs: seq<Event>)
    ensures |Indices(evs)| <= |evs|
  {
    if evs != [] { IndicesBound(evs[..|evs| - 1]); }
  }

  /** `Persisted` is what get_meta reads back from the tables of a well-formed log. */
  lemma {:induction false} PersistedIsMeta(env: Env, log: seq<Txn>)
    requires LogOk(env, log)
    ensures var meta := Replay(Flatten(log)).meta;
            Persisted(env.start, log) == if CURSOR_KEY in meta then meta[CURSOR_KEY] else env.start
    decreases |log|
  {
    if log != [] {
      var pre, t := log[..|log| - 1], log[|log| - 1];
      PersistedIsMeta(env, pre);
      ReplayAppend(Flatten(pre), t);
      if IsCursorTxn(t) {
        assert t[..0] == [];
      } else {
        MetaKept(Replay(Flatten(pre)), t);
      }
    }
  }

  lemma {:induction false} MetaKept(db: Db, t: Txn)
    requires MovesNoCursor(t)
    ensures ApplyAll(db, t).meta == db.meta
    decreases |t|
  {
    if t != [] { MetaKept(db, t[..|t| - 1]); }
  }
}

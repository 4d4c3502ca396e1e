/** The events table is a view of history: every event written has a row, and loses it only
    to a statement of retention that names it (hblog/db.py, `write_batch`, `prune`). */
module EventsTable {
  import opened Model
  import opened Tables
  import Retention

  // --- without retention ------------------------------------------------------------------------

  predicate Deletes(op: Op) { op.DropEvents? || op.DropOldest? }

  /** The row of the n-th event written. */
  function RowOf(h: seq<Op>, n: nat): Row
    requires n < |Written(h)|
  {
    Row(n + 1, Written(h)[n])
  }

  /** Every event written has its row, in order, problem or not, and there are no others. */
  lemma {:induction false} AllWrittenIsStored(h: seq<Op>)
    requires forall op :: op in h ==> !Deletes(op)
    ensures |Replay(h).events| == |Written(h)|
    ensures forall i :: 0 <= i < |Written(h)| ==> Replay(h).events[i] == Row(i + 1, Written(h)[i])
    decreases |h|
  {
    if h != [] {
      var p, op := h[..|h| - 1], h[|h| - 1];
      assert op in h && forall o :: o in p ==> o in h;
      AllWrittenIsStored(p);
      NextIdCounts(p);
    }
  }

  // --- with retention -----------------------------------------------------------------------------

  /** Row `q` is deleted before row `r`: it is older, or as old and was written first. */
  predicate Older(q: Row, r: Row) {
    q.ev.ts < r.ev.ts || (q.ev.ts == r.ev.ts && q.id < r.id)
  }

  /** After history `p`, statement `op` deletes row `r`: it is before the cutoff, or one of
      the oldest rows then left. */
  ghost predicate Removes(p: seq<Op>, op: Op, r: Row)
    decreases |p|, 2
  {
    || (op.DropEvents? && r.ev.ts < op.cutoff)
    || (op.DropOldest? && |set q | q in Left(p) && Older(q, r)| < op.limit)
  }

  /** The n-th event written has kept its row. */
  ghost predicate Kept(h: seq<Op>, n: nat)
    decreases |h|, 0
  {
    && n < |Written(h)|
    && var p := h[..|h| - 1];
       n < |Written(p)| ==> Kept(p, n) && !Removes(p, h[|h| - 1], RowOf(h, n))
  }

  ghost function Left(h: seq<Op>): set<Row>
    decreases |h|, 1
  {
    set n: nat | n < |Written(h)| && Kept(h, n) :: RowOf(h, n)
  }

  lemma WrittenNext(p: seq<Op>, op: Op)
    ensures Written(p + [op]) == Written(p) + (if op.Write? then [op.ev] else [])
    ensures (p + [op])[..|p|] == p
  {
    assert (p + [op])[..|p|] == p;
  }

  /** What one more statement leaves. */
  lemma LeftStep(p: seq<Op>, op: Op)
    ensures forall r :: r in Left(p + [op])
                        <==> (r in Left(p) && !Removes(p, op, r)) || (op.Write? && r == Row(|Written(p)| + 1, op.ev))
  {
    var h := p + [op];
    WrittenNext(p, op);
    hide Removes, Written;
    forall r ensures r in Left(h)
                     <==> (r in Left(p) && !Removes(p, op, r)) || (op.Write? && r == Row(|Written(p)| + 1, op.ev))
    {
      if r in Left(h) {
        var n: nat :| n < |Written(h)| && Kept(h, n) && r == RowOf(h, n);
        if n < |Written(p)| {
          assert RowOf(p, n) == r;
        }
      }
      if r in Left(p) && !Removes(p, op, r) {
        var n: nat :| n < |Written(p)| && Kept(p, n) && r == RowOf(p, n);
        assert RowOf(h, n) == r && Kept(h, n);
      }
      if op.Write? && r == Row(|Written(p)| + 1, op.ev) {
        assert RowOf(h, |Written(p)|) == r && Kept(h, |Written(p)|);
      }
    }
  }

  // --- deleting the oldest rows ---------------------------------------------------------------------

  ghost function Before(rows: seq<Row>, r: Row): set<Row> {
    set q | q in rows && Older(q, r)
  }

  /** The first of the oldest rows is before every other. */
  lemma {:induction false} OldestIsFirst(rows: seq<Row>)
    requires rows != [] && Retention.Ascending(rows)
    ensures forall r :: r in rows ==> r == rows[OldestIndex(rows)] || Older(rows[OldestIndex(rows)], r)
  {
    if |rows| > 1 {
      OldestIsFirst(rows[1..]);
      assert rows == [rows[0]] + rows[1..];
      assert forall r :: r in rows[1..] ==> rows[0].id < r.id;
    }
  }

  lemma WithoutIs(rows: seq<Row>, i: nat)
    requires i < |rows| && Retention.Ascending(rows)
    ensures Retention.Ascending(Without(rows, i))
    ensures forall r :: r in Without(rows, i) <==> r in rows && r != rows[i]
  {
    assert rows == rows[..i] + [rows[i]] + rows[i + 1..];
    assert forall k :: 0 <= k < |rows| && k != i ==> rows[k].id != rows[i].id;
  }

  /** Exactly the rows with fewer than `n` others before them are deleted. */
  lemma {:induction false} OldestGo(rows: seq<Row>, n: nat, r: Row)
    requires Retention.Ascending(rows)
    ensures r in DropOldestRows(rows, n) <==> r in rows && |Before(rows, r)| >= n
    decreases n
  {
    if n != 0 && rows != [] {
      var m := rows[OldestIndex(rows)];
      var rest := Without(rows, OldestIndex(rows));
      OldestIsFirst(rows);
      WithoutIs(rows, OldestIndex(rows));
      OldestGo(rest, n - 1, r);
      if r == m {
        assert Before(rows, r) == {};
      } else if r in rows {
        assert Before(rows, r) == Before(rest, r) + {m};
      }
    }
  }

  // --- the theorem ------------------------------------------------------------------------------------

  ghost predicate Matches(h: seq<Op>) {
    forall r :: r in Replay(h).events <==> r in Left(h)
  }

  /** For every history: the rows of the table are exactly those of the events written that
      no later statement has removed. */
  lemma {:induction false} TableIsLeft(h: seq<Op>)
    ensures Matches(h)
    decreases |h|
  {
    if h != [] {
      var p, op := h[..|h| - 1], h[|h| - 1];
      assert h == p + [op];
      TableIsLeft(p);
      TableStep(p, op);
    }
  }

  lemma TableStep(p: seq<Op>, op: Op)
    requires Matches(p)
    ensures Matches(p + [op])
  {
    hide Left, Kept;
    ReplayOne(p, op);
    LeftStep(p, op);
    var rows := Replay(p).events;
    if op.Write? {
      NextIdCounts(p);
    } else if op.DropEvents? {
      Retention.NotBeforeIs(rows, op.cutoff);
    } else if op.DropOldest? {
      Retention.IdsAscend(p);
      forall r ensures r in DropOldestRows(rows, op.limit) <==> r in Left(p) && !Removes(p, op, r) {
        OldestGo(rows, op.limit, r);
        assert Before(rows, r) == set q | q in Left(p) && Older(q, r);
      }
    }
  }

  /** No statement of the history behind the writing of the n-th event removes its row. */
  ghost predicate NothingRemoves(h: seq<Op>, n: nat)
    requires n < |Written(h)|
  {
    forall j: nat :: j < |h| && n < |Written(h[..j])| ==> !Removes(h[..j], h[j], RowOf(h, n))
  }

  lemma {:induction false} KeptIff(h: seq<Op>, n: nat)
    requires n < |Written(h)|
    ensures Kept(h, n) <==> NothingRemoves(h, n)
    decreases |h|
  {
    hide Removes;
    var p, op := h[..|h| - 1], h[|h| - 1];
    assert h == p + [op];
    WrittenNext(p, op);
    assert h[..|p|] == p;
    if n < |Written(p)| {
      KeptIff(p, n);
      assert RowOf(p, n) == RowOf(h, n);
      forall j: nat | j < |p| ensures h[..j] == p[..j] && h[j] == p[j] { }
    } else {
      forall j: nat | j < |h| ensures n >= |Written(h[..j])| {
        WrittenPrefix(h, j);
        if j < |p| { WrittenPrefix(p, j); assert h[..j] == p[..j]; }
      }
    }
  }

  lemma WrittenPrefix(h: seq<Op>, j: nat)
    requires j <= |h|
    ensures |Written(h[..j])| <= |Written(h)|
  {
    WrittenAppend(h[..j], h[j..]);
    assert h == h[..j] + h[j..];
  }

  /** The n-th event written is in the table if and only if no later statement removed its
      row: by age, or as one of the oldest rows left at that time. */
  lemma StoredIff(h: seq<Op>, n: nat)
    requires n < |Written(h)|
    ensures Row(n + 1, Written(h)[n]) in Replay(h).events <==> NothingRemoves(h, n)
  {
    TableIsLeft(h);
    KeptIff(h, n);
    var r := RowOf(h, n);
    if r in Left(h) {
      var m: nat :| m < |Written(h)| && Kept(h, m) && r == RowOf(h, m);
    }
  }

  /** And the table has no other rows. */
  lemma NothingElseStored(h: seq<Op>, r: Row)
    requires r in Replay(h).events
    ensures 1 <= r.id <= |Written(h)| && r.ev == Written(h)[r.id - 1]
  {
    TableIsLeft(h);
    var n: nat :| n < |Written(h)| && Kept(h, n) && r == RowOf(h, n);
  }
}

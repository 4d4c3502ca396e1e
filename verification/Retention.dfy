/** What deleting events for retention removes: only rows that no surviving row is older
    than (hblog/db.py, `prune`). */
module Retention {
  import opened Tables

  /** `after` is what is left of `before`, and no row that is gone is newer than one that
      is left. */
  ghost predicate KeepsNewest(before: seq<Row>, after: seq<Row>) {
    && (forall s :: s in after ==> s in before)
    && (forall g, s :: g in before && g !in after && s in after ==> g.ev.ts <= s.ev.ts)
  }

  lemma KeepsNewestSelf(a: seq<Row>)
    ensures KeepsNewest(a, a)
  {
  }

  lemma KeepsOld(a: seq<Row>, b: seq<Row>)
    requires KeepsNewest(a, b)
    ensures forall r :: r in b ==> r in a
  {
  }

  lemma KeepsNewestTrans(a: seq<Row>, b: seq<Row>, c: seq<Row>)
    requires KeepsNewest(a, b) && KeepsNewest(b, c)
    ensures KeepsNewest(a, c)
  {
  }

  lemma {:induction false} NotBeforeIs(rows: seq<Row>, cutoff: real)
    ensures |NotBefore(rows, cutoff)| <= |rows|
    ensures forall r :: r in NotBefore(rows, cutoff) <==> r in rows && r.ev.ts >= cutoff
  {
    if rows != [] {
      NotBeforeIs(rows[1..], cutoff);
      assert rows == [rows[0]] + rows[1..];
    }
  }

  lemma NotBeforeKeepsNewest(rows: seq<Row>, cutoff: real)
    ensures KeepsNewest(rows, NotBefore(rows, cutoff))
  {
    NotBeforeIs(rows, cutoff);
  }

  lemma {:induction false} OldestIsOldest(rows: seq<Row>)
    requires rows != []
    ensures forall r :: r in rows ==> rows[OldestIndex(rows)].ev.ts <= r.ev.ts
  {
    if |rows| > 1 {
      OldestIsOldest(rows[1..]);
      assert rows == [rows[0]] + rows[1..];
    }
  }

  lemma WithoutOldest(rows: seq<Row>)
    requires rows != []
    ensures KeepsNewest(rows, Without(rows, OldestIndex(rows)))
  {
    var i := OldestIndex(rows);
    OldestIsOldest(rows);
    assert rows == rows[..i] + [rows[i]] + rows[i + 1..];
  }

  lemma {:induction false} DropOldestKeepsNewest(rows: seq<Row>, n: nat)
    ensures KeepsNewest(rows, DropOldestRows(rows, n))
    ensures |DropOldestRows(rows, n)| == if n < |rows| then |rows| - n else 0
    decreases n
  {
    if n != 0 && rows != [] {
      var rest := Without(rows, OldestIndex(rows));
      WithoutOldest(rows);
      DropOldestKeepsNewest(rest, n - 1);
      assert DropOldestRows(rows, n) == DropOldestRows(rest, n - 1);
      KeepsNewestTrans(rows, rest, DropOldestRows(rest, n - 1));
    }
  }

  // --- rows are told apart by their ids -------------------------------------------------

  ghost predicate Ascending(rows: seq<Row>) {
    forall i, j :: 0 <= i < j < |rows| ==> rows[i].id < rows[j].id
  }

  lemma {:induction false} NotBeforeAscends(rows: seq<Row>, cutoff: real)
    requires Ascending(rows)
    ensures Ascending(NotBefore(rows, cutoff))
    ensures forall r :: r in NotBefore(rows, cutoff) ==> r in rows
  {
    if rows != [] {
      var rest := NotBefore(rows[1..], cutoff);
      NotBeforeAscends(rows[1..], cutoff);
      assert forall r :: r in rest ==> r in rows[1..] && rows[0].id < r.id;
    }
  }

  lemma {:induction false} DropOldestAscends(rows: seq<Row>, n: nat)
    requires Ascending(rows)
    ensures Ascending(DropOldestRows(rows, n))
    ensures forall r :: r in DropOldestRows(rows, n) ==> r in rows
    decreases n
  {
    if n != 0 && rows != [] {
      DropOldestAscends(Without(rows, OldestIndex(rows)), n - 1);
    }
  }

  /** In every history the rows of the events table have distinct, ascending ids. */
  lemma {:induction false} IdsAscend(h: seq<Op>)
    ensures Ascending(Replay(h).events)
    ensures forall r :: r in Replay(h).events ==> r.id < Replay(h).nextId
    decreases |h|
  {
    if h != [] {
      var p, op := h[..|h| - 1], h[|h| - 1];
      IdsAscend(p);
      var rows := Replay(p).events;
      match op
      case DropEvents(cutoff) => NotBeforeAscends(rows, cutoff);
      case DropOldest(n) => DropOldestAscends(rows, n);
      case Write(ev) => assert forall i :: 0 <= i < |rows| ==> rows[i] in rows;
      case _ =>
    }
  }
}

/** The incidents table is a view of history: every row is an aggregate of the problem
    events written since its key was last deleted. */
module Incidents {
  import opened Model
  import opened Tables

  // --- the declarative view -------------------------------------------------------------

  /** The event is one of the incident `k`: of its unit ("" for none), its kind, and its
      signature. */
  predicate Belongs(ev: Event, k: Key) {
    && ev.kind == Some(k.kind)
    && k.unit == (if ev.unit.Some? then ev.unit.value else "")
    && k.signature == (if ev.signature.Some? then ev.signature.value else KindName(k.kind))
  }

  predicate WritesKey(op: Op, k: Key) {
    op.Write? && Belongs(op.ev, k)
  }

  predicate Resolves(op: Op, k: Key) {
    op.Resolve? && op.unit == k.unit && k.kind in op.kinds
  }

  lemma BelongsIff(ev: Event, k: Key)
    ensures Belongs(ev, k) <==> ev.kind.Some? && KeyOf(ev) == k
  {
  }

  /** The problem events with key `k` written at or after position `from`, each with
      the id its row got. */
  ghost function Problems(h: seq<Op>, from: nat, k: Key): seq<Row> {
    if |h| <= from then []
    else
      var p := h[..|h| - 1];
      Problems(p, from, k)
      + (if WritesKey(h[|h| - 1], k) then [Row(|Written(p)| + 1, h[|h| - 1].ev)] else [])
  }

  /** Position behind the statement that last deleted the row of `k`, else 0. */
  ghost function Born(h: seq<Op>, k: Key): (n: nat)
    ensures n <= |h|
    decreases |h|, 0
  {
    if h == [] then 0
    else if Deletes(h[..|h| - 1], h[|h| - 1], k) then |h|
    else Born(h[..|h| - 1], k)
  }

  /** After history `p`, statement `op` deletes the row of `k`: retention, a row that is
      resolved, and no event of it as recent as the cutoff. */
  ghost predicate Deletes(p: seq<Op>, op: Op, k: Key)
    decreases |p|, 2
  {
    && op.DropIncidents?
    && Live(p, k) != []
    && Dormant(p, k)
    && forall r :: r in Live(p, k) ==> r.ev.ts < op.cutoff
  }

  /** The events the present row of `k` stands for. */
  ghost function Live(h: seq<Op>, k: Key): seq<Row>
    decreases |h|, 1
  {
    Problems(h, Born(h, k), k)
  }

  /** `k` was resolved and no event of it has been written since. */
  ghost predicate Dormant(h: seq<Op>, k: Key)
    decreases |h|, 1
  {
    exists i :: Born(h, k) <= i < |h| && Resolves(h[i], k)
                && forall j :: i < j < |h| ==> !WritesKey(h[j], k)
  }

  ghost predicate IsLatest(m: real, rows: seq<Row>) {
    && (forall r :: r in rows ==> r.ev.ts <= m)
    && (exists r :: r in rows && r.ev.ts == m)
  }

  /** `v` is the last value present, if any is. */
  ghost predicate LastPresent(v: Option<int>, values: seq<Option<int>>) {
    match v
    case None => forall i :: 0 <= i < |values| ==> values[i] == None
    case Some(_) =>
      exists i :: 0 <= i < |values| && values[i] == v && forall j :: i < j < |values| ==> values[j] == None
  }

  lemma LastPresentNext(v: Option<int>, values: seq<Option<int>>, w: Option<int>)
    requires LastPresent(v, values)
    ensures LastPresent(Coalesce(w, v), values + [w])
  {
    if w.Some? {
      assert (values + [w])[|values|] == w;
    } else if v.Some? {
      var i :| 0 <= i < |values| && values[i] == v && forall j :: i < j < |values| ==> values[j] == None;
      assert (values + [w])[i] == v;
    }
  }

  ghost function ExitCodes(rows: seq<Row>): seq<Option<int>> {
    seq(|rows|, i requires 0 <= i < |rows| => rows[i].ev.exitCode)
  }

  ghost function Signals(rows: seq<Row>): seq<Option<int>> {
    seq(|rows|, i requires 0 <= i < |rows| => rows[i].ev.signal)
  }

  /** The row that stands for the events `rows`. */
  ghost predicate Aggregates(r: Incident, rows: seq<Row>, dormant: bool) {
    && rows != []
    && r.count == |rows|
    && r.firstSeen == rows[0].ev.ts
    && r.sampleEventId == rows[0].id
    && IsLatest(r.lastSeen, rows)
    && LastPresent(r.exitCode, ExitCodes(rows))
    && LastPresent(r.signal, Signals(rows))
    && (r.status == Resolved <==> dormant)
  }

  // --- the theorem ------------------------------------------------------------------------

  ghost predicate RowCorrect(h: seq<Op>, k: Key) {
    var db := Replay(h);
    && (k in db.incidents <==> Live(h, k) != [])
    && (k in db.incidents ==> Aggregates(db.incidents[k], Live(h, k), Dormant(h, k)))
  }

  /** For every history of statements and every key: the key has a row exactly when
      live events exist, and then the row is their aggregate. */
  lemma {:induction false} TableIsHistory(h: seq<Op>, k: Key)
    ensures RowCorrect(h, k)
    decreases |h|
  {
    if h != [] {
      var p, op := h[..|h| - 1], h[|h| - 1];
      TableIsHistory(p, k);
      if WritesKey(op, k) {
        WriteStep(p, op, k);
      } else if Resolves(op, k) {
        ResolveStep(p, op, k);
      } else if op.DropIncidents? {
        DropStep(p, op, k);
      } else {
        OtherStep(p, op, k);
      }
      assert h == p + [op];
    }
  }

  lemma DormantLasts(p: seq<Op>, op: Op, k: Key)
    requires !Deletes(p, op, k) && !WritesKey(op, k) && (Resolves(op, k) || Dormant(p, k))
    ensures Dormant(p + [op], k)
  {
    var h := p + [op];
    assert h[..|p|] == p;
    if Resolves(op, k) {
      assert Resolves(h[|p|], k);
    } else {
      var i :| Born(p, k) <= i < |p| && Resolves(p[i], k) && forall j :: i < j < |p| ==> !WritesKey(p[j], k);
      assert Resolves(h[i], k);
    }
  }

  lemma DormantBefore(p: seq<Op>, op: Op, k: Key)
    requires !Deletes(p, op, k) && !Resolves(op, k) && Dormant(p + [op], k)
    ensures Dormant(p, k)
  {
    var h := p + [op];
    assert h[..|p|] == p;
    var i :| Born(h, k) <= i < |h| && Resolves(h[i], k) && forall j :: i < j < |h| ==> !WritesKey(h[j], k);
    assert Resolves(p[i], k);
    forall j | i < j < |p| ensures !WritesKey(p[j], k) {
      assert h[j] == p[j];
    }
  }

  /** What one more statement does to the declarative view. */
  lemma ViewStep(p: seq<Op>, op: Op, k: Key)
    ensures var h := p + [op];
            if Deletes(p, op, k) then Live(h, k) == [] && !Dormant(h, k)
            else if WritesKey(op, k) then
              Live(h, k) == Live(p, k) + [Row(|Written(p)| + 1, op.ev)] && !Dormant(h, k)
            else Live(h, k) == Live(p, k) && (Dormant(h, k) <==> Resolves(op, k) || Dormant(p, k))
  {
    var h := p + [op];
    assert h[..|h| - 1] == p && h[|h| - 1] == op;
    if !Deletes(p, op, k) {
      assert Born(h, k) == Born(p, k) <= |p|;
      if !WritesKey(op, k) {
        if Resolves(op, k) || Dormant(p, k) { DormantLasts(p, op, k); }
        if Dormant(h, k) && !Resolves(op, k) { DormantBefore(p, op, k); }
      }
    }
  }

  lemma AggregateAppend(r: Incident, rows: seq<Row>, row: Row, dormant: bool)
    requires Aggregates(r, rows, dormant)
    ensures Aggregates(r.(lastSeen := MaxReal(r.lastSeen, row.ev.ts),
                          count := r.count + 1,
                          exitCode := Coalesce(row.ev.exitCode, r.exitCode),
                          signal := Coalesce(row.ev.signal, r.signal),
                          status := Open), rows + [row], false)
  {
    var all := rows + [row];
    assert ExitCodes(all) == ExitCodes(rows) + [row.ev.exitCode];
    assert Signals(all) == Signals(rows) + [row.ev.signal];
    LastPresentNext(r.exitCode, ExitCodes(rows), row.ev.exitCode);
    LastPresentNext(r.signal, Signals(rows), row.ev.signal);
    assert row in all;
    var last :| last in rows && last.ev.ts == r.lastSeen;
    assert last in all;
  }

  lemma AggregateFirst(row: Row)
    ensures Aggregates(Incident(row.ev.ts, row.ev.ts, 1, row.ev.exitCode, row.ev.signal, row.id, Open), [row], false)
  {
    assert row in [row];
    assert ExitCodes([row])[0] == row.ev.exitCode && Signals([row])[0] == row.ev.signal;
  }

  lemma WriteStep(p: seq<Op>, op: Op, k: Key)
    requires WritesKey(op, k) && RowCorrect(p, k)
    ensures RowCorrect(p + [op], k)
  {
    ReplayOne(p, op);
    ViewStep(p, op, k);
    NextIdCounts(p);
    var row := Row(|Written(p)| + 1, op.ev);
    if k in Replay(p).incidents {
      AggregateAppend(Replay(p).incidents[k], Live(p, k), row, Dormant(p, k));
    } else {
      AggregateFirst(row);
      assert Live(p + [op], k) == [row];
    }
  }

  lemma ResolveStep(p: seq<Op>, op: Op, k: Key)
    requires Resolves(op, k) && RowCorrect(p, k)
    ensures RowCorrect(p + [op], k)
  {
    ReplayOne(p, op);
    ViewStep(p, op, k);
  }

  lemma DropStep(p: seq<Op>, op: Op, k: Key)
    requires op.DropIncidents? && RowCorrect(p, k)
    ensures RowCorrect(p + [op], k)
  {
    ReplayOne(p, op);
    ViewStep(p, op, k);
  }

  lemma OtherStep(p: seq<Op>, op: Op, k: Key)
    requires !WritesKey(op, k) && !Resolves(op, k) && !op.DropIncidents? && RowCorrect(p, k)
    ensures RowCorrect(p + [op], k)
  {
    ReplayOne(p, op);
    ViewStep(p, op, k);
  }

  /** An incident never ends before it began. */
  lemma SpansAreOrdered(h: seq<Op>, k: Key)
    requires k in Replay(h).incidents
    ensures Replay(h).incidents[k].firstSeen <= Replay(h).incidents[k].lastSeen
  {
    TableIsHistory(h, k);
    assert Live(h, k)[0] in Live(h, k);
  }

  // --- life cycle ---------------------------------------------------------------------------

  lemma OpenStep(db: Db, op: Op, k: Key)
    requires k in db.incidents && db.incidents[k].status == Open && !Resolves(op, k)
    ensures var later := Apply(db, op).incidents;
            && k in later && later[k].status == Open && later[k].firstSeen == db.incidents[k].firstSeen
            && later[k].count == db.incidents[k].count + if WritesKey(op, k) then 1 else 0
  {
  }

  /** Whatever is written, pruned or kept up in between, an incident that is open stays in
      the table, open and with a count that only grows, as long as nothing resolves it. */
  lemma {:induction false} OpenUntilResolved(h: seq<Op>, ops: seq<Op>, k: Key)
    requires k in Replay(h).incidents && Replay(h).incidents[k].status == Open
    requires forall op :: op in ops ==> !Resolves(op, k)
    ensures var later := Replay(h + ops).incidents;
            && k in later && later[k].status == Open
            && later[k].firstSeen == Replay(h).incidents[k].firstSeen
            && later[k].count == Replay(h).incidents[k].count + |Problems(ops, 0, k)|
    decreases |ops|
  {
    if ops == [] {
      assert h + ops == h;
    } else {
      var n := |ops| - 1;
      assert ops[n] in ops && forall op :: op in ops[..n] ==> op in ops;
      OpenUntilResolved(h, ops[..n], k);
      assert h + ops == h + ops[..n] + [ops[n]];
      ReplayOne(h + ops[..n], ops[n]);
      OpenStep(Replay(h + ops[..n]), ops[n], k);
      hide Replay, Apply, WritesKey, Resolves;
    }
  }

  /** Nothing in the history resolves incidents of kind `kind`. */
  ghost predicate NeverResolved(h: seq<Op>, kind: Kind) {
    forall op :: op in h && op.Resolve? ==> kind !in op.kinds
  }

  /** An incident of a kind that is never resolved is never deleted either: its row
      stands for all events of its key ever written. */
  lemma {:induction false} NeverResolvedIsForever(h: seq<Op>, k: Key)
    requires NeverResolved(h, k.kind)
    ensures Born(h, k) == 0 && !Dormant(h, k)
    ensures Live(h, k) == Problems(h, 0, k)
    decreases |h|
  {
    if h != [] {
      var p, op := h[..|h| - 1], h[|h| - 1];
      assert forall o :: o in p ==> o in h;
      assert op in h;
      NeverResolvedIsForever(p, k);
      ViewStep(p, op, k);
      assert h == p + [op];
    }
  }

  /** Its count is the exact number of such events, and it is open. */
  lemma NeverResolvedCount(h: seq<Op>, k: Key)
    requires NeverResolved(h, k.kind)
    ensures k in Replay(h).incidents <==> Problems(h, 0, k) != []
    ensures k in Replay(h).incidents ==>
              Replay(h).incidents[k].count == |Problems(h, 0, k)| && Replay(h).incidents[k].status == Open
  {
    NeverResolvedIsForever(h, k);
    TableIsHistory(h, k);
  }
}

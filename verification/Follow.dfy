/** Following the log from the command line (hblog/cli.py, `_follow_logs`): each round
    prints the oldest rows not older than a bound and moves the bound behind them. */
module Follow {
  import opened Model
  import opened Tables
  import Retention

  const LIMIT := 500
  const STEP := 0.000001

  // --- the query ----------------------------------------------------------------------------

  /** WHERE ts >= since, and the filters of the command line. */
  function Eligible(rows: seq<Row>, since: real, pass: Row -> bool): seq<Row> {
    if rows == [] then []
    else (if rows[0].ev.ts >= since && pass(rows[0]) then [rows[0]] else []) + Eligible(rows[1..], since, pass)
  }

  /** ORDER BY ts ASC LIMIT n; rows of the same time stamp go by id. */
  function Oldest(rows: seq<Row>, n: nat): seq<Row>
    decreases n
  {
    if n == 0 || rows == [] then []
    else
      var i := OldestIndex(rows);
      [rows[i]] + Oldest(Without(rows, i), n - 1)
  }

  function Query(rows: seq<Row>, since: real, pass: Row -> bool): seq<Row> {
    Oldest(Eligible(rows, since, pass), LIMIT)
  }

  lemma {:induction false} EligibleAre(rows: seq<Row>, since: real, pass: Row -> bool)
    ensures forall r :: r in Eligible(rows, since, pass) <==> r in rows && r.ev.ts >= since && pass(r)
  {
    if rows != [] {
      EligibleAre(rows[1..], since, pass);
      assert rows == [rows[0]] + rows[1..];
    }
  }

  lemma {:induction false} EligibleDistinct(rows: seq<Row>, since: real, pass: Row -> bool)
    requires Retention.Ascending(rows)
    ensures Distinct(Eligible(rows, since, pass))
  {
    if rows != [] {
      EligibleDistinct(rows[1..], since, pass);
      EligibleAre(rows[1..], since, pass);
      assert forall r :: r in rows[1..] ==> rows[0].id < r.id;
    }
  }

  ghost predicate Distinct(rows: seq<Row>) {
    forall i, j :: 0 <= i < j < |rows| ==> rows[i].id != rows[j].id
  }

  ghost predicate InTime(rows: seq<Row>) {
    forall i, j :: 0 <= i < j < |rows| ==> rows[i].ev.ts <= rows[j].ev.ts
  }

  lemma WithoutElements(rows: seq<Row>, i: nat)
    requires i < |rows|
    ensures forall r :: r in rows <==> r == rows[i] || r in Without(rows, i)
    ensures Distinct(rows) ==> Distinct(Without(rows, i)) && forall r :: r in Without(rows, i) ==> r.id != rows[i].id
  {
    assert rows == rows[..i] + [rows[i]] + rows[i + 1..];
  }

  /** `out` lists rows in order of time, and no row it leaves out is older than one of them. */
  ghost predicate Earliest(rows: seq<Row>, out: seq<Row>) {
    && InTime(out) && (forall r :: r in out ==> r in rows)
    && (forall r, o :: r in rows && r !in out && o in out ==> o.ev.ts <= r.ev.ts)
  }

  lemma EarliestCons(rows: seq<Row>, i: nat, rest: seq<Row>)
    requires i < |rows| && (forall r :: r in rows ==> rows[i].ev.ts <= r.ev.ts)
    requires Earliest(Without(rows, i), rest)
    ensures Earliest(rows, [rows[i]] + rest)
  {
    WithoutElements(rows, i);
    assert forall k :: 0 <= k < |rest| ==> rest[k] in rest;
    assert forall r :: r in [rows[i]] + rest <==> r == rows[i] || r in rest;
  }

  lemma OldestUnfolds(rows: seq<Row>, n: nat)
    ensures n == 0 || rows == [] ==> Oldest(rows, n) == []
    ensures n != 0 && rows != [] ==>
              Oldest(rows, n) == [rows[OldestIndex(rows)]] + Oldest(Without(rows, OldestIndex(rows)), n - 1)
  {
  }

  lemma NoneEarliest(rows: seq<Row>)
    ensures Earliest(rows, []) && Distinct([])
  {
  }

  lemma {:induction false} OldestEarliest(rows: seq<Row>, n: nat)
    ensures Earliest(rows, Oldest(rows, n))
    decreases n
  {
    hide *;
    OldestUnfolds(rows, n);
    if n == 0 || rows == [] {
      NoneEarliest(rows);
    } else {
      var i := OldestIndex(rows);
      Retention.OldestIsOldest(rows);
      OldestEarliest(Without(rows, i), n - 1);
      EarliestCons(rows, i, Oldest(Without(rows, i), n - 1));
    }
  }

  lemma OldestAmong(rows: seq<Row>, n: nat)
    ensures forall r :: r in Oldest(rows, n) ==> r in rows
  {
    hide Oldest, InTime;
    OldestEarliest(rows, n);
  }

  lemma DistinctCons(first: Row, rest: seq<Row>)
    requires Distinct(rest) && forall r :: r in rest ==> r.id != first.id
    ensures Distinct([first] + rest)
  {
    assert forall k :: 0 <= k < |rest| ==> rest[k] in rest;
  }

  /** The query leaves rows out only at the limit, and lists none twice. */
  lemma {:induction false} OldestCount(rows: seq<Row>, n: nat)
    requires Distinct(rows)
    ensures |Oldest(rows, n)| == if n < |rows| then n else |rows|
    ensures Distinct(Oldest(rows, n))
    decreases n
  {
    hide *;
    OldestUnfolds(rows, n);
    if n == 0 || rows == [] {
      NoneEarliest(rows);
    } else {
      var i := OldestIndex(rows);
      WithoutElements(rows, i);
      OldestCount(Without(rows, i), n - 1);
      OldestAmong(Without(rows, i), n - 1);
      DistinctCons(rows[i], Oldest(Without(rows, i), n - 1));
    }
  }

  lemma {:induction false} OldestAll(rows: seq<Row>, n: nat)
    requires |rows| <= n
    ensures forall r :: r in rows ==> r in Oldest(rows, n)
    decreases n
  {
    if n != 0 && rows != [] {
      hide OldestIndex, Without;
      var i := OldestIndex(rows);
      WithoutElements(rows, i);
      OldestAll(Without(rows, i), n - 1);
    }
  }

  // --- the loop -------------------------------------------------------------------------------

  datatype Tail = Tail(since: real, printed: seq<Row>)

  function Round(t: Tail, rows: seq<Row>, pass: Row -> bool): Tail {
    var found := Query(rows, t.since, pass);
    if found == [] then t else Tail(found[|found| - 1].ev.ts + STEP, t.printed + found)
  }

  /** What was printed after rounds that found these tables. */
  function Followed(start: real, tables: seq<seq<Row>>, pass: Row -> bool): Tail {
    if tables == [] then Tail(start, [])
    else Round(Followed(start, tables[..|tables| - 1], pass), tables[|tables| - 1], pass)
  }

  lemma FollowedNext(start: real, tables: seq<seq<Row>>, i: nat, pass: Row -> bool)
    requires i < |tables|
    ensures Followed(start, tables[..i + 1], pass) == Round(Followed(start, tables[..i], pass), tables[i], pass)
  {
    assert tables[..i + 1][..i] == tables[..i];
  }

  method FollowLogs(start: real, tables: seq<seq<Row>>, pass: Row -> bool) returns (printed: seq<Row>, seenSince: real)
    ensures Tail(seenSince, printed) == Followed(start, tables, pass)
  {
    printed, seenSince := [], start;
    for i := 0 to |tables|
      invariant Tail(seenSince, printed) == Followed(start, tables[..i], pass)
    {
      FollowedNext(start, tables, i, pass);
      hide Followed, Query;
      var rows := Query(tables[i], seenSince, pass);
      if rows != [] {
        printed := printed + rows;
        seenSince := rows[|rows| - 1].ev.ts + STEP;
      }
    }
    assert tables[..|tables|] == tables;
  }

  /** The tables are those of one database over time: ids ascend, and the row of an id is
      always that of `world`. */
  ghost predicate Snapshot(rows: seq<Row>, world: nat -> Event) {
    Retention.Ascending(rows) && forall r :: r in rows ==> r.ev == world(r.id)
  }

  ghost predicate OneDatabase(tables: seq<seq<Row>>, world: nat -> Event) {
    forall k :: 0 <= k < |tables| ==> Snapshot(tables[k], world)
  }

  lemma QueryIs(rows: seq<Row>, since: real, pass: Row -> bool)
    requires Retention.Ascending(rows)
    ensures var q := Query(rows, since, pass);
            && InTime(q) && Distinct(q)
            && forall r :: r in q ==> r in rows && r.ev.ts >= since && pass(r)
  {
    hide Eligible, Oldest;
    EligibleAre(rows, since, pass);
    EligibleDistinct(rows, since, pass);
    OldestEarliest(Eligible(rows, since, pass), LIMIT);
    OldestCount(Eligible(rows, since, pass), LIMIT);
  }

  /** Rows are printed in order of time, none twice, and the bound is behind them all. */
  ghost predicate InOrder(t: Tail, world: nat -> Event) {
    && InTime(t.printed) && Distinct(t.printed)
    && forall r :: r in t.printed ==> r.ev.ts < t.since && r.ev == world(r.id)
  }

  lemma OrderedAppend(a: seq<Row>, q: seq<Row>, since: real, world: nat -> Event)
    requires InOrder(Tail(since, a), world) && InTime(q) && Distinct(q) && q != []
    requires forall r :: r in q ==> r.ev.ts >= since && r.ev == world(r.id)
    ensures InOrder(Tail(q[|q| - 1].ev.ts + STEP, a + q), world)
    ensures since <= q[|q| - 1].ev.ts + STEP
  {
    var all := a + q;
    assert forall k :: 0 <= k < |q| ==> q[k] in q;
    assert forall k :: 0 <= k < |a| ==> a[k] in a;
    forall i, j | 0 <= i < j < |all| ensures all[i].id != all[j].id && all[i].ev.ts <= all[j].ev.ts {
      if i < |a| && |a| <= j {
        assert all[i] in a && all[j] in q;
      }
    }
  }

  lemma RoundKeeps(t: Tail, rows: seq<Row>, pass: Row -> bool, world: nat -> Event)
    requires Snapshot(rows, world) && InOrder(t, world)
    ensures var u := Round(t, rows, pass);
            && InOrder(u, world) && t.since <= u.since
            && forall r :: r in u.printed ==> r in t.printed || (r in rows && r.ev.ts >= t.since)
  {
    hide Query, InOrder;
    QueryIs(rows, t.since, pass);
    var q := Query(rows, t.since, pass);
    if q != [] { OrderedAppend(t.printed, q, t.since, world); }
  }

  lemma Split(start: real, tables: seq<seq<Row>>, pass: Row -> bool, world: nat -> Event) returns (n: nat, t: Tail)
    requires tables != [] && OneDatabase(tables, world)
    ensures n == |tables| - 1 && OneDatabase(tables[..n], world) && Snapshot(tables[n], world)
    ensures t == Followed(start, tables[..n], pass)
    ensures Followed(start, tables, pass) == Round(t, tables[n], pass)
  {
    n, t := |tables| - 1, Followed(start, tables[..|tables| - 1], pass);
  }

  /** Over any number of rounds on a database that changes in between, rows are printed in
      order of time and none is printed twice. */
  lemma {:induction false} NeverTwice(start: real, tables: seq<seq<Row>>, pass: Row -> bool, world: nat -> Event)
    requires OneDatabase(tables, world)
    ensures InOrder(Followed(start, tables, pass), world)
    decreases |tables|
  {
    if tables == [] {
    } else {
      var n, t := Split(start, tables, pass, world);
      hide *;
      NeverTwice(start, tables[..n], pass, world);
      RoundKeeps(t, tables[n], pass, world);
    }
  }

  /** What a round leaves out: an eligible row that is not printed was cut off by the
      limit, and it can be printed later exactly if it is a microsecond younger than the
      last row printed. */
  lemma LeftOut(t: Tail, rows: seq<Row>, pass: Row -> bool, r: Row)
    requires Retention.Ascending(rows) && r in rows && pass(r) && r.ev.ts >= t.since && r !in Query(rows, t.since, pass)
    ensures var q := Query(rows, t.since, pass);
            && |q| == 500 && q[499].ev.ts <= r.ev.ts
            && (r.ev.ts >= Round(t, rows, pass).since <==> r.ev.ts - q[499].ev.ts >= 0.000001)
  {
    hide Eligible, Oldest;
    var e, q := Eligible(rows, t.since, pass), Query(rows, t.since, pass);
    EligibleAre(rows, t.since, pass);
    EligibleDistinct(rows, t.since, pass);
    OldestEarliest(e, LIMIT);
    OldestCount(e, LIMIT);
    if |e| <= LIMIT { OldestAll(e, LIMIT); }
    assert q[LIMIT - 1] in q;
  }

  /** A row that is older than the bound when it arrives in round `k` is never printed. */
  lemma {:induction false} LateRowIsLost(start: real, tables: seq<seq<Row>>, k: nat, pass: Row -> bool,
                                         world: nat -> Event, r: Row)
    requires OneDatabase(tables, world) && k <= |tables|
    requires r.ev.ts < Followed(start, tables[..k], pass).since && r !in Followed(start, tables[..k], pass).printed
    ensures r !in Followed(start, tables, pass).printed
    ensures r.ev.ts < Followed(start, tables, pass).since
    decreases |tables|
  {
    if k == |tables| {
      assert tables[..k] == tables;
    } else {
      hide *;
      var n, t := Split(start, tables, pass, world);
      assert tables[..n][..k] == tables[..k];
      LateRowIsLost(start, tables[..n], k, pass, world, r);
      NeverTwice(start, tables[..n], pass, world);
      RoundKeeps(t, tables[n], pass, world);
    }
  }

  lemma PrintedAfter(t: Tail, rows: seq<Row>, pass: Row -> bool, r: Row)
    requires r in t.printed
    ensures r in Round(t, rows, pass).printed
  {
    hide Query;
  }

  lemma {:induction false} StaysPrinted(start: real, tables: seq<seq<Row>>, k: nat, pass: Row -> bool, r: Row)
    requires k <= |tables| && r in Followed(start, tables[..k], pass).printed
    ensures r in Followed(start, tables, pass).printed
    decreases |tables|
  {
    if k == |tables| {
      assert tables[..k] == tables;
    } else {
      hide Followed, Round;
      var n := |tables| - 1;
      assert tables[..n][..k] == tables[..k] && tables[..n + 1] == tables;
      StaysPrinted(start, tables[..n], k, pass, r);
      FollowedNext(start, tables, n, pass);
      PrintedAfter(Followed(start, tables[..n], pass), tables[n], pass, r);
    }
  }

  lemma UncutRound(t: Tail, rows: seq<Row>, pass: Row -> bool, r: Row)
    requires r in rows && pass(r) && r.ev.ts >= t.since && |Eligible(rows, t.since, pass)| <= LIMIT
    ensures r in Round(t, rows, pass).printed
  {
    hide Eligible, Oldest;
    EligibleAre(rows, t.since, pass);
    OldestAll(Eligible(rows, t.since, pass), LIMIT);
  }

  /** Exactly when a row is printed, over a whole run: a matching row that is in the table of
      round `k`, where it was not printed before and the limit does not cut, is printed at
      some time if and only if it is not older than the bound of that round. */
  lemma PrintedIff(start: real, tables: seq<seq<Row>>, k: nat, pass: Row -> bool, world: nat -> Event, r: Row)
    requires OneDatabase(tables, world) && k < |tables| && r in tables[k] && pass(r)
    requires r !in Followed(start, tables[..k], pass).printed
    requires |Eligible(tables[k], Followed(start, tables[..k], pass).since, pass)| <= 500
    ensures r in Followed(start, tables, pass).printed <==> r.ev.ts >= Followed(start, tables[..k], pass).since
  {
    hide Followed, Round, Eligible;
    if r.ev.ts >= Followed(start, tables[..k], pass).since {
      UncutRound(Followed(start, tables[..k], pass), tables[k], pass, r);
      FollowedNext(start, tables, k, pass);
      StaysPrinted(start, tables, k + 1, pass, r);
    } else {
      LateRowIsLost(start, tables, k, pass, world, r);
    }
  }

  // --- a run that loses a row ---------------------------------------------------------------------

  function At(ts: real): Event {
    Event(ts, "", PRIORITY_ERR, None, "journal", None, None, None, None, false, None)
  }

  /** The row with id 2 is written after the row with id 1 was printed, and is older. */
  const FIRST := Row(1, At(20.0))
  const LATE := Row(2, At(10.0))

  lemma OneRow(r: Row, since: real)
    requires r.ev.ts >= since
    ensures Query([r], since, _ => true) == [r]
  {
    assert Eligible([r], since, _ => true) == [r] by { assert [r][1..] == []; }
    assert Oldest([r], LIMIT) == [r] + Oldest(Without([r], 0), LIMIT - 1);
    assert Without([r], 0) == [];
  }

  /** Not every row is printed: a row that arrives with an older time stamp than one printed
      before is in the database from then on and never shows. */
  lemma RowsCanBeLost(start: real)
    requires start <= 10.0
    ensures var tables := [[FIRST], [FIRST, LATE]];
            && LATE in tables[1] && LATE.ev.ts >= start
            && LATE !in Followed(start, tables, _ => true).printed
  {
    var tables := [[FIRST], [FIRST, LATE]];
    var pass: Row -> bool := _ => true;
    var world: nat -> Event := id => if id == 1 then At(20.0) else At(10.0);
    assert OneDatabase(tables, world);
    assert tables[..1] == [[FIRST]] && [[FIRST]][..0] == [];
    assert Followed(start, [[FIRST]], pass) == Round(Tail(start, []), [FIRST], pass);
    OneRow(FIRST, start);
    LateRowIsLost(start, tables, 1, pass, world, LATE);
  }
}

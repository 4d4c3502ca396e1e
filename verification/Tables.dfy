/** The database as values: its tables, the effect of each SQL statement on them, and
    the tables that a history of statements leaves behind (hblog/db.py). */
module Tables {
  import opened Model

  datatype Status = Open | Resolved

  /** The columns of the unique index idx_incident_group. */
  datatype Key = Key(unit: string, kind: Kind, signature: string)

  datatype Incident = Incident(
    firstSeen: real,
    lastSeen: real,
    count: nat,
    exitCode: Option<int>,
    signal: Option<int>,
    sampleEventId: nat,
    status: Status)

  datatype Row = Row(id: nat, ev: Event)

  datatype ServiceStatus = ServiceStatus(
    unit: string,
    state: string,
    subState: string,
    result: string,
    restartCount: int,
    lastHeartbeat: real,
    updatedAt: real)

  datatype Db = Db(
    events: seq<Row>,
    nextId: nat,
    incidents: map<Key, Incident>,
    services: map<string, ServiceStatus>,
    meta: map<string, Cursor>)

  const EMPTY := Db([], 1, map[], map[], map[])

  const CURSOR_KEY := "journal_cursor"

  /** One SQL statement that changes the tables. Write stands for the insertion of an
      event together with the incident upsert that follows it. */
  datatype Op =
    | Write(ev: Event)
    | SetMeta(key: string, value: Cursor)
    | Resolve(unit: string, kinds: set<Kind>)
    | DropEvents(cutoff: real)
    | DropIncidents(cutoff: real)
    | DropOldest(limit: nat)
    | PutStatus(status: ServiceStatus)
    | KeepStatuses(units: set<string>)

  /** A committed transaction. */
  type Txn = seq<Op>

  // --- events and incidents ---------------------------------------------------------

  function KeyOf(ev: Event): Key
    requires ev.kind.Some?
  {
    Key(ev.unit.GetOr(""), ev.kind.value, ev.signature.GetOr(KindName(ev.kind.value)))
  }

  function MaxReal(a: real, b: real): real { if a < b then b else a }

  function Coalesce<T>(a: Option<T>, b: Option<T>): Option<T> { if a.Some? then a else b }

  /** INSERT ... ON CONFLICT DO UPDATE on the incidents table. */
  function Upsert(incidents: map<Key, Incident>, ev: Event, id: nat): map<Key, Incident>
    requires ev.kind.Some?
  {
    var k := KeyOf(ev);
    if k in incidents then
      var r := incidents[k];
      incidents[k := r.(lastSeen := MaxReal(r.lastSeen, ev.ts),
                        count := r.count + 1,
                        exitCode := Coalesce(ev.exitCode, r.exitCode),
                        signal := Coalesce(ev.signal, r.signal),
                        status := Open)]
    else
      incidents[k := Incident(ev.ts, ev.ts, 1, ev.exitCode, ev.signal, id, Open)]
  }

  predicate ResolvesKey(unit: string, kinds: set<Kind>, k: Key) {
    k.unit == unit && k.kind in kinds
  }

  predicate Expired(r: Incident, cutoff: real) {
    r.lastSeen < cutoff && r.status == Resolved
  }

  // --- retention of events --------------------------------------------------------------

  /** Rows that are not older than the cutoff, in order. */
  function NotBefore(rows: seq<Row>, cutoff: real): seq<Row> {
    if rows == [] then []
    else if rows[0].ev.ts < cutoff then NotBefore(rows[1..], cutoff)
    else [rows[0]] + NotBefore(rows[1..], cutoff)
  }

  /** Index of the oldest row; rows of the same time stamp go by id. */
  function OldestIndex(rows: seq<Row>): (i: nat)
    requires rows != []
    ensures i < |rows|
  {
    if |rows| == 1 then 0
    else
      var j := 1 + OldestIndex(rows[1..]);
      if rows[0].ev.ts <= rows[j].ev.ts then 0 else j
  }

  function Without<T>(s: seq<T>, i: nat): (r: seq<T>)
    requires i < |s|
    ensures |r| == |s| - 1
  {
    s[..i] + s[i + 1..]
  }

  /** DELETE ... WHERE id IN (SELECT id ... ORDER BY ts ASC LIMIT n). */
  function DropOldestRows(rows: seq<Row>, n: nat): seq<Row>
    decreases n
  {
    if n == 0 || rows == [] then rows
    else DropOldestRows(Without(rows, OldestIndex(rows)), n - 1)
  }

  // --- statements and histories ---------------------------------------------------------

  function Apply(db: Db, op: Op): Db {
    match op
    case Write(ev) =>
      db.(events := db.events + [Row(db.nextId, ev)],
          nextId := db.nextId + 1,
          incidents := if ev.kind.Some? then Upsert(db.incidents, ev, db.nextId) else db.incidents)
    case SetMeta(key, value) =>
      db.(meta := db.meta[key := value])
    case Resolve(unit, kinds) =>
      db.(incidents := map k | k in db.incidents ::
            if ResolvesKey(unit, kinds, k) then db.incidents[k].(status := Resolved) else db.incidents[k])
    case DropEvents(cutoff) =>
      db.(events := NotBefore(db.events, cutoff))
    case DropIncidents(cutoff) =>
      db.(incidents := map k | k in db.incidents && !Expired(db.incidents[k], cutoff) :: db.incidents[k])
    case DropOldest(limit) =>
      db.(events := DropOldestRows(db.events, limit))
    case PutStatus(s) =>
      db.(services := db.services[s.unit := s])
    case KeepStatuses(units) =>
      db.(services := map u | u in db.services && u in units :: db.services[u])
  }

  /** The tables after a history of statements on an empty database. */
  function Replay(ops: seq<Op>): Db {
    if ops == [] then EMPTY else Apply(Replay(ops[..|ops| - 1]), ops[|ops| - 1])
  }

  function ApplyAll(db: Db, ops: seq<Op>): Db {
    if ops == [] then db else Apply(ApplyAll(db, ops[..|ops| - 1]), ops[|ops| - 1])
  }

  lemma {:induction false} ReplayAppend(h: seq<Op>, ops: seq<Op>)
    ensures Replay(h + ops) == ApplyAll(Replay(h), ops)
    decreases |ops|
  {
    if ops == [] {
      assert h + ops == h;
    } else {
      var n := |ops| - 1;
      assert (h + ops)[..|h + ops| - 1] == h + ops[..n];
      ReplayAppend(h, ops[..n]);
    }
  }

  lemma ReplayOne(h: seq<Op>, op: Op)
    ensures Replay(h + [op]) == Apply(Replay(h), op)
  {
    assert (h + [op])[..|h|] == h;
  }

  function Writes(evs: seq<Event>): (ops: seq<Op>)
    ensures |ops| == |evs|
    ensures forall i :: 0 <= i < |evs| ==> ops[i] == Write(evs[i])
  {
    seq(|evs|, i requires 0 <= i < |evs| => Write(evs[i]))
  }

  /** The statements of a commit log, in order. */
  function Flatten(log: seq<Txn>): seq<Op> {
    if log == [] then [] else Flatten(log[..|log| - 1]) + log[|log| - 1]
  }

  lemma {:induction false} FlattenAppend(a: seq<Txn>, b: seq<Txn>)
    ensures Flatten(a + b) == Flatten(a) + Flatten(b)
    decreases |b|
  {
    if b == [] {
      assert a + b == a;
    } else {
      assert (a + b)[..|a + b| - 1] == a + b[..|b| - 1];
      FlattenAppend(a, b[..|b| - 1]);
    }
  }

  lemma FlattenOne(log: seq<Txn>, t: Txn)
    ensures Flatten(log + [t]) == Flatten(log) + t
  {
    assert (log + [t])[..|log|] == log;
  }

  /** The events a history has written, in order. */
  function Written(ops: seq<Op>): seq<Event> {
    if ops == [] then []
    else Written(ops[..|ops| - 1]) + (if ops[|ops| - 1].Write? then [ops[|ops| - 1].ev] else [])
  }

  lemma {:induction false} WrittenAppend(a: seq<Op>, b: seq<Op>)
    ensures Written(a + b) == Written(a) + Written(b)
    decreases |b|
  {
    if b == [] {
      assert a + b == a;
    } else {
      assert (a + b)[..|a + b| - 1] == a + b[..|b| - 1];
      WrittenAppend(a, b[..|b| - 1]);
    }
  }

  lemma {:induction false} WrittenWrites(evs: seq<Event>)
    ensures Written(Writes(evs)) == evs
  {
    if evs != [] {
      assert Writes(evs)[..|evs| - 1] == Writes(evs[..|evs| - 1]);
      WrittenWrites(evs[..|evs| - 1]);
      assert evs == evs[..|evs| - 1] + [evs[|evs| - 1]];
    } else {
      assert Writes(evs) == [];
    }
  }

  /** Ids are given out one by one, whatever is deleted. */
  lemma {:induction false} NextIdCounts(h: seq<Op>)
    ensures Replay(h).nextId == |Written(h)| + 1
  {
    if h != [] { NextIdCounts(h[..|h| - 1]); }
  }
}

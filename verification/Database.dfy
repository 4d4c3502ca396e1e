/** The writer's database connection (hblog/db.py, `Database`). The ghost `log` lists the
    committed transactions, `open` the statements executed since the last commit. */
module Database {
  import opened Model
  import opened Tables
  import Retention

  const SLICE := 1000

  /** The transactions of `n` rounds of the size loop. */
  ghost function Slices(limit: nat, n: nat): seq<Txn> {
    if n == 0 then [] else Slices(limit, n - 1) + [[DropOldest(limit)]]
  }

  /** The transactions of a whole retention run. */
  ghost function PruneTxns(cutoff: real, incidentCutoff: real, slices: nat): seq<Txn> {
    [[DropEvents(cutoff), DropIncidents(incidentCutoff)]] + Slices(SLICE, slices)
  }

  /** The rows left by `n` slices. */
  ghost function AfterSlices(rows: seq<Row>, limit: nat, n: nat): seq<Row> {
    if n == 0 then rows else DropOldestRows(AfterSlices(rows, limit, n - 1), limit)
  }

  /** Before each of `n` slices the file was still over the cap, and there were rows. */
  ghost predicate SlicesDue(maxBytes: real, limit: nat, size: (nat, seq<Row>) -> nat, rows: seq<Row>, n: nat) {
    n > 0 ==>
      && SlicesDue(maxBytes, limit, size, rows, n - 1)
      && size(n - 1, AfterSlices(rows, limit, n - 1)) as real > maxBytes
      && AfterSlices(rows, limit, n - 1) != []
  }

  lemma {:induction false} DropOldestTwice(rows: seq<Row>, m: nat, n: nat)
    ensures DropOldestRows(DropOldestRows(rows, m), n) == DropOldestRows(rows, m + n)
    decreases m
  {
    if m > 0 && rows != [] { DropOldestTwice(Without(rows, OldestIndex(rows)), m - 1, n); }
  }

  lemma DropNone(rows: seq<Row>)
    ensures DropOldestRows(rows, 0) == rows
  {
  }

  /** Slices delete the oldest rows, as one deletion of as many would. */
  lemma {:induction false} SlicesAreOldest(rows: seq<Row>, limit: nat, n: nat)
    ensures AfterSlices(rows, limit, n) == DropOldestRows(rows, n * limit)
  {
    hide DropOldestRows;
    if n == 0 {
      DropNone(rows);
    } else {
      SlicesAreOldest(rows, limit, n - 1);
      DropOldestTwice(rows, (n - 1) * limit, limit);
      assert (n - 1) * limit + limit == n * limit;
    }
  }

  function Cutoff(now: real, days: real): real { now - days * 86400.0 }

  class Database {
    var events: seq<Row>
    var nextId: nat
    var incidents: map<Key, Incident>
    var services: map<string, ServiceStatus>
    var meta: map<string, Cursor>

    ghost var log: seq<Txn>
    ghost var open: seq<Op>

    function Tables(): Db
      reads this
    {
      Db(events, nextId, incidents, services, meta)
    }

    ghost predicate Valid()
      reads this
    {
      Tables() == Replay(Flatten(log) + open)
    }

    /** Opens the file: the tables are those of the transactions that survived. */
    constructor (db: Db, ghost survived: seq<Txn>)
      requires db == Replay(Flatten(survived))
      ensures Valid() && log == survived && open == []
    {
      events, nextId, incidents, services, meta := db.events, db.nextId, db.incidents, db.services, db.meta;
      log, open := survived, [];
      new;
      assert Flatten(survived) + [] == Flatten(survived);
    }

    ghost method Record(op: Op)
      requires Tables() == Apply(Replay(Flatten(log) + open), op)
      modifies this`open
      ensures Valid() && open == old(open) + [op]
    {
      ReplayOne(Flatten(log) + open, op);
      assert Flatten(log) + (open + [op]) == Flatten(log) + open + [op];
      open := open + [op];
    }

    /** Ends the transaction; without changes there is none. */
    method Commit()
      requires Valid()
      modifies this`log, this`open
      ensures Valid() && open == []
      ensures log == if old(open) == [] then old(log) else old(log) + [old(open)]
    {
      ghost var all := Flatten(log) + open;
      if open != [] {
        FlattenOne(log, open);
        log := log + [open];
      }
      open := [];
      assert Flatten(log) + [] == all;
    }

    method GetMeta(key: string) returns (value: Option<Cursor>)
      ensures value == if key in meta then Some(meta[key]) else None
    {
      if key in meta {
        return Some(meta[key]);
      }
      return None;
    }

    /** Does not commit. */
    method SetMeta(key: string, value: Cursor)
      requires Valid()
      modifies this`meta, this`open
      ensures Valid() && open == old(open) + [Op.SetMeta(key, value)]
    {
      meta := meta[key := value];
      Record(Op.SetMeta(key, value));
    }

    /** The whole batch becomes one transaction; every event of it, problem or not, has a
        row behind the old ones. */
    method WriteBatch(evs: seq<Event>)
      requires Valid()
      modifies this
      ensures Valid()
      ensures evs == [] ==> log == old(log) && open == old(open) && Tables() == old(Tables())
      ensures evs != [] ==> log == old(log) + [old(open) + Writes(evs)] && open == []
      ensures |events| == |old(events)| + |evs| && old(events) <= events && nextId == old(nextId) + |evs|
      ensures forall i :: 0 <= i < |evs| ==> events[|old(events)| + i] == Row(old(nextId) + i, evs[i])
      ensures services == old(services) && meta == old(meta)
    {
      hide Replay, Flatten;
      if evs == [] {
        return;
      }
      for i := 0 to |evs|
        invariant Valid() && log == old(log)
        invariant open == old(open) + Writes(evs[..i])
        invariant |events| == |old(events)| + i && old(events) <= events && nextId == old(nextId) + i
        invariant forall j :: 0 <= j < i ==> events[|old(events)| + j] == Row(old(nextId) + j, evs[j])
        invariant services == old(services) && meta == old(meta)
      {
        InsertEvent(evs[i]);
        assert Writes(evs[..i + 1]) == Writes(evs[..i]) + [Write(evs[i])];
      }
      assert evs[..|evs|] == evs;
      Commit();
    }

    method InsertEvent(ev: Event)
      requires Valid()
      modifies this`events, this`nextId, this`incidents, this`open
      ensures Valid() && open == old(open) + [Write(ev)]
      ensures events == old(events) + [Row(old(nextId), ev)] && nextId == old(nextId) + 1
      ensures incidents == if ev.kind.Some? then Upsert(old(incidents), ev, old(nextId)) else old(incidents)
    {
      var id := nextId;
      events := events + [Row(id, ev)];
      nextId := nextId + 1;
      if ev.kind.Some? {
        UpsertIncident(ev, id);
      }
      Record(Write(ev));
    }

    method UpsertIncident(ev: Event, eventId: nat)
      requires ev.kind.Some?
      modifies this`incidents
      ensures incidents == Upsert(old(incidents), ev, eventId)
    {
      var signature := ev.signature.GetOr(KindName(ev.kind.value));
      var unit := ev.unit.GetOr("");
      var k := Key(unit, ev.kind.value, signature);
      if k in incidents {
        var r := incidents[k];
        var lastSeen := if r.lastSeen < ev.ts then ev.ts else r.lastSeen;
        var exitCode := if ev.exitCode.Some? then ev.exitCode else r.exitCode;
        var signal := if ev.signal.Some? then ev.signal else r.signal;
        incidents := incidents[k := r.(lastSeen := lastSeen, count := r.count + 1,
                                       exitCode := exitCode, signal := signal, status := Open)];
      } else {
        incidents := incidents[k := Incident(ev.ts, ev.ts, 1, ev.exitCode, ev.signal, eventId, Open)];
      }
    }

    method UpsertServiceStatus(s: ServiceStatus)
      requires Valid()
      modifies this
      ensures Valid() && log == old(log) + [old(open) + [PutStatus(s)]] && open == []
      ensures services == old(services)[s.unit := s]
    {
      services := services[s.unit := s];
      Record(PutStatus(s));
      Commit();
    }

    /** An empty list means "watch everything" and deletes nothing. */
    method PruneServiceStatus(keep: seq<string>) returns (deleted: nat)
      requires Valid()
      modifies this
      ensures Valid()
      ensures keep == [] ==> log == old(log) && open == old(open) && Tables() == old(Tables()) && deleted == 0
      ensures keep != [] ==>
                && log == old(log) + [old(open) + [KeepStatuses(set u | u in keep)]] && open == []
                && services.Keys == (set u | u in old(services) && u in keep)
                && (forall u :: u in services ==> services[u] == old(services)[u])
                && deleted == |old(services)| - |services|
    {
      if keep == [] {
        return 0;
      }
      var n := |services|;
      ghost var before := services;
      var units := set u | u in keep;
      services := map u | u in services && u in units :: services[u];
      assert services.Keys <= before.Keys;
      SubsetSize(services.Keys, before.Keys);
      assert |services| == |services.Keys| && |before| == |before.Keys|;
      deleted := n - |services|;
      Record(KeepStatuses(units));
      Commit();
    }

    method ResolveIncidentsForUnit(unit: Option<string>, kinds: set<Kind>)
      requires Valid()
      modifies this
      ensures Valid() && open == []
      ensures log == old(log) + [old(open) + [Resolve(unit.GetOr(""), kinds)]]
    {
      var u := unit.GetOr("");
      incidents := map k | k in incidents ::
        if ResolvesKey(u, kinds, k) then incidents[k].(status := Resolved) else incidents[k];
      Record(Resolve(u, kinds));
      Commit();
    }

    method DeleteEventsBefore(cutoff: real) returns (deleted: nat)
      requires Valid()
      modifies this`events, this`open
      ensures Valid() && open == old(open) + [DropEvents(cutoff)]
      ensures events == NotBefore(old(events), cutoff)
      ensures |old(events)| == |events| + deleted
    {
      Retention.NotBeforeIs(events, cutoff);
      deleted := |events|;
      events := NotBefore(events, cutoff);
      deleted := deleted - |events|;
      Record(DropEvents(cutoff));
    }

    method DeleteIncidentsBefore(cutoff: real) returns (deleted: nat)
      requires Valid()
      modifies this`incidents, this`open
      ensures Valid() && open == old(open) + [DropIncidents(cutoff)]
      ensures forall k :: k in incidents <==> k in old(incidents) && !Expired(old(incidents)[k], cutoff)
      ensures forall k :: k in incidents ==> incidents[k] == old(incidents)[k]
      ensures |old(incidents)| == |incidents| + deleted
    {
      ghost var before := incidents;
      deleted := |incidents|;
      incidents := map k | k in incidents && !Expired(incidents[k], cutoff) :: incidents[k];
      SubsetSize(incidents.Keys, before.Keys);
      assert |incidents| == |incidents.Keys| && |before| == |before.Keys|;
      deleted := deleted - |incidents|;
      Record(DropIncidents(cutoff));
    }

    method DropByAge(cutoff: real, incidentCutoff: real) returns (byAge: nat, incidentsPruned: nat)
      requires Valid()
      modifies this`events, this`incidents, this`log, this`open
      ensures Valid() && open == []
      ensures log == old(log) + [old(open) + [DropEvents(cutoff), DropIncidents(incidentCutoff)]]
      ensures events == NotBefore(old(events), cutoff) && |old(events)| == |events| + byAge
      ensures forall k :: k in incidents <==> k in old(incidents) && !Expired(old(incidents)[k], incidentCutoff)
      ensures forall k :: k in incidents ==> incidents[k] == old(incidents)[k]
      ensures |old(incidents)| == |incidents| + incidentsPruned
    {
      hide Replay, Flatten, NotBefore;
      byAge := DeleteEventsBefore(cutoff);
      incidentsPruned := DeleteIncidentsBefore(incidentCutoff);
      assert open == old(open) + [DropEvents(cutoff), DropIncidents(incidentCutoff)];
      Commit();
    }

    method DeleteOldest(limit: nat) returns (deleted: nat)
      requires Valid() && open == [] && limit > 0
      modifies this`events, this`log, this`open
      ensures Valid() && open == []
      ensures events == DropOldestRows(old(events), limit)
      ensures |old(events)| == |events| + deleted
      ensures Retention.KeepsNewest(old(events), events)
      ensures deleted == if limit < |old(events)| then limit else |old(events)|
      ensures deleted == 0 ==> log == old(log)
      ensures deleted > 0 ==> log == old(log) + [[DropOldest(limit)]]
    {
      hide Replay, Flatten;
      var before := events;
      events := DropOldestRows(before, limit);
      Retention.DropOldestKeepsNewest(before, limit);
      deleted := |before| - |events|;
      if deleted > 0 {
        Record(DropOldest(limit));
        assert open == [DropOldest(limit)];
        Commit();
      }
    }

    /** Deletes the oldest events slice by slice until the file is small enough or no
        event is left. `size(i, rows)` is the size of the file measured before slice `i`
        while it holds `rows`; vacuuming may have freed nothing. */
    method DropBySize(maxBytes: real, limit: nat, size: (nat, seq<Row>) -> nat)
      returns (bySize: nat, slices: nat)
      requires Valid() && open == [] && limit > 0
      modifies this`events, this`log, this`open
      ensures Valid() && open == []
      ensures log == old(log) + Slices(limit, slices)
      ensures |old(events)| == |events| + bySize
      ensures Retention.KeepsNewest(old(events), events)
      ensures events == [] || size(slices, events) as real <= maxBytes
      ensures events == AfterSlices(old(events), limit, slices)
      ensures SlicesDue(maxBytes, limit, size, old(events), slices)
    {
      hide Replay, Flatten, DropOldestRows, Retention.KeepsNewest;
      bySize, slices := 0, 0;
      Retention.KeepsNewestSelf(events);
      while size(slices, events) as real > maxBytes
        invariant Valid() && open == []
        invariant |old(events)| == |events| + bySize
        invariant Retention.KeepsNewest(old(events), events)
        invariant log == old(log) + Slices(limit, slices)
        invariant events == AfterSlices(old(events), limit, slices)
        invariant SlicesDue(maxBytes, limit, size, old(events), slices)
        decreases |events|
      {
        ghost var before := events;
        var deleted := DeleteOldest(limit);
        if deleted == 0 {
          break;
        }
        bySize := bySize + deleted;
        slices := slices + 1;
        Retention.KeepsNewestTrans(old(events), before, events);
        assert Slices(limit, slices) == Slices(limit, slices - 1) + [[DropOldest(limit)]];
      }
    }

    /** Retention: events by age, resolved incidents by age, then the size cap. */
    method Prune(now: real, retentionDays: real, incidentRetentionDays: real, maxDbMb: real,
                 size: (nat, seq<Row>) -> nat)
      returns (byAge: nat, bySize: nat, incidentsPruned: nat, ghost slices: nat, ghost aged: seq<Row>)
      requires Valid()
      modifies this`events, this`incidents, this`log, this`open
      ensures Valid() && open == []
      ensures |old(events)| == |events| + byAge + bySize
      ensures Retention.KeepsNewest(old(events), events)
      ensures forall r :: r in events ==> r.ev.ts >= now - retentionDays * 86400.0
      ensures |old(events)| == |aged| + byAge
      ensures forall r :: r in aged <==> r in old(events) && r.ev.ts >= now - retentionDays * 86400.0
      ensures events == AfterSlices(aged, 1000, slices)
      ensures SlicesDue(maxDbMb * 1048576.0, 1000, size, aged, slices)
      ensures events == [] || size(slices, events) as real <= maxDbMb * 1048576.0
      ensures forall k :: k in incidents <==>
                k in old(incidents) && !(old(incidents)[k].lastSeen < now - incidentRetentionDays * 86400.0
                                         && old(incidents)[k].status == Resolved)
      ensures forall k :: k in incidents ==> incidents[k] == old(incidents)[k]
      ensures |old(incidents)| == |incidents| + incidentsPruned
      ensures old(open) == [] ==>
                log == old(log) + PruneTxns(Cutoff(now, retentionDays), Cutoff(now, incidentRetentionDays), slices)
    {
      hide Replay, Flatten, NotBefore, Retention.KeepsNewest, AfterSlices, SlicesDue, Slices;
      var cutoff, incidentCutoff := Cutoff(now, retentionDays), Cutoff(now, incidentRetentionDays);
      assert [] + [DropEvents(cutoff), DropIncidents(incidentCutoff)] == [DropEvents(cutoff), DropIncidents(incidentCutoff)];
      byAge, incidentsPruned := DropByAge(cutoff, incidentCutoff);
      Retention.NotBeforeIs(old(events), cutoff);
      Retention.NotBeforeKeepsNewest(old(events), cutoff);
      aged := events;
      bySize, slices := DropBySize(maxDbMb * 1024.0 * 1024.0, SLICE, size);
      Retention.KeepsNewestTrans(old(events), aged, events);
      assert forall r :: r in events ==> r in aged by { Retention.KeepsOld(aged, events); }
    }
  }

  lemma SubsetSize<T>(a: set<T>, b: set<T>)
    requires a <= b
    ensures |a| <= |b|
  {
    assert b == a + (b - a);
  }
}

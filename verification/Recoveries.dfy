/** From systemctl to the incidents table: a unit that a poll sees recovered has its open
    incidents resolved (hblog/sources/units.py, `poll`; hblog/daemon.py, `_maybe_poll_units`). */
module Recoveries {
  import opened Model
  import opened Tables
  import opened Pipeline
  import opened Incidents
  import opened Systemctl
  import opened Observer
  import opened Readings
  import opened Daemon
  import M = Monitor

  /** The snapshot that the poll takes of `u` shows a recovery. */
  ghost predicate SeenRecovered(cfg: Config, seen: M.Histories, now: real, listing: string,
                                show: seq<string> -> string, u: string)
  {
    var props := Parsed(show(Asked(cfg, listing)));
    && u in Listed(Lines(listing)) && Wanted(cfg, Some(u)) && IsShown(props, u)
    && var h := Now(seen, props, now, u); RecoveredAt(h, |h| - 1)
  }

  ghost predicate MarksRecovery(e: Event, u: string) {
    e.recovery && e.unit == Some(u)
  }

  /** Its marker is among the events of the poll. */
  lemma MarkerIsThere(cfg: Config, seen: M.Histories, now: real, listing: string, show: seq<string> -> string, u: string)
    returns (e: Event)
    requires SeenRecovered(cfg, seen, now, listing, show, u)
    ensures e in M.WholePoll(cfg, seen, now, listing, show).events && MarksRecovery(e, u)
  {
    var props := Parsed(show(Asked(cfg, listing)));
    var h := Now(seen, props, now, u);
    hide Emitted, RecoveredAt, M.WholePoll, Asked, Listed, Lines, Parsed, Wanted;
    RecoveryIff(cfg, u, h, |h| - 1);
    e := Emitted(cfg, u, h, |h| - 1)[0];
    assert Reports(cfg, seen, props, now, u, e);
    PollCovers(cfg, seen, now, listing, show, e);
  }

  lemma {:induction false} LastMarker(evs: seq<Event>, u: string, e: Event) returns (i: nat)
    requires e in evs && MarksRecovery(e, u)
    ensures i < |evs| && evs[i].recovery && evs[i].unit.GetOr("") == u
    ensures forall j :: i < j < |evs| && evs[j].recovery ==> evs[j].unit.GetOr("") != u
    decreases |evs|
  {
    i := |evs| - 1;
    if !(evs[i].recovery && evs[i].unit.GetOr("") == u) {
      assert evs == evs[..i] + [evs[i]];
      i := LastMarker(evs[..i], u, e);
    }
  }

  lemma SubmittedBuffer(p: Pipe, cfg: Config, ev: Event, e: Event)
    requires e in Submitted(p, cfg, ev).buffer
    ensures e in p.buffer || e in Accepted(cfg, [ev])
  {
    AcceptedOne(cfg, ev);
    hide Classify.Classified;
  }

  /** What waits in the buffer waited before or is of these events. */
  lemma {:induction false} HandledBuffer(p: Pipe, cfg: Config, evs: seq<Event>, e: Event)
    requires e in HandledAll(p, cfg, evs).buffer
    ensures e in p.buffer || e in Accepted(cfg, evs)
    decreases |evs|
  {
    if evs != [] {
      hide Submitted, Accepted;
      var n := |evs| - 1;
      var q := HandledAll(p, cfg, evs[..n]);
      var r := if evs[n].recovery then q.(log := q.log + [Resolution(evs[n].unit)]) else q;
      SubmittedBuffer(r, cfg, evs[n], e);
      AcceptedAppend(cfg, evs[..n], [evs[n]]);
      assert evs == evs[..n] + [evs[n]];
      if e in q.buffer { HandledBuffer(p, cfg, evs[..n], e); }
    }
  }

  /** From any state of the pipeline and any memory of the monitor: a poll that sees unit
      `u` recovered leaves no incident of `u` open, whatever its kind but for errors, unless
      a problem with the same key was waiting in the buffer or came with the poll. */
  lemma RecoveredUnitIsResolved(p: Pipe, cfg: Config, watched: Option<set<string>>, seen: M.Histories, now: real,
                                listing: string, show: seq<string> -> string, k: Key)
    requires cfg.Valid() && Settled(p, cfg) && k.kind != Error
    requires SeenRecovered(cfg, seen, now, listing, show, k.unit)
    requires !AnyOf(p.buffer + Accepted(cfg, M.WholePoll(cfg, seen, now, listing, show).events), k)
    ensures var o := M.WholePoll(cfg, seen, now, listing, show);
            var t := Replay(Flatten(AfterPoll(p, cfg, watched, o.events, o.statuses).log)).incidents;
            k in t ==> t[k].status == Resolved
  {
    var e := MarkerIsThere(cfg, seen, now, listing, show, k.unit);
    var o := M.WholePoll(cfg, seen, now, listing, show);
    hide SeenRecovered, M.WholePoll;
    ResolvedByMarker(p, cfg, watched, o.statuses, o.events, e, k);
  }

  lemma ResolvedByMarker(p: Pipe, cfg: Config, watched: Option<set<string>>, sts: seq<ServiceStatus>,
                         evs: seq<Event>, e: Event, k: Key)
    requires cfg.Valid() && Settled(p, cfg) && k.kind != Error
    requires e in evs && MarksRecovery(e, k.unit) && !AnyOf(p.buffer + Accepted(cfg, evs), k)
    ensures var t := Replay(Flatten(AfterPoll(p, cfg, watched, evs, sts).log)).incidents;
            k in t ==> t[k].status == Resolved
  {
    hide Accepted, AfterPoll, Replay, Flatten, StatusTxns, HandledAll, Settled, Belongs, Config.Valid;
    var i := LastMarker(evs, k.unit, e);
    var pre, m, post := evs[..i], evs[i], evs[i + 1..];
    assert evs == pre + ([m] + post);
    assert NoRecoveryOf(post, k) by {
      forall x | x in post && x.recovery ensures x.unit.GetOr("") != k.unit {
        var j :| 0 <= j < |post| && post[j] == x;
        assert x == evs[i + 1 + j];
      }
    }
    PollRecoveryIff(p, cfg, watched, sts, pre, m, post, k);
    AcceptedAppend(cfg, pre, [m] + post);
    var before := HandledAll(p.(log := p.log + StatusTxns(watched, sts)), cfg, pre);
    forall x | x in before.buffer + Accepted(cfg, [m] + post)
      ensures x in p.buffer + Accepted(cfg, evs)
    {
      if x in before.buffer { HandledBuffer(p.(log := p.log + StatusTxns(watched, sts)), cfg, pre, x); }
    }
  }
}

/** The journal reader and the thread around it (hblog/sources/journal.py, `JournalSource`;
    hblog/daemon.py, `_journal_worker`). */
module Reader {
  import opened Model
  import opened Journal

  /** Reads the journal from a cursor on. */
  class JournalSource {
    const env: Env
    const cursor: Option<Cursor>
    var lastCursor: Option<Cursor>
    var position: nat              // the entry the native reader returns next

    constructor (env: Env, cursor: Option<Cursor>)
      ensures this.env == env && this.cursor == cursor && lastCursor == cursor && position == 0
    {
      this.env, this.cursor := env, cursor;
      lastCursor, position := cursor, 0;
    }

    /** Seeks the cursor and skips its entry; a cursor that is not there, or none, means
        the end of the journal, which holds `appended` entries. */
    method Open(appended: nat)
      modifies this`position
      ensures cursor.Some? && cursor.value < appended ==> position == cursor.value + 1
      ensures cursor.None? || cursor.value >= appended ==> position == appended
    {
      if cursor.Some? && cursor.value < appended {
        position := cursor.value;
        position := position + 1;
      } else {
        position := appended;
      }
    }

    /** The next event, if the journal has one. */
    method Next(appended: nat) returns (ev: Option<Event>)
      requires position <= appended <= |env.journal|
      modifies this`position, this`lastCursor
      ensures old(position) == appended ==> ev == None && position == old(position) && lastCursor == old(lastCursor)
      ensures old(position) < appended ==>
                && ev == Some(env.Raw(old(position)))
                && position == old(position) + 1 && lastCursor == Some(old(position))
    {
      if position == appended {
        return None;
      }
      lastCursor := Some(position);
      ev := Some(env.journal[position].(cursor := lastCursor));
      position := position + 1;
    }
  }

  /** A life of one reader inside the thread: how far the journal has grown, how many
      entries are taken over, and whether the next one is read and lost in the failure. */
  datatype Session = Session(appended: nat, taken: nat, lost: bool)

  /** The journal grows from session to session. */
  ghost predicate Growing(env: Env, initial: Cursor, sessions: seq<Session>) {
    && (forall k :: 0 <= k < |sessions| ==> initial < sessions[k].appended <= |env.journal|)
    && (forall k, m :: 0 <= k < m < |sessions| ==> sessions[k].appended <= sessions[m].appended)
  }

  /** The entries from `lo` up to, not including, `hi`, as the reader hands them over. */
  function Entries(env: Env, lo: nat, hi: nat): (evs: seq<Event>)
    requires lo <= hi <= |env.journal|
    ensures |evs| == hi - lo
    ensures forall i :: 0 <= i < |evs| ==> evs[i] == env.Raw(lo + i)
  {
    seq(hi - lo, i requires 0 <= i < hi - lo => env.Raw(lo + i))
  }

  /** However often the reader fails and reconnects, the thread queues the entries behind
      the initial cursor one by one: none twice, none left out, in order. */
  method JournalWorker(env: Env, initial: Cursor, sessions: seq<Session>) returns (queued: seq<Event>, cursor: Cursor)
    requires initial < |env.journal| && Growing(env, initial, sessions)
    ensures initial <= cursor < |env.journal|
    ensures queued == Entries(env, initial + 1, cursor + 1)
    ensures sessions != [] && sessions[|sessions| - 1].taken >= |env.journal| ==>
              cursor + 1 == sessions[|sessions| - 1].appended
  {
    queued, cursor := [], initial;
    for k := 0 to |sessions|
      invariant initial <= cursor < |env.journal|
      invariant forall m :: k <= m < |sessions| ==> cursor < sessions[m].appended
      invariant queued == Entries(env, initial + 1, cursor + 1)
      invariant k > 0 && sessions[k - 1].taken >= |env.journal| ==> cursor + 1 == sessions[k - 1].appended
    {
      var s := sessions[k];
      var src := new JournalSource(env, Some(cursor));
      src.Open(s.appended);
      var n := 0;
      while n < s.taken && src.position < s.appended
        invariant src.position == cursor + 1 <= s.appended && initial <= cursor && n <= s.taken
        invariant queued == Entries(env, initial + 1, cursor + 1)
        invariant n <= cursor
      {
        var ev := src.Next(s.appended);
        queued := queued + [ev.value];
        cursor := ev.value.cursor.GetOr(cursor);
        n := n + 1;
      }
      if s.lost {
        var ev := src.Next(s.appended);
      }
    }
  }
}

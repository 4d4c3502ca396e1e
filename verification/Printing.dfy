/** Names printed between quotes, and reading them back as TOML (hblog/config.py,
    `format_watch_units`). */
module Printing {
  import opened Model
  import opened Text
  import opened Toml
  import opened TomlLaws
  import opened ConfigFile
  import opened WatchList

  // --- names that survive being printed between quotes ----------------------------------------

  predicate IsPlainChar(c: char) { c != '"' && c != '\\' && !IsControl(c) }

  predicate Plain(s: string) { forall i :: 0 <= i < |s| ==> IsPlainChar(s[i]) }

  lemma {:induction false} PlainReads(u: string, rest: string)
    requires Plain(u)
    ensures BasicString(u + ("\"" + rest)) == Some((u, rest))
  {
    var s := u + ("\"" + rest);
    if u == [] {
      assert s == "\"" + rest && s[1..] == rest;
    } else {
      DropAppend(u, "\"" + rest, 1);
      assert s[0] == u[0];
      PlainReads(u[1..], rest);
      assert u == [u[0]] + u[1..];
    }
  }

  lemma EscapeStaysInside(v: string, rest: string)
    requires v != []
    ensures var e := Escape(v + ("\",\n" + rest)); e.Some? ==> e.value.1 <= |v|
  {
    var t := "\",\n" + rest;
    var s := v + t;
    assert s[0] == v[0] && s[|v|] == '"';
    var e := Escape(s);
    if e.Some? && e.value.1 > 1 {
      var h := s[1..e.value.1];
      assert AllHex(h);
      assert forall k :: 1 <= k < e.value.1 ==> s[k] == h[k - 1];
    }
  }

  /** Reading a printed name never yields more characters than the name has, and fewer if
      the name is not plain: an escape shrinks, a quote ends the string early. */
  lemma {:induction false} NeverLonger(u: string, rest: string)
    ensures var r := BasicString(u + ("\",\n" + rest));
            r.Some? ==> |r.value.0| <= |u| && (!Plain(u) ==> |r.value.0| < |u|)
    decreases |u|
  {
    var tail := "\",\n" + rest;
    var s := u + tail;
    if u == [] {
      assert s[0] == '"';
    } else if IsPlainChar(u[0]) {
      DropAppend(u, tail, 1);
      NeverLonger(u[1..], rest);
    } else if u[0] == '\\' {
      DropAppend(u, tail, 1);
      var e := Escape(s[1..]);
      if |u| == 1 {
        assert s[1..] == tail && tail[0] == '"' && tail[1] == ',' && tail[2] == '\n';
        assert s[2..][0] == ',' && s[2..][1..][0] == '\n';
        assert BasicString(s[2..][1..]) == None;
        assert BasicString(s[2..]) == None;
      } else if e.Some? {
        EscapeStaysInside(u[1..], rest);
        DropAppend(u, tail, 1 + e.value.1);
        NeverLonger(u[1 + e.value.1..], rest);
      }
    }
  }

  // --- names without quotes -------------------------------------------------------------------

  predicate QuoteFree(u: string) { forall i :: 0 <= i < |u| ==> u[i] != '"' }

  /** What a printed name without quotes is read as. */
  function Decoded(u: string): Option<string>
    decreases |u|
  {
    if u == [] then Some([])
    else if IsControl(u[0]) then None
    else if u[0] == '\\' then
      match Escape(u[1..])
      case None => None
      case Some((c, n)) => PutFirst(c, Decoded(u[1 + n..]))
    else PutFirst(u[0], Decoded(u[1..]))
  }

  function PutFirst(c: char, r: Option<string>): Option<string> {
    if r.Some? then Some([c] + r.value) else None
  }

  lemma EscapeInside(v: string, rest: string)
    requires v != []
    ensures Escape(v + ("\",\n" + rest)) == Escape(v)
  {
    var t := "\",\n" + rest;
    assert v + [] == v;
    EscapeStaysInside(v, rest);
    if Escape(v + t).Some? { EscapeLocal(v, t, []); }
    if Escape(v).Some? { EscapeLocal(v, [], t); }
  }

  lemma LoneBackslash(rest: string)
    ensures BasicString("\\" + ("\",\n" + rest)) == None
  {
    var t := "\",\n" + rest;
    var s := "\\" + t;
    assert s[1..] == t && t[0] == '"' && t[1] == ',' && t[2] == '\n';
    assert s[2..] == t[1..] && t[1..][1..] == t[2..];
    assert BasicString(t[2..]) == None;
    assert BasicString(t[1..]) == None;
  }

  lemma {:induction false} DecodedReads(u: string, rest: string)
    requires QuoteFree(u)
    ensures BasicString(u + ("\",\n" + rest))
            == if Decoded(u).Some? then Some((Decoded(u).value, ",\n" + rest)) else None
    decreases |u|
  {
    var tail := "\",\n" + rest;
    var s := u + tail;
    if u == [] {
      assert s == tail && tail[0] == '"' && tail[1..] == ",\n" + rest;
    } else if u == "\\" {
      LoneBackslash(rest);
      assert u[1..] == [];
    } else {
      DropAppend(u, tail, 1);
      if u[0] == '\\' {
        EscapeInside(u[1..], rest);
        var e := Escape(u[1..]);
        if e.Some? {
          DropAppend(u, tail, 1 + e.value.1);
          DecodedReads(u[1 + e.value.1..], rest);
        }
      } else {
        DecodedReads(u[1..], rest);
      }
    }
  }

  lemma {:induction false} PlainDecodes(p: string, q: string)
    requires Plain(p)
    ensures Decoded(p + q) == if Decoded(q).Some? then Some(p + Decoded(q).value) else None
  {
    if p == [] {
      assert p + q == q;
      if Decoded(q).Some? { assert p + Decoded(q).value == Decoded(q).value; }
    } else {
      DropAppend(p, q, 1);
      assert (p + q)[0] == p[0] && IsPlainChar(p[0]);
      PlainDecodes(p[1..], q);
      if Decoded(q).Some? { assert [p[0]] + (p[1..] + Decoded(q).value) == p + Decoded(q).value; }
    }
  }

  /** A systemd escape, a backslash and an x, is none of TOML. */
  lemma SystemdEscapeFails(p: string, q: string)
    requires Plain(p)
    ensures Decoded(p + ("\\x" + q)) == None
  {
    var t := "\\x" + q;
    assert t[0] == '\\' && t[1..][0] == 'x';
    PlainDecodes(p, t);
  }

  predicate AllPlain(units: seq<string>) { forall i :: 0 <= i < |units| ==> Plain(units[i]) }

  predicate AllQuoteFree(units: seq<string>) { forall i :: 0 <= i < |units| ==> QuoteFree(units[i]) }

  /** What a printed list is read as, if every name can be read. */
  function DecodedAll(units: seq<string>): Option<seq<string>> {
    if units == [] then Some([])
    else
      match Decoded(units[0])
      case None => None
      case Some(u) => if DecodedAll(units[1..]).Some? then Some([u] + DecodedAll(units[1..]).value) else None
  }

  lemma {:induction false} PlainDecodedAll(units: seq<string>)
    requires AllPlain(units)
    ensures AllQuoteFree(units) && DecodedAll(units) == Some(units)
  {
    if units != [] {
      assert Plain(units[0]);
      assert units[0] + [] == units[0];
      PlainDecodes(units[0], []);
      PlainDecodedAll(units[1..]);
      assert units == [units[0]] + units[1..];
    }
  }

  lemma {:induction false} OneFails(units: seq<string>, u: string)
    requires u in units && Decoded(u) == None
    ensures DecodedAll(units) == None
  {
    if u != units[0] { OneFails(units[1..], u); }
  }

  // --- printed lists ------------------------------------------------------------------------------

  lemma SkipOne(sep: bool, c: char, s: string)
    requires IsBlank(c) || c == '\n'
    ensures Array(sep, [c] + s) == Array(sep, s)
  {
    assert ([c] + s)[1..] == s;
  }

  lemma LineReads(u: string, more: string)
    ensures Array(false, Line(u) + more)
            == match BasicString(u + ("\",\n" + more)) {
                 case None => None
                 case Some((item, rest)) => Cons(item, Array(true, rest))
               }
  {
    var q := "\"" + (u + ("\",\n" + more));
    assert Line(u) + more == " " + (" " + (" " + (" " + q)));
    SkipOne(false, ' ', q);
    SkipOne(false, ' ', " " + q);
    SkipOne(false, ' ', " " + (" " + q));
    SkipOne(false, ' ', " " + (" " + (" " + q)));
    assert q[0] == '"' && q[1..] == u + ("\",\n" + more);
  }

  lemma CommaReads(more: string)
    ensures Array(true, ",\n" + more) == Array(false, more)
  {
    assert (",\n" + more)[1..] == "\n" + more;
    SkipOne(false, '\n', more);
  }

  lemma {:induction false} BodyReads(units: seq<string>, post: string)
    requires AllQuoteFree(units)
    ensures Array(false, Body(units) + ("]" + post))
            == if DecodedAll(units).Some? then Some((DecodedAll(units).value, post)) else None
  {
    hide BasicString, Line, Decoded;
    var s := Body(units) + ("]" + post);
    if units == [] {
      assert s == "]" + post && s[0] == ']' && s[1..] == post;
    } else {
      var u, more := units[0], Body(units[1..]) + ("]" + post);
      assert s == Line(u) + more;
      hide Array;
      assert QuoteFree(u);
      LineReads(u, more);
      DecodedReads(u, more);
      CommaReads(more);
      BodyReads(units[1..], post);
    }
  }

  /** Whatever the names: if the printed list is read as itself all names are plain. */
  lemma {:induction false} BodyReadsOnlyPlain(units: seq<string>, post: string)
    requires var x := Array(false, Body(units) + ("]" + post)); x.Some? && x.value.0 == units
    ensures AllPlain(units)
  {
    var s := Body(units) + ("]" + post);
    if units != [] {
      hide BasicString, Line, Array;
      var u, more := units[0], Body(units[1..]) + ("]" + post);
      assert s == Line(u) + more;
      LineReads(u, more);
      NeverLonger(u, more);
      var b := BasicString(u + ("\",\n" + more)).value;
      assert b.0 == ([b.0] + Array(true, b.1).value.0)[0] == u;
      assert ([b.0] + Array(true, b.1).value.0)[1..] == Array(true, b.1).value.0;
      PlainRest(u, more);
      CommaReads(more);
      BodyReadsOnlyPlain(units[1..], post);
      assert forall i :: 1 <= i < |units| ==> units[i] == units[1..][i - 1];
    }
  }

  lemma PlainRest(u: string, more: string)
    requires Plain(u)
    ensures BasicString(u + ("\",\n" + more)) == Some((u, ",\n" + more))
  {
    assert "\",\n" + more == "\"" + (",\n" + more);
    PlainReads(u, ",\n" + more);
  }

  lemma InnerReads(units: seq<string>, post: string)
    ensures Array(false, Inner(units) + ("]" + post)) == Array(false, Body(units) + ("]" + post))
  {
    hide Array;
    if units == [] {
      assert Inner(units) == Body(units);
    } else {
      hide Body;
      SkipOne(false, '\n', Body(units) + ("]" + post));
      assert Inner(units) + ("]" + post) == "\n" + (Body(units) + ("]" + post));
    }
  }

  /** Reading the printed array gives the list if and only if no name contains a quote, a
      backslash or a control character other than the tab. */
  lemma PrintedListReadsIff(units: seq<string>, post: string)
    ensures Array(false, (Bracketed(units) + post)[1..]) == Some((units, post)) <==> AllPlain(units)
    ensures var x := Array(false, (Bracketed(units) + post)[1..]);
            x.Some? && x.value.0 == units ==> AllPlain(units)
  {
    hide Array, Inner, Bracketed;
    BracketedShape(units, post);
    InnerReads(units, post);
    if AllPlain(units) {
      PlainDecodedAll(units);
      BodyReads(units, post);
    }
    var x := Array(false, Body(units) + ("]" + post));
    if x.Some? && x.value.0 == units { BodyReadsOnlyPlain(units, post); }
  }

  /** Without quotes in the names it is always clear what is read: the names with their
      escapes resolved, or nothing if one name has a control character or an escape that
      TOML does not know. */
  lemma QuoteFreeListReads(units: seq<string>, post: string)
    requires AllQuoteFree(units)
    ensures Array(false, (Bracketed(units) + post)[1..])
            == if DecodedAll(units).Some? then Some((DecodedAll(units).value, post)) else None
  {
    hide Array, Inner, Bracketed;
    BracketedShape(units, post);
    InnerReads(units, post);
    BodyReads(units, post);
  }
}

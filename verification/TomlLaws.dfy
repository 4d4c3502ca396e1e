/** How the reader of TOML texts behaves on parts of texts: what it has read does not depend
    on what follows, so documents can be put together from whole lines. */
module TomlLaws {
  import opened Model
  import opened Text
  import opened Toml

  predicate EndsNewline(s: string) { s != [] && s[|s| - 1] == '\n' }

  // --- runs that a text bounds ------------------------------------------------------------------

  lemma RunLocal(a: string, r: string, p: char -> bool)
    requires a != [] && !p(a[|a| - 1])
    ensures Run(a + r, p) == Run(a, p) < |a|
  {
    RunHolds(a, p);
    RunAppend(a, r, p);
  }

  // --- strings ------------------------------------------------------------------------------------

  lemma {:induction false} BasicSuffix(s: string)
    ensures var b := BasicString(s);
            b.Some? ==>
              var n := |s| - |b.value.1|;
              b.value.1 == s[n..] && n > 0 && s[n - 1] == '"' && forall i :: 0 <= i < n ==> s[i] != '\n'
    decreases |s|
  {
    var b := BasicString(s);
    if b.Some? && s[0] != '"' {
      var k := if s[0] == '\\' then 1 + Escape(s[1..]).value.1 else 1;
      BasicSuffix(s[k..]);
      if s[0] == '\\' { EscapeNoNewline(s[1..]); }
      assert forall i :: k <= i < |s| ==> s[i] == s[k..][i - k];
    }
  }

  lemma EscapeNoNewline(s: string)
    ensures var e := Escape(s); e.Some? ==> forall i :: 0 <= i < e.value.1 ==> s[i] != '\n'
  {
    var e := Escape(s);
    if e.Some? && e.value.1 > 1 {
      var h := s[1..e.value.1];
      assert forall i :: 1 <= i < e.value.1 ==> s[i] == h[i - 1];
    }
  }

  lemma EscapeLocal(b: string, r: string, q: string)
    requires Escape(b + r).Some? && Escape(b + r).value.1 <= |b|
    ensures Escape(b + q) == Escape(b + r)
  {
    var n := Escape(b + r).value.1;
    assert (b + r)[0] == b[0] == (b + q)[0];
    if n > 1 {
      assert (b + r)[1..n] == b[1..n] == (b + q)[1..n];
    }
  }

  lemma {:induction false} BasicLocal(a: string, r: string, q: string, v: string)
    requires BasicString(a + r) == Some((v, r))
    ensures BasicString(a + q) == Some((v, q))
    decreases |a|
  {
    assert |a| > 0;
    DropAppend(a, r, 1);
    DropAppend(a, q, 1);
    if a[0] == '"' {
      assert |a| == 1;
    } else if a[0] == '\\' {
      var n := Escape(a[1..] + r).value.1;
      assert |BasicString((a + r)[1 + n..]).value.1| < |a + r| - 1 - n;
      EscapeLocal(a[1..], r, q);
      DropAppend(a, r, 1 + n);
      DropAppend(a, q, 1 + n);
      BasicLocal(a[1 + n..], r, q, BasicString(a[1 + n..] + r).value.0);
    } else {
      BasicLocal(a[1..], r, q, BasicString(a[1..] + r).value.0);
    }
  }

  // --- arrays -------------------------------------------------------------------------------------

  lemma {:induction false} ArraySuffix(sep: bool, s: string)
    ensures var x := Array(sep, s);
            x.Some? ==> var n := |s| - |x.value.1|; x.value.1 == s[n..] && n > 0 && s[n - 1] == ']'
    decreases |s|
  {
    if Array(sep, s).Some? {
      if IsBlank(s[0]) || s[0] == '\n' {
        ArraySuffix(sep, s[1..]);
      } else if s[0] == '#' {
        ArraySuffix(sep, s[Run(s, NotControl)..]);
      } else if s[0] == ',' {
        ArraySuffix(false, s[1..]);
      } else if s[0] == '"' {
        BasicSuffix(s[1..]);
        ArraySuffix(true, BasicString(s[1..]).value.1);
      }
    }
  }

  lemma {:induction false} ArrayLocal(sep: bool, a: string, r: string, q: string, x: seq<string>)
    requires Array(sep, a + r) == Some((x, r))
    ensures Array(sep, a + q) == Some((x, q))
    decreases |a|
  {
    assert |a| > 0;
    DropAppend(a, r, 1);
    DropAppend(a, q, 1);
    if IsBlank(a[0]) || a[0] == '\n' {
      ArrayLocal(sep, a[1..], r, q, x);
    } else if a[0] == '#' {
      var n := Run(a + r, NotControl);
      assert |Array(sep, (a + r)[n..]).value.1| < |a + r| - n;
      RunOfBoth(a, r, q, NotControl);
      DropAppend(a, r, n);
      DropAppend(a, q, n);
      ArrayLocal(sep, a[n..], r, q, x);
    } else if a[0] == ']' {
      assert |a| == 1;
    } else if a[0] == ',' {
      ArrayLocal(false, a[1..], r, q, x);
    } else {
      ItemLocal(a[1..], r, q);
      var rest := BasicString(a[1..] + r).value.1;
      var b := rest[..|rest| - |r|];
      ArrayLocal(true, b, r, q, Array(true, rest).value.0);
    }
  }

  lemma RunOfBoth(a: string, r: string, q: string, p: char -> bool)
    requires Run(a + r, p) < |a|
    ensures Run(a + q, p) == Run(a + r, p)
  {
    RunAppend(a, r, p);
    RunAppend(a, q, p);
  }

  /** A string that is followed by more of the array. */
  lemma ItemLocal(b: string, r: string, q: string)
    requires BasicString(b + r).Some? && Array(true, BasicString(b + r).value.1).Some?
    requires Array(true, BasicString(b + r).value.1).value.1 == r
    ensures var s := BasicString(b + r).value; var c := s.1[..|s.1| - |r|];
            && s.1 == c + r && |c| <= |b|
            && BasicString(b + q) == Some((s.0, c + q))
  {
    hide *;
    BasicSuffix(b + r);
    var s := BasicString(b + r).value;
    var n := |b + r| - |s.1|;
    assert |r| < |s.1|;
    CutAt(b, r, n);
    CutAt(b, q, n);
    BasicLocal(b[..n], b[n..] + r, b[n..] + q, s.0);
    assert s.1[..|s.1| - |r|] == b[n..];
  }

  lemma CutAt(b: string, r: string, n: nat)
    requires n <= |b|
    ensures (b + r)[n..] == b[n..] + r && b[..n] + (b[n..] + r) == b + r
  {
  }

  // --- values -------------------------------------------------------------------------------------

  lemma ValueSuffix(s: string)
    ensures var x := ReadValue(s);
            x.Some? ==> var n := |s| - |x.value.1|; x.value.1 == s[n..] && n > 0 && s[n - 1] != '\n'
  {
    var x := ReadValue(s);
    if x.Some? {
      if s[0] == '[' {
        ArraySuffix(false, s[1..]);
      } else if s[0] == '"' {
        BasicSuffix(s[1..]);
      } else {
        RunHolds(s, IsBareChar);
      }
    }
  }

  lemma ValueLocal(a: string, r: string, q: string, v: Value)
    requires ReadValue(a + r) == Some((v, r))
    requires q == [] || !IsBareChar(q[0])
    ensures ReadValue(a + q) == Some((v, q))
  {
    assert |a| > 0;
    DropAppend(a, r, 1);
    DropAppend(a, q, 1);
    if a[0] == '[' {
      ArrayLocal(false, a[1..], r, q, v.items);
    } else if a[0] == '"' {
      BasicLocal(a[1..], r, q, v.text);
    } else {
      var n := Run(a + r, IsBareChar);
      assert n == |a|;
      RunHolds(a + r, IsBareChar);
      assert forall i :: 0 <= i < |a| ==> a[i] == (a + r)[i];
      RunFull(a, IsBareChar);
      RunAppend(a, q, IsBareChar);
      assert (a + r)[..n] == a == (a + q)[..n];
      DropAppend(a, q, |a|);
    }
  }

  // --- lines --------------------------------------------------------------------------------------

  lemma BlanksLocal(a: string, r: string)
    requires EndsNewline(a)
    ensures SkipBlanks(a + r) == SkipBlanks(a) + r && EndsNewline(SkipBlanks(a))
  {
    RunLocal(a, r, IsBlank);
    DropAppend(a, r, Run(a, IsBlank));
  }

  /** `r` is what is left of `s` behind some characters of the same line. */
  ghost predicate Skips(s: string, r: string) {
    |r| <= |s| && r == s[|s| - |r|..] && forall i :: 0 <= i < |s| - |r| ==> s[i] != '\n'
  }

  lemma SkipsOn(s: string, r: string, q: string)
    requires Skips(s, r) && Skips(r, q)
    ensures Skips(s, q)
  {
    var n := |s| - |r|;
    assert forall i :: n <= i < |s| ==> s[i] == r[i - n];
  }

  lemma SkipsDrop(s: string, n: nat)
    requires n <= |s| && forall i :: 0 <= i < n ==> s[i] != '\n'
    ensures Skips(s, s[n..])
  {
  }

  lemma SkipsWhile(s: string, p: char -> bool)
    requires !p('\n')
    ensures Skips(s, s[Run(s, p)..])
  {
    RunHolds(s, p);
    SkipsDrop(s, Run(s, p));
  }

  lemma SkipsOne(s: string)
    requires s != [] && s[0] != '\n'
    ensures Skips(s, s[1..])
  {
  }

  /** What is left of the line, and where the next one begins. */
  lemma SkipsRun(s: string, r: string)
    requires Skips(s, r)
    ensures Run(s, NotNewline) == |s| - |r| + Run(r, NotNewline)
    ensures Run(r, NotNewline) < |r| ==> s[Run(s, NotNewline) + 1..] == r[Run(r, NotNewline) + 1..]
    ensures Run(r, NotNewline) < |r| <==> Run(s, NotNewline) < |s|
  {
    var n := |s| - |r|;
    assert s == s[..n] + r;
    RunFull(s[..n], NotNewline);
    RunAppend(s[..n], r, NotNewline);
    DropAppend(s[..n], r, Run(r, NotNewline) + 1);
  }

  lemma CommentSkips(s: string)
    ensures Skips(s, SkipComment(s))
    ensures NextLine(s) == (var v := SkipComment(s); if v == [] then Some([]) else if v[0] == '\n' then Some(v[1..]) else None)
  {
    var u := SkipBlanks(s);
    SkipsWhile(s, IsBlank);
    SkipsWhile(u, NotControl);
    if u != [] && u[0] == '#' { SkipsOn(s, u, u[Run(u, NotControl)..]); }
  }

  lemma CommentAppend(a: string, r: string)
    requires EndsNewline(a)
    ensures SkipComment(a + r) == SkipComment(a) + r && EndsNewline(SkipComment(a))
  {
    BlanksLocal(a, r);
    var u := SkipBlanks(a);
    if u[0] == '#' {
      RunLocal(u, r, NotControl);
      DropAppend(u, r, Run(u, NotControl));
    }
  }

  /** What ends a line is not changed by what follows the line. */
  lemma NextLineAppend(a: string, r: string)
    requires EndsNewline(a)
    ensures var n := NextLine(a);
            && NextLine(a + r) == (if n.Some? then Some(n.value + r) else None)
            && (n.Some? ==> n.value == [] || EndsNewline(n.value))
  {
    hide NextLine, SkipComment;
    CommentSkips(a);
    CommentSkips(a + r);
    CommentAppend(a, r);
    DropAppend(SkipComment(a), r, 1);
  }

  /** The next line begins where the present one ends. */
  lemma NextLineIs(s: string)
    requires NextLine(s).Some?
    ensures var n := Run(s, NotNewline);
            NextLine(s).value == if n < |s| then s[n + 1..] else []
  {
    hide NextLine, SkipComment, Skips;
    CommentSkips(s);
    SkipsRun(s, SkipComment(s));
  }

  /** A suffix that is empty or begins a line. */
  ghost predicate NewLine(s: string, r: string) {
    |r| <= |s| && r == s[|s| - |r|..] && (r != [] ==> |r| < |s| && s[|s| - |r| - 1] == '\n')
  }

  lemma NextLineSuffix(s: string)
    ensures NextLine(s).Some? ==> NewLine(s, NextLine(s).value)
  {
    hide NextLine;
    if NextLine(s).Some? { NextLineIs(s); RunHolds(s, NotNewline); NewLineAt(s, Run(s, NotNewline)); }
  }

  lemma NewLineAt(s: string, n: nat)
    requires n <= |s| && (n < |s| ==> s[n] == '\n')
    ensures NewLine(s, if n < |s| then s[n + 1..] else [])
  {
  }

  lemma NewLineOn(s: string, r: string, q: string)
    requires |r| <= |s| && r == s[|s| - |r|..] && NewLine(r, q)
    ensures NewLine(s, q)
  {
  }

  lemma NextLineLocal(a: string, r: string, q: string)
    requires EndsNewline(a) && NextLine(a + r) == Some(r)
    ensures NextLine(a + q) == Some(q)
  {
    NextLineAppend(a, r);
    NextLineAppend(a, q);
    var n := NextLine(a).value;
    assert n + r == r ==> |n| == 0;
    assert [] + q == q;
  }

  // --- statements ---------------------------------------------------------------------------------

  /** The text from the equals sign on. */
  lemma KeyParts(s: string) returns (v: string)
    requires ReadKey(s).Some?
    ensures v == SkipBlanks(s[Run(s, IsKeyChar)..]) && v != [] && v[0] == '='
    ensures ReadKey(s).value.1 == SkipBlanks(v[1..])
  {
    v := SkipBlanks(s[Run(s, IsKeyChar)..]);
  }

  lemma KeySuffix(s: string)
    requires ReadKey(s).Some?
    ensures Skips(s, ReadKey(s).value.1)
  {
    hide *;
    var v := KeyParts(s);
    var t := s[Run(s, IsKeyChar)..];
    NewlineIsNoKey();
    SkipsWhile(s, IsKeyChar);
    SkipsBlanks(t);
    SkipsOn(s, t, v);
    SkipsOne(v);
    SkipsOn(s, v, v[1..]);
    SkipsBlanks(v[1..]);
    SkipsOn(s, v[1..], SkipBlanks(v[1..]));
  }

  lemma NewlineIsNoKey()
    ensures !IsKeyChar('\n')
  {
  }

  lemma SkipsBlanks(s: string)
    ensures Skips(s, SkipBlanks(s))
  {
    SkipsWhile(s, IsBlank);
  }

  lemma SkipsIs(s: string, r: string)
    requires Skips(s, r)
    ensures |r| <= |s| && r == s[|s| - |r|..]
  {
  }

  lemma StmtSuffix(s: string)
    ensures ReadStmt(s).Some? ==> NewLine(s, ReadStmt(s).value.1)
  {
    hide NextLine, ReadValue, ReadKey, Run, NewLine, Skips;
    if ReadStmt(s).Some? {
      var rest := ReadStmt(s).value.1;
      if s[0] == '[' {
        var after := s[Run(s[1..], IsHeaderChar) + 2..];
        NextLineSuffix(after);
        NewLineOn(s, after, rest);
      } else {
        KeySuffix(s);
        var w := ReadKey(s).value.1;
        SkipsIs(s, w);
        ValueSuffix(w);
        var after := ReadValue(w).value.1;
        NextLineSuffix(after);
        NewLineOn(w, after, rest);
        NewLineOn(s, w, rest);
      }
    }
  }

  lemma KeyAppend(a: string, r: string)
    requires EndsNewline(a)
    ensures var k := ReadKey(a);
            && ReadKey(a + r) == (if k.Some? then Some((k.value.0, k.value.1 + r)) else None)
            && (k.Some? ==> EndsNewline(k.value.1))
  {
    var n := Run(a, IsKeyChar);
    RunLocal(a, r, IsKeyChar);
    DropAppend(a, r, n);
    assert (a + r)[..n] == a[..n];
    BlanksLocal(a[n..], r);
    var v := SkipBlanks(a[n..]);
    if n > 0 && v[0] == '=' {
      assert |v| > 1;
      DropAppend(v, r, 1);
      BlanksLocal(v[1..], r);
    }
  }

  /** A value that ends before the end of the line it ends on. */
  lemma ValueAppend(a: string, r: string)
    requires EndsNewline(a) && ReadValue(a).Some?
    ensures var x := ReadValue(a).value;
            ReadValue(a + r) == Some((x.0, x.1 + r)) && EndsNewline(x.1)
  {
    ValueSuffix(a);
    var x := ReadValue(a).value;
    var b := a[..|a| - |x.1|];
    assert a == b + x.1 && a + r == b + (x.1 + r);
    assert x.1 != [];
    if x.0.Bare? { assert Run(a, IsBareChar) == |b| && !IsBareChar(x.1[0]); }
    if !x.0.Bare? { NotBareLocal(b, x.1, x.1 + r, x.0); } else { ValueLocal(b, x.1, x.1 + r, x.0); }
  }

  lemma NotBareLocal(a: string, r: string, q: string, v: Value)
    requires ReadValue(a + r) == Some((v, r)) && !v.Bare?
    ensures ReadValue(a + q) == Some((v, q))
  {
    assert |a| > 0;
    DropAppend(a, r, 1);
    DropAppend(a, q, 1);
    if a[0] == '[' {
      ArrayLocal(false, a[1..], r, q, v.items);
    } else {
      BasicLocal(a[1..], r, q, v.text);
    }
  }

  lemma SliceAppend(a: string, r: string, n: nat)
    requires 1 <= n <= |a|
    ensures (a + r)[1..n] == a[1..n]
  {
  }

  lemma HeaderAppend(a: string, r: string)
    requires EndsNewline(a) && a[0] == '['
    ensures var x := ReadHeader(a);
            && ReadHeader(a + r) == (if x.Some? then Some((x.value.0, x.value.1 + r)) else None)
            && (x.Some? ==> x.value.1 == [] || EndsNewline(x.value.1))
  {
    hide NextLine;
    var n := Run(a[1..], IsHeaderChar);
    DropAppend(a, r, 1);
    RunLocal(a[1..], r, IsHeaderChar);
    if n > 0 && a[1 + n] == ']' {
      assert n + 2 < |a|;
      DropAppend(a, r, n + 2);
      NextLineAppend(a[n + 2..], r);
      SliceAppend(a, r, 1 + n);
    }
  }

  /** A statement that can be read is read the same whatever follows its last line. */
  lemma StmtAppend(a: string, r: string)
    requires EndsNewline(a) && ReadStmt(a).Some?
    ensures var x := ReadStmt(a).value;
            && ReadStmt(a + r) == Some((x.0, x.1 + r)) && (x.1 == [] || EndsNewline(x.1))
  {
    hide NextLine, ReadValue, ReadKey, ReadHeader;
    if a[0] == '[' {
      HeaderAppend(a, r);
    } else {
      KeyAppend(a, r);
      var w := ReadKey(a).value.1;
      ValueAppend(w, r);
      NextLineAppend(ReadValue(w).value.1, r);
    }
  }

  /** The other way round: a statement that takes up whole lines needs nothing behind them. */
  lemma ValueCut(w: string, r: string, v: Value, after: string)
    requires EndsNewline(w) && ReadValue(w + r) == Some((v, after)) && NextLine(after) == Some(r)
    ensures ReadValue(w).Some? && ReadValue(w).value.0 == v && NextLine(ReadValue(w).value.1) == Some([])
  {
    hide ReadValue, NextLine;
    ValueSuffix(w + r);
    NextLineSuffix(after);
    var n := |w + r| - |after|;
    NotAtEnd(w, r, n);
    CutAt(w, r, n);
    CutAt(w, [], n);
    assert w + [] == w && w[n..] + [] == w[n..];
    assert EndsNewline(w[n..]);
    if v.Bare? {
      BareEnds(w[..n], w[n..] + r, v);
      ValueLocal(w[..n], w[n..] + r, w[n..], v);
    } else {
      NotBareLocal(w[..n], w[n..] + r, w[n..], v);
    }
    NextLineAppend(w[n..], r);
    var x := NextLine(w[n..]).value;
    assert x + r == r ==> x == [] by { if x + r == r { assert |x| + |r| == |r|; } }
  }

  lemma NotAtEnd(w: string, r: string, n: nat)
    requires EndsNewline(w) && 0 < n <= |w + r| && (w + r)[n - 1] != '\n' && |r| <= |w + r| - n
    ensures n < |w + r|
  {
    assert (w + r)[|w| - 1] == w[|w| - 1];
  }

  lemma StmtCut(b: string, r: string, stmt: Stmt)
    requires EndsNewline(b) && ReadStmt(b + r) == Some((stmt, r))
    ensures ReadStmt(b) == Some((stmt, []))
  {
    hide ReadValue, NextLine, ReadKey, ReadHeader;
    if b[0] == '[' {
      HeaderAppend(b, r);
      var x := ReadHeader(b).value.1;
      assert x + r == r ==> x == [] by { if x + r == r { assert |x| + |r| == |r|; } }
    } else {
      KeyAppend(b, r);
      var w := ReadKey(b).value.1;
      ValueCut(w, r, ReadValue(w + r).value.0, ReadValue(w + r).value.1);
    }
  }

  // --- documents ----------------------------------------------------------------------------------

  lemma JoinedTwice(d: seq<Stmt>, e: seq<Stmt>, x: Option<seq<Stmt>>)
    ensures Joined(d, Joined(e, x)) == Joined(d + e, x)
  {
    if x.Some? { assert d + (e + x.value) == d + e + x.value; }
  }

  lemma DocLine(s: string, rest: string)
    requires s != [] && NextLine(s) == Some(rest)
    ensures Doc(s) == Doc(rest)
  {
  }

  lemma DocStmt(s: string, stmt: Stmt, rest: string)
    requires s != [] && NextLine(s) == None && ReadStmt(SkipBlanks(s)) == Some((stmt, rest))
    ensures |rest| < |s| && Doc(s) == Joined([stmt], Doc(rest))
  {
  }

  lemma DocCases(s: string)
    requires s != [] && Doc(s).Some? && NextLine(s) == None
    ensures ReadStmt(SkipBlanks(s)).Some?
    ensures var x := ReadStmt(SkipBlanks(s)).value;
            |x.1| < |s| && Doc(x.1).Some? && Doc(s).value == [x.0] + Doc(x.1).value
  {
  }

  lemma DocEmpty(x: string)
    ensures Doc([]) == Some([]) && Joined([], Doc(x)) == Doc(x) && [] + x == x
  {
    if Doc(x).Some? { assert [] + Doc(x).value == Doc(x).value; }
  }

  /** Documents of whole lines can be put in front of any text. */
  lemma {:induction false} DocAppend(a: string, x: string)
    requires (a == [] || EndsNewline(a)) && Doc(a).Some?
    ensures Doc(a + x) == Joined(Doc(a).value, Doc(x))
    decreases |a|
  {
    hide Doc, Joined, NextLine, ReadStmt, SkipBlanks;
    if a == [] {
      DocEmpty(x);
    } else {
      NextLineAppend(a, x);
      if NextLine(a).Some? {
        var rest := NextLine(a).value;
        DocLine(a, rest);
        DocLine(a + x, rest + x);
        DocAppend(rest, x);
      } else {
        DocCases(a);
        BlanksLocal(a, x);
        var stmt, rest := ReadStmt(SkipBlanks(a)).value.0, ReadStmt(SkipBlanks(a)).value.1;
        StmtAppend(SkipBlanks(a), x);
        DocStmt(a + x, stmt, rest + x);
        DocAppend(rest, x);
        JoinedTwice([stmt], Doc(rest).value, Doc(x));
      }
    }
  }

  // --- a newline at the end -------------------------------------------------------------------------

  lemma RunNewline(s: string, p: char -> bool)
    requires !p('\n')
    ensures Run(s + "\n", p) == Run(s, p)
    ensures (s + "\n")[Run(s, p)..] == s[Run(s, p)..] + "\n"
  {
    RunAppend(s, "\n", p);
    DropAppend(s, "\n", Run(s, p));
  }

  /** `r` is `q` with a newline behind it, or both are empty. */
  predicate Longer(r: string, q: string) { r == q + "\n" || (r == [] && q == []) }

  lemma CommentNewline(s: string)
    ensures SkipComment(s + "\n") == SkipComment(s) + "\n"
  {
    hide NotControl, Run;
    RunNewline(s, IsBlank);
    var u := SkipBlanks(s);
    assert SkipBlanks(s + "\n") == u + "\n";
    if u != [] {
      assert (u + "\n")[0] == u[0];
      NewlineIsControl();
      RunNewline(u, NotControl);
    }
  }

  lemma NewlineIsControl()
    ensures !NotControl('\n')
  {
  }

  lemma NextLineNewline(s: string)
    ensures NextLine(s).None? <==> NextLine(s + "\n").None?
    ensures NextLine(s).Some? ==> Longer(NextLine(s + "\n").value, NextLine(s).value)
  {
    hide NextLine, SkipComment;
    CommentSkips(s);
    CommentSkips(s + "\n");
    CommentNewline(s);
    DropAppend(SkipComment(s), "\n", 1);
  }

  lemma KeyNewline(s: string)
    ensures var k := ReadKey(s);
            ReadKey(s + "\n") == if k.Some? then Some((k.value.0, k.value.1 + "\n")) else None
  {
    var n := Run(s, IsKeyChar);
    RunNewline(s, IsKeyChar);
    assert (s + "\n")[..n] == s[..n];
    RunNewline(s[n..], IsBlank);
    var v := SkipBlanks(s[n..]);
    if v != [] {
      DropAppend(v, "\n", 1);
      RunNewline(v[1..], IsBlank);
    }
  }

  lemma AnyValueLocal(a: string, r: string, q: string, v: Value)
    requires ReadValue(a + r) == Some((v, r))
    requires q != [] && (r == [] || r[0] == q[0]) && (r == [] ==> !IsBareChar(q[0]))
    ensures ReadValue(a + q) == Some((v, q))
  {
    if v.Bare? {
      BareEnds(a, r, v);
      ValueLocal(a, r, q, v);
    } else {
      NotBareLocal(a, r, q, v);
    }
  }

  lemma BareEnds(a: string, r: string, v: Value)
    requires ReadValue(a + r) == Some((v, r)) && v.Bare?
    ensures r == [] || !IsBareChar(r[0])
  {
    var n := Run(a + r, IsBareChar);
    assert r == (a + r)[n..];
  }

  lemma ValueNewline(s: string)
    ensures var x := ReadValue(s);
            ReadValue(s + "\n") == if x.Some? then Some((x.value.0, x.value.1 + "\n")) else None
  {
    hide ReadValue;
    if ReadValue(s).Some? {
      ValueSuffix(s);
      var v, r := ReadValue(s).value.0, ReadValue(s).value.1;
      var b := s[..|s| - |r|];
      assert s == b + r && s + "\n" == b + (r + "\n");
      AnyValueLocal(b, r, r + "\n", v);
    } else if ReadValue(s + "\n").Some? {
      var t := s + "\n";
      ValueSuffix(t);
      var v, q := ReadValue(t).value.0, ReadValue(t).value.1;
      var b, r := t[..|t| - |q|], q[..|q| - 1];
      assert q != [] && q == r + "\n" by { assert t[|t| - 1] == '\n'; }
      assert t == b + q && s == b + r;
      if v.Bare? {
        BareEnds(b, q, v);
        ValueLocal(b, q, r, v);
      } else {
        NotBareLocal(b, q, r, v);
      }
    }
  }

  lemma HeaderNewline(s: string)
    requires s != []
    ensures var x, y := ReadHeader(s), ReadHeader(s + "\n");
            && (x.None? <==> y.None?)
            && (x.Some? ==> x.value.0 == y.value.0 && Longer(y.value.1, x.value.1))
  {
    hide NextLine;
    var n := Run(s[1..], IsHeaderChar);
    DropAppend(s, "\n", 1);
    RunNewline(s[1..], IsHeaderChar);
    if n > 0 && 1 + n < |s| && s[1 + n] == ']' {
      DropAppend(s, "\n", n + 2);
      NextLineNewline(s[n + 2..]);
      SliceAppend(s, "\n", 1 + n);
    }
  }

  lemma StmtNewline(s: string)
    requires s != []
    ensures var x, y := ReadStmt(s), ReadStmt(s + "\n");
            && (x.None? <==> y.None?)
            && (x.Some? ==> x.value.0 == y.value.0 && Longer(y.value.1, x.value.1))
  {
    hide NextLine, ReadValue, ReadKey, ReadHeader, Longer;
    if s[0] == '[' {
      HeaderNewline(s);
    } else {
      KeyNewline(s);
      if ReadKey(s).Some? {
        var w := ReadKey(s).value.1;
        ValueNewline(w);
        if ReadValue(w).Some? { NextLineNewline(ReadValue(w).value.1); }
      }
    }
  }

  lemma DocFails(s: string)
    requires s != [] && NextLine(s) == None && ReadStmt(SkipBlanks(s)) == None
    ensures Doc(s) == None
  {
  }

  lemma NotBlank(s: string)
    requires NextLine(s) == None
    ensures s != [] && SkipBlanks(s) != []
  {
  }

  /** A newline at the end of a text does not change its statements. */
  lemma {:induction false} DocNewline(s: string)
    ensures Doc(s + "\n") == Doc(s)
    decreases |s|
  {
    hide Doc, Joined, NextLine, ReadStmt, SkipBlanks;
    NextLineNewline(s);
    if NextLine(s).Some? {
      var rest, more := NextLine(s).value, NextLine(s + "\n").value;
      DocLine(s + "\n", more);
      if s != [] {
        DocLine(s, rest);
        if more != [] { DocNewline(rest); }
      } else {
        EmptyLine();
      }
    } else {
      NotBlank(s);
      BlanksNewline(s);
      var b := SkipBlanks(s);
      StmtNewline(b);
      if ReadStmt(b).Some? {
        var rest, more := ReadStmt(b).value.1, ReadStmt(b + "\n").value.1;
        DocStmt(s, ReadStmt(b).value.0, rest);
        DocStmt(s + "\n", ReadStmt(b).value.0, more);
        if more != [] { DocNewline(rest); }
      } else {
        DocFails(s);
        DocFails(s + "\n");
      }
    }
  }

  lemma EmptyLine()
    ensures NextLine([] + "\n") == Some([])
  {
    assert [] + "\n" == "\n" && Run("\n", IsBlank) == 0;
  }

  lemma BlanksNewline(s: string)
    ensures SkipBlanks(s + "\n") == SkipBlanks(s) + "\n"
  {
    RunNewline(s, IsBlank);
  }
}

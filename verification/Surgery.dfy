/** The search for the watch list on texts that are TOML: it finds the first assignment of a
    list to the key, and nothing else (hblog/config.py, `_WATCH_START`). */
module Surgery {
  import opened Model
  import opened Text
  import opened Toml
  import opened TomlLaws
  import opened ConfigFile
  import opened Search
  import opened WatchList

  /** The statement the writer replaces. */
  predicate IsTarget(stmt: Stmt) {
    stmt.Pair? && stmt.key == KEY && stmt.value.Strings?
  }

  /** Position of the first such statement. */
  function Target(d: seq<Stmt>): (k: Option<nat>)
    ensures k.Some? ==> k.value < |d| && IsTarget(d[k.value])
  {
    if d == [] then None
    else if IsTarget(d[0]) then Some(0)
    else match Target(d[1..]) case Some(k) => Some(k + 1) case None => None
  }

  // --- which lines match --------------------------------------------------------------------------

  lemma NoKeyNoMatch(s: string)
    requires var u := SkipBlanks(s); u == [] || u[0] != KEY[0]
    ensures MatchHere(WATCH_START, s) == None
  {
    var u := SkipBlanks(s);
    var rest := WATCH_START[1..];
    assert WATCH_START[0] == Blanks && rest[0] == Fixed(KEY) && !(KEY <= u);
    assert MatchParts(rest, u) == None;
  }

  /** What a match consists of. */
  lemma MatchMeans(s: string)
    ensures var k := ReadKey(SkipBlanks(s));
            && (MatchHere(WATCH_START, s).Some? <==> k.Some? && k.value.0 == KEY && k.value.1 != [] && k.value.1[0] == '[')
            && (MatchHere(WATCH_START, s).Some? ==> MatchHere(WATCH_START, s).value == |s| - |k.value.1|)
  {
    var u := SkipBlanks(s);
    MatchUnfolds(s);
    if KEY <= u {
      var t := u[|KEY|..];
      assert u == KEY + t;
      KeyRun(t);
      if SkipBlanks(t) != [] && SkipBlanks(t)[0] == '=' {
        assert t[0] == '=' || IsBlank(t[0]);
        assert u[..|KEY|] == KEY;
      } else {
        KeyElse(u, t);
      }
    } else {
      KeyIsPrefix(u);
    }
  }

  function SecondPart(t: string): Option<nat> {
    var v := SkipBlanks(t);
    if v != [] && v[0] == '=' then
      var w := SkipBlanks(v[1..]);
      if w != [] && w[0] == '[' then Some(|w|) else None
    else None
  }

  lemma MatchUnfolds(s: string)
    ensures var u := SkipBlanks(s);
            MatchHere(WATCH_START, s) ==
            if KEY <= u && SecondPart(u[|KEY|..]).Some? then Some(|s| - SecondPart(u[|KEY|..]).value) else None
  {
    var u := SkipBlanks(s);
    var p1 := WATCH_START[1..];
    var p2 := p1[1..];
    var p3 := p2[1..];
    var p4 := p3[1..];
    assert WATCH_START[0] == Blanks && p1[0] == Fixed(KEY) && p2[0] == Blanks && p3[0] == Fixed("=") && p4[0] == Blanks;
    assert p4[1..] == [];
    hide Run;
    assert MatchParts(WATCH_START, s) == MatchParts(p1, u);
    if KEY <= u {
      var v := SkipBlanks(u[|KEY|..]);
      assert MatchParts(p1, u) == MatchParts(p3, v);
      if v != [] && v[0] == '=' {
        assert v[..1] == "=";
        assert MatchParts(p3, v) == MatchParts(p4, v[1..]);
        assert MatchParts(p4, v[1..]) == MatchParts([], SkipBlanks(v[1..]));
        NothingToMatch(SkipBlanks(v[1..]));
      }
    }
  }

  /** The key is all of the word it begins, if it is followed by a blank or an equals sign. */
  lemma KeyRun(t: string)
    ensures Run(KEY + t, IsKeyChar) == |KEY| + Run(t, IsKeyChar)
    ensures t != [] && (t[0] == '=' || IsBlank(t[0])) ==> Run(t, IsKeyChar) == 0
  {
    KeyWord();
    hide IsKeyChar;
    RunAppend(KEY, t, IsKeyChar);
    NoKeyChars();
  }

  lemma KeyWord()
    ensures Run(KEY, IsKeyChar) == |KEY|
  {
    RunFull(KEY, IsKeyChar);
  }

  lemma NoKeyChars()
    ensures !IsKeyChar(' ') && !IsKeyChar('\t') && !IsKeyChar('=')
  {
  }

  lemma KeyElse(u: string, t: string)
    requires u == KEY + t && !(SkipBlanks(t) != [] && SkipBlanks(t)[0] == '=')
    ensures ReadKey(u).Some? ==> ReadKey(u).value.0 != KEY
  {
    KeyRun(t);
    var n := Run(u, IsKeyChar);
    if n == |KEY| { assert u[n..] == t; }
  }

  lemma KeyIsPrefix(u: string)
    ensures ReadKey(u).Some? ==> ReadKey(u).value.0 <= u
  {
  }

  // --- the lines of other statements do not match ------------------------------------------------

  /** Reading an array from `s` on ends with `r` left: on this line, or the next line still
      is inside the array. */
  ghost predicate Continues(s: string, r: string, sep: bool) {
    Skips(s, r)
    || var n := Run(s, NotNewline);
       n < |s| && Array(sep, s[n + 1..]).Some? && Array(sep, s[n + 1..]).value.1 == r
  }

  lemma ContinuesOn(s: string, t: string, r: string, sep: bool)
    requires Skips(s, t) && Continues(t, r, sep)
    ensures Continues(s, r, sep)
  {
    hide Array, Skips, Run;
    if Skips(t, r) { SkipsOn(s, t, r); }
    SkipsRun(s, t);
  }

  lemma {:induction false} ArrayLine(sep: bool, s: string) returns (next: bool)
    requires Array(sep, s).Some?
    ensures Continues(s, Array(sep, s).value.1, next)
    decreases |s|
  {
    hide Continues, Skips, Run;
    var r := Array(sep, s).value.1;
    next := sep;
    if s[0] == '\n' {
      NewlineContinues(sep, s);
    } else if IsBlank(s[0]) {
      next := ArrayLine(sep, s[1..]);
      SkipsOne(s);
      ContinuesOn(s, s[1..], r, next);
    } else if s[0] == '#' {
      var t := s[Run(s, NotControl)..];
      next := ArrayLine(sep, t);
      SkipsWhile(s, NotControl);
      ContinuesOn(s, t, r, next);
    } else if s[0] == ']' {
      SkipsOne(s);
      EndsHere(s, r, next);
    } else if s[0] == ',' {
      next := ArrayLine(false, s[1..]);
      SkipsOne(s);
      ContinuesOn(s, s[1..], r, next);
    } else {
      var t := BasicString(s[1..]).value.1;
      next := ArrayLine(true, t);
      StringSkips(s[1..]);
      SkipsOne(s);
      SkipsOn(s, s[1..], t);
      ContinuesOn(s, t, r, next);
    }
  }

  lemma NewlineContinues(sep: bool, s: string)
    requires s != [] && s[0] == '\n' && Array(sep, s).Some?
    ensures Continues(s, Array(sep, s).value.1, sep)
  {
  }

  lemma EndsHere(s: string, r: string, next: bool)
    requires Skips(s, r)
    ensures Continues(s, r, next)
  {
  }

  lemma StringSkips(s: string)
    requires BasicString(s).Some?
    ensures Skips(s, BasicString(s).value.1)
  {
    BasicSuffix(s);
  }

  lemma {:induction false} ArrayHead(sep: bool, s: string)
    requires Array(sep, s).Some?
    ensures SkipBlanks(s) == [] || SkipBlanks(s)[0] != KEY[0]
  {
    if IsBlank(s[0]) {
      ArrayHead(sep, s[1..]);
      assert s[1 + Run(s[1..], IsBlank)..] == s[1..][Run(s[1..], IsBlank)..];
    }
  }

  /** The next line of `s`, if there is one. */
  ghost predicate IsNext(s: string, q: string) {
    q == if Run(s, NotNewline) < |s| then s[Run(s, NotNewline) + 1..] else []
  }

  function Before(s: string, q: string): string
    requires |q| <= |s|
  {
    s[..|s| - |q|]
  }

  lemma FirstLineClear(s: string, q: string)
    requires MatchHere(WATCH_START, s) == None && IsNext(s, q)
    ensures |q| <= |s| && Find(WATCH_START, Before(s, q)) == None
  {
    hide MatchHere, Find, NoNewlineParts;
    WatchStartParts();
    if Run(s, NotNewline) < |s| {
      var line, rest := SplitLine(s);
      MatchInLine(WATCH_START, line, rest);
      assert Before(s, q) == line + "\n";
      LastLine(WATCH_START, line, "\n");
    } else {
      assert Before(s, q) == s + "";
      LastLine(WATCH_START, s, "");
    }
  }

  lemma NextBehind(s: string, after: string, q: string)
    requires Skips(s, after) && NextLine(after) == Some(q)
    ensures IsNext(s, q)
  {
    hide Skips, NextLine;
    NextLineIs(after);
    SkipsRun(s, after);
  }

  lemma {:induction false} ContinuesClear(s: string, after: string, sep: bool, q: string)
    requires MatchHere(WATCH_START, s) == None && Continues(s, after, sep) && NextLine(after) == Some(q)
    ensures |q| <= |s| && Find(WATCH_START, Before(s, q)) == None
    decreases |s|, 0
  {
    hide MatchHere, Find, NoNewlineParts, NextLine;
    if Skips(s, after) {
      NextBehind(s, after, q);
      FirstLineClear(s, q);
    } else {
      var line, rest := SplitLine(s);
      ArrayClear(sep, rest, q);
      WatchStartParts();
      MatchInLine(WATCH_START, line, rest);
      LineNone(WATCH_START, line, Before(rest, q));
      assert Before(s, q) == line + ("\n" + Before(rest, q));
    }
  }

  /** The lines of an array assign nothing. */
  lemma {:induction false} ArrayClear(sep: bool, s: string, q: string)
    requires Array(sep, s).Some? && NextLine(Array(sep, s).value.1) == Some(q)
    ensures |q| <= |s| && Find(WATCH_START, Before(s, q)) == None
    decreases |s|, 1
  {
    hide Array, Find, Continues;
    ArrayHead(sep, s);
    NoKeyNoMatch(s);
    var next := ArrayLine(sep, s);
    ContinuesClear(s, Array(sep, s).value.1, next, q);
  }

  /** What is read of a statement before its line is left, or before the rest of its array. */
  lemma StmtContinues(s: string) returns (after: string, next: bool)
    requires ReadStmt(s).Some?
    ensures Continues(s, after, next) && NextLine(after) == Some(ReadStmt(s).value.1)
  {
    hide Continues, Skips, NextLine, ReadKey, Array;
    next := false;
    if s[0] == '[' {
      after := s[Run(s[1..], IsHeaderChar) + 2..];
      HeaderSkips(s);
      EndsHere(s, after, next);
    } else {
      KeySuffix(s);
      var w := ReadKey(s).value.1;
      after := ReadValue(w).value.1;
      if w[0] == '[' {
        next := ArrayLine(false, w[1..]);
        SkipsOne(w);
        SkipsOn(s, w, w[1..]);
        ContinuesOn(s, w[1..], after, next);
      } else {
        ScalarSkips(w);
        SkipsOn(s, w, after);
        EndsHere(s, after, next);
      }
    }
  }

  lemma HeaderSkips(s: string)
    requires s != [] && s[0] == '[' && ReadHeader(s).Some?
    ensures Skips(s, s[Run(s[1..], IsHeaderChar) + 2..])
  {
    var n := Run(s[1..], IsHeaderChar);
    var t := s[1..][n..];
    HeaderBracket(s);
    hide *;
    NewlineIsNoHeader();
    SkipsOne(s);
    SkipsWhile(s[1..], IsHeaderChar);
    SkipsOn(s, s[1..], t);
    SkipsOne(t);
    SkipsOn(s, t, t[1..]);
  }

  lemma HeaderBracket(s: string)
    requires s != [] && s[0] == '[' && ReadHeader(s).Some?
    ensures var t := s[1..][Run(s[1..], IsHeaderChar)..];
            t != [] && t[0] == ']' && t[1..] == s[Run(s[1..], IsHeaderChar) + 2..]
  {
    hide NextLine, Run;
  }

  lemma NewlineIsNoHeader()
    ensures !IsHeaderChar('\n')
  {
  }

  lemma ScalarSkips(w: string)
    requires ReadValue(w).Some? && w[0] != '['
    ensures Skips(w, ReadValue(w).value.1)
  {
    if w[0] == '"' {
      StringSkips(w[1..]);
      SkipsOne(w);
      SkipsOn(w, w[1..], BasicString(w[1..]).value.1);
    } else {
      SkipsWhile(w, IsBareChar);
    }
  }

  /** The lines of a statement that is no target do not match. */
  lemma StmtClear(s: string, stmt: Stmt, q: string)
    requires ReadStmt(SkipBlanks(s)) == Some((stmt, q)) && !IsTarget(stmt)
    ensures |q| <= |s| && Find(WATCH_START, Before(s, q)) == None
  {
    hide Continues, Find, MatchHere, NextLine, SkipBlanks, Skips;
    OtherNoMatch(s, stmt, q);
    var after, next := StmtContinues(SkipBlanks(s));
    SkipsBlanks(s);
    ContinuesOn(s, SkipBlanks(s), after, next);
    ContinuesClear(s, after, next, q);
  }

  lemma OtherNoMatch(s: string, stmt: Stmt, q: string)
    requires ReadStmt(SkipBlanks(s)) == Some((stmt, q)) && !IsTarget(stmt)
    ensures MatchHere(WATCH_START, s) == None
  {
    hide MatchHere, NextLine, Array, BasicString;
    MatchMeans(s);
    var u := SkipBlanks(s);
    if u[0] == '[' {
      BracketIsNoKey(u);
    } else {
      assert ReadPair(u) == Some((stmt, q));
    }
  }

  lemma BracketIsNoKey(u: string)
    requires u != [] && u[0] == '['
    ensures ReadKey(u) == None
  {
  }

  /** A statement that is the target begins with a match. */
  lemma TargetMatches(s: string, stmt: Stmt, q: string)
    requires ReadStmt(SkipBlanks(s)) == Some((stmt, q)) && IsTarget(stmt)
    ensures var w := ReadKey(SkipBlanks(s)).value.1;
            && ReadKey(SkipBlanks(s)).Some? && w != [] && w[0] == '['
            && MatchHere(WATCH_START, s) == Some(|s| - |w|) && |w| <= |s|
            && Array(false, w[1..]).Some? && stmt.value == Strings(Array(false, w[1..]).value.0)
            && NextLine(Array(false, w[1..]).value.1) == Some(q)
  {
    hide MatchHere, NextLine, Array, BasicString, Run;
    MatchMeans(s);
  }

  // --- what the search finds in a document ----------------------------------------------------------

  lemma FindPast(s: string, q: string)
    requires NewLine(s, q) && Find(WATCH_START, Before(s, q)) == None
    ensures Find(WATCH_START, s) == Shift(|s| - |q|, Find(WATCH_START, q))
  {
    if q == [] {
      assert Before(s, q) == s;
      NothingPast(s);
    } else {
      LinesBefore(s, q);
      hide *;
      WatchStartParts();
      FindBehind(WATCH_START, Before(s, q), q);
    }
  }

  lemma NothingPast(s: string)
    requires Find(WATCH_START, s) == None
    ensures Find(WATCH_START, s) == Shift(|s|, Find(WATCH_START, []))
  {
    EmptyNoMatch(WATCH_START);
  }

  lemma LinesBefore(s: string, q: string)
    requires NewLine(s, q) && q != []
    ensures Before(s, q) + q == s && EndsLine(Before(s, q)) && |Before(s, q)| == |s| - |q|
  {
  }

  lemma BlankLineClear(s: string, q: string)
    requires NextLine(s) == Some(q)
    ensures |q| <= |s| && Find(WATCH_START, Before(s, q)) == None
  {
    NoKeyNoMatch(s);
    NextLineIs(s);
    FirstLineClear(s, q);
  }

  lemma StmtNewLine(s: string)
    requires ReadStmt(SkipBlanks(s)).Some?
    ensures NewLine(s, ReadStmt(SkipBlanks(s)).value.1)
  {
    hide ReadStmt, NewLine;
    StmtSuffix(SkipBlanks(s));
    SkipsBlanks(s);
    SkipsIs(s, SkipBlanks(s));
    NewLineOn(s, SkipBlanks(s), ReadStmt(SkipBlanks(s)).value.1);
  }

  /** Without a target among the statements nothing is found. */
  lemma {:induction false} NoTarget(s: string)
    requires Doc(s).Some? && Target(Doc(s).value) == None
    ensures Find(WATCH_START, s) == None
    decreases |s|
  {
    hide Find, NextLine, ReadStmt, SkipBlanks, NewLine, Doc, Target;
    if s == [] {
      EmptyNoMatch(WATCH_START);
    } else if NextLine(s).Some? {
      var q := NextLine(s).value;
      DocLine(s, q);
      NoTarget(q);
      BlankLineClear(s, q);
      NextLineSuffix(s);
      FindPast(s, q);
    } else {
      DocCases(s);
      var stmt, q := ReadStmt(SkipBlanks(s)).value.0, ReadStmt(SkipBlanks(s)).value.1;
      NotFirst(stmt, Doc(q).value);
      NoTarget(q);
      StmtClear(s, stmt, q);
      StmtNewLine(s);
      FindPast(s, q);
    }
  }

  lemma NotFirst(stmt: Stmt, d: seq<Stmt>)
    requires Target([stmt] + d) == None
    ensures !IsTarget(stmt) && Target(d) == None
  {
    assert ([stmt] + d)[1..] == d;
  }

  /** The parts of a text around an array: before its line, before its bracket, between its
      brackets, and behind. */
  datatype Place = Place(pre: string, lead: string, inner: string, post: string) {
    function Whole(): string { pre + (lead + ("[" + (inner + ("]" + post)))) }
  }

  /** The search finds the array of the first target; the statements before it are those of
      the lines before, the statements behind it those of the lines behind. */
  ghost predicate Located(s: string, d: seq<Stmt>, k: nat, p: Place) {
    && s == p.Whole() && (p.pre == [] || EndsNewline(p.pre)) && Find(WATCH_START, p.pre) == None
    && Find(WATCH_START, s) == Some(Found(|p.pre|, |p.pre| + |p.lead|))
    && Target(d) == Some(k) && Doc(p.pre) == Some(d[..k])
    && Array(false, p.inner + ("]" + p.post)) == Some((d[k].value.items, p.post))
    && NextLine(p.post).Some? && Doc(NextLine(p.post).value) == Some(d[k + 1..])
  }

  lemma {:induction false} FindTarget(s: string, d: seq<Stmt>) returns (k: nat, p: Place)
    requires Doc(s) == Some(d) && Target(d).Some?
    ensures Located(s, d, k, p)
    decreases |s|
  {
    hide Find, NextLine, ReadStmt, SkipBlanks, NewLine, Doc, Target, Located;
    k, p := 0, Place([], [], [], []);
    if s == [] {
      DocEmpty("");
      NothingToFind();
    } else if NextLine(s).Some? {
      var q := NextLine(s).value;
      DocLine(s, q);
      k, p := FindTarget(q, d);
      LocatedLater(s, q, [], d, k, p);
      p := p.(pre := Before(s, q) + p.pre);
      assert [] + d == d;
    } else {
      DocCases(s);
      var stmt, q := ReadStmt(SkipBlanks(s)).value.0, ReadStmt(SkipBlanks(s)).value.1;
      var e := Doc(q).value;
      if IsTarget(stmt) {
        k, p := LocatedHere(s, stmt, q);
      } else {
        TargetCons(stmt, e);
        k, p := FindTarget(q, e);
        LocatedLater(s, q, [stmt], e, k, p);
        k, p := k + 1, p.(pre := Before(s, q) + p.pre);
      }
    }
  }

  lemma NothingToFind()
    ensures Target([]) == None
  {
  }

  lemma TargetCons(stmt: Stmt, d: seq<Stmt>)
    requires !IsTarget(stmt)
    ensures Target([stmt] + d) == match Target(d) case Some(k) => Some(k + 1) case None => None
  {
    assert ([stmt] + d)[1..] == d;
  }

  lemma LocatedHere(s: string, stmt: Stmt, q: string) returns (k: nat, p: Place)
    requires s != [] && ReadStmt(SkipBlanks(s)) == Some((stmt, q)) && IsTarget(stmt) && Doc(q).Some?
    ensures Located(s, [stmt] + Doc(q).value, k, p)
  {
    hide Find, NextLine, ReadStmt, SkipBlanks, Array, MatchHere, Run;
    TargetMatches(s, stmt, q);
    var w := ReadKey(SkipBlanks(s)).value.1;
    var inner, post := ArrayCut(w);
    k, p := 0, Place([], s[..|s| - |w|], inner, post);
    KeyOfLine(s);
    SkipsCut(s, w);
    FindAtOnce(s);
    EmptyNoMatch(WATCH_START);
    DocEmpty("");
    var d := [stmt] + Doc(q).value;
    assert d[1..] == Doc(q).value && d[..0] == [];
  }

  lemma ArrayCut(w: string) returns (inner: string, post: string)
    requires w != [] && w[0] == '[' && Array(false, w[1..]).Some?
    ensures post == Array(false, w[1..]).value.1
    ensures w[1..] == inner + ("]" + post) && w == "[" + (inner + ("]" + post))
  {
    hide Array;
    ArraySuffix(false, w[1..]);
    post := Array(false, w[1..]).value.1;
    inner := w[1..][..|w| - 2 - |post|];
  }

  lemma SkipsCut(s: string, w: string)
    requires Skips(s, w)
    ensures |w| <= |s| && s == [] + (s[..|s| - |w|] + w)
  {
  }

  lemma KeyOfLine(s: string)
    requires ReadKey(SkipBlanks(s)).Some?
    ensures Skips(s, ReadKey(SkipBlanks(s)).value.1)
  {
    KeySuffix(SkipBlanks(s));
    SkipsBlanks(s);
    SkipsOn(s, SkipBlanks(s), ReadKey(SkipBlanks(s)).value.1);
  }

  lemma FindAtOnce(s: string)
    requires MatchHere(WATCH_START, s).Some?
    ensures Find(WATCH_START, s) == Some(Found(0, MatchHere(WATCH_START, s).value))
  {
  }

  /** A line or statement in front of a text in which the target was located. */
  lemma LocatedLater(s: string, q: string, front: seq<Stmt>, e: seq<Stmt>, k: nat, p: Place)
    requires Located(q, e, k, p) && s != []
    requires (NextLine(s) == Some(q) && front == [])
             || (NextLine(s) == None && |front| == 1 && !IsTarget(front[0]) && ReadStmt(SkipBlanks(s)) == Some((front[0], q)))
    ensures |q| <= |s| && Located(s, front + e, |front| + k, p.(pre := Before(s, q) + p.pre))
  {
    hide Find, NextLine, ReadStmt, SkipBlanks, Doc, Target, Array;
    var a := FrontLines(s, q, front);
    assert q != [] by { LocatedSomething(p); }
    FindPast(s, q);
    DocAppend(a, p.pre);
    assert a + p.Whole() == p.(pre := a + p.pre).Whole();
    FindPastTwice(a, p.pre);
    var d := front + e;
    assert Target(d) == Some(|front| + k) by { FrontTarget(front, e); }
    assert d[..|front| + k] == front + e[..k] && d[|front| + k] == e[k] && d[|front| + k + 1..] == e[k + 1..];
  }

  lemma LocatedSomething(p: Place)
    ensures p.Whole() != []
  {
  }

  lemma FrontTarget(front: seq<Stmt>, e: seq<Stmt>)
    requires front == [] || (|front| == 1 && !IsTarget(front[0]))
    ensures Target(e).Some? ==> Target(front + e) == Some(|front| + Target(e).value)
  {
    if front == [] { assert front + e == e; } else { TargetCons(front[0], e); assert front == [front[0]]; }
  }

  lemma FindPastTwice(a: string, b: string)
    requires EndsNewline(a) && Find(WATCH_START, a) == None && (b == [] || EndsNewline(b)) && Find(WATCH_START, b) == None
    ensures Find(WATCH_START, a + b) == None && EndsNewline(a + b)
  {
    hide Find, NoNewlineParts;
    WatchStartParts();
    FindBehind(WATCH_START, a, b);
  }

  lemma FrontLines(s: string, q: string, front: seq<Stmt>) returns (a: string)
    requires s != [] && q != []
    requires (NextLine(s) == Some(q) && front == [])
             || (NextLine(s) == None && |front| == 1 && !IsTarget(front[0]) && ReadStmt(SkipBlanks(s)) == Some((front[0], q)))
    ensures |q| <= |s| && a == Before(s, q) && s == a + q && EndsNewline(a) && NewLine(s, q)
    ensures Find(WATCH_START, a) == None && Doc(a) == Some(front)
  {
    hide Find, NextLine, ReadStmt, SkipBlanks, Doc;
    if front == [] {
      BlankLineClear(s, q);
      NextLineSuffix(s);
      a := Before(s, q);
      assert s == a + q;
      NextLineLocal(a, q, []);
      assert a + [] == a;
      DocLine(a, []);
      DocEmpty("");
    } else {
      StmtClear(s, front[0], q);
      StmtNewLine(s);
      a := Before(s, q);
      assert s == a + q;
      NextLineAppend(a, q);
      BlanksLocal(a, q);
      StmtCut(SkipBlanks(a), q, front[0]);
      DocStmt(a, front[0], []);
      DocEmpty("");
      OneStmt(front);
    }
  }

  lemma OneStmt(front: seq<Stmt>)
    requires |front| == 1
    ensures Joined([front[0]], Some([])) == Some(front)
  {
    assert [front[0]] + [] == front;
  }
}

/** What rewriting the watch list does to a configuration file as a TOML document
    (hblog/config.py, `_replace_watch_units`, `write_watch_units`). */
module Rewriting {
  import opened Model
  import opened Text
  import opened Toml
  import opened TomlLaws
  import opened ConfigFile
  import opened Search
  import opened Sorting
  import opened WatchList
  import opened Printing
  import opened Surgery

  // --- the frame --------------------------------------------------------------------------------

  /** Everything before the assignment and everything behind the array stays, if and only if
      the brackets between those of the array nest. Brackets in comments and strings count,
      and a bracket that is never closed does no harm only at the end of the file. */
  lemma FrameIff(s: string, d: seq<Stmt>, k: nat, p: Place, assignment: string)
    requires Located(s, d, k, p)
    ensures Replaced(s, assignment) == (p.pre + assignment + p.post, true) <==> Nested(p.inner, p.post)
  {
    hide Find, Span, Nested, Doc, Target, Array, NextLine, Replaced;
    var list := "[" + (p.inner + ("]" + p.post));
    CutAtPlace(p);
    ReplacedIs(s, assignment, Found(|p.pre|, |p.pre| + |p.lead|), list);
    SpanOfArrayIff(p.inner, p.post);
    BracketsIs(p.inner, p.post);
    SuffixIs("[" + (p.inner + "]"), p.post, Span(list, 0));
    var rest := list[Span(list, 0)..];
    if rest != p.post { PrefixCancels(p.pre + assignment, rest, p.post); }
  }

  lemma CutAtPlace(p: Place)
    ensures var list := "[" + (p.inner + ("]" + p.post));
            && p.Whole()[|p.pre| + |p.lead|..] == list && p.Whole()[..|p.pre|] == p.pre
  {
    var list := "[" + (p.inner + ("]" + p.post));
    assert p.Whole() == (p.pre + p.lead) + list;
  }

  lemma BracketsIs(inner: string, post: string)
    ensures "[" + (inner + ("]" + post)) == ("[" + (inner + "]")) + post
    ensures |"[" + (inner + "]")| == |inner| + 2
  {
  }

  // --- reading what was printed ---------------------------------------------------------------------

  lemma KeyReads(key: string, rest: string)
    requires key != [] && forall i :: 0 <= i < |key| ==> IsKeyChar(key[i])
    requires rest != [] && !IsBlank(rest[0])
    ensures ReadKey(key + (" = " + rest)) == Some((key, rest))
  {
    var t := " = " + rest;
    RunFull(key, IsKeyChar);
    RunAppend(key, t, IsKeyChar);
    assert Run(t, IsKeyChar) == 0;
    assert (key + t)[|key|..] == t && (key + t)[..|key|] == key;
    var v := "= " + rest;
    assert t[1..] == v && Run(v, IsBlank) == 0 && Run(t, IsBlank) == 1;
    assert v[1..] == " " + rest && (" " + rest)[1..] == rest;
    assert Run(rest, IsBlank) == 0 && Run(" " + rest, IsBlank) == 1;
  }

  /** An assignment of a printed list under any key. */
  function Assigned(key: string, units: seq<string>): string { key + (" = " + Bracketed(units)) }

  lemma FormatIs(units: seq<string>)
    ensures Format(units) == Assigned(KEY, units)
  {
    hide Bracketed;
    assert HEAD == KEY + " = ";
  }

  predicate IsKey(key: string) { key != [] && forall i :: 0 <= i < |key| ==> IsKeyChar(key[i]) }

  lemma AssignedReads(key: string, units: seq<string>, post: string)
    requires IsKey(key)
    ensures var x := Array(false, (Bracketed(units) + post)[1..]);
            ReadStmt(Assigned(key, units) + post)
            == if x.Some? && NextLine(x.value.1).Some?
               then Some((Pair(key, Strings(x.value.0)), NextLine(x.value.1).value)) else None
  {
    hide Array, NextLine, Bracketed, Run, ReadKey;
    var b := Bracketed(units) + post;
    BracketedShape(units, post);
    KeyReads(key, b);
    assert Assigned(key, units) + post == key + (" = " + b);
    assert (key + (" = " + b))[0] == key[0] && IsKeyChar(key[0]);
  }

  lemma AssignedIsStatement(key: string, units: seq<string>, post: string)
    requires IsKey(key)
    ensures var s := Assigned(key, units) + post; s != [] && NextLine(s) == None && SkipBlanks(s) == s
  {
    hide Bracketed;
    var s := Assigned(key, units) + post;
    assert s[0] == key[0] && IsKeyChar(key[0]);
    assert Run(s, IsBlank) == 0 && s[0..] == s;
  }

  /** A document with a printed list between whole lines and the end of a line. */
  lemma PutReads(pre: string, key: string, units: seq<string>, post: string, a: seq<Stmt>)
    requires (pre == [] || EndsNewline(pre)) && Doc(pre) == Some(a) && IsKey(key)
    ensures var x := Array(false, (Bracketed(units) + post)[1..]);
            Doc(pre + (Assigned(key, units) + post))
            == if x.Some? && NextLine(x.value.1).Some?
               then Joined(a, Joined([Pair(key, Strings(x.value.0))], Doc(NextLine(x.value.1).value))) else None
  {
    hide Doc, Array, NextLine, Bracketed, SkipBlanks, ReadStmt, Assigned;
    var s := Assigned(key, units) + post;
    BracketedShape(units, post);
    var x := Array(false, (Bracketed(units) + post)[1..]);
    DocAppend(pre, s);
    AssignedIsStatement(key, units, post);
    AssignedReads(key, units, post);
    if x.Some? && NextLine(x.value.1).Some? {
      DocStmt(s, Pair(key, Strings(x.value.0)), NextLine(x.value.1).value);
    } else {
      DocFails(s);
    }
  }

  /** For names without quotes. */
  lemma QuoteFreePut(pre: string, key: string, units: seq<string>, post: string, a: seq<Stmt>, t: seq<Stmt>)
    requires (pre == [] || EndsNewline(pre)) && Doc(pre) == Some(a) && IsKey(key) && AllQuoteFree(units)
    requires NextLine(post).Some? && Doc(NextLine(post).value) == Some(t)
    ensures Doc(pre + (Assigned(key, units) + post))
            == if DecodedAll(units).Some? then Some(a + ([Pair(key, Strings(DecodedAll(units).value))] + t)) else None
  {
    hide Doc, Array, NextLine, Bracketed, Assigned, DecodedAll, AllQuoteFree, IsKey;
    PutReads(pre, key, units, post, a);
    QuoteFreeListReads(units, post);
  }

  lemma KeyIsKey()
    ensures IsKey(KEY)
  {
    RunHolds(KEY, IsKeyChar);
    KeyWord();
  }

  // --- the three places a list is written to ----------------------------------------------------------

  lemma {:induction false} DocStripped(s: string)
    ensures Doc(StripNewlines(s)) == Doc(s)
    decreases |s|
  {
    hide Doc;
    if s != [] && s[|s| - 1] == '\n' {
      DocStripped(s[..|s| - 1]);
      DocNewline(s[..|s| - 1]);
      assert s == s[..|s| - 1] + "\n";
    }
  }

  lemma AppendedFront(s: string)
    ensures var a := StripNewlines(s) + "\n\n"; EndsNewline(a) && Doc(a) == Doc(s)
  {
    hide Doc, StripNewlines;
    var r := StripNewlines(s);
    DocStripped(s);
    DocNewline(r);
    DocNewline(r + "\n");
    assert r + "\n\n" == r + "\n" + "\n";
  }

  lemma JustNewline()
    ensures NextLine("\n") == Some([])
  {
    assert Run("\n", IsBlank) == 0;
  }

  /** Where the list goes in a file that is a document: the statements before it, those
      behind it, and the text around it. */
  ghost predicate Fits(tpl: Template, file: Option<string>, a: seq<Stmt>, t: seq<Stmt>) {
    var pre, post := Ahead(tpl, file), Behind(tpl, file);
    && (pre == [] || EndsNewline(pre)) && Doc(pre) == Some(a)
    && NextLine(post).Some? && Doc(NextLine(post).value) == Some(t)
  }

  /** A file without a target: the list comes behind everything. */
  lemma FitsBehind(tpl: Template, s: string, d: seq<Stmt>)
    requires Doc(s) == Some(d) && Target(d) == None
    ensures Fits(tpl, Some(s), d, [])
  {
    hide Doc, Find, StripNewlines, Target, NextLine;
    NoTarget(s);
    AppendedFront(s);
    JustNewline();
    DocEmpty("");
  }

  /** A file with a target whose brackets nest: the list takes its place. */
  lemma FitsInPlace(tpl: Template, s: string, d: seq<Stmt>, k: nat, p: Place)
    requires Located(s, d, k, p) && Nested(p.inner, p.post)
    ensures Fits(tpl, Some(s), d[..k], d[k + 1..])
    ensures Ahead(tpl, Some(s)) == p.pre && Behind(tpl, Some(s)) == p.post
  {
    hide Doc, Find, Span, Target, Nested, Array, NextLine, Ahead, Behind;
    var list := "[" + (p.inner + ("]" + p.post));
    CutAtPlace(p);
    SpanOfArrayIff(p.inner, p.post);
    BracketsIs(p.inner, p.post);
    SuffixIs("[" + (p.inner + "]"), p.post, Span(list, 0));
    AroundFound(tpl, s, Found(|p.pre|, |p.pre| + |p.lead|), list);
  }

  lemma AroundFound(tpl: Template, s: string, f: Found, list: string)
    requires Find(WATCH_START, s) == Some(f) && s[f.open..] == list
    ensures Ahead(tpl, Some(s)) == s[..f.start] && Behind(tpl, Some(s)) == list[Span(list, 0)..]
  {
    hide Find, Span;
    assert s[f.open + Span(list, 0)..] == list[Span(list, 0)..];
  }

  /** What the file is read as after the write, for names without quotes: the statements
      before and behind are those of the old file. */
  lemma WrittenReads(tpl: Template, file: Option<string>, units: seq<string>, a: seq<Stmt>, t: seq<Stmt>)
    requires Fits(tpl, file, a, t) && AllQuoteFree(SortedSet(units))
    ensures var names := DecodedAll(SortedSet(units));
            Doc(Written(tpl, file, units))
            == if names.Some? then Some(a + ([Pair(KEY, Strings(names.value))] + t)) else None
  {
    hide Doc, Ahead, Behind, Written, SortedSet, DecodedAll, Assigned, Format, AllQuoteFree, NextLine, IsKey;
    var pre, post := Ahead(tpl, file), Behind(tpl, file);
    WrittenShape(tpl, file, units);
    FormatIs(SortedSet(units));
    KeyIsKey();
    QuoteFreePut(pre, KEY, SortedSet(units), post, a, t);
    assert pre + Format(SortedSet(units)) + post == pre + (Assigned(KEY, SortedSet(units)) + post);
  }

  /** Whatever the names: if the file is read, the list is the statement behind those of the
      lines before it, and it has the names written only if they are plain. */
  lemma WrittenReadsOnly(tpl: Template, file: Option<string>, units: seq<string>, a: seq<Stmt>) returns (items: seq<string>, t: seq<Stmt>)
    requires var pre := Ahead(tpl, file); (pre == [] || EndsNewline(pre)) && Doc(pre) == Some(a)
    requires Doc(Written(tpl, file, units)).Some?
    ensures Doc(Written(tpl, file, units)) == Some(a + ([Pair(KEY, Strings(items))] + t))
    ensures items == SortedSet(units) ==> AllPlain(SortedSet(units))
  {
    hide Doc, Ahead, Behind, Written, SortedSet, Assigned, Format, NextLine, Array, Bracketed, IsKey, AllPlain;
    var pre, post, us := Ahead(tpl, file), Behind(tpl, file), SortedSet(units);
    WrittenShape(tpl, file, units);
    FormatIs(us);
    KeyIsKey();
    PutReads(pre, KEY, us, post, a);
    assert pre + Format(us) + post == pre + (Assigned(KEY, us) + post);
    PrintedListReadsIff(us, post);
    BracketedShape(us, post);
    var x := Array(false, (Bracketed(us) + post)[1..]);
    items, t := x.value.0, Doc(NextLine(x.value.1).value).value;
  }

  // --- a file that loses its rest ------------------------------------------------------------------

  /** An empty list with a comment in it, and a setting behind it. */
  const COMMENTED := " # [\n"
  const SETTING := "\nbatch_size = 50\n"

  function CommentedFile(): string { KEY + (" = " + CommentedList()) }

  lemma CommentedArray()
    ensures Array(false, COMMENTED + ("]" + SETTING)) == Some(([], SETTING))
  {
    var r := "\n" + ("]" + SETTING);
    var c := "# [" + r;
    assert COMMENTED + ("]" + SETTING) == [' '] + c;
    SkipOne(false, ' ', c);
    RunFull("# [", NotControl);
    RunAppend("# [", r, NotControl);
    assert Run(r, NotControl) == 0;
    assert c[3..] == r && c[0] == '#';
    SkipOne(false, '\n', "]" + SETTING);
    assert ("]" + SETTING)[1..] == SETTING;
  }

  /** A key with any value. */
  lemma PairReads(key: string, rest: string, v: Value, after: string, q: string)
    requires IsKey(key) && rest != [] && !IsBlank(rest[0])
    requires ReadValue(rest) == Some((v, after)) && NextLine(after) == Some(q)
    ensures Doc(key + (" = " + rest)) == Joined([Pair(key, v)], Doc(q))
  {
    var s := key + (" = " + rest);
    KeyReads(key, rest);
    assert s[0] == key[0];
    hide *;
    KeyStart(s);
    PairStmt(s, key, rest, v, after, q);
    DocStmt(s, Pair(key, v), q);
  }

  lemma PairStmt(s: string, key: string, rest: string, v: Value, after: string, q: string)
    requires s != [] && s[0] != '[' && ReadKey(s) == Some((key, rest))
    requires ReadValue(rest) == Some((v, after)) && NextLine(after) == Some(q)
    ensures ReadStmt(s) == Some((Pair(key, v), q))
  {
  }

  lemma KeyStart(s: string)
    requires s != [] && IsKeyChar(s[0])
    ensures SkipBlanks(s) == s && NextLine(s) == None && s[0] != '['
  {
    assert Run(s, IsBlank) == 0 && s[0..] == s;
  }

  lemma SettingLine()
    ensures NextLine(SETTING) == Some("batch_size = 50\n")
  {
    assert Run(SETTING, IsBlank) == 0 && SETTING[1..] == "batch_size = 50\n";
  }

  lemma FiftyReads()
    ensures ReadValue("50\n") == Some((Bare("50"), "\n"))
  {
    var rest := "50" + "\n";
    RunFull("50", IsBareChar);
    RunAppend("50", "\n", IsBareChar);
    assert rest == "50\n" && rest[..2] == "50" && rest[2..] == "\n";
  }

  const BATCH := "batch_size"

  lemma BatchIsKey()
    ensures IsKey(BATCH)
  {
  }

  lemma SettingReads()
    ensures Doc("batch_size = 50\n") == Some([Pair(BATCH, Bare("50"))])
  {
    hide Doc, ReadValue, NextLine, IsKey, Run;
    FiftyReads();
    JustNewline();
    BatchIsKey();
    PairReads(BATCH, "50\n", Bare("50"), "\n", []);
    DocEmpty("");
    assert BATCH + (" = " + "50\n") == "batch_size = 50\n";
    assert [Pair(BATCH, Bare("50"))] + [] == [Pair(BATCH, Bare("50"))];
  }

  function CommentedList(): string { "[" + (COMMENTED + ("]" + SETTING)) }

  lemma CommentedValue()
    ensures ReadValue(CommentedList()) == Some((Strings([]), SETTING))
  {
    hide Array;
    CommentedArray();
    assert CommentedList()[1..] == COMMENTED + ("]" + SETTING);
  }

  lemma CommentedReads()
    ensures Doc(CommentedFile()) == Some([Pair(KEY, Strings([])), Pair(BATCH, Bare("50"))])
  {
    CommentedIs();
    CommentedValue();
    hide *;
    KeyIsKey();
    SettingLine();
    SettingReads();
    PairReads(KEY, CommentedList(), Strings([]), SETTING, "batch_size = 50\n");
    TwoPairs();
  }

  lemma CommentedIs()
    ensures CommentedFile() == KEY + (" = " + CommentedList())
    ensures CommentedList() != [] && CommentedList()[0] == '[' && !IsBlank('[')
  {
  }

  lemma TwoPairs()
    ensures Joined([Pair(KEY, Strings([]))], Some([Pair(BATCH, Bare("50"))]))
         == Some([Pair(KEY, Strings([])), Pair(BATCH, Bare("50"))])
  {
    var a, b := Pair(KEY, Strings([])), Pair(BATCH, Bare("50"));
    assert [a] + [b] == [a, b];
  }

  lemma {:induction false} SpanOfPlain(s: string, depth: nat)
    requires NoBracket(s)
    ensures Span(s, depth) == |s|
  {
    if s != [] { SpanOfPlain(s[1..], depth); }
  }

  lemma CommentedSpan()
    ensures Span(CommentedList(), 0) == |CommentedList()|
  {
    var list := CommentedList();
    assert list[1..] == COMMENTED + ("]" + SETTING);
    assert NoBracket(" # ") && NoBracket("\n") && NoBracket(SETTING);
    assert COMMENTED == " # " + "[\n";
    NoBracketNests(" # ");
    DepthSplit(" # ", "[\n", 1);
    assert "[\n"[1..] == "\n" && "\n"[1..] == [];
    assert DepthBehind(COMMENTED, 1) == Some(2);
    SpanSplit(COMMENTED, "]" + SETTING, 1);
    assert ("]" + SETTING)[1..] == SETTING;
    SpanOfPlain(SETTING, 1);
  }

  lemma CommentedFound()
    ensures var s := CommentedFile(); var open := |KEY| + 3;
            Find(WATCH_START, s) == Some(Found(0, open)) && s[open..] == CommentedList()
  {
    CommentedIs();
    var s := CommentedFile();
    CutKey(CommentedList());
    hide *;
    KeyIsKey();
    KeyReads(KEY, CommentedList());
    KeyStart(s);
    MatchMeans(s);
    FindAtOnce(s);
  }

  lemma CutKey(list: string)
    ensures var s := KEY + (" = " + list);
            s[|KEY| + 3..] == list && |s| == |KEY| + 3 + |list| && IsKeyChar(s[0])
  {
    assert KEY + (" = " + list) == (KEY + " = ") + list;
  }

  lemma CommentedWritten(tpl: Template, units: seq<string>)
    ensures Written(tpl, Some(CommentedFile()), units) == Format(SortedSet(units))
  {
    hide Find, Span, Format, SortedSet, CommentedFile, CommentedList;
    var a := Format(SortedSet(units));
    CommentedFound();
    CommentedSpan();
    ReplacedIs(CommentedFile(), a, Found(0, |KEY| + 3), CommentedList());
    assert [] + a + [] == a;
  }

  /** The file is proper and its list is empty; yet writing a list to it leaves nothing but
      the list: a bracket in the comment makes the scan run to the end, and the setting
      behind is lost. */
  lemma CommentLosesRest(tpl: Template, units: seq<string>)
    requires AllPlain(SortedSet(units))
    ensures Doc(CommentedFile()) == Some([Pair(KEY, Strings([])), Pair(BATCH, Bare("50"))])
    ensures Doc(Written(tpl, Some(CommentedFile()), units)) == Some([Pair(KEY, Strings(SortedSet(units)))])
  {
    hide *;
    CommentedReads();
    CommentedWritten(tpl, units);
    PlainDecodedAll(SortedSet(units));
    FormatIs(SortedSet(units));
    ReadsAlone(SortedSet(units));
  }

  lemma NoNextLine()
    ensures NextLine("") == Some("")
  {
  }

  lemma AloneIs(s: string, stmt: Stmt)
    ensures "" + (s + "") == s && [] + ([stmt] + []) == [stmt]
  {
  }

  lemma ReadsAlone(units: seq<string>)
    requires AllQuoteFree(units) && DecodedAll(units) == Some(units)
    ensures Doc(Assigned(KEY, units)) == Some([Pair(KEY, Strings(units))])
  {
    hide *;
    KeyIsKey();
    DocEmpty("");
    NoNextLine();
    QuoteFreePut("", KEY, units, "", [], []);
    AloneIs(Assigned(KEY, units), Pair(KEY, Strings(units)));
  }
}

/** Writing a watch list into a configuration file (hblog/config.py,
    `write_watch_units`). */
module WatchList {
  import opened Model
  import opened Text
  import opened ConfigFile
  import opened Search
  import opened Sorting
  import opened Systemctl

  // --- printing -----------------------------------------------------------------------------

  function Line(unit: string): string { "    \"" + unit + "\",\n" }

  function Body(units: seq<string>): string {
    if units == [] then [] else Line(units[0]) + Body(units[1..])
  }

  function Inner(units: seq<string>): string {
    if units == [] then [] else "\n" + Body(units)
  }

  /** The TOML array of a list. */
  function Bracketed(units: seq<string>): string {
    "[" + Inner(units) + "]"
  }

  lemma BracketedShape(units: seq<string>, post: string)
    ensures var s := Bracketed(units) + post;
            s != [] && s[0] == '[' && s[1..] == Inner(units) + ("]" + post)
  {
    hide Inner;
    assert Bracketed(units) + post == "[" + (Inner(units) + ("]" + post));
  }

  const HEAD := "watch_units = "

  function Format(units: seq<string>): string { HEAD + Bracketed(units) }

  /** Lists of no, one and two names in print. */
  lemma FormatExamples(u: string, v: string)
    ensures Format([]) == "watch_units = " + ("[" + "" + "]")
    ensures Format([u]) == "watch_units = " + ("[" + ("\n" + ("    \"" + u + "\",\n")) + "]")
    ensures Format([u, v])
         == "watch_units = " + ("[" + ("\n" + (("    \"" + u + "\",\n") + ("    \"" + v + "\",\n"))) + "]")
  {
    BodyExamples(u, v);
    hide Body;
  }

  lemma BodyExamples(u: string, v: string)
    ensures Body([u]) == "    \"" + u + "\",\n"
    ensures Body([u, v]) == ("    \"" + u + "\",\n") + ("    \"" + v + "\",\n")
  {
    hide Line;
    LineIs(u);
    LineIs(v);
    assert [u][1..] == [] && [v][1..] == [] && [u, v][1..] == [v];
    assert Line(u) + [] == Line(u) && Line(v) + [] == Line(v);
  }

  lemma LineIs(u: string)
    ensures Line(u) == "    \"" + u + "\",\n"
  {
  }

  // --- writing ------------------------------------------------------------------------------

  function StripNewlines(s: string): (r: string)
    ensures |r| <= |s| && r == s[..|r|]
  {
    if s != [] && s[|s| - 1] == '\n' then StripNewlines(s[..|s| - 1]) else s
  }

  /** The file a first scan creates, in two parts: what comes before the list and what
      comes after it. */
  datatype Template = Template(before: string, after: string) {
    /** The list stands on a line of its own, the first to assign it. */
    predicate Valid() {
      (before == [] || before[|before| - 1] == '\n') && Find(WATCH_START, before) == None
    }
  }

  /** The text that `write_watch_units` leaves in the file. */
  function Written(tpl: Template, file: Option<string>, units: seq<string>): string {
    var assignment := Format(SortedSet(units));
    match file
    case None => tpl.before + assignment + tpl.after
    case Some(text) =>
      var (newText, replaced) := Replaced(text, assignment);
      if replaced then newText else StripNewlines(text) + "\n\n" + assignment + "\n"
  }

  /** The configuration file: its text, if it exists. */
  class ConfigStore {
    var text: Option<string>

    method WriteWatchUnits(tpl: Template, units: seq<string>) returns (created: bool)
      modifies this
      ensures text == Some(Written(tpl, old(text), units))
      ensures created <==> old(text) == None
    {
      var assignment := Format(SortedSet(units));
      if text.Some? {
        var newText, replaced, _ := ReplaceWatchUnits(text.value, assignment);
        if !replaced {
          newText := StripNewlines(text.value) + "\n\n" + assignment + "\n";
        }
        text := Some(newText);
        return false;
      }
      text := Some(tpl.before + assignment + tpl.after);
      return true;
    }
  }

  lemma {:induction false} NewlinesStrip(body: string, nl: string)
    requires body != [] ==> body[|body| - 1] != '\n'
    requires forall i :: 0 <= i < |nl| ==> nl[i] == '\n'
    ensures StripNewlines(body + nl) == body
    decreases |nl|
  {
    if nl == [] {
      assert body + nl == body;
    } else {
      assert (body + nl)[..|body + nl| - 1] == body + nl[..|nl| - 1];
      NewlinesStrip(body, nl[..|nl| - 1]);
    }
  }

  /** A file without a list keeps its text but for final newlines, and gets the list behind
      one blank line. */
  lemma AppendedIs(tpl: Template, body: string, nl: string, units: seq<string>)
    requires Find(WATCH_START, body + nl) == None
    requires body != [] ==> body[|body| - 1] != '\n'
    requires forall i :: 0 <= i < |nl| ==> nl[i] == '\n'
    ensures Written(tpl, Some(body + nl), units) == body + "\n\n" + Format(SortedSet(units)) + "\n"
  {
    NewlinesStrip(body, nl);
    hide StripNewlines, Find, Format, SortedSet;
  }

  // --- what is written is found again --------------------------------------------------------------

  lemma PassFixed(text: string, parts: seq<Part>, s: string)
    ensures MatchParts([Fixed(text)] + parts, text + s) == MatchParts(parts, s)
  {
    assert ([Fixed(text)] + parts)[1..] == parts;
    assert (text + s)[|text|..] == s;
  }

  lemma PassBlanks(n: nat, parts: seq<Part>, s: string)
    requires n <= 1 && s != [] && !IsBlank(s[0])
    ensures MatchParts([Blanks] + parts, (if n == 1 then " " else "") + s) == MatchParts(parts, s)
  {
    assert ([Blanks] + parts)[1..] == parts;
    var t := (if n == 1 then " " else "") + s;
    assert n == 1 ==> t[1..] == s;
    assert n == 0 ==> t == s;
    assert Run(s, IsBlank) == 0;
    assert Run(t, IsBlank) == n;
    assert t[n..] == s;
  }

  lemma NothingToMatch(s: string)
    ensures MatchParts([], s) == Some(s)
  {
  }

  lemma PartsOfAssignment(s: string)
    requires s != [] && s[0] == '['
    ensures MatchParts(WATCH_START, KEY + (" " + ("=" + (" " + s)))) == Some(s)
  {
    hide MatchParts, Run;
    var s1 := " " + s;
    var s2 := "=" + s1;
    var s3 := " " + s2;
    WatchStartUnfolds();
    PassBlanks(0, [Fixed(KEY)] + ([Blanks] + ([Fixed("=")] + ([Blanks] + []))), KEY + s3);
    assert "" + (KEY + s3) == KEY + s3;
    PassFixed(KEY, [Blanks] + ([Fixed("=")] + ([Blanks] + [])), s3);
    PassBlanks(1, [Fixed("=")] + ([Blanks] + []), s2);
    PassFixed("=", [Blanks] + [], s1);
    PassBlanks(1, [], s);
    NothingToMatch(s);
  }

  lemma WatchStartUnfolds()
    ensures WATCH_START == [Blanks] + ([Fixed(KEY)] + ([Blanks] + ([Fixed("=")] + ([Blanks] + []))))
  {
  }

  lemma HeadShape(s: string)
    ensures HEAD + s == KEY + (" " + ("=" + (" " + s)))
  {
    assert HEAD == KEY + (" " + ("=" + " "));
  }

  lemma FormatShape(units: seq<string>, post: string)
    ensures Format(units) + post == HEAD + (Bracketed(units) + post)
    ensures (Format(units) + post)[|HEAD|..] == Bracketed(units) + post
    ensures |Format(units)| == |HEAD| + |Bracketed(units)|
  {
  }

  lemma FormatMatches(units: seq<string>, post: string)
    ensures MatchHere(WATCH_START, Format(units) + post) == Some(|HEAD|)
    ensures (Format(units) + post)[|HEAD|..] == Bracketed(units) + post
  {
    BracketedShape(units, post);
    FormatShape(units, post);
    HeadShape(Bracketed(units) + post);
    PartsOfAssignment(Bracketed(units) + post);
  }

  lemma {:induction false} StripIs(s: string)
    ensures AllNewlines(s[|StripNewlines(s)|..])
  {
    if s != [] && s[|s| - 1] == '\n' {
      StripIs(s[..|s| - 1]);
      var n := |StripNewlines(s)|;
      assert s[n..] == s[..|s| - 1][n..] + ['\n'];
    }
  }

  lemma AppendShape(text: string)
    requires Find(WATCH_START, text) == None
    ensures var pre := StripNewlines(text) + "\n\n"; EndsLine(pre) && Find(WATCH_START, pre) == None
  {
    hide Find, StripNewlines, NoNewlineParts;
    var r := StripNewlines(text);
    StripIs(text);
    assert text == r + text[|r|..];
    WatchStartParts();
    TrailingNewlines(WATCH_START, r, text[|r|..], "\n\n");
  }

  lemma ConsParts(x: Part, parts: seq<Part>)
    requires (x.Fixed? ==> OneLine(x.text)) && NoNewlineParts(parts)
    ensures NoNewlineParts([x] + parts)
  {
    assert ([x] + parts)[1..] == parts;
  }

  lemma NoParts()
    ensures NoNewlineParts([])
  {
  }

  lemma WatchStartParts()
    ensures NoNewlineParts(WATCH_START)
  {
    hide NoNewlineParts, Run;
    NoParts();
    RunFull(KEY, NotNewline);
    RunFull("=", NotNewline);
    ConsParts(Blanks, []);
    ConsParts(Fixed("="), [Blanks] + []);
    ConsParts(Blanks, [Fixed("=")] + ([Blanks] + []));
    ConsParts(Fixed(KEY), [Blanks] + ([Fixed("=")] + ([Blanks] + [])));
    ConsParts(Blanks, [Fixed(KEY)] + ([Blanks] + ([Fixed("=")] + ([Blanks] + []))));
    WatchStartUnfolds();
  }

  // --- the template ---------------------------------------------------------------------------------

  /** A line that cannot assign the key: empty, or with a first character that neither
      begins the key nor indents it. Such are the lines of the template's head, all
      comments, blank lines and the database path. */
  predicate CannotMatch(line: string) {
    OneLine(line) && (line == [] || (line[0] != KEY[0] && !IsBlank(line[0])))
  }

  function Unlines(lines: seq<string>): string {
    if lines == [] then [] else lines[0] + ("\n" + Unlines(lines[1..]))
  }

  lemma NoKey(line: string)
    requires CannotMatch(line)
    ensures MatchHere(WATCH_START, line) == None
  {
    assert Run(line, IsBlank) == 0 && line[0..] == line;
    var rest := WATCH_START[1..];
    assert rest[0] == Fixed(KEY) && !(KEY <= line);
    assert MatchParts(rest, line) == None;
    assert WATCH_START[0] == Blanks;
  }

  /** A template whose list stands behind such lines is a proper one, whatever follows. */
  lemma {:induction false} HeadIsProper(lines: seq<string>, after: string)
    requires forall i :: 0 <= i < |lines| ==> CannotMatch(lines[i])
    ensures Template(Unlines(lines), after).Valid()
  {
    if lines == [] {
      EmptyNoMatch(WATCH_START);
    } else {
      hide Find, MatchHere, OneLine, NoNewlineParts;
      HeadIsProper(lines[1..], after);
      NoKey(lines[0]);
      WatchStartParts();
      LineNone(WATCH_START, lines[0], Unlines(lines[1..]));
    }
  }

  // --- the shape of a file that was written ---------------------------------------------------

  /** What stands before and behind the list in a file that was written: all of the file
      but the span of its old list, or the whole file if it had none. */
  function Ahead(tpl: Template, file: Option<string>): string {
    match file
    case None => tpl.before
    case Some(text) =>
      match Find(WATCH_START, text)
      case None => StripNewlines(text) + "\n\n"
      case Some(f) => text[..f.start]
  }

  function Behind(tpl: Template, file: Option<string>): string {
    match file
    case None => tpl.after
    case Some(text) =>
      match Find(WATCH_START, text)
      case None => "\n"
      case Some(f) => text[f.open + Span(text[f.open..], 0)..]
  }

  lemma WrittenShape(tpl: Template, file: Option<string>, units: seq<string>)
    ensures Written(tpl, file, units) == Ahead(tpl, file) + Format(SortedSet(units)) + Behind(tpl, file)
  {
    hide Find, Span, StripNewlines, Format, SortedSet;
    if file.Some? && Find(WATCH_START, file.value).None? {
      var a, s := StripNewlines(file.value) + "\n\n", Format(SortedSet(units));
      assert Replaced(file.value, s) == (file.value, false);
    }
  }

  /** The list is always put at the beginning of a line, and nothing before it matches. */
  lemma AheadIsClear(tpl: Template, file: Option<string>)
    requires tpl.Valid()
    ensures EndsLine(Ahead(tpl, file)) && Find(WATCH_START, Ahead(tpl, file)) == None
  {
    hide Find, Span, StripNewlines, MatchHere, NoNewlineParts;
    if file.Some? {
      if Find(WATCH_START, file.value).Some? {
        WatchStartParts();
        FindSplits(WATCH_START, file.value);
      } else {
        AppendShape(file.value);
      }
    }
  }

  /** Where a written list is found. */
  lemma FoundAt(pre: string, units: seq<string>, post: string)
    requires EndsLine(pre) && Find(WATCH_START, pre) == None
    ensures Find(WATCH_START, pre + (Format(units) + post)) == Some(Found(|pre|, |pre| + |HEAD|))
  {
    FormatMatches(units, post);
    WatchStartParts();
    FindBehind(WATCH_START, pre, Format(units) + post);
  }

  lemma Pieces(pre: string, list: string, post: string, k: nat)
    requires k <= |list + post|
    ensures var text := pre + (list + post);
            && pre + list + post == text
            && text[..|pre|] == pre
            && text[|pre| + k..] == (list + post)[k..]
  {
  }

  lemma ReplacedIs(text: string, assignment: string, f: Found, list: string)
    requires Find(WATCH_START, text) == Some(f) && text[f.open..] == list
    ensures Replaced(text, assignment) == (text[..f.start] + assignment + list[Span(list, 0)..], true)
  {
    hide Find, Span;
    assert text[f.open + Span(list, 0)..] == list[Span(list, 0)..];
  }

  /** Rewriting a file that holds a written list. */
  lemma RewriteIs(pre: string, units: seq<string>, post: string, assignment: string)
    requires EndsLine(pre) && Find(WATCH_START, pre) == None
    ensures var list := Bracketed(units) + post;
            Replaced(pre + Format(units) + post, assignment) == (pre + assignment + list[Span(list, 0)..], true)
  {
    hide *;
    FoundAt(pre, units, post);
    FormatShape(units, post);
    Pieces(pre, Format(units), post, |HEAD|);
    ReplacedIs(pre + (Format(units) + post), assignment, Found(|pre|, |pre| + |HEAD|), Bracketed(units) + post);
  }

  // --- nesting ------------------------------------------------------------------------------------

  /** The nesting depth behind `s`, starting at `depth`; None if the outermost bracket is
      closed within `s`. */
  function DepthBehind(s: string, depth: nat): (d: Option<nat>)
    requires depth >= 1
    ensures d.Some? ==> d.value >= 1
  {
    if s == [] then Some(depth)
    else if s[0] == '[' then DepthBehind(s[1..], depth + 1)
    else if s[0] == ']' then if depth <= 1 then None else DepthBehind(s[1..], depth - 1)
    else DepthBehind(s[1..], depth)
  }

  lemma {:induction false} SpanSplit(s: string, q: string, depth: nat)
    requires depth >= 1
    ensures var d := DepthBehind(s, depth);
            if d.Some? then Span(s + q, depth) == |s| + Span(q, d.value) else Span(s + q, depth) <= |s|
  {
    if s == [] {
      assert s + q == q;
    } else {
      DropAppend(s, q, 1);
      var d := if s[0] == '[' then depth + 1 else if s[0] == ']' then depth - 1 else depth;
      if d >= 1 { SpanSplit(s[1..], q, d); }
    }
  }

  /** The closing bracket behind `inner` is the one that balances the opening bracket before
      it; or the nesting never closes, and nothing follows that could be lost. */
  predicate Nested(inner: string, post: string) {
    var d := DepthBehind(inner, 1);
    d.Some? && (d.value == 1 || post == "")
  }

  /** The scan for the closing bracket ends where the array does, exactly when the brackets
      between, those in comments and strings included, nest. */
  lemma SpanOfArrayIff(inner: string, post: string)
    ensures Span("[" + (inner + ("]" + post)), 0) == |inner| + 2 <==> Nested(inner, post)
  {
    var s := "[" + (inner + ("]" + post));
    assert s[1..] == inner + ("]" + post);
    SpanSplit(inner, "]" + post, 1);
    assert ("]" + post)[1..] == post;
  }

  lemma BracketedIs(units: seq<string>, post: string)
    ensures Bracketed(units) + post == "[" + (Inner(units) + ("]" + post))
    ensures |Bracketed(units)| == |Inner(units)| + 2
  {
    hide Inner;
  }

  lemma SuffixIs<T>(s: seq<T>, q: seq<T>, n: nat)
    requires n <= |s + q|
    ensures (s + q)[n..] == q <==> n == |s|
  {
  }

  /** The last write wins, exactly when: whatever the file was (missing, with the key,
      without it, with unbalanced brackets), writing `us` and then `vs` is the same as
      writing `vs` if and only if the brackets in the names of `us` nest. */
  lemma LastWriterWinsIff(tpl: Template, file: Option<string>, us: seq<string>, vs: seq<string>)
    requires tpl.Valid()
    ensures Written(tpl, Some(Written(tpl, file, us)), vs) == Written(tpl, file, vs)
            <==> Nested(Inner(SortedSet(us)), Behind(tpl, file))
  {
    hide Find, Ahead, Behind, Format, Bracketed, SortedSet, Nested, Span, Template.Valid;
    var pre, post, a := Ahead(tpl, file), Behind(tpl, file), Format(SortedSet(vs));
    var list := Bracketed(SortedSet(us)) + post;
    WrittenShape(tpl, file, us);
    WrittenShape(tpl, file, vs);
    AheadIsClear(tpl, file);
    RewriteIs(pre, SortedSet(us), post, a);
    SpanOfArrayIff(Inner(SortedSet(us)), post);
    BracketedIs(SortedSet(us), post);
    SuffixIs(Bracketed(SortedSet(us)), post, Span(list, 0));
    if list[Span(list, 0)..] != post { PrefixCancels(pre + a, list[Span(list, 0)..], post); }
  }

  predicate NoBracket(s: string) { forall i :: 0 <= i < |s| ==> s[i] != '[' && s[i] != ']' }

  predicate BracketFree(units: seq<string>) { forall i :: 0 <= i < |units| ==> NoBracket(units[i]) }

  lemma {:induction false} BodyNoBracket(units: seq<string>)
    requires BracketFree(units)
    ensures NoBracket(Body(units))
  {
    if units != [] {
      assert NoBracket(units[0]);
      BodyNoBracket(units[1..]);
    }
  }

  lemma {:induction false} NoBracketNests(s: string)
    requires NoBracket(s)
    ensures DepthBehind(s, 1) == Some(1)
  {
    if s != [] { NoBracketNests(s[1..]); }
  }

  /** In particular for names without brackets, as the names of services are. */
  lemma LastWriterWins(tpl: Template, file: Option<string>, us: seq<string>, vs: seq<string>)
    requires tpl.Valid() && BracketFree(us)
    ensures Written(tpl, Some(Written(tpl, file, us)), vs) == Written(tpl, file, vs)
  {
    SortedSetIs(us);
    assert BracketFree(SortedSet(us)) by {
      forall i | 0 <= i < |SortedSet(us)| ensures NoBracket(SortedSet(us)[i]) {
        assert SortedSet(us)[i] in us;
      }
    }
    BodyNoBracket(SortedSet(us));
    NoBracketNests(Inner(SortedSet(us)));
    LastWriterWinsIff(tpl, file, us, vs);
  }

  lemma {:induction false} DepthSplit(s: string, q: string, depth: nat)
    requires depth >= 1 && DepthBehind(s, depth).Some?
    ensures DepthBehind(s + q, depth) == DepthBehind(q, DepthBehind(s, depth).value)
  {
    if s == [] {
      assert s + q == q;
    } else {
      DropAppend(s, q, 1);
      DepthSplit(s[1..], q, if s[0] == '[' then depth + 1 else if s[0] == ']' then depth - 1 else depth);
    }
  }

  lemma OneName(u: string)
    ensures Inner(SortedSet([u])) == "\n    \"" + (u + "\",\n")
  {
    assert [u][1..] == [];
    assert SortedSet([u]) == [u];
    assert Body([u]) == Line(u) + [];
    assert "\n" + Line(u) == "\n    \"" + (u + "\",\n");
  }

  lemma {:induction false} EarlyStaysEarly(s: string, q: string, depth: nat)
    requires depth >= 1 && DepthBehind(s, depth).None?
    ensures DepthBehind(s + q, depth) == None
  {
    DropAppend(s, q, 1);
    var d := if s[0] == '[' then depth + 1 else if s[0] == ']' then depth - 1 else depth;
    if d >= 1 { EarlyStaysEarly(s[1..], q, d); }
  }

  /** A name with a closing bracket that nothing in it opens makes the next write leave a
      stump of the list behind, in every file. */
  lemma BracketBreaksRewriting(tpl: Template, file: Option<string>, u: string, vs: seq<string>)
    requires tpl.Valid() && DepthBehind(u, 1).None?
    ensures Written(tpl, Some(Written(tpl, file, [u])), vs) != Written(tpl, file, vs)
  {
    hide Written, DepthBehind, Inner, SortedSet, Template.Valid, Behind;
    LastWriterWinsIff(tpl, file, [u], vs);
    OneName(u);
    var front, rest := "\n    \"", "\",\n";
    NoBracketNests(front);
    EarlyStaysEarly(u, rest, 1);
    DepthSplit(front, u + rest, 1);
  }

  /** A service name alone on its line is listed as it is. */
  lemma ListedAlone(u: string)
    requires EndsWith(u, SERVICE) && forall i :: 0 <= i < |u| ==> NotSpace(u[i])
    ensures Listed(Lines(u)) == [u]
  {
    OneLineAlone(u);
    hide Lines, NamesService, EndsWith, Listed, FirstWord;
    assert NamesService(u, u) by { AloneNames(u); }
    LineLists(u, u);
  }

  lemma OneLineAlone(u: string)
    requires u != [] && forall i :: 0 <= i < |u| ==> NotSpace(u[i])
    ensures Lines(u) == [u]
  {
    assert forall i :: 0 <= i < |u| ==> NotSpace(u[i]) && NotNewline(u[i]);
    RunFull(u, NotNewline);
  }

  lemma AloneNames(u: string)
    requires EndsWith(u, SERVICE) && forall i :: 0 <= i < |u| ==> NotSpace(u[i])
    ensures NamesService(u, u)
  {
    EndsWithIff(u);
    assert FirstColumn(u, "", u, "");
  }

  const STRAY := "a].service"

  lemma StrayIs()
    ensures EndsWith(STRAY, SERVICE) && DepthBehind(STRAY, 1).None?
    ensures forall i :: 0 <= i < |STRAY| ==> NotSpace(STRAY[i])
  {
    assert STRAY[1..][0] == ']';
  }

  /** Such names do come out of a listing. */
  lemma ServiceNameBreaks(tpl: Template, file: Option<string>, vs: seq<string>)
    requires tpl.Valid()
    ensures Listed(Lines(STRAY)) == [STRAY]
    ensures Written(tpl, Some(Written(tpl, file, [STRAY])), vs) != Written(tpl, file, vs)
  {
    hide Written, Template.Valid, DepthBehind, EndsWith, NotSpace, Listed, Lines;
    StrayIs();
    ListedAlone(STRAY);
    BracketBreaksRewriting(tpl, file, STRAY, vs);
  }
}

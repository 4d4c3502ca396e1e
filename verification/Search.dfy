/** The line-anchored search of hblog/config.py, line by line. */
module Search {
  import opened Model
  import opened Text
  import opened ConfigFile

  predicate EndsLine(s: string) { s == [] || s[|s| - 1] == '\n' }

  predicate OneLine(s: string) { Run(s, NotNewline) == |s| }

  lemma {:induction false} RunStops(s: string, r: string, p: char -> bool)
    requires !p('\n')
    ensures Run(s + ("\n" + r), p) == Run(s, p)
  {
    RunAppend(s, "\n" + r, p);
  }

  lemma PrefixInLine(p: string, t: string, r: string)
    requires OneLine(p)
    ensures p <= t + ("\n" + r) <==> p <= t
  {
    var s := t + ("\n" + r);
    assert s[|t|] == '\n';
    RunHolds(p, NotNewline);
    if |p| <= |t| {
      assert s[..|p|] == t[..|p|];
    }
  }

  predicate NoNewlineParts(parts: seq<Part>) {
    parts != [] ==> (parts[0].Fixed? ==> OneLine(parts[0].text)) && NoNewlineParts(parts[1..])
  }

  lemma {:induction false} PartsInLine(parts: seq<Part>, t: string, r: string)
    requires NoNewlineParts(parts)
    ensures var m := MatchParts(parts, t);
            MatchParts(parts, t + ("\n" + r)) == if m.Some? then Some(m.value + ("\n" + r)) else None
    decreases |parts|
  {
    if parts != [] {
      var rest := parts[1..];
      if parts[0] == Blanks {
        var a := Run(t, IsBlank);
        RunStops(t, r, IsBlank);
        DropAppend(t, "\n" + r, a);
        PartsInLine(rest, t[a..], r);
      } else {
        var p := parts[0].text;
        PrefixInLine(p, t, r);
        if p <= t {
          DropAppend(t, "\n" + r, |p|);
          PartsInLine(rest, t[|p|..], r);
        }
      }
    }
  }

  /** What follows a line does not change whether it matches. */
  lemma MatchInLine(p: seq<Part>, line: string, r: string)
    requires NoNewlineParts(p)
    ensures MatchHere(p, line + ("\n" + r)) == MatchHere(p, line)
  {
    PartsInLine(p, line, r);
  }

  /** The first line of a text and what follows it. */
  lemma SplitLine(s: string) returns (line: string, rest: string)
    requires Run(s, NotNewline) < |s|
    ensures OneLine(line) && s == line + ("\n" + rest) && |line| == Run(s, NotNewline)
    ensures rest == s[|line| + 1..]
  {
    var n := Run(s, NotNewline);
    line, rest := s[..n], s[n + 1..];
    RunHolds(s, NotNewline);
    RunFull(line, NotNewline);
  }

  lemma EndsLineSplits(s: string)
    requires s != [] && EndsLine(s)
    ensures Run(s, NotNewline) < |s|
    ensures EndsLine(s[Run(s, NotNewline) + 1..])
  {
    RunHolds(s, NotNewline);
  }

  lemma LineCut(line: string, rest: string)
    requires OneLine(line)
    ensures var text := line + ("\n" + rest);
            && Run(text, NotNewline) == |line| < |text|
            && text[|line| + 1..] == rest
  {
    RunStops(line, rest, NotNewline);
  }

  lemma FindUnfolds(p: seq<Part>, text: string, m: Option<nat>, n: nat, rest: string)
    requires MatchHere(p, text) == m && Run(text, NotNewline) == n < |text| && text[n + 1..] == rest
    ensures Find(p, text) == if m.Some? then Some(Found(0, m.value)) else Shift(n + 1, Find(p, rest))
  {
  }

  lemma LineFirst(p: seq<Part>, line: string, rest: string)
    requires NoNewlineParts(p)
    requires OneLine(line)
    ensures Find(p, line + ("\n" + rest)) ==
            if MatchHere(p, line).Some? then Some(Found(0, MatchHere(p, line).value)) else Shift(|line| + 1, Find(p, rest))
  {
    hide *;
    MatchInLine(p, line, rest);
    LineCut(line, rest);
    FindUnfolds(p, line + ("\n" + rest), MatchHere(p, line), |line|, rest);
  }

  lemma ShiftShift(a: nat, n: nat, f: Option<Found>)
    ensures Shift(a, Shift(n, f)) == Shift(a + n, f)
  {
  }

  lemma ShiftNone(a: nat, f: Option<Found>)
    ensures Shift(a, f) == None <==> f == None
  {
  }

  lemma ShiftSome(a: nat, f: Found)
    ensures Shift(a, Some(f)) == Some(Found(a + f.start, a + f.open))
  {
  }

  lemma LineNone(p: seq<Part>, line: string, more: string)
    requires NoNewlineParts(p) && OneLine(line)
    ensures Find(p, line + ("\n" + more)) == None <==> MatchHere(p, line) == None && Find(p, more) == None
  {
    LineFirst(p, line, more);
    ShiftNone(|line| + 1, Find(p, more));
  }

  lemma Assoc(line: string, more: string, rest: string)
    ensures line + ("\n" + more) + rest == line + ("\n" + (more + rest))
    ensures |line + ("\n" + more)| == |line| + 1 + |more|
  {
  }

  lemma BehindLine(p: seq<Part>, line: string, tail: string, n: nat, f: Option<Found>)
    requires NoNewlineParts(p) && OneLine(line) && MatchHere(p, line) == None
    requires Find(p, tail) == Shift(n, f)
    ensures Find(p, line + ("\n" + tail)) == Shift(|line| + 1 + n, f)
  {
    hide *;
    LineFirst(p, line, tail);
    ShiftShift(|line| + 1, n, f);
  }

  lemma BehindNothing(p: seq<Part>, rest: string)
    ensures Find(p, "" + rest) == Shift(0, Find(p, rest))
  {
    assert "" + rest == rest;
  }

  /** Behind whole lines without a match the search goes on as if they were not there. */
  lemma {:induction false} FindBehind(p: seq<Part>, pre: string, rest: string)
    requires NoNewlineParts(p) && EndsLine(pre) && Find(p, pre) == None
    ensures Find(p, pre + rest) == Shift(|pre|, Find(p, rest))
    decreases |pre|
  {
    hide *;
    if pre == [] {
      BehindNothing(p, rest);
    } else {
      EndsLineSplits(pre);
      var line, more := SplitLine(pre);
      LineNone(p, line, more);
      FindBehind(p, more, rest);
      BehindLine(p, line, more + rest, |more|, Find(p, rest));
      Assoc(line, more, rest);
    }
  }

  /** A match splits the text into lines without one and a suffix that matches. */
  ghost predicate Splits(p: seq<Part>, text: string, f: Found) {
    && f.start <= f.open <= |text|
    && EndsLine(text[..f.start]) && Find(p, text[..f.start]) == None
    && MatchHere(p, text[f.start..]) == Some(f.open - f.start)
  }

  lemma NoneBehindLine(p: seq<Part>, line: string, pre: string)
    requires NoNewlineParts(p) && OneLine(line) && MatchHere(p, line) == None
    requires EndsLine(pre) && Find(p, pre) == None
    ensures EndsLine(line + ("\n" + pre)) && Find(p, line + ("\n" + pre)) == None
  {
    LineNone(p, line, pre);
  }

  lemma SplitsBehindLine(p: seq<Part>, line: string, more: string, f: Found)
    requires NoNewlineParts(p) && OneLine(line) && MatchHere(p, line) == None && Splits(p, more, f)
    ensures Splits(p, line + ("\n" + more), Found(|line| + 1 + f.start, |line| + 1 + f.open))
  {
    hide MatchHere, Find;
    NoneBehindLine(p, line, more[..f.start]);
    CutBehindLine(line, more, f.start);
    SplitsIs(p, line + ("\n" + more), Found(|line| + 1 + f.start, |line| + 1 + f.open),
             line + ("\n" + more[..f.start]), more[f.start..]);
  }

  lemma SplitsIs(p: seq<Part>, text: string, f: Found, pre: string, rest: string)
    requires f.start <= f.open <= |text| && pre == text[..f.start] && rest == text[f.start..]
    requires EndsLine(pre) && Find(p, pre) == None && MatchHere(p, rest) == Some(f.open - f.start)
    ensures Splits(p, text, f)
  {
  }

  lemma CutBehindLine(line: string, more: string, k: nat)
    requires k <= |more|
    ensures (line + ("\n" + more))[..|line| + 1 + k] == line + ("\n" + more[..k])
    ensures (line + ("\n" + more))[|line| + 1 + k..] == more[k..]
  {
  }

  lemma FoundInLine(p: seq<Part>, line: string, more: string)
    requires NoNewlineParts(p) && OneLine(line)
    requires MatchHere(p, line + ("\n" + more)) == None
    ensures Find(p, line + ("\n" + more)) == Shift(|line| + 1, Find(p, more)) && MatchHere(p, line) == None
  {
    LineFirst(p, line, more);
    MatchInLine(p, line, more);
  }

  lemma SplitsAtOnce(p: seq<Part>, text: string)
    requires MatchHere(p, text).Some?
    ensures Splits(p, text, Found(0, MatchHere(p, text).value))
  {
    assert text[0..] == text && text[..0] == [];
    EmptyNoMatch(p);
  }

  lemma SplitsLater(p: seq<Part>, line: string, more: string, f: Found)
    requires NoNewlineParts(p) && OneLine(line) && MatchHere(p, line) == None
    requires Find(p, more) == Some(f) && Splits(p, more, f)
    ensures Find(p, line + ("\n" + more)) == Some(Found(|line| + 1 + f.start, |line| + 1 + f.open))
    ensures Splits(p, line + ("\n" + more), Found(|line| + 1 + f.start, |line| + 1 + f.open))
  {
    hide *;
    hide *;
    LineFirst(p, line, more);
    ShiftSome(|line| + 1, f);
    SplitsBehindLine(p, line, more, f);
  }

  lemma {:induction false} FindSplits(p: seq<Part>, text: string)
    requires NoNewlineParts(p) && Find(p, text).Some?
    ensures Splits(p, text, Find(p, text).value)
    decreases |text|
  {
    if MatchHere(p, text).Some? {
      SplitsAtOnce(p, text);
    } else {
      var line, more := SplitLine(text);
      FoundInLine(p, line, more);
      ShiftNone(|line| + 1, Find(p, more));
      FindSplits(p, more);
      SplitsLater(p, line, more, Find(p, more).value);
    }
  }

  lemma EmptyNoMatch(p: seq<Part>)
    ensures Find(p, "") == None
  {
    assert MatchHere(p, "") == None;
  }

  predicate AllNewlines(z: string) { forall i :: 0 <= i < |z| ==> z[i] == '\n' }

  lemma {:induction false} NewlinesNoMatch(p: seq<Part>, z: string)
    requires NoNewlineParts(p)
    requires AllNewlines(z)
    ensures Find(p, z) == None
    decreases |z|
  {
    EmptyNoMatch(p);
    if z != [] {
      MatchInLine(p, "", z[1..]);
      assert z == "" + ("\n" + z[1..]);
      NewlinesNoMatch(p, z[1..]);
    }
  }

  /** Whether the lines of `r` match does not depend on the newlines behind them. */
  lemma {:induction false} TrailingNewlines(p: seq<Part>, r: string, y: string, z: string)
    requires NoNewlineParts(p)
    requires AllNewlines(y) && AllNewlines(z) && Find(p, r + y) == None
    ensures Find(p, r + z) == None
    decreases |r|
  {
    if Run(r, NotNewline) < |r| {
      var line, more := SplitLine(r);
      Assoc(line, more, y);
      Assoc(line, more, z);
      LineNone(p, line, more + y);
      LineNone(p, line, more + z);
      TrailingNewlines(p, more, y, z);
    } else {
      LastLine(p, r, y);
      LastLine(p, r, z);
    }
  }

  lemma LastLine(p: seq<Part>, line: string, z: string)
    requires NoNewlineParts(p)
    requires OneLine(line) && AllNewlines(z)
    ensures Find(p, line + z) == if MatchHere(p, line).Some? then Some(Found(0, MatchHere(p, line).value)) else None
  {
    if z == [] {
      assert line + z == line;
    } else {
      assert line + z == line + ("\n" + z[1..]);
      LineFirst(p, line, z[1..]);
      NewlinesNoMatch(p, z[1..]);
    }
  }
}

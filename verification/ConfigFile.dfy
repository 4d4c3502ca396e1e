/** Finding and replacing the watch list in the configuration file (hblog/config.py). */
module ConfigFile {
  import opened Model
  import opened Text

  const KEY := "watch_units"

  // --- finding the assignment -------------------------------------------------------------

  /** The parts of a regular expression without choices: [ \t]*, or a fixed text. */
  datatype Part = Blanks | Fixed(text: string)

  /** Greedy match of the parts at the front of `s`: what is left of it. No part begins
      with what a Blanks before it consumes, so there is nothing to backtrack. */
  function MatchParts(parts: seq<Part>, s: string): (r: Option<string>)
    ensures r.Some? ==> |r.value| <= |s|
    decreases |parts|
  {
    if parts == [] then Some(s)
    else if parts[0] == Blanks then MatchParts(parts[1..], s[Run(s, IsBlank)..])
    else if parts[0].text <= s then MatchParts(parts[1..], s[|parts[0].text|..])
    else None
  }

  /** [ \t]*watch_units[ \t]*=[ \t]* */
  const WATCH_START: seq<Part> := [Blanks, Fixed(KEY), Blanks, Fixed("="), Blanks]

  /** The parts and an opening bracket at the front of `s`: the bracket's position. */
  function MatchHere(parts: seq<Part>, s: string): (r: Option<nat>)
    ensures r.Some? ==> r.value < |s|
  {
    var m := MatchParts(parts, s);
    if m.Some? && m.value != [] && m.value[0] == '[' then Some(|s| - |m.value|) else None
  }

  /** Start of the matching line and position of the bracket. */
  datatype Found = Found(start: nat, open: nat)

  function Shift(n: nat, f: Option<Found>): Option<Found> {
    if f.Some? then Some(Found(n + f.value.start, n + f.value.open)) else None
  }

  /** The leftmost match at the beginning of a line: (?m)^ and the parts. */
  function Find(parts: seq<Part>, text: string): (r: Option<Found>)
    ensures r.Some? ==> r.value.start <= r.value.open < |text|
    decreases |text|
  {
    var m := MatchHere(parts, text);
    if m.Some? then Some(Found(0, m.value))
    else
      var n := Run(text, NotNewline);
      if n == |text| then None else Shift(n + 1, Find(parts, text[n + 1..]))
  }

  lemma {:induction false} PartsLeaveSuffix(parts: seq<Part>, s: string)
    ensures var m := MatchParts(parts, s); m.Some? ==> m.value == s[|s| - |m.value|..]
    decreases |parts|
  {
    if parts != [] {
      if parts[0] == Blanks {
        PartsLeaveSuffix(parts[1..], s[Run(s, IsBlank)..]);
      } else if parts[0].text <= s {
        PartsLeaveSuffix(parts[1..], s[|parts[0].text|..]);
      }
    }
  }

  lemma {:induction false} FindsBracket(parts: seq<Part>, text: string)
    ensures var f := Find(parts, text); f.Some? ==> text[f.value.open] == '['
    decreases |text|
  {
    PartsLeaveSuffix(parts, text);
    var n := Run(text, NotNewline);
    if MatchHere(parts, text).None? && n < |text| {
      FindsBracket(parts, text[n + 1..]);
    }
  }

  /** Length of the text from a bracket up to the one that closes it, at nesting depth
      `depth`; all of the text if nothing closes it. */
  function Span(s: string, depth: nat): (n: nat)
    ensures n <= |s|
  {
    if s == [] then 0
    else if s[0] == '[' then 1 + Span(s[1..], depth + 1)
    else if s[0] == ']' then if depth <= 1 then 1 else 1 + Span(s[1..], depth - 1)
    else 1 + Span(s[1..], depth)
  }

  /** Opening minus closing brackets. */
  function Balance(s: string): int {
    if s == [] then 0
    else Balance(s[..|s| - 1]) + (if s[|s| - 1] == '[' then 1 else if s[|s| - 1] == ']' then -1 else 0)
  }

  function Replaced(text: string, assignment: string): (string, bool) {
    match Find(WATCH_START, text)
    case None => (text, false)
    case Some(f) => (text[..f.start] + assignment + text[f.open + Span(text[f.open..], 0)..], true)
  }

  lemma BalanceStep(text: string, i: nat, j: nat)
    requires i <= j < |text|
    ensures Balance(text[i..j + 1])
         == Balance(text[i..j]) + (if text[j] == '[' then 1 else if text[j] == ']' then -1 else 0)
  {
    var s := text[i..j + 1];
    assert s[..|s| - 1] == text[i..j] && s[|s| - 1] == text[j];
  }

  lemma SpanStep(text: string, j: nat, depth: nat)
    requires j < |text|
    ensures Span(text[j..], depth)
         == if text[j] == '[' then 1 + Span(text[j + 1..], depth + 1)
            else if text[j] == ']' then if depth <= 1 then 1 else 1 + Span(text[j + 1..], depth - 1)
            else 1 + Span(text[j + 1..], depth)
  {
    assert text[j..][1..] == text[j + 1..];
  }

  /** Scans from the bracket at `i` to the one that balances it, or to the end. */
  method CloseBracket(text: string, i: nat) returns (j: nat)
    requires i < |text| && text[i] == '['
    ensures i <= j <= |text|
    ensures forall k :: i < k <= j ==> Balance(text[i..k]) > 0
    ensures j < |text| ==> Balance(text[i..j + 1]) == 0
    ensures i + Span(text[i..], 0) == if j < |text| then j + 1 else j
  {
    var depth: int := 0;
    j := i;
    assert text[i..i] == [];
    while j < |text|
      invariant i <= j <= |text|
      invariant depth == Balance(text[i..j]) && depth >= 0 && (j > i ==> depth > 0)
      invariant forall k :: i < k <= j ==> Balance(text[i..k]) > 0
      invariant i + Span(text[i..], 0) == j + Span(text[j..], depth)
    {
      BalanceStep(text, i, j);
      SpanStep(text, j, depth);
      if text[j] == '[' {
        depth := depth + 1;
      } else if text[j] == ']' {
        depth := depth - 1;
        if depth == 0 {
          break;
        }
      }
      j := j + 1;
    }
  }

  /** Replaces the span of the array. With a match, the text before it stays, and so does
      the text behind the bracket at position `close` that balances the opening one; a
      bracket that nothing balances takes the rest of the file with it. */
  method ReplaceWatchUnits(text: string, assignment: string)
    returns (newText: string, replaced: bool, ghost close: nat)
    ensures (newText, replaced) == Replaced(text, assignment)
    ensures replaced <==> Find(WATCH_START, text).Some?
    ensures !replaced ==> newText == text
    ensures replaced ==>
              var f := Find(WATCH_START, text).value;
              && f.open <= close <= |text|
              && (forall k :: f.open < k <= close ==> Balance(text[f.open..k]) > 0)
              && (close < |text| ==>
                    Balance(text[f.open..close + 1]) == 0
                    && newText == text[..f.start] + assignment + text[close + 1..])
              && (close == |text| ==> newText == text[..f.start] + assignment)
  {
    var m := Find(WATCH_START, text);
    if m.None? {
      return text, false, 0;
    }
    FindsBracket(WATCH_START, text);
    var j := CloseBracket(text, m.value.open);
    close := j;
    var end := if j < |text| then j + 1 else j;
    newText, replaced := text[..m.value.start] + assignment + text[end..], true;
  }
}

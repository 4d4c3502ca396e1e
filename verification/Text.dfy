/** Character classes and small string functions of the source language, on ASCII text.
    Characters from 128 upwards belong to no class and have no case. */
module Text {
  import opened Model

  predicate IsDigit(c: char) { '0' <= c <= '9' }

  predicate IsHex(c: char) { IsDigit(c) || 'a' <= c <= 'f' || 'A' <= c <= 'F' }

  predicate IsSpace(c: char) { 9 <= c as int <= 13 || 28 <= c as int <= 32 }

  predicate NotNewline(c: char) { c != '\n' }

  predicate IsBlank(c: char) { c == ' ' || c == '\t' }

  predicate IsWord(c: char) { IsDigit(c) || 'a' <= c <= 'z' || 'A' <= c <= 'Z' || c == '_' }

  function LowerChar(c: char): char {
    if 'A' <= c <= 'Z' then (c as int + 32) as char else c
  }

  function Lower(s: string): (r: string)
    ensures |r| == |s|
    ensures forall i :: 0 <= i < |s| ==> r[i] == LowerChar(s[i])
  {
    seq(|s|, i requires 0 <= i < |s| => LowerChar(s[i]))
  }

  predicate AllDigits(s: string) { forall i :: 0 <= i < |s| ==> IsDigit(s[i]) }

  predicate AllHex(s: string) { forall i :: 0 <= i < |s| ==> IsHex(s[i]) }

  /** `p` occurs in `s` at position `i`. */
  predicate At(s: string, i: nat, p: string) {
    i + |p| <= |s| && s[i..i + |p|] == p
  }

  predicate Contains(s: string, p: string) {
    exists i :: 0 <= i <= |s| && At(s, i, p)
  }

  /** Decimal rendering of a natural number. */
  function Decimal(n: nat): (r: string)
    ensures r != [] && AllDigits(r)
  {
    if n < 10 then [(n + '0' as int) as char]
    else Decimal(n / 10) + [(n % 10 + '0' as int) as char]
  }

  /** Length of the longest prefix of `s` whose characters satisfy `p`. */
  function Run(s: string, p: char -> bool): (n: nat)
    ensures n <= |s|
    ensures n < |s| ==> !p(s[n])
  {
    if s == [] || !p(s[0]) then 0 else 1 + Run(s[1..], p)
  }

  lemma {:induction false} RunHolds(s: string, p: char -> bool)
    ensures forall i :: 0 <= i < Run(s, p) ==> p(s[i])
  {
    if s != [] && p(s[0]) {
      RunHolds(s[1..], p);
      assert forall i :: 1 <= i < Run(s, p) ==> s[i] == s[1..][i - 1];
    }
  }

  lemma {:induction false} RunFull(s: string, p: char -> bool)
    requires forall i :: 0 <= i < |s| ==> p(s[i])
    ensures Run(s, p) == |s|
  {
    if s != [] { RunFull(s[1..], p); }
  }

  lemma DropAppend<T>(a: seq<T>, q: seq<T>, k: nat)
    ensures k <= |a| ==> (a + q)[k..] == a[k..] + q
    ensures k <= |q| ==> (a + q)[|a| + k..] == q[k..]
  {
  }

  lemma PrefixCancels<T>(p: seq<T>, u: seq<T>, v: seq<T>)
    requires u != v
    ensures p + u != p + v
  {
    assert (p + u)[|p|..] == u && (p + v)[|p|..] == v;
  }

  lemma PrefixUnique<T>(p: seq<T>, u: seq<T>, v: seq<T>)
    requires p + u == p + v
    ensures u == v
  {
    assert (p + u)[|p|..] == u && (p + v)[|p|..] == v;
  }

  lemma {:induction false} RunAppend(s: string, q: string, p: char -> bool)
    ensures Run(s, p) < |s| ==> Run(s + q, p) == Run(s, p)
    ensures Run(s, p) == |s| ==> Run(s + q, p) == |s| + Run(q, p)
  {
    if s == [] {
      assert s + q == q;
    } else {
      assert (s + q)[1..] == s[1..] + q;
      RunAppend(s[1..], q, p);
    }
  }

  function LStrip(s: string): string {
    s[Run(s, IsSpace)..]
  }

  function RStrip(s: string): (r: string)
    ensures |r| <= |s| && r == s[..|r|]
    ensures r != [] ==> !IsSpace(r[|r| - 1])
  {
    if s == [] then ""
    else if IsSpace(s[|s| - 1]) then RStrip(s[..|s| - 1])
    else s
  }

  function Strip(s: string): string {
    RStrip(LStrip(s))
  }

  lemma NothingStripped(s: string)
    requires s != [] ==> !IsSpace(s[0]) && !IsSpace(s[|s| - 1])
    ensures Strip(s) == s
  {
    assert LStrip(s) == s[0..] == s;
  }

  // --- integers as the source's int() reads them --------------------------------

  /** Digits, with single underscores allowed between two digits. */
  predicate IsIntBody(s: string) {
    && s != [] && IsDigit(s[0]) && IsDigit(s[|s| - 1])
    && (forall i :: 0 <= i < |s| ==> IsDigit(s[i]) || s[i] == '_')
    && (forall i :: 0 <= i < |s| - 1 ==> IsDigit(s[i]) || IsDigit(s[i + 1]))
  }

  function DigitsValue(s: string): nat {
    if s == [] then 0
    else if IsDigit(s[|s| - 1]) then
      10 * DigitsValue(s[..|s| - 1]) + (s[|s| - 1] as int - '0' as int)
    else DigitsValue(s[..|s| - 1])
  }

  /** `int(text)`, with None for ValueError: outer whitespace and one sign are allowed. */
  function ParseInt(text: string): Option<int> {
    var s := Strip(text);
    if s != [] && s[0] == '-' && IsIntBody(s[1..]) then Some(0 - DigitsValue(s[1..]))
    else if s != [] && s[0] == '+' && IsIntBody(s[1..]) then Some(DigitsValue(s[1..]))
    else if IsIntBody(s) then Some(DigitsValue(s))
    else None
  }
}

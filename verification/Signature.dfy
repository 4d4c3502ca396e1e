/** The grouping key of a problem (hblog/classify.py, `_signature`): three regular
    expression substitutions, a strip and a cut, and the laws that make it a key. */
module Signature {
  import opened Model
  import opened Text

  // --- the rewrites -------------------------------------------------------------

  /** The pattern 0x[0-9a-fA-F]+ matches at the front of `s`. */
  predicate HexAt(s: string) {
    |s| >= 3 && s[0] == '0' && s[1] == 'x' && IsHex(s[2])
  }

  /** What is left of `s` after the hex literal at its front. */
  function AfterHex(s: string): (r: string)
    requires HexAt(s)
    ensures |r| < |s|
    ensures r == s[|s| - |r|..]
    ensures r == [] || !IsHex(r[0])
  {
    s[2 + Run(s[2..], IsHex)..]
  }

  function HexSub(s: string): (r: string)
    ensures s == [] <==> r == []
    ensures s != [] ==> r[0] == s[0]
    decreases |s|
  {
    if s == [] then []
    else if HexAt(s) then "0x#" + HexSub(AfterHex(s))
    else [s[0]] + HexSub(s[1..])
  }

  function NumSub(s: string): (r: string)
    ensures s == [] <==> r == []
    ensures s != [] ==> r[0] == if IsDigit(s[0]) then '#' else s[0]
    decreases |s|
  {
    if s == [] then []
    else if IsDigit(s[0]) then "#" + NumSub(s[Run(s, IsDigit)..])
    else [s[0]] + NumSub(s[1..])
  }

  function WsSub(s: string): (r: string)
    ensures s == [] <==> r == []
    ensures s != [] ==> r[0] == if IsSpace(s[0]) then ' ' else s[0]
    decreases |s|
  {
    if s == [] then []
    else if IsSpace(s[0]) then " " + WsSub(s[Run(s, IsSpace)..])
    else [s[0]] + WsSub(s[1..])
  }

  const CUT := 80

  function Normalise(message: string): string {
    Strip(WsSub(NumSub(HexSub(Lower(message)))))
  }

  function Cut(s: string): string {
    if |s| <= CUT then s else s[..CUT]
  }

  function ShowInt(n: int): string {
    if n < 0 then "-" + Decimal(-n) else Decimal(n)
  }

  /** The key within (unit, kind). Crashes are keyed on how the process died. */
  function SignatureOf(kind: Kind, exitCode: Option<int>, signal: Option<int>, message: string): string {
    match kind
    case Crash =>
      if signal.Some? then "crash:signal=" + ShowInt(signal.value)
      else if exitCode.Some? then "crash:exit=" + ShowInt(exitCode.value)
      else "crash"
    case Oom => "oom"
    case Failed => "failed"
    case Error | RestartLoop => Cut(Normalise(message))
  }

  // --- crashes are grouped by how the process died ----------------------------------

  lemma {:induction false} DecimalReads(n: nat)
    ensures DigitsValue(Decimal(n)) == n
  {
    var d := Decimal(n);
    if n >= 10 {
      DecimalReads(n / 10);
      assert d[..|d| - 1] == Decimal(n / 10);
    } else {
      assert d[..0] == [];
    }
  }

  lemma ShowSign(n: int)
    ensures ShowInt(n) != [] && (ShowInt(n)[0] == '-' <==> n < 0)
  {
  }

  lemma ShowIntInjective(a: int, b: int)
    requires ShowInt(a) == ShowInt(b)
    ensures a == b
  {
    ShowSign(a);
    ShowSign(b);
    if a < 0 {
      PrefixUnique("-", Decimal(-a), Decimal(-b));
      DecimalReads(-a);
      DecimalReads(-b);
    } else {
      DecimalReads(a);
      DecimalReads(b);
    }
  }

  /** What a crash is keyed on: the signal, else the exit code, else nothing. */
  datatype Death = BySignal(n: int) | ByExit(n: int) | Unknown

  function DeathOf(exitCode: Option<int>, signal: Option<int>): Death {
    if signal.Some? then BySignal(signal.value) else if exitCode.Some? then ByExit(exitCode.value) else Unknown
  }

  function DeathText(d: Death): string {
    match d
    case BySignal(n) => "crash:signal=" + ShowInt(n)
    case ByExit(n) => "crash:exit=" + ShowInt(n)
    case Unknown => "crash"
  }

  lemma DeathShape(d: Death)
    ensures var t := DeathText(d);
            && |t| >= 5 && (d.Unknown? <==> |t| == 5)
            && (d.BySignal? ==> |t| > 6 && t[6] == 's')
            && (d.ByExit? ==> |t| > 6 && t[6] == 'e')
  {
    hide ShowInt;
  }

  lemma DeathTextInjective(a: Death, b: Death)
    requires DeathText(a) == DeathText(b)
    ensures a == b
  {
    DeathShape(a);
    DeathShape(b);
    if a.BySignal? && b.BySignal? {
      PrefixUnique("crash:signal=", ShowInt(a.n), ShowInt(b.n));
      ShowIntInjective(a.n, b.n);
    } else if a.ByExit? && b.ByExit? {
      PrefixUnique("crash:exit=", ShowInt(a.n), ShowInt(b.n));
      ShowIntInjective(a.n, b.n);
    }
  }

  /** Two crashes of a unit fall into one incident if and only if the processes died in
      the same way, whatever their messages say. */
  lemma CrashKeyIff(e1: Option<int>, s1: Option<int>, m1: string, e2: Option<int>, s2: Option<int>, m2: string)
    ensures SignatureOf(Crash, e1, s1, m1) == SignatureOf(Crash, e2, s2, m2)
            <==> DeathOf(e1, s1) == DeathOf(e2, s2)
  {
    hide ShowInt;
    var a, b := DeathOf(e1, s1), DeathOf(e2, s2);
    assert SignatureOf(Crash, e1, s1, m1) == DeathText(a) && SignatureOf(Crash, e2, s2, m2) == DeathText(b);
    if DeathText(a) == DeathText(b) { DeathTextInjective(a, b); }
  }

  // --- normal form --------------------------------------------------------------

  predicate Lowered(s: string) { forall i :: 0 <= i < |s| ==> LowerChar(s[i]) == s[i] }

  predicate NoDigit(s: string) { forall i :: 0 <= i < |s| ==> !IsDigit(s[i]) }

  /** Every blank is a space, and no two of them touch. */
  predicate SingleSpaced(s: string) {
    && (forall i :: 0 <= i < |s| && IsSpace(s[i]) ==> s[i] == ' ')
    && (forall i {:trigger s[i]} :: 0 <= i < |s| - 1 ==> !IsSpace(s[i]) || !IsSpace(s[i + 1]))
  }

  /** Lower case, no digit, every blank a single space, none at the front - but a cut
      may leave one at the end. */
  predicate NearNormal(s: string) {
    Lowered(s) && NoDigit(s) && SingleSpaced(s) && (s != [] ==> s[0] != ' ')
  }

  predicate Normal(s: string) {
    NearNormal(s) && (s != [] ==> s[|s| - 1] != ' ')
  }

  lemma {:induction false} HexSubLowered(s: string)
    requires Lowered(s)
    ensures Lowered(HexSub(s))
    decreases |s|
  {
    if s != [] {
      HexSubLowered(if HexAt(s) then AfterHex(s) else s[1..]);
    }
  }

  lemma {:induction false} NumSubClean(s: string)
    requires Lowered(s)
    ensures Lowered(NumSub(s)) && NoDigit(NumSub(s))
    decreases |s|
  {
    if s != [] {
      NumSubClean(if IsDigit(s[0]) then s[Run(s, IsDigit)..] else s[1..]);
    }
  }

  lemma {:induction false} WsSubClean(s: string)
    requires Lowered(s) && NoDigit(s)
    ensures Lowered(WsSub(s)) && NoDigit(WsSub(s)) && SingleSpaced(WsSub(s))
    decreases |s|
  {
    if s != [] {
      var t := if IsSpace(s[0]) then s[Run(s, IsSpace)..] else s[1..];
      var c := if IsSpace(s[0]) then ' ' else s[0];
      WsSubClean(t);
      assert WsSub(s) == [c] + WsSub(t);
      CleanCons(c, WsSub(t));
    }
  }

  lemma CleanCons(c: char, w: string)
    requires LowerChar(c) == c && !IsDigit(c) && (IsSpace(c) ==> c == ' ')
    requires IsSpace(c) && w != [] ==> !IsSpace(w[0])
    requires Lowered(w) && NoDigit(w) && SingleSpaced(w)
    ensures Lowered([c] + w) && NoDigit([c] + w) && SingleSpaced([c] + w)
  {
    var s := [c] + w;
    assert forall i :: 1 <= i < |s| ==> s[i] == w[i - 1];
  }

  /** Every normalised message is in normal form. */
  lemma NormaliseIsNormal(m: string)
    ensures Normal(Normalise(m))
  {
    HexSubLowered(Lower(m));
    NumSubClean(HexSub(Lower(m)));
    var w := WsSub(NumSub(HexSub(Lower(m))));
    WsSubClean(NumSub(HexSub(Lower(m))));
    var t := LStrip(w);
    assert NearNormal(t);
  }

  lemma {:induction false} NoDigitFixed(s: string)
    requires NoDigit(s)
    ensures HexSub(s) == s && NumSub(s) == s
  {
    if s != [] {
      NoDigitFixed(s[1..]);
    }
  }

  lemma {:induction false} SingleSpacedFixed(s: string)
    requires SingleSpaced(s)
    ensures WsSub(s) == s
  {
    if s != [] {
      SingleSpacedFixed(s[1..]);
      if IsSpace(s[0]) {
        assert Run(s[1..], IsSpace) == 0;
      }
    }
  }

  /** Normalising a cut normal form again only drops a trailing space. */
  lemma NearNormalAgain(s: string)
    requires NearNormal(s)
    ensures Normalise(s) == if s != [] && s[|s| - 1] == ' ' then s[..|s| - 1] else s
  {
    assert Lower(s) == s;
    NoDigitFixed(s);
    SingleSpacedFixed(s);
    assert LStrip(s) == s;
    if s != [] && s[|s| - 1] == ' ' {
      var t := s[..|s| - 1];
      assert t != [] && t[|t| - 1] == s[|s| - 2];
      assert RStrip(t) == t;
    }
  }

  /** The rewrite before the cut is idempotent. */
  lemma NormaliseIdempotent(m: string)
    ensures Normalise(Normalise(m)) == Normalise(m)
  {
    NormaliseIsNormal(m);
    NearNormalAgain(Normalise(m));
  }

  /** Re-normalising a signature changes it at most by dropping one trailing space,
      and it does so exactly when the cut fell behind a space. */
  lemma CutRenormalises(m: string)
    ensures var n := Normalise(m); var t := Cut(n);
            Normalise(t) == if |n| > CUT && n[CUT - 1] == ' ' then t[..CUT - 1] else t
  {
    NormaliseIsNormal(m);
    var n := Normalise(m);
    var t := Cut(n);
    assert NearNormal(t);
    NearNormalAgain(t);
  }

  // --- invariance under changing a number ----------------------------------------

  /** Scanning `a` for hex literals ends inside one (or just behind its 0x): digits
      that follow are swallowed by it. */
  predicate HexOpen(a: string)
    decreases |a|
  {
    if a == [] then false
    else if HexAt(a) then AfterHex(a) == [] || HexOpen(AfterHex(a))
    else a == "0x" || HexOpen(a[1..])
  }

  predicate XHex(b: string) {
    |b| >= 2 && b[0] == 'x' && IsHex(b[1])
  }

  /** The text behind a number cannot turn its last digit into the start of a hex
      literal in a way that shows: it does not begin with x and a hex digit, or the
      hex digits there are all decimal and end in a number that is itself safe. */
  predicate Safe(b: string)
    decreases |b|
  {
    XHex(b) ==>
      var n := Run(b[1..], IsHex);
      var h := b[1..1 + n];
      AllDigits(h) && (h[n - 1] == '0' ==> Safe(b[1 + n..]))
  }

  predicate DigitRun(d: string) {
    d != [] && AllDigits(d)
  }

  predicate StartsWithDigit(s: string) { s != [] && IsDigit(s[0]) }

  predicate EndsWithDigit(s: string) { s != [] && IsDigit(s[|s| - 1]) }

  lemma ConsAssoc(c: char, s: string, t: string)
    ensures [c] + (s + t) == ([c] + s) + t
  {
  }

  lemma HexAtAppend(a: string, q: string)
    requires HexAt(a)
    ensures HexAt(a + q)
  {
    assert (a + q)[..3] == a[..3];
  }

  lemma AfterHexAppend(a: string, q: string)
    requires HexAt(a)
    ensures HexAt(a + q)
    ensures AfterHex(a) != [] ==> AfterHex(a + q) == AfterHex(a) + q
    ensures AfterHex(a) == [] ==> AfterHex(a + q) == q[Run(q, IsHex)..]
  {
    hide Run, IsHex;
    HexAtAppend(a, q);
    var n, m := Run(a[2..], IsHex), Run(q, IsHex);
    DropAppend(a, q, 2);
    RunAppend(a[2..], q, IsHex);
    DropAppend(a, q, if n < |a| - 2 then 2 + n else m);
  }

  lemma {:induction false} HexSplit(a: string, q: string)
    requires !HexOpen(a) && !EndsWithDigit(a)
    ensures HexSub(a + q) == HexSub(a) + HexSub(q)
    decreases |a|
  {
    if a == [] {
      assert a + q == q;
    } else if HexAt(a) {
      AfterHexAppend(a, q);
      HexSplit(AfterHex(a), q);
      assert "0x#" + (HexSub(AfterHex(a)) + HexSub(q)) == ("0x#" + HexSub(AfterHex(a))) + HexSub(q);
    } else {
      NotHexAtAppend(a, q);
      DropAppend(a, q, 1);
      HexSplit(a[1..], q);
      ConsAssoc(a[0], HexSub(a[1..]), HexSub(q));
    }
  }

  lemma NotHexAtAppend(a: string, q: string)
    requires a != [] && !HexAt(a) && a != "0x" && !EndsWithDigit(a)
    ensures !HexAt(a + q)
  {
    assert |a| == 2 ==> a == [a[0], a[1]];
    assert |a| >= 3 ==> (a + q)[..3] == a[..3];
  }

  lemma DigitsThenHex(d: string, b: string)
    requires DigitRun(d)
    ensures (d + b)[Run(d + b, IsHex)..] == b[Run(b, IsHex)..]
  {
    RunFull(d, IsHex);
    RunAppend(d, b, IsHex);
  }

  lemma ShortIsClosed(a: string)
    requires |a| <= 1
    ensures !HexOpen(a)
  {
    if |a| == 1 { assert a[1..] == []; }
  }

  lemma {:induction false} HexSwallows(a: string, p: string, q: string)
    requires HexOpen(a)
    requires StartsWithDigit(p) && StartsWithDigit(q)
    requires p[Run(p, IsHex)..] == q[Run(q, IsHex)..]
    ensures HexSub(a + p) == HexSub(a + q)
    decreases |a|
  {
    if HexAt(a) {
      AfterHexAppend(a, p);
      AfterHexAppend(a, q);
      if AfterHex(a) != [] {
        HexSwallows(AfterHex(a), p, q);
      }
    } else if a == "0x" {
      assert (a + p)[2..] == p && (a + q)[2..] == q;
    } else {
      if |a| <= 2 { ShortIsClosed(a[1..]); }
      assert (a + p)[1..] == a[1..] + p && (a + q)[1..] == a[1..] + q;
      HexSwallows(a[1..], p, q);
    }
  }

  lemma {:induction false} NumSplit(p: string, q: string)
    requires !EndsWithDigit(p)
    ensures NumSub(p + q) == NumSub(p) + NumSub(q)
    decreases |p|
  {
    if p == [] {
      assert p + q == q;
    } else {
      var k := if IsDigit(p[0]) then Run(p, IsDigit) else 1;
      if Run(p, IsDigit) == |p| { RunHolds(p, IsDigit); }
      RunAppend(p, q, IsDigit);
      DropAppend(p, q, k);
      NumSplit(p[k..], q);
      var c := if IsDigit(p[0]) then '#' else p[0];
      assert NumSub(p + q) == [c] + NumSub(p[k..] + q);
      assert NumSub(p) == [c] + NumSub(p[k..]);
      ConsAssoc(c, NumSub(p[k..]), NumSub(q));
    }
  }

  lemma NumRun(d: string, q: string)
    requires DigitRun(d) && !StartsWithDigit(q)
    ensures NumSub(d + q) == "#" + NumSub(q)
  {
    RunFull(d, IsDigit);
    RunAppend(d, q, IsDigit);
    assert (d + q)[|d|..] == q;
  }

  function NumHex(s: string): string { NumSub(HexSub(s)) }

  /** `b` with the leading x and the hex digits behind it taken off. */
  function BehindX(b: string): string
    requires XHex(b)
  {
    b[1 + Run(b[1..], IsHex)..]
  }

  lemma HexBehindDigit(c: char, b: string)
    requires IsDigit(c)
    ensures HexSub([c] + b) == [c] + HexBehind(c, b)
  {
    var s := [c] + b;
    assert s[1..] == b;
    if XHex(b) && c == '0' {
      assert b[..2] == s[1..3] && s[2..] == b[1..];
      assert AfterHex(s) == BehindX(b);
      assert "0x#" == [c] + "x#";
    } else {
      assert !HexAt(s);
    }
  }

  lemma {:induction false} HexBehindDigits(d: string, b: string)
    requires DigitRun(d)
    ensures HexSub(d + b) == d + HexBehind(d[|d| - 1], b)
    decreases |d|
  {
    if |d| == 1 {
      HexBehindDigit(d[0], b);
      assert d == [d[0]];
    } else {
      var e := d[1..];
      DropAppend(d, b, 1);
      assert !HexAt(d + b) by { assert IsDigit((d + b)[1]); }
      HexBehindDigits(e, b);
      ConsAssoc(d[0], e, HexBehind(d[|d| - 1], b));
      assert d == [d[0]] + e;
    }
  }

  /** What the text `b` becomes when the digit `c` stands in front of it. */
  function HexBehind(c: char, b: string): string {
    if XHex(b) && c == '0' then "x#" + HexSub(BehindX(b)) else HexSub(b)
  }

  lemma NumXHash(t: string)
    ensures NumSub("x#" + t) == "x#" + NumSub(t)
  {
    var u := "x#" + t;
    assert u[1..][0] == '#';
    assert u[1..][1..] == t;
    assert NumSub(u) == ['x'] + NumSub(u[1..]);
    assert NumSub(u[1..]) == ['#'] + NumSub(t);
  }

  /** What a number followed by `b` becomes: `#`, unless its last digit starts a hex
      literal together with `b`. */
  lemma NumberRewrites(d: string, b: string)
    requires DigitRun(d) && !StartsWithDigit(b)
    ensures NumHex(d + b) ==
            if XHex(b) && d[|d| - 1] == '0' then AsHexZero(b) else AsNumber(b)
  {
    HexBehindDigits(d, b);
    if XHex(b) && d[|d| - 1] == '0' {
      var t := HexSub(BehindX(b));
      NumRun(d, "x#" + t);
      NumXHash(t);
    } else {
      NumRun(d, HexSub(b));
    }
  }

  /** The two things a number followed by `b` can become. */
  function AsHexZero(b: string): string
    requires XHex(b)
  {
    "#" + ("x#" + NumHex(BehindX(b)))
  }

  function AsNumber(b: string): string {
    "#" + NumHex(b)
  }

  lemma XUnfold(b: string)
    requires XHex(b)
    ensures NumHex(b) == "x" + NumHex(b[1..])
  {
    assert HexSub(b) == "x" + HexSub(b[1..]);
    assert ("x" + HexSub(b[1..]))[1..] == HexSub(b[1..]);
  }

  lemma BothUnfold(b: string)
    requires XHex(b)
    ensures AsNumber(b) == "#" + ("x" + NumHex(b[1..]))
    ensures AsHexZero(b) == "#" + ("x" + AsNumber(BehindX(b)))
  {
    XUnfold(b);
    ConsAssoc('x', "#", NumHex(BehindX(b)));
  }

  lemma {:induction false} SafeMakesEqual(b: string)
    requires XHex(b) && Safe(b)
    ensures AsHexZero(b) == AsNumber(b)
    decreases |b|
  {
    var n := Run(b[1..], IsHex);
    var h, r := b[1..1 + n], BehindX(b);
    assert b[1..] == h + r;
    BothUnfold(b);
    NumberRewrites(h, r);
    if h[n - 1] == '0' && XHex(r) {
      SafeMakesEqual(r);
    }
  }

  /** The last two passes on a text whose first character is kept: blanks are
      collapsed and the right end stripped. */
  function Tail(q: string): string { RStrip(WsSub(q)) }

  lemma TailCons(c: char, q: string)
    requires !IsSpace(c)
    ensures Tail([c] + q) == [c] + Tail(q)
  {
    assert ([c] + q)[1..] == q;
    RStripCons(c, WsSub(q));
  }

  lemma {:induction false} RStripCons(c: char, w: string)
    requires !IsSpace(c)
    ensures RStrip([c] + w) == [c] + RStrip(w)
    decreases |w|
  {
    if w != [] && IsSpace(w[|w| - 1]) {
      assert ([c] + w)[..|w|] == [c] + w[..|w| - 1];
      RStripCons(c, w[..|w| - 1]);
    } else if w == [] {
      assert [c] + w == [c];
      assert RStrip([c]) == [c];
    }
  }

  lemma TailHead(q: string)
    ensures Tail(q) != [] ==> q != [] && Tail(q)[0] == if IsSpace(q[0]) then ' ' else q[0]
  {
  }

  lemma TailXHash(t: string)
    ensures Tail("x#" + t) == "x#" + Tail(t)
  {
    TailCons('#', t);
    TailCons('x', ['#'] + t);
    assert "x#" + t == ['x'] + (['#'] + t);
  }

  lemma TailUnfold(b: string)
    requires XHex(b)
    ensures Tail(AsNumber(b)) == "#" + ("x" + Tail(NumHex(b[1..])))
    ensures Tail(AsHexZero(b)) == "#" + ("x" + Tail(AsNumber(BehindX(b))))
  {
    XUnfold(b);
    TailCons('#', NumHex(b));
    TailCons('x', NumHex(b[1..]));
    var z := NumHex(BehindX(b));
    TailCons('#', "x#" + z);
    TailXHash(z);
    TailCons('#', z);
    assert "x#" + Tail(z) == "x" + ("#" + Tail(z));
  }

  /** `n` is the first position at which the texts differ (or one of them ends). */
  predicate DifferAt(u: string, v: string, n: nat) {
    && n <= |u| && n <= |v| && u[..n] == v[..n]
    && (n < |u| || n < |v|)
    && (n < |u| && n < |v| ==> u[n] != v[n])
  }

  lemma DifferBehind(p: string, u: string, v: string, n: nat)
    requires DifferAt(u, v, n)
    ensures DifferAt(p + u, p + v, |p| + n) && DifferAt(p + v, p + u, |p| + n)
  {
    assert (p + u)[..|p| + n] == p + u[..n] && (p + v)[..|p| + n] == p + v[..n];
  }

  /** Where two rewrites of a number in front of unsafe text `b` part. */
  function Apart(b: string): nat
    requires !Safe(b)
    decreases |b|
  {
    var n := Run(b[1..], IsHex);
    var h := b[1..1 + n];
    2 + (if AllDigits(h) then Apart(BehindX(b)) else if IsDigit(h[0]) then 1 else 0)
  }

  lemma {:induction false} UnsafeDiffers(b: string)
    requires !Safe(b)
    ensures XHex(b) && DifferAt(Tail(AsHexZero(b)), Tail(AsNumber(b)), Apart(b))
    decreases |b|
  {
    hide Tail, NumHex, AsHexZero, AsNumber, DifferAt;
    var n := Run(b[1..], IsHex);
    var h, r := b[1..1 + n], BehindX(b);
    assert b[1..] == h + r;
    RunHolds(b[1..], IsHex);
    assert forall k :: 0 <= k < n ==> h[k] == b[1..][k];
    TailUnfold(b);
    if AllDigits(h) {
      NumberRewrites(h, r);
      UnsafeDiffers(r);
      BehindHashX(Tail(AsHexZero(r)), Tail(AsNumber(r)), Apart(r));
    } else {
      LetterShows(h, r);
      BehindHashX(Tail(NumHex(h + r)), Tail(AsNumber(r)), if IsDigit(h[0]) then 1 else 0);
    }
  }

  lemma BehindHashX(u: string, v: string, n: nat)
    requires DifferAt(u, v, n)
    ensures DifferAt("#" + ("x" + v), "#" + ("x" + u), 2 + n)
  {
    DifferBehind("x", u, v, n);
    DifferBehind("#", "x" + v, "x" + u, 1 + n);
  }

  /** A hex literal with a letter in it keeps the letter when its 0 is changed. */
  lemma LetterShows(h: string, r: string)
    requires h != [] && AllHex(h) && !AllDigits(h)
    requires r == [] || !IsHex(r[0])
    ensures DifferAt(Tail(NumHex(h + r)), Tail(AsNumber(r)), if IsDigit(h[0]) then 1 else 0)
  {
    var k := Run(h, IsDigit);
    assert k < |h| by { if k == |h| { RunHolds(h, IsDigit); } }
    RunHolds(h, IsDigit);
    var l, rest := h[k], h[k..] + r;
    assert h + r == h[..k] + rest;
    KeptHead(rest);
    TailCons('#', NumHex(r));
    if k == 0 {
      assert h + r == rest;
    } else {
      NumberRewrites(h[..k], rest);
      TailCons('#', NumHex(rest));
      KeptHeadOrBlank(r);
      assert ("#" + Tail(NumHex(rest)))[1] == l;
    }
  }

  lemma KeptHead(s: string)
    requires s != [] && !IsDigit(s[0]) && !IsSpace(s[0])
    ensures Tail(NumHex(s)) != [] && Tail(NumHex(s))[0] == s[0]
  {
    var u := NumHex(s);
    assert u == [s[0]] + u[1..];
    TailCons(s[0], u[1..]);
  }

  lemma KeptHeadOrBlank(r: string)
    requires !StartsWithDigit(r)
    ensures var t := "#" + Tail(NumHex(r)); |t| > 1 ==> r != [] && (t[1] == r[0] || t[1] == ' ')
  {
    TailHead(NumHex(r));
  }

  lemma RunBefore(p: string, q: string)
    requires q != [] && !IsSpace(q[0])
    ensures Run(p + q, IsSpace) == Run(p, IsSpace)
  {
    RunAppend(p, q, IsSpace);
    assert Run(q, IsSpace) == 0;
  }

  lemma {:induction false} WsSplit(p: string, q: string)
    requires q != [] && !IsSpace(q[0])
    ensures WsSub(p + q) == WsSub(p) + WsSub(q)
    decreases |p|
  {
    if p == [] {
      assert p + q == q;
    } else {
      assert (p + q)[0] == p[0];
      var k := if IsSpace(p[0]) then Run(p, IsSpace) else 1;
      RunBefore(p, q);
      DropAppend(p, q, k);
      WsSplit(p[k..], q);
      var c := if IsSpace(p[0]) then ' ' else p[0];
      assert WsSub(p + q) == [c] + WsSub(p[k..] + q);
      assert WsSub(p) == [c] + WsSub(p[k..]);
      ConsAssoc(c, WsSub(p[k..]), WsSub(q));
    }
  }

  lemma {:induction false} RStripSplit(p: string, w: string)
    requires w != [] && !IsSpace(w[0])
    ensures RStrip(p + w) == p + RStrip(w)
    decreases |w|
  {
    if IsSpace(w[|w| - 1]) {
      assert (p + w)[..|p + w| - 1] == p + w[..|w| - 1];
      RStripSplit(p, w[..|w| - 1]);
    }
  }

  lemma {:induction false} HexSubEnd(a: string)
    requires !EndsWithDigit(a)
    ensures !EndsWithDigit(HexSub(a))
    decreases |a|
  {
    if a != [] {
      HexSubEnd(if HexAt(a) then AfterHex(a) else a[1..]);
    }
  }

  /** Up to a number the normal form depends on the text before it only, from the
      number on it depends on the rest only. */
  lemma NormaliseSplit(a: string, d: string, b: string)
    requires DigitRun(d) && !HexOpen(a) && !EndsWithDigit(a) && !StartsWithDigit(b)
    ensures Strip(WsSub(NumHex(a + (d + b)))) == LStrip(WsSub(NumHex(a))) + Tail(NumHex(d + b))
  {
    HexSplit(a, d + b);
    HexSubEnd(a);
    NumSplit(HexSub(a), HexSub(d + b));
    var p, q := NumHex(a), NumHex(d + b);
    assert q[0] == '#' by { assert (d + b)[0] == d[0]; }
    WsSplit(p, q);
    StripSplit(WsSub(p), WsSub(q));
  }

  lemma StripSplit(w: string, v: string)
    requires v != [] && !IsSpace(v[0])
    ensures Strip(w + v) == LStrip(w) + RStrip(v)
  {
    RunAppend(w, v, IsSpace);
    assert LStrip(w + v) == LStrip(w) + v;
    RStripSplit(LStrip(w), v);
  }

  lemma LowerAround(a: string, d: string, b: string)
    requires AllDigits(d)
    ensures Lower(a + d + b) == Lower(a) + (d + Lower(b))
  {
  }

  /** Changing one whole number in a message never changes the normal form when the
      number is swallowed by a hex literal or is followed by safe text. */
  lemma NumbersDoNotMatter(a: string, d: string, e: string, b: string)
    requires DigitRun(d) && DigitRun(e) && !EndsWithDigit(a) && !StartsWithDigit(b)
    requires HexOpen(Lower(a)) || Safe(Lower(b))
    ensures Normalise(a + d + b) == Normalise(a + e + b)
  {
    var la, lb := Lower(a), Lower(b);
    LowerAround(a, d, b);
    LowerAround(a, e, b);
    if HexOpen(la) {
      DigitsThenHex(d, lb);
      DigitsThenHex(e, lb);
      HexSwallows(la, d + lb, e + lb);
    } else {
      NormaliseSplit(la, d, lb);
      NormaliseSplit(la, e, lb);
      NumberRewrites(d, lb);
      NumberRewrites(e, lb);
      if XHex(lb) { SafeMakesEqual(lb); }
    }
  }

  /** What stands in front of the number in the normal form. */
  function Front(a: string): string { LStrip(WsSub(NumHex(Lower(a)))) }

  /** Conversely, behind unsafe text the normal form tells whether a number ends in 0. */
  lemma UnsafeNormalises(a: string, d: string, b: string)
    requires DigitRun(d) && !EndsWithDigit(a) && !StartsWithDigit(b)
    requires !HexOpen(Lower(a)) && !Safe(Lower(b))
    ensures XHex(Lower(b))
    ensures Normalise(a + d + b)
            == Front(a) + (if d[|d| - 1] == '0' then Tail(AsHexZero(Lower(b))) else Tail(AsNumber(Lower(b))))
  {
    var la, lb := Lower(a), Lower(b);
    LowerAround(a, d, b);
    NormaliseSplit(la, d, lb);
    NumberRewrites(d, lb);
  }

  lemma ZeroAndOneAreRuns()
    ensures DigitRun("0") && DigitRun("1")
  {
  }

  lemma ZeroAndOneDiffer(a: string, b: string)
    requires !EndsWithDigit(a) && !StartsWithDigit(b)
    requires !HexOpen(Lower(a)) && !Safe(Lower(b))
    ensures DifferAt(Normalise(a + "0" + b), Normalise(a + "1" + b), |Front(a)| + Apart(Lower(b)))
  {
    hide *;
    ZeroAndOneAreRuns();
    UnsafeNormalises(a, "0", b);
    UnsafeNormalises(a, "1", b);
    UnsafeDiffers(Lower(b));
    DifferBehind(Front(a), Tail(AsHexZero(Lower(b))), Tail(AsNumber(Lower(b))), Apart(Lower(b)));
  }

  /** Exactly when the number between `a` and `b` is irrelevant to the normal form. */
  lemma NumberIrrelevantIff(a: string, b: string)
    requires !EndsWithDigit(a) && !StartsWithDigit(b)
    ensures (forall d, e :: DigitRun(d) && DigitRun(e) ==> Normalise(a + d + b) == Normalise(a + e + b))
            <==> (HexOpen(Lower(a)) || Safe(Lower(b)))
  {
    if HexOpen(Lower(a)) || Safe(Lower(b)) {
      forall d, e | DigitRun(d) && DigitRun(e) ensures Normalise(a + d + b) == Normalise(a + e + b) {
        NumbersDoNotMatter(a, d, e, b);
      }
    } else {
      ZeroAndOneDiffer(a, b);
      ZeroAndOneAreRuns();
    }
  }

  lemma CutsEqualIff(u: string, v: string, n: nat)
    requires DifferAt(u, v, n)
    ensures Cut(u) == Cut(v) <==> n >= CUT
  {
    if n >= CUT {
      assert u[..CUT] == u[..n][..CUT] && v[..CUT] == v[..n][..CUT];
    } else if n < |u| && n < |v| {
      assert Cut(u)[n] == u[n] && Cut(v)[n] == v[n];
    }
  }

  lemma FarApart(a: string, d: string, e: string, b: string)
    requires DigitRun(d) && DigitRun(e) && !EndsWithDigit(a) && !StartsWithDigit(b)
    requires !HexOpen(Lower(a)) && !Safe(Lower(b)) && |Front(a)| + Apart(Lower(b)) >= CUT
    ensures Cut(Normalise(a + d + b)) == Cut(Normalise(a + e + b))
  {
    hide *;
    var lb := Lower(b);
    UnsafeNormalises(a, d, b);
    UnsafeNormalises(a, e, b);
    UnsafeDiffers(lb);
    DifferBehind(Front(a), Tail(AsHexZero(lb)), Tail(AsNumber(lb)), Apart(lb));
    CutsEqualIff(Front(a) + Tail(AsHexZero(lb)), Front(a) + Tail(AsNumber(lb)), |Front(a)| + Apart(lb));
  }

  /** Exactly when the number between `a` and `b` is irrelevant to the signature of an
      error: a hex literal swallows it, the text behind it is safe, or the difference
      lies behind the cut. */
  lemma SignatureIgnoresNumberIff(a: string, b: string)
    requires !EndsWithDigit(a) && !StartsWithDigit(b)
    ensures (forall d, e :: DigitRun(d) && DigitRun(e) ==>
               SignatureOf(Error, None, None, a + d + b) == SignatureOf(Error, None, None, a + e + b))
            <==> (HexOpen(Lower(a)) || Safe(Lower(b)) || |Front(a)| + Apart(Lower(b)) >= 80)
  {
    hide Normalise, Cut, HexOpen, Safe, Front, Apart, DigitRun, EndsWithDigit, StartsWithDigit, DifferAt;
    if HexOpen(Lower(a)) || Safe(Lower(b)) || |Front(a)| + Apart(Lower(b)) >= CUT {
      forall d, e | DigitRun(d) && DigitRun(e) ensures Cut(Normalise(a + d + b)) == Cut(Normalise(a + e + b)) {
        if HexOpen(Lower(a)) || Safe(Lower(b)) {
          NumbersDoNotMatter(a, d, e, b);
        } else {
          FarApart(a, d, e, b);
        }
      }
    } else {
      ZeroAndOneDiffer(a, b);
      CutsEqualIff(Normalise(a + "0" + b), Normalise(a + "1" + b), |Front(a)| + Apart(Lower(b)));
      ZeroAndOneAreRuns();
    }
  }

  /** Addresses and numbers do not always collapse: these messages get two signatures. */
  lemma NumbersCanMatter()
    ensures SignatureOf(Error, None, None, "0xff") != SignatureOf(Error, None, None, "1xff")
  {
    hide Normalise, Cut, DifferAt;
    var b := "xff";
    assert Lower(b) == b && Lower("") == "";
    assert Run(b[1..], IsHex) == 2 by { RunFull(b[1..], IsHex); }
    assert b[1..3][0] == 'f';
    assert "" + "0" + b == "0xff" && "" + "1" + b == "1xff";
    ZeroAndOneDiffer("", b);
    CutsEqualIff(Normalise("0xff"), Normalise("1xff"), |Front("")| + Apart(b));
  }

  // --- numbers that may carry a sign ----------------------------------------------------

  lemma {:induction false} HexOpenEnds(a: string)
    requires HexOpen(a)
    ensures a != [] && (IsHex(a[|a| - 1]) || a[|a| - 1] == 'x')
    decreases |a|
  {
    if HexAt(a) {
      if AfterHex(a) == [] {
        RunHolds(a[2..], IsHex);
        assert a[|a| - 1] == a[2..][|a| - 3];
      } else {
        HexOpenEnds(AfterHex(a));
      }
    } else if a != "0x" {
      HexOpenEnds(a[1..]);
    }
  }

  predicate EndsWithSpace(s: string) { s != [] && s[|s| - 1] == ' ' }

  lemma SpaceCloses(a: string)
    requires EndsWithSpace(a)
    ensures !EndsWithDigit(a) && !EndsWithDigit(Lower(a)) && !HexOpen(Lower(a))
    ensures !EndsWithDigit(a + "-") && !HexOpen(Lower(a + "-")) && Lower(a + "-") == Lower(a) + "-"
  {
    if HexOpen(Lower(a)) { HexOpenEnds(Lower(a)); }
    if HexOpen(Lower(a + "-")) { HexOpenEnds(Lower(a + "-")); }
  }

  lemma FrontDash(a: string)
    requires EndsWithSpace(a)
    ensures Front(a + "-") == Front(a) + "-"
  {
    hide HexOpen;
    SpaceCloses(a);
    var la := Lower(a);
    HexSplit(la, "-");
    HexSubEnd(la);
    DashAlone();
    NumSplit(HexSub(la), "-");
    WsSplit(NumHex(la), "-");
    RunAppend(WsSub(NumHex(la)), "-", IsSpace);
    DropAppend(WsSub(NumHex(la)), "-", Run(WsSub(NumHex(la)), IsSpace));
  }

  lemma DashAlone()
    ensures HexSub("-") == "-" && NumSub("-") == "-" && WsSub("-") == "-" && Run("-", IsSpace) == 0
  {
    assert "-"[1..] == [];
  }

  lemma SecondsAlone(d: string)
    requires DigitRun(d)
    ensures Tail(NumHex(d + "s")) == "#s"
  {
    NumberRewrites(d, "s");
    assert "s"[1..] == [] && HexSub("s") == "s" && NumSub("s") == "s";
    TailCons('#', "s");
    assert Tail("s") == "s" by { assert WsSub("s") == "s"; }
  }

  /** A duration behind a space: only its sign is left of the number. */
  lemma DurationNormalises(a: string, v: int)
    requires EndsWithSpace(a)
    ensures Normalise(a + ShowInt(v) + "s") == Front(a) + (if v < 0 then "-#s" else "#s")
  {
    hide HexOpen, Front, NumHex, Tail, Decimal;
    SpaceCloses(a);
    var d := Decimal(if v < 0 then -v else v);
    var b := if v < 0 then a + "-" else a;
    assert a + ShowInt(v) + "s" == b + d + "s";
    assert Lower("s") == "s";
    LowerAround(b, d, "s");
    NormaliseSplit(Lower(b), d, "s");
    SecondsAlone(d);
    FrontIs(b);
    if v < 0 {
      FrontDash(a);
      assert Front(a) + "-" + "#s" == Front(a) + "-#s";
    }
    NormaliseIs(b + d + "s");
  }

  lemma FrontIs(b: string)
    ensures Front(b) == LStrip(WsSub(NumHex(Lower(b))))
  {
  }

  lemma NormaliseIs(m: string)
    ensures Normalise(m) == Strip(WsSub(NumHex(Lower(m))))
  {
  }

  /** Two durations in the same place leave the same signature if and only if they have the
      same sign, or the sign lies behind the cut. */
  lemma DurationIrrelevantIff(a: string, v: int, w: int)
    requires EndsWithSpace(a)
    ensures Cut(Normalise(a + ShowInt(v) + "s")) == Cut(Normalise(a + ShowInt(w) + "s"))
            <==> (v < 0 <==> w < 0) || |Front(a)| >= CUT
  {
    hide Normalise, Front, ShowInt, Cut;
    DurationNormalises(a, v);
    DurationNormalises(a, w);
    assert DifferAt("#s", "-#s", 0);
    DifferBehind(Front(a), "#s", "-#s", 0);
    CutsEqualIff(Front(a) + "#s", Front(a) + "-#s", |Front(a)|);
  }
}

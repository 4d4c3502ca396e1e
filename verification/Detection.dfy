/** What detection promises, read off the message text: which texts make which kind, in
    which order, and which exit code or signal a death carries (hblog/classify.py,
    `_detect`). Texts are lower-cased messages. */
module Detection {
  import opened Model
  import opened Text
  import opened Classify
  import Patterns
  import Signature

  // --- the texts looked for ---------------------------------------------------------------------

  ghost predicate Has(l: string, p: string) {
    exists a, b :: l == a + p + b
  }

  lemma HasIff(l: string, p: string)
    ensures Contains(l, p) <==> Has(l, p)
  {
    if Contains(l, p) {
      var i :| 0 <= i <= |l| && At(l, i, p);
      assert l == l[..i] + p + l[i + |p|..];
    }
    if Has(l, p) {
      var a, b :| l == a + p + b;
      assert At(l, |a|, p);
    }
  }

  ghost predicate OomText(l: string) {
    Has(l, "out of memory") || Has(l, "oom-kill") || exists d :: '0' <= d <= '9' && Has(l, "killed process " + [d])
  }

  ghost predicate SegfaultText(l: string) {
    Has(l, "segfault at") || Has(l, "general protection fault")
  }

  predicate WordText(s: string) {
    s != [] && forall i :: 0 <= i < |s| ==> s[i] == '_' || 'a' <= s[i] <= 'z' || '0' <= s[i] <= '9'
  }

  predicate StatusText(s: string) {
    s != [] && forall i :: 0 <= i < |s| ==> s[i] == '_' || s[i] == '/' || 'a' <= s[i] <= 'z' || '0' <= s[i] <= '9'
  }

  predicate OneLine(s: string) { '\n' !in s }

  /** The parts of a text that match main process exited.*code=(\w+).*status=([\w/]+). */
  datatype Parts = Parts(a: string, x: string, code: string, y: string, status: string, b: string)

  ghost predicate ExitMatch(l: string, m: Parts) {
    && l == m.a + "main process exited" + m.x + "code=" + m.code + m.y + "status=" + m.status + m.b
    && WordText(m.code) && StatusText(m.status) && OneLine(m.x) && OneLine(m.y)
  }

  /** Match `m` is preferred to `n`: it begins further left, or its repetitions, from left
      to right, are longer. */
  predicate Preferred(m: Parts, n: Parts) {
    |m.a| <= |n.a| && (|m.a| == |n.a| ==>
      |m.x| >= |n.x| && (|m.x| == |n.x| ==>
        |m.code| >= |n.code| && (|m.code| == |n.code| ==>
          |m.y| >= |n.y| && (|m.y| == |n.y| ==> |m.status| >= |n.status|))))
  }

  /** The match of the regular expression. */
  ghost predicate ExitFound(l: string, m: Parts) {
    ExitMatch(l, m) && forall n :: ExitMatch(l, n) ==> Preferred(m, n)
  }

  ghost predicate ExitText(l: string) { exists m :: ExitMatch(l, m) }

  predicate ResultWord(w: string) {
    w != [] && forall i :: 0 <= i < |w| ==> w[i] == '-' || w[i] == '_' || 'a' <= w[i] <= 'z' || '0' <= w[i] <= '9'
  }

  ghost predicate ResultMatch(l: string, a: string, w: string, b: string) {
    l == a + "failed with result '" + w + "'" + b && ResultWord(w)
  }

  /** The leftmost result that is named. */
  ghost predicate ResultFound(l: string, w: string) {
    exists a, b :: ResultMatch(l, a, w, b) && forall c, v, d :: ResultMatch(l, c, v, d) ==> |a| <= |c|
  }

  ghost predicate ResultText(l: string) { exists a, w, b :: ResultMatch(l, a, w, b) }

  // --- the matchers find them -------------------------------------------------------------------

  predicate NoCapital(l: string) { forall i :: 0 <= i < |l| ==> !('A' <= l[i] <= 'Z') }

  lemma OomIff(l: string)
    ensures IsOom(l) <==> OomText(l)
  {
    HasIff(l, "out of memory");
    HasIff(l, "oom-kill");
    KilledIff(l);
  }

  ghost predicate KilledAt(l: string, i: int, k: string) {
    0 <= i <= |l| && At(l, i, k) && i + |k| < |l| && IsDigit(l[i + |k|])
  }

  lemma KilledIs(l: string, k: string)
    ensures (exists i :: KilledAt(l, i, k)) <==> exists d :: '0' <= d <= '9' && Has(l, k + [d])
  {
    if i :| KilledAt(l, i, k) {
      var d := l[i + |k|];
      assert l == l[..i] + (k + [d]) + l[i + |k| + 1..];
      assert Has(l, k + [d]);
    }
    if d :| '0' <= d <= '9' && Has(l, k + [d]) {
      var a, b :| l == a + (k + [d]) + b;
      assert l == a + k + ([d] + b);
      assert At(l, |a|, k) && l[|a| + |k|] == d;
      assert KilledAt(l, |a|, k);
    }
  }

  lemma KilledIff(l: string)
    ensures (exists i :: 0 <= i <= |l| && At(l, i, KILLED) && i + |KILLED| < |l| && IsDigit(l[i + |KILLED|]))
            <==> exists d :: '0' <= d <= '9' && Has(l, "killed process " + [d])
  {
    KilledIs(l, KILLED);
    assert forall i :: KilledAt(l, i, KILLED) <==>
             0 <= i <= |l| && At(l, i, KILLED) && i + |KILLED| < |l| && IsDigit(l[i + |KILLED|]);
    assert KILLED == "killed process ";
  }

  lemma SegfaultIff(l: string)
    ensures IsSegfault(l) <==> SegfaultText(l)
  {
    HasIff(l, "segfault at");
    HasIff(l, "general protection fault");
  }

  // --- the expression of a main process that exits ------------------------------------------------

  /** A text in nine parts, three of them fixed. */
  ghost predicate InParts(l: string, t0: string, t1: string, t2: string, m: Parts) {
    l == m.a + (t0 + (m.x + (t1 + Back(t2, m))))
  }

  ghost function Back(t2: string, m: Parts): string { m.code + (m.y + End(t2, m)) }

  ghost function End(t2: string, m: Parts): string { t2 + (m.status + m.b) }

  /** Where the parts of a match stand. */
  ghost predicate PlacedAt(l: string, t0: string, t1: string, t2: string, m: Parts, i: nat, c: nat, w: nat, p: nat) {
    && i == |m.a| && c == i + |t0| + |m.x| && w == |m.code| && p == c + |t1| + w + |m.y|
    && p + |t2| + |m.status| <= |l|
    && At(l, i, t0) && At(l, c, t1) && At(l, p, t2)
    && l[..i] == m.a && l[i + |t0|..c] == m.x && l[c + |t1|..c + |t1| + w] == m.code
    && l[c + |t1| + w..p] == m.y && l[p + |t2|..p + |t2| + |m.status|] == m.status
    && l[p + |t2| + |m.status|..] == m.b
  }

  lemma Peel(l: string, k: nat, u: string, rest: string)
    requires k <= |l| && l[k..] == u + rest
    ensures k + |u| <= |l| && l[k..k + |u|] == u && l[k + |u|..] == rest
  {
    assert forall j :: 0 <= j < |u| ==> l[k..][j] == u[j];
    assert l[k + |u|..] == l[k..][|u|..];
  }

  lemma RightNested(a: string, b: string, c: string, d: string, e: string)
    ensures a + b + c + d + e == a + (b + (c + (d + e)))
  {
  }

  lemma FrontPlaced(l: string, t0: string, t1: string, t2: string, m: Parts)
    requires InParts(l, t0, t1, t2, m)
    ensures var i := |m.a|; var c := i + |t0| + |m.x|;
            && At(l, i, t0) && At(l, c, t1) && l[..i] == m.a && l[i + |t0|..c] == m.x
            && l[c + |t1|..] == Back(t2, m)
  {
    hide Back;
    var r := Back(t2, m);
    assert l[0..] == l;
    Peel(l, 0, m.a, t0 + (m.x + (t1 + r)));
    Peel(l, |m.a|, t0, m.x + (t1 + r));
    Peel(l, |m.a| + |t0|, m.x, t1 + r);
    Peel(l, |m.a| + |t0| + |m.x|, t1, r);
  }

  lemma BackPlaced(l: string, k: nat, t2: string, m: Parts)
    requires k <= |l| && l[k..] == Back(t2, m)
    ensures var p := k + |m.code| + |m.y|;
            && k + |m.code| <= p && p + |t2| + |m.status| <= |l| && At(l, p, t2)
            && l[k..k + |m.code|] == m.code && l[k + |m.code|..p] == m.y
            && l[p + |t2|..p + |t2| + |m.status|] == m.status && l[p + |t2| + |m.status|..] == m.b
  {
    hide End;
    Peel(l, k, m.code, m.y + End(t2, m));
    Peel(l, k + |m.code|, m.y, End(t2, m));
    EndPlaced(l, k + |m.code| + |m.y|, t2, m);
  }

  lemma EndPlaced(l: string, p: nat, t2: string, m: Parts)
    requires p <= |l| && l[p..] == End(t2, m)
    ensures p + |t2| + |m.status| <= |l| && At(l, p, t2)
    ensures l[p + |t2|..p + |t2| + |m.status|] == m.status && l[p + |t2| + |m.status|..] == m.b
  {
    Peel(l, p, t2, m.status + m.b);
    Peel(l, p + |t2|, m.status, m.b);
  }

  lemma PartsPlaced(l: string, t0: string, t1: string, t2: string, m: Parts)
    requires InParts(l, t0, t1, t2, m)
    ensures var c := |m.a| + |t0| + |m.x|;
            PlacedAt(l, t0, t1, t2, m, |m.a|, c, |m.code|, c + |t1| + |m.code| + |m.y|)
  {
    FrontPlaced(l, t0, t1, t2, m);
    hide InParts, Back, End;
    BackPlaced(l, |m.a| + |t0| + |m.x| + |t1|, t2, m);
  }

  lemma PlacedParts(l: string, t0: string, t1: string, t2: string, i: nat, c: nat, w: nat, p: nat, n: nat) returns (m: Parts)
    requires At(l, i, t0) && At(l, c, t1) && At(l, p, t2) && i + |t0| <= c && c + |t1| + w <= p && p + |t2| + n <= |l|
    ensures InParts(l, t0, t1, t2, m) && PlacedAt(l, t0, t1, t2, m, i, c, w, p) && |m.status| == n
  {
    m := Parts(l[..i], l[i + |t0|..c], l[c + |t1|..c + |t1| + w], l[c + |t1| + w..p], l[p + |t2|..p + |t2| + n],
               l[p + |t2| + n..]);
    assert l[p..] == t2 + (m.status + m.b);
    assert l[c + |t1|..] == Back(t2, m) by {
      hide End;
      assert l[c + |t1| + w..] == m.y + l[p..];
    }
    hide Back, End;
    assert l[i + |t0|..] == m.x + (t1 + l[c + |t1|..]);
    assert l == l[..i] + (t0 + l[i + |t0|..]);
  }

  lemma Nested(t0: string, t1: string, t2: string, m: Parts)
    ensures m.a + t0 + m.x + t1 + m.code + m.y + t2 + m.status + m.b == m.a + (t0 + (m.x + (t1 + Back(t2, m))))
  {
    hide Back, End;
    RightNested(m.a, t0, m.x, t1, Back(t2, m));
    BackNested(m.a + t0 + m.x + t1, t2, m);
  }

  lemma BackNested(u: string, t2: string, m: Parts)
    ensures u + m.code + m.y + t2 + m.status + m.b == u + Back(t2, m)
  {
    RightNested(u, m.code, m.y, t2, m.status + m.b);
    assert u + m.code + m.y + t2 + m.status + m.b == u + m.code + m.y + t2 + (m.status + m.b);
  }

  lemma FixedTexts(l: string, m: Parts)
    ensures ExitMatch(l, m) <==>
              && InParts(l, MAIN_EXIT, "code=", "status=", m)
              && WordText(m.code) && StatusText(m.status) && OneLine(m.x) && OneLine(m.y)
  {
    hide Back, OneLine, WordText, StatusText;
    Nested(MAIN_EXIT, "code=", "status=", m);
  }

  lemma Classes(l: string, c: char)
    requires !('A' <= c <= 'Z')
    ensures IsWord(c) <==> c == '_' || 'a' <= c <= 'z' || '0' <= c <= '9'
    ensures IsStatusChar(c) <==> c == '_' || c == '/' || 'a' <= c <= 'z' || '0' <= c <= '9'
  {
  }

  /** The characters of a slice. */
  lemma SliceChars(l: string, i: nat, j: nat)
    requires i <= j <= |l|
    ensures forall k :: i <= k < j ==> l[k] == l[i..j][k - i]
    ensures forall k :: 0 <= k < j - i ==> l[i..j][k] == l[i + k]
  {
  }

  lemma OneLineSplits(l: string, i: nat, c: nat, e: nat, p: nat)
    requires i <= c <= e <= p <= |l| && forall k :: c <= k < e ==> l[k] != '\n'
    ensures Patterns.OnOneLine(l, i, p) <==> OneLine(l[i..c]) && OneLine(l[e..p])
  {
    SliceChars(l, i, c);
    SliceChars(l, e, p);
    if OneLine(l[i..c]) && OneLine(l[e..p]) {
      forall k | i <= k < p ensures l[k] != '\n' {
        if k < c { assert l[i..c][k - i] in l[i..c]; }
        if k >= e { assert l[e..p][k - e] in l[e..p]; }
      }
    }
  }

  lemma RunCovers(l: string, p: nat, n: nat, f: char -> bool)
    requires p + n <= |l|
    ensures n <= Run(l[p..], f) <==> forall k :: p <= k < p + n ==> f(l[k])
  {
    RunHolds(l[p..], f);
    assert forall k :: p <= k < |l| ==> l[k] == l[p..][k - p];
  }

  lemma CodeIs(l: string, lo: nat, w: nat)
    requires NoCapital(l) && lo + w <= |l|
    ensures WordText(l[lo..lo + w]) <==> w >= 1 && Patterns.AllWord(l, lo, lo + w)
  {
    SliceChars(l, lo, lo + w);
    forall k | lo <= k < lo + w ensures IsWord(l[k]) <==> l[k] == '_' || 'a' <= l[k] <= 'z' || '0' <= l[k] <= '9' {
      Classes(l, l[k]);
    }
  }

  lemma StatusIs(l: string, lo: nat, n: nat)
    requires NoCapital(l) && lo + n <= |l|
    ensures StatusText(l[lo..lo + n]) <==> 1 <= n <= Run(l[lo..], IsStatusChar)
  {
    SliceChars(l, lo, lo + n);
    RunCovers(l, lo, n, IsStatusChar);
    forall k | lo <= k < lo + n
      ensures IsStatusChar(l[k]) <==> l[k] == '_' || l[k] == '/' || 'a' <= l[k] <= 'z' || '0' <= l[k] <= '9'
    {
      Classes(l, l[k]);
    }
  }

  lemma CodeOnLine(l: string, c: nat, w: nat)
    requires At(l, c, "code=") && Patterns.AllWord(l, c + 5, c + 5 + w)
    ensures forall k :: c <= k < c + 5 + w ==> l[k] != '\n'
  {
    SliceChars(l, c, c + 5);
  }

  lemma StatusStarts(l: string, p: nat)
    requires At(l, p, "status=")
    ensures StatusAt(l, p) <==> Run(l[p + 7..], IsStatusChar) >= 1
  {
  }

  /** The parts are a match if and only if their places are one, up to the length of the status. */
  lemma PlacedMatches(l: string, m: Parts, i: nat, c: nat, w: nat, p: nat)
    requires NoCapital(l) && PlacedAt(l, MAIN_EXIT, "code=", "status=", m, i, c, w, p)
    ensures Patterns.Matches(l, i, c, w, p) && 1 <= |m.status| <= Run(l[p + 7..], IsStatusChar)
            <==> WordText(m.code) && StatusText(m.status) && OneLine(m.x) && OneLine(m.y)
  {
    hide WordText, StatusText, OneLine, Patterns.OnOneLine, Patterns.AllWord, NoCapital, Run, StatusAt, IsStatusChar;
    CodeIs(l, c + 5, w);
    StatusIs(l, p + 7, |m.status|);
    StatusStarts(l, p);
    if w >= 1 && Patterns.AllWord(l, c + 5, c + 5 + w) {
      CodeOnLine(l, c, w);
      OneLineSplits(l, i + |MAIN_EXIT|, c, c + 5 + w, p);
    }
  }

  /** A match in parts is a match at their places. */
  lemma MatchPlaced(l: string, m: Parts) returns (i: nat, c: nat, w: nat, p: nat)
    requires NoCapital(l) && ExitMatch(l, m)
    ensures PlacedAt(l, MAIN_EXIT, "code=", "status=", m, i, c, w, p)
    ensures Patterns.Matches(l, i, c, w, p) && 1 <= |m.status| <= Run(l[p + 7..], IsStatusChar)
  {
    FixedTexts(l, m);
    hide ExitMatch, InParts, Back, End, WordText, StatusText, OneLine, NoCapital, Patterns.Matches;
    PartsPlaced(l, MAIN_EXIT, "code=", "status=", m);
    i, w := |m.a|, |m.code|;
    c := i + |MAIN_EXIT| + |m.x|;
    p := c + 5 + w + |m.y|;
    PlacedMatches(l, m, i, c, w, p);
  }

  /** And a match at some places is one in parts, with the longest status. */
  lemma PlacesMatch(l: string, i: nat, c: nat, w: nat, p: nat) returns (m: Parts)
    requires NoCapital(l) && Patterns.Matches(l, i, c, w, p)
    ensures ExitMatch(l, m) && PlacedAt(l, MAIN_EXIT, "code=", "status=", m, i, c, w, p)
    ensures |m.status| == Run(l[p + 7..], IsStatusChar)
  {
    hide NoCapital, Run, Patterns.OnOneLine, Patterns.AllWord;
    StatusStarts(l, p);
    m := PlacedParts(l, MAIN_EXIT, "code=", "status=", i, c, w, p, Run(l[p + 7..], IsStatusChar));
    PlacedMatches(l, m, i, c, w, p);
    FixedTexts(l, m);
  }

  /** The places of the matcher's result are preferred to those of any match. */
  lemma BestIsPreferred(l: string, r: Option<Exit>, i: nat, c: nat, w: nat, p: nat, m: Parts, n: Parts)
    requires NoCapital(l) && Patterns.BestMatch(l, 0, r, i, c, w, p) && ExitMatch(l, n)
    requires r.Some? ==> PlacedAt(l, MAIN_EXIT, "code=", "status=", m, i, c, w, p)
                         && |m.status| == Run(l[p + 7..], IsStatusChar)
    ensures r.Some? && Preferred(m, n)
  {
    hide ExitMatch, Run, NoCapital, At;
    var j, d, v, q := MatchPlaced(l, n);
  }

  lemma BestMatches(l: string, r: Option<Exit>, i: nat, c: nat, w: nat, p: nat)
    requires Patterns.BestMatch(l, 0, r, i, c, w, p) && r.Some?
    ensures Patterns.Matches(l, i, c, w, p)
    ensures c + 5 + w <= |l| && p + 7 <= |l| && r.value == Patterns.ExitAt(l, c, w, p)
  {
  }

  lemma ExitIsParts(l: string, i: nat, c: nat, w: nat, p: nat, m: Parts)
    requires PlacedAt(l, MAIN_EXIT, "code=", "status=", m, i, c, w, p)
    requires |m.status| == Run(l[p + 7..], IsStatusChar)
    ensures Patterns.ExitAt(l, c, w, p) == Exit(m.code, m.status)
  {
  }

  /** The matcher reports the match of the expression; it finds none if there is none. */
  lemma MainExitFinds(l: string) returns (m: Parts)
    requires NoCapital(l)
    ensures MainExitFrom(l, 0).Some? <==> ExitText(l)
    ensures ExitText(l) ==> ExitFound(l, m) && MainExitFrom(l, 0) == Some(Exit(m.code, m.status))
  {
    hide ExitMatch, NoCapital, Preferred, Patterns.BestMatch, Patterns.Greedy, Patterns.Matches, MainExitFrom, At, Run;
    var i, c, w, p := Patterns.MainExitIs(l, 0);
    var r := MainExitFrom(l, 0);
    if r.Some? {
      BestMatches(l, r, i, c, w, p);
      m := PlacesMatch(l, i, c, w, p);
      ExitIsParts(l, i, c, w, p, m);
    } else {
      m := Parts("", "", "", "", "", "");
    }
    forall n | ExitMatch(l, n) ensures r.Some? && Preferred(m, n) {
      BestIsPreferred(l, r, i, c, w, p, m, n);
    }
  }

  /** There is but one. */
  lemma FoundIsOne(l: string, m: Parts, n: Parts)
    requires NoCapital(l) && ExitFound(l, m) && ExitFound(l, n)
    ensures m == n
  {
    hide ExitMatch, Patterns.Matches, Run, At, NoCapital;
    assert Preferred(m, n) && Preferred(n, m);
    var i, c, w, p := MatchPlaced(l, m);
    var j, d, v, q := MatchPlaced(l, n);
  }

  lemma MainExitIff(l: string, m: Parts)
    requires NoCapital(l) && ExitFound(l, m)
    ensures MainExitFrom(l, 0) == Some(Exit(m.code, m.status))
  {
    assert ExitText(l);
    var n := MainExitFinds(l);
    FoundIsOne(l, m, n);
  }

  // --- the expression of a failed result --------------------------------------------------------------

  lemma ResultChars(l: string, w: string)
    requires NoCapital(l) && forall c :: c in w ==> c in l
    ensures ResultWord(w) <==> w != [] && forall k :: 0 <= k < |w| ==> IsResultChar(w[k])
  {
    forall k | 0 <= k < |w| ensures !('A' <= w[k] <= 'Z') {
      assert w[k] in l;
    }
  }

  lemma ResultPlaced(l: string, a: string, w: string, b: string)
    requires NoCapital(l) && ResultMatch(l, a, w, b)
    ensures Patterns.ResultMatches(l, |a|, w)
  {
    hide NoCapital, ResultWord;
    var t := FAILED_RESULT;
    assert l[0..] == l;
    RightNested(a, t, w, "'", b);
    Peel(l, 0, a, t + (w + ("'" + b)));
    Peel(l, |a|, t, w + ("'" + b));
    Peel(l, |a| + |t|, w, "'" + b);
    Peel(l, |a| + |t| + |w|, "'", b);
    assert w == l[|a| + |t|..|a| + |t| + |w|];
    ResultChars(l, w);
  }

  lemma PlaceIsResult(l: string, i: nat, w: string) returns (a: string, b: string)
    requires NoCapital(l) && Patterns.ResultMatches(l, i, w)
    ensures ResultMatch(l, a, w, b) && |a| == i
  {
    hide NoCapital, ResultWord;
    var k := i + |FAILED_RESULT|;
    a, b := l[..i], l[k + |w| + 1..];
    ResultChars(l, w);
    assert l[k..] == w + ("'" + b);
    RightNested(a, FAILED_RESULT, w, "'", b);
  }

  /** The same for the leftmost failed result. */
  lemma FailedResultFinds(l: string)
    requires NoCapital(l)
    ensures FailedResultFrom(l, 0).Some? <==> ResultText(l)
    ensures FailedResultFrom(l, 0).Some? ==> ResultFound(l, FailedResultFrom(l, 0).value)
  {
    hide ResultMatch, NoCapital, Patterns.ResultMatches;
    var i := Patterns.FailedResultIs(l, 0);
    var r := FailedResultFrom(l, 0);
    forall c, v, d | ResultMatch(l, c, v, d) ensures r.Some? && i <= |c| {
      ResultPlaced(l, c, v, d);
    }
    if r.Some? {
      var a, b := PlaceIsResult(l, i, r.value);
    }
  }

  lemma ResultIsOne(l: string, v: string, w: string)
    requires NoCapital(l) && ResultFound(l, v) && ResultFound(l, w)
    ensures v == w
  {
    hide NoCapital, ResultMatch;
    var a, b :| ResultMatch(l, a, v, b) && forall c, u, d :: ResultMatch(l, c, u, d) ==> |a| <= |c|;
    var c, d :| ResultMatch(l, c, w, d) && forall e, u, f :: ResultMatch(l, e, u, f) ==> |c| <= |e|;
    ResultPlaced(l, a, v, b);
    ResultPlaced(l, c, w, d);
    Patterns.ResultIsRun(l, |a|, v);
    Patterns.ResultIsRun(l, |c|, w);
  }

  // --- numbers and names of signals ---------------------------------------------------------------------

  /** What stands before the first slash. */
  predicate BeforeFirstSlash(status: string, w: string) {
    '/' !in w && (status == w || w + "/" <= status)
  }

  lemma BeforeSlashIs(status: string, w: string)
    requires BeforeFirstSlash(status, w)
    ensures BeforeSlash(status) == w
  {
    var f := c => c != '/';
    var n := Run(status, f);
    RunHolds(status, f);
    RunCovers(status, 0, |w|, f);
    assert status[0..] == status;
    assert forall k :: 0 <= k < |w| ==> status[k] == w[k] && w[k] in w;
    if w + "/" <= status { assert status[|w|] == (w + "/")[|w|] == '/'; }
    assert n == |w|;
  }

  lemma SlashExists(status: string) returns (w: string)
    ensures BeforeFirstSlash(status, w) && w == BeforeSlash(status)
  {
    w := BeforeSlash(status);
    RunHolds(status, c => c != '/');
    if |w| < |status| { assert status[|w|] == '/' && w + "/" == status[..|w| + 1]; }
  }

  /** A number that is zero: noughts, with single underscores between them. */
  predicate Zeros(w: string) {
    && w != [] && w[0] == '0' && w[|w| - 1] == '0'
    && (forall i :: 0 <= i < |w| ==> w[i] == '0' || w[i] == '_')
    && (forall i :: 0 <= i < |w| - 1 ==> w[i] == '0' || w[i + 1] == '0')
  }

  lemma {:induction false} DigitsZero(s: string)
    ensures DigitsValue(s) == 0 <==> forall i :: 0 <= i < |s| ==> IsDigit(s[i]) ==> s[i] == '0'
    decreases |s|
  {
    if s != [] { DigitsZero(s[..|s| - 1]); }
  }

  lemma ZeroIff(w: string)
    ensures IsIntBody(w) && DigitsValue(w) == 0 <==> Zeros(w)
  {
    DigitsZero(w);
  }

  lemma DecimalIsBody(n: nat)
    ensures IsIntBody(Decimal(n)) && DigitsValue(Decimal(n)) == n
  {
    Signature.DecimalReads(n);
  }

  /** Among word characters there is neither a sign nor a blank. */
  lemma ParseWord(w: string)
    requires forall c :: c in w ==> IsWord(c)
    ensures ParseInt(w) == if IsIntBody(w) then Some(DigitsValue(w)) else None
  {
    hide IsIntBody, DigitsValue, Strip;
    if w != [] { assert w[0] in w && w[|w| - 1] in w; }
    NothingStripped(w);
  }

  ghost function SignalNamed(w: string): Option<int> {
    if w == "sighup" then Some(1)
    else if w == "sigint" then Some(2)
    else if w == "sigquit" then Some(3)
    else if w == "sigill" then Some(4)
    else if w == "sigabrt" then Some(6)
    else if w == "sigbus" then Some(7)
    else if w == "sigfpe" then Some(8)
    else if w == "sigkill" then Some(9)
    else if w == "sigsegv" then Some(11)
    else if w == "sigpipe" then Some(13)
    else if w == "sigterm" then Some(15)
    else None
  }

  lemma NamedIs(w: string)
    ensures SignalNamed(w) == if w in SIGNALS then Some(SIGNALS[w]) else None
  {
  }

  lemma ToSignalIs(w: string)
    ensures ToSignal(w) == if w != [] && AllDigits(w) then Some(DigitsValue(w)) else SignalNamed(w)
  {
    hide SIGNALS, SignalNamed;
    NamedIs(w);
    NotASignal();
  }

  lemma NotASignal()
    ensures [] !in SIGNALS
  {
  }

  // --- the laws -----------------------------------------------------------------------------------------

  lemma LoweredHasNoCapital(message: string)
    ensures NoCapital(Lower(message))
  {
  }

  /** The main process exited with code 0. */
  ghost predicate CleanExit(l: string) {
    exists m, w :: ExitFound(l, m) && m.code == "exited" && BeforeFirstSlash(m.status, w) && Zeros(w)
  }

  ghost predicate NoText(l: string) {
    !OomText(l) && !SegfaultText(l) && !ExitText(l) && !ResultText(l) && !Has(l, "entered failed state")
  }

  /** Without an event: which kind detection finds. */
  lemma DetectedBy(ev: Event, errorPriority: int)
    ensures var l, d := Lower(ev.message), Detected(ev, errorPriority);
            && (OomText(l) ==> d == ev.(kind := Some(Oom)))
            && (!OomText(l) && SegfaultText(l) ==> d == ev.(kind := Some(Crash), signal := Some(11)))
            && (!OomText(l) && !SegfaultText(l) && !ExitText(l) ==>
                  && (forall w :: ResultFound(l, w) ==> d == ev.(kind := Some(if w == "oom-kill" then Oom else Crash)))
                  && (!ResultText(l) && Has(l, "entered failed state") ==> d == ev.(kind := Some(Failed))))
            && (NoText(l) ==> d == if ev.priority <= errorPriority then ev.(kind := Some(Error)) else ev)
  {
    var l := Lower(ev.message);
    hide ExitText, ResultText, ResultFound, SegfaultText, OomText, IsOom, IsSegfault, MainExitFrom, FailedResultFrom, NoCapital;
    hide ExitFound;
    LoweredHasNoCapital(ev.message);
    OomIff(l);
    SegfaultIff(l);
    HasIff(l, "entered failed state");
    var m := MainExitFinds(l);
    FailedResultFinds(l);
    forall w | ResultFound(l, w) ensures FailedResultFrom(l, 0) == Some(w) { ResultNamed(l, w); }
  }

  lemma ResultNamed(l: string, w: string)
    requires NoCapital(l) && ResultFound(l, w)
    ensures FailedResultFrom(l, 0) == Some(w)
  {
    hide ResultMatch, NoCapital;
    FailedResultFinds(l);
    var a, b :| ResultMatch(l, a, w, b) && forall c, v, d :: ResultMatch(l, c, v, d) ==> |a| <= |c|;
    assert ResultText(l);
    ResultIsOne(l, w, FailedResultFrom(l, 0).value);
  }

  /** A main process that exited by itself has an exit code, a clean one is no problem; one
      that was killed or dumped core has a signal. */
  lemma DetectedExit(ev: Event, errorPriority: int, m: Parts, w: string)
    requires var l := Lower(ev.message); !OomText(l) && !SegfaultText(l) && ExitFound(l, m)
    requires BeforeFirstSlash(m.status, w)
    ensures var d := Detected(ev, errorPriority);
            && (m.code == "exited" ==>
                  d == ev.(exitCode := if IsIntBody(w) then Some(DigitsValue(w)) else None,
                           kind := if Zeros(w) then None else Some(Crash)))
            && (m.code != "exited" ==>
                  d == ev.(signal := if w != [] && AllDigits(w) then Some(DigitsValue(w)) else SignalNamed(w),
                           kind := Some(Crash)))
  {
    var l := Lower(ev.message);
    hide ExitText, SegfaultText, OomText, IsOom, IsSegfault, MainExitFrom, FailedResultFrom, NoCapital, ExitFound;
    hide SignalNamed, ToSignal, ParseInt, BeforeSlash, Zeros, IsIntBody, DigitsValue;
    LoweredHasNoCapital(ev.message);
    OomIff(l);
    SegfaultIff(l);
    MainExitIff(l, m);
    BeforeSlashIs(m.status, w);
    FoundStatus(l, m, w);
    ParseWord(w);
    ZeroIff(w);
    ToSignalIs(w);
  }

  lemma FoundStatus(l: string, m: Parts, w: string)
    requires ExitFound(l, m) && BeforeFirstSlash(m.status, w)
    ensures forall c :: c in w ==> IsWord(c)
  {
    assert StatusText(m.status);
    forall c | c in w ensures IsWord(c) {
      var k :| 0 <= k < |w| && w[k] == c;
      assert m.status[k] == c;
    }
  }

  // --- the laws for classification -------------------------------------------------------------------------

  lemma DetectedFrame(ev: Event, errorPriority: int)
    ensures var d := Detected(ev, errorPriority);
            d == ev.(kind := d.kind, exitCode := d.exitCode, signal := d.signal)
  {
    hide IsOom, IsSegfault, MainExitFrom, FailedResultFrom, ToSignal, ParseInt, BeforeSlash, Contains;
  }

  /** Classification sets kind, exit code, signal and signature, nothing else; a kind set by
      the source wins. */
  lemma ClassifiedDeath(ev: Event, errorPriority: int)
    ensures var c, d := Classified(ev, errorPriority), Detected(ev, errorPriority);
            && c == ev.(kind := c.kind, exitCode := c.exitCode, signal := c.signal, signature := c.signature)
            && (ev.kind.Some? ==> c.kind == ev.kind && c.exitCode == ev.exitCode && c.signal == ev.signal)
            && (ev.kind.None? ==> c.kind == d.kind && c.exitCode == d.exitCode && c.signal == d.signal)
  {
    DetectedFrame(ev, errorPriority);
    hide Detected, Signature.SignatureOf;
  }

  lemma NotClean(l: string)
    requires !ExitText(l)
    ensures !CleanExit(l)
  {
  }

  lemma NoResult(l: string)
    requires !ResultText(l)
    ensures forall w :: !ResultFound(l, w)
  {
    hide ResultMatch;
  }

  lemma ExitKind(ev: Event, errorPriority: int)
    requires var l := Lower(ev.message); !OomText(l) && !SegfaultText(l) && ExitText(l)
    ensures Detected(ev, errorPriority).kind == if CleanExit(Lower(ev.message)) then None else Some(Crash)
  {
    var l := Lower(ev.message);
    LoweredHasNoCapital(ev.message);
    var m := MainExitFinds(l);
    var w := SlashExists(m.status);
    hide ExitFound, ExitText, OomText, SegfaultText, Detected, NoCapital, Zeros, BeforeFirstSlash, IsIntBody, SignalNamed;
    DetectedExit(ev, errorPriority, m, w);
    if CleanExit(l) {
      var n, v :| ExitFound(l, n) && n.code == "exited" && BeforeFirstSlash(n.status, v) && Zeros(v);
      FoundIsOne(l, m, n);
      BeforeSlashIs(m.status, v);
      BeforeSlashIs(m.status, w);
    }
  }

  /** Exactly which texts make an event without a kind which problem, in the source's order:
      out of memory, segmentation fault, exit of the main process, failed result, failed
      state, and priority last. */
  lemma KindIff(ev: Event, errorPriority: int)
    requires ev.kind == None
    ensures var l, k := Lower(ev.message), Classified(ev, errorPriority).kind;
            && (k == Some(Oom) <==> OomText(l) || (!SegfaultText(l) && !ExitText(l) && ResultFound(l, "oom-kill")))
            && (k == Some(Crash) <==>
                  !OomText(l) && (SegfaultText(l)
                                  || (ExitText(l) && !CleanExit(l))
                                  || (!ExitText(l) && ResultText(l) && !ResultFound(l, "oom-kill"))))
            && (k == Some(Failed) <==>
                  !OomText(l) && !SegfaultText(l) && !ExitText(l) && !ResultText(l) && Has(l, "entered failed state"))
            && (k == Some(Error) <==> NoText(l) && ev.priority <= errorPriority)
            && (k == None <==> (!OomText(l) && !SegfaultText(l) && CleanExit(l))
                               || (NoText(l) && ev.priority > errorPriority))
  {
    var l := Lower(ev.message);
    ClassifiedDeath(ev, errorPriority);
    LoweredHasNoCapital(ev.message);
    hide Detected, Classified, Has, OomText, SegfaultText, NoCapital, Zeros, ExitMatch, ResultMatch;
    DetectedBy(ev, errorPriority);
    if ExitText(l) {
      if !OomText(l) && !SegfaultText(l) { ExitKind(ev, errorPriority); }
    } else {
      NotClean(l);
      if ResultText(l) {
        FailedResultFinds(l);
        var w := FailedResultFrom(l, 0).value;
        if ResultFound(l, "oom-kill") { ResultIsOne(l, w, "oom-kill"); }
      } else {
        NoResult(l);
      }
    }
  }

  /** Exit code and signal of a main process that exits with status `n`: never both. */
  lemma ExitStatusIs(ev: Event, errorPriority: int, m: Parts, n: nat)
    requires ev.kind == None
    requires var l := Lower(ev.message); !OomText(l) && !SegfaultText(l) && ExitFound(l, m)
    requires BeforeFirstSlash(m.status, Decimal(n))
    ensures var c := Classified(ev, errorPriority);
            && (m.code == "exited" ==>
                  c.exitCode == Some(n) && c.signal == ev.signal && c.kind == if n == 0 then None else Some(Crash))
            && (m.code != "exited" ==>
                  c.signal == Some(n) && c.exitCode == ev.exitCode && c.kind == Some(Crash))
  {
    DecimalIsBody(n);
    ZeroIff(Decimal(n));
    hide OomText, SegfaultText, ExitFound, Zeros, IsIntBody, SignalNamed, BeforeFirstSlash, Decimal, Detected, Classified, DigitsValue;
    DetectedExit(ev, errorPriority, m, Decimal(n));
    ClassifiedDeath(ev, errorPriority);
  }

  /** And with a status that is no number: a name of a signal, if it is one. */
  lemma ExitNameIs(ev: Event, errorPriority: int, m: Parts, w: string)
    requires ev.kind == None
    requires var l := Lower(ev.message); !OomText(l) && !SegfaultText(l) && ExitFound(l, m)
    requires BeforeFirstSlash(m.status, w) && (w == [] || !('0' <= w[0] <= '9'))
    ensures var c := Classified(ev, errorPriority);
            && c.kind == Some(Crash)
            && (m.code == "exited" ==> c.exitCode == None && c.signal == ev.signal)
            && (m.code != "exited" ==> c.signal == SignalNamed(w) && c.exitCode == ev.exitCode)
  {
    assert !IsIntBody(w) && !(w != [] && AllDigits(w)) && !Zeros(w);
    hide OomText, SegfaultText, ExitFound, Zeros, IsIntBody, SignalNamed, BeforeFirstSlash, Detected, Classified, DigitsValue, AllDigits;
    DetectedExit(ev, errorPriority, m, w);
    ClassifiedDeath(ev, errorPriority);
  }

  /** No other text carries an exit code; a segmentation fault is signal 11, no other text
      carries a signal. */
  lemma OtherTextsKeep(ev: Event, errorPriority: int)
    requires ev.kind == None
    requires var l := Lower(ev.message); OomText(l) || SegfaultText(l) || !ExitText(l)
    ensures var l, c := Lower(ev.message), Classified(ev, errorPriority);
            && c.exitCode == ev.exitCode
            && c.signal == if !OomText(l) && SegfaultText(l) then Some(11) else ev.signal
  {
    var l := Lower(ev.message);
    ClassifiedDeath(ev, errorPriority);
    LoweredHasNoCapital(ev.message);
    hide Detected, Classified, Has, OomText, SegfaultText, NoCapital, ResultMatch, ExitText;
    DetectedBy(ev, errorPriority);
    FailedResultFinds(l);
  }

  /** The text of a signature. */
  ghost predicate Signs(s: string, kind: Kind, exitCode: Option<int>, signal: Option<int>, message: string) {
    match kind
    case Oom => s == "oom"
    case Failed => s == "failed"
    case Crash =>
      && (signal == None && exitCode == None ==> s == "crash")
      && (signal.Some? && signal.value >= 0 ==> s == "crash:signal=" + Decimal(signal.value))
      && (signal == None && exitCode.Some? && exitCode.value >= 0 ==> s == "crash:exit=" + Decimal(exitCode.value))
    case _ =>
      var n := Signature.Normalise(message);
      s <= n && |s| == if |n| <= 80 then |n| else 80
  }

  lemma SignsIt(kind: Kind, exitCode: Option<int>, signal: Option<int>, message: string)
    ensures Signs(Signature.SignatureOf(kind, exitCode, signal, message), kind, exitCode, signal, message)
  {
    hide Signature.Normalise, Decimal;
  }

  /** A problem without a signature gets one that says how the process died, which kind of
      problem it is, or what the message is about; anything else keeps what it brought. */
  lemma SignatureIs(ev: Event, errorPriority: int)
    ensures var c := Classified(ev, errorPriority);
            if c.kind.Some? && ev.signature.None?
            then c.signature.Some? && Signs(c.signature.value, c.kind.value, c.exitCode, c.signal, ev.message)
            else c.signature == ev.signature
  {
    DetectedFrame(ev, errorPriority);
    hide Detected, Signs, Signature.SignatureOf;
    var d := if ev.kind.None? then Detected(ev, errorPriority) else ev;
    if d.kind.Some? { SignsIt(d.kind.value, d.exitCode, d.signal, d.message); }
  }

  /** Lower case: letters from A to Z become those from a to z, nothing else changes. */
  lemma LoweredIs(s: string, i: nat)
    requires i < |s|
    ensures |Lower(s)| == |s|
    ensures var upper, lower := "ABCDEFGHIJKLMNOPQRSTUVWXYZ", "abcdefghijklmnopqrstuvwxyz";
            if s[i] in upper then exists k :: 0 <= k < 26 && s[i] == upper[k] && Lower(s)[i] == lower[k]
            else Lower(s)[i] == s[i]
  {
    var upper, lower := "ABCDEFGHIJKLMNOPQRSTUVWXYZ", "abcdefghijklmnopqrstuvwxyz";
    assert forall k :: 0 <= k < 26 ==> upper[k] as int == 65 + k && lower[k] as int == 97 + k;
    if 'A' <= s[i] <= 'Z' {
      var k := s[i] as int - 65;
      assert upper[k] == s[i] && lower[k] == Lower(s)[i];
    } else {
      assert forall k :: 0 <= k < 26 ==> upper[k] != s[i];
    }
  }
}

/** The hand-written matchers of hblog/classify.py against the regular expressions they
    stand for: they match exactly when the expression does, and pick its leftmost match
    and, within it, the longest repetitions from left to right. */
module Patterns {
  import opened Model
  import opened Text
  import opened Classify

  // --- main process exited.*code=(\w+).*status=([\w/]+) --------------------------------------

  predicate AllWord(l: string, lo: nat, hi: nat) {
    hi <= |l| && forall k :: lo <= k < hi ==> IsWord(l[k])
  }

  predicate OnOneLine(l: string, lo: nat, hi: nat) {
    hi <= |l| && forall k :: lo <= k < hi ==> l[k] != '\n'
  }

  /** The expression matches with its fixed texts at `i`, `c` and `p` and a first group of
      `w` characters. */
  ghost predicate Matches(l: string, i: nat, c: nat, w: nat, p: nat) {
    At(l, i, MAIN_EXIT) && Rest(l, i + |MAIN_EXIT|, c, w, p)
  }

  ghost predicate Rest(l: string, from: nat, c: nat, w: nat, p: nat) {
    && from <= c && At(l, c, "code=") && w >= 1 && AllWord(l, c + 5, c + 5 + w)
    && c + 5 + w <= p && StatusAt(l, p) && OnOneLine(l, from, p)
  }

  /** None of the matches from here has its code further right; of those with it here,
      none a longer code word; of those, none its status further right. */
  ghost predicate Greedy(l: string, from: nat, c: nat, w: nat, p: nat) {
    forall d: nat, v: nat, q: nat :: Rest(l, from, d, v, q) ==>
      d <= c && (d == c ==> v <= w && (v == w ==> q <= p))
  }

  /** Where the line that `from` is on ends. */
  function LineEnd(l: string, from: nat): (end: nat)
    requires from <= |l|
    ensures from <= end <= |l|
  {
    from + Run(l[from..], NotNewline)
  }

  lemma LineEndIs(l: string, from: nat, p: nat)
    requires from <= |l| && from <= p < |l| && l[p] != '\n'
    ensures OnOneLine(l, from, p) <==> p <= LineEnd(l, from)
  {
    RunHolds(l[from..], NotNewline);
    assert forall k :: from <= k < |l| ==> l[k] == l[from..][k - from];
  }

  lemma {:induction false} LastStatusIs(l: string, lo: nat, hi: nat)
    ensures var r := LastStatus(l, lo, hi);
            && (r.Some? ==> lo <= r.value <= hi && StatusAt(l, r.value))
            && forall q: nat :: lo <= q <= hi && StatusAt(l, q) ==> r.Some? && q <= r.value
    decreases hi
  {
    if lo <= hi && !StatusAt(l, hi) && hi > 0 { LastStatusIs(l, lo, hi - 1); }
  }

  predicate WordThenStatus(l: string, from: nat, v: nat, q: nat, end: nat) {
    1 <= v && from + v <= q <= end && StatusAt(l, q)
  }

  lemma {:induction false} CodeWordIs(l: string, from: nat, w: nat, end: nat)
    ensures var r := CodeWord(l, from, w, end);
            && (r.Some? ==> 1 <= r.value.0 <= w && from + r.value.0 <= r.value.1 <= end && StatusAt(l, r.value.1))
            && forall v: nat, q: nat :: WordThenStatus(l, from, v, q, end) && v <= w ==>
                 r.Some? && v <= r.value.0 && (v == r.value.0 ==> q <= r.value.1)
    decreases w
  {
    if w > 0 {
      LastStatusIs(l, from + w, end);
      CodeWordIs(l, from, w - 1, end);
    }
  }

  /** What the search for a code word at `c` finds, if `code=` stands there. */
  function CodeFound(l: string, c: nat, end: nat): Option<(nat, nat)> {
    if CodeAt(l, c) then CodeWord(l, c + 5, Run(l[c + 5..], IsWord), end) else None
  }

  lemma WordRun(l: string, lo: nat, w: nat)
    requires lo <= |l|
    ensures AllWord(l, lo, lo + w) <==> w <= Run(l[lo..], IsWord)
  {
    RunHolds(l[lo..], IsWord);
    assert forall k :: lo <= k < |l| ==> l[k] == l[lo..][k - lo];
  }

  lemma RestHasCode(l: string, from: nat, c: nat, w: nat, p: nat)
    ensures Rest(l, from, c, w, p) ==> CodeAt(l, c) && from <= c && c + 5 + w <= |l| && p + 7 <= |l|
  {
    assert Rest(l, from, c, w, p) ==> c + 5 < |l| && IsWord(l[c + 5]);
  }

  lemma CodeFoundIs(l: string, from: nat, c: nat)
    requires from <= |l| && from <= c
    ensures var r := CodeFound(l, c, LineEnd(l, from));
            && (r.Some? ==> Rest(l, from, c, r.value.0, r.value.1))
            && forall v: nat, q: nat :: Rest(l, from, c, v, q) ==>
                 r.Some? && v <= r.value.0 && (v == r.value.0 ==> q <= r.value.1)
  {
    var end := LineEnd(l, from);
    if CodeAt(l, c) {
      var n := Run(l[c + 5..], IsWord);
      CodeWordIs(l, c + 5, n, end);
      var r := CodeWord(l, c + 5, n, end);
      if r.Some? {
        StatusOnLine(l, from, r.value.1);
        WordRun(l, c + 5, r.value.0);
      }
      forall v: nat, q: nat | Rest(l, from, c, v, q)
        ensures r.Some? && v <= r.value.0 && (v == r.value.0 ==> q <= r.value.1)
      {
        StatusOnLine(l, from, q);
        WordRun(l, c + 5, v);
        assert WordThenStatus(l, c + 5, v, q, end);
      }
    } else {
      forall v: nat, q: nat ensures Rest(l, from, c, v, q) ==> CodeAt(l, c) {
        RestHasCode(l, from, c, v, q);
      }
    }
  }

  lemma StatusOnLine(l: string, from: nat, p: nat)
    requires from <= |l| && from <= p && StatusAt(l, p)
    ensures OnOneLine(l, from, p) <==> p <= LineEnd(l, from)
  {
    assert l[p..p + 7][0] == 's';
    LineEndIs(l, from, p);
  }

  function ExitAt(l: string, c: nat, w: nat, p: nat): Exit
    requires c + 5 + w <= |l| && p + 7 <= |l|
  {
    Exit(l[c + 5..c + 5 + w], l[p + 7..p + 7 + Run(l[p + 7..], IsStatusChar)])
  }

  /** `r` is the preferred match among those with their code up to `hi`, or there is none. */
  ghost predicate BestRest(l: string, from: nat, hi: nat, r: Option<Exit>, c: nat, w: nat, p: nat) {
    && (r.Some? ==>
          Rest(l, from, c, w, p) && c <= hi && c + 5 + w <= |l| && p + 7 <= |l| && r.value == ExitAt(l, c, w, p))
    && forall e: nat, v: nat, q: nat :: Rest(l, from, e, v, q) && e <= hi ==>
         r.Some? && e <= c && (e == c ==> v <= w && (v == w ==> q <= p))
  }

  lemma CodeHere(l: string, from: nat, c: nat, w: nat, p: nat)
    requires from <= |l| && from <= c && CodeFound(l, c, LineEnd(l, from)) == Some((w, p))
    ensures var r := LastCode(l, from, c, LineEnd(l, from)); BestRest(l, from, c, r, c, w, p)
  {
    hide Rest, CodeWord, LineEnd, At, Run;
    CodeFoundIs(l, from, c);
    RestHasCode(l, from, c, w, p);
  }

  lemma NoCodeHere(l: string, from: nat, c: nat, r: Option<Exit>, d: nat, w: nat, p: nat)
    requires from <= |l| && 0 < c && from <= c && CodeFound(l, c, LineEnd(l, from)) == None
    requires BestRest(l, from, c - 1, r, d, w, p)
    ensures BestRest(l, from, c, r, d, w, p)
  {
    hide Rest, CodeWord, CodeFound, LineEnd, ExitAt;
    CodeFoundIs(l, from, c);
  }

  lemma NoCodeAtAll(l: string, from: nat, c: nat)
    requires from <= |l| && (c < from || (c == 0 && CodeFound(l, c, LineEnd(l, from)) == None))
    ensures BestRest(l, from, c, None, 0, 0, 0)
  {
    if from <= c { CodeFoundIs(l, from, c); }
    forall e: nat, v: nat, q: nat ensures Rest(l, from, e, v, q) ==> from <= e { }
  }

  /** The search for the code, from `c` leftwards. */
  lemma {:induction false} LastCodeIs(l: string, from: nat, c: nat) returns (d: nat, w: nat, p: nat)
    requires from <= |l|
    ensures BestRest(l, from, c, LastCode(l, from, c, LineEnd(l, from)), d, w, p)
    decreases c
  {
    hide BestRest, CodeWord, LineEnd, Run, At;
    d, w, p := 0, 0, 0;
    var found := CodeFound(l, c, LineEnd(l, from));
    if c < from {
      NoCodeAtAll(l, from, c);
    } else if found.Some? {
      d, w, p := c, found.value.0, found.value.1;
      CodeHere(l, from, c, w, p);
    } else if c > 0 {
      d, w, p := LastCodeIs(l, from, c - 1);
      NoCodeHere(l, from, c, LastCode(l, from, c - 1, LineEnd(l, from)), d, w, p);
    } else {
      NoCodeAtAll(l, from, c);
    }
  }

  /** `r` is the match of the regular expression among those that begin at `start` or
      later: the leftmost one, with greedy repetitions; or there is none. */
  ghost predicate BestMatch(l: string, start: nat, r: Option<Exit>, i: nat, c: nat, w: nat, p: nat) {
    && (r.Some? ==>
          && start <= i && Matches(l, i, c, w, p) && Greedy(l, i + |MAIN_EXIT|, c, w, p)
          && c + 5 + w <= |l| && p + 7 <= |l| && r.value == ExitAt(l, c, w, p))
    && forall j: nat, d: nat, v: nat, q: nat :: Matches(l, j, d, v, q) && start <= j ==> r.Some? && i <= j
  }

  lemma RestEnds(l: string, from: nat, c: nat, w: nat, p: nat)
    requires from <= |l|
    ensures Rest(l, from, c, w, p) ==> c <= LineEnd(l, from)
  {
    if Rest(l, from, c, w, p) { StatusOnLine(l, from, p); }
  }

  lemma MatchHere(l: string, start: nat, e: Exit, c: nat, w: nat, p: nat)
    requires At(l, start, MAIN_EXIT)
    requires var from := start + |MAIN_EXIT|; BestRest(l, from, LineEnd(l, from), Some(e), c, w, p)
    ensures BestMatch(l, start, Some(e), start, c, w, p)
  {
    hide Rest, At, LineEnd;
    var from := start + |MAIN_EXIT|;
    forall d: nat, v: nat, q: nat ensures Rest(l, from, d, v, q) ==> d <= LineEnd(l, from) {
      RestEnds(l, from, d, v, q);
    }
  }

  ghost predicate NoneAt(l: string, start: nat) {
    forall d: nat, v: nat, q: nat :: !Matches(l, start, d, v, q)
  }

  lemma NoRestNoMatch(l: string, start: nat, c: nat, w: nat, p: nat)
    requires At(l, start, MAIN_EXIT)
    requires var from := start + |MAIN_EXIT|; BestRest(l, from, LineEnd(l, from), None, c, w, p)
    ensures NoneAt(l, start)
  {
    hide Rest, At, LineEnd;
    forall d: nat, v: nat, q: nat ensures !Matches(l, start, d, v, q) {
      RestEnds(l, start + |MAIN_EXIT|, d, v, q);
    }
  }

  lemma MatchLater(l: string, start: nat, r: Option<Exit>, i: nat, c: nat, w: nat, p: nat)
    requires NoneAt(l, start) && BestMatch(l, start + 1, r, i, c, w, p)
    ensures BestMatch(l, start, r, i, c, w, p)
  {
    hide Matches, Greedy, ExitAt;
  }

  lemma NothingAtEnd(l: string, start: nat)
    requires start >= |l|
    ensures BestMatch(l, start, None, 0, 0, 0, 0)
  {
    assert forall j: nat :: start <= j ==> !At(l, j, MAIN_EXIT);
  }

  /** The matcher finds the match of the regular expression, if it has one. */
  lemma {:induction false} MainExitIs(l: string, start: nat) returns (i: nat, c: nat, w: nat, p: nat)
    ensures BestMatch(l, start, MainExitFrom(l, start), i, c, w, p)
    decreases |l| - start
  {
    hide BestMatch, BestRest, LastCode, At, NoneAt;
    i, c, w, p := 0, 0, 0, 0;
    if start >= |l| {
      NothingAtEnd(l, start);
    } else if !At(l, start, MAIN_EXIT) {
      i, c, w, p := MainExitIs(l, start + 1);
      NoTextNoMatch(l, start);
      MatchLater(l, start, MainExitFrom(l, start + 1), i, c, w, p);
    } else {
      var from := start + |MAIN_EXIT|;
      TextFits(l, start);
      c, w, p := LastCodeIs(l, from, LineEnd(l, from));
      var m := LastCode(l, from, LineEnd(l, from), LineEnd(l, from));
      if m.Some? {
        i := start;
        MatchHere(l, start, m.value, c, w, p);
      } else {
        NoRestNoMatch(l, start, c, w, p);
        i, c, w, p := MainExitIs(l, start + 1);
        MatchLater(l, start, MainExitFrom(l, start + 1), i, c, w, p);
      }
    }
  }

  lemma NoTextNoMatch(l: string, start: nat)
    requires !At(l, start, MAIN_EXIT)
    ensures NoneAt(l, start)
  {
  }

  lemma TextFits(l: string, start: nat)
    requires At(l, start, MAIN_EXIT)
    ensures start + |MAIN_EXIT| <= |l|
  {
  }

  // --- failed with result '([\w-]+)' -----------------------------------------------------------

  /** The expression matches at `i` with the group `w`. */
  ghost predicate ResultMatches(l: string, i: nat, w: string) {
    && At(l, i, FAILED_RESULT) && w != [] && (forall k :: 0 <= k < |w| ==> IsResultChar(w[k]))
    && At(l, i + |FAILED_RESULT|, w) && At(l, i + |FAILED_RESULT| + |w|, "'")
  }

  lemma ResultIsRun(l: string, i: nat, w: string)
    requires ResultMatches(l, i, w)
    ensures var from := i + |FAILED_RESULT|;
            && from + |w| < |l| && l[from + |w|] == '\'' && Run(l[from..], IsResultChar) == |w| && w == l[from..from + |w|]
  {
    var from := i + |FAILED_RESULT|;
    assert l[from + |w|..from + |w| + 1][0] == '\'';
    assert l[from..] == w + l[from + |w|..];
    RunFull(w, IsResultChar);
    RunAppend(w, l[from + |w|..], IsResultChar);
  }

  /** What the matcher tests at `i`. */
  predicate ResultAt(l: string, i: nat) {
    && At(l, i, FAILED_RESULT)
    && var from := i + |FAILED_RESULT|; var n := Run(l[from..], IsResultChar);
       n > 0 && from + n < |l| && l[from + n] == '\''
  }

  lemma ResultAtIff(l: string, i: nat)
    ensures ResultAt(l, i) ==>
              var from := i + |FAILED_RESULT|; ResultMatches(l, i, l[from..from + Run(l[from..], IsResultChar)])
    ensures forall w: string :: ResultMatches(l, i, w) ==> ResultAt(l, i)
  {
    if ResultAt(l, i) {
      var from := i + |FAILED_RESULT|;
      var n := Run(l[from..], IsResultChar);
      RunHolds(l[from..], IsResultChar);
      assert l[from + n..from + n + 1] == "'";
    }
    forall w: string ensures ResultMatches(l, i, w) ==> ResultAt(l, i) {
      if ResultMatches(l, i, w) { ResultIsRun(l, i, w); }
    }
  }

  /** The leftmost match of the expression, if it has one. */
  lemma {:induction false} FailedResultIs(l: string, start: nat) returns (i: nat)
    ensures var r := FailedResultFrom(l, start);
            && (r.Some? ==> start <= i && ResultMatches(l, i, r.value))
            && forall j: nat, w: string :: ResultMatches(l, j, w) && start <= j ==> r.Some? && i <= j
    decreases |l| - start
  {
    hide ResultMatches;
    i := 0;
    if start < |l| {
      ResultAtIff(l, start);
      if ResultAt(l, start) {
        i := start;
      } else {
        i := FailedResultIs(l, start + 1);
      }
    } else {
      forall j: nat, w: string ensures ResultMatches(l, j, w) ==> j < |l| { ResultFits(l, j, w); }
    }
  }

  lemma ResultFits(l: string, j: nat, w: string)
    ensures ResultMatches(l, j, w) ==> j < |l|
  {
  }
}

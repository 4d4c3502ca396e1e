/** sorted(set(names)): the names once each, in code point order. */
module Sorting {

  predicate Less(a: string, b: string) {
    if b == [] then false
    else if a == [] then true
    else a[0] < b[0] || (a[0] == b[0] && Less(a[1..], b[1..]))
  }

  /** `a` comes before `b` by the character at `k`, or ends there. */
  predicate BeforeAt(a: string, b: string, k: nat) {
    k <= |a| && k < |b| && a[..k] == b[..k] && (k == |a| || a[k] < b[k])
  }

  /** The order is that of the first characters that differ; a proper prefix comes first. */
  lemma {:induction false} LessIff(a: string, b: string)
    ensures Less(a, b) <==> exists k :: BeforeAt(a, b, k)
  {
    if a == [] && b != [] {
      assert BeforeAt(a, b, 0);
    } else if a != [] && b != [] {
      LessIff(a[1..], b[1..]);
      if a[0] < b[0] { assert BeforeAt(a, b, 0); }
      if k: nat :| BeforeAt(a[1..], b[1..], k) {
        if a[0] == b[0] {
          assert a[..k + 1] == [a[0]] + a[1..][..k] && b[..k + 1] == [b[0]] + b[1..][..k];
          assert BeforeAt(a, b, k + 1);
        }
      }
      if k: nat :| BeforeAt(a, b, k) {
        if k > 0 {
          assert a[..k][0] == a[0] && b[..k][0] == b[0];
          assert a[1..][..k - 1] == a[..k][1..] && b[1..][..k - 1] == b[..k][1..];
          assert BeforeAt(a[1..], b[1..], k - 1);
        }
      }
    }
  }

  lemma {:induction false} LessTotal(a: string, b: string)
    ensures Less(a, b) || Less(b, a) || a == b
    ensures !(Less(a, b) && Less(b, a)) && !Less(a, a)
  {
    if a != [] { LessTotal(a[1..], a[1..]); }
    if a != [] && b != [] {
      LessTotal(a[1..], b[1..]);
      if a[1..] == b[1..] && a[0] == b[0] {
        assert a == [a[0]] + a[1..] && b == [b[0]] + b[1..];
      }
    }
  }

  lemma {:induction false} LessTransitive(a: string, b: string, c: string)
    requires Less(a, b) && Less(b, c)
    ensures Less(a, c)
  {
    if a != [] && a[0] == b[0] == c[0] {
      LessTransitive(a[1..], b[1..], c[1..]);
    }
  }

  ghost predicate Ascending(s: seq<string>) {
    forall i, j :: 0 <= i < j < |s| ==> Less(s[i], s[j])
  }

  function Insert(u: string, s: seq<string>): seq<string> {
    if s == [] then [u]
    else if u == s[0] then s
    else if Less(u, s[0]) then [u] + s
    else [s[0]] + Insert(u, s[1..])
  }

  function SortedSet(units: seq<string>): seq<string> {
    if units == [] then [] else Insert(units[0], SortedSet(units[1..]))
  }

  lemma {:induction false} InsertElements(u: string, s: seq<string>)
    ensures forall x :: x in Insert(u, s) <==> x == u || x in s
  {
    if s != [] {
      assert s == [s[0]] + s[1..];
      InsertElements(u, s[1..]);
    }
  }

  lemma {:induction false} InsertAscends(u: string, s: seq<string>)
    requires Ascending(s)
    ensures Ascending(Insert(u, s))
  {
    if s != [] {
      LessTotal(u, s[0]);
      if u == s[0] {
      } else if Less(u, s[0]) {
        forall j | 0 <= j < |s| ensures Less(u, s[j]) {
          if j > 0 { LessTransitive(u, s[0], s[j]); }
        }
      } else {
        InsertAscends(u, s[1..]);
        InsertElements(u, s[1..]);
        var r := Insert(u, s[1..]);
        forall j | 0 <= j < |r| ensures Less(s[0], r[j]) {
          assert r[j] in r;
          if r[j] != u {
            var k :| 0 <= k < |s[1..]| && s[1..][k] == r[j];
            assert s[k + 1] == r[j];
          }
        }
      }
    }
  }

  /** The result is strictly ascending and has exactly the given names. */
  lemma {:induction false} SortedSetIs(units: seq<string>)
    ensures Ascending(SortedSet(units))
    ensures forall x :: x in SortedSet(units) <==> x in units
  {
    if units != [] {
      SortedSetIs(units[1..]);
      InsertAscends(units[0], SortedSet(units[1..]));
      InsertElements(units[0], SortedSet(units[1..]));
      assert units == [units[0]] + units[1..];
    }
  }

  /** An ascending list is determined by its elements, so neither order nor repetition of
      the given names matters. */
  lemma {:induction false} AscendingUnique(a: seq<string>, b: seq<string>)
    requires Ascending(a) && Ascending(b) && forall x :: x in a <==> x in b
    ensures a == b
  {
    assert b != [] ==> b[0] in b;
    if a != [] {
      assert a[0] in a && a[0] in b;
      var k :| 0 <= k < |b| && b[k] == a[0];
      assert b[0] in b && b[0] in a;
      var m :| 0 <= m < |a| && a[m] == b[0];
      if k > 0 && m > 0 { LessTotal(a[0], b[0]); }
      LessTotal(a[0], a[0]);
      LessTotal(b[0], b[0]);
      assert a[0] == b[0];
      forall x ensures x in a[1..] <==> x in b[1..] {
        TailElements(a, x);
        TailElements(b, x);
      }
      AscendingUnique(a[1..], b[1..]);
      assert a == [a[0]] + a[1..] && b == [b[0]] + b[1..];
    }
  }

  lemma TailElements(s: seq<string>, x: string)
    requires Ascending(s) && s != []
    ensures x in s[1..] <==> x in s && x != s[0]
  {
    LessTotal(s[0], s[0]);
    assert s == [s[0]] + s[1..];
    assert forall k :: 0 <= k < |s| - 1 ==> s[1..][k] == s[k + 1];
  }

  lemma OrderIsIrrelevant(a: seq<string>, b: seq<string>)
    requires forall x :: x in a <==> x in b
    ensures SortedSet(a) == SortedSet(b)
  {
    SortedSetIs(a);
    SortedSetIs(b);
    AscendingUnique(SortedSet(a), SortedSet(b));
  }
}

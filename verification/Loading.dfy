/** Loading the two lists of unit patterns from a configuration text (hblog/config.py,
    `load`), and what changing one statement does to them. */
module Loading {
  import opened Model
  import opened Toml
  import opened ConfigFile

  const EXCLUDE := "exclude_units"

  datatype Lists = Lists(watch: seq<string>, exclude: seq<string>)

  /** A key that is not there means the default, an empty list. */
  function ListOf(v: Option<Value>): Option<seq<string>> {
    match v
    case None => Some([])
    case Some(Strings(items)) => Some(items)
    case Some(_) => None
  }

  /** The lists of a document: no key of the root table may be given twice, and both must
      be lists of strings. */
  function ListsOf(d: seq<Stmt>): Option<Lists> {
    var r := Root(d);
    var w, e := ListOf(Lookup(r, KEY)), ListOf(Lookup(r, EXCLUDE));
    if Distinct(r) && w.Some? && e.Some? then Some(Lists(w.value, e.value)) else None
  }

  function Load(text: string): Option<Lists> {
    if Doc(text).Some? then ListsOf(Doc(text).value) else None
  }

  // --- the root table of a document with a statement put in -------------------------------------

  predicate NoHeader(d: seq<Stmt>) { forall i :: 0 <= i < |d| ==> !d[i].Header? }

  lemma {:induction false} RootOfFront(a: seq<Stmt>, t: seq<Stmt>)
    ensures NoHeader(a) ==> Root(a + t) == a + Root(t)
    ensures !NoHeader(a) ==> Root(a + t) == Root(a)
  {
    if a == [] {
      assert a + t == t && a + Root(t) == Root(t);
    } else {
      assert (a + t)[1..] == a[1..] + t;
      RootOfFront(a[1..], t);
      assert forall i :: 0 <= i < |a[1..]| ==> a[1..][i] == a[i + 1];
      if NoHeader(a) {
        assert [a[0]] + (a[1..] + Root(t)) == a + Root(t);
      } else if !a[0].Header? {
        assert !NoHeader(a[1..]) by {
          var i :| 0 <= i < |a| && a[i].Header?;
          assert a[1..][i - 1] == a[i];
        }
      }
    }
  }

  lemma {:induction false} LookupBehind(a: seq<Stmt>, t: seq<Stmt>, key: string)
    ensures Lookup(a + t, key) == if Lookup(a, key).Some? then Lookup(a, key) else Lookup(t, key)
  {
    if a == [] {
      assert a + t == t;
    } else {
      assert (a + t)[1..] == a[1..] + t;
      LookupBehind(a[1..], t, key);
    }
  }

  lemma LookupOne(stmt: Stmt, t: seq<Stmt>, key: string)
    ensures Lookup([stmt] + t, key) == if stmt.Pair? && stmt.key == key then Some(stmt.value) else Lookup(t, key)
  {
    assert ([stmt] + t)[1..] == t;
  }

  /** Two documents with the same keys in the same places are both free of repetitions. */
  lemma {:induction false} DistinctByKeys(a: seq<Stmt>, x: Value, y: Value, key: string, t: seq<Stmt>)
    ensures Distinct(a + ([Pair(key, x)] + t)) == Distinct(a + ([Pair(key, y)] + t))
  {
    var d, e := a + ([Pair(key, x)] + t), a + ([Pair(key, y)] + t);
    if a == [] {
      assert d[1..] == t && e[1..] == t && d[0] == Pair(key, x) && e[0] == Pair(key, y);
    } else {
      assert d[1..] == a[1..] + ([Pair(key, x)] + t) && e[1..] == a[1..] + ([Pair(key, y)] + t);
      DistinctByKeys(a[1..], x, y, key, t);
      if a[0].Pair? {
        LookupBehind(a[1..], [Pair(key, x)] + t, a[0].key);
        LookupBehind(a[1..], [Pair(key, y)] + t, a[0].key);
        LookupOne(Pair(key, x), t, a[0].key);
        LookupOne(Pair(key, y), t, a[0].key);
      }
    }
  }

  /** A key that is given once is in no other place. */
  lemma {:induction false} DistinctMiddle(a: seq<Stmt>, x: Value, key: string, t: seq<Stmt>)
    requires Distinct(a + ([Pair(key, x)] + t))
    ensures Lookup(a, key) == None && Lookup(t, key) == None
  {
    var d := a + ([Pair(key, x)] + t);
    if a == [] {
      assert d[1..] == t && d[0] == Pair(key, x);
    } else {
      assert d[1..] == a[1..] + ([Pair(key, x)] + t) && d[0] == a[0];
      DistinctMiddle(a[1..], x, key, t);
      if a[0].Pair? {
        LookupBehind(a[1..], [Pair(key, x)] + t, a[0].key);
        LookupOne(Pair(key, x), t, a[0].key);
      }
    }
  }

  lemma {:induction false} DistinctAppend(a: seq<Stmt>, x: Value, key: string)
    requires Distinct(a) && Lookup(a, key) == None
    ensures Distinct(a + [Pair(key, x)])
  {
    if a == [] {
      assert a + [Pair(key, x)] == [Pair(key, x)] && [Pair(key, x)][1..] == [];
    } else {
      assert (a + [Pair(key, x)])[1..] == a[1..] + [Pair(key, x)];
      DistinctAppend(a[1..], x, key);
      if a[0].Pair? {
        LookupBehind(a[1..], [Pair(key, x)], a[0].key);
        LookupOne(Pair(key, x), [], a[0].key);
        assert [Pair(key, x)] + [] == [Pair(key, x)];
      }
    }
  }

  /** The document `a`, the list under the key, and the document `t`. */
  function Around(a: seq<Stmt>, units: seq<string>, t: seq<Stmt>): seq<Stmt> {
    a + ([Pair(KEY, Strings(units))] + t)
  }

  /** In the root table the list that is put in is the one that is loaded, and the other
      list is what it was. */
  lemma ListsInRoot(a: seq<Stmt>, old_: seq<string>, units: seq<string>, t: seq<Stmt>)
    requires NoHeader(a)
    ensures ListsOf(Around(a, units, t))
            == match ListsOf(Around(a, old_, t)) case Some(l) => Some(Lists(units, l.exclude)) case None => None
  {
    RootAround(a, old_, t);
    RootAround(a, units, t);
    DistinctByKeys(a, Strings(old_), Strings(units), KEY, Root(t));
    LookupsAround(a, old_, Root(t));
    LookupsAround(a, units, Root(t));
  }

  lemma RootAround(a: seq<Stmt>, units: seq<string>, t: seq<Stmt>)
    requires NoHeader(a)
    ensures Root(Around(a, units, t)) == Around(a, units, Root(t))
  {
    var p := [Pair(KEY, Strings(units))];
    RootOfFront(a, p + t);
    RootOfFront(p, t);
  }

  lemma LookupsAround(a: seq<Stmt>, units: seq<string>, t: seq<Stmt>)
    ensures Distinct(Around(a, units, t)) ==> Lookup(Around(a, units, t), KEY) == Some(Strings(units))
    ensures Lookup(Around(a, units, t), EXCLUDE)
            == if Lookup(a, EXCLUDE).Some? then Lookup(a, EXCLUDE) else Lookup(t, EXCLUDE)
  {
    var p := Pair(KEY, Strings(units));
    LookupBehind(a, [p] + t, KEY);
    LookupBehind(a, [p] + t, EXCLUDE);
    LookupOne(p, t, KEY);
    LookupOne(p, t, EXCLUDE);
    KeysDiffer();
    if Distinct(Around(a, units, t)) { DistinctMiddle(a, Strings(units), KEY, t); }
  }

  lemma KeysDiffer()
    ensures KEY != EXCLUDE
  {
    assert KEY[0] != EXCLUDE[0];
  }

  /** Behind a table header it is not in the root table, and both lists stay. */
  lemma ListsBehindHeader(a: seq<Stmt>, units: seq<string>, t: seq<Stmt>)
    requires !NoHeader(a)
    ensures ListsOf(Around(a, units, t)) == ListsOf(a)
  {
    RootOfFront(a, [Pair(KEY, Strings(units))] + t);
  }

  lemma {:induction false} RootIs(a: seq<Stmt>)
    requires NoHeader(a)
    ensures Root(a) == a
  {
    if a != [] {
      assert forall i :: 0 <= i < |a[1..]| ==> a[1..][i] == a[i + 1];
      RootIs(a[1..]);
    }
  }

  /** A list that is appended to a document without the key. */
  lemma ListsAppended(a: seq<Stmt>, units: seq<string>)
    requires NoHeader(a) && ListsOf(a).Some? && Lookup(a, KEY) == None
    ensures ListsOf(Around(a, units, [])) == Some(Lists(units, ListsOf(a).value.exclude))
  {
    RootIs(a);
    RootAround(a, units, []);
    DistinctAppend(a, Strings(units), KEY);
    assert [Pair(KEY, Strings(units))] + [] == [Pair(KEY, Strings(units))];
    LookupsAround(a, units, []);
  }
}

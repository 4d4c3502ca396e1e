/** The scan that writes the watch list, and loading the configuration it leaves
    (hblog/cli.py, `cmd_scan`; hblog/config.py, `load`). */
module Scan {
  import opened Model
  import opened Text
  import opened Toml
  import opened TomlLaws
  import opened ConfigFile
  import opened Sorting
  import opened WatchList
  import opened Printing
  import opened Surgery
  import opened Rewriting
  import opened Loading
  import Systemctl

  // --- loading what was written -------------------------------------------------------------------

  /** The list is put into the root table. */
  predicate InRoot(d: seq<Stmt>) {
    match Target(d)
    case Some(k) => NoHeader(d[..k])
    case None => NoHeader(d)
  }

  /** The brackets of the list that is replaced, if there is one, nest. */
  ghost predicate ListNests(text: string) {
    forall d, k, p {:trigger Located(text, d, k, p)} ::
      Doc(text) == Some(d) && Located(text, d, k, p) ==> Nested(p.inner, p.post)
  }

  lemma {:induction false} TargetIsFirst(d: seq<Stmt>)
    ensures Target(d) == None ==> ListOf(Lookup(d, KEY)).Some? ==> Lookup(d, KEY) == None
    ensures Target(d).Some? ==> Target(d[..Target(d).value]) == None
  {
    if d != [] && !IsTarget(d[0]) {
      TargetIsFirst(d[1..]);
      if Target(d).Some? {
        var k := Target(d).value;
        assert d[..k][0] == d[0] && d[..k][1..] == d[1..][..k - 1];
      }
    }
  }

  lemma {:induction false} RootTarget(d: seq<Stmt>)
    requires Target(d) == None
    ensures Target(Root(d)) == None
  {
    if d != [] && !d[0].Header? {
      RootTarget(d[1..]);
      assert ([d[0]] + Root(d[1..]))[1..] == Root(d[1..]);
    }
  }

  lemma FrontHasNoKey(a: seq<Stmt>)
    requires Target(a) == None && ListOf(Lookup(Root(a), KEY)).Some?
    ensures Lookup(Root(a), KEY) == None
  {
    RootTarget(a);
    TargetIsFirst(Root(a));
  }

  /** A document split at its target. */
  lemma AtTarget(d: seq<Stmt>) returns (a: seq<Stmt>, old_: seq<string>, t: seq<Stmt>)
    requires Target(d).Some?
    ensures var k := Target(d).value; a == d[..k] && t == d[k + 1..] && d == Around(a, old_, t) && Target(a) == None
  {
    var k := Target(d).value;
    TargetIsFirst(d);
    a, old_, t := d[..k], d[k].value.items, d[k + 1..];
    assert d == a + ([d[k]] + t);
  }

  /** The lists of the document after a list has taken the target's place or the end. */
  lemma ListsAfter(d: seq<Stmt>, a: seq<Stmt>, units: seq<string>, t: seq<Stmt>)
    requires ListsOf(d).Some?
    requires if Target(d).Some? then a == d[..Target(d).value] && t == d[Target(d).value + 1..] else a == d && t == []
    ensures var l := ListsOf(d).value;
            ListsOf(Around(a, units, t)) == if InRoot(d) then Some(Lists(units, l.exclude)) else Some(Lists([], l.exclude))
  {
    if Target(d).Some? {
      var b, old_, r := AtTarget(d);
      if NoHeader(a) {
        ListsInRoot(a, old_, units, t);
      } else {
        ListsBehindHeader(a, old_, t);
        ListsBehindHeader(a, units, t);
        FrontHasNoKey(a);
      }
    } else if NoHeader(d) {
      RootIs(d);
      TargetIsFirst(d);
      ListsAppended(d, units);
    } else {
      ListsBehindHeader(d, units, []);
      FrontHasNoKey(d);
    }
  }

  /** A document that the list, and whatever else there is, comes into: if it is loaded with
      the names written, these are the names read. */
  lemma LoadedNames(a: seq<Stmt>, items: seq<string>, t: seq<Stmt>)
    requires NoHeader(a) && ListsOf(Around(a, items, t)).Some?
    ensures ListsOf(Around(a, items, t)).value.watch == items
  {
    RootAround(a, items, t);
    LookupsAround(a, items, Root(t));
  }

  /** Where the list goes in an existing file. */
  lemma Placed(tpl: Template, text: string, d: seq<Stmt>) returns (a: seq<Stmt>, t: seq<Stmt>)
    requires Doc(text) == Some(d) && ListNests(text)
    ensures Fits(tpl, Some(text), a, t)
    ensures if Target(d).Some? then a == d[..Target(d).value] && t == d[Target(d).value + 1..] else a == d && t == []
  {
    hide Doc, Fits, Target, Nested, Located;
    if Target(d).Some? {
      var k, p := FindTarget(text, d);
      FitsInPlace(tpl, text, d, k, p);
      TargetOfPlace(text, d, k, p);
      a, t := d[..k], d[k + 1..];
    } else {
      FitsBehind(tpl, text, d);
      a, t := d, [];
    }
  }

  lemma TargetOfPlace(text: string, d: seq<Stmt>, k: nat, p: Place)
    requires Located(text, d, k, p)
    ensures Target(d) == Some(k)
  {
  }

  /** Writing to a file that loads and whose brackets nest: afterwards it loads with the
      names written, and the exclude list it had, if and only if every name is plain and the
      list came into the root table (or there are no names). The exclude list stays. */
  lemma LoadsBackIff(tpl: Template, text: string, units: seq<string>)
    requires Load(text).Some? && ListNests(text)
    ensures Load(Written(tpl, Some(text), units)) == Some(Lists(SortedSet(units), Load(text).value.exclude))
            <==> AllPlain(SortedSet(units)) && (InRoot(Doc(text).value) || SortedSet(units) == [])
  {
    hide Doc, Written, SortedSet, AllPlain, Fits, Target, ListsOf, InRoot, DecodedAll, AllQuoteFree, NoHeader, ListNests, Ahead, Behind;
    var d, us := Doc(text).value, SortedSet(units);
    var a, t := Placed(tpl, text, d);
    if AllPlain(us) {
      PlainDecodedAll(us);
      WrittenReads(tpl, Some(text), units, a, t);
      ListsAfter(d, a, us, t);
    } else {
      NotPlain(us);
      if Load(Written(tpl, Some(text), units)).Some? {
        FrontOfFits(tpl, Some(text), a, t);
        var items, r := WrittenReadsOnly(tpl, Some(text), units, a);
        NotAsWritten(d, a, items, r);
      }
    }
  }

  lemma NotPlain(us: seq<string>)
    requires !AllPlain(us)
    ensures us != []
  {
  }

  lemma FrontOfFits(tpl: Template, file: Option<string>, a: seq<Stmt>, t: seq<Stmt>)
    requires Fits(tpl, file, a, t)
    ensures var pre := Ahead(tpl, file); (pre == [] || EndsNewline(pre)) && Doc(pre) == Some(a)
  {
  }

  /** The watch list that is loaded is the one read at the place, or the empty one. */
  lemma NotAsWritten(d: seq<Stmt>, a: seq<Stmt>, items: seq<string>, r: seq<Stmt>)
    requires ListsOf(d).Some? && ListsOf(Around(a, items, r)).Some?
    requires if Target(d).Some? then a == d[..Target(d).value] else a == d
    ensures ListsOf(Around(a, items, r)).value.watch == items || ListsOf(Around(a, items, r)).value.watch == []
  {
    if NoHeader(a) {
      LoadedNames(a, items, r);
    } else {
      ListsBehindHeader(a, items, r);
      if Target(d).Some? { TargetIsFirst(d); }
      FrontHasNoKey(a);
    }
  }

  /** For names without quotes it is always clear what is loaded: the names with their
      escapes resolved, and nothing at all if a name has a control character or an escape
      that TOML does not know. */
  lemma LoadsDecoded(tpl: Template, text: string, units: seq<string>)
    requires Load(text).Some? && ListNests(text) && InRoot(Doc(text).value) && AllQuoteFree(SortedSet(units))
    ensures var names := DecodedAll(SortedSet(units));
            Load(Written(tpl, Some(text), units))
            == if names.Some? then Some(Lists(names.value, Load(text).value.exclude)) else None
  {
    hide Doc, Written, SortedSet, Fits, Target, ListsOf, InRoot, DecodedAll, AllQuoteFree, ListNests;
    var d := Doc(text).value;
    var a, t := Placed(tpl, text, d);
    WrittenReads(tpl, Some(text), units, a, t);
    var names := DecodedAll(SortedSet(units));
    if names.Some? { ListsAfter(d, a, names.value, t); }
  }

  // --- the first scan -------------------------------------------------------------------------------

  /** The exclude list of the template. */
  const DEFAULT_EXCLUDES := ["systemd-*", "user@*", "session-*"]

  /** The template: text that ends a line, the watch list, the exclude list on the next
      line, and the rest of that line and of the file. */
  function RealTemplate(before: string, rest: string): Template {
    Template(before, "\n" + (Assigned(EXCLUDE, DEFAULT_EXCLUDES) + rest))
  }

  /** Head and rest are documents; the head has no table header, and neither has the keys of
      the two lists. */
  ghost predicate ProperTemplate(before: string, rest: string, b: seq<Stmt>, t: seq<Stmt>) {
    && (before == [] || EndsNewline(before)) && Doc(before) == Some(b)
    && NextLine(rest).Some? && Doc(NextLine(rest).value) == Some(t)
    && NoHeader(b) && Distinct(b + ([Pair(KEY, Strings([]))] + ([Pair(EXCLUDE, Strings(DEFAULT_EXCLUDES))] + Root(t))))
    && Lookup(b, EXCLUDE) == None
  }

  lemma ExcludesArePlain()
    ensures AllPlain(DEFAULT_EXCLUDES) && IsKey(EXCLUDE)
  {
  }

  lemma ExcludesRead(rest: string, t: seq<Stmt>)
    requires NextLine(rest).Some? && Doc(NextLine(rest).value) == Some(t)
    ensures Doc(Assigned(EXCLUDE, DEFAULT_EXCLUDES) + rest) == Some([Pair(EXCLUDE, Strings(DEFAULT_EXCLUDES))] + t)
  {
    ExcludesArePlain();
    var e := DEFAULT_EXCLUDES;
    hide *;
    PlainDecodedAll(e);
    DocEmpty("");
    QuoteFreePut("", EXCLUDE, e, rest, [], t);
    assert "" + (Assigned(EXCLUDE, e) + rest) == Assigned(EXCLUDE, e) + rest;
    var x := [Pair(EXCLUDE, Strings(e))];
    assert [] + (x + t) == x + t;
  }

  lemma AfterNewline(s: string)
    ensures NextLine("\n" + s) == Some(s)
  {
    assert Run("\n" + s, IsBlank) == 0 && ("\n" + s)[1..] == s;
  }

  /** What a first scan creates, loaded: the names written, if they are plain, and the
      exclude list of the template. */
  lemma CreatedLoads(before: string, rest: string, b: seq<Stmt>, t: seq<Stmt>, units: seq<string>)
    requires ProperTemplate(before, rest, b, t) && AllPlain(SortedSet(units))
    ensures Load(Written(RealTemplate(before, rest), None, units)) == Some(Lists(SortedSet(units), DEFAULT_EXCLUDES))
  {
    hide Doc, Written, SortedSet, AllPlain, DecodedAll, AllQuoteFree, NextLine, Assigned, Distinct;
    var tpl, us := RealTemplate(before, rest), SortedSet(units);
    var e := [Pair(EXCLUDE, Strings(DEFAULT_EXCLUDES))] + t;
    ExcludesRead(rest, t);
    AfterNewline(Assigned(EXCLUDE, DEFAULT_EXCLUDES) + rest);
    assert Fits(tpl, None, b, e);
    PlainDecodedAll(us);
    WrittenReads(tpl, None, units, b, e);
    CreatedLists(b, t, us);
  }

  lemma CreatedLists(b: seq<Stmt>, t: seq<Stmt>, units: seq<string>)
    requires NoHeader(b) && Lookup(b, EXCLUDE) == None
    requires Distinct(b + ([Pair(KEY, Strings([]))] + ([Pair(EXCLUDE, Strings(DEFAULT_EXCLUDES))] + Root(t))))
    ensures ListsOf(Around(b, units, [Pair(EXCLUDE, Strings(DEFAULT_EXCLUDES))] + t)) == Some(Lists(units, DEFAULT_EXCLUDES))
  {
    hide Distinct;
    var x := [Pair(EXCLUDE, Strings(DEFAULT_EXCLUDES))];
    RootAround(b, units, x + t);
    RootOfFront(x, t);
    DistinctByKeys(b, Strings([]), Strings(units), KEY, x + Root(t));
    LookupsAround(b, units, x + Root(t));
    LookupOne(x[0], Root(t), EXCLUDE);
  }

  // --- scan -----------------------------------------------------------------------------------------

  /** The discovered services that the exclude list admits. */
  function Survivors(discovered: seq<string>, filter: Config): seq<string> {
    if discovered == [] then []
    else
      (if filter.UnitIsWatched(Some(discovered[0])) then [discovered[0]] else [])
      + Survivors(discovered[1..], filter)
  }

  function Discovered(listing: string): seq<string> { SortedSet(Systemctl.Listed(Systemctl.Lines(listing))) }

  /** The exclude list a scan filters with: the one of the file, if it loads, else none. */
  function ScanExcludes(file: Option<string>): seq<string> {
    if file.Some? && Load(file.value).Some? then Load(file.value).value.exclude else []
  }

  lemma {:induction false} SurvivorsAre(discovered: seq<string>, filter: Config)
    requires filter.watchUnits == []
    ensures forall u :: u in Survivors(discovered, filter) <==> u in discovered && !filter.Excludes(u)
  {
    if discovered != [] {
      SurvivorsAre(discovered[1..], filter);
      assert discovered == [discovered[0]] + discovered[1..];
    }
  }

  lemma MatchesItself(u: string)
    ensures Match(u, u)
  {
  }

  /** Under any configuration that has the survivors of a scan as its watch list, a unit is
      watched if and only if it was discovered and neither the filter of the scan nor the
      configuration excludes it. */
  lemma WatchedIff(listing: string, filter: Config, loaded: Config, u: string)
    requires filter.watchUnits == []
    requires var services := Survivors(Discovered(listing), filter);
             services != [] && loaded.watchUnits == SortedSet(services)
    ensures loaded.UnitIsWatched(Some(u))
            <==> u in Discovered(listing) && !filter.Excludes(u) && !loaded.Excludes(u)
  {
    var listed := Systemctl.Listed(Systemctl.Lines(listing));
    var services := Survivors(SortedSet(listed), filter);
    SortedSetIs(listed);
    SurvivorsAre(SortedSet(listed), filter);
    SortedSetIs(services);
    assert services[0] in loaded.watchUnits;
    AnyMatchIff(loaded.watchUnits, u);
    Systemctl.ListedNames(Systemctl.Lines(listing));
    MatchesItself(u);
    forall p | p in loaded.watchUnits ensures Match(p, u) <==> p == u {
      assert p in listed;
    }
  }

  /** A scan over an existing configuration that loads and whose brackets nest, with the
      list in the root table and plain survivors: what it leaves loads with the same
      exclude list, and a unit is then watched if and only if it was discovered and is not
      excluded. */
  lemma ScanThenWatch(tpl: Template, text: string, listing: string, filter: Config, loaded: Config, u: string)
    requires Load(text).Some? && ListNests(text) && InRoot(Doc(text).value)
    requires filter.watchUnits == [] && filter.excludeUnits == ScanExcludes(Some(text))
    requires var services := Survivors(Discovered(listing), filter);
             && services != [] && AllPlain(SortedSet(services))
             && Load(Written(tpl, Some(text), services)) == Some(Lists(loaded.watchUnits, loaded.excludeUnits))
    ensures loaded.excludeUnits == filter.excludeUnits
    ensures loaded.UnitIsWatched(Some(u)) <==> u in Discovered(listing) && !filter.Excludes(u)
  {
    hide Load, Written, SortedSet, AllPlain, Survivors, Discovered, ListNests, InRoot, Doc, AnyMatch, Config.UnitIsWatched;
    LoadsBackIff(tpl, text, Survivors(Discovered(listing), filter));
    WatchedIff(listing, filter, loaded, u);
  }

  /** What the template's patterns match. */
  lemma NoiseIs(u: string)
    ensures AnyMatch(DEFAULT_EXCLUDES, u) <==> "systemd-" <= u || "user@" <= u || "session-" <= u
  {
    hide Match;
    StarMatches("systemd-", u);
    StarMatches("user@", u);
    StarMatches("session-", u);
    assert DEFAULT_EXCLUDES[0] == "systemd-" + "*";
    assert DEFAULT_EXCLUDES[1] == "user@" + "*";
    assert DEFAULT_EXCLUDES[2] == "session-" + "*";
    AnyMatchIff(DEFAULT_EXCLUDES, u);
    var d := DEFAULT_EXCLUDES;
    assert d[0] in d && d[1] in d && d[2] in d;
    assert forall p :: p in d ==> p == d[0] || p == d[1] || p == d[2];
  }

  lemma StarMatches(q: string, u: string)
    ensures Match(q + "*", u) <==> q <= u
  {
    assert (q + "*")[..|q|] == q;
  }

  /** The first scan filters with nothing, and the file it creates excludes what the template
      does: a unit is then watched if and only if it was discovered and no pattern of the
      template matches it. Every discovered name is written to the list all the same. */
  lemma FirstScanThenWatch(before: string, rest: string, b: seq<Stmt>, t: seq<Stmt>, listing: string,
                           filter: Config, loaded: Config, u: string)
    requires ProperTemplate(before, rest, b, t)
    requires filter.watchUnits == [] && filter.excludeUnits == ScanExcludes(None)
    requires var services := Survivors(Discovered(listing), filter);
             && services != [] && AllPlain(SortedSet(services))
             && Load(Written(RealTemplate(before, rest), None, services)) == Some(Lists(loaded.watchUnits, loaded.excludeUnits))
    ensures u in loaded.watchUnits <==> u in Discovered(listing)
    ensures loaded.UnitIsWatched(Some(u))
            <==> u in Discovered(listing) && !("systemd-" <= u) && !("user@" <= u) && !("session-" <= u)
  {
    NoiseIs(u);
    var services := Survivors(Discovered(listing), filter);
    assert forall v :: !filter.Excludes(v);
    hide Load, Written, SortedSet, AllPlain, Survivors, Discovered, Doc, AnyMatch, ProperTemplate, Config.UnitIsWatched;
    CreatedLoads(before, rest, b, t, services);
    SurvivorsAre(Discovered(listing), filter);
    SortedSetIs(services);
    WatchedIff(listing, filter, loaded, u);
  }

  /** So the noise that the exclude list is meant to keep out of the list is written to it by
      the first scan, and then not watched. */
  lemma FirstScanListsNoise(before: string, rest: string, b: seq<Stmt>, t: seq<Stmt>, listing: string,
                            filter: Config, loaded: Config, suffix: string)
    requires ProperTemplate(before, rest, b, t)
    requires filter.watchUnits == [] && filter.excludeUnits == ScanExcludes(None)
    requires var services := Survivors(Discovered(listing), filter);
             && services != [] && AllPlain(SortedSet(services))
             && Load(Written(RealTemplate(before, rest), None, services)) == Some(Lists(loaded.watchUnits, loaded.excludeUnits))
    requires "systemd-" + suffix in Discovered(listing)
    ensures "systemd-" + suffix in loaded.watchUnits && !loaded.UnitIsWatched(Some("systemd-" + suffix))
  {
    hide Load, Written, SortedSet, AllPlain, Survivors, Discovered, Doc, AnyMatch, ProperTemplate, Config.UnitIsWatched, ScanExcludes;
    FirstScanThenWatch(before, rest, b, t, listing, filter, loaded, "systemd-" + suffix);
  }

  // --- names that systemd escapes -------------------------------------------------------------------

  /** A list with an escaped name makes the file unreadable: wherever it is put, and whatever
      is behind it, the configuration does not load. */
  lemma EscapedNameFails(tpl: Template, file: Option<string>, units: seq<string>, p: string, q: string)
    requires var pre := Ahead(tpl, file); (pre == [] || EndsNewline(pre)) && Doc(pre).Some?
    requires AllQuoteFree(SortedSet(units)) && Plain(p) && p + ("\\x" + q) in units
    ensures Load(Written(tpl, file, units)) == None
  {
    hide Doc, Ahead, Behind, Written, SortedSet, DecodedAll, Assigned, Format, AllQuoteFree, NextLine, IsKey, Array, Bracketed, Plain;
    var pre, post, us := Ahead(tpl, file), Behind(tpl, file), SortedSet(units);
    SortedSetIs(units);
    SystemdEscapeFails(p, q);
    OneFails(us, p + ("\\x" + q));
    QuoteFreeListReads(us, post);
    WrittenShape(tpl, file, units);
    FormatIs(us);
    KeyIsKey();
    BracketedShape(us, post);
    PutReads(pre, KEY, us, post, Doc(pre).value);
    assert pre + Format(us) + post == pre + (Assigned(KEY, us) + post);
  }

  /** So after a scan that discovered such an instance an existing file loads no more. */
  lemma EscapedNameBreaksFile(tpl: Template, text: string, units: seq<string>, p: string, q: string)
    requires Load(text).Some? && ListNests(text)
    requires AllQuoteFree(SortedSet(units)) && Plain(p) && p + ("\\x" + q) in units
    ensures Load(Written(tpl, Some(text), units)) == None
  {
    hide Doc, Written, SortedSet, AllQuoteFree, Fits, ListNests, Plain, Ahead;
    var a, t := Placed(tpl, text, Doc(text).value);
    FrontOfFits(tpl, Some(text), a, t);
    EscapedNameFails(tpl, Some(text), units, p, q);
  }

  // --- a list that lands in a table -----------------------------------------------------------------

  const TABLE := "[x]\n"

  lemma TableReads()
    ensures Doc(TABLE) == Some([Header("x")])
  {
    var s := TABLE;
    assert s[0] == '[' && s[1] == 'x' && s[2] == ']' && s[3] == '\n';
    assert s[1..][0] == 'x' && s[1..][1..][0] == ']';
    assert Run(s[1..], IsHeaderChar) == 1;
    assert s[3..] == "\n" && s[1..2] == "x";
    JustNewline();
    assert ReadStmt(s) == Some((Header("x"), []));
    assert Run(s, IsBlank) == 0 && s[0..] == s;
    DocStmt(s, Header("x"), []);
    assert [Header("x")] + [] == [Header("x")];
  }

  /** A file that has a table and no watch list gets the list appended to the table: it loads,
      but with the empty watch list it had. */
  lemma TableHidesList(tpl: Template, units: seq<string>)
    requires AllPlain(SortedSet(units))
    ensures Load(TABLE) == Some(Lists([], []))
    ensures Load(Written(tpl, Some(TABLE), units)) == Some(Lists([], []))
  {
    TableReads();
    TableLists();
    hide Doc, Written, SortedSet, AllPlain, Fits, Target, ListsOf, InRoot, DecodedAll, AllQuoteFree;
    var d := [Header("x")];
    FitsBehind(tpl, TABLE, d);
    PlainDecodedAll(SortedSet(units));
    WrittenReads(tpl, Some(TABLE), units, d, []);
    ListsAfter(d, d, SortedSet(units), []);
  }

  lemma TableLists()
    ensures var d := [Header("x")]; ListsOf(d) == Some(Lists([], [])) && Target(d) == None && !InRoot(d)
  {
    var d := [Header("x")];
    assert d[1..] == [];
    assert d[0].Header?;
  }
}

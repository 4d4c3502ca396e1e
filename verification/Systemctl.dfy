/** Reading what systemctl prints (hblog/sources/units.py, `parse_show`, `parse_list`). */
module Systemctl {
  import opened Text

  /** The properties of one unit. */
  type Props = map<string, string>

  predicate NotEquals(c: char) { c != '=' }

  predicate NotSpace(c: char) { !IsSpace(c) }

  /** The lines of a text; a final newline starts no further line. */
  function Lines(s: string): seq<string>
    decreases |s|
  {
    if s == [] then []
    else
      var n := Run(s, NotNewline);
      if n == |s| then [s] else [s[..n]] + Lines(s[n + 1..])
  }

  predicate Blank(line: string) { Run(line, IsSpace) == |line| }

  // --- parse_show ---------------------------------------------------------------------

  datatype Parse = Parse(blocks: map<string, Props>, current: Props)

  /** A finished block counts if it names its unit. */
  function Committed(blocks: map<string, Props>, current: Props): map<string, Props> {
    if "Id" in current && current["Id"] != "" then blocks[current["Id"] := current] else blocks
  }

  function Step(p: Parse, line: string): Parse {
    if Blank(line) then Parse(Committed(p.blocks, p.current), map[])
    else
      var n := Run(line, NotEquals);
      if n < |line| then p.(current := p.current[line[..n] := line[n + 1..]]) else p
  }

  function StepAll(p: Parse, lines: seq<string>): Parse
    decreases |lines|
  {
    if lines == [] then p else StepAll(Step(p, lines[0]), lines[1..])
  }

  function Parsed(output: string): map<string, Props> {
    var p := StepAll(Parse(map[], map[]), Lines(output));
    Committed(p.blocks, p.current)
  }

  method ParseShow(output: string) returns (blocks: map<string, Props>)
    ensures blocks == Parsed(output)
  {
    blocks := map[];
    var current: Props := map[];
    var lines := Lines(output);
    for i := 0 to |lines|
      invariant StepAll(Parse(map[], map[]), lines) == StepAll(Parse(blocks, current), lines[i..])
    {
      var line := lines[i];
      assert lines[i..][1..] == lines[i + 1..];
      if Blank(line) {
        blocks := Committed(blocks, current);
        current := map[];
        continue;
      }
      var n := Run(line, NotEquals);
      if n < |line| {
        current := current[line[..n] := line[n + 1..]];
      }
    }
    blocks := Committed(blocks, current);
  }

  // --- parsing inverts printing -------------------------------------------------------------

  /** A property as printed: the key without `=` or newline, the value without newline. */
  type Pair = (string, string)

  predicate WellFormed(p: Pair) {
    && Run(p.0, NotEquals) == |p.0| && Run(p.0, NotNewline) == |p.0|
    && Run(p.1, NotNewline) == |p.1|
  }

  predicate AllWellFormed(block: seq<Pair>) {
    forall i :: 0 <= i < |block| ==> WellFormed(block[i])
  }

  predicate Printable(blocks: seq<seq<Pair>>) {
    forall i :: 0 <= i < |blocks| ==> AllWellFormed(blocks[i])
  }

  function PrintPair(p: Pair): string { p.0 + "=" + p.1 }

  function PrintBlock(block: seq<Pair>): string {
    if block == [] then [] else PrintPair(block[0]) + "\n" + PrintBlock(block[1..])
  }

  /** Blocks separated by one blank line each. */
  function Print(blocks: seq<seq<Pair>>): string {
    if blocks == [] then []
    else if |blocks| == 1 then PrintBlock(blocks[0])
    else PrintBlock(blocks[0]) + "\n" + Print(blocks[1..])
  }

  /** The dictionary a block stands for; a repeated key keeps its last value. */
  function Dict(from: Props, block: seq<Pair>): Props
    decreases |block|
  {
    if block == [] then from else Dict(from[block[0].0 := block[0].1], block[1..])
  }

  /** The dictionaries by unit; a repeated unit keeps its last block. */
  function Collected(from: map<string, Props>, blocks: seq<seq<Pair>>): map<string, Props>
    decreases |blocks|
  {
    if blocks == [] then from
    else Collected(Committed(from, Dict(map[], blocks[0])), blocks[1..])
  }

  lemma LinesCons(line: string, rest: string)
    requires Run(line, NotNewline) == |line|
    ensures Lines(line + "\n" + rest) == [line] + Lines(rest)
  {
    var s := line + "\n" + rest;
    assert s == line + ("\n" + rest);
    RunAppend(line, "\n" + rest, NotNewline);
    assert Run("\n" + rest, NotNewline) == 0;
    assert s[..|line|] == line && s[|line| + 1..] == rest;
  }

  lemma PairLine(p: Parse, x: Pair)
    requires WellFormed(x)
    ensures Run(PrintPair(x), NotNewline) == |PrintPair(x)|
    ensures Step(p, PrintPair(x)) == p.(current := p.current[x.0 := x.1])
  {
    var line := PrintPair(x);
    assert line == x.0 + ("=" + x.1);
    RunAppend(x.0, "=" + x.1, NotNewline);
    assert ("=" + x.1)[1..] == x.1;
    RunAppend(x.0, "=" + x.1, NotEquals);
    assert Run("=" + x.1, NotEquals) == 0;
    assert line[..|x.0|] == x.0 && line[|x.0| + 1..] == x.1;
    assert line[|x.0|] == '=';
    RunHolds(line, IsSpace);
  }

  lemma {:induction false} BlockSteps(p: Parse, block: seq<Pair>, rest: string)
    requires AllWellFormed(block)
    ensures StepAll(p, Lines(PrintBlock(block) + rest))
            == StepAll(p.(current := Dict(p.current, block)), Lines(rest))
    decreases |block|
  {
    if block == [] {
      assert PrintBlock(block) + rest == rest;
    } else {
      var x, tail := block[0], PrintBlock(block[1..]) + rest;
      PairLine(p, x);
      assert PrintBlock(block) + rest == PrintPair(x) + "\n" + tail;
      LinesCons(PrintPair(x), tail);
      var q := p.(current := p.current[x.0 := x.1]);
      assert ([PrintPair(x)] + Lines(tail))[1..] == Lines(tail);
      BlockSteps(q, block[1..], rest);
    }
  }

  lemma {:induction false} PrintSteps(from: map<string, Props>, blocks: seq<seq<Pair>>)
    requires Printable(blocks)
    ensures var p := StepAll(Parse(from, map[]), Lines(Print(blocks)));
            Committed(p.blocks, p.current) == Collected(from, blocks)
    decreases |blocks|
  {
    if |blocks| == 1 {
      BlockSteps(Parse(from, map[]), blocks[0], "");
      assert PrintBlock(blocks[0]) + "" == PrintBlock(blocks[0]);
      assert Collected(from, blocks) == Collected(Committed(from, Dict(map[], blocks[0])), blocks[1..]);
    } else if |blocks| > 1 {
      var rest := Print(blocks[1..]);
      var d := Dict(map[], blocks[0]);
      assert Print(blocks) == PrintBlock(blocks[0]) + ("" + "\n" + rest);
      BlockSteps(Parse(from, map[]), blocks[0], "" + "\n" + rest);
      LinesCons("", rest);
      assert ([""] + Lines(rest))[1..] == Lines(rest);
      assert Step(Parse(from, d), "") == Parse(Committed(from, d), map[]);
      PrintSteps(Committed(from, d), blocks[1..]);
    }
  }

  /** Whatever well-formed blocks are printed, parsing returns their dictionaries by
      unit. Values may contain `=`; keys, values and blocks may be empty. */
  lemma ParsingInvertsPrinting(blocks: seq<seq<Pair>>)
    requires Printable(blocks)
    ensures Parsed(Print(blocks)) == Collected(map[], blocks)
  {
    PrintSteps(map[], blocks);
  }

  predicate Names(block: seq<Pair>, id: string) {
    var d := Dict(map[], block);
    "Id" in d && d["Id"] == id
  }

  /** What the dictionary of a block says: the last value printed for a key. */
  lemma {:induction false} DictIs(from: Props, block: seq<Pair>, key: string)
    ensures key in Dict(from, block) <==> key in from || exists i :: 0 <= i < |block| && block[i].0 == key
    ensures forall i :: 0 <= i < |block| && block[i].0 == key && (forall j :: i < j < |block| ==> block[j].0 != key)
                        ==> Dict(from, block)[key] == block[i].1
    ensures key in from && (forall i :: 0 <= i < |block| ==> block[i].0 != key) ==> Dict(from, block)[key] == from[key]
    decreases |block|
  {
    if block != [] {
      var rest := block[1..];
      DictIs(from[block[0].0 := block[0].1], rest, key);
      assert forall i :: 0 < i < |block| ==> block[i] == rest[i - 1];
      if block[0].0 == key && forall j :: 0 < j < |block| ==> block[j].0 != key {
        assert forall i :: 0 <= i < |rest| ==> rest[i] == block[i + 1];
      }
    }
  }

  /** Exactly the units that some block names are there. */
  lemma ParsedUnits(blocks: seq<seq<Pair>>, id: string)
    requires Printable(blocks)
    ensures id in Parsed(Print(blocks)) <==> id != "" && exists k :: 0 <= k < |blocks| && Names(blocks[k], id)
  {
    ParsingInvertsPrinting(blocks);
    UnitsCollected(map[], blocks, id);
  }

  lemma {:induction false} UnitsCollected(from: map<string, Props>, blocks: seq<seq<Pair>>, id: string)
    ensures id in Collected(from, blocks)
            <==> id in from || (id != "" && exists k :: 0 <= k < |blocks| && Names(blocks[k], id))
    decreases |blocks|
  {
    if blocks != [] {
      UnitsCollected(Committed(from, Dict(map[], blocks[0])), blocks[1..], id);
      assert forall k :: 0 < k < |blocks| ==> blocks[k] == blocks[1..][k - 1];
      assert id in Committed(from, Dict(map[], blocks[0])) <==> id in from || (id != "" && Names(blocks[0], id));
    }
  }

  lemma {:induction false} OthersKeep(from: map<string, Props>, blocks: seq<seq<Pair>>, id: string)
    requires forall i :: 0 <= i < |blocks| ==> !Names(blocks[i], id)
    ensures (id in Collected(from, blocks) <==> id in from)
    ensures id in from ==> Collected(from, blocks)[id] == from[id]
    decreases |blocks|
  {
    if blocks != [] {
      assert !Names(blocks[0], id);
      OthersKeep(Committed(from, Dict(map[], blocks[0])), blocks[1..], id);
    }
  }

  lemma {:induction false} LastOfMany(from: map<string, Props>, blocks: seq<seq<Pair>>, k: nat, id: string)
    requires k < |blocks| && Names(blocks[k], id) && id != ""
    requires forall i :: k < i < |blocks| ==> !Names(blocks[i], id)
    ensures id in Collected(from, blocks) && Collected(from, blocks)[id] == Dict(map[], blocks[k])
    decreases k
  {
    if k == 0 {
      OthersKeep(Committed(from, Dict(map[], blocks[0])), blocks[1..], id);
    } else {
      LastOfMany(Committed(from, Dict(map[], blocks[0])), blocks[1..], k - 1, id);
    }
  }

  /** Of several blocks for one unit the last one wins. */
  lemma LastBlockWins(blocks: seq<seq<Pair>>, k: nat, id: string)
    requires Printable(blocks)
    requires k < |blocks| && Names(blocks[k], id) && id != ""
    requires forall i :: k < i < |blocks| ==> !Names(blocks[i], id)
    ensures id in Parsed(Print(blocks)) && Parsed(Print(blocks))[id] == Dict(map[], blocks[k])
  {
    ParsingInvertsPrinting(blocks);
    LastOfMany(map[], blocks, k, id);
  }

  // --- parse_list -----------------------------------------------------------------------

  const SERVICE := ".service"

  predicate EndsWith(s: string, suffix: string) {
    |suffix| <= |s| && s[|s| - |suffix|..] == suffix
  }

  function FirstWord(line: string): string {
    var t := LStrip(line);
    t[..Run(t, NotSpace)]
  }

  /** The services named in the first column of a listing. */
  function Listed(lines: seq<string>): seq<string> {
    if lines == [] then []
    else
      Listed(lines[..|lines| - 1])
      + (var w := FirstWord(lines[|lines| - 1]); if EndsWith(w, SERVICE) then [w] else [])
  }

  method ParseList(output: string) returns (units: seq<string>)
    ensures units == Listed(Lines(output))
  {
    units := [];
    var lines := Lines(output);
    for i := 0 to |lines|
      invariant units == Listed(lines[..i])
    {
      var w := FirstWord(lines[i]);
      if EndsWith(w, SERVICE) {
        units := units + [w];
      }
      assert lines[..i + 1][..i] == lines[..i];
    }
    assert lines[..|lines|] == lines;
  }

  /** A listed unit is a service name without blanks; in particular it is no pattern. */
  lemma {:induction false} ListedNames(lines: seq<string>)
    ensures forall u :: u in Listed(lines) ==>
              EndsWith(u, SERVICE) && (forall i :: 0 <= i < |u| ==> !IsSpace(u[i])) && u[|u| - 1] != '*'
  {
    if lines != [] {
      ListedNames(lines[..|lines| - 1]);
      var t := LStrip(lines[|lines| - 1]);
      RunHolds(t, NotSpace);
      var w := FirstWord(lines[|lines| - 1]);
      if EndsWith(w, SERVICE) {
        assert w[|w| - 8..][7] == w[|w| - 1];
      }
    }
  }

  /** The first column of the line, behind `margin` and before `rest`, is `u`. */
  predicate FirstColumn(line: string, margin: string, u: string, rest: string) {
    && line == margin + u + rest && (rest == [] || IsSpace(rest[0]))
    && (forall i :: 0 <= i < |margin| ==> IsSpace(margin[i]))
    && (forall i :: 0 <= i < |u| ==> !IsSpace(u[i]))
  }

  ghost predicate NamesService(line: string, u: string) {
    (exists stem :: u == stem + ".service") && exists margin, rest :: FirstColumn(line, margin, u, rest)
  }

  lemma FirstWordIs(line: string, margin: string, u: string, rest: string)
    requires FirstColumn(line, margin, u, rest) && u != []
    ensures FirstWord(line) == u
  {
    assert line == margin + (u + rest);
    RunFull(margin, IsSpace);
    RunAppend(margin, u + rest, IsSpace);
    assert line[|margin|..] == u + rest;
    RunFull(u, NotSpace);
    RunAppend(u, rest, NotSpace);
  }

  lemma EndsWithIff(u: string)
    ensures EndsWith(u, SERVICE) <==> exists stem :: u == stem + ".service"
  {
    if EndsWith(u, SERVICE) { assert u == u[..|u| - 8] + ".service"; }
  }

  lemma FirstWordNames(line: string)
    requires EndsWith(FirstWord(line), SERVICE)
    ensures NamesService(line, FirstWord(line))
  {
    var n, t, w := Run(line, IsSpace), LStrip(line), FirstWord(line);
    EndsWithIff(w);
    RunHolds(line, IsSpace);
    RunHolds(t, NotSpace);
    hide EndsWith;
    assert t == w + t[|w|..];
    assert FirstColumn(line, line[..n], w, t[|w|..]);
  }

  lemma ServiceIsFirstWord(line: string, u: string)
    requires NamesService(line, u)
    ensures FirstWord(line) == u && EndsWith(u, SERVICE)
  {
    EndsWithIff(u);
    var margin, rest :| FirstColumn(line, margin, u, rest);
    FirstWordIs(line, margin, u, rest);
  }

  lemma ListedOne(line: string)
    ensures Listed([line]) == if EndsWith(FirstWord(line), SERVICE) then [FirstWord(line)] else []
  {
    assert [line][..0] == [];
  }

  /** A line yields the service that its first column names, if it names one. */
  lemma LineLists(line: string, u: string)
    ensures Listed([line]) == [u] <==> NamesService(line, u)
    ensures u in Listed([line]) <==> NamesService(line, u)
    ensures |Listed([line])| <= 1
  {
    hide NamesService, EndsWith, FirstWord, Listed;
    ListedOne(line);
    if EndsWith(FirstWord(line), SERVICE) { FirstWordNames(line); }
    if NamesService(line, u) { ServiceIsFirstWord(line, u); }
  }

  /** A listing yields what its lines yield, in their order. */
  lemma {:induction false} ListedAppends(a: seq<string>, b: seq<string>)
    ensures Listed(a + b) == Listed(a) + Listed(b)
    decreases |b|
  {
    if b == [] {
      assert a + b == a;
    } else {
      assert (a + b)[..|a + b| - 1] == a + b[..|b| - 1];
      ListedAppends(a, b[..|b| - 1]);
    }
  }

  /** Exactly the services that some line names are listed. */
  lemma {:induction false} ListedIff(lines: seq<string>, u: string)
    ensures u in Listed(lines) <==> exists k :: 0 <= k < |lines| && NamesService(lines[k], u)
    decreases |lines|
  {
    if lines != [] {
      hide NamesService, Listed;
      var n := |lines| - 1;
      ListedIff(lines[..n], u);
      LineLists(lines[n], u);
      ListedAppends(lines[..n], [lines[n]]);
      assert lines == lines[..n] + [lines[n]];
    } else {
      NothingListed();
    }
  }

  lemma NothingListed()
    ensures Listed([]) == []
  {
  }
}

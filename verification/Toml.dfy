/** A reader for the part of TOML v1.0.0 that the configuration file uses: comments, table
    headers, and keys with basic strings, arrays of basic strings, or bare values, as in the
    sections "Comment", "Key/Value Pair", "String", "Array" and "Table". It fails on
    everything else: quoted and dotted keys, literal and multi-line strings, other arrays,
    inline tables. */
module Toml {
  import opened Model
  import opened Text

  /** Characters that may not stand in a basic string or a comment: all controls but the
      tab. */
  predicate IsControl(c: char) { (c as int < 32 && c != '\t') || c as int == 127 }

  predicate NotControl(c: char) { !IsControl(c) }

  function HexDigit(c: char): nat
    requires IsHex(c)
  {
    if IsDigit(c) then c as int - '0' as int
    else if 'a' <= c <= 'f' then c as int - 'a' as int + 10
    else c as int - 'A' as int + 10
  }

  function HexNumber(s: string): nat
    requires AllHex(s)
  {
    if s == [] then 0 else 16 * HexNumber(s[..|s| - 1]) + HexDigit(s[|s| - 1])
  }

  /** The Unicode scalar value with a number, if there is one. */
  function Scalar(n: nat): Option<char> {
    if n < 0xD800 || 0xE000 <= n < 0x11_0000 then Some(n as char) else None
  }

  /** An escape sequence without its backslash: the character it stands for and its
      length. */
  function Escape(s: string): (r: Option<(char, nat)>)
    ensures r.Some? ==> 1 <= r.value.1 <= |s|
  {
    if s == [] then None
    else if s[0] == 'b' then Some((8 as char, 1))
    else if s[0] == 't' then Some(('\t', 1))
    else if s[0] == 'n' then Some(('\n', 1))
    else if s[0] == 'f' then Some((12 as char, 1))
    else if s[0] == 'r' then Some(('\r', 1))
    else if s[0] == '"' then Some(('"', 1))
    else if s[0] == '\\' then Some(('\\', 1))
    else if s[0] == 'u' then CodePoint(s, 4)
    else if s[0] == 'U' then CodePoint(s, 8)
    else None
  }

  function CodePoint(s: string, n: nat): (r: Option<(char, nat)>)
    requires s != []
    ensures r.Some? ==> r.value.1 == n + 1 <= |s| && AllHex(s[1..n + 1])
  {
    if n + 1 <= |s| && AllHex(s[1..n + 1]) then
      match Scalar(HexNumber(s[1..n + 1]))
      case Some(c) => Some((c, n + 1))
      case None => None
    else None
  }

  /** A basic string without its opening quote: its value and what follows it. */
  function BasicString(s: string): (r: Option<(string, string)>)
    ensures r.Some? ==> |r.value.1| < |s|
    decreases |s|
  {
    if s == [] || IsControl(s[0]) then None
    else if s[0] == '"' then Some(([], s[1..]))
    else if s[0] == '\\' then
      match Escape(s[1..])
      case None => None
      case Some((c, n)) => Prepend(c, BasicString(s[1 + n..]))
    else Prepend(s[0], BasicString(s[1..]))
  }

  function Prepend(c: char, r: Option<(string, string)>): Option<(string, string)> {
    if r.Some? then Some(([c] + r.value.0, r.value.1)) else None
  }

  // --- values ---------------------------------------------------------------------------------

  /** The items of an array of strings and what follows the array, read from behind its
      opening bracket, or from behind an item (`sep`: a comma must come before the next). */
  function Array(sep: bool, s: string): (r: Option<(seq<string>, string)>)
    ensures r.Some? ==> |r.value.1| < |s|
    decreases |s|
  {
    if s == [] then None
    else if IsBlank(s[0]) || s[0] == '\n' then Array(sep, s[1..])
    else if s[0] == '#' then Array(sep, s[Run(s, NotControl)..])
    else if s[0] == ']' then Some(([], s[1..]))
    else if s[0] == ',' && sep then Array(false, s[1..])
    else if s[0] == '"' && !sep then
      match BasicString(s[1..])
      case None => None
      case Some((item, rest)) => Cons(item, Array(true, rest))
    else None
  }

  function Cons(item: string, r: Option<(seq<string>, string)>): Option<(seq<string>, string)> {
    if r.Some? then Some(([item] + r.value.0, r.value.1)) else None
  }

  datatype Value = Strings(items: seq<string>) | Basic(text: string) | Bare(token: string)

  /** Numbers, booleans and dates are not told apart. */
  predicate IsBareChar(c: char) { IsWord(c) || c == '-' || c == '+' || c == '.' || c == ':' }

  function ReadValue(s: string): (r: Option<(Value, string)>)
    ensures r.Some? ==> |r.value.1| < |s|
  {
    if s == [] then None
    else if s[0] == '[' then
      match Array(false, s[1..])
      case None => None
      case Some((items, rest)) => Some((Strings(items), rest))
    else if s[0] == '"' then
      match BasicString(s[1..])
      case None => None
      case Some((text, rest)) => Some((Basic(text), rest))
    else
      var n := Run(s, IsBareChar);
      if n > 0 then Some((Bare(s[..n]), s[n..])) else None
  }

  // --- documents --------------------------------------------------------------------------------

  datatype Stmt = Header(name: string) | Pair(key: string, value: Value)

  predicate IsKeyChar(c: char) { IsWord(c) || c == '-' }

  predicate IsHeaderChar(c: char) { IsKeyChar(c) || c == '.' }

  function SkipBlanks(s: string): (r: string)
    ensures |r| <= |s|
  {
    s[Run(s, IsBlank)..]
  }

  /** What follows blanks and a comment. */
  function SkipComment(s: string): (r: string)
    ensures |r| <= |s|
  {
    var u := SkipBlanks(s);
    if u != [] && u[0] == '#' then u[Run(u, NotControl)..] else u
  }

  /** The next line, if nothing but blanks and a comment is left of this one. */
  function NextLine(s: string): (r: Option<string>)
    ensures r.Some? && s != [] ==> |r.value| < |s|
  {
    var v := SkipComment(s);
    if v == [] then Some([]) else if v[0] == '\n' then Some(v[1..]) else None
  }

  function ReadHeader(s: string): (r: Option<(Stmt, string)>)
    requires s != []
    ensures r.Some? ==> |r.value.1| < |s|
  {
    var n := Run(s[1..], IsHeaderChar);
    if n > 0 && 1 + n < |s| && s[1 + n] == ']' then
      match NextLine(s[n + 2..])
      case None => None
      case Some(rest) => Some((Header(s[1..1 + n]), rest))
    else None
  }

  /** A key, and the text behind its equals sign. */
  function ReadKey(s: string): (r: Option<(string, string)>)
    ensures r.Some? ==> |r.value.1| < |s|
  {
    var n := Run(s, IsKeyChar);
    var v := SkipBlanks(s[n..]);
    if n > 0 && v != [] && v[0] == '=' then Some((s[..n], SkipBlanks(v[1..]))) else None
  }

  function ReadPair(s: string): (r: Option<(Stmt, string)>)
    ensures r.Some? ==> |r.value.1| < |s|
  {
    match ReadKey(s)
    case None => None
    case Some((key, w)) =>
      match ReadValue(w)
      case None => None
      case Some((value, after)) =>
        match NextLine(after)
        case None => None
        case Some(rest) => Some((Pair(key, value), rest))
  }

  /** A statement from its first character on, and the next line. */
  function ReadStmt(s: string): (r: Option<(Stmt, string)>)
    ensures r.Some? ==> |r.value.1| < |s|
  {
    if s == [] then None else if s[0] == '[' then ReadHeader(s) else ReadPair(s)
  }

  /** The statements of a text, from the beginning of a line on. */
  function Doc(s: string): Option<seq<Stmt>>
    decreases |s|
  {
    if s == [] then Some([])
    else
      match NextLine(s)
      case Some(rest) => Doc(rest)
      case None =>
        match ReadStmt(SkipBlanks(s))
        case None => None
        case Some((stmt, rest)) => Joined([stmt], Doc(rest))
  }

  function Joined(d: seq<Stmt>, e: Option<seq<Stmt>>): Option<seq<Stmt>> {
    if e.Some? then Some(d + e.value) else None
  }

  // --- the root table -----------------------------------------------------------------------------

  /** The statements before the first table header. */
  function Root(d: seq<Stmt>): seq<Stmt> {
    if d == [] || d[0].Header? then [] else [d[0]] + Root(d[1..])
  }

  function Lookup(d: seq<Stmt>, key: string): Option<Value> {
    if d == [] then None
    else if d[0].Pair? && d[0].key == key then Some(d[0].value)
    else Lookup(d[1..], key)
  }

  /** No key is given twice. */
  predicate Distinct(d: seq<Stmt>) {
    d != [] ==> (d[0].Pair? ==> Lookup(d[1..], d[0].key) == None) && Distinct(d[1..])
  }
}

/** Problem detection and in-place classification (hblog/classify.py). The regular
    expressions are written out as matchers on lower-cased text. */
module Classify {
  import opened Model
  import opened Text
  import Signature

  // --- the patterns ---------------------------------------------------------------

  const MAIN_EXIT := "main process exited"
  const FAILED_RESULT := "failed with result '"
  const KILLED := "killed process "

  predicate IsOom(l: string) {
    || Contains(l, "out of memory")
    || Contains(l, "oom-kill")
    || exists i :: 0 <= i <= |l| && At(l, i, KILLED) && i + |KILLED| < |l| && IsDigit(l[i + |KILLED|])
  }

  predicate IsSegfault(l: string) {
    Contains(l, "segfault at") || Contains(l, "general protection fault")
  }

  /** A regular expression match with two groups. */
  datatype Exit = Exit(code: string, status: string)

  predicate CodeAt(l: string, c: nat) {
    At(l, c, "code=") && c + 5 < |l| && IsWord(l[c + 5])
  }

  predicate IsStatusChar(c: char) { IsWord(c) || c == '/' }

  predicate StatusAt(l: string, p: nat) {
    At(l, p, "status=") && p + 7 < |l| && IsStatusChar(l[p + 7])
  }

  /** The rightmost status= in [lo, hi]: the second `.*` is greedy. */
  function LastStatus(l: string, lo: nat, hi: nat): Option<nat>
    decreases hi
  {
    if hi < lo then None
    else if StatusAt(l, hi) then Some(hi)
    else if hi == 0 then None
    else LastStatus(l, lo, hi - 1)
  }

  /** The longest code word of at most `w` characters behind `from` that still leaves a
      status= before `end`, with the position of that status=. */
  function CodeWord(l: string, from: nat, w: nat, end: nat): Option<(nat, nat)>
    decreases w
  {
    if w == 0 then None
    else
      match LastStatus(l, from + w, end)
      case Some(p) => Some((w, p))
      case None => CodeWord(l, from, w - 1, end)
  }

  /** The rightmost code= in [lo, c] from which the rest of the pattern matches: the
      first `.*` is greedy. */
  function LastCode(l: string, lo: nat, c: nat, end: nat): Option<Exit>
    decreases c
  {
    if c < lo then None
    else
      var found :=
        if CodeAt(l, c) then CodeWord(l, c + 5, Run(l[c + 5..], IsWord), end) else None;
      if found.Some? && c + 5 + found.value.0 <= |l| && found.value.1 + 7 <= |l| then
        var (w, p) := found.value;
        Some(Exit(l[c + 5..c + 5 + w], l[p + 7..p + 7 + Run(l[p + 7..], IsStatusChar)]))
      else if c == 0 then None
      else LastCode(l, lo, c - 1, end)
  }

  /** main process exited.*code=(\w+).*status=([\w/]+), searched from `i` on. */
  function MainExitFrom(l: string, i: nat): (r: Option<Exit>)
    ensures r.Some? ==> Contains(l, MAIN_EXIT)
    decreases |l| - i
  {
    if i >= |l| then None
    else if At(l, i, MAIN_EXIT) then
      var from := i + |MAIN_EXIT|;
      var end := from + Run(l[from..], NotNewline);
      var m := LastCode(l, from, end, end);
      if m.Some? then m else MainExitFrom(l, i + 1)
    else MainExitFrom(l, i + 1)
  }

  predicate IsResultChar(c: char) { IsWord(c) || c == '-' }

  /** failed with result '([\w-]+)', searched from `i` on. */
  function FailedResultFrom(l: string, i: nat): (r: Option<string>)
    ensures r.Some? ==> Contains(l, FAILED_RESULT)
    decreases |l| - i
  {
    if i >= |l| then None
    else if At(l, i, FAILED_RESULT) then
      var from := i + |FAILED_RESULT|;
      var n := Run(l[from..], IsResultChar);
      if n > 0 && from + n < |l| && l[from + n] == '\'' then Some(l[from..from + n])
      else FailedResultFrom(l, i + 1)
    else FailedResultFrom(l, i + 1)
  }

  function BeforeSlash(status: string): string {
    status[..Run(status, c => c != '/')]
  }

  const SIGNALS: map<string, int> := map[
    "sighup" := 1, "sigint" := 2, "sigquit" := 3, "sigill" := 4, "sigabrt" := 6,
    "sigbus" := 7, "sigfpe" := 8, "sigkill" := 9, "sigsegv" := 11, "sigpipe" := 13,
    "sigterm" := 15]

  function ToSignal(token: string): Option<int> {
    if token == [] then None
    else if AllDigits(token) then Some(DigitsValue(token))
    else if token in SIGNALS then Some(SIGNALS[token])
    else None
  }

  // --- detection ------------------------------------------------------------------

  /** The event with kind, exit code and signal as its message and priority imply. */
  function Detected(ev: Event, errorPriority: int): Event {
    var l := Lower(ev.message);
    if IsOom(l) then ev.(kind := Some(Oom))
    else if IsSegfault(l) then ev.(kind := Some(Crash), signal := Some(11))
    else
      match MainExitFrom(l, 0)
      case Some(m) =>
        var status := BeforeSlash(m.status);
        if m.code == "exited" then
          var code := ParseInt(status);
          ev.(exitCode := code, kind := if code == Some(0) then None else Some(Crash))
        else ev.(signal := ToSignal(status), kind := Some(Crash))
      case None =>
        match FailedResultFrom(l, 0)
        case Some(result) => ev.(kind := Some(if result == "oom-kill" then Oom else Crash))
        case None =>
          if Contains(l, "entered failed state") then ev.(kind := Some(Failed))
          else if ev.priority <= errorPriority then ev.(kind := Some(Error))
          else ev
  }

  /** Classification: a kind set by the source wins; a problem gets a signature unless
      it brought one. */
  function Classified(ev: Event, errorPriority: int): Event {
    var d := if ev.kind.None? then Detected(ev, errorPriority) else ev;
    if d.kind.Some? && d.signature.None? then
      d.(signature := Some(Signature.SignatureOf(d.kind.value, d.exitCode, d.signal, d.message)))
    else d
  }

  /** The mutable event object that sources hand over and `classify` updates. */
  class EventObject {
    const raw: Event
    var kind: Option<Kind>
    var exitCode: Option<int>
    var signal: Option<int>
    var signature: Option<string>

    constructor (ev: Event)
      ensures Value() == ev
    {
      raw := ev;
      kind, exitCode, signal, signature := ev.kind, ev.exitCode, ev.signal, ev.signature;
    }

    /** The object's present value. */
    function Value(): Event
      reads this
    {
      raw.(kind := kind, exitCode := exitCode, signal := signal, signature := signature)
    }
  }

  method Classify(ev: EventObject, errorPriority: int)
    modifies ev
    ensures ev.Value() == Classified(old(ev.Value()), errorPriority)
  {
    if ev.kind == None {
      Detect(ev, ev.raw.message, errorPriority);
    }
    if ev.kind.Some? && ev.signature == None {
      ev.signature := Some(Signature.SignatureOf(ev.kind.value, ev.exitCode, ev.signal, ev.raw.message));
    }
  }

  method Detect(ev: EventObject, msg: string, errorPriority: int)
    requires ev.kind == None && msg == ev.raw.message
    modifies ev
    ensures ev.Value() == Detected(old(ev.Value()), errorPriority)
  {
    var l := Lower(msg);
    if IsOom(l) {
      ev.kind := Some(Oom);
      return;
    }
    if IsSegfault(l) {
      ev.kind := Some(Crash);
      ev.signal := Some(11);
      return;
    }
    var m := MainExitFrom(l, 0);
    if m.Some? {
      var status := BeforeSlash(m.value.status);
      if m.value.code == "exited" {
        ev.exitCode := ParseInt(status);
        if ev.exitCode == Some(0) {
          ev.kind := None;
          return;
        }
        ev.kind := Some(Crash);
      } else {
        ev.signal := ToSignal(status);
        ev.kind := Some(Crash);
      }
      return;
    }
    var r := FailedResultFrom(l, 0);
    if r.Some? {
      ev.kind := Some(if r.value == "oom-kill" then Oom else Crash);
      return;
    }
    if Contains(l, "entered failed state") {
      ev.kind := Some(Failed);
      return;
    }
    if ev.raw.priority <= errorPriority {
      ev.kind := Some(Error);
    }
  }

  /** Classifying a classified event changes nothing, so an event that is read twice
      from the journal gets the same incident key both times. */
  lemma ClassifiedIdempotent(ev: Event, errorPriority: int)
    ensures Classified(Classified(ev, errorPriority), errorPriority) == Classified(ev, errorPriority)
  {
    var d := Detected(ev, errorPriority);
    if ev.kind.None? && d.kind.None? {
      assert Detected(d, errorPriority) == d;
    }
  }

  // --- recovery markers -----------------------------------------------------------

  const RECOVERED := ": recovered (active)"

  /** The event the unit monitor emits when a failed unit is active again. */
  function RecoveryMarker(unit: string, now: real): Event {
    Event(now, unit + RECOVERED, PRIORITY_NOTICE, Some(unit), "units",
          None, None, None, None, true, None)
  }

  predicate NoBlank(s: string) { forall i :: 0 <= i < |s| ==> !IsSpace(s[i]) }

  lemma AtChars(s: string, p: string)
    ensures forall i: nat, k {:trigger At(s, i, p), p[k]} :: At(s, i, p) && 0 <= k < |p| ==> s[i + k] == p[k]
  {
    forall i: nat, k | At(s, i, p) && 0 <= k < |p| ensures s[i + k] == p[k] {
      assert s[i..i + |p|][k] == p[k];
    }
  }

  /** A marker's text has two blanks, so a pattern with a blank cannot occur in it
      unless the characters around that blank fit one of them. */
  lemma NoPatternWithBlank(unit: string, p: string, k: nat)
    requires NoBlank(unit)
    requires 0 < k < |p| - 1 && p[k] == ' '
    requires p[k - 1] == ':' ==> p[k + 1] != 'r'
    requires p[k - 1] == 'd' ==> p[k + 1] != '('
    ensures !Contains(unit + RECOVERED, p)
  {
    var s := unit + RECOVERED;
    AtChars(s, p);
    assert forall j :: 0 <= j < |unit| ==> s[j] == unit[j];
    assert forall j :: 0 <= j < 20 ==> s[|unit| + j] == RECOVERED[j];
    assert s[|unit|] == ':' && s[|unit| + 2] == 'r' && s[|unit| + 10] == 'd' && s[|unit| + 12] == '(';
    assert forall j :: 0 <= j < |s| && s[j] == ' ' ==> j == |unit| + 1 || j == |unit| + 11;
  }

  lemma OomKillInUnit(unit: string)
    ensures Contains(unit + RECOVERED, "oom-kill") <==> Contains(unit, "oom-kill")
  {
    var s, p := unit + RECOVERED, "oom-kill";
    AtChars(s, p);
    assert s[|unit|] == ':';
    assert forall k :: 0 <= k < |p| ==> p[k] != ':';
    assert forall j :: |unit| <= j < |s| ==> s[j] == RECOVERED[j - |unit|] && s[j] != '-';
    assert p[3] == '-' && p[0] == 'o';
    assert forall i: nat :: At(s, i, p) ==> i + |p| <= |unit|;
    forall i: nat ensures At(s, i, p) <==> At(unit, i, p) {
      if i + |p| <= |unit| {
        assert s[i..i + |p|] == unit[i..i + |p|];
      }
    }
    if Contains(unit, p) {
      var i :| 0 <= i <= |unit| && At(unit, i, p);
      assert At(s, i, p);
    }
    if Contains(s, p) {
      var i :| 0 <= i <= |s| && At(s, i, p);
      assert At(unit, i, p);
    }
  }

  /** A recovery marker is meant to be informational. It is, unless the threshold for
      errors admits notices or the name of the unit contains "oom-kill". */
  lemma MarkerIsProblemIff(unit: string, now: real, errorPriority: int)
    requires NoBlank(unit)
    ensures Classified(RecoveryMarker(unit, now), errorPriority).IsProblem()
            <==> Contains(Lower(unit), "oom-kill") || errorPriority >= 5
    ensures Contains(Lower(unit), "oom-kill")
            ==> Classified(RecoveryMarker(unit, now), errorPriority).kind == Some(Oom)
  {
    var u := Lower(unit);
    var l := Lower(unit + RECOVERED);
    assert l == u + RECOVERED;
    assert NoBlank(u);
    NoPatternWithBlank(u, "out of memory", 3);
    NoPatternWithBlank(u, KILLED, 6);
    NoPatternWithBlank(u, "segfault at", 8);
    NoPatternWithBlank(u, "general protection fault", 7);
    NoPatternWithBlank(u, MAIN_EXIT, 4);
    NoPatternWithBlank(u, FAILED_RESULT, 6);
    NoPatternWithBlank(u, "entered failed state", 7);
    OomKillInUnit(u);
  }

  /** The corner is reachable: this unit's recovery raises a new problem. */
  lemma MarkerCanBeProblem(now: real)
    ensures Classified(RecoveryMarker("oom-killer.service", now), 3).IsProblem()
  {
    var u := "oom-killer.service";
    assert Lower(u) == u;
    assert At(u, 0, "oom-kill") by { assert u[0..8] == "oom-kill"; }
    assert NoBlank(u);
    MarkerIsProblemIff(u, now, PRIORITY_ERR);
  }
}

/** The values that flow through the logger: events, their kinds, the configuration
    and the unit filter (hblog/models.py, hblog/config.py). */
module Model {

  datatype Option<+T> = None | Some(value: T) {
    function GetOr(default: T): T {
      if Some? then value else default
    }
  }

  /** A journal position. The journal's opaque cursor strings are modelled by the
      index of the entry they name, so cursors of distinct entries differ. */
  type Cursor = nat

  datatype Kind = Error | Crash | Oom | Failed | RestartLoop

  function KindName(k: Kind): string {
    match k
    case Error => "error"
    case Crash => "crash"
    case Oom => "oom"
    case Failed => "failed"
    case RestartLoop => "restart_loop"
  }

  /** The reader's queue holds so many events. */
  const QUEUE_SIZE := 10000

  const PRIORITY_ERR := 3
  const PRIORITY_NOTICE := 5

  /** An event. The keys of the source's `extra` dictionary that the daemon looks at
      (cursor, recovery, signature) are fields of their own. */
  datatype Event = Event(
    ts: real,
    message: string,
    priority: int,
    unit: Option<string>,
    source: string,
    kind: Option<Kind>,
    exitCode: Option<int>,
    signal: Option<int>,
    cursor: Option<Cursor>,
    recovery: bool,
    signature: Option<string>)
  {
    predicate IsProblem() {
      kind.Some?
    }
  }

  datatype Config = Config(
    watchUnits: seq<string>,
    excludeUnits: seq<string>,
    pollInterval: real,
    batchSize: int,
    flushInterval: real,
    errorPriority: int,
    restartLoopThreshold: int,
    restartLoopWindow: real,
    retentionDays: real,
    incidentRetentionDays: real,
    maxDbMb: real,
    maintenanceInterval: real)
  {
    /** What `Config.validate` insists on. */
    predicate Valid() {
      && batchSize >= 1
      && 0 <= errorPriority <= 7
      && retentionDays > 0.0 && maxDbMb > 0.0
      && pollInterval > 0.0 && flushInterval > 0.0
    }

    predicate Excludes(unit: string) {
      AnyMatch(excludeUnits, unit)
    }

    /** Events without a unit always pass; exclusions win over the watch list; an empty
        watch list watches everything. */
    predicate UnitIsWatched(unit: Option<string>) {
      unit.Some? ==>
        && !Excludes(unit.value)
        && (watchUnits == [] || AnyMatch(watchUnits, unit.value))
    }
  }

  /** A pattern ending in '*' matches by prefix, any other by equality. */
  predicate Match(pattern: string, unit: string) {
    if |pattern| > 0 && pattern[|pattern| - 1] == '*' then
      pattern[..|pattern| - 1] <= unit
    else
      pattern == unit
  }

  predicate AnyMatch(patterns: seq<string>, unit: string) {
    patterns != [] && (Match(patterns[0], unit) || AnyMatch(patterns[1..], unit))
  }

  lemma {:induction false} AnyMatchIff(patterns: seq<string>, unit: string)
    ensures AnyMatch(patterns, unit) <==> exists p :: p in patterns && Match(p, unit)
  {
    if patterns != [] {
      AnyMatchIff(patterns[1..], unit);
      assert patterns == [patterns[0]] + patterns[1..];
    }
  }

  /** Unit `u` is covered by a pattern: it is the pattern, which does not end in '*', or it
      starts with what stands before the pattern's final '*'. */
  ghost predicate Covers(pattern: string, u: string) {
    || (pattern == u && forall q :: pattern != q + "*")
    || exists q :: pattern == q + "*" && q <= u
  }

  lemma MatchIff(pattern: string, u: string)
    ensures Match(pattern, u) <==> Covers(pattern, u)
  {
    if pattern != [] && pattern[|pattern| - 1] == '*' {
      assert pattern == pattern[..|pattern| - 1] + "*";
      forall q | pattern == q + "*" ensures q == pattern[..|pattern| - 1] { }
    }
  }

  ghost predicate AnyCovers(patterns: seq<string>, u: string) {
    exists p :: p in patterns && Covers(p, u)
  }

  /** What the configuration asks for: everything without a unit, and a unit that no exclude
      pattern covers, if the watch list is empty or covers it. */
  ghost predicate Wanted(cfg: Config, unit: Option<string>) {
    match unit
    case None => true
    case Some(u) =>
      !AnyCovers(cfg.excludeUnits, u) && (cfg.watchUnits == [] || AnyCovers(cfg.watchUnits, u))
  }

  /** The filter lets through exactly what is asked for. */
  lemma WatchedIsWanted(cfg: Config, unit: Option<string>)
    ensures cfg.UnitIsWatched(unit) <==> Wanted(cfg, unit)
  {
    if unit.Some? {
      AnyMatchCovers(cfg.excludeUnits, unit.value);
      AnyMatchCovers(cfg.watchUnits, unit.value);
    }
  }

  lemma AnyMatchCovers(patterns: seq<string>, u: string)
    ensures AnyMatch(patterns, u) <==> AnyCovers(patterns, u)
  {
    AnyMatchIff(patterns, u);
    forall p | p in patterns ensures Match(p, u) <==> Covers(p, u) { MatchIff(p, u); }
  }
}

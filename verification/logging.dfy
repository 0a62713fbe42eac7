/**
  The log manager and loggers of src/lib/logging.ts. The manager's options are a value, a
  logger is its moduleName name and threshold, and emitting an entry is returning it; the event
  emitter, the console transport and the stack-trace location are outside the model.
*/
module Logging {
  import opened Wrappers
  import opened Text

  /**
    `LogOptions.minLevels`: the moduleName-prefix keys with their level names, in the order
    `for ... in` enumerates them.
  */
  datatype LogOptions = LogOptions(minLevels: seq<(string, string)>)

  /** The manager: its options, whether the console listener is registered, and how many listeners it has. */
  datatype LogManager = LogManager(options: LogOptions, consoleLoggerRegistered: bool, listeners: nat)

  /** A fresh manager: every moduleName at `info`, no listener. */
  const Initial := LogManager(LogOptions([("", "info")]), false, 0)

  /** `configure`: the shallow merge `Object.assign({}, options, newOptions)`; `minLevels` is replaced whole. */
  function Configure(m: LogManager, options: LogOptions): (r: LogManager)
    ensures r.options == options
    ensures r.consoleLoggerRegistered == m.consoleLoggerRegistered && r.listeners == m.listeners
  {
    m.(options := options)
  }

  /** `onLogEntry`: one more listener. */
  function OnLogEntry(m: LogManager): (r: LogManager)
    ensures r.listeners == m.listeners + 1
  {
    m.(listeners := m.listeners + 1)
  }

  /** `registerConsoleLogger`: adds the console listener unless it is already registered. */
  function RegisterConsoleLogger(m: LogManager): (r: LogManager)
    ensures r.consoleLoggerRegistered
    ensures r.options == m.options
    ensures r.listeners == if m.consoleLoggerRegistered then m.listeners else m.listeners + 1
  {
    if m.consoleLoggerRegistered then m
    else OnLogEntry(m).(consoleLoggerRegistered := true)
  }

  /** Registering the console logger twice is registering it once. */
  lemma RegisterIdempotent(m: LogManager)
    ensures RegisterConsoleLogger(RegisterConsoleLogger(m)) == RegisterConsoleLogger(m)
  {
  }

  /**
    The loop of `getLogger` from entry `i` on, carrying the current level and matched key: an
    entry whose key starts the moduleName name and is at least as long as the match replaces both.
  */
  function SelectLevel(entries: seq<(string, string)>, moduleName: string, i: nat, level: string, matched: string): (r: (string, string))
    requires i <= |entries|
    decreases |entries| - i
  {
    if i == |entries| then (level, matched)
    else
      var (key, value) := entries[i];
      if StartsWith(moduleName, key) && |key| >= |matched| then SelectLevel(entries, moduleName, i + 1, value, key)
      else SelectLevel(entries, moduleName, i + 1, level, matched)
  }

  /** Entry `k` is the last among the longest keys that start the moduleName name. */
  predicate Chosen(entries: seq<(string, string)>, moduleName: string, k: int) {
    && 0 <= k < |entries|
    && StartsWith(moduleName, entries[k].0)
    && (forall j :: 0 <= j < |entries| && StartsWith(moduleName, entries[j].0) ==>
          |entries[j].0| < |entries[k].0| || (|entries[j].0| == |entries[k].0| && j <= k))
  }

  /** A logger: its moduleName and its threshold. */
  datatype Logger = Logger(moduleName: string, minLevel: int)

  /** `getLogger`: the level of the longest key that starts the moduleName name (the later on a tie), else `none`. */
  function GetLogger(m: LogManager, moduleName: string): (r: Logger)
    ensures r.moduleName == moduleName
    ensures forall k :: Chosen(m.options.minLevels, moduleName, k) ==> r.minLevel == LevelToInt(m.options.minLevels[k].1)
    ensures (forall k :: 0 <= k < |m.options.minLevels| ==> !StartsWith(moduleName, m.options.minLevels[k].0)) ==>
      r.minLevel == 99
  {
    SelectLevelChoice(m.options.minLevels, moduleName);
    NamedLevels("none");
    Logger(moduleName, LevelToInt(SelectLevel(m.options.minLevels, moduleName, 0, "none", "").0))
  }

  /**
    The loop picks the chosen entry's level when some key starts the moduleName name, and keeps
    `none` when none does.
  */
  lemma SelectLevelChoice(entries: seq<(string, string)>, moduleName: string)
    ensures var r := SelectLevel(entries, moduleName, 0, "none", "");
      && ((forall j :: 0 <= j < |entries| ==> !StartsWith(moduleName, entries[j].0)) ==> r == ("none", ""))
      && ((exists j :: 0 <= j < |entries| && StartsWith(moduleName, entries[j].0)) ==>
            exists k :: Chosen(entries, moduleName, k))
      && (forall k :: Chosen(entries, moduleName, k) ==> r == (entries[k].1, entries[k].0))
  {
    SelectLevelFrom(entries, moduleName, 0, "none", "", -1);
    forall k | Chosen(entries, moduleName, k)
      ensures SelectLevel(entries, moduleName, 0, "none", "") == (entries[k].1, entries[k].0)
    {
      ChosenUnique(entries, moduleName, k);
    }
  }

  /**
    The loop invariant: after the entries before `i`, the carried pair is the chosen entry among
    them (`best`), or the initial pair when none of them matched.
  */
  lemma {:induction false} SelectLevelFrom(entries: seq<(string, string)>, moduleName: string, i: nat,
                                          level: string, matched: string, best: int)
    requires i <= |entries|
    requires best == -1 ==> (level, matched) == ("none", "") && forall j :: 0 <= j < i ==> !StartsWith(moduleName, entries[j].0)
    requires best != -1 ==> Chosen(entries[..i], moduleName, best) && (level, matched) == (entries[best].1, entries[best].0)
    ensures var r := SelectLevel(entries, moduleName, i, level, matched);
      && ((forall j :: 0 <= j < |entries| ==> !StartsWith(moduleName, entries[j].0)) ==> r == ("none", ""))
      && ((exists j :: 0 <= j < |entries| && StartsWith(moduleName, entries[j].0)) ==>
            exists k :: Chosen(entries, moduleName, k) && r == (entries[k].1, entries[k].0))
    decreases |entries| - i
  {
    if i == |entries| {
      assert entries[..i] == entries;
    } else {
      var (key, value) := entries[i];
      assert entries[..i + 1][..i] == entries[..i];
      if StartsWith(moduleName, key) && |key| >= |matched| {
        var pre := entries[..i + 1];
        assert Chosen(pre, moduleName, i) by {
          forall j | 0 <= j < |pre| && StartsWith(moduleName, pre[j].0)
            ensures |pre[j].0| < |key| || (|pre[j].0| == |key| && j <= i)
          {
            if j < i {
              assert entries[..i][j] == entries[j];
            }
          }
        }
        SelectLevelFrom(entries, moduleName, i + 1, value, key, i);
      } else {
        if best == -1 {
          assert !StartsWith(moduleName, key);
          SelectLevelFrom(entries, moduleName, i + 1, level, matched, best);
        } else {
          var pre := entries[..i + 1];
          assert Chosen(pre, moduleName, best) by {
            forall j | 0 <= j < |pre| && StartsWith(moduleName, pre[j].0)
              ensures |pre[j].0| < |pre[best].0| || (|pre[j].0| == |pre[best].0| && j <= best)
            {
              if j < i {
                assert entries[..i][j] == entries[j];
                assert entries[..i][best] == entries[best];
              }
            }
          }
          SelectLevelFrom(entries, moduleName, i + 1, level, matched, best);
        }
      }
    }
  }

  lemma ChosenUnique(entries: seq<(string, string)>, moduleName: string, k: int)
    requires Chosen(entries, moduleName, k)
    ensures forall k' :: Chosen(entries, moduleName, k') ==> k' == k
  {
  }

  /** `Logger.levels`: the five level names and their numbers. */
  const Levels: map<string, int> := map["trace" := 1, "debug" := 2, "info" := 3, "warn" := 4, "error" := 5]

  /** `levelToInt`: the number of the lower-cased name, and 99 for a name that is not a level. */
  function LevelToInt(name: string): (n: int)
    ensures n in {1, 2, 3, 4, 5, 99}
    ensures ToLower(name) in Levels ==> n == Levels[ToLower(name)]
  {
    var lower := ToLower(name);
    if lower in Levels then Levels[lower] else 99
  }

  /** Level names are compared without regard to letter case. */
  lemma LevelToIntIgnoresCase(name: string)
    ensures LevelToInt(name) == LevelToInt(ToLower(name))
  {
    assert ToLower(ToLower(name)) == ToLower(name);
  }

  /** A name without capital letters is its own lower case. */
  lemma LowerFixed(s: string)
    requires forall i :: 0 <= i < |s| ==> !('A' <= s[i] <= 'Z')
    ensures ToLower(s) == s
  {
  }

  /** The five level methods' names map to 1 to 5, and `none` to 99. */
  lemma NamedLevels(level: string)
    requires Named(level) || level == "none"
    ensures Named(level) ==> LevelToInt(level) == Levels[level] && 1 <= LevelToInt(level) <= 5
    ensures level == "none" ==> LevelToInt(level) == 99
  {
    LowerFixed(level);
  }

  /** The entry `log` emits. */
  datatype LogEntry = LogEntry(level: string, moduleName: string, message: string)

  /** `Logger.log`: the entry when the level's number reaches the threshold, else nothing. */
  function Log(logger: Logger, level: string, message: string): (r: Option<LogEntry>)
    ensures r.Some? <==> LevelToInt(level) >= logger.minLevel
    ensures r.Some? ==> r.value == LogEntry(level, logger.moduleName, message)
  {
    if LevelToInt(level) < logger.minLevel then None
    else Some(LogEntry(level, logger.moduleName, message))
  }

  /** The five level methods' names. */
  predicate Named(level: string) {
    level in {"trace", "debug", "info", "warn", "error"}
  }

  /**
    A moduleName that no key starts gets `none`, and its logger drops every entry of the five level
    methods.
  */
  lemma UnmatchedModuleIsSilent(m: LogManager, moduleName: string, level: string, message: string)
    requires forall k :: 0 <= k < |m.options.minLevels| ==> !StartsWith(moduleName, m.options.minLevels[k].0)
    requires Named(level)
    ensures GetLogger(m, moduleName).minLevel == 99
    ensures Log(GetLogger(m, moduleName), level, message).None?
  {
    SelectLevelChoice(m.options.minLevels, moduleName);
    NamedLevels("none");
    NamedLevels(level);
  }

  /**
    Raising the threshold only drops entries: whatever a logger at the higher level emits, the
    one at the lower level emits too.
  */
  lemma ThresholdMonotone(moduleName: string, low: int, high: int, level: string, message: string)
    requires low <= high
    ensures Log(Logger(moduleName, high), level, message).Some? ==> Log(Logger(moduleName, low), level, message).Some?
  {
  }

  /** With the initial options every moduleName logs at `info`: `debug` is dropped and `warn` kept. */
  lemma InitialIsInfo(moduleName: string)
    ensures GetLogger(Initial, moduleName).minLevel == 3
    ensures Log(GetLogger(Initial, moduleName), "debug", "").None?
    ensures Log(GetLogger(Initial, moduleName), "warn", "").Some?
  {
    assert StartsWith(moduleName, "");
    SelectLevelChoice(Initial.options.minLevels, moduleName);
    assert Chosen(Initial.options.minLevels, moduleName, 0);
    NamedLevels("info");
    NamedLevels("debug");
    NamedLevels("warn");
  }
}

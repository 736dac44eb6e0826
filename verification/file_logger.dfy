/**
 * FileLogger: a handler that appends lines to one file per level (or per
 * configured name) in a directory, moving a file aside once it has reached a
 * size limit. The file system is a map from paths to contents.
 */
module FileHandler {
  import opened Wrappers
  import opened Php
  import opened Environment
  import opened LoggerBase

  /** FileLogger::$defaults. */
  const FileDefaults: Options := map[
    "path" := VStr("/var/log/"),
    "file" := VNull,
    "suffix" := VNull,
    "extension" := VStr("log"),
    "maxSize" := VInt(1048576),
    "mask" := VNull
  ]

  /** Path::join of a directory and a file name. */
  datatype FilePath = FilePath(dir: string, name: string)

  type Files = map<FilePath, string>

  /** The file store the handler writes to. */
  class FileStore {
    var files: Files

    constructor(initial: Files)
      ensures files == initial
    {
      files := initial;
    }
  }

  /** The keys the file handler reads: the merged FileLogger defaults provide all of them. */
  predicate FileConfig(config: Options) {
    && Normalised(config)
    && "path" in config && "file" in config && "suffix" in config
    && "extension" in config && "maxSize" in config
  }

  /** The configuration FileLogger::__construct leaves: the merge, then the CLI suffix. */
  function FileConfigured(options: Options, cli: bool): (r: Options)
    ensures FileConfig(r)
  {
    var c := Configured(FileDefaults, options);
    if cli && !Truthy(c["file"]) && c["suffix"].VNull? then c["suffix" := VStr("-cli")] else c
  }

  /**
   * Under the CLI SAPI with a falsy 'file', a null suffix becomes "-cli" and any
   * other suffix (the empty string included) is kept; otherwise the suffix is
   * the merged one.
   */
  lemma CliSuffix(options: Options, cli: bool)
    ensures var merged := Configured(FileDefaults, options)["suffix"];
      FileConfigured(options, cli)["suffix"]
        == if cli && !Truthy(Configured(FileDefaults, options)["file"]) && merged.VNull?
           then VStr("-cli") else merged
    ensures forall k :: k in FileConfigured(options, cli) && k != "suffix" ==>
      FileConfigured(options, cli)[k] == Configured(FileDefaults, options)[k]
  {
  }

  /**
   * The file name handle writes to: the configured file name, or the level
   * when there is none, then the suffix if any, then '.' and the extension
   * when the extension is truthy.
   */
  function TargetName(config: Options, level: string): string
    requires FileConfig(config)
  {
    (if config["file"].VNull? then level else ToStr(config["file"]))
    + (if config["suffix"].VNull? then "" else ToStr(config["suffix"]))
    + (if Truthy(config["extension"]) then "." + ToStr(config["extension"]) else "")
  }

  /**
   * The target name starts with the configured file, or the level when there
   * is none; it ends with '.' and the extension when that is truthy; with
   * neither suffix nor extension it is the file or the level alone.
   */
  lemma TargetNameLayout(config: Options, level: string)
    requires FileConfig(config)
    ensures var r, base := TargetName(config, level), if config["file"].VNull? then level else ToStr(config["file"]);
      |base| <= |r| && r[..|base|] == base
    ensures var r := TargetName(config, level);
      Truthy(config["extension"]) ==>
        var ext := "." + ToStr(config["extension"]);
        |ext| <= |r| && r[|r| - |ext|..] == ext
    ensures !Truthy(config["extension"]) && config["suffix"].VNull? ==>
      TargetName(config, level) == if config["file"].VNull? then level else ToStr(config["file"])
  {
  }

  /** The name a full file is copied to: level . '.' . time() . '.' . extension. */
  function RotatedName(config: Options, level: string, time: int): (r: string)
    requires FileConfig(config)
    ensures |r| > |level| + 1 && r[..|level| + 1] == level + "."
  {
    level + "." + IntToString(time) + "." + ToStr(config["extension"])
  }

  /**
   * The size from which a file is moved aside under a given maxSize, if any:
   * a negative integer limit is reached at once, null and false by every size,
   * true by any non-empty file, and an array never.
   */
  function Threshold(maxSize: Value): Option<nat> {
    match maxSize
    case VInt(limit) => Some(if limit < 0 then 0 else limit)
    case VNull => Some(0)
    case VBool(b) => Some(if b then 1 else 0)
    case _ => None
  }

  /**
   * $file->size() >= $this->config['maxSize'] under PHP 8 comparison: against an
   * integer it compares numerically, against null or a bool it compares truth
   * values, and an array is greater than any integer. Rotation starts at a
   * fixed size and every larger file rotates too.
   */
  predicate AtLeast(size: nat, maxSize: Value)
    ensures AtLeast(size, maxSize) <==> Threshold(maxSize).Some? && size >= Threshold(maxSize).value
  {
    match maxSize
    case VInt(limit) => size >= limit
    case VNull => true
    case VBool(b) => !b || size != 0
    case VArray(_) => false
    case VStr(_) => false
  }

  /** The line handle writes: gmdate(dateFormat) . ' - ' . message . "\r\n". */
  function Line(config: Options, message: string, amb: Ambient): (r: string)
    requires "dateFormat" in config
    ensures |r| >= |message| + 2 && r[|r| - 2..] == "\r\n"
    ensures r[|r| - 2 - |message|..|r| - 2] == message
    ensures r[..|r| - 2 - |message|] == amb.gmdate(ToStr(config["dateFormat"])) + " - "
  {
    amb.gmdate(ToStr(config["dateFormat"])) + " - " + message + "\r\n"
  }

  /** The store after FileLogger::handle, from the store before. */
  function HandleStep(config: Options, dir: string, level: string, message: string, files: Files, amb: Ambient): (r: Files)
    requires FileConfig(config)
    ensures files.Keys + {FilePath(dir, TargetName(config, level))} <= r.Keys
    ensures r.Keys <= files.Keys + {FilePath(dir, TargetName(config, level)), FilePath(dir, RotatedName(config, level, amb.time))}
  {
    var target := FilePath(dir, TargetName(config, level));
    var current := if target in files then files[target] else "";
    if AtLeast(|current|, config["maxSize"]) then
      files[FilePath(dir, RotatedName(config, level, amb.time)) := current][target := Line(config, message, amb)]
    else
      files[target := current + Line(config, message, amb)]
  }

  class FileLogger {
    const config: Options
    const path: string

    predicate Valid() {
      FileConfig(config)
    }

    constructor(options: Options, amb: Ambient)
      ensures Valid() && config == FileConfigured(options, amb.cli)
      ensures path == ToStr(config["path"])
    {
      var configured := Construct(FileDefaults, options);
      ghost var merged := configured;
      if amb.cli && !Truthy(configured["file"]) {
        if configured["suffix"] == VNull {
          configured := configured["suffix" := VStr("-cli")];
        }
      }
      assert configured == FileConfigured(options, amb.cli) by {
        assert merged == Configured(FileDefaults, options);
      }
      config := configured;
      path := ToStr(configured["path"]);
    }

    /**
     * Open (creating) the target, copy it aside and truncate it when it has
     * reached maxSize, then append the line.
     */
    method Handle(level: string, message: string, store: FileStore, amb: Ambient)
      requires Valid()
      modifies store
      ensures store.files == HandleStep(config, path, level, message, old(store.files), amb)
    {
      var target := FilePath(path, TargetName(config, level));
      var files := store.files;
      ghost var current := if target in files then files[target] else "";
      if target !in files {
        files := files[target := ""];
      }
      var size := |files[target]|;
      var line := Line(config, message, amb);
      if AtLeast(size, config["maxSize"]) {
        var oldPath := FilePath(path, RotatedName(config, level, amb.time));
        files := files[oldPath := files[target]];
        files := files[target := ""];
        files := files[target := files[target] + line];
        assert "" + line == line;
        assert files == old(store.files)[oldPath := current][target := line];
      } else {
        files := files[target := files[target] + line];
        assert files == old(store.files)[target := current + line];
      }
      store.files := files;
    }
  }

  // ---------------------------------------------------------------------------
  // What one handle does to the store

  /** Below the limit, the old content is kept and the line is appended after it. */
  lemma HandleAppends(config: Options, dir: string, level: string, message: string, files: Files, amb: Ambient)
    requires FileConfig(config)
    requires var t := FilePath(dir, TargetName(config, level));
      !AtLeast(if t in files then |files[t]| else 0, config["maxSize"])
    ensures var t := FilePath(dir, TargetName(config, level));
      var after := HandleStep(config, dir, level, message, files, amb)[t];
      var before := if t in files then files[t] else "";
      |before| <= |after| && after[..|before|] == before && after[|before|..] == Line(config, message, amb)
  {
  }

  /**
   * At the limit, the rotated file receives the old content and the target
   * holds only the new line (when the two names differ).
   */
  lemma HandleRotates(config: Options, dir: string, level: string, message: string, files: Files, amb: Ambient)
    requires FileConfig(config)
    requires TargetName(config, level) != RotatedName(config, level, amb.time)
    requires var t := FilePath(dir, TargetName(config, level));
      AtLeast(if t in files then |files[t]| else 0, config["maxSize"])
    ensures var t := FilePath(dir, TargetName(config, level));
      var after := HandleStep(config, dir, level, message, files, amb);
      after[FilePath(dir, RotatedName(config, level, amb.time))] == (if t in files then files[t] else "")
      && after[t] == Line(config, message, amb)
  {
  }

  /** Every path other than the target and the rotated file is left as it was. */
  lemma HandleFrame(config: Options, dir: string, level: string, message: string, files: Files, amb: Ambient, p: FilePath)
    requires FileConfig(config)
    requires p != FilePath(dir, TargetName(config, level))
    requires p != FilePath(dir, RotatedName(config, level, amb.time))
    ensures var after := HandleStep(config, dir, level, message, files, amb);
      (p in after <==> p in files) && (p in files ==> after[p] == files[p])
  {
  }

  /** After a handle the target exists and ends with the line just written. */
  lemma HandleEndsWithLine(config: Options, dir: string, level: string, message: string, files: Files, amb: Ambient)
    requires FileConfig(config)
    ensures var t := FilePath(dir, TargetName(config, level));
      var after := HandleStep(config, dir, level, message, files, amb);
      var line := Line(config, message, amb);
      t in after && |after[t]| >= |line| && after[t][|after[t]| - |line|..] == line
  {
  }

  /**
   * Without a configured file name, and with no suffix or the CLI one, the
   * rotated name never coincides with the target.
   */
  lemma RotatedDiffersFromTarget(config: Options, level: string, time: int)
    requires FileConfig(config) && config["file"].VNull?
    requires config["suffix"].VNull? || config["suffix"] == VStr("-cli")
    ensures TargetName(config, level) != RotatedName(config, level, time)
  {
    var t, r := TargetName(config, level), RotatedName(config, level, time);
    var ext := ToStr(config["extension"]);
    assert r == level + "." + IntToString(time) + "." + ext;
    if config["suffix"].VNull? {
      assert |r| > |t|;
    } else if |t| == |r| {
      assert t[|level|] == '-';
      assert r[|level|] == '.';
    }
  }

  /** Without options, files are named after the level with the "log" extension and rotate at 1 MiB. */
  lemma DefaultSettings()
    ensures FileConfigured(map[], false)["extension"] == VStr("log")
    ensures FileConfigured(map[], false)["maxSize"] == VInt(1048576)
    ensures FileConfigured(map[], false)["file"] == VNull
    ensures FileConfigured(map[], false)["suffix"] == VNull
    ensures FileConfigured(map[], true)["suffix"] == VStr("-cli")
  {
    ConfiguredPrecedence(FileDefaults, map[], "extension");
    ConfiguredPrecedence(FileDefaults, map[], "maxSize");
    ConfiguredPrecedence(FileDefaults, map[], "file");
    ConfiguredPrecedence(FileDefaults, map[], "suffix");
  }

  // ---------------------------------------------------------------------------
  // Worked examples: the file names handle writes to for three fixed
  // configurations, with the helpers that compute them.

  /** With the defaults, the debug level writes to debug.log. */
  lemma DefaultName()
    ensures TargetName(FileConfigured(map[], false), "debug") == "debug.log"
  {
    DefaultSettings();
    DebugTarget(FileConfigured(map[], false), "");
  }

  /** Under the CLI, the defaults make the debug level write to debug-cli.log. */
  lemma DefaultCliName()
    ensures TargetName(FileConfigured(map[], true), "debug") == "debug-cli.log"
  {
    DefaultSettings();
    DebugTarget(FileConfigured(map[], true), "-cli");
  }

  lemma DebugTarget(config: Options, suffix: string)
    requires FileConfig(config) && config["file"] == VNull && config["extension"] == VStr("log")
    requires suffix == "" || suffix == "-cli"
    requires if suffix == "" then config["suffix"] == VNull else config["suffix"] == VStr(suffix)
    ensures TargetName(config, "debug") == "debug" + suffix + ".log"
  {
    assert TargetName(config, "debug") == "debug" + suffix + "." + "log";
  }

  /** A configured file name replaces the level, and the CLI suffix is then not added. */
  lemma NamedFileHasNoCliSuffix()
    ensures TargetName(FileConfigured(map["file" := VStr("all")], true), "debug") == "all.log"
  {
    var options := map["file" := VStr("all")];
    var merged := Configured(FileDefaults, options);
    ConfiguredPrecedence(FileDefaults, options, "file");
    ConfiguredPrecedence(FileDefaults, options, "suffix");
    ConfiguredPrecedence(FileDefaults, options, "extension");
    assert merged["file"] == VStr("all") && merged["suffix"] == VNull && merged["extension"] == VStr("log");
    assert Truthy(merged["file"]);
    assert FileConfigured(options, true) == merged;
    NamedTarget(merged, "debug");
  }

  lemma NamedTarget(config: Options, level: string)
    requires FileConfig(config) && config["file"] == VStr("all") && config["suffix"] == VNull
    requires config["extension"] == VStr("log")
    ensures TargetName(config, level) == "all.log"
  {
    assert TargetName(config, level) == "all" + "" + "." + "log";
  }
}

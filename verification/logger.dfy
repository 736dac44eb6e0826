/**
 * What every handler inherits from the abstract Logger: the configuration it
 * is built with, the admission test for a level and a scope, and the line
 * layout of a formatted entry.
 */
module LoggerBase {
  import opened Wrappers
  import opened Php

  /** Logger::$defaults. */
  const BaseDefaults: Options :=
    map["dateFormat" := VStr("Y-m-d H:i:s"), "levels" := VNull, "scopes" := EmptyArray]

  /** array_replace of three arrays: a key takes its value from the last array that has it. */
  function Merge(base: Options, sub: Options, options: Options): (r: Options)
    ensures r.Keys == base.Keys + sub.Keys + options.Keys
    ensures forall k :: k in options ==> r[k] == options[k]
    ensures forall k :: k !in options && k in sub ==> r[k] == sub[k]
    ensures forall k :: k !in options && k !in sub && k in base ==> r[k] == base[k]
  {
    base + sub + options
  }

  /** What the constructor keeps for 'levels' and 'scopes': null, or the (array) cast. */
  function Normalise(v: Value): (r: Value)
    ensures r.VNull? || r.VArray?
    ensures v.VNull? <==> r.VNull?
  {
    if v.VNull? then VNull else CastArray(v)
  }

  /** A configuration as the constructor leaves it. */
  predicate Normalised(config: Options) {
    && "dateFormat" in config && "levels" in config && "scopes" in config
    && (config["levels"].VNull? || config["levels"].VArray?)
    && (config["scopes"].VNull? || config["scopes"].VArray?)
  }

  /** The configuration Logger::__construct computes from the subclass defaults and the options. */
  function Configured(sub: Options, options: Options): (r: Options)
    ensures Normalised(r)
    ensures r.Keys == BaseDefaults.Keys + sub.Keys + options.Keys
  {
    var m := Merge(BaseDefaults, sub, options);
    m["levels" := Normalise(m["levels"])]["scopes" := Normalise(m["scopes"])]
  }

  /** Logger::__construct: merge, then cast 'levels' and 'scopes' one after the other. */
  method Construct(sub: Options, options: Options) returns (config: Options)
    ensures config == Configured(sub, options)
  {
    config := BaseDefaults + sub + options;
    if config["levels"] != VNull {
      config := config["levels" := CastArray(config["levels"])];
    }
    if config["scopes"] != VNull {
      config := config["scopes" := CastArray(config["scopes"])];
    }
  }

  /**
   * Each key of the configuration comes from the options if they have it, else
   * from the subclass defaults, else from the base defaults; 'levels' and
   * 'scopes' are then null or an array, a lone value x becoming [x].
   */
  lemma ConfiguredPrecedence(sub: Options, options: Options, k: string)
    requires k in BaseDefaults || k in sub || k in options
    ensures var v := if k in options then options[k] else if k in sub then sub[k] else BaseDefaults[k];
      Configured(sub, options)[k] == if k == "levels" || k == "scopes" then Normalise(v) else v
  {
  }

  lemma ConfiguredWrapsSingleValue(sub: Options, options: Options, k: string)
    requires k == "levels" || k == "scopes"
    requires k in options && !options[k].VNull? && !options[k].VArray?
    ensures Configured(sub, options)[k] == VArray(map["0" := options[k]])
    ensures Configured(sub, options)[k].entries.Values == {options[k]}
  {
  }

  /** Without options or subclass defaults the configuration is the base defaults. */
  lemma ConfiguredDefaults()
    ensures Configured(map[], map[]) == BaseDefaults
  {
    var r := Configured(map[], map[]);
    assert r.Keys == BaseDefaults.Keys;
    assert forall k :: k in r ==> r[k] == BaseDefaults[k];
  }

  // ---------------------------------------------------------------------------
  // Admission

  /** array_intersect($a, $b) !== []: some element of a equals some element of b as strings. */
  predicate Intersects(a: Value, b: Value)
    requires a.VArray? && b.VArray?
  {
    exists x, y :: x in a.entries.Values && y in b.entries.Values && ToStr(x) == ToStr(y)
  }

  /**
   * Logger::canHandle for a level name and an optional scope (a string, an
   * array, or null). A handler with neither list handles everything, and one
   * that lists scopes refuses an event without a scope.
   */
  predicate CanHandle(config: Options, level: string, scope: Value)
    requires Normalised(config)
    requires scope.VNull? || scope.VStr? || scope.VArray?
    ensures config["levels"].VNull? && config["scopes"].VNull? ==> CanHandle(config, level, scope)
    ensures scope.VNull? && config["scopes"].VArray? && config["scopes"] != EmptyArray ==> !CanHandle(config, level, scope)
  {
    var levels, scopes := config["levels"], config["scopes"];
    var hasLevel := levels.VNull? || VStr(level) in levels.entries.Values;
    var inScope := scopes.VNull?
      || (scope.VNull? && scopes == EmptyArray)
      || Intersects(CastArray(scope), scopes);
    hasLevel && inScope
  }

  /** What a handler accepts, independently of PHP arrays: None means no restriction. */
  datatype Filter = Filter(levels: Option<set<string>>, scopes: Option<set<string>>)

  /** The scope of an event: none at all, or a set of names (possibly empty). */
  datatype EventScope = Unscoped | Scoped(names: set<string>)

  /** The admission rule: the level is allowed, and the event is unscoped where the handler wants no scope, or shares a scope with it. */
  predicate Admits(f: Filter, level: string, e: EventScope) {
    && (f.levels.None? || level in f.levels.value)
    && (|| f.scopes.None?
        || (e.Unscoped? && f.scopes.value == {})
        || (e.Scoped? && e.names * f.scopes.value != {}))
  }

  /** An array whose elements are all strings. */
  predicate StringList(v: Value) {
    v.VArray? && forall x :: x in v.entries.Values ==> x.VStr?
  }

  function Strings(v: Value): (r: set<string>)
    requires v.VArray?
    ensures forall s :: s in r <==> VStr(s) in v.entries.Values
  {
    set x | x in v.entries.Values && x.VStr? :: x.s
  }

  function FilterOf(config: Options): Filter
    requires Normalised(config)
  {
    var levels, scopes := config["levels"], config["scopes"];
    Filter(if levels.VNull? then None else Some(Strings(levels)),
           if scopes.VNull? then None else Some(Strings(scopes)))
  }

  function EventOf(scope: Value): EventScope
    requires scope.VNull? || scope.VStr? || scope.VArray?
  {
    match scope
    case VNull => Unscoped
    case VStr(s) => Scoped({s})
    case VArray(_) => Scoped(Strings(scope))
  }

  lemma IntersectsStrings(a: Value, b: Value)
    requires StringList(a) && StringList(b)
    ensures Intersects(a, b) <==> Strings(a) * Strings(b) != {}
  {
    if Intersects(a, b) {
      var x, y :| x in a.entries.Values && y in b.entries.Values && ToStr(x) == ToStr(y);
      assert x.s in Strings(a) * Strings(b);
    }
    if Strings(a) * Strings(b) != {} {
      var s :| s in Strings(a) * Strings(b);
      assert VStr(s) in a.entries.Values && VStr(s) in b.entries.Values && ToStr(VStr(s)) == ToStr(VStr(s));
    }
  }

  lemma EmptyStringList(v: Value)
    requires StringList(v)
    ensures v == EmptyArray <==> Strings(v) == {}
  {
    if v != EmptyArray {
      var k :| k in v.entries;
      assert v.entries[k] in v.entries.Values;
      assert v.entries[k].s in Strings(v);
    }
  }

  /**
   * For string lists, canHandle is exactly the admission rule: the level is in
   * 'levels' (or there is no level list), and the scope test passes. An empty
   * array as the event scope is not "no scope": it shares nothing, so it is
   * only admitted when 'scopes' is null.
   */
  lemma CanHandleMatchesAdmits(config: Options, level: string, scope: Value)
    requires Normalised(config)
    requires config["levels"].VNull? || StringList(config["levels"])
    requires config["scopes"].VNull? || StringList(config["scopes"])
    requires scope.VNull? || scope.VStr? || StringList(scope)
    ensures CanHandle(config, level, scope) <==> Admits(FilterOf(config), level, EventOf(scope))
  {
    var scopes := config["scopes"];
    if !scopes.VNull? {
      EmptyStringList(scopes);
      var cast := CastArray(scope);
      assert StringList(cast);
      IntersectsStrings(cast, scopes);
      if scope.VStr? {
        assert Strings(cast) == {scope.s};
      }
      if scope.VNull? {
        assert Strings(cast) == {};
      }
    }
  }

  /** A handler whose level list lacks the level refuses it, whatever the scope. */
  lemma LevelOutsideListRefused(config: Options, level: string, scope: Value)
    requires Normalised(config) && config["levels"].VArray?
    requires VStr(level) !in config["levels"].entries.Values
    requires scope.VNull? || scope.VStr? || scope.VArray?
    ensures !CanHandle(config, level, scope)
  {
  }

  // ---------------------------------------------------------------------------
  // Formatting

  /** Logger::format: an optional date and a space, the upper-cased level in brackets, then the message. */
  function Format(level: string, message: string, includeDate: bool, date: string): (r: string)
    ensures |r| == (if includeDate then |date| + 1 else 0) + |level| + 3 + |message|
  {
    (if includeDate then date + " " else "") + "[" + Upper(level) + "] " + message
  }

  /** The layout of a formatted entry, position by position. */
  lemma FormatLayout(level: string, message: string, includeDate: bool, date: string)
    ensures var r := Format(level, message, includeDate, date);
      && |r| == (if includeDate then |date| + 1 else 0) + |level| + 3 + |message|
      && r[|r| - |message|..] == message
      && (includeDate ==> r[..|date| + 1] == date + " ")
    ensures var r, t := Format(level, message, includeDate, date), if includeDate then |date| + 1 else 0;
      && t + 3 + |level| <= |r|
      && r[t] == '[' && r[t + 1..t + 1 + |level|] == Upper(level) && r[t + 1 + |level|..t + 3 + |level|] == "] "
  {
  }

  /** The message can be read back from a formatted entry. */
  lemma FormatMessageRecoverable(level: string, m1: string, m2: string, includeDate: bool, date: string)
    requires Format(level, m1, includeDate, date) == Format(level, m2, includeDate, date)
    ensures m1 == m2
  {
    var r := Format(level, m1, includeDate, date);
    FormatLayout(level, m1, includeDate, date);
    FormatLayout(level, m2, includeDate, date);
    assert |m1| == |m2|;
    assert m1 == r[|r| - |m1|..];
  }
}

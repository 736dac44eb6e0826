/**
 * LogManager: a registry of handler configurations, in insertion order, and
 * of the handlers built from them on first use; handle() sends an event to
 * every configured handler that accepts it.
 *
 * The registry passes the level NAME and the event scope to canHandle. The
 * code at LogManager.php:124,131 passes the numeric rank and no scope, which
 * canHandle(string $level, ...) refuses with a TypeError under strict types;
 * the tests call handle with a scope and expect filtering by level name.
 */
module Manager {
  import opened Wrappers
  import opened Php
  import opened Environment
  import opened Levels
  import opened LoggerBase
  import opened ArrayHandler
  import opened FileHandler
  import opened Sinks
  import ManagerInterpolation

  predicate Distinct(xs: seq<string>) {
    forall i, j :: 0 <= i < j < |xs| ==> xs[i] != xs[j]
  }

  /** The sequence without x. */
  function Without(xs: seq<string>, x: string): (r: seq<string>)
    ensures forall y :: y in r <==> y in xs && y != x
    ensures Distinct(xs) ==> Distinct(r)
    ensures x !in xs ==> r == xs
  {
    if xs == [] then []
    else
      var rest := Without(xs[1..], x);
      assert Distinct(xs) ==> Distinct(xs[1..]) && xs[0] !in xs[1..];
      if xs[0] == x then rest else [xs[0]] + rest
  }

  // ---------------------------------------------------------------------------
  // The registry as a value

  /** The configs, their insertion order, and the loaded handlers as values. */
  datatype Registry = Registry(config: map<string, Options>, order: seq<string>, loaded: map<string, SinkView>)

  /** What the methods keep: one position per config key, and handlers only for configured keys. */
  ghost predicate Coherent(g: Registry) {
    && Distinct(g.order)
    && (forall k :: k in g.config <==> k in g.order)
    && g.loaded.Keys <= g.config.Keys
    && LoadedValid(g.loaded)
  }

  /** setConfig: refuse a key that is already configured, else store the options at the end. */
  function SetConfigSpec(g: Registry, key: string, options: Options): (r: Result<Registry>)
    ensures r.Err? <==> key in g.config
    ensures r.Err? ==> r.error == ConfigExists(key)
  {
    if key in g.config then Err(ConfigExists(key))
    else Ok(Registry(g.config[key := options], g.order + [key], g.loaded))
  }

  /** unload: forget the handler and the config of the key. */
  function UnloadSpec(g: Registry, key: string): (r: Registry)
    ensures r.config.Keys == g.config.Keys - {key} && r.loaded.Keys == g.loaded.Keys - {key}
    ensures forall y :: y in r.order <==> y in g.order && y != key
  {
    Registry(g.config - {key}, Without(g.order, key), g.loaded - {key})
  }

  /**
   * use on the maps it reads and writes: the loaded handler if there is one,
   * else one built from the config and kept; the loaded handlers after.
   */
  function Loading(config: map<string, Options>, loaded: map<string, SinkView>, key: string, cli: bool)
    : (r: (Result<SinkView>, map<string, SinkView>))
    ensures r.0.Ok? ==> key in r.1 && r.1[key] == r.0.value
    ensures r.0.Err? ==> r.1 == loaded
    ensures LoadedValid(loaded) ==> LoadedValid(r.1)
  {
    if key in loaded then (Ok(loaded[key]), loaded)
    else
      match BuildView(OptionsFor(config, key), cli)
      case Err(e) => (Err(e), loaded)
      case Ok(v) => (Ok(v), loaded[key := v])
  }

  datatype Used = Used(result: Result<SinkView>, registry: Registry)

  /** use on a registry. */
  function UseSpec(g: Registry, key: string, cli: bool): (r: Used)
    ensures r.registry.config == g.config && r.registry.order == g.order
    ensures r.result.Ok? ==> key in r.registry.loaded && r.registry.loaded[key] == r.result.value
    ensures r.result.Err? ==> r.registry == g
    ensures key in g.loaded ==> r == Used(Ok(g.loaded[key]), g)
  {
    var l := Loading(g.config, g.loaded, key, cli);
    Used(l.0, g.(loaded := l.1))
  }

  lemma SetConfigKeepsCoherent(g: Registry, key: string, options: Options)
    requires Coherent(g) && key !in g.config
    ensures Coherent(SetConfigSpec(g, key, options).value)
  {
    var r := SetConfigSpec(g, key, options).value;
    forall i, j | 0 <= i < j < |r.order| ensures r.order[i] != r.order[j] {
      if j == |g.order| {
        assert r.order[i] == g.order[i];
      }
    }
  }

  lemma UnloadKeepsCoherent(g: Registry, key: string)
    requires Coherent(g)
    ensures Coherent(UnloadSpec(g, key))
  {
  }

  /** Unloading removes the key from both maps and leaves every other key as it was. */
  lemma UnloadRemovesOnlyKey(g: Registry, key: string, other: string)
    requires other != key
    ensures var r := UnloadSpec(g, key);
      && key !in r.config && key !in r.loaded && key !in r.order
      && (other in r.config <==> other in g.config) && (other in g.config ==> r.config[other] == g.config[other])
      && (other in r.loaded <==> other in g.loaded) && (other in g.loaded ==> r.loaded[other] == g.loaded[other])
  {
  }

  /** Unloading a key that is not configured changes nothing. */
  lemma UnloadAbsentIsNoOp(g: Registry, key: string)
    requires Coherent(g) && key !in g.config
    ensures UnloadSpec(g, key) == g
  {
    assert g.config - {key} == g.config;
    assert g.loaded - {key} == g.loaded;
  }

  /** setConfig of a new key followed by unload of it gives the registry back. */
  lemma {:induction false} SetConfigThenUnload(g: Registry, key: string, options: Options)
    requires Coherent(g) && key !in g.config
    ensures UnloadSpec(SetConfigSpec(g, key, options).value, key) == g
  {
    assert key !in g.order && key !in g.loaded;
    UnloadUndoesAdd(g, key, options);
  }

  lemma UnloadUndoesAdd(g: Registry, key: string, options: Options)
    requires key !in g.config && key !in g.order && key !in g.loaded
    ensures UnloadSpec(SetConfigSpec(g, key, options).value, key) == g
  {
    var r := SetConfigSpec(g, key, options).value;
    WithoutLast(g.order, key);
    assert r.config - {key} == g.config;
    assert r.loaded - {key} == g.loaded;
  }

  lemma {:induction false} WithoutLast(xs: seq<string>, x: string)
    requires x !in xs
    ensures Without(xs + [x], x) == xs
  {
    if xs == [] {
      assert [x][1..] == [];
    } else {
      assert (xs + [x])[1..] == xs[1..] + [x];
      WithoutLast(xs[1..], x);
      assert [xs[0]] + xs[1..] == xs;
    }
  }

  lemma UseSpecCached(g: Registry, key: string, cli: bool)
    requires key in g.loaded
    ensures UseSpec(g, key, cli) == Used(Ok(g.loaded[key]), g)
  {
  }

  lemma UseSpecLoads(g: Registry, key: string, cli: bool)
    requires key !in g.loaded
    ensures UseSpec(g, key, cli) == match BuildView(OptionsFor(g.config, key), cli)
      case Err(e) => Used(Err(e), g)
      case Ok(v) => Used(Ok(v), g.(loaded := g.loaded[key := v]))
  {
  }

  /** A second use of a key returns what the first returned and changes nothing more. */
  lemma UseCaches(g: Registry, key: string, cli: bool)
    requires UseSpec(g, key, cli).result.Ok?
    ensures var u := UseSpec(g, key, cli);
      UseSpec(u.registry, key, cli) == Used(u.result, u.registry)
  {
  }

  /** use of a key with no config fails with an invalid class and caches nothing. */
  lemma UseUnconfiguredFails(g: Registry, key: string, cli: bool)
    requires Coherent(g) && key !in g.config
    ensures UseSpec(g, key, cli) == Used(Err(InvalidClass("")), g)
  {
  }

  lemma UseKeepsCoherent(g: Registry, key: string, cli: bool)
    requires Coherent(g)
    ensures Coherent(UseSpec(g, key, cli).registry)
  {
  }

  // ---------------------------------------------------------------------------
  // Dispatch as a value

  /** The loaded handlers and the files after each step, and the error that stopped the walk, if any. */
  datatype Outcome = Outcome(error: Option<Failure>, loaded: map<string, SinkView>, files: Files)

  predicate LoadedValid(loaded: map<string, SinkView>) {
    forall k :: k in loaded ==> ViewValid(loaded[k])
  }

  /** A scope canHandle accepts: a string, an array, or null. */
  predicate ScopeValue(scope: Value) {
    scope.VNull? || scope.VStr? || scope.VArray?
  }

  /**
   * A handler receiving the message: an ArrayLogger interpolates it again with
   * no data and appends the entry; a FileLogger writes the line to its file.
   */
  function Deliver(v: SinkView, level: string, message: string, amb: Ambient, files: Files): (r: (SinkView, Files))
    requires ViewValid(v)
    ensures ViewValid(r.0) && r.0.config == v.config && r.0.ArrayView? == v.ArrayView?
    ensures v.FileView? ==> r.0 == v
    ensures v.ArrayView? ==> r.1 == files
  {
    match v
    case ArrayView(c, content) => (ArrayView(c, content + [Entry(c, level, message, map[], amb)]), files)
    case FileView(c, dir) => (v, HandleStep(c, dir, level, message, files, amb))
  }

  /**
   * One iteration of handle's loop: use the key, then forward the message if
   * the handler admits it. A key in the canonical form of an integer is an
   * integer key of the config array, and passing it to use(string $key) is a
   * TypeError under strict types.
   */
  function Visit(config: map<string, Options>, key: string, o: Outcome, level: string, message: string, scope: Value, amb: Ambient): (r: Outcome)
    requires LoadedValid(o.loaded) && ScopeValue(scope)
    ensures LoadedValid(r.loaded)
    ensures r.error.Some? ==> r.loaded == o.loaded && r.files == o.files
    ensures forall k :: k != key ==> (k in r.loaded <==> k in o.loaded) && (k in o.loaded ==> r.loaded[k] == o.loaded[k])
    ensures r.error.None? ==> key in r.loaded
    ensures IntKey(key) ==> r.error == Some(TypeError)
  {
    if IntKey(key) then Outcome(Some(TypeError), o.loaded, o.files)
    else UsedAndForwarded(config, key, o, level, message, scope, amb)
  }

  /** The body of a visit for a string key: use it, then forward if the handler admits the message. */
  function UsedAndForwarded(config: map<string, Options>, key: string, o: Outcome, level: string, message: string, scope: Value, amb: Ambient): (r: Outcome)
    requires LoadedValid(o.loaded) && ScopeValue(scope)
    ensures LoadedValid(r.loaded)
    ensures r.error.Some? ==> r.loaded == o.loaded && r.files == o.files
    ensures forall k :: k != key ==> (k in r.loaded <==> k in o.loaded) && (k in o.loaded ==> r.loaded[k] == o.loaded[k])
    ensures r.error.None? ==> key in r.loaded
  {
    var l := Loading(config, o.loaded, key, amb.cli);
    if l.0.Err? then Outcome(Some(l.0.error), o.loaded, o.files)
    else Forwarded(key, l.1, o.files, level, message, scope, amb)
  }

  /** The second half of a visit: forward to the handler under the key if it admits the message. */
  function Forwarded(key: string, loaded: map<string, SinkView>, files: Files, level: string, message: string, scope: Value, amb: Ambient): (r: Outcome)
    requires key in loaded && ViewValid(loaded[key]) && ScopeValue(scope)
    ensures r.error.None? && key in r.loaded
    ensures forall k :: k != key ==> (k in r.loaded <==> k in loaded) && (k in loaded ==> r.loaded[k] == loaded[k])
    ensures LoadedValid(loaded) ==> LoadedValid(r.loaded)
  {
    var v := loaded[key];
    if !CanHandle(v.config, level, scope) then Outcome(None, loaded, files)
    else
      var d := Deliver(v, level, message, amb, files);
      Outcome(None, loaded[key := d.0], d.1)
  }

  /** handle's loop over the keys, stopping at the first error. */
  function Dispatch(config: map<string, Options>, keys: seq<string>, start: Outcome, level: string, message: string, scope: Value, amb: Ambient): (r: Outcome)
    requires LoadedValid(start.loaded) && ScopeValue(scope)
    ensures LoadedValid(r.loaded)
  {
    if keys == [] then start
    else
      var n := |keys| - 1;
      var o := Dispatch(config, keys[..n], start, level, message, scope, amb);
      if o.error.Some? then o else Visit(config, keys[n], o, level, message, scope, amb)
  }

  /**
   * LogManager::handle on a registry and a file store: an unknown level and a
   * failing LogManager::interpolate both leave everything as it was.
   */
  function Handled(g: Registry, files: Files, level: string, message: string, data: Options, scope: Value, amb: Ambient): (r: Outcome)
    requires LoadedValid(g.loaded) && ScopeValue(scope)
    ensures LoadedValid(r.loaded)
    ensures !IsLevel(level) ==> r == Outcome(Some(BadMethodCall), g.loaded, files)
    ensures IsLevel(level) && ManagerInterpolation.InterpolatedAsWritten(message, data, amb).Err? ==>
      r == Outcome(Some(ManagerInterpolation.InterpolatedAsWritten(message, data, amb).error), g.loaded, files)
    ensures r.error.None? ==> IsLevel(level) && ManagerInterpolation.InterpolatedAsWritten(message, data, amb).Ok?
  {
    if !IsLevel(level) then Outcome(Some(BadMethodCall), g.loaded, files)
    else
      match ManagerInterpolation.InterpolatedAsWritten(message, data, amb)
      case Err(e) => Outcome(Some(e), g.loaded, files)
      case Ok(text) => Dispatch(g.config, g.order, Outcome(None, g.loaded, files), level, text, scope, amb)
  }

  lemma DispatchExtends(config: map<string, Options>, keys: seq<string>, start: Outcome, level: string, message: string, scope: Value, amb: Ambient, i: nat)
    requires LoadedValid(start.loaded) && ScopeValue(scope)
    requires i < |keys| && Dispatch(config, keys[..i], start, level, message, scope, amb).error.None?
    ensures Dispatch(config, keys[..i + 1], start, level, message, scope, amb)
      == Visit(config, keys[i], Dispatch(config, keys[..i], start, level, message, scope, amb), level, message, scope, amb)
  {
    assert keys[..i + 1][..i] == keys[..i];
  }

  lemma {:induction false} DispatchStops(config: map<string, Options>, keys: seq<string>, start: Outcome, level: string, message: string, scope: Value, amb: Ambient, n: nat)
    requires LoadedValid(start.loaded) && ScopeValue(scope)
    requires n <= |keys| && Dispatch(config, keys[..n], start, level, message, scope, amb).error.Some?
    ensures Dispatch(config, keys, start, level, message, scope, amb) == Dispatch(config, keys[..n], start, level, message, scope, amb)
    decreases |keys| - n
  {
    if n < |keys| {
      assert keys[..n + 1][..n] == keys[..n];
      DispatchStops(config, keys, start, level, message, scope, amb, n + 1);
    } else {
      assert keys[..n] == keys;
    }
  }

  /** A key the walk does not visit keeps its handler (or its absence), whatever happens. */
  lemma {:induction false} DispatchOutside(config: map<string, Options>, keys: seq<string>, start: Outcome, level: string, message: string, scope: Value, amb: Ambient, k: string)
    requires LoadedValid(start.loaded) && ScopeValue(scope) && k !in keys
    ensures var r := Dispatch(config, keys, start, level, message, scope, amb);
      (k in r.loaded <==> k in start.loaded) && (k in start.loaded ==> r.loaded[k] == start.loaded[k])
  {
    if keys != [] {
      var n := |keys| - 1;
      assert k !in keys[..n] && keys[n] != k by {
        assert keys == keys[..n] + [keys[n]];
      }
      DispatchOutside(config, keys[..n], start, level, message, scope, amb, k);
    }
  }

  /** What Visit does to the key itself depends only on that key's handler, not on the rest. */
  lemma VisitLocal(config: map<string, Options>, key: string, o1: Outcome, o2: Outcome, level: string, message: string, scope: Value, amb: Ambient)
    requires LoadedValid(o1.loaded) && LoadedValid(o2.loaded) && ScopeValue(scope)
    requires (key in o1.loaded <==> key in o2.loaded) && (key in o1.loaded ==> o1.loaded[key] == o2.loaded[key])
    ensures var r1, r2 := Visit(config, key, o1, level, message, scope, amb), Visit(config, key, o2, level, message, scope, amb);
      r1.error == r2.error && (r1.error.None? ==> r1.loaded[key] == r2.loaded[key])
  {
    if !IntKey(key) {
      UsedAndForwardedLocal(config, key, o1, o2, level, message, scope, amb);
    }
  }

  lemma UsedAndForwardedLocal(config: map<string, Options>, key: string, o1: Outcome, o2: Outcome, level: string, message: string, scope: Value, amb: Ambient)
    requires LoadedValid(o1.loaded) && LoadedValid(o2.loaded) && ScopeValue(scope)
    requires (key in o1.loaded <==> key in o2.loaded) && (key in o1.loaded ==> o1.loaded[key] == o2.loaded[key])
    ensures var r1, r2 := UsedAndForwarded(config, key, o1, level, message, scope, amb), UsedAndForwarded(config, key, o2, level, message, scope, amb);
      r1.error == r2.error && (r1.error.None? ==> r1.loaded[key] == r2.loaded[key])
  {
    var l1, l2 := Loading(config, o1.loaded, key, amb.cli), Loading(config, o2.loaded, key, amb.cli);
    LoadingLocal(config, o1.loaded, o2.loaded, key, amb.cli);
    if l1.0.Ok? {
      ForwardedLocal(key, l1.1, l2.1, o1.files, o2.files, level, message, scope, amb);
    }
  }

  lemma LoadingLocal(config: map<string, Options>, loaded1: map<string, SinkView>, loaded2: map<string, SinkView>, key: string, cli: bool)
    requires (key in loaded1 <==> key in loaded2) && (key in loaded1 ==> loaded1[key] == loaded2[key])
    ensures var l1, l2 := Loading(config, loaded1, key, cli), Loading(config, loaded2, key, cli);
      l1.0 == l2.0 && (l1.0.Ok? ==> l1.1[key] == l2.1[key])
  {
  }

  lemma ForwardedLocal(key: string, loaded1: map<string, SinkView>, loaded2: map<string, SinkView>, files1: Files, files2: Files,
                       level: string, message: string, scope: Value, amb: Ambient)
    requires key in loaded1 && key in loaded2 && loaded1[key] == loaded2[key]
    requires ViewValid(loaded1[key]) && ScopeValue(scope)
    ensures Forwarded(key, loaded1, files1, level, message, scope, amb).loaded[key]
      == Forwarded(key, loaded2, files2, level, message, scope, amb).loaded[key]
  {
    var v := loaded1[key];
    if CanHandle(v.config, level, scope) {
      assert Deliver(v, level, message, amb, files1).0 == Deliver(v, level, message, amb, files2).0;
    }
  }

  /** The walk loads handlers only for the keys it visits. */
  lemma {:induction false} DispatchLoadsOnlyVisited(config: map<string, Options>, keys: seq<string>, start: Outcome, level: string, message: string, scope: Value, amb: Ambient)
    requires LoadedValid(start.loaded) && ScopeValue(scope)
    ensures forall k :: k in Dispatch(config, keys, start, level, message, scope, amb).loaded ==> k in start.loaded || k in keys
  {
    if keys != [] {
      var n := |keys| - 1;
      assert keys == keys[..n] + [keys[n]];
      DispatchLoadsOnlyVisited(config, keys[..n], start, level, message, scope, amb);
    }
  }

  /**
   * When the walk over distinct keys completes, each visited key ends with the
   * handler one Visit gives it from its state at the start: it is visited
   * exactly once.
   */
  lemma {:induction false} DispatchVisitsOnce(config: map<string, Options>, keys: seq<string>, start: Outcome, level: string, message: string, scope: Value, amb: Ambient, key: string)
    requires LoadedValid(start.loaded) && ScopeValue(scope) && Distinct(keys) && key in keys
    requires Dispatch(config, keys, start, level, message, scope, amb).error.None?
    ensures var once := Visit(config, key, Outcome(None, start.loaded, start.files), level, message, scope, amb);
      var r := Dispatch(config, keys, start, level, message, scope, amb);
      once.error.None? && key in r.loaded && r.loaded[key] == once.loaded[key]
  {
    var n := |keys| - 1;
    DispatchLast(config, keys, start, level, message, scope, amb);
    DistinctPrefix(keys);
    var o := Dispatch(config, keys[..n], start, level, message, scope, amb);
    if keys[n] == key {
      DispatchOutside(config, keys[..n], start, level, message, scope, amb, key);
      VisitLocal(config, key, o, Outcome(None, start.loaded, start.files), level, message, scope, amb);
    } else {
      InPrefix(keys, key);
      DispatchVisitsOnce(config, keys[..n], start, level, message, scope, amb, key);
    }
  }

  /** A walk that completes is the walk over all keys but the last, then a visit of the last. */
  lemma DispatchLast(config: map<string, Options>, keys: seq<string>, start: Outcome, level: string, message: string, scope: Value, amb: Ambient)
    requires LoadedValid(start.loaded) && ScopeValue(scope) && keys != []
    requires Dispatch(config, keys, start, level, message, scope, amb).error.None?
    ensures var o := Dispatch(config, keys[..|keys| - 1], start, level, message, scope, amb);
      o.error.None? && Dispatch(config, keys, start, level, message, scope, amb) == Visit(config, keys[|keys| - 1], o, level, message, scope, amb)
  {
    var n := |keys| - 1;
    DispatchExtends(config, keys, start, level, message, scope, amb, n);
    assert keys[..n + 1] == keys;
  }

  lemma Prefixes(xs: seq<string>)
    ensures xs[..0] == [] && xs[..|xs|] == xs
  {
  }

  lemma InPrefix(keys: seq<string>, key: string)
    requires key in keys && key != keys[|keys| - 1]
    ensures key in keys[..|keys| - 1]
  {
    var n := |keys| - 1;
    assert keys == keys[..n] + [keys[n]];
  }

  lemma DistinctPrefix(keys: seq<string>)
    requires Distinct(keys) && keys != []
    ensures Distinct(keys[..|keys| - 1]) && keys[|keys| - 1] !in keys[..|keys| - 1]
  {
    var n := |keys| - 1;
    forall i | 0 <= i < n ensures keys[..n][i] != keys[n] {
      assert keys[i] != keys[n];
    }
    forall i, j | 0 <= i < j < n ensures keys[..n][i] != keys[..n][j] {
      assert keys[i] != keys[j];
    }
  }


  /**
   * A handle that completes had a known level and a message LogManager's
   * interpolate rendered, and is the walk over the configs with that text.
   */
  lemma HandledWalks(g: Registry, files: Files, level: string, message: string, data: Options, scope: Value, amb: Ambient)
    requires Coherent(g) && ScopeValue(scope)
    requires Handled(g, files, level, message, data, scope, amb).error.None?
    ensures IsLevel(level) && ManagerInterpolation.InterpolatedAsWritten(message, data, amb).Ok?
    ensures Handled(g, files, level, message, data, scope, amb)
      == Dispatch(g.config, g.order, Outcome(None, g.loaded, files), level,
                  ManagerInterpolation.InterpolatedAsWritten(message, data, amb).value, scope, amb)
  {
  }

  /**
   * With a message naming a missing placeholder before a present one, handle
   * raises the TypeError of LogManager::interpolate and no handler is built or
   * written to.
   */
  lemma HandledMissingNameRaises(g: Registry, files: Files, level: string, scope: Value, amb: Ambient)
    requires Coherent(g) && ScopeValue(scope) && IsLevel(level)
    ensures Handled(g, files, level, "{a} {b}", map["b" := VStr("x")], scope, amb) == Outcome(Some(TypeError), g.loaded, files)
  {
    ManagerInterpolation.MissingNameThenPresentNameRaises(amb);
  }

  /**
   * A first configured key in the form of an integer stops handle with a
   * TypeError before any handler is used or written to.
   */
  lemma IntKeyFirstRaises(g: Registry, files: Files, level: string, message: string, data: Options, scope: Value, amb: Ambient)
    requires Coherent(g) && ScopeValue(scope) && IsLevel(level)
    requires ManagerInterpolation.InterpolatedAsWritten(message, data, amb).Ok?
    requires g.order != [] && IntKey(g.order[0])
    ensures Handled(g, files, level, message, data, scope, amb) == Outcome(Some(TypeError), g.loaded, files)
  {
    var text := ManagerInterpolation.InterpolatedAsWritten(message, data, amb).value;
    var start := Outcome(None, g.loaded, files);
    Prefixes(g.order);
    DispatchExtends(g.config, g.order, start, level, text, scope, amb, 0);
    DispatchStops(g.config, g.order, start, level, text, scope, amb, 1);
  }

  /** handle keeps the registry coherent: it only loads handlers for configured keys. */
  lemma HandledKeepsCoherent(g: Registry, files: Files, level: string, message: string, data: Options, scope: Value, amb: Ambient)
    requires Coherent(g) && ScopeValue(scope)
    ensures Coherent(g.(loaded := Handled(g, files, level, message, data, scope, amb).loaded))
  {
    var text := ManagerInterpolation.InterpolatedAsWritten(message, data, amb);
    if IsLevel(level) && text.Ok? {
      DispatchLoadsOnlyVisited(g.config, g.order, Outcome(None, g.loaded, files), level, text.value, scope, amb);
    }
  }

  /**
   * The handler of a visited key ends as one Visit from its state before handle
   * leaves it: the general form of the three properties below.
   */
  lemma HandledKey(g: Registry, files: Files, level: string, message: string, data: Options, scope: Value, amb: Ambient, key: string)
    requires Coherent(g) && ScopeValue(scope) && key in g.order
    requires Handled(g, files, level, message, data, scope, amb).error.None?
    ensures var text := ManagerInterpolation.InterpolatedAsWritten(message, data, amb).value;
      var once := Visit(g.config, key, Outcome(None, g.loaded, files), level, text, scope, amb);
      var r := Handled(g, files, level, message, data, scope, amb);
      once.error.None? && key in r.loaded && r.loaded[key] == once.loaded[key]
  {
    HandledWalks(g, files, level, message, data, scope, amb);
    var text := ManagerInterpolation.InterpolatedAsWritten(message, data, amb).value;
    DispatchVisitsOnce(g.config, g.order, Outcome(None, g.loaded, files), level, text, scope, amb, key);
  }

  /**
   * A loaded ArrayLogger that admits the event gains exactly one entry, at the
   * end, made from the once-interpolated message; earlier entries stay.
   */
  lemma AdmittedArraySinkAppendsOnce(g: Registry, files: Files, level: string, message: string, data: Options, scope: Value, amb: Ambient, key: string)
    requires Coherent(g) && ScopeValue(scope) && key in g.order
    requires key in g.loaded && g.loaded[key].ArrayView?
    requires Handled(g, files, level, message, data, scope, amb).error.None?
    requires CanHandle(g.loaded[key].config, level, scope)
    ensures var c, r := g.loaded[key].config, Handled(g, files, level, message, data, scope, amb);
      key in r.loaded
      && r.loaded[key] == ArrayView(c, g.loaded[key].content
           + [Entry(c, level, ManagerInterpolation.InterpolatedAsWritten(message, data, amb).value, map[], amb)])
  {
    HandledKey(g, files, level, message, data, scope, amb, key);
  }

  /** A loaded handler that refuses the level or the scope is left exactly as it was. */
  lemma RefusingSinkUnchanged(g: Registry, files: Files, level: string, message: string, data: Options, scope: Value, amb: Ambient, key: string)
    requires Coherent(g) && ScopeValue(scope) && key in g.order && key in g.loaded
    requires Handled(g, files, level, message, data, scope, amb).error.None?
    requires !CanHandle(g.loaded[key].config, level, scope)
    ensures var r := Handled(g, files, level, message, data, scope, amb);
      key in r.loaded && r.loaded[key] == g.loaded[key]
  {
    HandledKey(g, files, level, message, data, scope, amb, key);
  }

  /**
   * An ArrayLogger configured but not yet loaded is built by the walk; if its
   * level list excludes the event level, it is left with no entries.
   */
  lemma SkippedLevelLeavesNewSinkEmpty(g: Registry, files: Files, level: string, message: string, data: Options, scope: Value, amb: Ambient, key: string)
    requires Coherent(g) && ScopeValue(scope) && key in g.order && key !in g.loaded
    requires ClassOf(g.config[key]) == Ok(ArrayKind)
    requires Handled(g, files, level, message, data, scope, amb).error.None?
    requires var levels := Configured(BaseDefaults, g.config[key])["levels"];
      levels.VArray? && VStr(level) !in levels.entries.Values
    ensures var r := Handled(g, files, level, message, data, scope, amb);
      key in r.loaded && r.loaded[key] == ArrayView(Configured(BaseDefaults, g.config[key]), [])
  {
    HandledKey(g, files, level, message, data, scope, amb, key);
    var c := Configured(BaseDefaults, g.config[key]);
    LevelOutsideListRefused(c, level, scope);
    assert BuildView(OptionsFor(g.config, key), amb.cli) == Ok(ArrayView(c, []));
  }

  /** Two handles of admitted events append their entries in the order they were handled. */
  lemma TwoHandlesAppendInOrder(g: Registry, files: Files, amb: Ambient, key: string,
                                l1: string, m1: string, l2: string, m2: string, scope: Value)
    requires Coherent(g) && ScopeValue(scope) && key in g.order
    requires key in g.loaded && g.loaded[key].ArrayView?
    requires CanHandle(g.loaded[key].config, l1, scope) && CanHandle(g.loaded[key].config, l2, scope)
    requires Handled(g, files, l1, m1, map[], scope, amb).error.None?
    requires var o := Handled(g, files, l1, m1, map[], scope, amb);
      Handled(g.(loaded := o.loaded), o.files, l2, m2, map[], scope, amb).error.None?
    ensures var o := Handled(g, files, l1, m1, map[], scope, amb);
      var c, r := g.loaded[key].config, Handled(g.(loaded := o.loaded), o.files, l2, m2, map[], scope, amb);
      key in r.loaded
      && r.loaded[key] == ArrayView(c, g.loaded[key].content
             + [Entry(c, l1, ManagerInterpolation.InterpolatedAsWritten(m1, map[], amb).value, map[], amb)]
             + [Entry(c, l2, ManagerInterpolation.InterpolatedAsWritten(m2, map[], amb).value, map[], amb)])
  {
    var o := Handled(g, files, l1, m1, map[], scope, amb);
    HandledKeepsCoherent(g, files, l1, m1, map[], scope, amb);
    AdmittedArraySinkAppendsOnce(g, files, l1, m1, map[], scope, amb, key);
    var g1 := g.(loaded := o.loaded);
    AdmittedArraySinkAppendsOnce(g1, o.files, l2, m2, map[], scope, amb, key);
  }

  // ---------------------------------------------------------------------------
  // Loaded handlers on the heap

  /** The ArrayLogger objects among some loaded handlers. */
  ghost function ArrayObjects(instances: map<string, Sink>): set<ArrayLogger> {
    set k | k in instances && instances[k].ArraySink? :: instances[k].a
  }

  /** Every handler is well formed, and no two keys share an ArrayLogger. */
  ghost predicate InstancesValid(instances: map<string, Sink>) {
    && (forall k :: k in instances ==> SinkValid(instances[k]))
    && (forall k, k' ::
          k in instances && k' in instances && k != k' && instances[k].ArraySink? && instances[k'].ArraySink?
          ==> instances[k].a != instances[k'].a)
  }

  ghost function ViewsOf(instances: map<string, Sink>): (r: map<string, SinkView>)
    requires InstancesValid(instances)
    reads ArrayObjects(instances)
    ensures r.Keys == instances.Keys && LoadedValid(r)
  {
    map k | k in instances :: ViewOf(instances[k])
  }

  lemma ViewsOfAdd(instances: map<string, Sink>, key: string, s: Sink)
    requires InstancesValid(instances) && key !in instances && SinkValid(s)
    requires s.ArraySink? ==> s.a !in ArrayObjects(instances)
    ensures InstancesValid(instances[key := s])
    ensures ArrayObjects(instances[key := s]) == ArrayObjects(instances) + Footprint(s)
    ensures ViewsOf(instances[key := s]) == ViewsOf(instances)[key := ViewOf(s)]
  {
    var m := instances[key := s];
    forall k | k in instances && instances[k].ArraySink?
      ensures instances[k].a in ArrayObjects(instances)
    {
    }
    forall a | a in ArrayObjects(m) ensures a in ArrayObjects(instances) + Footprint(s) {
      var k :| k in m && m[k].ArraySink? && m[k].a == a;
      if k != key {
        assert m[k] == instances[k];
      }
    }
    forall a | a in ArrayObjects(instances) + Footprint(s) ensures a in ArrayObjects(m) {
      if a in Footprint(s) {
        assert m[key] == s;
      } else {
        var k :| k in instances && instances[k].ArraySink? && instances[k].a == a;
        assert m[k] == instances[k];
      }
    }
  }

  lemma ViewsOfRemove(instances: map<string, Sink>, key: string)
    requires InstancesValid(instances)
    ensures InstancesValid(instances - {key})
    ensures ArrayObjects(instances - {key}) <= ArrayObjects(instances)
    ensures ViewsOf(instances - {key}) == ViewsOf(instances) - {key}
  {
  }

  /** The views depend only on the ArrayLogger objects. */
  twostate lemma ViewsUnchanged(instances: map<string, Sink>)
    requires InstancesValid(instances) && unchanged(ArrayObjects(instances))
    ensures ViewsOf(instances) == old(ViewsOf(instances))
  {
  }

  /** When only one ArrayLogger changes, only the view under its key changes. */
  lemma ViewsAfterAppend(instances: map<string, Sink>, key: string, a: ArrayLogger, before: map<string, SinkView>)
    requires InstancesValid(instances) && key in instances && instances[key] == ArraySink(a)
    requires before.Keys == instances.Keys
    requires forall k :: k in instances && k != key ==> before[k] == ViewOf(instances[k])
    ensures ViewsOf(instances) == before[key := ArrayView(a.config, a.content)]
  {
  }

  // ---------------------------------------------------------------------------
  // The class

  class LogManager {
    var config: map<string, Options>
    var order: seq<string>
    var instances: map<string, Sink>

    /** The ArrayLogger objects among the loaded handlers. */
    ghost function Loggers(): set<ArrayLogger>
      reads this
    {
      ArrayObjects(instances)
    }

    ghost predicate Valid()
      reads this
    {
      && Distinct(order)
      && (forall k :: k in config <==> k in order)
      && instances.Keys <= config.Keys
      && InstancesValid(instances)
    }

    ghost function Views(): map<string, SinkView>
      requires Valid()
      reads this, Loggers()
    {
      ViewsOf(instances)
    }

    /** The registry as a value. */
    ghost function State(): (g: Registry)
      requires Valid()
      reads this, Loggers()
      ensures Coherent(g)
    {
      Registry(config, order, Views())
    }

    constructor()
      ensures Valid() && State() == Registry(map[], [], map[])
    {
      config, order, instances := map[], [], map[];
    }

    method SetConfig(key: string, options: Options) returns (r: Result<()>)
      requires Valid()
      modifies this
      ensures Valid() && instances == old(instances)
      ensures var s := SetConfigSpec(old(State()), key, options);
        (r.Err? <==> s.Err?) && (r.Err? ==> r.error == s.error && State() == old(State()))
        && (r.Ok? ==> State() == s.value)
    {
      if key in config {
        return Err(ConfigExists(key));
      }
      ghost var g := State();
      SetConfigKeepsCoherent(g, key, options);
      config := config[key := options];
      order := order + [key];
      ViewsUnchanged(instances);
      assert Views() == g.loaded;
      r := Ok(());
    }

    /** getConfig(): every stored config. */
    function GetConfig(): (r: map<string, Options>)
      reads this
      ensures forall k :: k in r <==> k in config
      ensures forall k :: k in r ==> r[k] == config[k]
    {
      config
    }

    /** getConfig($key): the stored options, or null. */
    function GetConfigKey(key: string): (r: Option<Options>)
      reads this
      ensures r.Some? <==> key in config
      ensures r.Some? ==> r.value == config[key]
    {
      if key in config then Some(config[key]) else None
    }

    /** hasConfig: whether getConfig($key) would return options rather than null. */
    predicate HasConfig(key: string)
      reads this
      ensures HasConfig(key) <==> GetConfigKey(key).Some?
    {
      key in config
    }

    /** isLoaded: whether the registry holds a handler for the key; only configured keys can have one. */
    predicate IsLoaded(key: string)
      reads this, Loggers()
      ensures Valid() ==> (IsLoaded(key) <==> key in State().loaded)
      ensures Valid() && IsLoaded(key) ==> HasConfig(key)
    {
      key in instances
    }

    method Unload(key: string)
      requires Valid()
      modifies this
      ensures Valid() && State() == UnloadSpec(old(State()), key)
      ensures !HasConfig(key) && !IsLoaded(key)
    {
      ghost var g := State();
      UnloadKeepsCoherent(g, key);
      ViewsOfRemove(instances, key);
      var rest := instances - {key};
      assert ViewsOf(rest) == g.loaded - {key};
      instances := rest;
      config := config - {key};
      order := Without(order, key);
      assert Views() == g.loaded - {key};
    }

    method Clear()
      modifies this
      ensures Valid() && State() == Registry(map[], [], map[])
    {
      config, order, instances := map[], [], map[];
    }

    /** use: build the handler for the key on first use and keep it. */
    method Use(key: string, amb: Ambient) returns (r: Result<Sink>)
      requires Valid()
      modifies this
      ensures Valid() && config == old(config) && order == old(order)
      ensures var u := UseSpec(old(State()), key, amb.cli);
        && State() == u.registry
        && (r.Err? <==> u.result.Err?)
        && (r.Err? ==> r.error == u.result.error)
        && (r.Ok? ==> key in instances && instances[key] == r.value && u.result.value == ViewOf(r.value))
      ensures key in old(instances) ==> r == Ok(old(instances)[key]) && instances == old(instances)
      ensures forall a :: a in Loggers() ==> a in old(Loggers()) || fresh(a)
    {
      if key in instances {
        UseSpecCached(State(), key, amb.cli);
        return Ok(instances[key]);
      }
      UseSpecLoads(State(), key, amb.cli);
      r := Load(key, amb);
    }

    /** load: build the handler for a key that is not loaded yet, and keep it when the build succeeds. */
    method Load(key: string, amb: Ambient) returns (r: Result<Sink>)
      requires Valid() && key !in instances
      modifies this
      ensures Valid() && config == old(config) && order == old(order)
      ensures r.Err? ==> BuildView(OptionsFor(config, key), amb.cli) == Err(r.error) && instances == old(instances)
      ensures r.Ok? ==> && SinkValid(r.value) && BuildView(OptionsFor(config, key), amb.cli) == Ok(ViewOf(r.value))
                        && instances == old(instances)[key := r.value]
                        && Views() == old(Views())[key := ViewOf(r.value)]
      ensures Loggers() == old(Loggers()) + (if r.Ok? then Footprint(r.value) else {})
      ensures r.Ok? ==> fresh(Footprint(r.value))
    {
      var built := Build(OptionsFor(config, key), amb);
      if built.Ok? {
        Attach(key, built.value);
      }
      r := built;
    }

    /** Keep a freshly built handler under its key. */
    method Attach(key: string, s: Sink)
      requires Valid() && key !in instances && key in config
      requires SinkValid(s) && (s.ArraySink? ==> s.a !in Loggers())
      modifies this
      ensures Valid() && config == old(config) && order == old(order)
      ensures instances == old(instances)[key := s]
      ensures Views() == old(Views())[key := ViewOf(s)]
      ensures Loggers() == old(Loggers()) + Footprint(s)
    {
      ViewsOfAdd(instances, key, s);
      instances := instances[key := s];
    }

    /** The walk so far, extended by the key at position i. */
    method Step(i: nat, ghost start: Outcome, level: string, message: string, scope: Value, amb: Ambient, store: FileStore)
      returns (err: Option<Failure>)
      requires Valid() && ScopeValue(scope) && LoadedValid(start.loaded) && i < |order|
      requires Dispatch(config, order[..i], start, level, message, scope, amb) == Outcome(None, Views(), store.files)
      modifies this, Loggers(), store
      ensures Valid() && config == old(config) && order == old(order)
      ensures Dispatch(config, order[..i + 1], start, level, message, scope, amb) == Outcome(err, Views(), store.files)
      ensures err.Some? ==> Dispatch(config, order, start, level, message, scope, amb) == Outcome(err, Views(), store.files)
      ensures forall a :: a in Loggers() ==> a in old(Loggers()) || fresh(a)
    {
      DispatchExtends(config, order, start, level, message, scope, amb, i);
      err := HandleKey(order[i], level, message, scope, amb, store);
      if err.Some? {
        DispatchStops(config, order, start, level, message, scope, amb, i + 1);
      }
    }

    /** One iteration of handle's loop. */
    method HandleKey(key: string, level: string, message: string, scope: Value, amb: Ambient, store: FileStore)
      returns (err: Option<Failure>)
      requires Valid() && ScopeValue(scope)
      modifies this, Loggers(), store
      ensures Valid() && config == old(config) && order == old(order)
      ensures Visit(config, key, Outcome(None, old(Views()), old(store.files)), level, message, scope, amb)
        == Outcome(err, Views(), store.files)
      ensures forall a :: a in Loggers() ==> a in old(Loggers()) || fresh(a)
    {
      if IntKey(key) {
        return Some(TypeError);
      }
      err := UseAndForward(key, level, message, scope, amb, store);
    }

    /** The iteration for a string key: use it, ask canHandle, and forward. */
    method UseAndForward(key: string, level: string, message: string, scope: Value, amb: Ambient, store: FileStore)
      returns (err: Option<Failure>)
      requires Valid() && ScopeValue(scope)
      modifies this, Loggers(), store
      ensures Valid() && config == old(config) && order == old(order)
      ensures UsedAndForwarded(config, key, Outcome(None, old(Views()), old(store.files)), level, message, scope, amb)
        == Outcome(err, Views(), store.files)
      ensures forall a :: a in Loggers() ==> a in old(Loggers()) || fresh(a)
    {
      ghost var l := Loading(config, Views(), key, amb.cli);
      ghost var files := store.files;
      var used := Use(key, amb);
      assert Views() == l.1;
      if used.Err? {
        return Some(used.error);
      }
      var sink := used.value;
      var admitted := match sink
        case ArraySink(a) => CanHandle(a.config, level, scope)
        case FileSink(f) => CanHandle(f.config, level, scope);
      err := None;
      if admitted {
        Forward(key, level, message, amb, store);
      }
      assert Outcome(None, Views(), store.files) == Forwarded(key, l.1, files, level, message, scope, amb);
    }

    /** Pass the message to the handler loaded under the key. */
    method Forward(key: string, level: string, message: string, amb: Ambient, store: FileStore)
      requires Valid() && key in instances
      modifies Footprint(instances[key]), store
      ensures Valid() && config == old(config) && order == old(order) && instances == old(instances)
      ensures var d := Deliver(old(Views())[key], level, message, amb, old(store.files));
        Views() == old(Views())[key := d.0] && store.files == d.1
    {
      match instances[key]
      case ArraySink(a) =>
        ForwardToArray(key, a, level, message, amb, store);
      case FileSink(f) =>
        ForwardToFile(key, f, level, message, amb, store);
    }

    method ForwardToArray(key: string, a: ArrayLogger, level: string, message: string, amb: Ambient, store: FileStore)
      requires Valid() && key in instances && instances[key] == ArraySink(a)
      modifies a
      ensures Valid() && config == old(config) && order == old(order) && instances == old(instances)
      ensures var d := Deliver(old(Views())[key], level, message, amb, old(store.files));
        Views() == old(Views())[key := d.0] && store.files == d.1
    {
      ghost var views := Views();
      assert Deliver(views[key], level, message, amb, store.files).0
        == ArrayView(a.config, a.content + [Entry(a.config, level, message, map[], amb)]);
      a.Handle(level, message, map[], amb);
      forall k | k in instances && k != key
        ensures views[k] == ViewOf(instances[k])
      {
        if instances[k].ArraySink? {
          assert instances[k].a in Loggers() - {a};
        }
      }
      ViewsAfterAppend(instances, key, a, views);
    }

    method ForwardToFile(key: string, f: FileLogger, level: string, message: string, amb: Ambient, store: FileStore)
      requires Valid() && key in instances && instances[key] == FileSink(f)
      modifies store
      ensures Valid() && config == old(config) && order == old(order) && instances == old(instances)
      ensures var d := Deliver(old(Views())[key], level, message, amb, old(store.files));
        Views() == old(Views())[key := d.0] && store.files == d.1
    {
      ghost var views := Views();
      assert Deliver(views[key], level, message, amb, store.files)
        == (views[key], HandleStep(f.config, f.path, level, message, store.files, amb));
      f.Handle(level, message, store, amb);
      assert unchanged(Loggers());
      ViewsUnchanged(instances);
      assert views[key := views[key]] == views;
    }

    /**
     * handle: refuse an unknown level, interpolate once, then walk the configs
     * in insertion order, loading each handler and forwarding to those that
     * admit the level and the scope.
     */
    method Handle(level: string, message: string, data: Options, scope: Value, amb: Ambient, store: FileStore)
      returns (r: Result<()>)
      requires Valid() && ScopeValue(scope)
      modifies this, Loggers(), store
      ensures Valid() && config == old(config) && order == old(order)
      ensures Handled(old(State()), old(store.files), level, message, data, scope, amb)
        == Outcome(if r.Ok? then None else Some(r.error), Views(), store.files)
    {
      if !IsLevel(level) {
        return Err(BadMethodCall);
      }
      var text := ManagerInterpolation.Interpolate(message, data, amb);
      if text.Err? {
        return Err(text.error);
      }
      r := Walk(level, text.value, scope, amb, store);
    }

    /** handle's loop: visit the configured keys in order, stopping at the first error. */
    method Walk(level: string, message: string, scope: Value, amb: Ambient, store: FileStore)
      returns (r: Result<()>)
      requires Valid() && ScopeValue(scope)
      modifies this, Loggers(), store
      ensures Valid() && config == old(config) && order == old(order)
      ensures Dispatch(old(config), old(order), Outcome(None, old(Views()), old(store.files)), level, message, scope, amb)
        == Outcome(if r.Ok? then None else Some(r.error), Views(), store.files)
    {
      ghost var start := Outcome(None, Views(), store.files);
      ghost var walked := start;
      Prefixes(order);
      var i := 0;
      while i < |order|
        invariant 0 <= i <= |order|
        invariant Valid() && config == old(config) && order == old(order)
        invariant walked == Outcome(None, Views(), store.files)
        invariant Dispatch(config, order[..i], start, level, message, scope, amb) == walked
        invariant forall a :: a in Loggers() ==> a in old(Loggers()) || fresh(a)
      {
        var err := Step(i, start, level, message, scope, amb, store);
        walked := Outcome(err, Views(), store.files);
        if err.Some? {
          return Err(err.value);
        }
        i := i + 1;
      }
      r := Ok(());
    }
  }
}

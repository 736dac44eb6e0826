/**
 * Log: the older static registry. Its two static arrays, the configs and the
 * loaded handlers, are the fields of one object standing for the class; the
 * handlers are built by the same closed table as LogManager's.
 */
module StaticLog {
  import opened Wrappers
  import opened Php
  import opened Environment
  import opened Levels
  import opened FileHandler
  import opened Sinks

  type Configs = map<string, Options>

  /**
   * setConfig($key, $options) for one key: options that are not an array or
   * null are refused at the call under strict types, null is an invalid
   * config, and an existing key is refused; otherwise the options are stored.
   */
  function Stored(config: Configs, key: string, options: Value): (r: Result<Configs>)
    ensures r.Ok? <==> options.VArray? && key !in config
    ensures r.Ok? ==> r.value == config[key := options.entries]
    ensures options.VNull? ==> r == Err(InvalidConfig(key))
    ensures options.VArray? && key in config ==> r == Err(ConfigExists(key))
    ensures !options.VNull? && !options.VArray? ==> r == Err(TypeError)
  {
    match options
    case VNull => Err(InvalidConfig(key))
    case VArray(entries) => if key in config then Err(ConfigExists(key)) else Ok(config[key := entries])
    case _ => Err(TypeError)
  }

  /**
   * One entry of setConfig($array). foreach gives back a key in the canonical
   * form of an integer as an int, and setConfig(string|array $key) refuses an
   * int with a TypeError under strict types; any other key is one setConfig.
   */
  function EntryStored(config: Configs, key: string, options: Value): (r: Result<Configs>)
    ensures r.Ok? <==> !IntKey(key) && options.VArray? && key !in config
    ensures IntKey(key) ==> r == Err(TypeError)
    ensures !IntKey(key) ==> r == Stored(config, key, options)
  {
    if IntKey(key) then Err(TypeError) else Stored(config, key, options)
  }

  /**
   * setConfig($array): one setConfig per entry, in order, stopping at the
   * first that throws; the entries before it stay stored.
   */
  function Batch(config: Configs, entries: seq<(string, Value)>): (r: (Option<Failure>, Configs))
    ensures config.Keys <= r.1.Keys
    ensures forall k :: k in config ==> r.1[k] == config[k]
  {
    if entries == [] then (None, config)
    else
      var n := |entries| - 1;
      var before := Batch(config, entries[..n]);
      if before.0.Some? then before
      else
        match EntryStored(before.1, entries[n].0, entries[n].1)
        case Err(e) => (Some(e), before.1)
        case Ok(c) => (None, c)
  }

  lemma BatchExtends(config: Configs, entries: seq<(string, Value)>, i: nat)
    requires i < |entries| && Batch(config, entries[..i]).0.None?
    ensures var before := Batch(config, entries[..i]).1;
      Batch(config, entries[..i + 1])
        == match EntryStored(before, entries[i].0, entries[i].1)
           case Err(e) => (Some(e), before)
           case Ok(c) => (None, c)
  {
    assert entries[..i + 1][..i] == entries[..i];
  }

  /** Once an entry has thrown, the later ones are not looked at. */
  lemma {:induction false} BatchStops(config: Configs, entries: seq<(string, Value)>, n: nat)
    requires 0 < n <= |entries| && Batch(config, entries[..n]).0.Some?
    ensures Batch(config, entries) == Batch(config, entries[..n])
    decreases |entries| - n
  {
    if n == |entries| {
      assert entries[..n] == entries;
    } else {
      assert entries[..n + 1][..n] == entries[..n];
      BatchStops(config, entries, n + 1);
    }
  }

  /** A batch that goes through had no integer key, and stores every entry's options under its key. */
  lemma {:induction false} BatchStoresAll(config: Configs, entries: seq<(string, Value)>)
    requires Batch(config, entries).0.None?
    ensures forall i :: 0 <= i < |entries| ==> !IntKey(entries[i].0)
    ensures forall i :: 0 <= i < |entries| ==>
      entries[i].1.VArray? && entries[i].0 in Batch(config, entries).1
      && Batch(config, entries).1[entries[i].0] == entries[i].1.entries
  {
    if entries != [] {
      var n := |entries| - 1;
      var before := Batch(config, entries[..n]);
      BatchStoresAll(config, entries[..n]);
      var after := Batch(config, entries).1;
      assert after == before.1[entries[n].0 := entries[n].1.entries];
      forall i | 0 <= i < |entries|
        ensures !IntKey(entries[i].0)
        ensures entries[i].1.VArray? && entries[i].0 in after && after[entries[i].0] == entries[i].1.entries
      {
        if i < n {
          assert entries[..n][i] == entries[i];
          assert entries[i].0 in before.1;
          assert entries[i].0 != entries[n].0;
        }
      }
    }
  }

  /**
   * When entry j throws after the entries before it went through, the batch
   * reports that error and keeps exactly what the earlier entries stored.
   */
  lemma BatchFailureKeepsEarlier(config: Configs, entries: seq<(string, Value)>, j: nat)
    requires j < |entries| && Batch(config, entries[..j]).0.None?
    requires EntryStored(Batch(config, entries[..j]).1, entries[j].0, entries[j].1).Err?
    ensures var before := Batch(config, entries[..j]).1;
      Batch(config, entries) == (Some(EntryStored(before, entries[j].0, entries[j].1).error), before)
    ensures forall i :: 0 <= i < j ==>
      && entries[i].1.VArray? && entries[i].0 in Batch(config, entries).1
      && Batch(config, entries).1[entries[i].0] == entries[i].1.entries
  {
    BatchExtends(config, entries, j);
    BatchStops(config, entries, j + 1);
    BatchStoresAll(config, entries[..j]);
    forall i | 0 <= i < j ensures entries[..j][i] == entries[i] {
    }
  }

  /** A batch whose first key is "0" raises TypeError and stores nothing, whatever follows. */
  lemma ZeroKeyBatchRefused(config: Configs, options: Value, rest: seq<(string, Value)>)
    ensures Batch(config, [("0", options)] + rest) == (Some(TypeError), config)
  {
    var entries := [("0", options)] + rest;
    assert IntKey("0");
    assert entries[..0] == [];
    BatchExtends(config, entries, 0);
    BatchStops(config, entries, 1);
  }

  /**
   * __callStatic: a name that is not one of the eight levels is a bad method
   * call; otherwise the rank log looks up for it.
   */
  function LevelOf(name: string): (r: Result<nat>)
    ensures r.Ok? <==> IsLevel(name)
    ensures r.Err? ==> r.error == BadMethodCall
    ensures r.Ok? ==> 1 <= r.value <= 8 && Names[r.value - 1] == name
  {
    match Rank(name)
    case None => Err(BadMethodCall)
    case Some(rank) => Ok(rank)
  }

  /** The static state of Log. */
  class Log {
    var config: Configs
    var instances: map<string, Sink>

    ghost predicate Valid()
      reads this
    {
      && instances.Keys <= config.Keys
      && (forall k :: k in instances ==> SinkValid(instances[k]))
    }

    constructor()
      ensures Valid() && config == map[] && instances == map[]
    {
      config, instances := map[], map[];
    }

    method SetConfig(key: string, options: Value) returns (r: Result<()>)
      requires Valid()
      modifies this
      ensures Valid() && instances == old(instances)
      ensures var s := Stored(old(config), key, options);
        && (r.Err? <==> s.Err?)
        && (r.Err? ==> r.error == s.error && config == old(config))
        && (r.Ok? ==> config == s.value)
    {
      if !options.VArray? && !options.VNull? {
        return Err(TypeError);
      }
      if !options.VArray? {
        return Err(InvalidConfig(key));
      }
      if key in config {
        return Err(ConfigExists(key));
      }
      config := config[key := options.entries];
      r := Ok(());
    }

    /** setConfig with an array of keys and options. */
    method SetConfigs(entries: seq<(string, Value)>) returns (r: Result<()>)
      requires Valid()
      modifies this
      ensures Valid() && instances == old(instances)
      ensures var b := Batch(old(config), entries);
        config == b.1 && (r.Err? <==> b.0.Some?) && (r.Err? ==> r.error == b.0.value)
    {
      var i := 0;
      while i < |entries|
        invariant 0 <= i <= |entries|
        invariant Valid() && instances == old(instances)
        invariant Batch(old(config), entries[..i]) == (None, config)
      {
        BatchExtends(old(config), entries, i);
        if IntKey(entries[i].0) {
          BatchStops(old(config), entries, i + 1);
          return Err(TypeError);
        }
        var one := SetConfig(entries[i].0, entries[i].1);
        if one.Err? {
          BatchStops(old(config), entries, i + 1);
          return one;
        }
        i := i + 1;
      }
      assert entries[..|entries|] == entries;
      r := Ok(());
    }

    /** unload: forget both the handler and the config of the key. */
    method Unload(key: string)
      requires Valid()
      modifies this
      ensures Valid()
      ensures config == old(config) - {key} && instances == old(instances) - {key}
      ensures key !in old(config) ==> config == old(config) && instances == old(instances)
    {
      instances := instances - {key};
      config := config - {key};
      if key !in old(config) {
        assert config == old(config);
        assert instances == old(instances);
      }
    }

    method Clear()
      modifies this
      ensures Valid() && config == map[] && instances == map[]
    {
      config, instances := map[], map[];
    }

    /**
     * use: the loaded handler for the key, or one loaded from its config (or
     * from no options at all) and kept.
     */
    method Use(key: string, amb: Ambient) returns (r: Result<Sink>)
      requires Valid()
      modifies this
      ensures Valid() && config == old(config)
      ensures key in old(instances) ==> r == Ok(old(instances)[key]) && instances == old(instances)
      ensures key !in old(instances) && r.Err? ==>
        BuildView(OptionsFor(config, key), amb.cli) == Err(r.error) && instances == old(instances)
      ensures key !in old(instances) && r.Ok? ==>
        && SinkValid(r.value) && fresh(Footprint(r.value))
        && BuildView(OptionsFor(config, key), amb.cli) == Ok(ViewOf(r.value))
        && instances == old(instances)[key := r.value]
    {
      if key in instances {
        return Ok(instances[key]);
      }
      if key !in config {
        UnconfiguredKeyFails(config, key, amb.cli);
      }
      r := Build(OptionsFor(config, key), amb);
      if r.Ok? {
        Keep(key, r.value);
      }
    }

    /** Keep a freshly loaded handler under its key. */
    method Keep(key: string, s: Sink)
      requires Valid() && key in config && SinkValid(s)
      modifies this
      ensures Valid() && config == old(config) && instances == old(instances)[key := s]
    {
      instances := instances[key := s];
    }
  }

  /** Using a key with no config fails: load finds no 'className'. */
  lemma UnconfiguredKeyFails(config: Configs, key: string, cli: bool)
    requires key !in config
    ensures BuildView(OptionsFor(config, key), cli) == Err(InvalidClass(""))
  {
  }
}

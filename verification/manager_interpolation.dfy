/**
 * LogManager::interpolate as it is written. It differs from Logger::interpolate
 * in one statement: when a name is missing from the data, the ambient value
 * for it is assigned to $data itself, so every later name is looked up in that
 * value (a superglobal, or null, on which array_key_exists raises TypeError).
 */
module ManagerInterpolation {
  import opened Wrappers
  import opened Php
  import opened Environment
  import opened Interpolation

  /**
   * LogManager's rendering of a data value: scalars by the string cast, the
   * rest by the JSON encoder. It differs from Logger's only on null.
   */
  function Render(v: Value, amb: Ambient): (r: string)
    ensures !v.VNull? ==> r == Interpolation.Render(v, amb)
    ensures v.VNull? ==> r == amb.encode(VNull)
  {
    if IsScalar(v) then ToStr(v) else amb.encode(v)
  }

  /** The loop state: the current $data and the replacement table so far. */
  datatype Table = Table(data: Value, entries: seq<(string, string)>)

  predicate Tokens(entries: seq<(string, string)>) {
    forall i :: 0 <= i < |entries| ==> IsToken(entries[i].0)
  }

  /** One iteration of the foreach loop, with the reassignment of $data. */
  function Step(k: string, t: Table, amb: Ambient): (r: Result<Table>)
    requires IsName(k) && Tokens(t.entries)
    ensures r.Err? <==> !t.data.VArray?
    ensures r.Ok? ==> Tokens(r.value.entries)
    ensures r.Ok? && k in t.data.entries ==> r.value.data == t.data
    ensures r.Ok? && k !in t.data.entries ==>
      r.value.data == (if k in Reserved then amb.context(k) else VNull)
  {
    TokenOfName(k);
    if !t.data.VArray? then Err(TypeError)
    else if k in t.data.entries then
      Ok(Table(t.data, t.entries + [(Token(k), Render(t.data.entries[k], amb))]))
    else
      var d := if k in Reserved then amb.context(k) else VNull;
      Ok(Table(d, if d.VNull? then t.entries else t.entries + [(Token(k), amb.encode(d))]))
  }

  /** The foreach loop over the names, stopping at the first TypeError. */
  function Fill(keys: seq<string>, data: Value, amb: Ambient): (r: Result<Table>)
    requires forall k :: k in keys ==> IsName(k)
    ensures r.Ok? ==> Tokens(r.value.entries)
    ensures r.Err? ==> r.error == TypeError
  {
    if keys == [] then Ok(Table(data, []))
    else
      var n := |keys| - 1;
      match Fill(keys[..n], data, amb)
      case Err(e) => Err(e)
      case Ok(t) => Step(keys[n], t, amb)
  }

  /**
   * The result of LogManager::interpolate: the message, or the TypeError it
   * raises. When every placeholder has a non-null value in the data, it is
   * what Logger::interpolate returns.
   */
  function InterpolatedAsWritten(message: string, data: Options, amb: Ambient): (r: Result<string>)
    ensures r.Err? ==> r.error == TypeError
    ensures (forall k :: k in Placeholders(message) ==> k in data && !data[k].VNull?) ==>
      r == Ok(Interpolated(message, data, amb))
  {
    if '{' !in message then Ok(message)
    else
      var keys := Unique(Placeholders(message));
      FillAgreesWhenPresent(keys, data, amb);
      match Fill(keys, VArray(data), amb)
      case Err(e) => Err(e)
      case Ok(t) => Ok(StrReplace(t.entries, message))
  }

  lemma FillAgreesWhenPresent(keys: seq<string>, data: Options, amb: Ambient)
    requires forall k :: k in keys ==> IsName(k)
    ensures (forall k :: k in keys ==> k in data && !data[k].VNull?) ==>
      Fill(keys, VArray(data), amb) == Ok(Table(VArray(data), Replacements(keys, data, amb)))
  {
    if forall k :: k in keys ==> k in data && !data[k].VNull? {
      FillAgreesWhileNothingIsMissing(keys, data, amb);
    }
  }

  /** LogManager::interpolate, loop by loop. */
  method Interpolate(message: string, data: Options, amb: Ambient) returns (r: Result<string>)
    ensures r == InterpolatedAsWritten(message, data, amb)
  {
    if '{' !in message {
      return Ok(message);
    }
    var keys := Unique(Placeholders(message));
    var table := FillTable(keys, data, amb);
    if table.Err? {
      return Err(table.error);
    }
    r := Ok(StrReplace(table.value.entries, message));
  }

  /** The foreach loop of LogManager::interpolate, with the reassignment of $data. */
  method FillTable(keys: seq<string>, data: Options, amb: Ambient) returns (r: Result<Table>)
    requires forall k :: k in keys ==> IsName(k)
    ensures r == Fill(keys, VArray(data), amb)
  {
    var current := VArray(data);
    var replacements: seq<(string, string)> := [];
    var i := 0;
    while i < |keys|
      invariant 0 <= i <= |keys|
      invariant Fill(keys[..i], VArray(data), amb) == Ok(Table(current, replacements))
    {
      var key := keys[i];
      FillExtends(keys, VArray(data), amb, i);
      ghost var before := Table(current, replacements);
      if !current.VArray? {
        FillStopsAtError(keys, VArray(data), amb, i + 1);
        return Err(TypeError);
      }
      if key in current.entries {
        replacements := replacements + [(Token(key), Render(current.entries[key], amb))];
      } else {
        current := if key in Reserved then amb.context(key) else VNull;
        if !current.VNull? {
          replacements := replacements + [(Token(key), amb.encode(current))];
        }
      }
      assert Step(key, before, amb) == Ok(Table(current, replacements));
      i := i + 1;
    }
    assert keys[..|keys|] == keys;
    r := Ok(Table(current, replacements));
  }

  lemma FillExtends(keys: seq<string>, data: Value, amb: Ambient, i: nat)
    requires forall k :: k in keys ==> IsName(k)
    requires i < |keys| && Fill(keys[..i], data, amb).Ok?
    ensures Fill(keys[..i + 1], data, amb) == Step(keys[i], Fill(keys[..i], data, amb).value, amb)
  {
    assert keys[..i + 1][..i] == keys[..i];
  }

  /** Once the loop has raised, the rest of the names do not matter. */
  lemma {:induction false} FillStopsAtError(keys: seq<string>, data: Value, amb: Ambient, n: nat)
    requires forall k :: k in keys ==> IsName(k)
    requires 0 < n <= |keys| && Fill(keys[..n], data, amb).Err?
    ensures Fill(keys, data, amb) == Fill(keys[..n], data, amb)
    decreases |keys| - n
  {
    if n < |keys| {
      assert keys[..n + 1][..n] == keys[..n];
      FillStopsAtError(keys, data, amb, n + 1);
    } else {
      assert keys[..n] == keys;
    }
  }

  /**
   * While every name is found in the data, $data is never reassigned and the
   * table is the one Logger::interpolate builds (up to the rendering of null).
   */
  lemma {:induction false} FillAgreesWhileNothingIsMissing(keys: seq<string>, data: Options, amb: Ambient)
    requires forall k :: k in keys ==> IsName(k) && k in data && !data[k].VNull?
    ensures Fill(keys, VArray(data), amb) == Ok(Table(VArray(data), Replacements(keys, data, amb)))
  {
    if keys != [] {
      var n := |keys| - 1;
      assert forall k :: k in keys[..n] ==> k in keys;
      FillAgreesWhileNothingIsMissing(keys[..n], data, amb);
    }
  }

  /** The first name missing from the data rebinds $data to its ambient value, or to null. */
  lemma MissingNameRebindsData(k: string, t: Table, amb: Ambient)
    requires IsName(k) && Tokens(t.entries) && t.data.VArray? && k !in t.data.entries
    requires k !in Reserved
    ensures Step(k, t, amb) == Ok(Table(VNull, t.entries))
    ensures forall k' :: IsName(k') ==> Step(k', Step(k, t, amb).value, amb) == Err(TypeError)
  {
  }

  // ---------------------------------------------------------------------------
  // The input that shows the difference

  /**
   * "{a} {b}" with data ['b' => 'x']: 'a' is missing and not reserved, so $data
   * becomes null and the lookup of 'b' raises TypeError, where Logger::interpolate
   * returns "{a} x".
   */
  lemma MissingNameThenPresentNameRaises(amb: Ambient)
    ensures InterpolatedAsWritten("{a} {b}", map["b" := VStr("x")], amb) == Err(TypeError)
    ensures Interpolated("{a} {b}", map["b" := VStr("x")], amb) == "{a} x"
  {
    var m, data := "{a} {b}", map["b" := VStr("x")];
    TwoNamesScan();
    TwoNamesUnique();
    TwoNamesFill(amb);
    assert m[0] == '{';
    TwoNamesTable(amb);
    InterpolatedVia(m, data, amb, ["a", "b"], [("{b}", "x")]);
    StrReplaceOne("{b}", "x", m);
    TwoNamesReplaceAll();
  }

  lemma TwoNamesScan()
    ensures Placeholders("{a} {b}") == ["a", "b"]
  {
    var s := "{a} {b}";
    assert RunFrom(s, 1) == 1;
    assert RunFrom(s, 5) == 1;
    assert MatchAt(s, 0) && NameAt(s, 0) == "a";
    assert MatchAt(s, 4) && NameAt(s, 4) == "b";
    assert Scan(s, 7) == [];
    assert Scan(s, 4) == ["b"];
    assert Scan(s, 3) == ["b"];
  }

  lemma TwoNamesUnique()
    ensures Unique(["a", "b"]) == ["a", "b"]
  {
    assert ["a", "b"][..1] == ["a"];
  }

  lemma TwoNamesFill(amb: Ambient)
    ensures Fill(["a", "b"], VArray(map["b" := VStr("x")]), amb) == Err(TypeError)
  {
    var data := VArray(map["b" := VStr("x")]);
    assert ["a", "b"][..1] == ["a"] && ["a"][..0] == [];
    assert "a" !in Reserved;
    assert Fill(["a"], data, amb) == Ok(Table(VNull, []));
  }

  lemma TwoNamesTable(amb: Ambient)
    ensures Replacements(["a", "b"], map["b" := VStr("x")], amb) == [("{b}", "x")]
  {
    var data := map["b" := VStr("x")];
    assert ["a", "b"][..1] == ["a"] && ["a"][..0] == [];
    assert "a" !in Reserved;
    assert Replacement("a", data, amb) == None;
    assert Replacements(["a"], data, amb) == [];
    assert Replacement("b", data, amb) == Some("x");
    assert Token("b") == "{b}";
  }

  lemma TwoNamesReplaceAll()
    ensures ReplaceAll("{a} {b}", "{b}", "x") == "{a} x"
  {
    assert ReplaceAll("{b}", "{b}", "x") == "x";
    assert ReplaceAll(" {b}", "{b}", "x") == " x";
    assert ReplaceAll("} {b}", "{b}", "x") == "} x";
    assert ReplaceAll("a} {b}", "{b}", "x") == "a} x";
  }
}

/**
 * Placeholder interpolation as Logger::interpolate performs it: a scanner for
 * the pattern (?<!\\){([\w-]+)}, array_unique over the names it finds, a
 * replacement table filled key by key, and str_replace with arrays, which
 * rewrites the whole message once per table entry, in table order.
 */
module Interpolation {
  import opened Wrappers
  import opened Php
  import opened Environment

  /** The characters of the class [\w-] (ASCII word characters and '-'). */
  predicate IsNameChar(c: char) {
    ('a' <= c <= 'z') || ('A' <= c <= 'Z') || ('0' <= c <= '9') || c == '_' || c == '-'
  }

  predicate IsName(k: string) {
    |k| > 0 && forall i :: 0 <= i < |k| ==> IsNameChar(k[i])
  }

  /** The literal text '{' + key + '}' that str_replace searches for. */
  function Token(k: string): string {
    "{" + k + "}"
  }

  /** Text of the shape {name}. */
  predicate IsToken(t: string) {
    |t| >= 3 && t[0] == '{' && t[|t| - 1] == '}' && IsName(t[1..|t| - 1])
  }

  /** The name inside a token. */
  function Inner(t: string): string
    requires |t| >= 2
  {
    t[1..|t| - 1]
  }

  lemma TokenOfName(k: string)
    requires IsName(k)
    ensures IsToken(Token(k)) && Inner(Token(k)) == k
  {
    assert Token(k)[1..|Token(k)| - 1] == k;
  }

  predicate OccursAt(s: string, t: string, p: nat) {
    p + |t| <= |s| && s[p..p + |t|] == t
  }

  /** The length of the longest run of name characters starting at i. */
  function RunFrom(s: string, i: nat): (n: nat)
    requires i <= |s|
    ensures i + n <= |s|
    ensures forall j :: i <= j < i + n ==> IsNameChar(s[j])
    ensures i + n == |s| || !IsNameChar(s[i + n])
    decreases |s| - i
  {
    if i < |s| && IsNameChar(s[i]) then 1 + RunFrom(s, i + 1) else 0
  }

  /**
   * Whether the pattern matches at i: a '{' not preceded by a backslash, one or
   * more name characters, then '}'. The greedy [\w-]+ can only be followed by
   * '}' at the end of the maximal run, so no backtracking is needed.
   */
  predicate MatchAt(s: string, i: nat)
    ensures MatchAt(s, i) ==>
      && i < |s| && (i == 0 || s[i - 1] != '\\')
      && exists k :: IsName(k) && OccursAt(s, Token(k), i)
    ensures forall k {:trigger OccursAt(s, Token(k), i)} :: IsName(k) && OccursAt(s, Token(k), i) && (i == 0 || s[i - 1] != '\\') ==> MatchAt(s, i)
  {
    if i < |s| && s[i] == '{' && (i == 0 || s[i - 1] != '\\') then
      var n := RunFrom(s, i + 1);
      if n > 0 && i + 1 + n < |s| && s[i + 1 + n] == '}' then
        var k := s[i + 1..i + 1 + n];
        assert s[i..i + 1 + n + 1] == [s[i]] + k + [s[i + 1 + n]];
        assert IsName(k) && OccursAt(s, Token(k), i);
        true
      else
        RunOfToken(s, i);
        false
    else
      RunOfToken(s, i);
      false
  }

  /** A token {k} at i makes the run after the brace exactly k, ended by '}'. */
  lemma RunOfToken(s: string, i: nat)
    ensures forall k {:trigger OccursAt(s, Token(k), i)} :: IsName(k) && OccursAt(s, Token(k), i) ==>
      i + 2 + |k| <= |s| && s[i] == '{' && RunFrom(s, i + 1) == |k| && s[i + 1 + |k|] == '}'
  {
    forall k | IsName(k) && OccursAt(s, Token(k), i)
      ensures i + 2 + |k| <= |s| && s[i] == '{' && RunFrom(s, i + 1) == |k| && s[i + 1 + |k|] == '}'
    {
      var t := Token(k);
      assert s[i..i + |t|] == t;
      assert s[i] == t[0];
      assert s[i + 1 + |k|] == t[|t| - 1];
      forall q | i + 1 <= q < i + 1 + |k| ensures IsNameChar(s[q]) {
        assert s[q] == t[q - i] == k[q - i - 1];
      }
      RunUntil(s, i + 1, i + 1 + |k|);
    }
  }

  lemma {:induction false} RunUntil(s: string, j: nat, e: nat)
    requires j <= e < |s| && !IsNameChar(s[e])
    requires forall q :: j <= q < e ==> IsNameChar(s[q])
    ensures RunFrom(s, j) == e - j
    decreases e - j
  {
    if j < e {
      RunUntil(s, j + 1, e);
    }
  }

  /** The name captured by a match at i. */
  function NameAt(s: string, i: nat): (k: string)
    requires MatchAt(s, i)
    ensures IsName(k) && OccursAt(s, Token(k), i)
  {
    var n := RunFrom(s, i + 1);
    var k := s[i + 1..i + 1 + n];
    assert s[i..i + 1 + n + 1] == [s[i]] + k + [s[i + 1 + n]];
    k
  }

  /**
   * The names preg_match_all captures from position i on, in order. Each
   * search resumes after the previous match.
   */
  function Scan(s: string, i: nat): (r: seq<string>)
    requires i <= |s|
    ensures forall k :: k in r ==> IsName(k)
    decreases |s| - i
  {
    if i == |s| then []
    else if MatchAt(s, i) then [NameAt(s, i)] + Scan(s, i + 2 + RunFrom(s, i + 1))
    else Scan(s, i + 1)
  }

  /** Every name the scan reports was captured by a match of the pattern. */
  lemma {:induction false} ScanOnlyMatches(s: string, i: nat, k: string)
    requires i <= |s| && k in Scan(s, i)
    ensures exists p :: i <= p < |s| && MatchAt(s, p) && NameAt(s, p) == k
    decreases |s| - i
  {
    if MatchAt(s, i) {
      if k != NameAt(s, i) {
        ScanOnlyMatches(s, i + 2 + RunFrom(s, i + 1), k);
      }
    } else {
      ScanOnlyMatches(s, i + 1, k);
    }
  }

  /** Every match of the pattern from position i on is reported by the scan. */
  lemma {:induction false} ScanFindsEveryMatch(s: string, i: nat, p: nat)
    requires i <= p < |s| && MatchAt(s, p)
    ensures NameAt(s, p) in Scan(s, i)
    decreases |s| - i
  {
    if p == i {
    } else if MatchAt(s, i) {
      var n := RunFrom(s, i + 1);
      if p < i + 2 + n {
        assert false;
      }
      ScanFindsEveryMatch(s, i + 2 + n, p);
    } else {
      ScanFindsEveryMatch(s, i + 1, p);
    }
  }

  /**
   * The placeholder names of a message, with repetitions, in order of
   * appearance: exactly the names the pattern captures somewhere in it.
   */
  function Placeholders(s: string): (r: seq<string>)
    ensures forall k :: k in r <==> exists p :: 0 <= p < |s| && MatchAt(s, p) && NameAt(s, p) == k
  {
    ScanIsMatches(s);
    Scan(s, 0)
  }

  lemma ScanIsMatches(s: string)
    ensures forall k :: k in Scan(s, 0) <==> exists p :: 0 <= p < |s| && MatchAt(s, p) && NameAt(s, p) == k
  {
    forall k | k in Scan(s, 0)
      ensures exists p :: 0 <= p < |s| && MatchAt(s, p) && NameAt(s, p) == k
    {
      ScanOnlyMatches(s, 0, k);
    }
    forall p | 0 <= p < |s| && MatchAt(s, p)
      ensures NameAt(s, p) in Scan(s, 0)
    {
      ScanFindsEveryMatch(s, 0, p);
    }
  }

  /** The position of the first occurrence of x in xs. */
  function FirstIndex(xs: seq<string>, x: string): (r: nat)
    requires x in xs
    ensures r < |xs| && xs[r] == x
    ensures forall j :: 0 <= j < r ==> xs[j] != x
  {
    if xs[0] == x then 0 else 1 + FirstIndex(xs[1..], x)
  }

  lemma FirstIndexInPrefix(xs: seq<string>, n: nat, x: string)
    requires n <= |xs| && x in xs[..n]
    ensures FirstIndex(xs, x) == FirstIndex(xs[..n], x)
  {
    var a, b := FirstIndex(xs, x), FirstIndex(xs[..n], x);
    assert xs[b] == x;
    assert a <= b;
    assert xs[..n][a] == x;
  }

  /**
   * array_unique: every name once, at the place of its first appearance,
   * in order of first appearance.
   */
  function Unique(xs: seq<string>): (r: seq<string>)
    ensures forall x :: x in r <==> x in xs
    ensures forall a, b :: 0 <= a < b < |r| ==> r[a] != r[b]
    ensures forall a, b :: 0 <= a < b < |r| ==> FirstIndex(xs, r[a]) < FirstIndex(xs, r[b])
  {
    if xs == [] then []
    else
      var n := |xs| - 1;
      var u := Unique(xs[..n]);
      forall x | x in u ensures FirstIndex(xs, x) == FirstIndex(xs[..n], x) && FirstIndex(xs, x) < n {
        FirstIndexInPrefix(xs, n, x);
      }
      if xs[n] in u then
        assert xs == xs[..n] + [xs[n]];
        u
      else
        assert xs[n] !in xs[..n];
        assert FirstIndex(xs, xs[n]) == n;
        u + [xs[n]]
  }

  /**
   * How Logger::interpolate renders a value found in the data: scalars by the
   * string cast, arrays by the JSON encoder, anything else as an
   * "[unhandled type ...]" marker (here only null reaches that branch).
   */
  function Render(v: Value, amb: Ambient): (r: string)
    ensures IsScalar(v) ==> r == ToStr(v)
    ensures v.VNull? ==> r == "[unhandled type null]"
  {
    match v
    case VNull => "[unhandled type null]"
    case VArray(_) => amb.encode(v)
    case _ => ToStr(v)
  }

  /**
   * The replacement for one name: the rendered data value when the data has
   * the key; else, for a reserved name whose ambient value is not null, that
   * value encoded; else none, and the placeholder stays as it is.
   */
  function Replacement(k: string, data: Options, amb: Ambient): (r: Option<string>)
    ensures k in data ==> r == Some(Render(data[k], amb))
    ensures k !in data && k !in Reserved ==> r.None?
  {
    if k in data then Some(Render(data[k], amb))
    else if k in Reserved && !amb.context(k).VNull? then Some(amb.encode(amb.context(k)))
    else None
  }

  /**
   * The $replacements table built by the foreach loop: one (token, text) entry
   * per name that has a replacement, in the order of the names.
   */
  function Replacements(keys: seq<string>, data: Options, amb: Ambient): (r: seq<(string, string)>)
    requires forall k :: k in keys ==> IsName(k)
    ensures forall i :: 0 <= i < |r| ==>
      IsToken(r[i].0) && Inner(r[i].0) in keys && Replacement(Inner(r[i].0), data, amb) == Some(r[i].1)
    ensures forall k :: k in keys && Replacement(k, data, amb).Some? ==>
      (Token(k), Replacement(k, data, amb).value) in r
  {
    if keys == [] then []
    else
      var n := |keys| - 1;
      var k := keys[n];
      var earlier := Replacements(keys[..n], data, amb);
      assert keys == keys[..n] + [k];
      TokenOfName(k);
      match Replacement(k, data, amb)
      case None => earlier
      case Some(text) => earlier + [(Token(k), text)]
  }

  /** One more name adds its entry, if it has a replacement, at the end of the table. */
  lemma ReplacementsExtends(keys: seq<string>, data: Options, amb: Ambient, i: nat)
    requires forall k :: k in keys ==> IsName(k)
    requires i < |keys|
    ensures Replacements(keys[..i + 1], data, amb)
      == Replacements(keys[..i], data, amb)
         + match Replacement(keys[i], data, amb) case None => [] case Some(text) => [(Token(keys[i]), text)]
  {
    assert keys[..i + 1][..i] == keys[..i];
  }

  /**
   * Replace every non-overlapping occurrence of p in s, scanning left to
   * right. Replacing p by itself gives the text back.
   */
  function ReplaceAll(s: string, p: string, r: string): (out: string)
    requires |p| > 0
    ensures r == p ==> out == s
    decreases |s|
  {
    if |s| < |p| then s
    else if s[..|p|] == p then
      assert s[..|p|] + s[|p|..] == s;
      r + ReplaceAll(s[|p|..], p, r)
    else
      assert [s[0]] + s[1..] == s;
      [s[0]] + ReplaceAll(s[1..], p, r)
  }

  /**
   * str_replace with arrays: one ReplaceAll per entry, each on the previous
   * result. A table whose every entry maps a token to itself changes nothing.
   */
  function StrReplace(reps: seq<(string, string)>, s: string): (r: string)
    requires forall i :: 0 <= i < |reps| ==> IsToken(reps[i].0)
    ensures (forall i :: 0 <= i < |reps| ==> reps[i].1 == reps[i].0) ==> r == s
  {
    if reps == [] then s
    else
      assert IsToken(reps[0].0);
      StrReplace(reps[1..], ReplaceAll(s, reps[0].0, reps[0].1))
  }

  /** The result of Logger::interpolate: a message without placeholders comes back as it is. */
  function Interpolated(message: string, data: Options, amb: Ambient): (r: string)
    ensures Placeholders(message) == [] ==> r == message
  {
    if '{' !in message then message
    else StrReplace(Replacements(Unique(Placeholders(message)), data, amb), message)
  }

  /** Logger::interpolate: the fast path, then the foreach loop over the names, then str_replace. */
  method Interpolate(message: string, data: Options, amb: Ambient) returns (r: string)
    ensures r == Interpolated(message, data, amb)
  {
    if '{' !in message {
      return message;
    }
    var keys := Unique(Placeholders(message));
    var replacements: seq<(string, string)> := [];
    var i := 0;
    while i < |keys|
      invariant 0 <= i <= |keys|
      invariant replacements == Replacements(keys[..i], data, amb)
    {
      var key := keys[i];
      ReplacementsExtends(keys, data, amb, i);
      if key in data {
        replacements := replacements + [(Token(key), Render(data[key], amb))];
      } else {
        var value := if key in Reserved then amb.context(key) else VNull;
        if !value.VNull? {
          replacements := replacements + [(Token(key), amb.encode(value))];
        }
      }
      i := i + 1;
    }
    assert keys[..|keys|] == keys;
    r := StrReplace(replacements, message);
  }

  // ---------------------------------------------------------------------------
  // What the sequential replace-all keeps and what it replaces

  /** Copying a stretch without '{' leaves ReplaceAll with nothing to match there. */
  lemma {:induction false} ReplaceAllCopies(s: string, p: string, r: string, n: nat)
    requires IsToken(p) && n <= |s|
    requires forall q :: 0 <= q < n ==> s[q] != '{'
    ensures ReplaceAll(s, p, r) == s[..n] + ReplaceAll(s[n..], p, r)
  {
    if n > 0 {
      Halves(s, n);
      if |s| < |p| {
        assert |s[n..]| < |p|;
      } else {
        assert s[..|p|][0] != p[0];
        ReplaceAllCopies(s[1..], p, r, n - 1);
        FrontSplit(s, n - 1, ReplaceAll(s[n..], p, r));
      }
    }
  }

  lemma Halves(s: string, n: nat)
    requires 0 < n <= |s|
    ensures s[..n] + s[n..] == s && s[1..][n - 1..] == s[n..]
  {
  }

  /** Inside a token, '{' appears only at the start. */
  lemma NoBraceInsideToken(t: string, q: nat)
    requires IsToken(t) && 0 < q < |t|
    ensures t[q] != '{'
    ensures q < |t| - 1 ==> t[q] != '}'
  {
    if q < |t| - 1 {
      assert t[q] == Inner(t)[q - 1];
    }
  }

  /** A token that starts inside an occurrence of another token is that token. */
  lemma OverlapAtStart(s: string, p: string, t: string, i: nat)
    requires IsToken(p) && IsToken(t) && OccursAt(s, p, 0) && OccursAt(s, t, i) && i < |p|
    ensures i == 0 && p == t
  {
    assert s[i] == t[0] by { assert s[i..i + |t|][0] == s[i]; }
    assert s[i] == p[i] by { assert s[..|p|][i] == s[i]; }
    if i > 0 {
      NoBraceInsideToken(p, i);
      assert false;
    }
    if |p| < |t| {
      assert t[|p| - 1] == s[|p| - 1] by { assert s[..|t|][|p| - 1] == s[|p| - 1]; }
      assert p[|p| - 1] == s[|p| - 1] by { assert s[..|p|][|p| - 1] == s[|p| - 1]; }
      NoBraceInsideToken(t, |p| - 1);
      assert false;
    }
    if |t| < |p| {
      assert t[|t| - 1] == s[|t| - 1] by { assert s[..|t|][|t| - 1] == s[|t| - 1]; }
      assert p[|t| - 1] == s[|t| - 1] by { assert s[..|p|][|t| - 1] == s[|t| - 1]; }
      NoBraceInsideToken(p, |t| - 1);
      assert false;
    }
    assert p == s[..|p|] == t;
  }

  lemma ShiftOccurs(pre: string, x: string, t: string, j: nat)
    requires OccursAt(x, t, j)
    ensures OccursAt(pre + x, t, |pre| + j)
  {
    assert (pre + x)[|pre| + j..|pre| + j + |t|] == x[j..j + |t|];
  }

  /** A token other than the pattern survives one ReplaceAll. */
  lemma {:induction false} ReplaceAllKeepsToken(s: string, p: string, r: string, t: string, i: nat)
    requires IsToken(p) && IsToken(t) && p != t && OccursAt(s, t, i)
    ensures exists j :: OccursAt(ReplaceAll(s, p, r), t, j)
    decreases |s|
  {
    if |s| < |p| {
      assert OccursAt(ReplaceAll(s, p, r), t, i);
    } else if s[..|p|] == p {
      if i < |p| {
        OverlapAtStart(s, p, t, i);
        assert false;
      } else {
        var rest := s[|p|..];
        assert rest[i - |p|..i - |p| + |t|] == s[i..i + |t|];
        ReplaceAllKeepsToken(rest, p, r, t, i - |p|);
        var j: nat :| OccursAt(ReplaceAll(rest, p, r), t, j);
        ShiftOccurs(r, ReplaceAll(rest, p, r), t, j);
        assert ReplaceAll(s, p, r) == r + ReplaceAll(rest, p, r);
        assert OccursAt(ReplaceAll(s, p, r), t, |r| + j);
      }
    } else {
      var rest := s[1..];
      if i > 0 {
        assert rest[i - 1..i - 1 + |t|] == s[i..i + |t|];
        ReplaceAllKeepsToken(rest, p, r, t, i - 1);
        var j: nat :| OccursAt(ReplaceAll(rest, p, r), t, j);
        ShiftOccurs([s[0]], ReplaceAll(rest, p, r), t, j);
        assert ReplaceAll(s, p, r) == [s[0]] + ReplaceAll(rest, p, r);
        assert OccursAt(ReplaceAll(s, p, r), t, 1 + j);
      } else {
        KeepsTokenAtFront(s, p, r, t);
      }
    }
  }

  /** A token at the very front, where the pattern does not match, is copied through. */
  lemma KeepsTokenAtFront(s: string, p: string, r: string, t: string)
    requires IsToken(p) && IsToken(t) && OccursAt(s, t, 0) && |s| >= |p| && s[..|p|] != p
    ensures OccursAt(ReplaceAll(s, p, r), t, 0)
  {
    var n := |t| - 1;
    NoBraceAfterFront(s, t);
    ReplaceAllCopies(s[1..], p, r, n);
    var tail := ReplaceAll(s[1..][n..], p, r);
    assert ReplaceAll(s, p, r) == [s[0]] + (s[1..][..n] + tail);
    FrontSplit(s, n, tail);
    assert s[..n + 1] == t;
    PrefixOccurs(t, tail);
  }

  lemma NoBraceAfterFront(s: string, t: string)
    requires IsToken(t) && OccursAt(s, t, 0)
    ensures forall q :: 0 <= q < |t| - 1 ==> s[1..][q] != '{'
  {
    forall q | 0 <= q < |t| - 1 ensures s[1..][q] != '{' {
      assert s[1..][q] == s[..|t|][q + 1];
      NoBraceInsideToken(t, q + 1);
    }
  }

  lemma FrontSplit(s: string, n: nat, tail: string)
    requires n < |s|
    ensures [s[0]] + (s[1..][..n] + tail) == s[..n + 1] + tail
  {
    assert [s[0]] + s[1..][..n] == s[..n + 1];
  }

  lemma PrefixOccurs(t: string, tail: string)
    ensures OccursAt(t + tail, t, 0)
  {
    assert (t + tail)[..|t|] == t;
  }


  /** A token that is no entry's pattern survives the whole str_replace. */
  lemma {:induction false} StrReplaceKeepsToken(reps: seq<(string, string)>, s: string, t: string, i: nat)
    requires forall k :: 0 <= k < |reps| ==> IsToken(reps[k].0) && reps[k].0 != t
    requires IsToken(t) && OccursAt(s, t, i)
    ensures exists j :: OccursAt(StrReplace(reps, s), t, j)
    decreases |reps|
  {
    if reps == [] {
      assert OccursAt(StrReplace(reps, s), t, i);
    } else {
      var once := ReplaceAll(s, reps[0].0, reps[0].1);
      ReplaceAllKeepsToken(s, reps[0].0, reps[0].1, t, i);
      var j: nat :| OccursAt(once, t, j);
      StrReplaceKeepsToken(reps[1..], once, t, j);
      var j': nat :| OccursAt(StrReplace(reps[1..], once), t, j');
      assert StrReplace(reps, s) == StrReplace(reps[1..], once);
      assert OccursAt(StrReplace(reps, s), t, j');
    }
  }

  /** A leading stretch without '{' passes through one replace-all unchanged. */
  lemma ReplaceAllFront(c: string, p: string, r: string, s: string)
    requires IsToken(p) && '{' !in c
    ensures ReplaceAll(c + s, p, r) == c + ReplaceAll(s, p, r)
  {
    var t := c + s;
    forall q | 0 <= q < |c| ensures t[q] != '{' {
      assert t[q] == c[q] && c[q] in c;
    }
    ReplaceAllCopies(t, p, r, |c|);
    assert t[..|c|] == c && t[|c|..] == s;
  }

  /** An occurrence of the pattern after a stretch without '{' becomes the replacement. */
  lemma ReplacesOccurrence(a: string, p: string, r: string, b: string)
    requires IsToken(p) && '{' !in a
    ensures ReplaceAll(a + p + b, p, r) == a + r + ReplaceAll(b, p, r)
  {
    assert a + p + b == a + (p + b);
    ReplaceAllFront(a, p, r, p + b);
    assert (p + b)[..|p|] == p && (p + b)[|p|..] == b;
  }

  /** Text in which the pattern occurs nowhere comes back unchanged. */
  lemma {:induction false} AbsentUnchanged(s: string, p: string, r: string)
    requires |p| > 0 && forall i: nat :: !OccursAt(s, p, i)
    ensures ReplaceAll(s, p, r) == s
    decreases |s|
  {
    if |s| >= |p| {
      assert !OccursAt(s, p, 0);
      forall i: nat ensures !OccursAt(s[1..], p, i) {
        assert !OccursAt(s, p, i + 1);
        if i + |p| <= |s| - 1 {
          assert s[1..][i..i + |p|] == s[i + 1..i + 1 + |p|];
        }
      }
      AbsentUnchanged(s[1..], p, r);
      assert [s[0]] + s[1..] == s;
    }
  }

  /** A token at the front that is not the pattern is copied through whole. */
  lemma TokenPassesThrough(t: string, p: string, r: string, b: string)
    requires IsToken(t) && IsToken(p) && t != p
    ensures ReplaceAll(t + b, p, r) == t + ReplaceAll(b, p, r)
  {
    var s := t + b;
    PrefixOccurs(t, b);
    if |s| < |p| {
      assert ReplaceAll(b, p, r) == b;
    } else {
      if s[..|p|] == p {
        OverlapAtStart(s, p, t, 0);
        assert false;
      }
      var n := |t| - 1;
      NoBraceAfterFront(s, t);
      ReplaceAllCopies(s[1..], p, r, n);
      assert s[1..][n..] == b;
      FrontSplit(s, n, ReplaceAll(b, p, r));
      assert s[..n + 1] == t;
    }
  }

  /** A leading stretch without '{' passes through the whole str_replace unchanged. */
  lemma {:induction false} StrReplaceCopies(reps: seq<(string, string)>, c: string, s: string)
    requires forall i :: 0 <= i < |reps| ==> IsToken(reps[i].0)
    requires '{' !in c
    ensures StrReplace(reps, c + s) == c + StrReplace(reps, s)
    decreases |reps|
  {
    if reps != [] {
      ReplaceAllFront(c, reps[0].0, reps[0].1, s);
      StrReplaceCopies(reps[1..], c, ReplaceAll(s, reps[0].0, reps[0].1));
    }
  }

  /**
   * A message that starts with {k}, put through a table that maps {k} to v
   * (v without '{'), starts with v: the entries before that one leave the
   * token in place, and the later ones cannot reach into v.
   */
  lemma {:induction false} StrReplaceTokenFirst(reps: seq<(string, string)>, k: string, v: string, b: string)
    requires forall i :: 0 <= i < |reps| ==> IsToken(reps[i].0)
    requires IsName(k) && (Token(k), v) in reps && '{' !in v
    requires forall i :: 0 <= i < |reps| && reps[i].0 == Token(k) ==> reps[i].1 == v
    ensures |v| <= |StrReplace(reps, Token(k) + b)| && StrReplace(reps, Token(k) + b)[..|v|] == v
    decreases |reps|
  {
    TokenOfName(k);
    var p, r := reps[0].0, reps[0].1;
    if p == Token(k) {
      ReplacesOccurrence([], p, r, b);
      assert [] + p + b == Token(k) + b;
      StrReplaceCopies(reps[1..], v, ReplaceAll(b, p, r));
    } else {
      TokenPassesThrough(Token(k), p, r, b);
      StrReplaceTokenFirst(reps[1..], k, v, ReplaceAll(b, p, r));
    }
  }

  // ---------------------------------------------------------------------------
  // Properties of Logger::interpolate

  /**
   * A placeholder whose name is neither in the data nor a reserved name with
   * an ambient value is left verbatim: its {name} is still in the output.
   */
  lemma UnknownPlaceholderKept(message: string, data: Options, amb: Ambient, p: nat)
    requires MatchAt(message, p)
    requires NameAt(message, p) !in data
    requires NameAt(message, p) !in Reserved || amb.context(NameAt(message, p)).VNull?
    ensures exists j :: OccursAt(Interpolated(message, data, amb), Token(NameAt(message, p)), j)
  {
    var k := NameAt(message, p);
    assert message[p] == '{';
    var keys := Unique(Placeholders(message));
    var reps := Replacements(keys, data, amb);
    NoEntryFor(keys, data, amb, k);
    TokenOfName(k);
    StrReplaceKeepsToken(reps, message, Token(k), p);
    var j: nat :| OccursAt(StrReplace(reps, message), Token(k), j);
    assert Interpolated(message, data, amb) == StrReplace(reps, message);
    assert OccursAt(Interpolated(message, data, amb), Token(k), j);
  }

  /** A name without a replacement has no entry in the table. */
  lemma NoEntryFor(keys: seq<string>, data: Options, amb: Ambient, k: string)
    requires forall x :: x in keys ==> IsName(x)
    requires IsName(k) && Replacement(k, data, amb).None?
    ensures forall e :: 0 <= e < |Replacements(keys, data, amb)| ==>
      IsToken(Replacements(keys, data, amb)[e].0) && Replacements(keys, data, amb)[e].0 != Token(k)
  {
    var reps := Replacements(keys, data, amb);
    TokenOfName(k);
    forall e | 0 <= e < |reps| ensures reps[e].0 != Token(k) {
      assert Replacement(Inner(reps[e].0), data, amb).Some?;
    }
  }

  /** A message without '{' has no placeholders, and interpolation returns it unchanged. */
  lemma NoBraceUnchanged(message: string, data: Options, amb: Ambient)
    requires '{' !in message
    ensures Placeholders(message) == []
    ensures Interpolated(message, data, amb) == message
  {
    ScanWithoutBrace(message, 0);
  }

  lemma {:induction false} ScanWithoutBrace(s: string, i: nat)
    requires i <= |s| && '{' !in s
    ensures Scan(s, i) == []
    decreases |s| - i
  {
    if i < |s| {
      assert s[i] in s;
      ScanWithoutBrace(s, i + 1);
    }
  }

  /** When no name has a replacement, the message comes back unchanged. */
  lemma NothingToReplaceUnchanged(message: string, data: Options, amb: Ambient)
    requires forall k :: k in Placeholders(message) ==> Replacement(k, data, amb).None?
    ensures Interpolated(message, data, amb) == message
  {
  }

  /**
   * Every placeholder the pattern matches whose name is in the data has its
   * token, paired with the rendered value, in the replacement table.
   */
  lemma EntryForEveryReplacedName(message: string, data: Options, amb: Ambient, p: nat)
    requires MatchAt(message, p) && NameAt(message, p) in data
    ensures (Token(NameAt(message, p)), Render(data[NameAt(message, p)], amb))
      in Replacements(Unique(Placeholders(message)), data, amb)
  {
    ScanFindsEveryMatch(message, 0, p);
  }

  /** Two names whose tokens occur at the same position are the same name. */
  lemma SameNameAt(s: string, i: nat, k1: string, k2: string)
    requires IsName(k1) && IsName(k2) && OccursAt(s, Token(k1), i) && OccursAt(s, Token(k2), i)
    ensures k1 == k2
  {
    RunOfToken(s, i);
    assert Token(k1) == s[i..i + |Token(k1)|] == Token(k2);
    TokenOfName(k1);
    TokenOfName(k2);
  }

  /**
   * A placeholder whose name is in the data, after text without '{' and not
   * escaped, is replaced by the rendered value: when that value holds no '{'
   * for a later entry to rewrite, the output starts with the text and the value.
   */
  lemma PresentPlaceholderReplaced(a: string, k: string, b: string, data: Options, amb: Ambient)
    requires IsName(k) && k in data && '{' !in a && (a == [] || a[|a| - 1] != '\\')
    requires '{' !in Render(data[k], amb)
    ensures var out, v := Interpolated(a + Token(k) + b, data, amb), Render(data[k], amb);
      |a| + |v| <= |out| && out[..|a| + |v|] == a + v
  {
    var m := a + Token(k) + b;
    var keys := Unique(Placeholders(m));
    var reps := Replacements(keys, data, amb);
    PlaceholderHasEntry(a, k, b, data, amb);
    EntriesAgree(keys, data, amb, k);
    InterpolatedVia(m, data, amb, keys, reps);
    var v, x := Render(data[k], amb), StrReplace(reps, Token(k) + b);
    Regroup(a, Token(k), b);
    StrReplaceCopies(reps, a, Token(k) + b);
    StrReplaceTokenFirst(reps, k, v, b);
    PrefixJoin(a, x, v);
  }

  lemma Regroup(a: string, t: string, b: string)
    ensures a + t + b == a + (t + b)
  {
  }

  lemma PrefixJoin(a: string, x: string, v: string)
    requires |v| <= |x| && x[..|v|] == v
    ensures |a| + |v| <= |a + x| && (a + x)[..|a| + |v|] == a + v
  {
    assert (a + x)[..|a| + |v|] == a + x[..|v|];
  }

  /** The placeholder {k} after unescaped text without '{' is matched, so its entry is in the table. */
  lemma PlaceholderHasEntry(a: string, k: string, b: string, data: Options, amb: Ambient)
    requires IsName(k) && k in data && '{' !in a && (a == [] || a[|a| - 1] != '\\')
    ensures var m := a + Token(k) + b;
      '{' in m && (Token(k), Render(data[k], amb)) in Replacements(Unique(Placeholders(m)), data, amb)
  {
    var m := a + Token(k) + b;
    assert OccursAt(m, Token(k), |a|) by {
      assert m[|a|..|a| + |Token(k)|] == Token(k);
    }
    assert |a| == 0 || m[|a| - 1] != '\\' by {
      if |a| > 0 { assert m[|a| - 1] == a[|a| - 1]; }
    }
    assert MatchAt(m, |a|);
    SameNameAt(m, |a|, NameAt(m, |a|), k);
    EntryForEveryReplacedName(m, data, amb, |a|);
    assert m[|a|] == '{';
  }

  /** Every entry of the table for the token {k} carries k's replacement. */
  lemma EntriesAgree(keys: seq<string>, data: Options, amb: Ambient, k: string)
    requires forall x :: x in keys ==> IsName(x)
    requires IsName(k) && k in data
    ensures var reps := Replacements(keys, data, amb);
      forall i :: 0 <= i < |reps| && reps[i].0 == Token(k) ==> reps[i].1 == Render(data[k], amb)
  {
    var reps := Replacements(keys, data, amb);
    TokenOfName(k);
    forall i | 0 <= i < |reps| && reps[i].0 == Token(k) ensures reps[i].1 == Render(data[k], amb) {
      assert Replacement(Inner(reps[i].0), data, amb) == Some(reps[i].1);
    }
  }

  // ---------------------------------------------------------------------------
  // Worked examples: two fixed messages that show how an escaped placeholder and
  // a replacement value holding a later placeholder are treated, with the
  // helpers that compute their names, tables and replace-alls.

  /**
   * The lookbehind keeps an escaped placeholder out of the name list, but
   * str_replace then rewrites every literal {name}, the escaped one included.
   */
  lemma EscapedPlaceholderStillReplaced(amb: Ambient)
    ensures Interpolated("\\{a} {a}", map["a" := VStr("x")], amb) == "\\x x"
  {
    var m, data := "\\{a} {a}", map["a" := VStr("x")];
    EscapedScan();
    EscapedTable(amb);
    InterpolatedVia(m, data, amb, ["a"], [("{a}", "x")]);
    StrReplaceOne("{a}", "x", m);
    EscapedReplaceAll();
  }

  /** Interpolated on a message with a brace, once its names and replacement table are known. */
  lemma InterpolatedVia(m: string, data: Options, amb: Ambient, keys: seq<string>, reps: seq<(string, string)>)
    requires '{' in m
    requires Unique(Placeholders(m)) == keys && Replacements(keys, data, amb) == reps
    ensures forall i :: 0 <= i < |reps| ==> IsToken(reps[i].0)
    ensures Interpolated(m, data, amb) == StrReplace(reps, m)
  {
  }

  lemma StrReplaceOne(p: string, r: string, m: string)
    requires IsToken(p)
    ensures StrReplace([(p, r)], m) == ReplaceAll(m, p, r)
  {
    assert [(p, r)][1..] == [];
  }

  lemma StrReplaceTwo(p: string, r: string, q: string, t: string, m: string)
    requires IsToken(p) && IsToken(q)
    ensures StrReplace([(p, r), (q, t)], m) == ReplaceAll(ReplaceAll(m, p, r), q, t)
  {
    assert [(p, r), (q, t)][1..] == [(q, t)];
    StrReplaceOne(q, t, ReplaceAll(m, p, r));
  }

  lemma EscapedTable(amb: Ambient)
    ensures Replacements(["a"], map["a" := VStr("x")], amb) == [("{a}", "x")]
  {
    var data := map["a" := VStr("x")];
    assert ["a"][..0] == [];
    assert Replacement("a", data, amb) == Some("x");
    assert Token("a") == "{a}";
  }

  lemma EscapedScan()
    ensures Placeholders("\\{a} {a}") == ["a"]
    ensures Unique(Placeholders("\\{a} {a}")) == ["a"]
    ensures '{' in "\\{a} {a}"
  {
    var s := "\\{a} {a}";
    assert s[1] == '{';
    assert Unique(["a"]) == ["a"];
    assert !MatchAt(s, 1);
    assert RunFrom(s, 6) == 1;
    assert MatchAt(s, 5) && NameAt(s, 5) == "a";
    assert Scan(s, 8) == [];
    assert Scan(s, 5) == ["a"];
  }

  lemma EscapedReplaceAll()
    ensures ReplaceAll("\\{a} {a}", "{a}", "x") == "\\x x"
  {
    assert ReplaceAll(" {a}", "{a}", "x") == " x";
  }

  /**
   * Replacements are applied one after another to the whole message, so a
   * value that contains a later placeholder is itself rewritten.
   */
  lemma ReplacedValueIsRescanned(amb: Ambient)
    ensures Interpolated("{a}{b}", map["a" := VStr("{b}"), "b" := VStr("y")], amb) == "yy"
  {
    var data := map["a" := VStr("{b}"), "b" := VStr("y")];
    var m := "{a}{b}";
    RescanScan();
    RescanUnique();
    RescanTable(amb);
    assert m[0] == '{';
    InterpolatedVia(m, data, amb, ["a", "b"], [("{a}", "{b}"), ("{b}", "y")]);
    StrReplaceTwo("{a}", "{b}", "{b}", "y", m);
    RescanReplaceAll();
  }

  lemma RescanReplaceAll()
    ensures ReplaceAll(ReplaceAll("{a}{b}", "{a}", "{b}"), "{b}", "y") == "yy"
  {
    assert ReplaceAll("{b}", "{a}", "{b}") == "{b}";
    assert ReplaceAll("{a}{b}", "{a}", "{b}") == "{b}{b}";
    assert ReplaceAll("{b}", "{b}", "y") == "y";
    assert ReplaceAll("{b}{b}", "{b}", "y") == "yy";
  }

  lemma RescanTable(amb: Ambient)
    ensures Replacements(["a", "b"], map["a" := VStr("{b}"), "b" := VStr("y")], amb)
      == [("{a}", "{b}"), ("{b}", "y")]
  {
    var data := map["a" := VStr("{b}"), "b" := VStr("y")];
    assert ["a", "b"][..1] == ["a"] && ["a"][..0] == [];
    assert Replacement("a", data, amb) == Some("{b}");
    assert Replacement("b", data, amb) == Some("y");
    assert Token("a") == "{a}" && Token("b") == "{b}";
    assert Replacements(["a"], data, amb) == [("{a}", "{b}")];
  }

  lemma RescanScan()
    ensures Placeholders("{a}{b}") == ["a", "b"]
  {
    var s := "{a}{b}";
    assert RunFrom(s, 1) == 1;
    assert RunFrom(s, 4) == 1;
    assert MatchAt(s, 0) && NameAt(s, 0) == "a";
    assert MatchAt(s, 3) && NameAt(s, 3) == "b";
    assert Scan(s, 6) == [];
    assert Scan(s, 3) == ["b"];
  }

  lemma RescanUnique()
    ensures Unique(["a", "b"]) == ["a", "b"]
  {
    assert ["a", "b"][..1] == ["a"];
  }
}

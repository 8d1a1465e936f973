/** JSON documents as `encoding/json` decodes them into untyped Go values. */
module JsonTree {
  datatype Json =
    | Null
    | Bool(b: bool)
    | Num(n: real)
    | Str(s: string)
    | Arr(es: seq<Json>)
    | Obj(m: map<string, Json>)
}

/** The noise-aware JSON comparison: its verdict as a predicate, and the loops that compute it. */
module JsonMatcher {
  import opened Text
  import opened JsonTree

  type Regex = string -> bool

  datatype NoiseEntry = NoiseEntry(keyLower: string, regexps: seq<Regex>)

  /**
   * `entries` is the path-noise index in the order it is searched; `lower` is the rune map behind `strings.ToLower`.
   */
  datatype Config = Config(entries: seq<NoiseEntry>, globalKeys: set<string>, lower: char -> char,
      ignoreOrdering: bool) {
    function Lower(s: string): string { MapChars(lower, s) }

    predicate Global(k: string) { Lower(k) in globalKeys }

    predicate Noisy(key: string) { FindNoise(entries, Lower(key)).Some? }

    /** A noise entry without a regex guard covers the whole subtree at `key`. */
    predicate Skips(key: string) {
      var found := FindNoise(entries, Lower(key));
      found.Some? && |found.value| == 0
    }
  }

  datatype ComparisonResult = ComparisonResult(matches: bool, isExact: bool, differences: seq<string>)

  /** `noiseIndex.match`: the regexes of the first entry whose key occurs in `keyLower`. */
  function FindNoise(entries: seq<NoiseEntry>, keyLower: string): (r: Option<seq<Regex>>)
    ensures r.Some? <==> exists i :: 0 <= i < |entries| && Contains(keyLower, entries[i].keyLower)
  {
    if entries == [] then None
    else if Contains(keyLower, entries[0].keyLower) then Some(entries[0].regexps)
    else
      var r := FindNoise(entries[1..], keyLower);
      assert forall i :: 0 <= i < |entries[1..]| ==> entries[1..][i] == entries[i + 1];
      assert forall i :: 0 < i < |entries| ==> entries[i] == entries[1..][i - 1];
      r
  }

  function ChildKey(key: string, k: string): string {
    if key == "" then k else key + "." + k
  }

  predicate Primitive(v: Json) { v.Str? || v.Num? || v.Bool? }

  /**
   * The comparison fails with an error exactly when the two sides have different JSON types and a null is not
   * expected.
   */
  predicate TypeError(e: Json, a: Json) {
    match e
    case Null => false
    case Bool(_) => !a.Bool?
    case Num(_) => !a.Num?
    case Str(_) => !a.Str?
    case Arr(_) => !a.Arr?
    case Obj(_) => !a.Obj?
  }

  /** Whether `a` is accepted for `e` at path `key`. */
  predicate Matches(c: Config, key: string, e: Json, a: Json)
    decreases e, 0
  {
    match e
    case Null => a.Null?
    case Bool(b) => a.Bool? && (b == a.b || c.Noisy(key))
    case Num(n) => a.Num? && (n == a.n || c.Noisy(key))
    case Str(s) => a.Str? && (s == a.s || c.Noisy(key))
    case Obj(m) =>
      a.Obj? &&
      (c.Skips(key) ||
       (&& (forall k :: k in m && !c.Global(k) ==>
                          k in a.m && (c.Skips(ChildKey(key, k)) || Matches(c, ChildKey(key, k), m[k], a.m[k])))
        && (forall k :: k in a.m && !c.Global(k) && k !in m ==> c.Skips(ChildKey(key, k)))))
    case Arr(es) =>
      a.Arr? && |es| == |a.es| &&
      (c.Skips(key) ||
       if c.ignoreOrdering then Greedy(c, key, es, a.es, NoneUsed(|es|))
       else forall i :: 0 <= i < |es| ==> Matches(c, key, es[i], a.es[i]))
  }

  function NoneUsed(n: nat): (r: seq<bool>)
    ensures |r| == n && forall i :: 0 <= i < n ==> !r[i]
  {
    seq(n, _ => false)
  }

  /** Every element of `es`, in order, claims an unused element of `actual`. */
  predicate Greedy(c: Config, key: string, es: seq<Json>, actual: seq<Json>, used: seq<bool>)
    requires |used| == |actual|
    decreases es, 0
  {
    es == [] ||
    (var j := Claim(c, key, es[0], actual, used);
     j < |actual| && Greedy(c, key, es[1..], actual, used[j := true]))
  }

  /** The index `x` claims: the first unused equal primitive, else the first unused match, else `|actual|`. */
  function Claim(c: Config, key: string, x: Json, actual: seq<Json>, used: seq<bool>): nat
    requires |used| == |actual|
    decreases x, |actual| + 2
  {
    var j := FirstEqual(x, actual, used, 0);
    if j < |actual| then j else FirstMatch(c, key, x, actual, used, 0)
  }

  /** `findAndClaimPrimitiveEqual`, with `|actual|` for "not found". */
  function FirstEqual(x: Json, actual: seq<Json>, used: seq<bool>, j: nat): (r: nat)
    requires |used| == |actual| && j <= |actual|
    ensures j <= r <= |actual|
    ensures r < |actual| ==> !used[r] && Primitive(x) && actual[r] == x
    ensures forall i :: j <= i < r && !used[i] && Primitive(x) ==> actual[i] != x
    decreases |actual| - j
  {
    if j == |actual| || (!used[j] && Primitive(x) && actual[j] == x) then j else FirstEqual(x, actual, used, j + 1)
  }

  function FirstMatch(c: Config, key: string, x: Json, actual: seq<Json>, used: seq<bool>, j: nat): (r: nat)
    requires |used| == |actual| && j <= |actual|
    ensures j <= r <= |actual|
    ensures r < |actual| ==> !used[r] && Matches(c, key, x, actual[r])
    ensures forall i :: j <= i < r && !used[i] ==> !Matches(c, key, x, actual[i])
    decreases x, 1 + |actual| - j
  {
    if j == |actual| || (!used[j] && Matches(c, key, x, actual[j])) then j
    else FirstMatch(c, key, x, actual, used, j + 1)
  }

  /** A claim is an unused match, and it fails only when no unused element matches. */
  lemma {:induction false} ClaimIsFirstFit(c: Config, key: string, x: Json, actual: seq<Json>, used: seq<bool>)
    requires |used| == |actual|
    ensures var j := Claim(c, key, x, actual, used);
            && j <= |actual|
            && (j < |actual| ==> !used[j] && Matches(c, key, x, actual[j]))
            && (j == |actual| ==> forall i :: 0 <= i < |actual| && !used[i] ==> !Matches(c, key, x, actual[i]))
            && (forall i :: 0 <= i < |actual| && !used[i] && Primitive(x) && actual[i] == x ==>
                  j <= i && j < |actual| && actual[j] == x)
  {
  }

  // ---- The loops of matchJSONWithNoiseHandlingIndexed ----

  /** The comparison as the code runs it: Go's map order is an arbitrary choice, `used` is an array. */
  method MatchJson(c: Config, key: string, e: Json, a: Json) returns (out: ComparisonResult, err: bool)
    ensures err == TypeError(e, a)
    ensures out == ComparisonResult(Matches(c, key, e, a), Matches(c, key, e, a), [])
    ensures err ==> !out.matches
    decreases e, 2
  {
    out := ComparisonResult(false, false, []);
    err := false;
    match e
    case Null =>
      if a.Null? { out := ComparisonResult(true, true, []); }
    case Str(s) =>
      if !a.Str? { return out, true; }
      var regs := FindNoise(c.entries, c.Lower(key));
      if regs.Some? && |regs.value| != 0 {
        var hit := AnyRegexpMatch(a.s, regs.value);
        if hit { return ComparisonResult(true, true, []), false; }
      }
      if s == a.s || regs.Some? { out := ComparisonResult(true, true, []); }
    case Bool(b) =>
      if !a.Bool? { return out, true; }
      if b == a.b || FindNoise(c.entries, c.Lower(key)).Some? { out := ComparisonResult(true, true, []); }
    case Num(n) =>
      if !a.Num? { return out, true; }
      if n == a.n || FindNoise(c.entries, c.Lower(key)).Some? { out := ComparisonResult(true, true, []); }
    case Obj(m) =>
      if !a.Obj? { return out, true; }
      var regs := FindNoise(c.entries, c.Lower(key));
      if regs.Some? && |regs.value| == 0 { return ComparisonResult(true, true, []), false; }
      out := MatchObject(c, key, e, a);
    case Arr(es) =>
      if !a.Arr? { return out, true; }
      if |es| != |a.es| { return; }
      var regs := FindNoise(c.entries, c.Lower(key));
      if regs.Some? && |regs.value| == 0 { return ComparisonResult(true, true, []), false; }
      if !c.ignoreOrdering {
        var isExact := true;
        for i := 0 to |es|
          invariant isExact
          invariant forall j :: 0 <= j < i ==> Matches(c, key, es[j], a.es[j])
        {
          var res, err' := MatchJson(c, key, es[i], a.es[i]);
          if err' || !res.matches { return; }
          if !res.isExact { isExact := false; }
        }
        out := ComparisonResult(true, isExact, []);
      } else {
        out := MatchUnordered(c, key, es, a.es);
      }
  }

  method AnyRegexpMatch(s: string, regs: seq<Regex>) returns (r: bool)
    ensures r <==> exists i :: 0 <= i < |regs| && regs[i](s)
  {
    for i := 0 to |regs|
      invariant forall j :: 0 <= j < i ==> !regs[j](s)
    {
      if regs[i](s) { return true; }
    }
    return false;
  }

  /** Key `k` of an expected object is accepted: it is ignored everywhere, or present and skipped or matching. */
  predicate KeyAccepted(c: Config, key: string, k: string, e: map<string, Json>, a: map<string, Json>) {
    k in e && !c.Global(k) ==>
      k in a && (c.Skips(ChildKey(key, k)) || Matches(c, ChildKey(key, k), e[k], a[k]))
  }

  lemma {:induction false} NoiseAtChild(c: Config, key: string, k: string)
    ensures c.Lower(if key != "" then key + "." else "") + c.Lower(k) == c.Lower(ChildKey(key, k))
  {
    MapCharsConcat(c.lower, if key != "" then key + "." else "", k);
  }

  method MatchObject(c: Config, key: string, e: Json, a: Json) returns (out: ComparisonResult)
    requires e.Obj? && a.Obj? && !c.Skips(key)
    ensures out == ComparisonResult(Matches(c, key, e, a), Matches(c, key, e, a), [])
    decreases e, 1
  {
    out := ComparisonResult(false, false, []);
    var isExact := true;
    var prefix := if key != "" then key + "." else "";

    var rest := e.m.Keys;
    while rest != {}
      invariant rest <= e.m.Keys && isExact && out == ComparisonResult(false, false, [])
      invariant forall k :: k in e.m && k !in rest ==> KeyAccepted(c, key, k, e.m, a.m)
      decreases |rest|
    {
      var k :| k in rest;
      rest := rest - {k};
      if c.Lower(k) in c.globalKeys { continue; }
      if k !in a.m {
        assert !KeyAccepted(c, key, k, e.m, a.m);
        return;
      }
      var childKeyLower := c.Lower(prefix) + c.Lower(k);
      NoiseAtChild(c, key, k);
      var regs := FindNoise(c.entries, childKeyLower);
      if regs.Some? && |regs.value| == 0 { continue; }
      var res, err := MatchJson(c, prefix + k, e.m[k], a.m[k]);
      assert prefix + k == ChildKey(key, k);
      if err || !res.matches {
        assert !KeyAccepted(c, key, k, e.m, a.m);
        return;
      }
      if !res.isExact {
        isExact := false;
        out := out.(differences := out.differences + [k] + res.differences);
      }
    }

    var extra := FindUnexpected(c, key, e.m, a.m);
    if !extra { out := out.(matches := true, isExact := isExact); }
  }

  /** The second pass: is there a key in the actual object that is neither expected nor noise? */
  method FindUnexpected(c: Config, key: string, e: map<string, Json>, a: map<string, Json>) returns (found: bool)
    ensures found <==> exists k :: k in a && !c.Global(k) && k !in e && !c.Skips(ChildKey(key, k))
  {
    var prefix := if key != "" then key + "." else "";
    var rest := a.Keys;
    while rest != {}
      invariant rest <= a.Keys
      invariant forall k :: k in a && k !in rest && !c.Global(k) && k !in e ==> c.Skips(ChildKey(key, k))
      decreases |rest|
    {
      var k :| k in rest;
      rest := rest - {k};
      if c.Lower(k) in c.globalKeys { continue; }
      if k in e { continue; }
      var childKeyLower := c.Lower(prefix) + c.Lower(k);
      NoiseAtChild(c, key, k);
      var regs := FindNoise(c.entries, childKeyLower);
      if regs.Some? && |regs.value| == 0 { continue; }
      return true;
    }
    return false;
  }

  /** Differences of an array element are listed under the array's own path. */
  function Prefixed(key: string, differences: seq<string>): seq<string> {
    seq(|differences|, i requires 0 <= i < |differences| => if key != "" then key + "." + differences[i]
        else differences[i])
  }

  lemma {:induction false} GreedyNext(c: Config, key: string, es: seq<Json>, i: nat, actual: seq<Json>, used: seq<bool>)
    requires i < |es| && |used| == |actual|
    ensures var equal := FirstEqual(es[i], actual, used, 0);
            var j := if equal < |actual| then equal else FirstMatch(c, key, es[i], actual, used, 0);
            Greedy(c, key, es[i..], actual, used)
                == (j < |actual| && Greedy(c, key, es[i + 1..], actual, used[j := true]))
  {
    assert es[i..][0] == es[i] && es[i..][1..] == es[i + 1..];
  }

  lemma {:induction false} FirstMatchNext(c: Config, key: string, x: Json, actual: seq<Json>, used: seq<bool>, j: nat)
    requires |used| == |actual| && j < |actual|
    ensures var fits := !used[j] && Matches(c, key, x, actual[j]);
            FirstMatch(c, key, x, actual, used, j) == if fits then j else FirstMatch(c, key, x, actual, used, j + 1)
  {
  }

  lemma {:induction false} GreedyNone(c: Config, key: string, actual: seq<Json>, used: seq<bool>)
    requires |used| == |actual|
    ensures Greedy(c, key, [], actual, used)
  {
  }

  method MatchUnordered(c: Config, key: string, es: seq<Json>, actual: seq<Json>) returns (out: ComparisonResult)
    requires |es| == |actual|
    ensures var verdict := Greedy(c, key, es, actual, NoneUsed(|es|));
            out == ComparisonResult(verdict, verdict, [])
    decreases es
  {
    hide Greedy, Claim, FirstEqual, FirstMatch, Matches, NoneUsed;
    out := ComparisonResult(false, false, []);
    var used := new bool[|actual|](_ => false);
    var isExact := true;
    assert used[..] == NoneUsed(|es|) && es[0..] == es;
    for i := 0 to |es|
      invariant isExact && out.differences == []
      invariant Greedy(c, key, es, actual, NoneUsed(|es|)) == Greedy(c, key, es[i..], actual, used[..])
    {
      ghost var before := used[..];
      GreedyNext(c, key, es, i, actual, before);
      var matched := false;
      var j := FindAndClaimPrimitiveEqual(es[i], actual, used);
      if j < |actual| {
        used[j] := true;
        matched := true;
      } else {
        j := 0;
        while j < |actual|
          invariant 0 <= j <= |actual| && used[..] == before && !matched && isExact && out.differences == []
          invariant FirstMatch(c, key, es[i], actual, before, 0) == FirstMatch(c, key, es[i], actual, before, j)
        {
          FirstMatchNext(c, key, es[i], actual, before, j);
          if used[j] { j := j + 1; continue; }
          var res, err := MatchJson(c, key, es[i], actual[j]);
          if !err && res.matches {
            if !res.isExact {
              isExact := false;
              out := out.(differences := out.differences + Prefixed(key, res.differences));
            }
            used[j] := true;
            matched := true;
            break;
          }
          j := j + 1;
        }
      }
      if !matched { return ComparisonResult(false, false, []); }
      assert used[..] == before[j := true];
    }
    assert es[|es|..] == [];
    GreedyNone(c, key, actual, used[..]);
    out := out.(matches := true, isExact := isExact);
  }

  method FindAndClaimPrimitiveEqual(x: Json, actual: seq<Json>, used: array<bool>) returns (j: nat)
    requires used.Length == |actual|
    ensures j == FirstEqual(x, actual, used[..], 0)
  {
    j := |actual|;
    if x.Str? || x.Num? || x.Bool? {
      for i := 0 to |actual|
        invariant FirstEqual(x, actual, used[..], 0) == FirstEqual(x, actual, used[..], i)
      {
        if used[i] { continue; }
        if actual[i] == x { return i; }
      }
    }
  }
}

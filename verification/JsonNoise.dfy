/** What the verdict needs of the noise index, and when the order of the index matters. */
module JsonNoise {
  import opened Text
  import opened JsonTree
  import opened JsonMatcher

  // ---- More and less noise ----

  /** `d` has at least the noise of `c`: it tolerates and skips every path that `c` does. */
  ghost predicate Dominates(d: Config, c: Config) {
    && d.globalKeys == c.globalKeys && d.lower == c.lower && d.ignoreOrdering == c.ignoreOrdering
    && (forall key :: c.Noisy(key) ==> d.Noisy(key))
    && (forall key :: c.Skips(key) ==> d.Skips(key))
  }

  /** With ordered arrays, more noise never turns a match into a mismatch. */
  lemma {:induction false} OrderedMatchIsMonotone(c: Config, d: Config, key: string, e: Json, a: Json)
    requires Dominates(d, c) && !c.ignoreOrdering
    requires Matches(c, key, e, a)
    ensures Matches(d, key, e, a)
    decreases e
  {
    if !d.Skips(key) {
      match e
      case Obj(m) =>
        forall k | k in m && !d.Global(k)
          ensures k in a.m && (d.Skips(ChildKey(key, k)) || Matches(d, ChildKey(key, k), m[k], a.m[k]))
        {
          assert k in a.m;
          if !c.Skips(ChildKey(key, k)) {
            OrderedMatchIsMonotone(c, d, ChildKey(key, k), m[k], a.m[k]);
          }
        }
      case Arr(es) =>
        forall i | 0 <= i < |es| ensures Matches(d, key, es[i], a.es[i]) {
          OrderedMatchIsMonotone(c, d, key, es[i], a.es[i]);
        }
      case _ =>
    }
  }

  ghost predicate SameNoise(c: Config, d: Config) { Dominates(c, d) && Dominates(d, c) }

  /** The verdict depends on the index only through which paths it tolerates and which it skips. */
  lemma {:induction false} SameNoiseSameVerdict(c: Config, d: Config, key: string, e: Json, a: Json)
    requires SameNoise(c, d)
    ensures Matches(c, key, e, a) <==> Matches(d, key, e, a)
    decreases e, 0
  {
    if e.Obj? && a.Obj? {
      hide Matches, SameNoise;
      forall k | k in e.m && k in a.m
        ensures Matches(c, ChildKey(key, k), e.m[k], a.m[k]) <==> Matches(d, ChildKey(key, k), e.m[k], a.m[k])
      {
        SameNoiseSameVerdict(c, d, ChildKey(key, k), e.m[k], a.m[k]);
      }
      SameNoiseSameObjects(c, d, key, e.m, a.m);
    } else if e.Arr? && a.Arr? && |e.es| == |a.es| {
      hide Greedy;
      forall i | 0 <= i < |e.es| ensures Matches(c, key, e.es[i], a.es[i]) <==> Matches(d, key, e.es[i], a.es[i]) {
        SameNoiseSameVerdict(c, d, key, e.es[i], a.es[i]);
      }
      SameNoiseSameGreedy(c, d, key, e.es, a.es, NoneUsed(|e.es|));
    }
  }

  lemma {:induction false} SameNoiseSameObjects(c: Config, d: Config, key: string, m: map<string, Json>,
                                                n: map<string, Json>)
    requires SameNoise(c, d)
    requires forall k :: k in m && k in n ==>
               var child := ChildKey(key, k);
               Matches(c, child, m[k], n[k]) <==> Matches(d, child, m[k], n[k])
    ensures Matches(c, key, Obj(m), Obj(n)) <==> Matches(d, key, Obj(m), Obj(n))
  {
  }

  lemma {:induction false} SameNoiseSameGreedy(c: Config, d: Config, key: string, es: seq<Json>, actual: seq<Json>,
                                               used: seq<bool>)
    requires SameNoise(c, d) && |used| == |actual|
    ensures Greedy(c, key, es, actual, used) <==> Greedy(d, key, es, actual, used)
    decreases es
  {
    if es != [] {
      forall i | 0 <= i < |actual| ensures Matches(c, key, es[0], actual[i]) <==> Matches(d, key, es[0], actual[i]) {
        SameNoiseSameVerdict(c, d, key, es[0], actual[i]);
      }
      var j := Claim(c, key, es[0], actual, used);
      assert j == Claim(d, key, es[0], actual, used);
      if j < |actual| {
        SameNoiseSameGreedy(c, d, key, es[1..], actual, used[j := true]);
      }
    }
  }

  /** No entry carries a regex guard. */
  ghost predicate Unguarded(entries: seq<NoiseEntry>) {
    forall i :: 0 <= i < |entries| ==> entries[i].regexps == []
  }

  lemma {:induction false} UnguardedSkips(entries: seq<NoiseEntry>, keyLower: string)
    requires Unguarded(entries)
    ensures FindNoise(entries, keyLower) == None || FindNoise(entries, keyLower) == Some([])
  {
    if entries != [] {
      UnguardedSkips(entries[1..], keyLower);
    }
  }

  lemma {:induction false} ContainsSelf(s: string)
    ensures Contains(s, s)
  {
    assert OccursAt(s, s, 0);
  }

  // ---- The order of the index ----

  ghost predicate Guarded(entries: seq<NoiseEntry>) {
    forall i :: 0 <= i < |entries| ==> entries[i].regexps != []
  }

  lemma {:induction false} GuardedNeverSkips(entries: seq<NoiseEntry>, keyLower: string)
    requires Guarded(entries)
    ensures FindNoise(entries, keyLower) != Some([])
  {
    if entries != [] {
      GuardedNeverSkips(entries[1..], keyLower);
    }
  }

  ghost function KeySet(entries: seq<NoiseEntry>): set<string> {
    set i | 0 <= i < |entries| :: entries[i].keyLower
  }

  lemma {:induction false} NoisyByKeySet(entries: seq<NoiseEntry>, keyLower: string)
    ensures FindNoise(entries, keyLower).Some? <==> exists k :: k in KeySet(entries) && Contains(keyLower, k)
  {
    if FindNoise(entries, keyLower).Some? {
      var i :| 0 <= i < |entries| && Contains(keyLower, entries[i].keyLower);
      assert entries[i].keyLower in KeySet(entries);
    }
  }

  /**
   * The index is built in Go's map order; when its entries are all guarded or all unguarded that order cannot be
   * seen.
   */
  lemma {:induction false} IndexOrderIrrelevant(c: Config, d: Config, key: string, e: Json, a: Json)
    requires d == c.(entries := d.entries) && KeySet(c.entries) == KeySet(d.entries)
    requires (Unguarded(c.entries) && Unguarded(d.entries)) || (Guarded(c.entries) && Guarded(d.entries))
    ensures Matches(c, key, e, a) <==> Matches(d, key, e, a)
  {
    assert SameNoise(c, d) by {
      forall k
        ensures (c.Noisy(k) <==> d.Noisy(k)) && (c.Skips(k) <==> d.Skips(k))
      {
        UniformNoise(c.entries, d.entries, c.Lower(k));
      }
    }
    SameNoiseSameVerdict(c, d, key, e, a);
  }

  lemma {:induction false} UniformNoise(xs: seq<NoiseEntry>, ys: seq<NoiseEntry>, keyLower: string)
    requires KeySet(xs) == KeySet(ys)
    requires (Unguarded(xs) && Unguarded(ys)) || (Guarded(xs) && Guarded(ys))
    ensures FindNoise(xs, keyLower).Some? <==> FindNoise(ys, keyLower).Some?
    ensures FindNoise(xs, keyLower) == Some([]) <==> FindNoise(ys, keyLower) == Some([])
  {
    NoisyByKeySet(xs, keyLower);
    NoisyByKeySet(ys, keyLower);
    if Unguarded(xs) && Unguarded(ys) {
      UnguardedSkips(xs, keyLower);
      UnguardedSkips(ys, keyLower);
    } else {
      GuardedNeverSkips(xs, keyLower);
      GuardedNeverSkips(ys, keyLower);
    }
  }

  lemma {:induction false} Longer(keys: set<string>) returns (n: nat)
    ensures forall k :: k in keys ==> |k| < n
    decreases keys
  {
    if keys == {} {
      n := 0;
    } else {
      var k :| k in keys;
      var m := Longer(keys - {k});
      n := if |k| < m then m else |k| + 1;
    }
  }

  /** A key longer than every ignored one, that starts with a given text. */
  lemma {:induction false} KeptKey(c: Config, start: string) returns (key: string)
    ensures start <= key && key != "" && !c.Global(key)
  {
    var n := Longer(c.globalKeys);
    key := start + seq(n + 1, _ => 'x');
    assert |c.Lower(key)| == |key| > n;
  }

  /**
   * Two indexes over the same keys, one led by a guarded entry and one by an unguarded entry, differ on some
   * documents.
   */
  lemma {:induction false} LeadingGuardsDisagree(c: Config, d: Config, guarded: string, unguarded: string)
    returns (e: Json, a: Json)
    requires d == c.(entries := d.entries) && c.entries != [] && d.entries != []
    requires c.entries[0].keyLower == c.Lower(guarded) && c.entries[0].regexps != []
    requires d.entries[0] == NoiseEntry(c.Lower(unguarded), [])
    requires !c.Noisy("") && !d.Noisy("")
    ensures Matches(c, "", e, a) != Matches(d, "", e, a)
  {
    var path := KeptKey(c, guarded + unguarded);
    var field := KeptKey(c, "");
    var rest := path[|guarded + unguarded|..];
    assert path == guarded + (unguarded + rest) && path == (guarded + unguarded) + rest;
    MapCharsConcat(c.lower, guarded, unguarded + rest);
    MapCharsConcat(c.lower, unguarded, rest);
    assert OccursAt(c.Lower(path), c.Lower(guarded), 0) && OccursAt(c.Lower(path), c.Lower(unguarded), |guarded|);
    FirstEntryDecides(c, path, field, c.entries[0]);
    FirstEntryDecides(d, path, field, d.entries[0]);
    e, a := Obj(map[path := Obj(map[])]), Obj(map[path := Obj(map[field := Null])]);
  }

  /** The index holds the given keys in lower case, none of them empty. */
  ghost predicate Spelled(c: Config, keys: seq<string>) {
    |keys| == |c.entries| && forall i :: 0 <= i < |keys| ==> keys[i] != "" && c.entries[i].keyLower == c.Lower(keys[i])
  }

  /** The order of the index cannot be seen: every order of its entries gives one verdict on all documents. */
  ghost predicate OrderInvisible(c: Config) {
    forall ys, e, a :: multiset(ys) == multiset(c.entries) ==>
      (Matches(c.(entries := ys), "", e, a) <==> Matches(c, "", e, a))
  }

  lemma {:induction false} LedBy(c: Config, i: nat) returns (d: Config)
    requires i < |c.entries|
    ensures d == c.(entries := d.entries) && multiset(d.entries) == multiset(c.entries)
    ensures d.entries != [] && d.entries[0] == c.entries[i]
  {
    var xs := c.entries;
    assert xs == xs[..i] + [xs[i]] + xs[i + 1..];
    d := c.(entries := [xs[i]] + (xs[..i] + xs[i + 1..]));
  }

  lemma {:induction false} SameEntries(xs: seq<NoiseEntry>, ys: seq<NoiseEntry>)
    requires multiset(xs) == multiset(ys)
    ensures KeySet(xs) == KeySet(ys)
    ensures Unguarded(xs) ==> Unguarded(ys)
    ensures Guarded(xs) ==> Guarded(ys)
  {
    forall i | 0 <= i < |xs| ensures xs[i] in ys { assert xs[i] in multiset(ys); }
    forall i | 0 <= i < |ys| ensures ys[i] in xs { assert ys[i] in multiset(xs); }
  }

  lemma {:induction false} NotNoisyAtRoot(c: Config, entries: seq<NoiseEntry>, keys: seq<string>)
    requires Spelled(c, keys) && multiset(entries) == multiset(c.entries)
    ensures !c.(entries := entries).Noisy("")
  {
    forall i | 0 <= i < |entries| ensures entries[i].keyLower != "" {
      assert entries[i] in multiset(c.entries);
    }
  }

  /** Every order of an index gives one verdict exactly when its entries are all guarded or all unguarded. */
  lemma {:induction false} OrderInvisibleIffUniform(c: Config, keys: seq<string>)
    requires Spelled(c, keys)
    ensures OrderInvisible(c) <==> Unguarded(c.entries) || Guarded(c.entries)
  {
    if Unguarded(c.entries) || Guarded(c.entries) {
      forall ys, e, a | multiset(ys) == multiset(c.entries)
        ensures Matches(c.(entries := ys), "", e, a) <==> Matches(c, "", e, a)
      {
        SameEntries(c.entries, ys);
        IndexOrderIrrelevant(c.(entries := ys), c, "", e, a);
      }
    } else {
      var g :| 0 <= g < |c.entries| && c.entries[g].regexps != [];
      var u :| 0 <= u < |c.entries| && c.entries[u].regexps == [];
      var cg := LedBy(c, g);
      var cu := LedBy(c, u);
      NotNoisyAtRoot(c, cg.entries, keys);
      NotNoisyAtRoot(c, cu.entries, keys);
      var e, a := LeadingGuardsDisagree(cg, cu, keys[g], keys[u]);
      assert Matches(c.(entries := cg.entries), "", e, a) != Matches(c.(entries := cu.entries), "", e, a);
    }
  }

  /** For a pair: the two orders agree on all documents exactly when both or neither entry is guarded. */
  lemma {:induction false} PairOrderInvisibleIffSameGuard(c: Config, k1: string, r1: seq<Regex>, k2: string,
                                                          r2: seq<Regex>)
    requires k1 != "" && k2 != ""
    ensures var first, second := NoiseEntry(c.Lower(k1), r1), NoiseEntry(c.Lower(k2), r2);
            var c12, c21 := c.(entries := [first, second]), c.(entries := [second, first]);
            (forall e, a :: Matches(c12, "", e, a) <==> Matches(c21, "", e, a)) <==> (r1 == [] <==> r2 == [])
  {
    hide Matches, FindNoise;
    var first, second := NoiseEntry(c.Lower(k1), r1), NoiseEntry(c.Lower(k2), r2);
    var c12, c21 := c.(entries := [first, second]), c.(entries := [second, first]);
    PairSpelled(c12, c21, first, second, k1, k2);
    if r1 == [] <==> r2 == [] {
      assert Unguarded(c12.entries) || Guarded(c12.entries);
      hide Spelled, Unguarded, Guarded;
      OrderInvisibleIffUniform(c12, [k1, k2]);
      assert c21 == c12.(entries := c21.entries);
    } else if r1 == [] {
      var e, a := LeadingGuardsDisagree(c21, c12, k2, k1);
    } else {
      var e, a := LeadingGuardsDisagree(c12, c21, k1, k2);
    }
  }

  lemma {:induction false} PairSpelled(c: Config, d: Config, first: NoiseEntry, second: NoiseEntry, k1: string,
                                       k2: string)
    requires k1 != "" && k2 != "" && first.keyLower == c.Lower(k1) && second.keyLower == c.Lower(k2)
    requires c.entries == [first, second] && d == c.(entries := [second, first])
    ensures Spelled(c, [k1, k2]) && multiset(c.entries) == multiset(d.entries) && !c.Noisy("") && !d.Noisy("")
  {
    NotNoisyAtRoot(c, c.entries, [k1, k2]);
    NotNoisyAtRoot(c, d.entries, [k1, k2]);
  }

  /** At a path that contains the first entry, an extra field is accepted exactly when that entry is unguarded. */
  lemma {:induction false} FirstEntryDecides(c: Config, path: string, field: string, entry: NoiseEntry)
    requires c.entries != [] && c.entries[0] == entry && Contains(c.Lower(path), entry.keyLower)
    requires path != "" && !c.Noisy("") && !c.Global(path) && !c.Global(field)
    ensures Matches(c, "", Obj(map[path := Obj(map[])]), Obj(map[path := Obj(map[field := Null])]))
        <==> entry.regexps == []
  {
    var child := ChildKey(path, field);
    MapCharsConcat(c.lower, path, "." + field);
    assert child == path + ("." + field);
    assert OccursAt(c.Lower(child), c.Lower(path), 0);
    ContainsTrans(c.Lower(child), c.Lower(path), entry.keyLower);
    var full: map<string, Json> := map[field := Null];
    assert field in full;
    assert Matches(c, path, Obj(map[]), Obj(full)) <==> entry.regexps == [];
    var m: map<string, Json> := map[path := Obj(map[])];
    var n: map<string, Json> := map[path := Obj(full)];
    assert path in m && path in n && ChildKey("", path) == path;
    assert forall k :: k in n ==> k in m;
  }

  // ---- JSONDiffWithNoiseControl ----

  predicate Dotted(k: string) { '.' in k }

  /** The dotted keys of `noise`, each once. */
  ghost predicate OrderOf(noise: map<string, seq<Regex>>, order: seq<string>) {
    && (forall k :: k in order <==> k in noise && Dotted(k))
    && (forall i, j :: 0 <= i < j < |order| ==> order[i] != order[j])
  }

  ghost predicate IndexOf(entries: seq<NoiseEntry>, lower: char -> char, noise: map<string, seq<Regex>>,
      order: seq<string>) {
    && |entries| == |order|
    && (forall i :: 0 <= i < |order| ==>
          order[i] in noise && entries[i] == NoiseEntry(MapChars(lower, order[i]), noise[order[i]]))
  }

  /**
   * `c` is what the entry point builds from `noise` when it meets the dotted keys in this order; the rest are global.
   */
  ghost predicate BuiltFrom(c: Config, noise: map<string, seq<Regex>>, order: seq<string>) {
    && c.globalKeys == (set k | k in noise && !Dotted(k) :: c.Lower(k))
    && OrderOf(noise, order) && IndexOf(c.entries, c.lower, noise, order)
  }

  /** Go's map order cannot change the verdict exactly when all dotted keys carry regexes or none does. */
  lemma {:induction false} MapOrderInvisibleIffUniform(c: Config, noise: map<string, seq<Regex>>, order: seq<string>)
    requires BuiltFrom(c, noise, order)
    ensures OrderInvisible(c)
       <==> || (forall k :: k in noise && Dotted(k) ==> noise[k] == [])
            || (forall k :: k in noise && Dotted(k) ==> noise[k] != [])
  {
    assert forall i :: 0 <= i < |order| ==> order[i] in order;
    OrderInvisibleIffUniform(c, order);
    forall k | k in noise && Dotted(k)
      ensures exists i :: 0 <= i < |order| && order[i] == k && c.entries[i].regexps == noise[k]
    {
      var i :| 0 <= i < |order| && order[i] == k;
      assert c.entries[i].regexps == noise[k];
    }
  }

  method JSONDiffWithNoiseControl(e: Json, a: Json, noise: map<string, seq<Regex>>, lower: char -> char,
                                  ignoreOrdering: bool)
    returns (out: ComparisonResult, err: bool, ghost c: Config, ghost order: seq<string>)
    ensures BuiltFrom(c, noise, order) && c.lower == lower && c.ignoreOrdering == ignoreOrdering
    ensures err == TypeError(e, a)
    ensures out == ComparisonResult(Matches(c, "", e, a), Matches(c, "", e, a), [])
  {
    var pathNoise, globalKeys := [], {};
    var rest := noise.Keys;
    order := [];
    while rest != {}
      invariant rest <= noise.Keys
      invariant globalKeys == set k | k in noise && k !in rest && !Dotted(k) :: MapChars(lower, k)
      invariant forall k :: k in order <==> k in noise && k !in rest && Dotted(k)
      invariant forall i, j :: 0 <= i < j < |order| ==> order[i] != order[j]
      invariant |pathNoise| == |order|
      invariant forall i :: 0 <= i < |order| ==>
                  order[i] in noise && pathNoise[i] == NoiseEntry(MapChars(lower, order[i]), noise[order[i]])
      decreases |rest|
    {
      var k :| k in rest;
      rest := rest - {k};
      if !('.' in k) {
        globalKeys := globalKeys + {MapChars(lower, k)};
      } else {
        pathNoise := pathNoise + [NoiseEntry(MapChars(lower, k), noise[k])];
        order := order + [k];
      }
    }
    c := Config(pathNoise, globalKeys, lower, ignoreOrdering);
    out, err := MatchJson(Config(pathNoise, globalKeys, lower, ignoreOrdering), "", e, a);
  }
}

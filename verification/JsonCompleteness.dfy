/** When the greedy comparison of unordered arrays is complete: exactly when the noise index skips no path. */
module JsonCompleteness {
  import opened Text
  import opened JsonTree
  import opened JsonMatcher
  import opened JsonMatcherProofs
  import opened JsonNoise

  /** On all documents the verdict is the declarative one. */
  ghost predicate Complete(c: Config) { forall e, a :: Matches(c, "", e, a) <==> Pairs(c, "", e, a) }

  ghost predicate Symmetric(c: Config) { forall x, y :: Matches(c, "", x, y) ==> Matches(c, "", y, x) }

  function Lone(k: string): Json { Obj(map[k := Num(1.0)]) }

  /** A skipped key is accepted when it is unexpected and missed when it is absent. */
  lemma {:induction false} SkippedKey(c: Config, k: string)
    requires !c.Skips("") && c.Skips(k) && !c.Global(k)
    ensures Matches(c, "", Obj(map[]), Lone(k)) && !Matches(c, "", Lone(k), Obj(map[]))
  {
    assert k in Lone(k).m && ChildKey("", k) == k;
  }

  lemma {:induction false} SameVerdictOnObjects(c: Config, k: string)
    ensures Pairs(c, "", Obj(map[]), Obj(map[])) && Pairs(c, "", Lone(k), Lone(k))
  {
    assert Matches(c, ChildKey("", k), Num(1.0), Num(1.0));
  }

  /** The elements pair up crosswise, but the first claims the partner the second needs. */
  lemma {:induction false} CrosswiseIsMissed(c: Config, k: string)
    requires c.ignoreOrdering && !c.Skips("") && c.Skips(k) && !c.Global(k)
    ensures var e, a := Arr([Obj(map[]), Lone(k)]), Arr([Lone(k), Obj(map[])]);
            Pairs(c, "", e, a) && !Matches(c, "", e, a)
  {
    CrosswisePairs(c, k);
    var empty, full := Obj(map[]), Lone(k);
    var es, actual, unused := [empty, full], [full, empty], NoneUsed(2);
    SkippedKey(c, k);
    ClaimIsFirstFit(c, "", empty, actual, unused);
    assert Claim(c, "", empty, actual, unused) == 0 by { assert actual[0] == full && !unused[0]; }
    var used := unused[0 := true];
    ClaimIsFirstFit(c, "", full, actual, used);
    assert Claim(c, "", full, actual, used) == 2;
    assert es[1..] == [full] && es[1..][0] == full;
    assert !Greedy(c, "", es[1..], actual, used);
  }

  lemma {:induction false} CrosswisePairs(c: Config, k: string)
    ensures Pairs(c, "", Arr([Obj(map[]), Lone(k)]), Arr([Lone(k), Obj(map[])]))
  {
    hide Matches, PairsUp;
    SameVerdictOnObjects(c, k);
    SwappedPairUp(c, "", Obj(map[]), Lone(k));
  }

  lemma {:induction false} SwappedPairUp(c: Config, key: string, x: Json, y: Json)
    requires Pairs(c, key, x, x) && Pairs(c, key, y, y)
    ensures PairsUp(c, key, [x, y], [y, x])
  {
    hide Pairs;
    var es, actual, p: seq<nat> := [x, y], [y, x], [1, 0];
    assert Injection(p, 2, NoneUsed(2)) && Pairs(c, key, es[0], actual[p[0]]) && Pairs(c, key, es[1], actual[p[1]]);
  }

  /**
   * Greedy claiming is complete, and matching is symmetric, exactly when no path is skipped. The root must not be, and
   * a skipped key must not be ignored everywhere; every index of the entry point meets both.
   */
  lemma {:induction false} CompleteIffNoSkips(c: Config)
    requires c.ignoreOrdering && !c.Skips("") && forall k :: c.Skips(k) ==> !c.Global(k)
    ensures Complete(c) <==> NoSkips(c)
    ensures Symmetric(c) <==> NoSkips(c)
  {
    if NoSkips(c) {
      forall e, a ensures Matches(c, "", e, a) <==> Pairs(c, "", e, a) { GreedyIsComplete(c, "", e, a); }
      forall x, y ensures Matches(c, "", x, y) ==> Matches(c, "", y, x) { UnorderedIsEquivalence(c, "", x, y, x); }
    } else {
      var k :| c.Skips(k);
      SkippedKey(c, k);
      CrosswiseIsMissed(c, k);
    }
  }

  // ---- The same in terms of the index ----

  /** An unguarded entry that no earlier entry shadows: none of their keys occurs in its key. */
  predicate Leads(c: Config, i: nat) {
    && i < |c.entries| && c.entries[i].regexps == []
    && forall j :: 0 <= j < i ==> !Contains(c.entries[i].keyLower, c.entries[j].keyLower)
  }

  /** Which entry decides a path. */
  lemma {:induction false} FoundAt(entries: seq<NoiseEntry>, keyLower: string, i: nat)
    requires i < |entries| && Contains(keyLower, entries[i].keyLower)
    requires forall j :: 0 <= j < i ==> !Contains(keyLower, entries[j].keyLower)
    ensures FindNoise(entries, keyLower) == Some(entries[i].regexps)
    decreases i
  {
    if i > 0 {
      assert entries[1..][i - 1] == entries[i];
      assert forall j :: 0 <= j < i - 1 ==> entries[1..][j] == entries[j + 1];
      FoundAt(entries[1..], keyLower, i - 1);
    }
  }

  lemma {:induction false} Found(entries: seq<NoiseEntry>, keyLower: string) returns (i: nat)
    requires FindNoise(entries, keyLower).Some?
    ensures i < |entries| && Contains(keyLower, entries[i].keyLower)
    ensures FindNoise(entries, keyLower) == Some(entries[i].regexps)
    ensures forall j :: 0 <= j < i ==> !Contains(keyLower, entries[j].keyLower)
  {
    if Contains(keyLower, entries[0].keyLower) {
      i := 0;
    } else {
      var r := Found(entries[1..], keyLower);
      i := r + 1;
      assert forall j :: 0 < j < |entries| ==> entries[j] == entries[1..][j - 1];
    }
  }

  /** Some path is skipped exactly when some unguarded entry is not shadowed. */
  lemma {:induction false} SkipsIffLeads(c: Config, keys: seq<string>)
    requires Spelled(c, keys)
    ensures NoSkips(c) <==> forall i :: 0 <= i < |c.entries| ==> !Leads(c, i)
  {
    forall i | 0 <= i < |c.entries| && Leads(c, i) ensures c.Skips(keys[i]) {
      ContainsSelf(c.Lower(keys[i]));
      FoundAt(c.entries, c.Lower(keys[i]), i);
    }
    forall k | c.Skips(k) ensures exists i :: 0 <= i < |c.entries| && Leads(c, i) {
      var i := Found(c.entries, c.Lower(k));
      forall j | 0 <= j < i ensures !Contains(c.entries[i].keyLower, c.entries[j].keyLower) {
        if Contains(c.entries[i].keyLower, c.entries[j].keyLower) {
          ContainsTrans(c.Lower(k), c.entries[i].keyLower, c.entries[j].keyLower);
        }
      }
      assert Leads(c, i);
    }
  }

  /** Lower-casing neither makes nor unmakes the dots between path segments. */
  ghost predicate KeepsDots(lower: char -> char) { forall c :: lower(c) == '.' <==> c == '.' }

  lemma {:induction false} DottedLower(c: Config, k: string)
    requires KeepsDots(c.lower)
    ensures Dotted(c.Lower(k)) <==> Dotted(k)
  {
    var s := c.Lower(k);
    assert forall i :: 0 <= i < |k| ==> s[i] == c.lower(k[i]);
    if Dotted(k) {
      var i :| 0 <= i < |k| && k[i] == '.';
      assert s[i] == '.';
    }
    if Dotted(s) {
      var i :| 0 <= i < |s| && s[i] == '.';
      assert k[i] == '.';
    }
  }

  lemma {:induction false} DottedWithin(s: string, t: string)
    requires Contains(s, t) && Dotted(t)
    ensures Dotted(s)
  {
    var i :| 0 <= i <= |s| && OccursAt(s, t, i);
    var j :| 0 <= j < |t| && t[j] == '.';
    assert s[i..i + |t|][j] == s[i + j];
  }

  /** At the entry point the root is never skipped, and no skipped path is an ignored key: only the former have dots. */
  lemma {:induction false} BuiltSkipsAreDotted(c: Config, noise: map<string, seq<Regex>>, order: seq<string>)
    requires BuiltFrom(c, noise, order) && KeepsDots(c.lower)
    ensures Spelled(c, order) && !c.Skips("") && forall k :: c.Skips(k) ==> !c.Global(k)
  {
    assert forall i :: 0 <= i < |order| ==> order[i] in order;
    forall k | c.Skips(k) ensures Dotted(k) && !c.Global(k) {
      var i := Found(c.entries, c.Lower(k));
      DottedLower(c, order[i]);
      DottedWithin(c.Lower(k), c.entries[i].keyLower);
      DottedLower(c, k);
      if c.Global(k) {
        var g :| g in noise && !Dotted(g) && c.Lower(g) == c.Lower(k);
        DottedLower(c, g);
      }
    }
  }

  /** For the entry point's own index: greedy claiming is complete exactly when each unguarded entry is shadowed. */
  lemma {:induction false} EntryPointCompleteIff(c: Config, noise: map<string, seq<Regex>>, order: seq<string>)
    requires BuiltFrom(c, noise, order) && KeepsDots(c.lower) && c.ignoreOrdering
    ensures Complete(c) <==> forall i :: 0 <= i < |c.entries| ==> !Leads(c, i)
  {
    BuiltSkipsAreDotted(c, noise, order);
    CompleteIffNoSkips(c);
    SkipsIffLeads(c, order);
  }

  /** In whatever order Go visits the noise map, it is complete exactly when every dotted key carries regexes. */
  lemma {:induction false} CompleteInEveryOrderIffGuarded(c: Config, noise: map<string, seq<Regex>>, order: seq<string>)
    requires BuiltFrom(c, noise, order) && KeepsDots(c.lower) && c.ignoreOrdering
    ensures (forall d: Config, o :: d == c.(entries := d.entries) && BuiltFrom(d, noise, o) ==> Complete(d))
       <==> forall k :: k in noise && Dotted(k) ==> noise[k] != []
  {
    if forall k :: k in noise && Dotted(k) ==> noise[k] != [] {
      forall d: Config, o | d == c.(entries := d.entries) && BuiltFrom(d, noise, o) ensures Complete(d) {
        EntryPointCompleteIff(d, noise, o);
        forall i | 0 <= i < |d.entries| ensures !Leads(d, i) { assert o[i] in o; }
      }
    } else {
      var k :| k in noise && Dotted(k) && noise[k] == [];
      var d, o := FirstInOrder(c, noise, order, k);
      EntryPointCompleteIff(d, noise, o);
      assert Leads(d, 0);
    }
  }

  lemma {:induction false} SwapKeeps(order: seq<string>, i: nat, x: string)
    requires i < |order|
    ensures x in order[0 := order[i]][i := order[0]] <==> x in order
  {
    var o := order[0 := order[i]][i := order[0]];
    assert o[0] == order[i] && o[i] == order[0];
    if x in order {
      var j :| 0 <= j < |order| && order[j] == x;
      assert j != 0 && j != i ==> o[j] == x;
    }
  }

  lemma {:induction false} PlaceInOrder(noise: map<string, seq<Regex>>, order: seq<string>, k: string) returns (i: nat)
    requires OrderOf(noise, order) && k in noise && Dotted(k)
    ensures i < |order| && order[i] == k
  {
    assert k in order;
    i :| i < |order| && order[i] == k;
  }

  lemma {:induction false} SwapOrder(noise: map<string, seq<Regex>>, order: seq<string>, i: nat)
    requires OrderOf(noise, order) && i < |order|
    ensures OrderOf(noise, order[0 := order[i]][i := order[0]])
  {
    var o := order[0 := order[i]][i := order[0]];
    forall x ensures x in o <==> x in order { SwapKeeps(order, i, x); }
    assert forall j :: 0 <= j < |order| ==> o[j] == order[if j == 0 then i else if j == i then 0 else j];
  }

  lemma {:induction false} SwapEntries(c: Config, noise: map<string, seq<Regex>>, order: seq<string>, i: nat)
    returns (d: Config)
    requires IndexOf(c.entries, c.lower, noise, order) && i < |order|
    ensures d == c.(entries := d.entries) && d.entries != [] && d.entries[0].regexps == noise[order[i]]
    ensures IndexOf(d.entries, d.lower, noise, order[0 := order[i]][i := order[0]])
  {
    d := c.(entries := c.entries[0 := c.entries[i]][i := c.entries[0]]);
  }

  lemma {:induction false} FirstInOrder(c: Config, noise: map<string, seq<Regex>>, order: seq<string>, k: string)
    returns (d: Config, o: seq<string>)
    requires BuiltFrom(c, noise, order) && k in noise && Dotted(k)
    ensures d == c.(entries := d.entries) && BuiltFrom(d, noise, o)
    ensures d.entries != [] && d.entries[0].regexps == noise[k]
  {
    hide FindNoise, IndexOf, OrderOf;
    var i := PlaceInOrder(noise, order, k);
    o := order[0 := order[i]][i := order[0]];
    d := SwapEntries(c, noise, order, i);
    SwapOrder(noise, order, i);
  }
}

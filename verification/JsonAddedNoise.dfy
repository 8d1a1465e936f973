/** Adding a noise entry without regexes: always safe for ordered arrays, exactly when covered for unordered ones. */
module JsonAddedNoise {
  import opened Text
  import opened JsonTree
  import opened JsonMatcher
  import JsonMatcherProofs
  import opened JsonNoise
  import opened JsonCompleteness

  function Inserted<T>(xs: seq<T>, pos: nat, x: T): seq<T>
    requires pos <= |xs|
  {
    xs[..pos] + [x] + xs[pos..]
  }

  /** The index with an unguarded entry put in at position `pos`. */
  function WithEntry(c: Config, pos: nat, entry: string): Config
    requires pos <= |c.entries|
  {
    c.(entries := Inserted(c.entries, pos, NoiseEntry(c.Lower(entry), [])))
  }

  /** An inserted entry decides the paths that it occurs in and that no entry before it decides. */
  lemma {:induction false} FindInserted(xs: seq<NoiseEntry>, pos: nat, x: NoiseEntry, keyLower: string)
    requires pos <= |xs|
    ensures FindNoise(Inserted(xs, pos, x), keyLower)
         == if FindNoise(xs[..pos], keyLower).None? && Contains(keyLower, x.keyLower) then Some(x.regexps)
            else FindNoise(xs, keyLower)
    decreases pos
  {
    hide Contains;
    var ys := Inserted(xs, pos, x);
    if pos == 0 {
      assert ys[0] == x && ys[1..] == xs;
    } else {
      assert ys[0] == xs[0] && ys[1..] == Inserted(xs[1..], pos - 1, x) && xs[..pos][1..] == xs[1..][..pos - 1];
      FindInserted(xs[1..], pos - 1, x, keyLower);
    }
  }

  lemma {:induction false} AddedNoiseDominates(c: Config, pos: nat, entry: string)
    requires pos <= |c.entries|
    ensures Dominates(WithEntry(c, pos, entry), c)
  {
    hide FindNoise;
    forall key ensures var d := WithEntry(c, pos, entry);
                       (c.Noisy(key) ==> d.Noisy(key)) && (c.Skips(key) ==> d.Skips(key)) {
      FindInserted(c.entries, pos, NoiseEntry(c.Lower(entry), []), c.Lower(key));
    }
  }

  /** Adding an unguarded entry anywhere in any index: the ordered comparison only becomes more lenient. */
  lemma {:induction false} AddingNoiseKeepsOrderedMatches(c: Config, pos: nat, entry: string, key: string, e: Json,
                                                          a: Json)
    requires pos <= |c.entries| && !c.ignoreOrdering
    requires Matches(c, key, e, a)
    ensures Matches(WithEntry(c, pos, entry), key, e, a)
  {
    AddedNoiseDominates(c, pos, entry);
    OrderedMatchIsMonotone(c, WithEntry(c, pos, entry), key, e, a);
  }

  // ---- Unordered arrays ----

  /** No earlier entry's key occurs in that of entry `i`, so that some path is decided by it. */
  predicate Live(c: Config, i: nat)
    requires i < |c.entries|
  {
    forall h :: 0 <= h < i ==> !Contains(c.entries[i].keyLower, c.entries[h].keyLower)
  }

  /**
   * Some existing key occurs in the new one, and either stands before it, or is unguarded with no live guarded entry
   * between the new position and it.
   */
  predicate Covered(c: Config, pos: nat, entry: string)
    requires pos <= |c.entries|
  {
    exists j :: 0 <= j < |c.entries| && CoveredBy(c, pos, entry, j)
  }

  predicate CoveredBy(c: Config, pos: nat, entry: string, j: nat)
    requires pos <= |c.entries| && j < |c.entries|
  {
    && Contains(c.Lower(entry), c.entries[j].keyLower)
    && (j < pos || (c.entries[j].regexps == []
                    && forall i :: pos <= i < j ==> c.entries[i].regexps == [] || !Live(c, i)))
  }

  /** A covered entry decides no path anew, so it changes no verdict. */
  lemma {:induction false} CoveredEntryKeepsVerdict(c: Config, pos: nat, entry: string, key: string, e: Json, a: Json)
    requires pos <= |c.entries| && Covered(c, pos, entry)
    ensures Matches(c, key, e, a) <==> Matches(WithEntry(c, pos, entry), key, e, a)
  {
    hide FindNoise, Matches, Covered;
    var d := WithEntry(c, pos, entry);
    forall k ensures (c.Noisy(k) <==> d.Noisy(k)) && (c.Skips(k) <==> d.Skips(k)) {
      FindInserted(c.entries, pos, NoiseEntry(c.Lower(entry), []), c.Lower(k));
      if FindNoise(c.entries[..pos], c.Lower(k)).None? && Contains(c.Lower(k), c.Lower(entry)) {
        CoveredPathIsSkipped(c, pos, entry, k);
      }
    }
    SameNoiseSameVerdict(c, d, key, e, a);
  }

  lemma {:induction false} CoveredPathIsSkipped(c: Config, pos: nat, entry: string, k: string)
    requires pos <= |c.entries| && Covered(c, pos, entry)
    requires FindNoise(c.entries[..pos], c.Lower(k)).None? && Contains(c.Lower(k), c.Lower(entry))
    ensures c.Skips(k)
  {
    hide Contains;
    var j :| 0 <= j < |c.entries| && CoveredBy(c, pos, entry, j);
    ContainsTrans(c.Lower(k), c.Lower(entry), c.entries[j].keyLower);
    assert forall h :: 0 <= h < pos ==> c.entries[..pos][h] == c.entries[h];
    var i := Found(c.entries, c.Lower(k));
    if !Live(c, i) {
      var h :| 0 <= h < i && Contains(c.entries[i].keyLower, c.entries[h].keyLower);
      ContainsTrans(c.Lower(k), c.entries[i].keyLower, c.entries[h].keyLower);
    }
  }

  /** A text without the separator occurs in a separated pair only inside one of the two. */
  lemma {:induction false} WithinParts(a: string, x: char, b: string, t: string)
    requires x !in t && Contains(a + [x] + b, t)
    ensures Contains(a, t) || Contains(b, t)
  {
    var s := a + [x] + b;
    var i :| 0 <= i <= |s| && OccursAt(s, t, i);
    if i + |t| <= |a| {
      assert a[i..i + |t|] == s[i..i + |t|];
      assert OccursAt(a, t, i);
    } else if |a| < i {
      var j := i - |a| - 1;
      assert b[j..j + |t|] == s[i..i + |t|];
      assert OccursAt(b, t, j);
    } else {
      Overlap(s, t, i, |a|);
    }
  }

  lemma {:induction false} Overlap(s: string, t: string, i: nat, j: nat)
    requires i <= |s| && OccursAt(s, t, i) && i <= j < i + |t|
    ensures j < |s| && s[j] in t
  {
    assert s[i..i + |t|][j - i] == s[j];
  }

  /** A character whose lower case occurs neither in the index nor in the new entry. */
  ghost predicate FreshFor(c: Config, entry: string, z: char) {
    c.lower(z) !in c.Lower(entry) && forall i :: 0 <= i < |c.entries| ==> c.lower(z) !in c.entries[i].keyLower
  }

  /** A path made of two texts, separated and padded, that is not ignored. */
  lemma {:induction false} SeparatedKey(c: Config, start: string, end: string, z: char) returns (k: string)
    ensures !c.Global(k)
    ensures Contains(c.Lower(k), c.Lower(start)) && Contains(c.Lower(k), c.Lower(end))
    ensures forall t :: t != "" && c.lower(z) !in t && Contains(c.Lower(k), t) ==>
              Contains(c.Lower(start), t) || Contains(c.Lower(end), t)
  {
    var n := Longer(c.globalKeys);
    var x, pad := c.lower(z), seq(n, _ => z);
    k := start + [z] + (end + [z] + pad);
    var lowerPad := c.Lower(pad);
    assert |c.Lower(k)| > n;
    assert c.Lower(k) == c.Lower(start) + [x] + (c.Lower(end) + [x] + lowerPad);
    assert OccursAt(c.Lower(k), c.Lower(start), 0) && OccursAt(c.Lower(k), c.Lower(end), |start| + 1);
    forall t | t != "" && x !in t && Contains(c.Lower(k), t)
      ensures Contains(c.Lower(start), t) || Contains(c.Lower(end), t)
    {
      WithinParts(c.Lower(start), x, c.Lower(end) + [x] + lowerPad, t);
      if Contains(c.Lower(end) + [x] + lowerPad, t) {
        WithinParts(c.Lower(end), x, lowerPad, t);
        if Contains(lowerPad, t) {
          var i :| 0 <= i <= |lowerPad| && OccursAt(lowerPad, t, i);
          Overlap(lowerPad, t, i, i);
        }
      }
    }
  }

  /** A guarded entry that decides paths at or after the new position, before any key that occurs in the new one. */
  predicate Blocks(c: Config, pos: nat, entry: string, i: nat) {
    && pos <= i < |c.entries| && c.entries[i].regexps != [] && Live(c, i)
    && forall h :: 0 <= h < i ==> !Contains(c.Lower(entry), c.entries[h].keyLower)
  }

  /** An entry adds nothing when a shorter one already occurs in it. */
  ghost predicate Redundant(c: Config, entry: string) {
    exists i :: 0 <= i < |c.entries| && Contains(c.Lower(entry), c.entries[i].keyLower)
  }

  lemma {:induction false} UncoveredIsBlocked(c: Config, pos: nat, entry: string) returns (i: nat)
    requires pos <= |c.entries| && !Covered(c, pos, entry) && Redundant(c, entry)
    ensures Blocks(c, pos, entry, i)
  {
    hide Contains;
    var j := Found(c.entries, c.Lower(entry));
    assert !CoveredBy(c, pos, entry, j);
    if c.entries[j].regexps != [] {
      forall h | 0 <= h < j ensures !Contains(c.entries[j].keyLower, c.entries[h].keyLower) {
        if Contains(c.entries[j].keyLower, c.entries[h].keyLower) {
          ContainsTrans(c.Lower(entry), c.entries[j].keyLower, c.entries[h].keyLower);
        }
      }
      i := j;
    } else {
      i :| pos <= i < j && c.entries[i].regexps != [] && Live(c, i);
    }
  }

  /** An entry that is not covered decides some path anew, which the index did not skip. */
  lemma {:induction false} UncoveredSkipsMore(c: Config, pos: nat, entry: string, keys: seq<string>, z: char)
    returns (k: string)
    requires pos <= |c.entries| && !Covered(c, pos, entry) && Spelled(c, keys) && FreshFor(c, entry, z)
    ensures !c.Global(k) && !c.Skips(k) && WithEntry(c, pos, entry).Skips(k)
  {
    hide Contains, FindNoise;
    if Redundant(c, entry) {
      var i := UncoveredIsBlocked(c, pos, entry);
      k := SeparatedKey(c, keys[i], entry, z);
      FoundAt(c.entries, c.Lower(k), i);
    } else {
      k := SeparatedKey(c, entry, entry, z);
      NothingFound(c.entries, c.Lower(k));
    }
    NothingFound(c.entries[..pos], c.Lower(k));
    FindInserted(c.entries, pos, NoiseEntry(c.Lower(entry), []), c.Lower(k));
  }

  lemma {:induction false} NothingFound(entries: seq<NoiseEntry>, keyLower: string)
    requires forall i :: 0 <= i < |entries| ==> !Contains(keyLower, entries[i].keyLower)
    ensures FindNoise(entries, keyLower).None?
  {
  }

  /** Where `k` is not skipped the crosswise arrays match. */
  lemma {:induction false} CrosswiseIsFound(c: Config, k: string)
    requires c.ignoreOrdering && !c.Skips("") && !c.Skips(k) && !c.Global(k)
    ensures Matches(c, "", Arr([Obj(map[]), Lone(k)]), Arr([Lone(k), Obj(map[])]))
  {
    var empty, full := Obj(map[]), Lone(k);
    var es, actual, unused := [empty, full], [full, empty], NoneUsed(2);
    JsonMatcherProofs.Reflexive(c, "", empty);
    JsonMatcherProofs.Reflexive(c, "", full);
    assert !Matches(c, "", empty, full) by { assert k in full.m && ChildKey("", k) == k; }
    ClaimIsFirstFit(c, "", empty, actual, unused);
    assert Claim(c, "", empty, actual, unused) == 1 by { assert actual[0] == full && actual[1] == empty; }
    var used := unused[1 := true];
    ClaimIsFirstFit(c, "", full, actual, used);
    assert Claim(c, "", full, actual, used) == 0;
    assert es[1..] == [full] && es[1..][0] == full && es[1..][1..] == [];
    assert Greedy(c, "", es[1..], actual, used);
  }

  /** For any index: with unordered arrays adding an entry keeps every match exactly when the entry is covered. */
  lemma {:induction false} AddingNoiseKeepsUnorderedMatchesIffCovered(c: Config, pos: nat, entry: string,
                                                                      keys: seq<string>, z: char)
    requires pos <= |c.entries| && c.ignoreOrdering && entry != "" && Spelled(c, keys) && FreshFor(c, entry, z)
    ensures (forall e, a :: Matches(c, "", e, a) ==> Matches(WithEntry(c, pos, entry), "", e, a))
        <==> Covered(c, pos, entry)
  {
    hide Matches, Covered, Spelled, FreshFor, FindNoise;
    var d := WithEntry(c, pos, entry);
    if Covered(c, pos, entry) {
      forall e, a ensures Matches(c, "", e, a) ==> Matches(d, "", e, a) {
        CoveredEntryKeepsVerdict(c, pos, entry, "", e, a);
      }
    } else {
      var k := UncoveredEntryLosesMatch(c, pos, entry, keys, z);
    }
  }

  /** The documents on which an entry that is not covered loses a match. */
  lemma {:induction false} UncoveredEntryLosesMatch(c: Config, pos: nat, entry: string, keys: seq<string>, z: char)
    returns (k: string)
    requires pos <= |c.entries| && c.ignoreOrdering && entry != "" && Spelled(c, keys) && FreshFor(c, entry, z)
    requires !Covered(c, pos, entry)
    ensures var e, a := Arr([Obj(map[]), Lone(k)]), Arr([Lone(k), Obj(map[])]);
            Matches(c, "", e, a) && !Matches(WithEntry(c, pos, entry), "", e, a)
  {
    hide Matches, Covered, Spelled, FreshFor, FindNoise;
    k := UncoveredSkipsMore(c, pos, entry, keys, z);
    RootIsNotSkipped(c, pos, entry, keys);
    CrosswiseIsFound(c, k);
    CrosswiseIsMissed(WithEntry(c, pos, entry), k);
  }

  lemma {:induction false} RootIsNotSkipped(c: Config, pos: nat, entry: string, keys: seq<string>)
    requires pos <= |c.entries| && entry != "" && Spelled(c, keys)
    ensures !c.Skips("") && !WithEntry(c, pos, entry).Skips("")
  {
    NothingFound(c.entries, "");
    FindInserted(c.entries, pos, NoiseEntry(c.Lower(entry), []), "");
  }

  /** Where no entry carries regexes, an entry is covered exactly when an existing key occurs in it. */
  lemma {:induction false} CoveredIffRedundant(c: Config, pos: nat, entry: string)
    requires pos <= |c.entries| && Unguarded(c.entries)
    ensures Covered(c, pos, entry) <==> Redundant(c, entry)
  {
    if Redundant(c, entry) {
      var i :| 0 <= i < |c.entries| && Contains(c.Lower(entry), c.entries[i].keyLower);
      assert CoveredBy(c, pos, entry, i);
    }
  }

  /** The same for the entry point: a further dotted key without regexes, wherever Go's map order puts it. */
  lemma {:induction false} AddingDottedNoiseIffCovered(c: Config, noise: map<string, seq<Regex>>, order: seq<string>,
                                                       pos: nat, entry: string, z: char)
    requires BuiltFrom(c, noise, order) && c.ignoreOrdering && pos <= |order|
    requires Dotted(entry) && entry !in noise && FreshFor(c, entry, z)
    ensures BuiltFrom(WithEntry(c, pos, entry), noise[entry := []], Inserted(order, pos, entry))
    ensures (forall e, a :: Matches(c, "", e, a) ==> Matches(WithEntry(c, pos, entry), "", e, a))
        <==> Covered(c, pos, entry)
  {
    hide Matches, Covered, FreshFor, FindNoise;
    assert Spelled(c, order) by { assert forall i :: 0 <= i < |order| ==> order[i] in order; }
    AddingNoiseKeepsUnorderedMatchesIffCovered(c, pos, entry, order, z);
    BuiltWithEntry(c, noise, order, pos, entry);
  }

  lemma {:induction false} BuiltWithEntry(c: Config, noise: map<string, seq<Regex>>, order: seq<string>, pos: nat,
                                          entry: string)
    requires BuiltFrom(c, noise, order) && pos <= |order| && Dotted(entry) && entry !in noise
    ensures BuiltFrom(WithEntry(c, pos, entry), noise[entry := []], Inserted(order, pos, entry))
  {
    OrderWithEntry(noise, order, pos, entry);
    IndexWithEntry(c, noise, order, pos, entry);
    assert forall k :: k in noise[entry := []] && !Dotted(k) <==> k in noise && !Dotted(k);
  }

  lemma {:induction false} OrderWithEntry(noise: map<string, seq<Regex>>, order: seq<string>, pos: nat, entry: string)
    requires OrderOf(noise, order) && pos <= |order| && Dotted(entry) && entry !in noise
    ensures OrderOf(noise[entry := []], Inserted(order, pos, entry))
  {
    hide Dotted;
    var o := Inserted(order, pos, entry);
    forall k ensures k in o <==> k == entry || k in order { InsertedMember(order, pos, entry, k); }
    assert forall i :: 0 <= i < |o| ==> o[i] == if i < pos then order[i] else if i == pos then entry else order[i - 1];
    assert entry !in order && forall i :: 0 <= i < |order| ==> order[i] in order;
  }

  lemma {:induction false} InsertedMember(xs: seq<string>, pos: nat, x: string, y: string)
    requires pos <= |xs|
    ensures y in Inserted(xs, pos, x) <==> y == x || y in xs
  {
    assert xs == xs[..pos] + xs[pos..];
  }

  lemma {:induction false} IndexWithEntry(c: Config, noise: map<string, seq<Regex>>, order: seq<string>, pos: nat,
                                          entry: string)
    requires IndexOf(c.entries, c.lower, noise, order) && pos <= |order| && entry !in noise
    ensures IndexOf(WithEntry(c, pos, entry).entries, c.lower, noise[entry := []], Inserted(order, pos, entry))
  {
    var o, entries := Inserted(order, pos, entry), WithEntry(c, pos, entry).entries;
    forall i | 0 <= i < |o|
      ensures o[i] in noise[entry := []] && entries[i] == NoiseEntry(c.Lower(o[i]), noise[entry := []][o[i]])
    {
      if i != pos {
        var j := if i < pos then i else i - 1;
        assert o[i] == order[j] && entries[i] == c.entries[j];
      }
    }
  }
}

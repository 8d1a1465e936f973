/** What the noise-aware comparison means: reflexivity, greedy pairings, and completeness where no path is skipped. */
module JsonMatcherProofs {
  import opened JsonTree
  import opened JsonMatcher

  // ---- Reflexivity, and the pairing behind an unordered success ----

  /** Every document matches itself, under any noise and in both array modes. */
  lemma {:induction false} Reflexive(c: Config, key: string, e: Json)
    ensures Matches(c, key, e, e)
    decreases e, 0
  {
    match e
    case Obj(m) =>
      forall k | k in m ensures Matches(c, ChildKey(key, k), m[k], m[k]) {
        Reflexive(c, ChildKey(key, k), m[k]);
      }
    case Arr(es) =>
      forall i | 0 <= i < |es| ensures Matches(c, key, es[i], es[i]) {
        Reflexive(c, key, es[i]);
      }
      assert es[0..] == es;
      GreedyTakesIdentity(c, key, es, 0, NoneUsed(|es|));
    case _ =>
  }

  /**
   * Against itself, an array claims its own elements in order: everything before `i` is used, so `i` is the first
   * fit.
   */
  lemma {:induction false} GreedyTakesIdentity(c: Config, key: string, es: seq<Json>, i: nat, used: seq<bool>)
    requires i <= |es| == |used|
    requires forall j :: 0 <= j < |es| ==> (used[j] <==> j < i)
    requires forall j :: 0 <= j < |es| ==> Matches(c, key, es[j], es[j])
    ensures Greedy(c, key, es[i..], es, used)
    decreases |es| - i
  {
    if i < |es| {
      assert Claim(c, key, es[i], es, used) == i;
      assert es[i..][1..] == es[i + 1..];
      GreedyTakesIdentity(c, key, es, i + 1, used[i := true]);
    }
  }

  /** `p` sends the indices of `es` to distinct unused indices of `actual`. */
  ghost predicate Injection(p: seq<nat>, n: nat, used: seq<bool>) {
    && |p| == n
    && (forall i :: 0 <= i < n ==> p[i] < |used| && !used[p[i]])
    && (forall i, j :: 0 <= i < j < n ==> p[i] != p[j])
  }

  /** A greedy success is witnessed by an injective pairing whose pairs all match. */
  lemma {:induction false} GreedySuccessPairs(c: Config, key: string, es: seq<Json>, actual: seq<Json>,
                                              used: seq<bool>) returns (p: seq<nat>)
    requires |used| == |actual| && Greedy(c, key, es, actual, used)
    ensures Injection(p, |es|, used)
    ensures forall i :: 0 <= i < |es| ==> Matches(c, key, es[i], actual[p[i]])
  {
    if es == [] {
      p := [];
    } else {
      var j := Claim(c, key, es[0], actual, used);
      ClaimIsFirstFit(c, key, es[0], actual, used);
      var rest := GreedySuccessPairs(c, key, es[1..], actual, used[j := true]);
      p := [j] + rest;
    }
  }

  // ---- Where no path is skipped, matching is equality of canonical forms ----

  /** A document with ignored keys dropped, noisy primitives blanked and array order forgotten. */
  datatype Canon =
    | CNull
    | CBool(b: bool)
    | CNum(n: real)
    | CStr(s: string)
    | CArr(elems: multiset<Canon>)
    | CObj(fields: map<string, Canon>)

  ghost function Canonical(c: Config, key: string, v: Json): Canon
    decreases v
  {
    var noisy := c.Noisy(key);
    match v
    case Null => CNull
    case Bool(b) => CBool(b && !noisy)
    case Num(n) => CNum(if noisy then 0.0 else n)
    case Str(s) => CStr(if noisy then "" else s)
    case Arr(es) => CArr(CanonBag(c, key, es))
    case Obj(m) => CObj(map k | k in m && !c.Global(k) :: Canonical(c, ChildKey(key, k), m[k]))
  }

  ghost function CanonBag(c: Config, key: string, es: seq<Json>): (r: multiset<Canon>)
    ensures |r| == |es|
    decreases es
  {
    if es == [] then multiset{} else multiset{Canonical(c, key, es[0])} + CanonBag(c, key, es[1..])
  }

  /** The canonical forms of the elements not yet claimed. */
  ghost function UnusedBag(c: Config, key: string, actual: seq<Json>, used: seq<bool>): multiset<Canon>
    requires |used| == |actual|
  {
    if actual == [] then multiset{}
    else
      (if used[0] then multiset{} else multiset{Canonical(c, key, actual[0])})
      + UnusedBag(c, key, actual[1..], used[1..])
  }

  lemma {:induction false} UnusedBagClaim(c: Config, key: string, actual: seq<Json>, used: seq<bool>, j: nat)
    requires |used| == |actual| && j < |actual| && !used[j]
    ensures UnusedBag(c, key, actual, used)
        == UnusedBag(c, key, actual, used[j := true]) + multiset{Canonical(c, key, actual[j])}
  {
    if j == 0 {
      assert used[0 := true][1..] == used[1..];
    } else {
      assert used[j := true][1..] == used[1..][j - 1 := true];
      UnusedBagClaim(c, key, actual[1..], used[1..], j - 1);
    }
  }

  lemma {:induction false} UnusedBagMember(c: Config, key: string, actual: seq<Json>, used: seq<bool>, x: Canon)
    requires |used| == |actual|
    ensures x in UnusedBag(c, key, actual, used) ==>
        exists j :: 0 <= j < |actual| && !used[j] && Canonical(c, key, actual[j]) == x
  {
    if actual != [] && x in UnusedBag(c, key, actual, used) && (used[0] || Canonical(c, key, actual[0]) != x) {
      UnusedBagMember(c, key, actual[1..], used[1..], x);
      var j :| 0 <= j < |actual[1..]| && !used[1..][j] && Canonical(c, key, actual[1..][j]) == x;
      assert !used[j + 1] && Canonical(c, key, actual[j + 1]) == x;
    }
  }

  lemma {:induction false} UnusedBagFresh(c: Config, key: string, actual: seq<Json>)
    ensures UnusedBag(c, key, actual, NoneUsed(|actual|)) == CanonBag(c, key, actual)
  {
    if actual != [] {
      assert NoneUsed(|actual|)[1..] == NoneUsed(|actual[1..]|);
      UnusedBagFresh(c, key, actual[1..]);
    }
  }

  /** The index covers no whole subtree: every entry that decides a path carries regexes. */
  ghost predicate NoSkips(c: Config) { forall key :: !c.Skips(key) }

  /** Where no path is skipped the unordered verdict is equality of canonical forms: no greedy choice loses a match. */
  lemma {:induction false} UnorderedIsCanonicalEquality(c: Config, key: string, e: Json, a: Json)
    requires NoSkips(c) && c.ignoreOrdering
    ensures Matches(c, key, e, a) <==> Canonical(c, key, e) == Canonical(c, key, a)
    decreases e, 0
  {
    match e
    case Obj(m) =>
      if a.Obj? {
        forall k | k in m && k in a.m
          ensures Matches(c, ChildKey(key, k), m[k], a.m[k])
              <==> Canonical(c, ChildKey(key, k), m[k]) == Canonical(c, ChildKey(key, k), a.m[k])
        {
          UnorderedIsCanonicalEquality(c, ChildKey(key, k), m[k], a.m[k]);
        }
        ObjectsAgree(c, key, m, a.m);
      }
    case Arr(es) =>
      if a.Arr? && |es| == |a.es| {
        UnusedBagFresh(c, key, a.es);
        GreedyIsBagEquality(c, key, es, a.es, NoneUsed(|es|));
      }
    case _ =>
  }

  lemma {:induction false} ObjectsAgree(c: Config, key: string, m: map<string, Json>, n: map<string, Json>)
    requires NoSkips(c)
    requires forall k :: k in m && k in n ==>
               var child := ChildKey(key, k);
               Matches(c, child, m[k], n[k]) <==> Canonical(c, child, m[k]) == Canonical(c, child, n[k])
    ensures Matches(c, key, Obj(m), Obj(n)) <==> Canonical(c, key, Obj(m)) == Canonical(c, key, Obj(n))
  {
    var cm, cn := Canonical(c, key, Obj(m)).fields, Canonical(c, key, Obj(n)).fields;
    if Matches(c, key, Obj(m), Obj(n)) {
      assert cm.Keys == cn.Keys;
      assert forall k :: k in cm ==> cm[k] == cn[k];
    }
    if cm == cn {
      forall k | k in m && !c.Global(k)
        ensures k in n && Matches(c, ChildKey(key, k), m[k], n[k])
      {
        assert k in cm && cm[k] == cn[k];
      }
      forall k | k in n && !c.Global(k) ensures k in m {
        assert k in cn && k in cm;
      }
    }
  }

  /** Greedy claiming succeeds exactly when the expected elements and the unclaimed ones are the same bag. */
  lemma {:induction false} GreedyIsBagEquality(c: Config, key: string, es: seq<Json>, actual: seq<Json>,
                                               used: seq<bool>)
    requires NoSkips(c) && c.ignoreOrdering && |used| == |actual| && |UnusedBag(c, key, actual, used)| == |es|
    ensures Greedy(c, key, es, actual, used) <==> CanonBag(c, key, es) == UnusedBag(c, key, actual, used)
    decreases es, 0
  {
    if es != [] {
      var x := es[0];
      forall i | 0 <= i < |actual|
        ensures Matches(c, key, x, actual[i]) <==> Canonical(c, key, x) == Canonical(c, key, actual[i])
      {
        UnorderedIsCanonicalEquality(c, key, x, actual[i]);
      }
      var j := Claim(c, key, x, actual, used);
      ClaimIsFirstFit(c, key, x, actual, used);
      if j < |actual| {
        UnusedBagClaim(c, key, actual, used, j);
        var rest := UnusedBag(c, key, actual, used[j := true]);
        assert UnusedBag(c, key, actual, used) == multiset{Canonical(c, key, x)} + rest;
        GreedyIsBagEquality(c, key, es[1..], actual, used[j := true]);
        BagCancel(Canonical(c, key, x), CanonBag(c, key, es[1..]), rest);
      } else {
        UnusedBagMember(c, key, actual, used, Canonical(c, key, x));
        assert Canonical(c, key, x) in CanonBag(c, key, es);
      }
    }
  }

  lemma {:induction false} BagCancel(x: Canon, a: multiset<Canon>, b: multiset<Canon>)
    ensures multiset{x} + a == multiset{x} + b <==> a == b
  {
    if multiset{x} + a == multiset{x} + b {
      assert a == (multiset{x} + a) - multiset{x};
      assert b == (multiset{x} + b) - multiset{x};
    }
  }

  /** Where no path is skipped, unordered matching is an equivalence. */
  lemma {:induction false} UnorderedIsEquivalence(c: Config, key: string, x: Json, y: Json, z: Json)
    requires NoSkips(c) && c.ignoreOrdering
    ensures Matches(c, key, x, y) ==> Matches(c, key, y, x)
    ensures Matches(c, key, x, y) && Matches(c, key, y, z) ==> Matches(c, key, x, z)
  {
    UnorderedIsCanonicalEquality(c, key, x, y);
    UnorderedIsCanonicalEquality(c, key, y, x);
    UnorderedIsCanonicalEquality(c, key, y, z);
    UnorderedIsCanonicalEquality(c, key, x, z);
  }

  /** The declarative reading of an unordered match: at every array some pairing of the elements works. */
  ghost predicate Pairs(c: Config, key: string, e: Json, a: Json)
    decreases e
  {
    match e
    case Obj(m) =>
      a.Obj? &&
      (c.Skips(key) ||
       (&& (forall k :: k in m && !c.Global(k) ==>
                          k in a.m && (c.Skips(ChildKey(key, k)) || Pairs(c, ChildKey(key, k), m[k], a.m[k])))
        && (forall k :: k in a.m && !c.Global(k) && k !in m ==> c.Skips(ChildKey(key, k)))))
    case Arr(es) =>
      a.Arr? && |es| == |a.es| && (c.Skips(key) || PairsUp(c, key, es, a.es))
    case _ => Matches(c, key, e, a)
  }

  ghost predicate PairsUp(c: Config, key: string, es: seq<Json>, actual: seq<Json>)
    requires |es| == |actual|
    decreases es, 0
  {
    exists p :: Injection(p, |es|, NoneUsed(|es|)) && forall i :: 0 <= i < |es| ==> Pairs(c, key, es[i], actual[p[i]])
  }

  /**
   * Where no path is skipped the greedy verdict is complete: it accepts exactly the documents that can be paired up
   * at every array.
   */
  lemma {:induction false} GreedyIsComplete(c: Config, key: string, e: Json, a: Json)
    requires NoSkips(c) && c.ignoreOrdering
    ensures Matches(c, key, e, a) <==> Pairs(c, key, e, a)
    decreases e
  {
    if e.Obj? && a.Obj? {
      hide Matches, Pairs, NoSkips;
      forall k | k in e.m && k in a.m
        ensures Matches(c, ChildKey(key, k), e.m[k], a.m[k]) <==> Pairs(c, ChildKey(key, k), e.m[k], a.m[k])
      {
        GreedyIsComplete(c, ChildKey(key, k), e.m[k], a.m[k]);
      }
      ObjectsPairUp(c, key, e.m, a.m);
    } else if e.Arr? && a.Arr? {
      hide Matches, Pairs, NoSkips;
      forall i, j | 0 <= i < |e.es| && 0 <= j < |a.es|
        ensures Matches(c, key, e.es[i], a.es[j]) <==> Pairs(c, key, e.es[i], a.es[j])
      {
        GreedyIsComplete(c, key, e.es[i], a.es[j]);
      }
      ArraysPairUp(c, key, e.es, a.es);
    }
  }

  lemma {:induction false} ObjectsPairUp(c: Config, key: string, m: map<string, Json>, n: map<string, Json>)
    requires forall k :: k in m && k in n ==>
               (Matches(c, ChildKey(key, k), m[k], n[k]) <==> Pairs(c, ChildKey(key, k), m[k], n[k]))
    ensures Matches(c, key, Obj(m), Obj(n)) <==> Pairs(c, key, Obj(m), Obj(n))
  {
  }

  lemma {:induction false} ArraysPairUp(c: Config, key: string, es: seq<Json>, es': seq<Json>)
    requires NoSkips(c) && c.ignoreOrdering
    requires forall i, j :: 0 <= i < |es| && 0 <= j < |es'| ==>
               (Matches(c, key, es[i], es'[j]) <==> Pairs(c, key, es[i], es'[j]))
    ensures Matches(c, key, Arr(es), Arr(es')) <==> Pairs(c, key, Arr(es), Arr(es'))
  {
    if |es| == |es'| {
      if Matches(c, key, Arr(es), Arr(es')) { MatchedArraysPair(c, key, es, es'); }
      if Pairs(c, key, Arr(es), Arr(es')) {
        hide Matches;
        assert !c.Skips(key) && PairsUp(c, key, es, es');
        var p :| Injection(p, |es|, NoneUsed(|es|)) && forall i :: 0 <= i < |es| ==> Pairs(c, key, es[i], es'[p[i]]);
        PairedArraysMatch(c, key, es, es', p);
      }
    }
  }

  lemma {:induction false} MatchedArraysPair(c: Config, key: string, es: seq<Json>, es': seq<Json>)
    requires NoSkips(c) && c.ignoreOrdering && |es| == |es'| && Matches(c, key, Arr(es), Arr(es'))
    requires forall i, j :: 0 <= i < |es| && 0 <= j < |es'| ==>
               (Matches(c, key, es[i], es'[j]) ==> Pairs(c, key, es[i], es'[j]))
    ensures PairsUp(c, key, es, es')
  {
    hide Pairs;
    var p := GreedySuccessPairs(c, key, es, es', NoneUsed(|es|));
    assert forall i :: 0 <= i < |es| ==> Pairs(c, key, es[i], es'[p[i]]);
  }

  lemma {:induction false} PairedArraysMatch(c: Config, key: string, es: seq<Json>, es': seq<Json>, p: seq<nat>)
    requires NoSkips(c) && c.ignoreOrdering && |es| == |es'| && Injection(p, |es|, NoneUsed(|es|))
    requires forall i :: 0 <= i < |es| ==> Matches(c, key, es[i], es'[p[i]])
    ensures Matches(c, key, Arr(es), Arr(es'))
  {
    hide Matches;
    forall i | 0 <= i < |es| ensures Canonical(c, key, es[i]) == Canonical(c, key, es'[p[i]]) {
      UnorderedIsCanonicalEquality(c, key, es[i], es'[p[i]]);
    }
    UnusedBagFresh(c, key, es');
    PairingGivesBag(c, key, es, es', NoneUsed(|es|), p);
    UnorderedIsCanonicalEquality(c, key, Arr(es), Arr(es'));
  }

  lemma {:induction false} PairingGivesBag(c: Config, key: string, es: seq<Json>, actual: seq<Json>, used: seq<bool>,
      p: seq<nat>)
    requires |used| == |actual| && |UnusedBag(c, key, actual, used)| == |es| && Injection(p, |es|, used)
    requires forall i :: 0 <= i < |es| ==> Canonical(c, key, es[i]) == Canonical(c, key, actual[p[i]])
    ensures CanonBag(c, key, es) == UnusedBag(c, key, actual, used)
  {
    if es != [] {
      UnusedBagClaim(c, key, actual, used, p[0]);
      PairingGivesBag(c, key, es[1..], actual, used[p[0] := true], p[1..]);
    }
  }
}

/** The second matcher: deep equality after removing the globally ignored keys, and where it agrees with the first. */
module JsonStrip {
  import opened Text
  import opened JsonTree
  import opened JsonMatcher

  ghost predicate GlobalOnly(c: Config) { c.entries == [] }

  /** Whether key `k` is ignored: as spelled, or after trimming surrounding white space. */
  predicate Ignores(c: Config, trim: bool, k: string) {
    c.Lower(if trim then TrimSpace(k) else k) in c.globalKeys
  }

  function Strip(c: Config, trim: bool, v: Json): Json
    decreases v
  {
    match v
    case Obj(m) => Obj(map k | k in m && !Ignores(c, trim, k) :: Strip(c, trim, m[k]))
    case Arr(es) => Arr(StripAll(c, trim, es))
    case _ => v
  }

  function StripAll(c: Config, trim: bool, es: seq<Json>): (r: seq<Json>)
    ensures |r| == |es|
    ensures forall i :: 0 <= i < |es| ==> r[i] == Strip(c, trim, es[i])
    decreases es
  {
    if es == [] then [] else [Strip(c, trim, es[0])] + StripAll(c, trim, es[1..])
  }

  function RemoveGlobalNoiseKeys(c: Config, v: Json): Json {
    Strip(c, true, v)
  }

  /** `compareJSONTextWithNoise` on decoded documents. */
  predicate CompareJson(c: Config, e: Json, a: Json) {
    RemoveGlobalNoiseKeys(c, e) == RemoveGlobalNoiseKeys(c, a)
  }

  /** With global keys only and ordered arrays, matching is equality after dropping the ignored keys as spelled. */
  lemma {:induction false} OrderedIsStrippedEquality(c: Config, key: string, e: Json, a: Json)
    requires GlobalOnly(c) && !c.ignoreOrdering
    ensures Matches(c, key, e, a) <==> Strip(c, false, e) == Strip(c, false, a)
    decreases e
  {
    match e
    case Obj(m) =>
      if a.Obj? {
        forall k | k in m && k in a.m
          ensures Matches(c, ChildKey(key, k), m[k], a.m[k]) <==> Strip(c, false, m[k]) == Strip(c, false, a.m[k])
        {
          OrderedIsStrippedEquality(c, ChildKey(key, k), m[k], a.m[k]);
        }
        StrippedObjectsAgree(c, key, m, a.m);
      }
    case Arr(es) =>
      if a.Arr? {
        forall i | 0 <= i < |es| && i < |a.es|
          ensures Matches(c, key, es[i], a.es[i]) <==> Strip(c, false, es[i]) == Strip(c, false, a.es[i])
        {
          OrderedIsStrippedEquality(c, key, es[i], a.es[i]);
        }
        var se, sa := StripAll(c, false, es), StripAll(c, false, a.es);
        assert se == sa <==> |es| == |a.es| && forall i :: 0 <= i < |es| ==> se[i] == sa[i];
      }
    case _ =>
  }

  lemma {:induction false} StrippedObjectsAgree(c: Config, key: string, m: map<string, Json>, n: map<string, Json>)
    requires GlobalOnly(c)
    requires forall k :: k in m && k in n ==>
               (Matches(c, ChildKey(key, k), m[k], n[k]) <==> Strip(c, false, m[k]) == Strip(c, false, n[k]))
    ensures Matches(c, key, Obj(m), Obj(n)) <==> Strip(c, false, Obj(m)) == Strip(c, false, Obj(n))
  {
    hide Strip;
    StripFields(c, m);
    StripFields(c, n);
    var sm, sn := Strip(c, false, Obj(m)).m, Strip(c, false, Obj(n)).m;
    if Matches(c, key, Obj(m), Obj(n)) {
      assert sm.Keys == sn.Keys;
      assert forall k :: k in sm ==> sm[k] == sn[k];
      assert sm == sn;
    }
    if sm == sn {
      forall k | k in m && !c.Global(k)
        ensures k in n && Matches(c, ChildKey(key, k), m[k], n[k])
      {
        assert k in sm && sm[k] == sn[k];
      }
      forall k | k in n && !c.Global(k) ensures k in m {
        assert k in sn && k in sm;
      }
    }
  }

  lemma {:induction false} StripFields(c: Config, m: map<string, Json>)
    ensures var s := Strip(c, false, Obj(m));
            && s.Obj? && (forall k :: k in s.m <==> k in m && !c.Global(k))
            && forall k :: k in s.m ==> s.m[k] == Strip(c, false, m[k])
  {
  }

  /** Every object key of `v`, at any depth, is in the vocabulary. */
  ghost predicate UsesKeys(vocabulary: iset<string>, v: Json) {
    match v
    case Obj(m) => forall k :: k in m ==> k in vocabulary && UsesKeys(vocabulary, m[k])
    case Arr(es) => forall i :: 0 <= i < |es| ==> UsesKeys(vocabulary, es[i])
    case _ => true
  }

  lemma {:induction false} TrimmingIsInvisible(c: Config, vocabulary: iset<string>, v: Json)
    requires forall k :: k in vocabulary ==> (Ignores(c, true, k) <==> Ignores(c, false, k))
    requires UsesKeys(vocabulary, v)
    ensures Strip(c, true, v) == Strip(c, false, v)
    decreases v
  {
    match v
    case Obj(m) =>
      forall k | k in m ensures Strip(c, true, m[k]) == Strip(c, false, m[k]) {
        TrimmingIsInvisible(c, vocabulary, m[k]);
      }
      assert Strip(c, true, v).m == Strip(c, false, v).m;
    case Arr(es) =>
      forall i | 0 <= i < |es| ensures Strip(c, true, es[i]) == Strip(c, false, es[i]) {
        TrimmingIsInvisible(c, vocabulary, es[i]);
      }
    case _ =>
  }

  /** The two matchers agree on all documents over a vocabulary exactly when trimming changes no key's verdict in it. */
  lemma {:induction false} MatchersAgreeIff(c: Config, vocabulary: iset<string>)
    requires GlobalOnly(c) && !c.ignoreOrdering
    ensures (forall e, a :: UsesKeys(vocabulary, e) && UsesKeys(vocabulary, a) ==>
        (Matches(c, "", e, a) <==> CompareJson(c, e, a)))
            <==> (forall k :: k in vocabulary ==>
                    (MapChars(c.lower, TrimSpace(k)) in c.globalKeys <==> MapChars(c.lower, k) in c.globalKeys))
  {
    hide Matches, Strip, TrimSpace;
    if forall k :: k in vocabulary ==> (Ignores(c, true, k) <==> Ignores(c, false, k)) {
      forall e, a | UsesKeys(vocabulary, e) && UsesKeys(vocabulary, a)
        ensures Matches(c, "", e, a) <==> CompareJson(c, e, a)
      {
        OrderedIsStrippedEquality(c, "", e, a);
        TrimmingIsInvisible(c, vocabulary, e);
        TrimmingIsInvisible(c, vocabulary, a);
      }
    } else {
      var k :| k in vocabulary && Ignores(c, true, k) != Ignores(c, false, k);
      TrimmedKeyDisagrees(c, k);
      assert UsesKeys(vocabulary, Obj(map[k := Null])) && UsesKeys(vocabulary, Obj(map[]));
    }
  }

  /** A key whose trimmed spelling is judged differently, alone in an object, separates the two matchers. */
  lemma {:induction false} TrimmedKeyDisagrees(c: Config, k: string)
    requires GlobalOnly(c) && !c.ignoreOrdering
    requires MapChars(c.lower, TrimSpace(k)) in c.globalKeys <==> MapChars(c.lower, k) !in c.globalKeys
    ensures Matches(c, "", Obj(map[k := Null]), Obj(map[])) != CompareJson(c, Obj(map[k := Null]), Obj(map[]))
  {
    var m: map<string, Json> := map[k := Null];
    assert k in m;
    assert Matches(c, "", Obj(m), Obj(map[])) <==> Ignores(c, false, k);
    var sm, sn := Strip(c, true, Obj(m)).m, Strip(c, true, Obj(map[])).m;
    assert sn == map[];
    assert k in sm <==> !Ignores(c, true, k);
    assert sm.Keys <= {k};
    assert sm == map[] <==> k !in sm;
  }

  /** With "a" to be ignored, " a" is ignored by the text comparison and missed by the matcher. */
  lemma {:induction false} PaddedKeyDisagrees(c: Config)
    requires GlobalOnly(c) && !c.ignoreOrdering && c.globalKeys == {"a"} && c.lower('a') == 'a'
    ensures CompareJson(c, Obj(map[" a" := Null]), Obj(map[]))
    ensures !Matches(c, "", Obj(map[" a" := Null]), Obj(map[]))
  {
    assert TrimSpace(" a") == "a" by {
      assert TrimLeft(IsSpace, " a") == "a";
      TrimStable(IsSpace, "a");
    }
    hide TrimSpace;
    assert MapChars(c.lower, "a") == "a" && |MapChars(c.lower, " a")| == 2;
    TrimmedKeyDisagrees(c, " a");
    var m: map<string, Json> := map[" a" := Null];
    assert " a" in m && ChildKey("", " a") == " a";
  }

  ghost function TrimmedKeys(): iset<string> {
    iset k | TrimSpace(k) == k
  }

  /** Documents whose keys have no surrounding white space: the two matchers always agree. */
  lemma {:induction false} MatchersAgreeOnTrimmedKeys(c: Config, e: Json, a: Json)
    requires GlobalOnly(c) && !c.ignoreOrdering
    requires UsesKeys(TrimmedKeys(), e) && UsesKeys(TrimmedKeys(), a)
    ensures Matches(c, "", e, a) <==> CompareJson(c, e, a)
  {
    MatchersAgreeIff(c, TrimmedKeys());
  }
}

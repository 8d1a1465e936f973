/** The ordered comparison, place by place: what must agree where, in terms of the noise entries themselves. */
module JsonOrdered {
  import opened Text
  import opened JsonTree
  import opened JsonMatcher
  import opened JsonNoise
  import opened JsonCompleteness

  // ---- What an entry does to a path ----

  /** Some entry's key occurs in the lower-cased path. */
  ghost predicate Tolerated(c: Config, key: string) {
    exists i :: 0 <= i < |c.entries| && Contains(MapChars(c.lower, key), c.entries[i].keyLower)
  }

  /** The first entry whose key occurs in the lower-cased path carries no regexes. */
  ghost predicate Exempt(c: Config, key: string) {
    exists i ::
      && 0 <= i < |c.entries| && Contains(MapChars(c.lower, key), c.entries[i].keyLower) && c.entries[i].regexps == []
      && forall j :: 0 <= j < i ==> !Contains(MapChars(c.lower, key), c.entries[j].keyLower)
  }

  predicate Ignored(c: Config, k: string) { MapChars(c.lower, k) in c.globalKeys }

  lemma {:induction false} NoiseByEntries(c: Config, key: string)
    ensures c.Noisy(key) <==> Tolerated(c, key)
    ensures c.Skips(key) <==> Exempt(c, key)
    ensures c.Global(key) <==> Ignored(c, key)
  {
    if c.Skips(key) {
      var i := Found(c.entries, c.Lower(key));
    }
    if i :| && 0 <= i < |c.entries| && Contains(c.Lower(key), c.entries[i].keyLower) && c.entries[i].regexps == []
            && forall j :: 0 <= j < i ==> !Contains(c.Lower(key), c.entries[j].keyLower) {
      FoundAt(c.entries, c.Lower(key), i);
    }
  }

  predicate SameKind(e: Json, a: Json) {
    && (e.Null? <==> a.Null?) && (e.Bool? <==> a.Bool?) && (e.Num? <==> a.Num?)
    && (e.Str? <==> a.Str?) && (e.Arr? <==> a.Arr?) && (e.Obj? <==> a.Obj?)
  }

  /** In both modes: values that are not containers match when they are of one kind, and equal or tolerated. */
  lemma {:induction false} ScalarsMatchIff(c: Config, key: string, e: Json, a: Json)
    requires !e.Arr? && !e.Obj?
    ensures Matches(c, key, e, a) <==> SameKind(e, a) && (e == a || Tolerated(c, key))
  {
    NoiseByEntries(c, key);
  }

  /** A comparison is an error exactly when the two values are of different kinds and a null is not expected. */
  lemma {:induction false} ErrorIffKindsDiffer(c: Config, key: string, e: Json, a: Json)
    ensures TypeError(e, a) <==> !SameKind(e, a) && !e.Null?
    ensures !SameKind(e, a) ==> !Matches(c, key, e, a)
  {
  }

  // ---- Places ----

  datatype Step = Field(k: string) | Element(i: nat)

  /** The value at a place of a document, if it has one. */
  function At(v: Json, place: seq<Step>): Option<Json> {
    if place == [] then Some(v)
    else
      match place[0]
      case Field(k) => if v.Obj? && k in v.m then At(v.m[k], place[1..]) else None
      case Element(i) => if v.Arr? && i < |v.es| then At(v.es[i], place[1..]) else None
  }

  /** The path under which a place is compared: the names of the fields on the way, joined by dots. */
  function PathOf(key: string, place: seq<Step>): string
    decreases place
  {
    if place == [] then key
    else PathOf(if place[0].Element? then key else if key == "" then place[0].k else key + "." + place[0].k, place[1..])
  }

  /** No field on the way to a place is ignored or exempt. */
  ghost predicate Compared(c: Config, key: string, place: seq<Step>) {
    forall n :: 0 <= n < |place| && place[n].Field? ==>
      !Ignored(c, place[n].k) && !Exempt(c, PathOf(key, place[..n + 1]))
  }

  /** Of one kind; arrays of one length, scalars equal or tolerated. What is inside containers is for places below. */
  ghost predicate SameThere(c: Config, path: string, e: Json, a: Json) {
    SameKind(e, a) && (e.Arr? ==> |e.es| == |a.es|) && (Primitive(e) ==> e == a || Tolerated(c, path))
  }

  /** The place is an exempt field, and everything above it is compared. */
  ghost predicate ExemptField(c: Config, key: string, place: seq<Step>) {
    && place != [] && place[|place| - 1].Field? && !Ignored(c, place[|place| - 1].k)
    && Compared(c, key, place[..|place| - 1]) && Exempt(c, PathOf(key, place))
  }

  /** At a compared place both documents agree; an exempt field may be added but not missed. */
  ghost predicate AgreeAt(c: Config, key: string, e: Json, a: Json, place: seq<Step>) {
    var x, y := At(e, place), At(a, place);
    && (Compared(c, key, place) ==>
          (x.Some? <==> y.Some?) && (x.Some? ==> SameThere(c, PathOf(key, place), x.value, y.value)))
    && (ExemptField(c, key, place) && x.Some? ==> y.Some?)
  }

  ghost predicate AgreeEverywhere(c: Config, key: string, e: Json, a: Json) {
    forall place :: AgreeAt(c, key, e, a, place)
  }

  lemma {:induction false} PathOfCons(key: string, step: Step, place: seq<Step>)
    ensures PathOf(key, [step] + place) == PathOf(PathOf(key, [step]), place)
    ensures PathOf(key, [step]) == if step.Element? then key else ChildKey(key, step.k)
  {
    assert ([step] + place)[1..] == place && [step][1..] == [];
  }

  lemma {:induction false} ComparedCons(c: Config, key: string, step: Step, place: seq<Step>)
    ensures Compared(c, key, [step] + place)
       <==> (step.Field? ==> !Ignored(c, step.k) && !Exempt(c, ChildKey(key, step.k)))
            && Compared(c, PathOf(key, [step]), place)
  {
    hide Ignored, Exempt, PathOf;
    var whole, key' := [step] + place, PathOf(key, [step]);
    PathOfCons(key, step, []);
    assert [step] + [] == [step] && whole[..1] == [step];
    forall n | 0 <= n < |place|
      ensures whole[n + 1] == place[n] && PathOf(key, whole[..n + 2]) == PathOf(key', place[..n + 1])
    {
      assert whole[..n + 2] == [step] + place[..n + 1];
      PathOfCons(key, step, place[..n + 1]);
    }
    if Compared(c, key, whole) {
      assert whole[0] == step;
      forall n | 0 <= n < |place| && place[n].Field?
        ensures !Ignored(c, place[n].k) && !Exempt(c, PathOf(key', place[..n + 1]))
      {
        assert whole[n + 1].Field?;
      }
    }
    if (step.Field? ==> !Ignored(c, step.k) && !Exempt(c, ChildKey(key, step.k))) && Compared(c, key', place) {
      forall n | 0 <= n < |whole| && whole[n].Field?
        ensures !Ignored(c, whole[n].k) && !Exempt(c, PathOf(key, whole[..n + 1]))
      {
        if n > 0 { assert place[n - 1].Field?; }
      }
    }
  }

  lemma {:induction false} AtCons(v: Json, step: Step, place: seq<Step>)
    ensures var inner := At(v, [step]);
            At(v, [step] + place) == if inner.None? then None else At(inner.value, place)
  {
    assert ([step] + place)[1..] == place && [step][1..] == [];
  }

  /** Agreement below a compared field or element is agreement of the two values there. */
  lemma {:induction false} AgreeBelow(c: Config, key: string, e: Json, a: Json, step: Step, place: seq<Step>)
    requires At(e, [step]).Some? && At(a, [step]).Some?
    requires step.Field? ==> !Ignored(c, step.k) && !Exempt(c, ChildKey(key, step.k))
    ensures AgreeAt(c, key, e, a, [step] + place)
       <==> AgreeAt(c, PathOf(key, [step]), At(e, [step]).value, At(a, [step]).value, place)
  {
    hide At, PathOf, Compared, Ignored, Exempt, SameThere, SameKind;
    var whole := [step] + place;
    AtCons(e, step, place);
    AtCons(a, step, place);
    PathOfCons(key, step, place);
    ComparedCons(c, key, step, place);
    if place == [] {
      assert whole == [step];
      PathOfCons(key, step, []);
    } else {
      assert whole[|whole| - 1] == place[|place| - 1];
      assert whole[..|whole| - 1] == [step] + place[..|place| - 1];
      ComparedCons(c, key, step, place[..|place| - 1]);
    }
  }

  /** Nothing is asked below a field that is ignored or exempt, nor of what neither document has. */
  lemma {:induction false} NothingAsked(c: Config, key: string, e: Json, a: Json, step: Step, place: seq<Step>)
    requires (At(e, [step]).None? && At(a, [step]).None?) || (step.Field? && Ignored(c, step.k))
          || (step.Field? && Exempt(c, ChildKey(key, step.k)) && (At(e, [step]).Some? ==> At(a, [step]).Some?))
    ensures AgreeAt(c, key, e, a, [step] + place)
  {
    hide At, PathOf, Compared, Ignored, Exempt, SameThere;
    var whole := [step] + place;
    AtCons(e, step, place);
    AtCons(a, step, place);
    ComparedCons(c, key, step, place);
    if place == [] {
      assert whole == [step];
    } else {
      assert whole[..|whole| - 1] == [step] + place[..|place| - 1];
      ComparedCons(c, key, step, place[..|place| - 1]);
    }
  }

  /** What agreement at a field itself asks. */
  lemma {:induction false} AgreeAtField(c: Config, key: string, m: map<string, Json>, n: map<string, Json>, k: string)
    requires AgreeAt(c, key, Obj(m), Obj(n), [Field(k)]) && !Ignored(c, k)
    ensures k in m ==> k in n
    ensures k in n && !Exempt(c, ChildKey(key, k)) ==> k in m
  {
    hide Ignored, Exempt, SameThere;
    PathOfCons(key, Field(k), []);
    ComparedCons(c, key, Field(k), []);
    AtField(Obj(m), Field(k));
    AtField(Obj(n), Field(k));
    var place := [Field(k)];
    assert place + [] == place && place[..|place| - 1] == [];
    assert Compared(c, key, []) && Compared(c, PathOf(key, place), []);
    assert Exempt(c, ChildKey(key, k)) ==> ExemptField(c, key, place);
  }

  lemma {:induction false} AtField(v: Json, step: Step)
    ensures At(v, [step]) == if step.Field? then (if v.Obj? && step.k in v.m then Some(v.m[step.k]) else None)
                             else if v.Arr? && step.i < |v.es| then Some(v.es[step.i]) else None
  {
    assert [step][1..] == [];
  }

  /** Agreement everywhere is agreement at the top and, step by step, below it. */
  lemma {:induction false} AgreeIffStepwise(c: Config, key: string, e: Json, a: Json)
    ensures AgreeEverywhere(c, key, e, a)
       <==> SameThere(c, key, e, a) && forall step, place :: AgreeAt(c, key, e, a, [step] + place)
  {
    hide AgreeAt, SameThere;
    assert AgreeAt(c, key, e, a, []) <==> SameThere(c, key, e, a) by { AgreeAtTop(c, key, e, a); }
    if SameThere(c, key, e, a) && forall step, place :: AgreeAt(c, key, e, a, [step] + place) {
      forall place ensures AgreeAt(c, key, e, a, place) {
        if place != [] { assert place == [place[0]] + place[1..]; }
      }
    }
  }

  lemma {:induction false} AgreeAtTop(c: Config, key: string, e: Json, a: Json)
    ensures AgreeAt(c, key, e, a, []) <==> SameThere(c, key, e, a)
  {
  }

  lemma {:induction false} ObjectsAgree(c: Config, key: string, m: map<string, Json>, n: map<string, Json>)
    requires !Exempt(c, key)
    requires forall k :: k in m && k in n && !Ignored(c, k) && !Exempt(c, ChildKey(key, k)) ==>
               (Matches(c, ChildKey(key, k), m[k], n[k]) <==> AgreeEverywhere(c, ChildKey(key, k), m[k], n[k]))
    ensures Matches(c, key, Obj(m), Obj(n)) <==> AgreeEverywhere(c, key, Obj(m), Obj(n))
  {
    AgreeIffStepwise(c, key, Obj(m), Obj(n));
    ObjectsMatchIff(c, key, m, n);
    hide Matches, Ignored, Exempt, AgreeAt;
    if Matches(c, key, Obj(m), Obj(n)) {
      forall step, place ensures AgreeAt(c, key, Obj(m), Obj(n), [step] + place) {
        MatchedObjectsAgree(c, key, m, n, step, place);
      }
    }
    if AgreeEverywhere(c, key, Obj(m), Obj(n)) {
      forall k | !Ignored(c, k) ensures FieldMatches(c, key, m, n, k) {
        AgreeingFieldMatches(c, key, m, n, k);
      }
    }
  }

  /** What an object match asks of one key that is not ignored. */
  ghost predicate FieldMatches(c: Config, key: string, m: map<string, Json>, n: map<string, Json>, k: string) {
    var child := ChildKey(key, k);
    && (k in m ==> k in n && (Exempt(c, child) || Matches(c, child, m[k], n[k])))
    && (k in n && k !in m ==> Exempt(c, child))
  }

  lemma {:induction false} ObjectsMatchIff(c: Config, key: string, m: map<string, Json>, n: map<string, Json>)
    requires !Exempt(c, key)
    ensures Matches(c, key, Obj(m), Obj(n)) <==> forall k :: !Ignored(c, k) ==> FieldMatches(c, key, m, n, k)
  {
    NoiseByEntries(c, key);
    forall k ensures (c.Global(k) <==> Ignored(c, k)) && (c.Skips(ChildKey(key, k)) <==> Exempt(c, ChildKey(key, k))) {
      NoiseByEntries(c, k);
      NoiseByEntries(c, ChildKey(key, k));
    }
    hide Ignored, Exempt, FindNoise;
    if Matches(c, key, Obj(m), Obj(n)) {
      forall k | !Ignored(c, k) ensures FieldMatches(c, key, m, n, k) { }
    }
    if forall k :: !Ignored(c, k) ==> FieldMatches(c, key, m, n, k) {
      forall k | !c.Global(k) ensures FieldMatches(c, key, m, n, k) { }
    }
  }

  lemma {:induction false} MatchedObjectsAgree(c: Config, key: string, m: map<string, Json>, n: map<string, Json>,
                                               step: Step, place: seq<Step>)
    requires step.Field? && !Ignored(c, step.k) ==> FieldMatches(c, key, m, n, step.k)
    requires step.Field? && step.k in m && step.k in n && !Ignored(c, step.k) && !Exempt(c, ChildKey(key, step.k)) ==>
               (Matches(c, ChildKey(key, step.k), m[step.k], n[step.k])
                ==> AgreeEverywhere(c, ChildKey(key, step.k), m[step.k], n[step.k]))
    ensures AgreeAt(c, key, Obj(m), Obj(n), [step] + place)
  {
    hide Matches, Ignored, Exempt, AgreeAt;
    AtField(Obj(m), step);
    AtField(Obj(n), step);
    if step.Field? && !Ignored(c, step.k) && !Exempt(c, ChildKey(key, step.k)) && step.k in m {
      PathOfCons(key, step, []);
      AgreeBelow(c, key, Obj(m), Obj(n), step, place);
    } else {
      NothingAsked(c, key, Obj(m), Obj(n), step, place);
    }
  }

  lemma {:induction false} AgreeingFieldMatches(c: Config, key: string, m: map<string, Json>, n: map<string, Json>,
                                                k: string)
    requires AgreeEverywhere(c, key, Obj(m), Obj(n)) && !Ignored(c, k)
    requires k in m && k in n && !Exempt(c, ChildKey(key, k)) ==>
               (AgreeEverywhere(c, ChildKey(key, k), m[k], n[k]) ==> Matches(c, ChildKey(key, k), m[k], n[k]))
    ensures FieldMatches(c, key, m, n, k)
  {
    hide Matches, Ignored, Exempt, AgreeAt;
    AgreeAtField(c, key, m, n, k);
    if k in m && !Exempt(c, ChildKey(key, k)) {
      AtField(Obj(m), Field(k));
      AtField(Obj(n), Field(k));
      PathOfCons(key, Field(k), []);
      forall place ensures AgreeAt(c, ChildKey(key, k), m[k], n[k], place) {
        AgreeBelow(c, key, Obj(m), Obj(n), Field(k), place);
      }
    }
  }

  lemma {:induction false} ArraysAgree(c: Config, key: string, es: seq<Json>, es': seq<Json>)
    requires !c.ignoreOrdering && !Exempt(c, key) && |es| == |es'|
    requires forall i :: 0 <= i < |es| ==> (Matches(c, key, es[i], es'[i]) <==> AgreeEverywhere(c, key, es[i], es'[i]))
    ensures Matches(c, key, Arr(es), Arr(es')) <==> AgreeEverywhere(c, key, Arr(es), Arr(es'))
  {
    NoiseByEntries(c, key);
    assert Matches(c, key, Arr(es), Arr(es')) <==> forall i :: 0 <= i < |es| ==> Matches(c, key, es[i], es'[i]);
    AgreeIffStepwise(c, key, Arr(es), Arr(es'));
    hide Matches, Exempt, AgreeAt;
    if forall i :: 0 <= i < |es| ==> AgreeEverywhere(c, key, es[i], es'[i]) {
      forall step, place ensures AgreeAt(c, key, Arr(es), Arr(es'), [step] + place) {
        ElementsAgree(c, key, es, es', step, place);
      }
    }
    if AgreeEverywhere(c, key, Arr(es), Arr(es')) {
      forall i, place | 0 <= i < |es| ensures AgreeAt(c, key, es[i], es'[i], place) {
        ElementAgrees(c, key, es, es', i, place);
      }
    }
  }

  lemma {:induction false} ElementAgrees(c: Config, key: string, es: seq<Json>, es': seq<Json>, i: nat,
                                         place: seq<Step>)
    requires i < |es| == |es'|
    ensures AgreeAt(c, key, Arr(es), Arr(es'), [Element(i)] + place) <==> AgreeAt(c, key, es[i], es'[i], place)
  {
    hide AgreeAt;
    AtField(Arr(es), Element(i));
    AtField(Arr(es'), Element(i));
    PathOfCons(key, Element(i), []);
    AgreeBelow(c, key, Arr(es), Arr(es'), Element(i), place);
  }

  lemma {:induction false} ElementsAgree(c: Config, key: string, es: seq<Json>, es': seq<Json>, step: Step,
                                         place: seq<Step>)
    requires |es| == |es'| && forall i :: 0 <= i < |es| ==> AgreeEverywhere(c, key, es[i], es'[i])
    ensures AgreeAt(c, key, Arr(es), Arr(es'), [step] + place)
  {
    hide AgreeAt;
    if step.Element? && step.i < |es| {
      ElementAgrees(c, key, es, es', step.i, place);
    } else {
      AtField(Arr(es), step);
      AtField(Arr(es'), step);
      NothingAsked(c, key, Arr(es), Arr(es'), step, place);
    }
  }

  /** Nothing is below a value that is not a container. */
  lemma {:induction false} ScalarsAgree(c: Config, key: string, e: Json, a: Json)
    requires !SameThere(c, key, e, a) || (!e.Arr? && !e.Obj?)
    ensures Matches(c, key, e, a) && SameThere(c, key, e, a) <==> AgreeEverywhere(c, key, e, a)
  {
    AgreeIffStepwise(c, key, e, a);
    if SameThere(c, key, e, a) {
      ScalarsMatchIff(c, key, e, a);
      forall step, place ensures AgreeAt(c, key, e, a, [step] + place) {
        AtField(e, step);
        AtField(a, step);
        NothingAsked(c, key, e, a, step, place);
      }
    }
  }

  lemma {:induction false} MatchesSameThere(c: Config, key: string, e: Json, a: Json)
    ensures Matches(c, key, e, a) ==> SameThere(c, key, e, a)
  {
    NoiseByEntries(c, key);
  }

  /**
   * With ordered arrays two documents match exactly when they agree at every place: outside ignored and exempt fields
   * both have a value or neither, of one kind, arrays of one length, scalars equal or under a tolerated path.
   */
  lemma {:induction false} OrderedMatchIffAgreeEverywhere(c: Config, key: string, e: Json, a: Json)
    requires !c.ignoreOrdering && !Exempt(c, key)
    ensures Matches(c, key, e, a) <==> AgreeEverywhere(c, key, e, a)
    decreases e
  {
    MatchesSameThere(c, key, e, a);
    if !SameThere(c, key, e, a) || (!e.Arr? && !e.Obj?) {
      ScalarsAgree(c, key, e, a);
    } else if e.Obj? {
      hide Matches, Exempt, Ignored, AgreeEverywhere;
      forall k | k in e.m && k in a.m && !Ignored(c, k) && !Exempt(c, ChildKey(key, k))
        ensures Matches(c, ChildKey(key, k), e.m[k], a.m[k]) <==> AgreeEverywhere(c, ChildKey(key, k), e.m[k], a.m[k])
      {
        OrderedMatchIffAgreeEverywhere(c, ChildKey(key, k), e.m[k], a.m[k]);
      }
      ObjectsAgree(c, key, e.m, a.m);
    } else {
      hide Matches, Exempt, AgreeEverywhere;
      forall i | 0 <= i < |e.es|
        ensures Matches(c, key, e.es[i], a.es[i]) <==> AgreeEverywhere(c, key, e.es[i], a.es[i])
      {
        OrderedMatchIffAgreeEverywhere(c, key, e.es[i], a.es[i]);
      }
      ArraysAgree(c, key, e.es, a.es);
    }
  }

  /** For the entry point: the noise it was given decides, and the root is never exempt. */
  lemma {:induction false} EntryPointOrdered(c: Config, noise: map<string, seq<Regex>>, order: seq<string>, e: Json,
                                             a: Json)
    requires BuiltFrom(c, noise, order) && !c.ignoreOrdering
    ensures Matches(c, "", e, a) <==> AgreeEverywhere(c, "", e, a)
    ensures forall k :: Ignored(c, k) <==>
              exists g :: g in noise && '.' !in g && MapChars(c.lower, g) == MapChars(c.lower, k)
    ensures forall key :: Tolerated(c, key) <==>
              exists g :: g in noise && '.' in g && Contains(MapChars(c.lower, key), MapChars(c.lower, g))
  {
    assert forall i :: 0 <= i < |order| ==> order[i] in order;
    NotNoisyAtRoot(c, c.entries, order);
    NoiseByEntries(c, "");
    OrderedMatchIffAgreeEverywhere(c, "", e, a);
    forall key ensures Tolerated(c, key) <==>
                         exists g :: g in noise && '.' in g && Contains(MapChars(c.lower, key), MapChars(c.lower, g))
    {
      ToleratedByMap(c, noise, order, key);
    }
  }

  lemma {:induction false} ToleratedByMap(c: Config, noise: map<string, seq<Regex>>, order: seq<string>, key: string)
    requires BuiltFrom(c, noise, order)
    ensures Tolerated(c, key) <==>
              exists g :: g in noise && '.' in g && Contains(MapChars(c.lower, key), MapChars(c.lower, g))
  {
    hide Contains;
    if Tolerated(c, key) {
      var i :| 0 <= i < |c.entries| && Contains(MapChars(c.lower, key), c.entries[i].keyLower);
      assert order[i] in order;
    }
    if g :| g in noise && '.' in g && Contains(MapChars(c.lower, key), MapChars(c.lower, g)) {
      assert g in order;
      var i :| 0 <= i < |order| && order[i] == g;
      assert c.entries[i].keyLower == MapChars(c.lower, g);
    }
  }
}

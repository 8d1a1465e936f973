/** Reading template values back out of a live value: tokenising, carving and applying. */
module TokenTemplate {
  import opened Text

  /** A stored template value, by what it prints as; updates always store text. */
  datatype Value = Text(text: string) | Other(printed: string)

  function Sprint(v: Value): string { if v.Text? then v.text else v.printed }

  type Values = map<string, Value>

  /** A missing value prints as Go prints nil. */
  function Printed(prev: Values, key: string): string { if key in prev then Sprint(prev[key]) else "<nil>" }

  datatype Segment = Literal(text: string) | Placeholder(key: string)

  /** Where the placeholder pattern matched in the template. */
  datatype Match = Match(start: nat, end: nat)

  /** The library returns matches in order, without overlap and not empty. */
  ghost predicate Ordered(template: string, from: nat, ms: seq<Match>)
    decreases ms
  {
    if ms == [] then from <= |template|
    else from <= ms[0].start < ms[0].end <= |template| && Ordered(template, ms[0].end, ms[1..])
  }

  /** `keysOf` gives the template keys named by the first placeholder of a text. */
  function Segments(template: string, cursor: nat, ms: seq<Match>, keysOf: string -> seq<string>): seq<Segment>
    requires Ordered(template, cursor, ms)
    decreases ms
  {
    if ms == [] then
      if cursor < |template| then [Literal(template[cursor..])] else []
    else
      var m := ms[0];
      var keys := keysOf(template[m.start..m.end]);
      (if m.start > cursor then [Literal(template[cursor..m.start])] else [])
      + (if |keys| == 1 then [Placeholder(keys[0])] else [])
      + Segments(template, m.end, ms[1..], keysOf)
  }

  datatype Binding = Binding(key: string, value: string)

  datatype Carving = Carving(bindings: seq<Binding>, rest: string, complete: bool)

  function NextLiteral(segs: seq<Segment>): string { if |segs| > 1 && segs[1].Literal? then segs[1].text else "" }

  /** The walk over the live value: literals must stand at the front, a placeholder runs to the next literal. */
  function Carve(segs: seq<Segment>, live: string): Carving
    decreases segs
  {
    if segs == [] then Carving([], live, true)
    else if segs[0].Literal? then
      var text := segs[0].text;
      if HasPrefix(live, text) then Carve(segs[1..], live[|text|..]) else Carving([], live, false)
    else
      var next := NextLiteral(segs);
      if next == "" then
        var c := Carve(segs[1..], "");
        c.(bindings := [Binding(segs[0].key, live)] + c.bindings)
      else
        match Index(live, next)
        case None => Carving([], live, false)
        case Some(i) =>
          var c := Carve(segs[1..], live[i..]);
          c.(bindings := [Binding(segs[0].key, live[..i])] + c.bindings)
  }

  predicate Effective(current: Values, prev: Values, b: Binding) {
    b.value != "" && b.key in current && Printed(prev, b.key) != b.value
  }

  function Applied(current: Values, prev: Values, b: Binding): Values {
    if Effective(current, prev, b) then current[b.key := Text(b.value)] else current
  }

  function ApplyAll(current: Values, prev: Values, bs: seq<Binding>): Values
    decreases bs
  {
    if bs == [] then current else ApplyAll(Applied(current, prev, bs[0]), prev, bs[1..])
  }

  predicate AnyEffective(current: Values, prev: Values, bs: seq<Binding>) {
    exists i :: 0 <= i < |bs| && Effective(current, prev, bs[i])
  }

  /** The shortcut for a template that looks like one placeholder. */
  predicate LooksWhole(template: string, ms: seq<Match>) {
    var trim := TrimSpace(template);
    |ms| == 1 && HasPrefix(trim, "{{") && |trim| >= 2 && trim[|trim| - 2..] == "}}"
  }

  function Stored(current: Values, prev: Values, key: string, value: string): (Values, bool) {
    if key in current && Printed(prev, key) != value then (current[key := Text(value)], true) else (current, false)
  }

  /** The values after an update, and whether it stored anything. */
  function Updated(current: Values, prev: Values, template: string, ms: seq<Match>, keysOf: string -> seq<string>,
                   live: string)
    : (Values, bool)
    requires Ordered(template, 0, ms)
  {
    if ms == [] then (current, false)
    else if LooksWhole(template, ms) then
      var keys := keysOf(TrimSpace(template));
      if |keys| == 1 then Stored(current, prev, keys[0], TrimSpace(live)) else (current, false)
    else
      var bs := Carve(Segments(template, 0, ms, keysOf), live).bindings;
      (ApplyAll(current, prev, bs), AnyEffective(current, prev, bs))
  }

  // ---- Carving undoes substitution ----

  /** One binding for each placeholder, in order. */
  predicate Fits(segs: seq<Segment>, bs: seq<Binding>)
    decreases segs
  {
    if segs == [] then bs == []
    else if segs[0].Literal? then Fits(segs[1..], bs)
    else bs != [] && bs[0].key == segs[0].key && Fits(segs[1..], bs[1..])
  }

  /** The template with its placeholders substituted. */
  function Render(segs: seq<Segment>, bs: seq<Binding>): string
    requires Fits(segs, bs)
    decreases segs
  {
    if segs == [] then ""
    else if segs[0].Literal? then segs[0].text + Render(segs[1..], bs)
    else bs[0].value + Render(segs[1..], bs[1..])
  }

  /**
   * Before a literal, a value runs up to the literal's first occurrence; before another placeholder or at
   * the end, nothing of the live value is left over.
   */
  ghost predicate Separable(segs: seq<Segment>, bs: seq<Binding>)
    requires Fits(segs, bs)
    decreases segs
  {
    if segs == [] then true
    else if segs[0].Literal? then Separable(segs[1..], bs)
    else
      var rest := Render(segs[1..], bs[1..]);
      && (if NextLiteral(segs) == "" then rest == ""
          else forall i :: 0 <= i < |bs[0].value| ==> !OccursAt(bs[0].value + rest, NextLiteral(segs), i))
      && Separable(segs[1..], bs[1..])
  }

  lemma {:induction false} NextLiteralLeads(segs: seq<Segment>, bs: seq<Binding>)
    requires segs != [] && segs[0].Placeholder? && NextLiteral(segs) != "" && Fits(segs, bs)
    ensures HasPrefix(Render(segs[1..], bs[1..]), NextLiteral(segs))
  {
    var rest := segs[1..];
    assert rest[0] == segs[1];
    var tail := Render(rest[1..], bs[1..]);
    assert Render(rest, bs[1..]) == segs[1].text + tail;
  }

  /** Carving a rendered template gives back the substituted values exactly when they are separable. */
  lemma {:induction false} CarveUndoesRenderIff(segs: seq<Segment>, bs: seq<Binding>)
    requires Fits(segs, bs)
    ensures var c := Carve(segs, Render(segs, bs));
            c.complete && c.bindings == bs <==> Separable(segs, bs)
    ensures Separable(segs, bs) ==> Carve(segs, Render(segs, bs)).rest == ""
    decreases segs
  {
    if segs == [] {
    } else if segs[0].Literal? {
      CarveLiteral(segs, bs);
      CarveUndoesRenderIff(segs[1..], bs);
    } else if NextLiteral(segs) == "" {
      CarveUndoesRenderIff(segs[1..], bs[1..]);
      CarveOpenPlaceholder(segs, bs);
    } else {
      CarveUndoesRenderIff(segs[1..], bs[1..]);
      CarveClosedPlaceholder(segs, bs);
    }
  }

  lemma {:induction false} CarveLiteral(segs: seq<Segment>, bs: seq<Binding>)
    requires Fits(segs, bs) && segs != [] && segs[0].Literal?
    ensures Carve(segs, Render(segs, bs)) == Carve(segs[1..], Render(segs[1..], bs))
  {
    var tail := Render(segs[1..], bs);
    assert (segs[0].text + tail)[|segs[0].text|..] == tail;
  }

  lemma {:induction false} ConsEqual<T>(a: T, s: seq<T>, t: seq<T>)
    requires t != []
    ensures [a] + s == t <==> a == t[0] && s == t[1..]
  {
    assert t == [t[0]] + t[1..];
    if [a] + s == t {
      assert ([a] + s)[1..] == s;
    }
  }

  lemma {:induction false} CarveOpenPlaceholder(segs: seq<Segment>, bs: seq<Binding>)
    requires Fits(segs, bs) && segs != [] && segs[0].Placeholder? && NextLiteral(segs) == ""
    requires var c := Carve(segs[1..], Render(segs[1..], bs[1..]));
             (c.complete && c.bindings == bs[1..] <==> Separable(segs[1..], bs[1..]))
                 && (Separable(segs[1..], bs[1..]) ==> c.rest == "")
    ensures var c := Carve(segs, Render(segs, bs));
            (c.complete && c.bindings == bs <==> Separable(segs, bs)) && (Separable(segs, bs) ==> c.rest == "")
  {
    var v, rest := bs[0].value, Render(segs[1..], bs[1..]);
    assert v + rest == v <==> rest == "" by { assert |v + rest| == |v| + |rest|; }
    ConsEqual(Binding(segs[0].key, v + rest), Carve(segs[1..], "").bindings, bs);
  }

  lemma {:induction false} CarveClosedPlaceholder(segs: seq<Segment>, bs: seq<Binding>)
    requires Fits(segs, bs) && segs != [] && segs[0].Placeholder? && NextLiteral(segs) != ""
    requires var c := Carve(segs[1..], Render(segs[1..], bs[1..]));
             (c.complete && c.bindings == bs[1..] <==> Separable(segs[1..], bs[1..]))
                 && (Separable(segs[1..], bs[1..]) ==> c.rest == "")
    ensures var c := Carve(segs, Render(segs, bs));
            (c.complete && c.bindings == bs <==> Separable(segs, bs)) && (Separable(segs, bs) ==> c.rest == "")
  {
    var v, rest, next := bs[0].value, Render(segs[1..], bs[1..]), NextLiteral(segs);
    var live := v + rest;
    NextLiteralLeads(segs, bs);
    OccursAfter(v, rest, next);
    var i := Index(live, next).value;
    assert i <= |v|;
    assert i == |v| <==> forall k :: 0 <= k < |v| ==> !OccursAt(live, next, k);
    if i == |v| {
      assert live[..i] == v && live[i..] == rest;
    } else {
      assert |live[..i]| != |v|;
    }
    ConsEqual(Binding(segs[0].key, live[..i]), Carve(segs[1..], live[i..]).bindings, bs);
  }

  lemma {:induction false} OccursAfter(v: string, rest: string, next: string)
    requires HasPrefix(rest, next)
    ensures OccursAt(v + rest, next, |v|)
    ensures Index(v + rest, next).Some? && Index(v + rest, next).value <= |v|
  {
    var live := v + rest;
    assert live[|v|..|v| + |next|] == next;
    assert OccursAt(live, next, |v|);
    var r := Index(live, next);
    assert 0 <= |v| < |live| + 1;
  }

  lemma {:induction false} HoleCarved(segs: seq<Segment>, live: string) returns (value: string, tail: string)
    requires segs != [] && segs[0].Placeholder? && Carve(segs, live).complete
    ensures live == value + tail && Carve(segs[1..], tail).complete
    ensures var c := Carve(segs[1..], tail);
            Carve(segs, live) == Carving([Binding(segs[0].key, value)] + c.bindings, c.rest, c.complete)
  {
    var next := NextLiteral(segs);
    if next == "" {
      value, tail := live, "";
    } else {
      var i := Index(live, next).value;
      value, tail := live[..i], live[i..];
    }
  }

  /** A completed walk splits the live value into the rendered template and what it left unread. */
  lemma {:induction false} CompleteCarvingRendersBack(segs: seq<Segment>, live: string)
    requires Carve(segs, live).complete
    ensures var c := Carve(segs, live);
            Fits(segs, c.bindings) && live == Render(segs, c.bindings) + c.rest
    decreases segs
  {
    if segs == [] {
      assert "" + live == live;
    } else if segs[0].Literal? {
      var text := segs[0].text;
      assert live == text + live[|text|..];
      CompleteCarvingRendersBack(segs[1..], live[|text|..]);
      LiteralRendersBack(segs, Carve(segs, live), live[|text|..]);
    } else {
      var value, tail := HoleCarved(segs, live);
      CompleteCarvingRendersBack(segs[1..], tail);
      HoleRendersBack(segs, Carve(segs[1..], tail), value, tail);
    }
  }

  lemma {:induction false} LiteralRendersBack(segs: seq<Segment>, c: Carving, tail: string)
    requires segs != [] && segs[0].Literal? && Fits(segs[1..], c.bindings)
    requires tail == Render(segs[1..], c.bindings) + c.rest
    ensures Fits(segs, c.bindings) && segs[0].text + tail == Render(segs, c.bindings) + c.rest
  {
  }

  lemma {:induction false} HoleRendersBack(segs: seq<Segment>, c: Carving, value: string, tail: string)
    requires segs != [] && segs[0].Placeholder? && Fits(segs[1..], c.bindings)
    requires tail == Render(segs[1..], c.bindings) + c.rest
    ensures var bs := [Binding(segs[0].key, value)] + c.bindings;
            Fits(segs, bs) && value + tail == Render(segs, bs) + c.rest
  {
    var bs := [Binding(segs[0].key, value)] + c.bindings;
    assert bs[0] == Binding(segs[0].key, value) && bs[1..] == c.bindings;
  }

  /** At most one set of values that renders to a live value is separable. */
  lemma {:induction false} SeparableValuesAreUnique(segs: seq<Segment>, bs: seq<Binding>, bs': seq<Binding>)
    requires Fits(segs, bs) && Fits(segs, bs') && Separable(segs, bs) && Separable(segs, bs')
    requires Render(segs, bs) == Render(segs, bs')
    ensures bs == bs'
  {
    CarveUndoesRenderIff(segs, bs);
    CarveUndoesRenderIff(segs, bs');
  }

  lemma {:induction false} LastPlaceholder(b: string, y: string)
    ensures var segs, bs := [Placeholder(b)], [Binding(b, y)];
            Fits(segs, bs) && Render(segs, bs) == y && Separable(segs, bs)
  {
    var segs, bs := [Placeholder(b)], [Binding(b, y)];
    assert segs[1..] == [] && bs[1..] == [];
    assert Fits([], []) && Render([], []) == "" && y + "" == y;
    assert NextLiteral(segs) == "";
  }

  lemma {:induction false} LiteralThenPlaceholder(b: string, sep: string, y: string)
    ensures var segs, bs := [Literal(sep), Placeholder(b)], [Binding(b, y)];
            Fits(segs, bs) && Render(segs, bs) == sep + y && Separable(segs, bs)
  {
    var segs := [Literal(sep), Placeholder(b)];
    assert segs[1..] == [Placeholder(b)];
    LastPlaceholder(b, y);
  }

  lemma {:induction false} PairOfPlaceholders(a: string, b: string, sep: string, x: string, y: string)
    requires sep != ""
    ensures var segs, bs := [Placeholder(a), Literal(sep), Placeholder(b)], [Binding(a, x), Binding(b, y)];
            && Fits(segs, bs) && Render(segs, bs) == x + (sep + y)
            && (Separable(segs, bs) <==> forall i :: 0 <= i < |x| ==> !OccursAt(x + (sep + y), sep, i))
  {
    var segs, bs := [Placeholder(a), Literal(sep), Placeholder(b)], [Binding(a, x), Binding(b, y)];
    assert segs[1..] == [Literal(sep), Placeholder(b)] && bs[1..] == [Binding(b, y)];
    LiteralThenPlaceholder(b, sep, y);
    assert NextLiteral(segs) == sep;
  }

  /** A separator that occurs twice does not stop the update: two readings render alike, and the first is taken. */
  lemma {:induction false} AmbiguousSeparatorStillCarves(a: string, b: string)
    ensures var segs := [Placeholder(a), Literal("-"), Placeholder(b)];
            var early, late := [Binding(a, "x"), Binding(b, "y-z")], [Binding(a, "x-y"), Binding(b, "z")];
            && Fits(segs, early) && Fits(segs, late) && Render(segs, early) == Render(segs, late)
            && Carve(segs, Render(segs, late)) == Carving(early, "", true)
  {
    var segs := [Placeholder(a), Literal("-"), Placeholder(b)];
    var early := [Binding(a, "x"), Binding(b, "y-z")];
    PairOfPlaceholders(a, b, "-", "x", "y-z");
    PairOfPlaceholders(a, b, "-", "x-y", "z");
    assert "x" + ("-" + "y-z") == "x-y-z" == "x-y" + ("-" + "z");
    CarveUndoesRenderIff(segs, early);
  }

  // ---- The shortcut ----

  function Solid(s: string): nat { if s == "" then 0 else (if IsSpace(s[0]) then 0 else 1) + Solid(s[1..]) }

  lemma {:induction false} SolidConcat(s: string, t: string)
    ensures Solid(s + t) == Solid(s) + Solid(t)
    decreases s
  {
    if s == "" {
      assert s + t == t;
    } else {
      assert (s + t)[1..] == s[1..] + t;
      SolidConcat(s[1..], t);
    }
  }

  lemma {:induction false} SolidBlank(s: string)
    ensures Solid(s) == 0 <==> Blank(s)
    decreases s
  {
    if s != "" {
      SolidBlank(s[1..]);
      assert s == [s[0]] + s[1..];
      if Blank(s[1..]) && IsSpace(s[0]) {
        forall i | 0 <= i < |s| ensures IsSpace(s[i]) { if i > 0 { assert s[i] == s[1..][i - 1]; } }
      }
      if Blank(s) {
        forall i | 0 <= i < |s[1..]| ensures IsSpace(s[1..][i]) { assert s[1..][i] == s[i + 1]; }
      }
    }
  }

  /** Trimming cuts blank text off both ends and nothing else. */
  lemma {:induction false} TrimKeepsSolid(s: string)
    ensures Solid(TrimSpace(s)) == Solid(s)
  {
    var left := TrimLeft(IsSpace, s);
    var before := s[..FirstKept(IsSpace, s, 0)];
    assert s == before + left;
    SolidConcat(before, left);
    SolidBlank(before);
    var n := LastKept(IsSpace, left, |left|);
    assert left == left[..n] + left[n..];
    SolidConcat(left[..n], left[n..]);
    SolidBlank(left[n..]);
  }

  /**
   * The shortcut gives back the substituted value exactly when the rest of the template is blank and the
   * value has no blank ends; it is wrong for every template with other text around its placeholder.
   */
  lemma {:induction false} ShortcutRecoversIff(pre: string, value: string, post: string)
    ensures TrimSpace(pre + value + post) == value <==> Blank(pre) && Blank(post) && TrimSpace(value) == value
  {
    var live := pre + value + post;
    SolidConcat(pre + value, post);
    SolidConcat(pre, value);
    SolidBlank(pre);
    SolidBlank(post);
    TrimKeepsSolid(live);
    if TrimSpace(live) == value {
      TrimEnds(IsSpace, live);
      TrimStable(IsSpace, value);
    }
    if Blank(pre) && Blank(post) && TrimSpace(value) == value {
      TrimEnds(IsSpace, value);
      if value != "" {
        TrimBetween(IsSpace, pre, value, post);
      } else {
        SolidBlank(TrimSpace(live));
        TrimEnds(IsSpace, live);
      }
    }
  }

  // ---- Applying ----

  /** The last binding for the key that is not empty and differs from the previous value. */
  function LastWrite(prev: Values, bs: seq<Binding>, key: string): Option<string>
    decreases bs
  {
    if bs == [] then None
    else
      var later := LastWrite(prev, bs[1..], key);
      if later.Some? then later
      else if bs[0].key == key && bs[0].value != "" && Printed(prev, key) != bs[0].value then Some(bs[0].value)
      else None
  }

  function Written(write: Option<string>, otherwise: Value): Value {
    if write.Some? then Text(write.value) else otherwise
  }

  /** An update adds and removes no key, and stores under each key its last real change. */
  lemma {:induction false} ApplyAllStoresLastWrites(current: Values, prev: Values, bs: seq<Binding>, key: string)
    ensures ApplyAll(current, prev, bs).Keys == current.Keys
    ensures key in current ==> ApplyAll(current, prev, bs)[key] == Written(LastWrite(prev, bs, key), current[key])
    decreases bs
  {
    if bs != [] {
      ApplyAllStoresLastWrites(Applied(current, prev, bs[0]), prev, bs[1..], key);
    }
  }

  ghost predicate DistinctKeys(bs: seq<Binding>) { forall i, j :: 0 <= i < j < |bs| ==> bs[i].key != bs[j].key }

  lemma {:induction false} LastWriteAbsent(prev: Values, bs: seq<Binding>, key: string)
    requires forall i :: 0 <= i < |bs| ==> bs[i].key != key
    ensures LastWrite(prev, bs, key) == None
    decreases bs
  {
    if bs != [] { LastWriteAbsent(prev, bs[1..], key); }
  }

  lemma {:induction false} LastWriteDistinct(prev: Values, bs: seq<Binding>, i: nat)
    requires DistinctKeys(bs) && i < |bs|
    ensures LastWrite(prev, bs, bs[i].key)
         == if bs[i].value != "" && Printed(prev, bs[i].key) != bs[i].value then Some(bs[i].value) else None
    decreases bs
  {
    var tail := bs[1..];
    if i == 0 {
      LastWriteAbsent(prev, tail, bs[0].key);
    } else {
      assert tail[i - 1] == bs[i];
      assert DistinctKeys(tail);
      LastWriteDistinct(prev, tail, i - 1);
    }
  }

  /** The template's text from `cursor` on, with each match replaced by a value. */
  function Substitute(template: string, cursor: nat, ms: seq<Match>, values: seq<string>): string
    requires Ordered(template, cursor, ms) && |values| == |ms|
    decreases ms
  {
    if ms == [] then template[cursor..]
    else template[cursor..ms[0].start] + values[0] + Substitute(template, ms[0].end, ms[1..], values[1..])
  }

  /** The values of the matches that name one key; the others name none, and nothing stands for them. */
  function BindingsOf(template: string, ms: seq<Match>, keysOf: string -> seq<string>,
      values: seq<string>): seq<Binding>
    requires |values| == |ms| && forall i :: 0 <= i < |ms| ==> ms[i].start <= ms[i].end <= |template|
    decreases ms
  {
    if ms == [] then []
    else
      var keys := keysOf(template[ms[0].start..ms[0].end]);
      (if |keys| == 1 then [Binding(keys[0], values[0])] else [])
      + BindingsOf(template, ms[1..], keysOf, values[1..])
  }

  lemma {:induction false} OrderedBounds(template: string, from: nat, ms: seq<Match>)
    requires Ordered(template, from, ms)
    ensures from <= |template| && forall i :: 0 <= i < |ms| ==> ms[i].start <= ms[i].end <= |template|
    decreases ms
  {
    if ms != [] {
      OrderedBounds(template, ms[0].end, ms[1..]);
      assert forall i :: 1 <= i < |ms| ==> ms[i] == ms[1..][i - 1];
    }
  }

  /** Every match lies in the template, and one that does not name one key stands for nothing. */
  ghost predicate Replaceable(template: string, ms: seq<Match>, keysOf: string -> seq<string>, values: seq<string>) {
    |values| == |ms| && forall i :: 0 <= i < |ms| ==>
      && ms[i].start <= ms[i].end <= |template|
      && (|keysOf(template[ms[i].start..ms[i].end])| == 1 || values[i] == "")
  }

  /** The segments stand for the template: rendering them substitutes values for the matches in its text. */
  lemma {:induction false} SegmentsSubstitute(template: string, cursor: nat, ms: seq<Match>,
                                              keysOf: string -> seq<string>, values: seq<string>)
    requires Ordered(template, cursor, ms) && Replaceable(template, ms, keysOf, values)
    ensures var segs, bs := Segments(template, cursor, ms, keysOf), BindingsOf(template, ms, keysOf, values);
            Fits(segs, bs) && Render(segs, bs) == Substitute(template, cursor, ms, values)
    decreases ms
  {
    if ms == [] {
      OrderedBounds(template, cursor, ms);
      if cursor < |template| {
        assert [Literal(template[cursor..])][1..] == [] && template[cursor..] + "" == template[cursor..];
      }
    } else {
      assert Replaceable(template, ms[1..], keysOf, values[1..]) by {
        assert forall i :: 0 <= i < |ms[1..]| ==> ms[1..][i] == ms[i + 1] && values[1..][i] == values[i + 1];
      }
      SegmentsSubstitute(template, ms[0].end, ms[1..], keysOf, values[1..]);
      MatchSubstitutes(template, cursor, ms, keysOf, values);
    }
  }

  lemma {:induction false} MatchSubstitutes(template: string, cursor: nat, ms: seq<Match>,
      keysOf: string -> seq<string>,
                                            values: seq<string>)
    requires Ordered(template, cursor, ms) && Replaceable(template, ms, keysOf, values) && ms != []
    requires Replaceable(template, ms[1..], keysOf, values[1..])
    requires var tail, rest := Segments(template, ms[0].end, ms[1..], keysOf),
                               BindingsOf(template, ms[1..], keysOf, values[1..]);
             Fits(tail, rest) && Render(tail, rest) == Substitute(template, ms[0].end, ms[1..], values[1..])
    ensures var segs, bs := Segments(template, cursor, ms, keysOf), BindingsOf(template, ms, keysOf, values);
            Fits(segs, bs) && Render(segs, bs) == Substitute(template, cursor, ms, values)
  {
    hide Fits, Render;
    var keys, text := keysOf(template[ms[0].start..ms[0].end]), template[cursor..ms[0].start];
    var tail := Segments(template, ms[0].end, ms[1..], keysOf);
    var rest := BindingsOf(template, ms[1..], keysOf, values[1..]);
    SegmentsHead(template, cursor, ms, keysOf);
    BindingsHead(template, ms, keysOf, values);
    hide Segments, BindingsOf;
    RenderMatch(text, keys, tail, values[0], rest);
  }

  /** The segments of a text, a match with the given keys, and what follows. */
  function Headed(text: string, keys: seq<string>, tail: seq<Segment>): seq<Segment> {
    var hole := if |keys| == 1 then [Placeholder(keys[0])] + tail else tail;
    if text == "" then hole else [Literal(text)] + hole
  }

  lemma {:induction false} SegmentsHead(template: string, cursor: nat, ms: seq<Match>, keysOf: string -> seq<string>)
    requires Ordered(template, cursor, ms) && ms != []
    ensures Segments(template, cursor, ms, keysOf)
         == Headed(template[cursor..ms[0].start], keysOf(template[ms[0].start..ms[0].end]),
                   Segments(template, ms[0].end, ms[1..], keysOf))
  {
    var tail := Segments(template, ms[0].end, ms[1..], keysOf);
    Joined(template[cursor..ms[0].start], keysOf(template[ms[0].start..ms[0].end]), tail);
  }

  lemma {:induction false} BindingsHead(template: string, ms: seq<Match>, keysOf: string -> seq<string>,
                                        values: seq<string>)
    requires Replaceable(template, ms, keysOf, values) && ms != []
    requires Replaceable(template, ms[1..], keysOf, values[1..])
    ensures var keys, rest := keysOf(template[ms[0].start..ms[0].end]),
                              BindingsOf(template, ms[1..], keysOf, values[1..]);
            BindingsOf(template, ms, keysOf, values) == if |keys| == 1 then [Binding(keys[0], values[0])] + rest
                else rest
  {
    var rest := BindingsOf(template, ms[1..], keysOf, values[1..]);
    assert [] + rest == rest;
  }

  lemma {:induction false} RenderMatch(text: string, keys: seq<string>, tail: seq<Segment>, value: string,
                                       rest: seq<Binding>)
    requires Fits(tail, rest) && (|keys| == 1 || value == "")
    ensures var segs, bs := Headed(text, keys, tail), if |keys| == 1 then [Binding(keys[0], value)] + rest else rest;
            Fits(segs, bs) && Render(segs, bs) == text + value + Render(tail, rest)
  {
    hide Fits, Render;
    if |keys| == 1 {
      RenderHole(keys[0], tail, value, rest);
      RenderText(text, [Placeholder(keys[0])] + tail, [Binding(keys[0], value)] + rest);
    } else {
      RenderText(text, tail, rest);
    }
    assert text + (value + Render(tail, rest)) == text + value + Render(tail, rest);
  }

  lemma {:induction false} Joined(text: string, keys: seq<string>, tail: seq<Segment>)
    ensures (if |text| > 0 then [Literal(text)] else []) + (if |keys| == 1 then [Placeholder(keys[0])] else []) + tail
         == Headed(text, keys, tail)
  {
  }

  lemma {:induction false} RenderHole(key: string, tail: seq<Segment>, value: string, rest: seq<Binding>)
    requires Fits(tail, rest)
    ensures var segs, bs := [Placeholder(key)] + tail, [Binding(key, value)] + rest;
            Fits(segs, bs) && Render(segs, bs) == value + Render(tail, rest)
  {
    var segs, bs := [Placeholder(key)] + tail, [Binding(key, value)] + rest;
    assert segs[1..] == tail && bs[1..] == rest;
  }

  lemma {:induction false} RenderText(text: string, tail: seq<Segment>, bs: seq<Binding>)
    requires Fits(tail, bs)
    ensures var segs := if text == "" then tail else [Literal(text)] + tail;
            Fits(segs, bs) && Render(segs, bs) == text + Render(tail, bs)
  {
    if text != "" {
      assert ([Literal(text)] + tail)[1..] == tail;
    } else {
      assert text + Render(tail, bs) == Render(tail, bs);
    }
  }

  /**
   * End to end, off the shortcut: when the live value is the template rendered with separable values under
   * distinct keys, a known key ends with its value exactly when the value is new or was already there.
   */
  lemma {:induction false} UpdateRecoversIff(template: string, ms: seq<Match>, keysOf: string -> seq<string>,
                                             current: Values, prev: Values, bs: seq<Binding>, i: nat)
    requires Ordered(template, 0, ms) && ms != [] && !LooksWhole(template, ms)
    requires var segs := Segments(template, 0, ms, keysOf); Fits(segs, bs) && Separable(segs, bs)
    requires DistinctKeys(bs) && i < |bs| && bs[i].key in current
    ensures var live := Render(Segments(template, 0, ms, keysOf), bs);
            var after := Updated(current, prev, template, ms, keysOf, live).0;
            && after.Keys == current.Keys
            && (after[bs[i].key] == Text(bs[i].value)
                <==> || (bs[i].value != "" && Printed(prev, bs[i].key) != bs[i].value)
                     || current[bs[i].key] == Text(bs[i].value))
  {
    CarveUndoesRenderIff(Segments(template, 0, ms, keysOf), bs);
    ApplyAllStoresLastWrites(current, prev, bs, bs[i].key);
    LastWriteDistinct(prev, bs, i);
  }

  /** The same for a live value that is the template's text with its placeholders replaced. */
  lemma {:induction false} SubstitutedValuesRecovered(template: string, ms: seq<Match>, keysOf: string -> seq<string>,
                                                      current: Values, prev: Values, values: seq<string>, i: nat)
    requires Ordered(template, 0, ms) && ms != [] && !LooksWhole(template, ms)
    requires Replaceable(template, ms, keysOf, values)
    requires var segs, bs := Segments(template, 0, ms, keysOf), BindingsOf(template, ms, keysOf, values);
             && Fits(segs, bs) && Separable(segs, bs) && DistinctKeys(bs)
             && i < |bs| && bs[i].key in current && bs[i].value != "" && IsNews(prev, bs[i].key, bs[i].value)
    ensures var b := BindingsOf(template, ms, keysOf, values)[i];
            var after := Updated(current, prev, template, ms, keysOf, Substitute(template, 0, ms, values)).0;
            b.key in after && after[b.key] == Text(b.value)
  {
    hide Updated, Separable;
    var bs := BindingsOf(template, ms, keysOf, values);
    SegmentsSubstitute(template, 0, ms, keysOf, values);
    UpdateRecoversIff(template, ms, keysOf, current, prev, bs, i);
  }

  /** The shortcut, when it stores, stores the substituted value exactly when `ShortcutRecoversIff` says so. */
  lemma {:induction false} ShortcutStoresIff(template: string, m: Match, keysOf: string -> seq<string>,
                                             current: Values, prev: Values, key: string, value: string)
    requires Ordered(template, 0, [m]) && LooksWhole(template, [m])
    requires keysOf(TrimSpace(template)) == [key] && key in current
    requires Printed(prev, key) != TrimSpace(template[..m.start] + value + template[m.end..])
    ensures var live := template[..m.start] + value + template[m.end..];
            Updated(current, prev, template, [m], keysOf, live).0[key] == Text(value)
            <==> Blank(template[..m.start]) && Blank(template[m.end..]) && TrimSpace(value) == value
  {
    ShortcutRecoversIff(template[..m.start], value, template[m.end..]);
  }

  /** A template that takes the shortcut with other text around its placeholder: the live value is stored whole. */
  lemma {:induction false} ShortcutStoresTooMuch(keysOf: string -> seq<string>, current: Values, prev: Values)
    requires keysOf("{{.a}}-}}") == ["a"] && "a" in current && Printed(prev, "a") != "v-}}"
    ensures var template, m := "{{.a}}-}}", Match(0, 6);
            && Ordered(template, 0, [m]) && LooksWhole(template, [m])
            && template[..m.start] + "v" + template[m.end..] == "v-}}"
            && Updated(current, prev, template, [m], keysOf, "v-}}").0["a"] == Text("v-}}")
  {
    var template, live, ms := "{{.a}}-}}", "v-}}", [Match(0, 6)];
    assert TrimSpace(template) == template && TrimSpace(live) == live by {
      TrimStable(IsSpace, template);
      TrimStable(IsSpace, live);
    }
    hide TrimSpace, Carve, Segments;
    assert Ordered(template, 0, ms) by { assert ms[1..] == []; }
    hide Ordered;
    assert LooksWhole(template, ms) by { assert template[..2] == "{{" && template[7..] == "}}"; }
    assert template[6..] == "-}}" && template[..0] == "";
  }

  // ---- What an update reports ----

  /** The value differs from what was stored before; a missing value prints as Go prints nil. */
  predicate IsNews(prev: Values, key: string, value: string) {
    if key !in prev then value != "<nil>"
    else if prev[key].Text? then value != prev[key].text
    else value != prev[key].printed
  }

  /**
   * What the live value says of each key: the whole of it on the shortcut, else the carved values that are not empty.
   */
  ghost predicate Offers(template: string, ms: seq<Match>, keysOf: string -> seq<string>, live: string, key: string,
                         value: string)
    requires Ordered(template, 0, ms)
  {
    ms != [] &&
    if LooksWhole(template, ms) then keysOf(TrimSpace(template)) == [key] && value == TrimSpace(live)
    else value != "" && Binding(key, value) in Carve(Segments(template, 0, ms, keysOf), live).bindings
  }

  /**
   * An update adds and removes no key, changes a value only to text that was offered and is news, and reports a change
   * exactly when news of a known key was offered; without a change everything stays.
   */
  lemma {:induction false} UpdateReports(template: string, ms: seq<Match>, keysOf: string -> seq<string>,
                                         current: Values, prev: Values, live: string, key: string)
    requires Ordered(template, 0, ms)
    ensures var (after, changed) := Updated(current, prev, template, ms, keysOf, live);
            && after.Keys == current.Keys && (!changed ==> after == current)
            && (key in current && after[key] != current[key] ==>
                  after[key].Text? && Offers(template, ms, keysOf, live, key, after[key].text)
                  && IsNews(prev, key, after[key].text))
            && (changed <==>
                  exists k, v :: k in current && Offers(template, ms, keysOf, live, k, v) && IsNews(prev, k, v))
  {
    hide TrimSpace, Carve, Segments;
    if ms != [] {
      if LooksWhole(template, ms) {
        ShortcutReports(template, ms, keysOf, current, prev, live);
      } else {
        hide LooksWhole;
        var bs := Carve(Segments(template, 0, ms, keysOf), live).bindings;
        AppliedReports(current, prev, bs, key);
        NewsIffEffective(current, prev, bs);
        if AnyEffective(current, prev, bs) {
          var k, v :| k in current && v != "" && Binding(k, v) in bs && IsNews(prev, k, v);
          assert Offers(template, ms, keysOf, live, k, v);
        }
      }
    }
  }

  lemma {:induction false} ShortcutReports(template: string, ms: seq<Match>, keysOf: string -> seq<string>,
                                           current: Values, prev: Values, live: string)
    requires Ordered(template, 0, ms) && ms != [] && LooksWhole(template, ms)
    ensures var (after, changed) := Updated(current, prev, template, ms, keysOf, live);
            && (changed <==>
                  exists k, v :: k in current && Offers(template, ms, keysOf, live, k, v) && IsNews(prev, k, v))
            && (!changed ==> after == current)
            && (changed ==> var k := keysOf(TrimSpace(template))[0];
                  && k in current && after == current[k := Text(TrimSpace(live))]
                  && Offers(template, ms, keysOf, live, k, TrimSpace(live)) && IsNews(prev, k, TrimSpace(live)))
  {
    hide TrimSpace, LooksWhole, Ordered;
    var keys := keysOf(TrimSpace(template));
    if |keys| == 1 {
      assert keys == [keys[0]];
      assert Offers(template, ms, keysOf, live, keys[0], TrimSpace(live));
    }
  }

  lemma {:induction false} AppliedReports(current: Values, prev: Values, bs: seq<Binding>, key: string)
    ensures var after := ApplyAll(current, prev, bs);
            && after.Keys == current.Keys && (!AnyEffective(current, prev, bs) ==> after == current)
            && (key in current && after[key] != current[key] ==>
                  && after[key].Text? && after[key].text != "" && Binding(key, after[key].text) in bs
                  && IsNews(prev, key, after[key].text))
    decreases bs
  {
    if bs != [] {
      var b, rest := bs[0], bs[1..];
      assert bs == [b] + rest;
      ApplyCons(current, prev, b, rest);
      AppliedReports(Applied(current, prev, b), prev, rest, key);
      hide ApplyAll, AnyEffective;
      var after := ApplyAll(current, prev, bs);
      if key in current && after[key] != current[key] {
        if after[key] == Applied(current, prev, b)[key] {
          assert b == Binding(key, after[key].text) && b in bs;
        }
      }
    }
  }

  lemma {:induction false} NewsIffEffective(current: Values, prev: Values, bs: seq<Binding>)
    ensures AnyEffective(current, prev, bs)
       <==> exists k, v :: k in current && v != "" && Binding(k, v) in bs && IsNews(prev, k, v)
  {
    if AnyEffective(current, prev, bs) {
      var i :| 0 <= i < |bs| && Effective(current, prev, bs[i]);
      assert bs[i] == Binding(bs[i].key, bs[i].value) && bs[i] in bs;
    }
    if k, v :| k in current && v != "" && Binding(k, v) in bs && IsNews(prev, k, v) {
      var i :| 0 <= i < |bs| && bs[i] == Binding(k, v);
      assert Effective(current, prev, bs[i]);
    }
  }

  // ---- The methods ----

  function HeadSegments(template: string, cursor: nat, m: Match, keysOf: string -> seq<string>): seq<Segment>
    requires cursor <= m.start <= m.end <= |template|
  {
    var keys := keysOf(template[m.start..m.end]);
    (if m.start > cursor then [Literal(template[cursor..m.start])] else [])
    + if |keys| == 1 then [Placeholder(keys[0])] else []
  }

  lemma {:induction false} SegmentsNext(template: string, cursor: nat, ms: seq<Match>, n: nat,
                                        keysOf: string -> seq<string>)
    requires n < |ms| && Ordered(template, cursor, ms[n..])
    ensures cursor <= ms[n].start < ms[n].end <= |template| && Ordered(template, ms[n].end, ms[n + 1..])
    ensures Segments(template, cursor, ms[n..], keysOf)
         == HeadSegments(template, cursor, ms[n], keysOf) + Segments(template, ms[n].end, ms[n + 1..], keysOf)
  {
    assert ms[n..][0] == ms[n] && ms[n..][1..] == ms[n + 1..];
  }

  lemma {:induction false} SegmentsLast(template: string, cursor: nat, keysOf: string -> seq<string>)
    requires Ordered(template, cursor, [])
    ensures cursor <= |template|
    ensures Segments(template, cursor, [], keysOf) == if cursor < |template| then [Literal(template[cursor..])] else []
  {
  }

  lemma {:induction false} Regroup(before: seq<Segment>, head: seq<Segment>, rest: seq<Segment>)
    ensures before + (head + rest) == (before + head) + rest
  {
  }

  method Tokenise(template: string, ms: seq<Match>, keysOf: string -> seq<string>) returns (segs: seq<Segment>)
    requires Ordered(template, 0, ms)
    ensures segs == Segments(template, 0, ms, keysOf)
  {
    hide Segments, Ordered;
    segs := [];
    var cursor: nat := 0;
    assert ms[0..] == ms;
    for n := 0 to |ms|
      invariant Ordered(template, cursor, ms[n..])
      invariant segs + Segments(template, cursor, ms[n..], keysOf) == Segments(template, 0, ms, keysOf)
    {
      var m := ms[n];
      SegmentsNext(template, cursor, ms, n, keysOf);
      ghost var before, head := segs, HeadSegments(template, cursor, m, keysOf);
      if m.start > cursor { segs := segs + [Literal(template[cursor..m.start])]; }
      var keys := keysOf(template[m.start..m.end]);
      if |keys| == 1 { segs := segs + [Placeholder(keys[0])]; }
      assert segs == before + head;
      Regroup(before, head, Segments(template, m.end, ms[n + 1..], keysOf));
      cursor := m.end;
    }
    assert ms[|ms|..] == [];
    SegmentsLast(template, cursor, keysOf);
    if cursor < |template| { segs := segs + [Literal(template[cursor..])]; }
  }

  lemma {:induction false} CarveNothing(live: string)
    ensures Carve([], live).bindings == []
  {
  }

  lemma {:induction false} NothingLeft(current: Values, prev: Values)
    ensures ApplyAll(current, prev, []) == current && !AnyEffective(current, prev, [])
  {
  }

  lemma {:induction false} CarveAtLiteral(segs: seq<Segment>, n: nat, live: string, pos: nat)
    requires n < |segs| && pos <= |live| && segs[n].Literal?
    ensures var text := segs[n].text;
            Carve(segs[n..], live[pos..]).bindings
            == if HasPrefix(live[pos..], text) then Carve(segs[n + 1..], live[pos + |text|..]).bindings else []
  {
    var tail, left := segs[n..], live[pos..];
    assert tail[0] == segs[n] && tail[1..] == segs[n + 1..];
    assert HasPrefix(left, segs[n].text) ==> left[|segs[n].text|..] == live[pos + |segs[n].text|..];
  }

  /** Where the placeholder at `n` stops in the live value. */
  function HoleEnd(segs: seq<Segment>, n: nat, live: string, pos: nat): (end: Option<nat>)
    requires n < |segs| && pos <= |live|
    ensures end.Some? ==> pos <= end.value <= |live|
  {
    var next := if n + 1 < |segs| && segs[n + 1].Literal? then segs[n + 1].text else "";
    if next == "" then Some(|live|)
    else match Index(live[pos..], next) case None => None case Some(i) => Some(pos + i)
  }

  lemma {:induction false} CarveAtHole(segs: seq<Segment>, n: nat, live: string, pos: nat)
    requires n < |segs| && pos <= |live| && segs[n].Placeholder?
    ensures var end := HoleEnd(segs, n, live, pos);
            Carve(segs[n..], live[pos..]).bindings
            == if end.None? then []
               else [Binding(segs[n].key, live[pos..end.value])] + Carve(segs[n + 1..], live[end.value..]).bindings
  {
    hide Carve, Index;
    var tail, left, end := segs[n..], live[pos..], HoleEnd(segs, n, live, pos);
    assert tail[0] == segs[n] && tail[1..] == segs[n + 1..];
    assert HoleEnd(tail, 0, left, 0) == if end.None? then None else Some(end.value - pos) by {
      assert left[0..] == left;
    }
    if end.Some? {
      assert left[..end.value - pos] == live[pos..end.value] && left[end.value - pos..] == live[end.value..];
    }
    CarveFirstHole(tail, left);
  }

  lemma {:induction false} CarveFirstHole(segs: seq<Segment>, live: string)
    requires segs != [] && segs[0].Placeholder?
    ensures var end := HoleEnd(segs, 0, live, 0);
            Carve(segs, live).bindings
            == if end.None? then []
               else [Binding(segs[0].key, live[..end.value])] + Carve(segs[1..], live[end.value..]).bindings
  {
    hide Index;
    assert live[0..] == live && live[..|live|] == live && live[|live|..] == "";
  }

  class TemplateValues {
    var current: Values

    constructor (values: Values)
      ensures current == values
    {
      current := values;
    }

    method Apply(key: string, value: string, prev: Values) returns (changed: bool)
      modifies this
      ensures (current, changed) == Stored(old(current), prev, key, value)
    {
      if key !in current { return false; }
      if Printed(prev, key) == value { return false; }
      current := current[key := Text(value)];
      return true;
    }

    /** The walk, with its position in the live value. */
    method Walk(segs: seq<Segment>, live: string, prev: Values) returns (changed: bool)
      modifies this
      ensures current == ApplyAll(old(current), prev, Carve(segs, live).bindings)
      ensures changed == AnyEffective(old(current), prev, Carve(segs, live).bindings)
    {
      hide Carve, ApplyAll, AnyEffective, HoleEnd;
      changed := false;
      var pos: nat, n: nat := 0, 0;
      assert segs[0..] == segs && live[0..] == live;
      while n < |segs|
        invariant n <= |segs| && pos <= |live|
        invariant ApplyAll(old(current), prev, Carve(segs, live).bindings)
               == ApplyAll(current, prev, Carve(segs[n..], live[pos..]).bindings)
        invariant AnyEffective(old(current), prev, Carve(segs, live).bindings)
              <==> changed || AnyEffective(current, prev, Carve(segs[n..], live[pos..]).bindings)
      {
        if segs[n].Literal? {
          CarveAtLiteral(segs, n, live, pos);
          NothingLeft(current, prev);
          if !HasPrefix(live[pos..], segs[n].text) { return; }
          pos := pos + |segs[n].text|;
        } else {
          var end := HoleEnd(segs, n, live, pos);
          CarveAtHole(segs, n, live, pos);
          NothingLeft(current, prev);
          if end.None? { return; }
          var extracted := live[pos..end.value];
          pos := end.value;
          ApplyCons(current, prev, Binding(segs[n].key, extracted), Carve(segs[n + 1..], live[pos..]).bindings);
          if extracted != "" {
            var stored := Apply(segs[n].key, extracted, prev);
            if stored { changed := true; }
          }
        }
        n := n + 1;
      }
      assert segs[n..] == [];
      CarveNothing(live[pos..]);
      NothingLeft(current, prev);
    }

    method Update(template: string, live: string, ms: seq<Match>, keysOf: string -> seq<string>, prev: Values)
      returns (changed: bool)
      requires Ordered(template, 0, ms)
      modifies this
      ensures (current, changed) == Updated(old(current), prev, template, ms, keysOf, live)
    {
      if |ms| == 0 { return false; }
      if LooksWhole(template, ms) {
        var keys := keysOf(TrimSpace(template));
        if |keys| != 1 { return false; }
        changed := Apply(keys[0], TrimSpace(live), prev);
        return;
      }
      var segs := Tokenise(template, ms, keysOf);
      changed := Walk(segs, live, prev);
    }
  }

  lemma {:induction false} ApplyCons(current: Values, prev: Values, b: Binding, rest: seq<Binding>)
    ensures ApplyAll(current, prev, [b] + rest) == ApplyAll(Applied(current, prev, b), prev, rest)
    ensures AnyEffective(current, prev, [b] + rest)
       <==> Effective(current, prev, b) || AnyEffective(Applied(current, prev, b), prev, rest)
  {
    var all := [b] + rest;
    assert all[0] == b && all[1..] == rest;
    assert forall i :: 0 <= i < |rest| ==> rest[i] == all[i + 1];
    assert forall i :: 1 <= i < |all| ==> all[i] == rest[i - 1];
  }
}

/** Decoding what was encoded gives the cell back exactly when it is well formed. */
module PgRoundTrip {
  import opened Text
  import opened Decimal
  import opened PgCell

  // ---- Dispatch ----

  /** No two shapes share a key set, so the order of the probes does not matter. */
  lemma {:induction false} KeySetsDistinct(s: Shape, t: Shape)
    requires KeySet(s) == KeySet(t)
    ensures s == t
  {
    hide KeySet, Mark;
    MarkIdentifies(s, t);
    MarkIdentifies(t, s);
  }

  lemma {:induction false} MarkIdentifies(s: Shape, t: Shape)
    ensures Mark(s) in KeySet(s)
    ensures Mark(s) in KeySet(t) ==> s == t || (s.TimeShape? && t.IntervalShape?)
  {
  }

  /** A key that identifies the shape, but for times, whose keys are all keys of intervals. */
  function Mark(s: Shape): string {
    match s
    case PrefixShape => "prefix"
    case MacShape => "macaddr"
    case NumericShape => "int"
    case IntervalShape => "months"
    case TimeShape => "microseconds"
    case BitsShape => "len"
    case LineShape => "a"
    case PathShape => "closed"
    case CircleShape => "r"
    case TidShape => "blocknumber"
    case TsVectorShape => "lexemes"
    case RangeShape => "lower"
    case RawShape => "format"
  }

  lemma {:induction false} ShapeOfKeySet(s: Shape)
    ensures ShapeOf(KeySet(s)) == Some(s) && PG_TYPE !in KeySet(s)
  {
    var r := ShapeOf(KeySet(s));
    assert r.Some? && KeySet(r.value) == KeySet(s);
    KeySetsDistinct(r.value, s);
  }

  lemma {:induction false} ShapeIsKeySet(keys: set<string>)
    ensures ShapeOf(keys).Some? ==> keys == KeySet(ShapeOf(keys).value)
  {
  }

  lemma {:induction false} DecodesByShape(c: Codec, m: map<string, Json>, s: Shape)
    requires m.Keys == KeySet(s)
    ensures Decode(c, JObject(m)) == DecodeShape(c, s, JObject(m))
  {
    hide DecodeShape, DecodeTagged, ShapeOf, KeySet;
    ShapeOfKeySet(s);
  }

  ghost predicate HasTag(m: map<string, Json>, kind: string) { PG_TYPE in m && m[PG_TYPE] == JString(kind) }

  lemma {:induction false} DecodesByTag(c: Codec, m: map<string, Json>, kind: string)
    requires HasTag(m, kind)
    ensures Decode(c, JObject(m)) == DecodeTagged(c, kind, JObject(m))
  {
    hide DecodeShape, DecodeTagged, ShapeOf;
  }

  /** The decoder on everything but an object. */
  lemma {:induction false} DecodesPlain(c: Codec, j: Json)
    ensures j.JNull? ==> Decode(c, j) == Some(Nil)
    ensures j.JBool? ==> Decode(c, j) == Some(Bool(j.b))
    ensures j.JString? ==> Decode(c, j) == Some(if j.s == NULL_SENTINEL then Nil else Str(j.s))
    ensures j.JNumber? && ParseInt64(j.literal).Some? ==> Decode(c, j) == Some(Int(ParseInt64(j.literal).value))
    ensures j.JNumber? && ParseInt64(j.literal).None? ==>
              var f := c.parseFloat(j.literal);
              Decode(c, j) == if f.None? then None else Some(Flt(f.value))
    ensures j.JArray? ==>
              var vs := DecodeAll(c, j.es);
              Decode(c, j) == if vs.None? then None else Some(List(vs.value))
  {
    hide DecodeShape, DecodeTagged, ShapeOf, DecodeAll, ParseInt64;
  }

  // ---- Fields ----

  lemma {:induction false} IntFieldBack(m: map<string, Json>, k: string, n: int)
    requires k in m && m[k] == JInt(n) && InInt64(n)
    ensures IntField(m, k) == Some(n)
  {
    ParsePrintInt(n);
  }

  lemma {:induction false} Unsigned(n: nat)
    ensures n < 0x100 ==> ToUnsigned(n, 0x100) == n
    ensures n < 0x1_0000 ==> ToUnsigned(n, 0x1_0000) == n
    ensures n < 0x1_0000_0000 ==> ToUnsigned(n, 0x1_0000_0000) == n
  {
  }

  lemma {:induction false} Signed(n: int)
    ensures -0x80 <= n < 0x80 ==> ToSigned(n, 0x80) == n
    ensures -0x8000 <= n < 0x8000 ==> ToSigned(n, 0x8000) == n
    ensures -0x8000_0000 <= n < 0x8000_0000 ==> ToSigned(n, 0x8000_0000) == n
  {
  }

  lemma {:induction false} Narrowing(n: int)
    ensures 0 <= n < 0x100 ==> ToByte(n) == n
    ensures 0 <= n < 0x1_0000 ==> ToUInt16(n) == n
    ensures 0 <= n < 0x1_0000_0000 ==> ToUInt32(n) == n
    ensures -0x80 <= n < 0x80 ==> ToInt8(n) == n
    ensures -0x8000 <= n < 0x8000 ==> ToInt16(n) == n
    ensures -0x8000_0000 <= n < 0x8000_0000 ==> ToInt32(n) == n
  {
    hide ToSigned, ToUnsigned;
    if 0 <= n { Unsigned(n); }
    Signed(n);
  }

  lemma {:induction false} FloatBack(c: Codec, f: Float)
    requires Lawful(c)
    ensures AsFloat(c, FloatJson(c, f)) == Some(f) && !FloatJson(c, f).JNull?
  {
  }

  lemma {:induction false} Vec2Back(c: Codec, v: Vec2)
    requires Lawful(c)
    ensures Vec2FromJson(c, Vec2Json(c, v)) == Some(v) && !Vec2Json(c, v).JNull?
  {
    FloatBack(c, v.x);
    FloatBack(c, v.y);
  }

  lemma {:induction false} Vec2sBack(c: Codec, ps: seq<Vec2>)
    requires Lawful(c)
    ensures Vec2sFromJson(c, Vec2SeqJson(c, ps)) == Some(ps)
    decreases |ps|
  {
    hide Vec2FromJson, Vec2Json, Lawful;
    if ps != [] {
      var before, last := ps[..|ps| - 1], ps[|ps| - 1];
      assert ps == before + [last];
      assert Vec2SeqJson(c, ps)[..|ps| - 1] == Vec2SeqJson(c, before);
      Vec2sBack(c, before);
      Vec2Back(c, last);
    }
  }

  lemma {:induction false} PositionBack(p: Position)
    ensures PositionFromJson(PositionJson(p)) == Some(p)
  {
    var m := PositionJson(p).m;
    IntFieldBack(m, "position", p.position);
    IntFieldBack(m, "weight", p.weight);
    Narrowing(p.position);
    Narrowing(p.weight);
  }

  lemma {:induction false} PositionsBack(ps: seq<Position>)
    ensures PositionsFromJson(PositionsJson(ps)) == Some(ps)
    decreases |ps|
  {
    hide PositionFromJson, PositionJson;
    if ps != [] {
      var before, last := ps[..|ps| - 1], ps[|ps| - 1];
      assert ps == before + [last];
      assert PositionsJson(ps)[..|ps| - 1] == PositionsJson(before);
      PositionsBack(before);
      PositionBack(last);
    }
  }

  lemma {:induction false} LexemeBack(l: Lexeme)
    ensures LexemeFromJson(LexemeJson(l)) == Some(l)
  {
    hide PositionsFromJson, PositionsJson;
    PositionsBack(l.positions);
    assert LexemeJson(l).m["positions"].es == PositionsJson(l.positions);
  }

  lemma {:induction false} LexemesBack(ls: seq<Lexeme>)
    ensures LexemesFromJson(LexemesJson(ls)) == Some(ls)
    decreases |ls|
  {
    hide LexemeFromJson, LexemeJson;
    if ls != [] {
      var before, last := ls[..|ls| - 1], ls[|ls| - 1];
      assert ls == before + [last];
      assert LexemesJson(ls)[..|ls| - 1] == LexemesJson(before);
      LexemesBack(before);
      LexemeBack(last);
    }
  }

  // ---- One lemma per kind of cell ----

  ghost predicate RoundTrips(c: Codec, v: Cell) {
    Encode(c, v).Some? && Decode(c, Encode(c, v).value) == Some(v)
  }

  lemma {:induction false} EncodesFixed(c: Codec, v: Cell)
    ensures NumberKind(v) ==> Encode(c, v) == Some(JObject(NumberJson(c, v)))
    ensures ShapedKind(v) ==> Encode(c, v) == Some(JObject(ShapedJson(c, v)))
    ensures TaggedKind(v) ==> Encode(c, v) == Some(JObject(TaggedJson(c, v)))
  {
    hide NumberJson, ShapedJson, TaggedJson, EncodePlain, EncodeRange, EncodeRanges, FloatJson;
  }

  lemma {:induction false} EncodesOther(c: Codec, v: Cell)
    ensures v.Flt? || v.Flt32? ==> Encode(c, v) == Some(FloatJson(c, v.f))
    ensures v.Range? ==> Encode(c, v) == EncodeRange(c, v.range)
    ensures v.Multirange? ==>
              var js := EncodeRanges(c, v.ranges);
              Encode(c, v) == if js.None? then None else Some(Tagged("multirange", "values", JArray(js.value)))
    ensures PlainKind(v) && !v.Flt? ==> Encode(c, v) == EncodePlain(c, v)
  {
    hide NumberJson, ShapedJson, TaggedJson, EncodePlain, EncodeRange, EncodeRanges, FloatJson, Tagged;
  }

  lemma {:induction false} NumericBack(v: Cell)
    requires v.Numeric?
    ensures NumericMap(v).Keys == KeySet(NumericShape) && NumericFromJson(NumericMap(v)) == Some(v)
  {
    hide ParseInt, IntField;
    var m := NumericMap(v);
    IntFieldBack(m, "exp", v.exp);
    IntFieldBack(m, "infinitymodifier", v.infinity);
    Narrowing(v.exp);
    Narrowing(v.infinity);
    if v.mantissa.Some? {
      ParsePrintInt(v.mantissa.value);
    }
  }

  lemma {:induction false} IntervalBack(v: Cell)
    requires v.Interval?
    ensures IntervalMap(v).Keys == KeySet(IntervalShape) && IntervalFromJson(IntervalMap(v)) == Some(v)
  {
    hide IntField;
    var m := IntervalMap(v);
    IntFieldBack(m, "microseconds", v.microseconds);
    IntFieldBack(m, "days", v.days);
    IntFieldBack(m, "months", v.months);
    Narrowing(v.days);
    Narrowing(v.months);
  }

  lemma {:induction false} TimeBack(v: Cell)
    requires v.TimeOfDay?
    ensures TimeMap(v).Keys == KeySet(TimeShape) && TimeFromJson(TimeMap(v)) == Some(v)
  {
    hide IntField;
    IntFieldBack(TimeMap(v), "microseconds", v.microseconds);
  }

  lemma {:induction false} TidBack(v: Cell)
    requires v.Tid?
    ensures TidMap(v).Keys == KeySet(TidShape) && TidFromJson(TidMap(v)) == Some(v)
  {
    hide IntField;
    var m := TidMap(v);
    IntFieldBack(m, "blocknumber", v.block);
    IntFieldBack(m, "offsetnumber", v.offset);
    Narrowing(v.block);
    Narrowing(v.offset);
  }

  lemma {:induction false} BitsBack(c: Codec, v: Cell)
    requires Lawful(c) && v.Bits?
    ensures BitsMap(c, v).Keys == KeySet(BitsShape) && BitsFromJson(c, BitsMap(c, v)) == Some(v)
  {
    hide IntField;
    IntFieldBack(BitsMap(c, v), "len", v.len);
    Narrowing(v.len);
  }

  lemma {:induction false} RawBack(c: Codec, v: Cell)
    requires Lawful(c) && v.RawCell?
    ensures RawMap(c, v).Keys == KeySet(RawShape) && RawFromJson(c, RawMap(c, v)) == Some(v)
  {
    hide IntField;
    IntFieldBack(RawMap(c, v), "format", v.format);
    Narrowing(v.format);
  }

  /** Numerics, intervals, times of day, row identifiers, bit strings and raw cells all survive. */
  lemma {:induction false} NumbersBack(c: Codec, v: Cell)
    requires Lawful(c) && NumberKind(v)
    ensures RoundTrips(c, v)
  {
    hide NumericMap, IntervalMap, TimeMap, TidMap, BitsMap, RawMap,
         NumericFromJson, IntervalFromJson, TimeFromJson, TidFromJson, BitsFromJson, RawFromJson;
    hide Encode, Decode, DecodeTagged, ShapedFromJson, ShapeOf, KeySet, Lawful;
    var shape :=
      if v.Numeric? then NumericShape else if v.Interval? then IntervalShape else if v.TimeOfDay? then TimeShape
      else if v.Tid? then TidShape else if v.Bits? then BitsShape else RawShape;
    var m := NumberJson(c, v);
    assert m.Keys == KeySet(shape) && NumberFromJson(c, shape, m) == Some(v) by {
      if v.Numeric? { NumericBack(v); }
      else if v.Interval? { IntervalBack(v); }
      else if v.TimeOfDay? { TimeBack(v); }
      else if v.Tid? { TidBack(v); }
      else if v.Bits? { BitsBack(c, v); }
      else { RawBack(c, v); }
    }
    DecodesByShape(c, m, shape);
    EncodesFixed(c, v);
  }

  lemma {:induction false} LineBack(c: Codec, v: Cell)
    requires Lawful(c) && v.Line?
    ensures LineMap(c, v).Keys == KeySet(LineShape) && LineFromJson(c, LineMap(c, v)) == Some(v)
  {
    hide FloatJson, AsFloat, Lawful;
    FloatBack(c, v.a);
    FloatBack(c, v.b');
    FloatBack(c, v.c);
  }

  lemma {:induction false} PathBack(c: Codec, v: Cell)
    requires Lawful(c) && v.Path?
    ensures PathMap(c, v).Keys == KeySet(PathShape) && PathFromJson(c, PathMap(c, v)) == Some(v)
  {
    hide Vec2sFromJson, Vec2SeqJson, Lawful;
    Vec2sBack(c, v.ps);
  }

  lemma {:induction false} CircleBack(c: Codec, v: Cell)
    requires Lawful(c) && v.Circle?
    ensures CircleMap(c, v).Keys == KeySet(CircleShape) && CircleFromJson(c, CircleMap(c, v)) == Some(v)
  {
    hide FloatJson, AsFloat, Vec2FromJson, Vec2Json, Lawful;
    Vec2Back(c, v.p);
    FloatBack(c, v.r);
  }

  lemma {:induction false} TsVectorBack(v: Cell)
    requires v.TsVector?
    ensures TsVectorMap(v).Keys == KeySet(TsVectorShape) && TsVectorFromJson(TsVectorMap(v)) == Some(v)
  {
    hide LexemesFromJson, LexemesJson;
    LexemesBack(v.lexemes);
  }

  lemma {:induction false} PrefixBackIff(c: Codec, v: Cell)
    requires Lawful(c) && v.NetPrefix?
    ensures PrefixMap(c, v).Keys == KeySet(PrefixShape)
    ensures PrefixFromJson(c, PrefixMap(c, v)) == Some(v) <==> v.prefix != InvalidPrefix
  {
  }

  lemma {:induction false} MacBack(c: Codec, v: Cell)
    requires Lawful(c) && v.MacAddr?
    ensures MacMap(c, v).Keys == KeySet(MacShape) && MacFromJson(c, Get(MacMap(c, v), "macaddr")) == Some(v)
  {
  }

  /**
   * Lines, paths, circles, text-search vectors, hardware addresses and valid prefixes survive; invalid prefixes do
   * not.
   */
  lemma {:induction false} ShapedBackIff(c: Codec, v: Cell)
    requires Lawful(c) && ShapedKind(v)
    ensures RoundTrips(c, v) <==> v != NetPrefix(InvalidPrefix)
  {
    hide LineMap, PathMap, CircleMap, TsVectorMap, PrefixMap, MacMap,
         LineFromJson, PathFromJson, CircleFromJson, TsVectorFromJson, PrefixFromJson, MacFromJson;
    hide Encode, Decode, DecodeTagged, NumberFromJson, ShapeOf, KeySet, Lawful;
    var shape :=
      if v.Line? then LineShape else if v.Path? then PathShape else if v.Circle? then CircleShape
      else if v.TsVector? then TsVectorShape else if v.NetPrefix? then PrefixShape else MacShape;
    var m := ShapedJson(c, v);
    assert m.Keys == KeySet(shape) && (ShapedFromJson(c, shape, m) == Some(v) <==> v != NetPrefix(InvalidPrefix)) by {
      if v.Line? { LineBack(c, v); }
      else if v.Path? { PathBack(c, v); }
      else if v.Circle? { CircleBack(c, v); }
      else if v.TsVector? { TsVectorBack(v); }
      else if v.NetPrefix? { PrefixBackIff(c, v); }
      else { MacBack(c, v); }
    }
    DecodesByShape(c, m, shape);
    EncodesFixed(c, v);
  }

  lemma {:induction false} PointBack(c: Codec, v: Cell)
    requires Lawful(c) && v.Point?
    ensures HasTag(PointMap(c, v), "point") && PointFromJson(c, PointMap(c, v)) == Some(v)
  {
    hide Vec2FromJson, Vec2Json, Lawful;
    Vec2Back(c, v.p);
  }

  lemma {:induction false} PolygonBack(c: Codec, v: Cell)
    requires Lawful(c) && v.Polygon?
    ensures HasTag(PointsMap(c, v), "polygon") && PolygonFromJson(c, PointsMap(c, v)) == Some(v)
  {
    hide Vec2sFromJson, Vec2SeqJson, Lawful;
    Vec2sBack(c, v.ps);
  }

  lemma {:induction false} LsegBack(c: Codec, v: Cell)
    requires Lawful(c) && v.Lseg?
    ensures HasTag(PointsMap(c, v), "lseg") && LsegFromJson(c, PointsMap(c, v)) == Some(v)
  {
    hide Vec2sFromJson, Vec2SeqJson, Lawful;
    Vec2sBack(c, [v.p0, v.p1]);
  }

  lemma {:induction false} BoxBack(c: Codec, v: Cell)
    requires Lawful(c) && v.Box?
    ensures HasTag(PointsMap(c, v), "box") && BoxFromJson(c, PointsMap(c, v)) == Some(v)
  {
    hide Vec2sFromJson, Vec2SeqJson, Lawful;
    Vec2sBack(c, [v.p0, v.p1]);
  }

  lemma {:induction false} BytesBack(c: Codec, v: Cell)
    requires Lawful(c) && v.Bytes?
    ensures HasTag(BytesMap(c, v), "binary") && BytesFromJson(c, BytesMap(c, v)) == Some(v)
  {
  }

  lemma {:induction false} TimestampBack(c: Codec, v: Cell)
    requires Lawful(c) && v.Timestamp?
    ensures HasTag(TimestampMap(c, v), "timestamp") && TimestampFromJson(c, TimestampMap(c, v)) == Some(v)
  {
  }

  lemma {:induction false} HstoreBack(v: Cell)
    requires v.Hstore?
    ensures HasTag(HstoreMap(v), "hstore") && HstoreFromJson(HstoreMap(v)) == Some(v)
  {
    var m, entries := HstoreMap(v), v.entries;
    var values := map k | k in entries :: OptionJson(entries[k]);
    assert m["values"] == JObject(values);
    assert (map k | k in values :: if values[k].JNull? then None else Some(values[k].s)) == entries;
  }

  /** Bytes, timestamps, points, segments, boxes, polygons and hstores all survive. */
  lemma {:induction false} TaggedBack(c: Codec, v: Cell)
    requires Lawful(c) && TaggedKind(v)
    ensures RoundTrips(c, v)
  {
    hide BytesMap, TimestampMap, PointMap, PointsMap, HstoreMap, BytesFromJson, TimestampFromJson, PointFromJson,
        LsegFromJson, BoxFromJson, PolygonFromJson,
         HstoreFromJson, FloatFromJson;
    hide Encode, Decode, DecodeShape, ShapeOf, Lawful, HasTag;
    var kind :=
      if v.Bytes? then "binary" else if v.Timestamp? then "timestamp" else if v.Point? then "point"
      else if v.Lseg? then "lseg" else if v.Box? then "box" else if v.Polygon? then "polygon" else "hstore";
    var m := TaggedJson(c, v);
    assert HasTag(m, kind) && TaggedFromJson(c, kind, m) == Some(v) by {
      if v.Bytes? { BytesBack(c, v); }
      else if v.Timestamp? { TimestampBack(c, v); }
      else if v.Point? { PointBack(c, v); }
      else if v.Lseg? { LsegBack(c, v); }
      else if v.Box? { BoxBack(c, v); }
      else if v.Polygon? { PolygonBack(c, v); }
      else { HstoreBack(v); }
    }
    DecodesByTag(c, m, kind);
    EncodesFixed(c, v);
  }

  // ---- Which cells are well formed ----

  predicate PlainKind(v: Cell) { v.Nil? || v.Bool? || v.Int? || v.Flt? || v.Str? || v.List? || v.Dict? }

  /** A value whose form inside a plain list or map is known. */
  predicate Printable(v: Cell) { PlainKind(v) || ScalarKind(v) }

  /** The lists and maps inside `v` hold no Postgres composite, whose form there its own library chooses. */
  predicate PlainContainers(v: Cell) {
    match v
    case List(es) => forall i :: 0 <= i < |es| ==> Printable(es[i]) && PlainContainers(es[i])
    case Dict(m) => forall k :: k in m ==> Printable(m[k]) && PlainContainers(m[k])
    case Range(r) => PlainContainers(r.lower) && PlainContainers(r.upper)
    case Multirange(rs) => forall i :: 0 <= i < |rs| ==> PlainContainers(rs[i].lower) && PlainContainers(rs[i].upper)
    case _ => true
  }

  /** A map that the decoder would take for an encoded Postgres value. */
  predicate Reserved(m: map<string, Cell>) {
    (PG_TYPE in m && m[PG_TYPE].Str?) || ShapeOf(m.Keys).Some?
  }

  /** A finite float whose literal reads as a 64-bit integer comes back as that integer. */
  predicate ReadsAsInt(c: Codec, f: Float) { f.Finite? && ParseInt64(c.printFloat(f)).Some? }

  /** Well-formed inside a plain list or map: encoding/json rejects non-finite floats there and loses typed scalars. */
  predicate WellFormedPlain(c: Codec, v: Cell) {
    match v
    case Flt(f) => f.Finite? && !ReadsAsInt(c, f)
    case Str(s) => s != NULL_SENTINEL
    case List(es) => forall i :: 0 <= i < |es| ==> WellFormedPlain(c, es[i])
    case Dict(m) => !Reserved(m) && forall k :: k in m ==> WellFormedPlain(c, m[k])
    case _ => !ScalarKind(v)
  }

  predicate WellFormed(c: Codec, v: Cell) {
    match v
    case Flt(f) => !ReadsAsInt(c, f)
    case Flt32(_) => false
    case NetPrefix(p) => !p.InvalidPrefix?
    case Range(r) => WellFormed(c, r.lower) && WellFormed(c, r.upper)
    case Multirange(rs) => forall i :: 0 <= i < |rs| ==> WellFormed(c, rs[i].lower) && WellFormed(c, rs[i].upper)
    case _ => PlainKind(v) ==> WellFormedPlain(c, v)
  }

  ghost predicate RoundTripsPlain(c: Codec, v: Cell) {
    EncodePlain(c, v).Some? && Decode(c, EncodePlain(c, v).value) == Some(v)
  }

  lemma {:induction false} PlainBackIff(c: Codec, v: Cell)
    requires Lawful(c) && Printable(v) && PlainContainers(v)
    ensures RoundTripsPlain(c, v) <==> WellFormedPlain(c, v)
    decreases v
  {
    hide RoundTripsPlain, WellFormedPlain, EncodePlain, Decode, DecodeAll, ShapeOf, Lawful;
    match v
    case List(es) =>
      ListBackIff(c, es);
      ListCellBackIff(c, es);
    case Dict(m) =>
      forall k | k in m ensures RoundTripsPlain(c, m[k]) <==> WellFormedPlain(c, m[k]) {
        PlainBackIff(c, m[k]);
      }
      DictBackIff(c, m);
    case _ => LeafBackIff(c, v);
  }

  lemma {:induction false} LeafBackIff(c: Codec, v: Cell)
    requires Lawful(c) && Printable(v) && !v.List? && !v.Dict?
    ensures RoundTripsPlain(c, v) <==> WellFormedPlain(c, v)
  {
    hide RoundTripsPlain, WellFormedPlain, EncodePlain, Lawful;
    match v
    case Int(n) => IntBack(c, n);
    case Flt(f) => PlainFloatBackIff(c, f);
    case _ => if ScalarKind(v) { ScalarIsLost(c, v); } else { TextBackIff(c, v); }
  }

  lemma {:induction false} IntBack(c: Codec, n: Int64)
    ensures RoundTripsPlain(c, Int(n)) && WellFormedPlain(c, Int(n))
  {
    hide Decode, Reserved;
    ParsePrintInt(n);
    DecodesPlain(c, JInt(n));
  }

  lemma {:induction false} PlainFloatBackIff(c: Codec, f: Float)
    requires Lawful(c)
    ensures RoundTripsPlain(c, Flt(f)) <==> WellFormedPlain(c, Flt(f))
  {
    hide Decode, Reserved, Lawful, ParseInt64;
    FloatBack(c, f);
    if f.Finite? { DecodesPlain(c, JNumber(c.printFloat(f))); }
  }

  lemma {:induction false} TextBackIff(c: Codec, v: Cell)
    requires v.Nil? || v.Bool? || v.Str?
    ensures RoundTripsPlain(c, v) <==> WellFormedPlain(c, v)
  {
    hide Decode, Reserved;
    DecodesPlain(c, EncodePlain(c, v).value);
  }

  lemma {:induction false} ListCellBackIff(c: Codec, es: seq<Cell>)
    ensures var js := EncodePlainAll(c, es);
            RoundTripsPlain(c, List(es)) <==> js.Some? && DecodeAll(c, js.value) == Some(es)
    ensures WellFormedPlain(c, List(es)) <==> forall i :: 0 <= i < |es| ==> WellFormedPlain(c, es[i])
  {
    hide Decode, DecodeAll, EncodePlainAll, Reserved;
    if EncodePlain(c, List(es)).Some? { DecodesPlain(c, EncodePlain(c, List(es)).value); }
  }

  /** Inside a plain container a typed scalar comes back as text or as a number. */
  lemma {:induction false} ScalarIsLost(c: Codec, v: Cell)
    requires Lawful(c) && ScalarKind(v)
    ensures !RoundTripsPlain(c, v) && !WellFormedPlain(c, v)
  {
    hide Decode, Reserved;
    assert EncodePlain(c, v) == c.reflect(v);
    if c.reflect(v).Some? { DecodesPlain(c, c.reflect(v).value); }
  }

  lemma {:induction false} ListBackIff(c: Codec, es: seq<Cell>)
    requires Lawful(c) && forall i :: 0 <= i < |es| ==> Printable(es[i]) && PlainContainers(es[i])
    ensures var js := EncodePlainAll(c, es);
            (js.Some? && DecodeAll(c, js.value) == Some(es))
                <==> forall i :: 0 <= i < |es| ==> WellFormedPlain(c, es[i])
    decreases es
  {
    hide EncodePlain, Decode, WellFormedPlain, Printable, PlainContainers, Lawful;
    if es != [] {
      PlainBackIff(c, es[0]);
      ListBackIff(c, es[1..]);
      var js := EncodePlainAll(c, es);
      if js.Some? {
        var j, rest := EncodePlain(c, es[0]).value, EncodePlainAll(c, es[1..]).value;
        assert js.value == [j] + rest && js.value[0] == j && js.value[1..] == rest;
      }
      assert (forall i :: 0 <= i < |es| ==> WellFormedPlain(c, es[i])) <==>
             WellFormedPlain(c, es[0]) && forall i :: 0 <= i < |es[1..]| ==> WellFormedPlain(c, es[1..][i]) by {
        assert forall i :: 0 < i < |es| ==> es[1..][i - 1] == es[i];
      }
      assert es == [es[0]] + es[1..];
    }
  }

  /** The decoder turns a reserved map into a typed value or an error, never back into a map. */
  lemma {:induction false} TypedIsNotDict(c: Codec, j: Json)
    requires j.JObject?
    ensures forall kind :: DecodeTagged(c, kind, j).None? || !DecodeTagged(c, kind, j).value.Dict?
    ensures forall shape :: DecodeShape(c, shape, j).None? || !DecodeShape(c, shape, j).value.Dict?
  {
  }

  lemma {:induction false} DictBackIff(c: Codec, m: map<string, Cell>)
    requires forall k :: k in m ==> (RoundTripsPlain(c, m[k]) <==> WellFormedPlain(c, m[k]))
    requires PG_TYPE in m ==> Printable(m[PG_TYPE])
    ensures RoundTripsPlain(c, Dict(m)) <==> WellFormedPlain(c, Dict(m))
  {
    hide EncodePlain, Decode, ShapeOf, Printable;
    EncodesDict(c, m);
    if EncodePlain(c, Dict(m)).Some? {
      var js := EncodePlain(c, Dict(m)).value.m;
      if PG_TYPE in m { PrintsString(c, m[PG_TYPE]); }
      if Get(js, PG_TYPE).JString? || ShapeOf(js.Keys).Some? {
        ReservedMapLost(c, m, js);
      } else {
        GenericMapBack(c, m, js);
      }
    } else {
      var k :| k in m && EncodePlain(c, m[k]).None?;
      assert !WellFormedPlain(c, m[k]);
    }
  }

  lemma {:induction false} EncodesDict(c: Codec, m: map<string, Cell>)
    ensures EncodePlain(c, Dict(m)).Some? <==> forall k :: k in m ==> EncodePlain(c, m[k]).Some?
    ensures EncodePlain(c, Dict(m)).Some? ==>
              var j := EncodePlain(c, Dict(m)).value;
              j.JObject? && j.m.Keys == m.Keys && forall k :: k in m ==> j.m[k] == EncodePlain(c, m[k]).value
  {
  }

  /** Only text prints as text, but for typed scalars, which are not well formed. */
  lemma {:induction false} PrintsString(c: Codec, v: Cell)
    requires Printable(v) && EncodePlain(c, v).Some?
    ensures v.Str? ==> EncodePlain(c, v).value.JString?
    ensures EncodePlain(c, v).value.JString? ==> v.Str? || !WellFormedPlain(c, v)
  {
    hide Reserved;
  }

  lemma {:induction false} ReservedMapLost(c: Codec, m: map<string, Cell>, js: map<string, Json>)
    requires Get(js, PG_TYPE).JString? || ShapeOf(js.Keys).Some?
    ensures Decode(c, JObject(js)) != Some(Dict(m))
  {
    TypedIsNotDict(c, JObject(js));
  }

  lemma {:induction false} GenericMapBack(c: Codec, m: map<string, Cell>, js: map<string, Json>)
    requires js.Keys == m.Keys && !Get(js, PG_TYPE).JString? && ShapeOf(js.Keys).None?
    ensures Decode(c, JObject(js)) == Some(Dict(m)) <==> forall k :: k in m ==> Decode(c, js[k]) == Some(m[k])
  {
    var d := Decode(c, JObject(js));
    if d == Some(Dict(m)) {
      forall k | k in m ensures Decode(c, js[k]) == Some(m[k]) {
        assert d.value.m[k] == m[k];
      }
    }
    if forall k :: k in m ==> Decode(c, js[k]) == Some(m[k]) {
      assert d.value.m == m;
    }
  }

  // ---- The round trip ----

  lemma {:induction false} FloatCellBackIff(c: Codec, f: Float)
    requires Lawful(c)
    ensures RoundTrips(c, Flt(f)) <==> WellFormed(c, Flt(f))
    ensures !RoundTrips(c, Flt32(f)) && !WellFormed(c, Flt32(f))
  {
    hide WellFormedPlain, Encode, Decode, DecodeShape, Lawful;
    EncodesOther(c, Flt(f));
    EncodesOther(c, Flt32(f));
    FloatBack(c, f);
    if f.Finite? {
      DecodesPlain(c, FloatJson(c, f));
    } else {
      DecodesByTag(c, FloatJson(c, f).m, "float");
    }
  }

  lemma {:induction false} RangeBackIff(c: Codec, r: RangeValue, lower: Json, upper: Json)
    ensures RangeJson(r, lower, upper).m.Keys == KeySet(RangeShape)
    ensures RangeFromJson(c, RangeJson(r, lower, upper)) == Some(r) <==>
            Decode(c, lower) == Some(r.lower) && Decode(c, upper) == Some(r.upper)
  {
    hide Decode, IntField;
    var m := RangeJson(r, lower, upper).m;
    IntFieldBack(m, "lowertype", r.lowerType);
    IntFieldBack(m, "uppertype", r.upperType);
    Narrowing(r.lowerType);
    Narrowing(r.upperType);
  }

  predicate WellFormedRange(c: Codec, r: RangeValue) { WellFormed(c, r.lower) && WellFormed(c, r.upper) }

  lemma {:induction false} BoundsBackIff(c: Codec, r: RangeValue)
    requires Lawful(c) && PlainContainers(r.lower) && PlainContainers(r.upper)
    ensures var j := EncodeRange(c, r);
            && (j.Some? ==> j.value.JObject? && j.value.m.Keys == KeySet(RangeShape))
            && (j.Some? && RangeFromJson(c, j.value) == Some(r) <==> WellFormedRange(c, r))
    decreases r, 0
  {
    hide Encode, Decode, RangeFromJson, KeySet, WellFormed, PlainContainers, Lawful;
    RoundTripIff(c, r.lower);
    RoundTripIff(c, r.upper);
    if EncodeRange(c, r).Some? {
      RangeBackIff(c, r, Encode(c, r.lower).value, Encode(c, r.upper).value);
    }
  }

  ghost predicate WellFormedRanges(c: Codec, rs: seq<RangeValue>) {
    forall i :: 0 <= i < |rs| ==> WellFormedRange(c, rs[i])
  }

  lemma {:induction false} WellFormedRangesCons(c: Codec, rs: seq<RangeValue>)
    requires rs != []
    ensures WellFormedRanges(c, rs) <==> WellFormedRange(c, rs[0]) && WellFormedRanges(c, rs[1..])
  {
    assert forall i :: 0 < i < |rs| ==> rs[1..][i - 1] == rs[i];
  }

  lemma {:induction false} RangesCons(c: Codec, rs: seq<RangeValue>, j: Json, js: seq<Json>)
    requires rs != [] && j.JObject?
    ensures RangesFromJson(c, [j] + js) == Some(rs)
        <==> RangeFromJson(c, j) == Some(rs[0]) && RangesFromJson(c, js) == Some(rs[1..])
  {
    assert ([j] + js)[0] == j && ([j] + js)[1..] == js;
    assert rs == [rs[0]] + rs[1..];
  }

  lemma {:induction false} NoRangesBack(c: Codec)
    ensures EncodeRanges(c, []) == Some([]) && RangesFromJson(c, []) == Some([]) && WellFormedRanges(c, [])
  {
    hide EncodeRange, RangeFromJson, WellFormedRange;
  }

  lemma {:induction false} EncodesCons(c: Codec, rs: seq<RangeValue>)
    requires rs != []
    ensures var j, js := EncodeRange(c, rs[0]), EncodeRanges(c, rs[1..]);
            EncodeRanges(c, rs) == if j.None? || js.None? then None else Some([j.value] + js.value)
  {
    hide EncodeRange;
  }

  lemma {:induction false} RangesBackIff(c: Codec, rs: seq<RangeValue>)
    requires Lawful(c) && forall i :: 0 <= i < |rs| ==> PlainContainers(rs[i].lower) && PlainContainers(rs[i].upper)
    ensures var js := EncodeRanges(c, rs);
            (js.Some? && RangesFromJson(c, js.value) == Some(rs)) <==> WellFormedRanges(c, rs)
    decreases rs, 0
  {
    hide EncodeRange, EncodeRanges, RangeFromJson, RangesFromJson, WellFormedRange, WellFormedRanges, KeySet,
         PlainContainers, Lawful;
    if rs == [] {
      NoRangesBack(c);
    } else {
      EncodesCons(c, rs);
      BoundsBackIff(c, rs[0]);
      RangesBackIff(c, rs[1..]);
      WellFormedRangesCons(c, rs);
      var j, js := EncodeRange(c, rs[0]), EncodeRanges(c, rs[1..]);
      if j.Some? && js.Some? {
        RangesCons(c, rs, j.value, js.value);
      }
    }
  }

  lemma {:induction false} DecodesRange(c: Codec, j: Json)
    requires j.JObject? && j.m.Keys == KeySet(RangeShape)
    ensures var r := RangeFromJson(c, j);
            Decode(c, j) == if r.None? then None else Some(Range(r.value))
  {
    hide Decode, RangeFromJson, KeySet;
    assert j == JObject(j.m);
    DecodesByShape(c, j.m, RangeShape);
  }

  lemma {:induction false} RangeCellBackIff(c: Codec, r: RangeValue)
    requires Lawful(c) && PlainContainers(Range(r))
    ensures RoundTrips(c, Range(r)) <==> WellFormed(c, Range(r))
    decreases r, 1
  {
    hide Encode, EncodeRange, Decode, RangeFromJson, WellFormedPlain, KeySet, Lawful;
    BoundsBackIff(c, r);
    EncodesOther(c, Range(r));
    if EncodeRange(c, r).Some? {
      DecodesRange(c, EncodeRange(c, r).value);
    }
  }

  lemma {:induction false} MultirangeBackIff(c: Codec, rs: seq<RangeValue>)
    requires Lawful(c) && PlainContainers(Multirange(rs))
    ensures RoundTrips(c, Multirange(rs)) <==> WellFormed(c, Multirange(rs))
    decreases rs, 1
  {
    hide Encode, EncodeRanges, Decode, RangesFromJson, WellFormedPlain, Lawful;
    RangesBackIff(c, rs);
    MultirangeReads(c, rs);
  }

  lemma {:induction false} MultirangeReads(c: Codec, rs: seq<RangeValue>)
    ensures var js := EncodeRanges(c, rs);
            RoundTrips(c, Multirange(rs)) <==> js.Some? && RangesFromJson(c, js.value) == Some(rs)
  {
    hide Encode, EncodeRanges, Decode, RangesFromJson, TaggedFromJson;
    EncodesOther(c, Multirange(rs));
    if EncodeRanges(c, rs).Some? {
      var values := JArray(EncodeRanges(c, rs).value);
      var j := Tagged("multirange", "values", values);
      DecodesByTag(c, j.m, "multirange");
      assert Get(j.m, "values") == values;
    }
  }

  lemma {:induction false} FixedBackIff(c: Codec, v: Cell)
    requires Lawful(c) && (NumberKind(v) || ShapedKind(v) || TaggedKind(v))
    ensures RoundTrips(c, v) <==> WellFormed(c, v)
  {
    hide RoundTrips, Lawful;
    if NumberKind(v) {
      NumbersBack(c, v);
    } else if ShapedKind(v) {
      ShapedBackIff(c, v);
    } else {
      TaggedBack(c, v);
    }
  }

  lemma {:induction false} PlainCellBackIff(c: Codec, v: Cell)
    requires Lawful(c) && PlainContainers(v) && PlainKind(v) && !v.Flt?
    ensures RoundTrips(c, v) <==> WellFormed(c, v)
  {
    hide Encode, Decode, EncodePlain, WellFormedPlain, PlainContainers, Lawful;
    PlainBackIff(c, v);
    EncodesOther(c, v);
  }

  /** A cell survives encoding and decoding exactly when it is well formed, nested ranges included. */
  lemma {:induction false} RoundTripIff(c: Codec, v: Cell)
    requires Lawful(c) && PlainContainers(v)
    ensures RoundTrips(c, v) <==> WellFormed(c, v)
    decreases v
  {
    hide RoundTrips, WellFormed, PlainContainers, Lawful;
    if v.Flt? || v.Flt32? {
      FloatCellBackIff(c, v.f);
    } else if v.Range? {
      RangeCellBackIff(c, v.range);
    } else if v.Multirange? {
      MultirangeBackIff(c, v.ranges);
    } else if PlainKind(v) {
      PlainCellBackIff(c, v);
    } else {
      FixedBackIff(c, v);
    }
  }

  // ---- What becomes of the rest ----

  /** A whole float comes back as the integer it prints as. */
  lemma {:induction false} WholeFloatComesBackAsInt(c: Codec, n: int)
    requires Lawful(c) && -EXACT_WHOLE < n < EXACT_WHOLE
    ensures Encode(c, Flt(WholeFloat(n))) == Some(JInt(n)) && Decode(c, JInt(n)) == Some(Int(n))
  {
    hide Encode, Decode;
    EncodesOther(c, Flt(WholeFloat(n)));
    DecodesPlain(c, JInt(n));
    ParsePrintInt(n);
  }

  /** The text that marks null comes back as null. */
  lemma {:induction false} SentinelComesBackAsNil(c: Codec)
    ensures Encode(c, Str("~~KEPLOY_PG_NULL~~")) == Some(JString("~~KEPLOY_PG_NULL~~"))
    ensures Decode(c, JString("~~KEPLOY_PG_NULL~~")) == Some(Nil)
  {
    hide Encode, Decode;
    EncodesOther(c, Str(NULL_SENTINEL));
    DecodesPlain(c, JString(NULL_SENTINEL));
  }

  /** A map with the key set of a typed value comes back as one. */
  lemma {:induction false} ReservedMapComesBackTyped(c: Codec, n: Int64, b: bool)
    ensures var v := Dict(map["microseconds" := Int(n), "valid" := Bool(b)]);
            Encode(c, v).Some? && Decode(c, Encode(c, v).value) == Some(TimeOfDay(n, b))
  {
    hide Encode, Decode, KeySet, TimeFromJson;
    var cells: map<string, Cell> := map["microseconds" := Int(n), "valid" := Bool(b)];
    var m := TimeMap(TimeOfDay(n, b));
    EncodesOther(c, Dict(cells));
    PairEncodes(c, cells, m);
    TimeBack(TimeOfDay(n, b));
    DecodesByShape(c, m, TimeShape);
  }

  lemma {:induction false} PairEncodes(c: Codec, cells: map<string, Cell>, m: map<string, Json>)
    requires cells.Keys == m.Keys && forall k :: k in cells ==> EncodePlain(c, cells[k]) == Some(m[k])
    ensures EncodePlain(c, Dict(cells)) == Some(JObject(m))
  {
    assert EncodePlain(c, Dict(cells)).Some?;
    var js := EncodePlain(c, Dict(cells)).value.m;
    assert js.Keys == m.Keys && forall k :: k in m ==> js[k] == m[k];
    assert js == m;
  }

  /** Bytes inside a plain list are printed as a bare base64 string and never come back as bytes. */
  lemma {:induction false} BytesInListDoNotReturn(c: Codec, b: seq<Byte>)
    requires Lawful(c)
    ensures Encode(c, List([Bytes(b)])) == Some(JArray([JString(c.base64(b))]))
    ensures !RoundTrips(c, List([Bytes(b)]))
  {
    hide Encode, Decode;
    EncodesOther(c, List([Bytes(b)]));
    var es, js := [Bytes(b)], [JString(c.base64(b))];
    DecodesPlain(c, js[0]);
    DecodesPlain(c, JArray(js));
    assert es[1..] == [] && js[1..] == [];
    assert EncodePlain(c, Bytes(b)) == c.reflect(Bytes(b)) == Some(js[0]);
    assert EncodePlainAll(c, es[1..]) == Some([]);
    assert [js[0]] + [] == js;
    assert EncodePlainAll(c, es) == Some(js);
    assert DecodeAll(c, js[1..]) == Some([]);
    var v := Decode(c, js[0]).value;
    assert [v] + [] == [v];
    assert DecodeAll(c, js) == Some([v]);
    assert !Decode(c, js[0]).value.Bytes? && es[0].Bytes?;
  }
}

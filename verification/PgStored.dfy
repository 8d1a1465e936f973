/** The stored form itself: the keys and tags of each kind of cell, and every spelling of it that is read. */
module PgStored {
  import opened Text
  import opened Decimal
  import opened PgCell
  import opened PgRoundTrip

  // ---- What is written ----

  /** Numbers, and fields around bytes. */
  lemma {:induction false} StoredNumber(c: Codec, v: Cell)
    ensures v.Numeric? ==> Encode(c, v) == Some(JObject(map[
              "int" := JString(if v.mantissa.None? then "" else PrintInt(v.mantissa.value)),
              "exp" := JNumber(PrintInt(v.exp)), "nan" := JBool(v.nan),
              "infinitymodifier" := JNumber(PrintInt(v.infinity)), "valid" := JBool(v.valid)]))
    ensures v.Interval? ==> Encode(c, v) == Some(JObject(map[
              "microseconds" := JNumber(PrintInt(v.microseconds)), "days" := JNumber(PrintInt(v.days)),
              "months" := JNumber(PrintInt(v.months)), "valid" := JBool(v.valid)]))
    ensures v.TimeOfDay? ==> Encode(c, v) == Some(JObject(map[
              "microseconds" := JNumber(PrintInt(v.microseconds)), "valid" := JBool(v.valid)]))
    ensures v.Tid? ==> Encode(c, v) == Some(JObject(map[
              "blocknumber" := JNumber(PrintInt(v.block)), "offsetnumber" := JNumber(PrintInt(v.offset)),
              "valid" := JBool(v.valid)]))
    ensures v.Bits? ==> Encode(c, v) == Some(JObject(map[
              "bytes" := JString(c.base64(v.bytes)), "len" := JNumber(PrintInt(v.len)), "valid" := JBool(v.valid)]))
    ensures v.RawCell? ==> Encode(c, v) == Some(JObject(map[
              "format" := JNumber(PrintInt(v.format)), "bytes" := JString(c.base64(v.bytes))]))
  {
    hide Encode, PrintInt;
    EncodesFixed(c, v);
  }

  /** The other kinds that are told apart by their keys. */
  lemma {:induction false} StoredShape(c: Codec, v: Cell)
    ensures v.Line? ==> Encode(c, v) == Some(JObject(map[
              "a" := FloatJson(c, v.a), "b" := FloatJson(c, v.b'), "c" := FloatJson(c, v.c),
              "valid" := JBool(v.valid)]))
    ensures v.Path? ==> Encode(c, v) == Some(JObject(map[
              "p" := JArray(Vec2SeqJson(c, v.ps)), "closed" := JBool(v.closed), "valid" := JBool(v.valid)]))
    ensures v.Circle? ==> Encode(c, v) == Some(JObject(map[
              "p" := Vec2Json(c, v.p), "r" := FloatJson(c, v.r), "valid" := JBool(v.valid)]))
    ensures v.TsVector? ==> Encode(c, v) == Some(JObject(map[
              "lexemes" := JArray(LexemesJson(v.lexemes)), "valid" := JBool(v.valid)]))
    ensures v.NetPrefix? ==> Encode(c, v) == Some(JObject(map["prefix" := JString(c.printPrefix(v.prefix))]))
    ensures v.MacAddr? ==> Encode(c, v) == Some(JObject(map["macaddr" := JObject(map[
              "$pgtype" := JString("binary"), "data" := JString(c.base64(v.bytes))])]))
  {
    hide Encode, FloatJson, Vec2SeqJson, Vec2Json, LexemesJson;
    EncodesFixed(c, v);
  }

  /** The kinds that carry a tag. */
  lemma {:induction false} StoredTag(c: Codec, v: Cell)
    ensures v.Bytes? ==> Encode(c, v) == Some(JObject(map[
              "$pgtype" := JString("binary"), "data" := JString(c.base64(v.bytes))]))
    ensures v.Timestamp? ==> Encode(c, v) == Some(JObject(map[
              "$pgtype" := JString("timestamp"), "value" := JString(c.formatTime(v.t))]))
    ensures v.Point? ==> Encode(c, v) == Some(JObject(map[
              "$pgtype" := JString("point"), "p" := Vec2Json(c, v.p), "valid" := JBool(v.valid)]))
    ensures v.Lseg? || v.Box? ==> Encode(c, v) == Some(JObject(map[
              "$pgtype" := JString(if v.Lseg? then "lseg" else "box"),
              "p" := JArray([Vec2Json(c, v.p0), Vec2Json(c, v.p1)]), "valid" := JBool(v.valid)]))
    ensures v.Polygon? ==> Encode(c, v) == Some(JObject(map[
              "$pgtype" := JString("polygon"), "p" := JArray(Vec2SeqJson(c, v.ps)), "valid" := JBool(v.valid)]))
    ensures v.Hstore? ==> Encode(c, v) == Some(JObject(map[
              "$pgtype" := JString("hstore"),
              "values" := JObject(map k | k in v.entries ::
                if v.entries[k].None? then JNull else JString(v.entries[k].value))]))
  {
    hide Encode, Vec2Json;
    EncodesFixed(c, v);
    if v.Lseg? || v.Box? {
      assert Vec2SeqJson(c, [v.p0, v.p1]) == [Vec2Json(c, v.p0), Vec2Json(c, v.p1)];
    }
    if v.Hstore? {
      assert (map k | k in v.entries :: OptionJson(v.entries[k]))
          == map k | k in v.entries :: if v.entries[k].None? then JNull else JString(v.entries[k].value);
    }
  }

  /** Ranges, and values that are passed on as they are. */
  lemma {:induction false} StoredRest(c: Codec, v: Cell)
    ensures v.Range? && Encode(c, v.range.lower).Some? && Encode(c, v.range.upper).Some? ==>
              Encode(c, v) == Some(JObject(map[
                "lower" := Encode(c, v.range.lower).value, "upper" := Encode(c, v.range.upper).value,
                "lowertype" := JNumber(PrintInt(v.range.lowerType)),
                "uppertype" := JNumber(PrintInt(v.range.upperType)), "valid" := JBool(v.range.valid)]))
    ensures v.Multirange? && EncodeRanges(c, v.ranges).Some? ==> Encode(c, v) == Some(JObject(map[
              "$pgtype" := JString("multirange"), "values" := JArray(EncodeRanges(c, v.ranges).value)]))
    ensures (v.Flt? || v.Flt32?) && v.f.Finite? ==> Encode(c, v) == Some(JNumber(c.printFloat(v.f)))
    ensures (v.Flt? || v.Flt32?) && !v.f.Finite? ==> Encode(c, v) == Some(JObject(map[
              "$pgtype" := JString("float"),
              "value" := JString(if v.f.NaN? then "NaN" else if v.f.PosInf? then "+Inf" else "-Inf")]))
    ensures v.Nil? ==> Encode(c, v) == Some(JNull)
    ensures v.Bool? ==> Encode(c, v) == Some(JBool(v.b))
    ensures v.Int? ==> Encode(c, v) == Some(JNumber(PrintInt(v.n)))
    ensures v.Str? ==> Encode(c, v) == Some(JString(v.s))
  {
    hide Encode, PrintInt;
    EncodesOther(c, v);
  }

  /** The parts of points and of text-search vectors. */
  lemma {:induction false} StoredParts(c: Codec, p: Vec2, l: Lexeme, q: Position)
    ensures Vec2Json(c, p) == JObject(map["x" := FloatJson(c, p.x), "y" := FloatJson(c, p.y)])
    ensures LexemeJson(l) == JObject(map["word" := JString(l.word), "positions" := JArray(PositionsJson(l.positions))])
    ensures PositionJson(q) == JObject(map[
              "position" := JNumber(PrintInt(q.position)), "weight" := JNumber(PrintInt(q.weight))])
  {
  }

  // ---- What is read ----

  predicate Absent(m: map<string, Json>, k: string) { k !in m || m[k] == JNull }

  /** An integer as a number or as text, in any decimal spelling; nothing stands for zero. */
  ghost predicate SpellsInt(m: map<string, Json>, k: string, n: int) {
    (Absent(m, k) && n == 0) || (k in m && InInt64(n) && SpellsNumber(m[k], n))
  }

  ghost predicate SpellsNumber(j: Json, n: int) {
    (j.JNumber? && Writes(j.literal, n)) || (j.JString? && Writes(j.s, n))
  }

  predicate SpellsBool(m: map<string, Json>, k: string, b: bool) {
    (Absent(m, k) && !b) || (k in m && m[k] == JBool(b))
  }

  predicate SpellsFloat(c: Codec, m: map<string, Json>, k: string, f: Float) {
    || (Absent(m, k) && f == Finite(false, 0, 0))
    || (k in m && m[k].JNumber? && c.parseFloat(m[k].literal) == Some(f))
    || (k in m && m[k].JObject? && SpellsTaggedFloat(c, m[k].m, f))
  }

  predicate SpellsTaggedFloat(c: Codec, m: map<string, Json>, f: Float) {
    && "$pgtype" in m && m["$pgtype"] == JString("float")
    && "value" in m && m["value"].JString? && c.parseFloat(m["value"].s) == Some(f)
  }

  predicate SpellsBytes(c: Codec, m: map<string, Json>, k: string, b: seq<Byte>) {
    (Absent(m, k) && b == []) || (k in m && m[k].JString? && c.unbase64(m[k].s) == Some(b))
  }

  predicate SpellsPoint(c: Codec, j: Json, p: Vec2) {
    j.JObject? && SpellsFloat(c, j.m, "x", p.x) && SpellsFloat(c, j.m, "y", p.y)
  }

  predicate SpellsPoints(c: Codec, m: map<string, Json>, ps: seq<Vec2>) {
    || (Absent(m, "p") && ps == [])
    || ("p" in m && m["p"].JArray? && |m["p"].es| == |ps|
        && forall i :: 0 <= i < |ps| ==> SpellsPoint(c, m["p"].es[i], ps[i]))
  }

  predicate SpellsPointField(c: Codec, m: map<string, Json>, p: Vec2) {
    (Absent(m, "p") && p == Vec2(Finite(false, 0, 0), Finite(false, 0, 0))) || ("p" in m && SpellsPoint(c, m["p"], p))
  }

  /** The mantissa of a numeric: text in base ten; nothing, or the empty text, for none. */
  ghost predicate SpellsMantissa(m: map<string, Json>, n: Option<int>) {
    if n.None? then Absent(m, "int") || m["int"] == JString("")
    else "int" in m && m["int"].JString? && Writes(m["int"].s, n.value)
  }

  /** `r` is what is left of `n` in a machine word with `size` values. */
  predicate LowBits(n: int, r: int, size: int) { size > 0 && (n - r) % size == 0 }

  lemma {:induction false} IntRead(m: map<string, Json>, k: string, n: int)
    requires SpellsInt(m, k, n)
    ensures IntField(m, k) == Some(n)
  {
    hide Writes;
    if k in m && m[k].JNumber? { ParseIntIff(m[k].literal, n); }
    if k in m && m[k].JString? { ParseIntIff(m[k].s, n); }
  }

  /** A narrowed integer keeps its low bits. */
  lemma {:induction false} Narrowed(n: int, r: int)
    ensures 0 <= r < 0x100 && LowBits(n, r, 0x100) ==> ToByte(n) == r
    ensures 0 <= r < 0x1_0000 && LowBits(n, r, 0x1_0000) ==> ToUInt16(n) == r
    ensures 0 <= r < 0x1_0000_0000 && LowBits(n, r, 0x1_0000_0000) ==> ToUInt32(n) == r
    ensures -0x80 <= r < 0x80 && LowBits(n, r, 0x100) ==> ToInt8(n) == r
    ensures -0x8000 <= r < 0x8000 && LowBits(n, r, 0x1_0000) ==> ToInt16(n) == r
    ensures -0x8000_0000 <= r < 0x8000_0000 && LowBits(n, r, 0x1_0000_0000) ==> ToInt32(n) == r
  {
    hide ToUnsigned, ToSigned;
    NarrowedUnsigned(n, r, 0x100);
    NarrowedUnsigned(n, r, 0x1_0000);
    NarrowedUnsigned(n, r, 0x1_0000_0000);
    NarrowedSigned(n, r, 0x80);
    NarrowedSigned(n, r, 0x8000);
    NarrowedSigned(n, r, 0x8000_0000);
  }

  lemma {:induction false} SameRemainder(n: int, r: int, size: int)
    requires size > 0 && (n - r) % size == 0 && 0 <= r < size
    ensures n % size == r
  {
    var q := (n - r) / size;
    assert n == q * size + r;
    RemainderIsUnique(n, q, r, size);
  }

  lemma {:induction false} RemainderIsUnique(n: int, q: int, r: int, size: int)
    requires size > 0 && n == q * size + r && 0 <= r < size
    ensures n % size == r
  {
    var d := n / size - q;
    assert size * d == r - n % size;
    Multiples(size, d);
  }

  lemma {:induction false} Multiples(size: int, d: int)
    requires size > 0
    ensures d >= 1 ==> size * d >= size
    ensures d <= -1 ==> size * d <= -size
  {
  }

  lemma {:induction false} NarrowedUnsigned(n: int, r: int, size: int)
    requires size > 0
    ensures 0 <= r < size && LowBits(n, r, size) ==> ToUnsigned(n, size) == r
  {
    if 0 <= r < size && LowBits(n, r, size) { SameRemainder(n, r, size); }
  }

  lemma {:induction false} NarrowedSigned(n: int, r: int, half: int)
    requires half > 0
    ensures -half <= r < half && LowBits(n, r, 2 * half) ==> ToSigned(n, half) == r
  {
    if -half <= r < half && LowBits(n, r, 2 * half) {
      assert (n + half) - (r + half) == n - r;
      SameRemainder(n + half, r + half, 2 * half);
    }
  }

  // ---- Numbers ----

  lemma {:induction false} NumericRead(c: Codec, m: map<string, Json>, v: Cell, exp: int, infinity: int)
    requires v.Numeric? && m.Keys == {"int", "exp", "nan", "infinitymodifier", "valid"}
    requires SpellsMantissa(m, v.mantissa) && SpellsInt(m, "exp", exp) && LowBits(exp, v.exp, 0x1_0000_0000)
    requires SpellsInt(m, "infinitymodifier", infinity) && LowBits(infinity, v.infinity, 0x100)
    requires SpellsBool(m, "nan", v.nan) && SpellsBool(m, "valid", v.valid)
    ensures Decode(c, JObject(m)) == Some(v)
  {
    hide Decode, IntField, SpellsInt, LowBits;
    DecodesByShape(c, m, NumericShape);
    IntRead(m, "exp", exp);
    IntRead(m, "infinitymodifier", infinity);
    Narrowed(exp, v.exp);
    Narrowed(infinity, v.infinity);
    if v.mantissa.Some? { ParseIntIff(m["int"].s, v.mantissa.value); }
  }

  lemma {:induction false} IntervalRead(c: Codec, m: map<string, Json>, v: Cell, days: int, months: int)
    requires v.Interval? && m.Keys == {"microseconds", "days", "months", "valid"}
    requires SpellsInt(m, "microseconds", v.microseconds) && SpellsBool(m, "valid", v.valid)
    requires SpellsInt(m, "days", days) && LowBits(days, v.days, 0x1_0000_0000)
    requires SpellsInt(m, "months", months) && LowBits(months, v.months, 0x1_0000_0000)
    ensures Decode(c, JObject(m)) == Some(v)
  {
    hide Decode, IntField, SpellsInt, LowBits;
    DecodesByShape(c, m, IntervalShape);
    IntRead(m, "microseconds", v.microseconds);
    IntRead(m, "days", days);
    IntRead(m, "months", months);
    Narrowed(days, v.days);
    Narrowed(months, v.months);
  }

  lemma {:induction false} TimeRead(c: Codec, m: map<string, Json>, v: Cell)
    requires v.TimeOfDay? && m.Keys == {"microseconds", "valid"}
    requires SpellsInt(m, "microseconds", v.microseconds) && SpellsBool(m, "valid", v.valid)
    ensures Decode(c, JObject(m)) == Some(v)
  {
    hide Decode, IntField, SpellsInt;
    DecodesByShape(c, m, TimeShape);
    IntRead(m, "microseconds", v.microseconds);
  }

  lemma {:induction false} TidRead(c: Codec, m: map<string, Json>, v: Cell, block: int, offset: int)
    requires v.Tid? && m.Keys == {"blocknumber", "offsetnumber", "valid"} && SpellsBool(m, "valid", v.valid)
    requires SpellsInt(m, "blocknumber", block) && LowBits(block, v.block, 0x1_0000_0000)
    requires SpellsInt(m, "offsetnumber", offset) && LowBits(offset, v.offset, 0x1_0000)
    ensures Decode(c, JObject(m)) == Some(v)
  {
    hide Decode, IntField, SpellsInt, LowBits;
    DecodesByShape(c, m, TidShape);
    IntRead(m, "blocknumber", block);
    IntRead(m, "offsetnumber", offset);
    Narrowed(block, v.block);
    Narrowed(offset, v.offset);
  }

  lemma {:induction false} RawRead(c: Codec, m: map<string, Json>, v: Cell, format: int)
    requires v.RawCell? && m.Keys == {"format", "bytes"} && SpellsBytes(c, m, "bytes", v.bytes)
    requires SpellsInt(m, "format", format) && LowBits(format, v.format, 0x1_0000)
    ensures Decode(c, JObject(m)) == Some(v)
  {
    hide Decode, IntField, SpellsInt, LowBits;
    DecodesByShape(c, m, RawShape);
    IntRead(m, "format", format);
    Narrowed(format, v.format);
  }

  /** The bytes of a bit string may be a list of integers, of which the low eight bits count. */
  ghost predicate ListsBytes(js: seq<Json>, ns: seq<int>, b: seq<Byte>) {
    |js| == |ns| == |b| && forall i :: 0 <= i < |b| ==>
      LowBits(ns[i], b[i], 0x100) && InInt64(ns[i]) && SpellsNumber(js[i], ns[i])
  }

  lemma {:induction false} ListedBytesRead(js: seq<Json>, ns: seq<int>, b: seq<Byte>)
    requires ListsBytes(js, ns, b)
    ensures SmallInts(js) == Some(b)
    decreases |b|
  {
    hide Writes;
    if b != [] {
      if js[0].JNumber? { ParseIntIff(js[0].literal, ns[0]); } else { ParseIntIff(js[0].s, ns[0]); }
      Narrowed(ns[0], b[0]);
      ListedBytesRead(js[1..], ns[1..], b[1..]);
      assert b == [b[0]] + b[1..];
    }
  }

  /** In particular the plain list of the bytes. */
  lemma {:induction false} ByteListRead(c: Codec, b: seq<Byte>)
    ensures BitsBytes(c, JArray(seq(|b|, i requires 0 <= i < |b| => JInt(b[i])))) == Some(b)
  {
    forall i | 0 <= i < |b| ensures Writes(PrintInt(b[i]), b[i]) { PrintedIsWritten(b[i]); }
    hide Writes;
    ListedBytesRead(seq(|b|, i requires 0 <= i < |b| => JInt(b[i])), b, b);
  }

  lemma {:induction false} BitsRead(c: Codec, m: map<string, Json>, v: Cell, ns: seq<int>, len: int)
    requires v.Bits? && m.Keys == {"bytes", "len", "valid"} && SpellsBool(m, "valid", v.valid)
    requires SpellsBytes(c, m, "bytes", v.bytes) || (m["bytes"].JArray? && ListsBytes(m["bytes"].es, ns, v.bytes))
    requires SpellsInt(m, "len", len) && LowBits(len, v.len, 0x1_0000_0000)
    ensures Decode(c, JObject(m)) == Some(v)
  {
    hide Decode, IntField, SpellsInt, LowBits, ListsBytes, SmallInts;
    DecodesByShape(c, m, BitsShape);
    IntRead(m, "len", len);
    Narrowed(len, v.len);
    if !SpellsBytes(c, m, "bytes", v.bytes) { ListedBytesRead(m["bytes"].es, ns, v.bytes); }
  }

  // ---- Geometry ----

  lemma {:induction false} FloatRead(c: Codec, m: map<string, Json>, k: string, f: Float)
    requires SpellsFloat(c, m, k, f)
    ensures FloatField(c, m, k) == Some(f)
  {
  }

  lemma {:induction false} PointRead(c: Codec, j: Json, p: Vec2)
    requires SpellsPoint(c, j, p)
    ensures Vec2FromJson(c, j) == Some(p) && j != JNull
  {
    hide FloatField, SpellsFloat;
    FloatRead(c, j.m, "x", p.x);
    FloatRead(c, j.m, "y", p.y);
  }

  lemma {:induction false} PointListRead(c: Codec, js: seq<Json>, ps: seq<Vec2>)
    requires |js| == |ps| && forall i :: 0 <= i < |ps| ==> SpellsPoint(c, js[i], ps[i])
    ensures Vec2sFromJson(c, js) == Some(ps)
    decreases |ps|
  {
    hide SpellsPoint, Vec2FromJson;
    if ps != [] {
      var n := |ps| - 1;
      PointListRead(c, js[..n], ps[..n]);
      PointRead(c, js[n], ps[n]);
      assert ps == ps[..n] + [ps[n]];
    }
  }

  lemma {:induction false} PointsRead(c: Codec, m: map<string, Json>, ps: seq<Vec2>)
    requires SpellsPoints(c, m, ps)
    ensures PointsField(c, m) == Some(ps)
  {
    hide SpellsPoint, Vec2sFromJson;
    if !Absent(m, "p") { PointListRead(c, m["p"].es, ps); }
  }

  lemma {:induction false} LineRead(c: Codec, m: map<string, Json>, v: Cell)
    requires v.Line? && m.Keys == {"a", "b", "c", "valid"} && SpellsBool(m, "valid", v.valid)
    requires SpellsFloat(c, m, "a", v.a) && SpellsFloat(c, m, "b", v.b') && SpellsFloat(c, m, "c", v.c)
    ensures Decode(c, JObject(m)) == Some(v)
  {
    hide Decode, FloatField, SpellsFloat;
    DecodesByShape(c, m, LineShape);
    FloatRead(c, m, "a", v.a);
    FloatRead(c, m, "b", v.b');
    FloatRead(c, m, "c", v.c);
  }

  lemma {:induction false} PathRead(c: Codec, m: map<string, Json>, v: Cell)
    requires v.Path? && m.Keys == {"p", "closed", "valid"}
    requires SpellsPoints(c, m, v.ps) && SpellsBool(m, "closed", v.closed) && SpellsBool(m, "valid", v.valid)
    ensures Decode(c, JObject(m)) == Some(v)
  {
    hide Decode, PointsField, SpellsPoints;
    DecodesByShape(c, m, PathShape);
    PointsRead(c, m, v.ps);
  }

  lemma {:induction false} CircleRead(c: Codec, m: map<string, Json>, v: Cell)
    requires v.Circle? && m.Keys == {"p", "r", "valid"}
    requires SpellsPointField(c, m, v.p) && SpellsFloat(c, m, "r", v.r) && SpellsBool(m, "valid", v.valid)
    ensures Decode(c, JObject(m)) == Some(v)
  {
    hide Decode, FloatField, SpellsFloat, SpellsPoint, Vec2FromJson;
    DecodesByShape(c, m, CircleShape);
    FloatRead(c, m, "r", v.r);
    if "p" in m && SpellsPoint(c, m["p"], v.p) { PointRead(c, m["p"], v.p); }
  }

  /** A tagged object may hold other keys, and may leave out what is zero. */
  predicate Carries(m: map<string, Json>, tag: string) { "$pgtype" in m && m["$pgtype"] == JString(tag) }

  lemma {:induction false} TaggedPointRead(c: Codec, m: map<string, Json>, v: Cell)
    requires v.Point? && Carries(m, "point") && SpellsPointField(c, m, v.p) && SpellsBool(m, "valid", v.valid)
    ensures Decode(c, JObject(m)) == Some(v)
  {
    hide Decode, SpellsPoint, Vec2FromJson;
    DecodesByTag(c, m, "point");
    if "p" in m && SpellsPoint(c, m["p"], v.p) { PointRead(c, m["p"], v.p); }
  }

  lemma {:induction false} TaggedPointsRead(c: Codec, m: map<string, Json>, v: Cell)
    requires v.Polygon? && Carries(m, "polygon") && SpellsPoints(c, m, v.ps) && SpellsBool(m, "valid", v.valid)
    ensures Decode(c, JObject(m)) == Some(v)
  {
    hide Decode, PointsField, SpellsPoints;
    DecodesByTag(c, m, "polygon");
    PointsRead(c, m, v.ps);
  }

  /** Segments and boxes have two points, or none for two at the origin; any other number fails. */
  lemma {:induction false} TwoPointsRead(c: Codec, m: map<string, Json>, ps: seq<Vec2>, valid: bool)
    requires (Carries(m, "lseg") || Carries(m, "box")) && SpellsPoints(c, m, ps) && SpellsBool(m, "valid", valid)
    ensures var origin := Vec2(Finite(false, 0, 0), Finite(false, 0, 0));
            var (p, q) := if |ps| == 2 then (ps[0], ps[1]) else (origin, origin);
            Decode(c, JObject(m)) == if |ps| != 2 && !Absent(m, "p") then None
                                     else Some(if Carries(m, "lseg") then Lseg(p, q, valid) else Box(p, q, valid))
  {
    hide Decode, PointsField, SpellsPoints;
    DecodesByTag(c, m, if Carries(m, "lseg") then "lseg" else "box");
    PointsRead(c, m, ps);
    assert Absent(m, "p") ==> ps == [] by { NoPoints(c, m, ps); }
  }

  lemma {:induction false} NoPoints(c: Codec, m: map<string, Json>, ps: seq<Vec2>)
    requires SpellsPoints(c, m, ps)
    ensures Absent(m, "p") ==> ps == []
  {
  }

  // ---- Bytes, texts and the rest ----

  lemma {:induction false} BytesRead(c: Codec, m: map<string, Json>, v: Cell)
    requires v.Bytes? && Carries(m, "binary") && "data" in m && m["data"].JString?
    requires c.unbase64(m["data"].s) == Some(v.bytes)
    ensures Decode(c, JObject(m)) == Some(v)
  {
    hide Decode;
    DecodesByTag(c, m, "binary");
  }

  lemma {:induction false} TimestampRead(c: Codec, m: map<string, Json>, v: Cell)
    requires v.Timestamp? && Carries(m, "timestamp") && "value" in m && m["value"].JString?
    requires c.parseTime(m["value"].s) == Some(v.t)
    ensures Decode(c, JObject(m)) == Some(v)
  {
    hide Decode;
    DecodesByTag(c, m, "timestamp");
  }

  lemma {:induction false} TaggedFloatRead(c: Codec, m: map<string, Json>, f: Float)
    requires SpellsTaggedFloat(c, m, f)
    ensures Decode(c, JObject(m)) == Some(Flt(f))
  {
    hide Decode;
    DecodesByTag(c, m, "float");
  }

  lemma {:induction false} PrefixRead(c: Codec, s: string, p: Prefix)
    requires c.parsePrefix(s) == Some(p)
    ensures Decode(c, JObject(map["prefix" := JString(s)])) == Some(NetPrefix(p))
  {
    hide Decode;
    DecodesByShape(c, map["prefix" := JString(s)], PrefixShape);
  }

  /** A hardware address as tagged bytes, or as bare base64 text. */
  lemma {:induction false} MacRead(c: Codec, s: string, b: seq<Byte>)
    requires c.unbase64(s) == Some(b)
    ensures Decode(c, JObject(map["macaddr" := JString(s)])) == Some(MacAddr(b))
    ensures Decode(c, JObject(map["macaddr" := JObject(map["$pgtype" := JString("binary"), "data" := JString(s)])]))
         == Some(MacAddr(b))
  {
    hide Decode;
    DecodesByShape(c, map["macaddr" := JString(s)], MacShape);
    DecodesByShape(c, map["macaddr" := JObject(map["$pgtype" := JString("binary"), "data" := JString(s)])], MacShape);
  }

  lemma {:induction false} HstoreRead(c: Codec, m: map<string, Json>, v: Cell)
    requires v.Hstore? && Carries(m, "hstore")
    requires (Absent(m, "values") && v.entries == map[])
          || ("values" in m && m["values"].JObject? && m["values"].m.Keys == v.entries.Keys
              && forall k :: k in v.entries ==>
                   m["values"].m[k] == if v.entries[k].None? then JNull else JString(v.entries[k].value))
    ensures Decode(c, JObject(m)) == Some(v)
  {
    hide Decode;
    DecodesByTag(c, m, "hstore");
    if !Absent(m, "values") {
      var values := m["values"].m;
      assert (map k | k in values :: if values[k].JNull? then None else Some(values[k].s)) == v.entries;
    }
  }

  ghost predicate SpellsPosition(j: Json, position: int, weight: int, p: Position) {
    && j.JObject? && SpellsInt(j.m, "position", position) && LowBits(position, p.position, 0x1_0000)
    && SpellsInt(j.m, "weight", weight) && LowBits(weight, p.weight, 0x100)
  }

  ghost predicate SpellsPositions(js: seq<Json>, ps: seq<Position>) {
    |js| == |ps| && forall i :: 0 <= i < |ps| ==> SpellsSomehow(js[i], ps[i])
  }

  ghost predicate SpellsSomehow(j: Json, p: Position) { exists n, w :: SpellsPosition(j, n, w, p) }

  /** A lexeme: a word, empty if absent, and positions, none if absent. */
  ghost predicate SpellsLexeme(j: Json, l: Lexeme) {
    && j.JObject?
    && (if Absent(j.m, "word") then l.word == "" else j.m["word"] == JString(l.word))
    && (if Absent(j.m, "positions") then l.positions == []
        else j.m["positions"].JArray? && SpellsPositions(j.m["positions"].es, l.positions))
  }

  lemma {:induction false} PositionsRead(js: seq<Json>, ps: seq<Position>)
    requires SpellsPositions(js, ps)
    ensures PositionsFromJson(js) == Some(ps)
    decreases |ps|
  {
    hide SpellsPosition, PositionFromJson;
    if ps != [] {
      var k := |ps| - 1;
      PositionsRead(js[..k], ps[..k]);
      assert SpellsSomehow(js[k], ps[k]);
      var n, w :| SpellsPosition(js[k], n, w, ps[k]);
      PositionRead(js[k], n, w, ps[k]);
      assert ps == ps[..k] + [ps[k]];
    }
  }

  lemma {:induction false} PositionRead(j: Json, position: int, weight: int, p: Position)
    requires SpellsPosition(j, position, weight, p)
    ensures PositionFromJson(j) == Some(p)
  {
    hide IntField, SpellsInt, LowBits;
    IntRead(j.m, "position", position);
    IntRead(j.m, "weight", weight);
    Narrowed(position, p.position);
    Narrowed(weight, p.weight);
  }

  lemma {:induction false} LexemeRead(j: Json, l: Lexeme)
    requires SpellsLexeme(j, l)
    ensures LexemeFromJson(j) == Some(l)
  {
    hide SpellsPositions, PositionsFromJson;
    if !Absent(j.m, "positions") { PositionsRead(j.m["positions"].es, l.positions); }
  }

  lemma {:induction false} LexemesRead(js: seq<Json>, ls: seq<Lexeme>)
    requires |js| == |ls| && forall i :: 0 <= i < |ls| ==> SpellsLexeme(js[i], ls[i])
    ensures LexemesFromJson(js) == Some(ls)
    decreases |ls|
  {
    hide SpellsLexeme, LexemeFromJson;
    if ls != [] {
      var k := |ls| - 1;
      LexemesRead(js[..k], ls[..k]);
      LexemeRead(js[k], ls[k]);
      assert ls == ls[..k] + [ls[k]];
    }
  }

  lemma {:induction false} TsVectorRead(c: Codec, m: map<string, Json>, v: Cell)
    requires v.TsVector? && m.Keys == {"lexemes", "valid"} && SpellsBool(m, "valid", v.valid)
    requires if Absent(m, "lexemes") then v.lexemes == []
             else m["lexemes"].JArray? && |m["lexemes"].es| == |v.lexemes|
                  && forall i :: 0 <= i < |v.lexemes| ==> SpellsLexeme(m["lexemes"].es[i], v.lexemes[i])
    ensures Decode(c, JObject(m)) == Some(v)
  {
    hide Decode, SpellsLexeme, LexemesFromJson;
    DecodesByShape(c, m, TsVectorShape);
    if !Absent(m, "lexemes") { LexemesRead(m["lexemes"].es, v.lexemes); }
  }

  /** The fields of a range; inside a multirange they may be absent. */
  ghost predicate SpellsRange(c: Codec, m: map<string, Json>, r: RangeValue) {
    && (if "lower" in m then Decode(c, m["lower"]) == Some(r.lower) else r.lower == Nil)
    && (if "upper" in m then Decode(c, m["upper"]) == Some(r.upper) else r.upper == Nil)
    && (exists n :: SpellsInt(m, "lowertype", n) && LowBits(n, r.lowerType, 0x100))
    && (exists n :: SpellsInt(m, "uppertype", n) && LowBits(n, r.upperType, 0x100))
    && SpellsBool(m, "valid", r.valid)
  }

  lemma {:induction false} RangeFieldsRead(c: Codec, m: map<string, Json>, r: RangeValue)
    requires SpellsRange(c, m, r)
    ensures RangeFromJson(c, JObject(m)) == Some(r)
  {
    hide Decode, IntField, SpellsInt, LowBits;
    var low :| SpellsInt(m, "lowertype", low) && LowBits(low, r.lowerType, 0x100);
    var up :| SpellsInt(m, "uppertype", up) && LowBits(up, r.upperType, 0x100);
    IntRead(m, "lowertype", low);
    IntRead(m, "uppertype", up);
    Narrowed(low, r.lowerType);
    Narrowed(up, r.upperType);
  }

  lemma {:induction false} RangeRead(c: Codec, m: map<string, Json>, r: RangeValue)
    requires m.Keys == {"lower", "upper", "lowertype", "uppertype", "valid"} && SpellsRange(c, m, r)
    ensures Decode(c, JObject(m)) == Some(Range(r))
  {
    hide Decode, RangeFromJson, SpellsRange;
    assert m.Keys == KeySet(RangeShape);
    DecodesRange(c, JObject(m));
    RangeFieldsRead(c, m, r);
  }

  lemma {:induction false} RangeListRead(c: Codec, js: seq<Json>, rs: seq<RangeValue>)
    requires |js| == |rs| && forall i :: 0 <= i < |rs| ==> js[i].JObject? && SpellsRange(c, js[i].m, rs[i])
    ensures RangesFromJson(c, js) == Some(rs)
    decreases |rs|
  {
    hide Decode, RangeFromJson, SpellsRange;
    if rs != [] {
      RangeFieldsRead(c, js[0].m, rs[0]);
      RangeListRead(c, js[1..], rs[1..]);
      assert js == [js[0]] + js[1..] && js[0] == JObject(js[0].m);
      RangesCons(c, rs, js[0], js[1..]);
    }
  }

  lemma {:induction false} MultirangeRead(c: Codec, m: map<string, Json>, rs: seq<RangeValue>)
    requires Carries(m, "multirange")
    requires if Absent(m, "values") then rs == []
             else m["values"].JArray? && |m["values"].es| == |rs|
                  && forall i :: 0 <= i < |rs| ==>
                       m["values"].es[i].JObject? && SpellsRange(c, m["values"].es[i].m, rs[i])
    ensures Decode(c, JObject(m)) == Some(Multirange(rs))
  {
    hide Decode, RangesFromJson, SpellsRange, TaggedFromJson;
    DecodesByTag(c, m, "multirange");
    if !Absent(m, "values") { RangeListRead(c, m["values"].es, rs); }
  }

  // ---- What is refused ----

  const TAGS := {"binary", "timestamp", "point", "lseg", "box", "polygon", "hstore", "multirange", "float"}

  /** A field of the wrong type, a value that must be there and is not, and a tag that is not known are errors. */
  lemma {:induction false} Refused(c: Codec, m: map<string, Json>, k: string, tag: string)
    ensures BoolField(m, k).Some? <==> Absent(m, k) || m[k].JBool?
    ensures IntField(m, k).Some? <==>
              || Absent(m, k)
              || (m[k].JNumber? && ParseInt64(m[k].literal).Some?)
              || (m[k].JString? && ParseInt64(m[k].s).Some?)
    ensures BytesField(c, m, k).Some? <==> Absent(m, k) || (m[k].JString? && c.unbase64(m[k].s).Some?)
    ensures FloatField(c, m, k).Some? <==> exists f: Float :: SpellsFloat(c, m, k, f)
    ensures Carries(m, tag) && tag !in TAGS ==> Decode(c, JObject(m)).None?
    ensures Carries(m, "binary") && (Absent(m, "data") || !m["data"].JString?) ==> Decode(c, JObject(m)).None?
    ensures Carries(m, "timestamp") && (Absent(m, "value") || !m["value"].JString?) ==> Decode(c, JObject(m)).None?
    ensures Carries(m, "float") && (Absent(m, "value") || !m["value"].JString?) ==> Decode(c, JObject(m)).None?
  {
    hide Decode, HstoreFromJson, PointFromJson, LsegFromJson, BoxFromJson, PolygonFromJson, RangesFromJson;
    if "$pgtype" in m && m["$pgtype"].JString? { DecodesByTag(c, m, m["$pgtype"].s); }
    if FloatField(c, m, k).Some? { assert SpellsFloat(c, m, k, FloatField(c, m, k).value); }
  }
}

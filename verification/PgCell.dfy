/** Postgres cell values, their JSON form, and the two conversions. */
module PgCell {
  import opened Text
  import opened Decimal

  type Byte = x: int | 0 <= x < 0x100
  type UInt16 = x: int | 0 <= x < 0x1_0000
  type UInt32 = x: int | 0 <= x < 0x1_0000_0000
  type Int8 = x: int | -0x80 <= x < 0x80
  type Int16 = x: int | -0x8000 <= x < 0x8000
  type Int32 = x: int | -0x8000_0000 <= x < 0x8000_0000
  type Int64 = x: int | InInt64(x)

  /** Go's narrowing conversions keep the low bits. */
  function ToUnsigned(n: int, modulus: int): int
    requires modulus > 0
  {
    n % modulus
  }

  function ToSigned(n: int, half: int): int
    requires half > 0
  {
    (n + half) % (2 * half) - half
  }

  function ToByte(n: int): Byte { ToUnsigned(n, 0x100) }
  function ToUInt16(n: int): UInt16 { ToUnsigned(n, 0x1_0000) }
  function ToUInt32(n: int): UInt32 { ToUnsigned(n, 0x1_0000_0000) }
  function ToInt8(n: int): Int8 { ToSigned(n, 0x80) }
  function ToInt16(n: int): Int16 { ToSigned(n, 0x8000) }
  function ToInt32(n: int): Int32 { ToSigned(n, 0x8000_0000) }

  const EXACT_WHOLE := 0x20_0000_0000_0000

  datatype FloatParts = Finite(negative: bool, mantissa: nat, exponent: int) | NaN | PosInf | NegInf

  /** One triple for each finite float64: whole numbers below 2^53 with exponent 0, fractions with an odd mantissa. */
  predicate CanonicalFloat(f: FloatParts) {
    f.Finite? ==>
      && f.mantissa < EXACT_WHOLE && -1074 <= f.exponent <= 971
      && (f.exponent < 0 ==> f.mantissa % 2 == 1)
      && (f.exponent > 0 ==> 2 * f.mantissa >= EXACT_WHOLE)
  }

  /** A float64: a sign, so that minus zero is a value, and a mantissa times a power of two. */
  type Float = f: FloatParts | CanonicalFloat(f) witness NaN

  datatype Vec2 = Vec2(x: Float, y: Float)

  datatype Position = Position(position: UInt16, weight: Byte)

  datatype Lexeme = Lexeme(word: string, positions: seq<Position>)

  datatype Prefix = InvalidPrefix | Prefix(addr: seq<Byte>, bits: nat)

  datatype Time = Time(instant: int, offset: int)

  datatype RangeValue = RangeValue(lower: Cell, upper: Cell, lowerType: Byte, upperType: Byte, valid: bool)

  /** The Go values a cell can hold; a nil slice or map is the empty one. */
  datatype Cell =
    | Nil
    | Bool(b: bool)
    | Int(n: Int64)
    | Flt(f: Float)
    | Flt32(f: Float)
    | Str(s: string)
    | List(es: seq<Cell>)
    | Dict(m: map<string, Cell>)
    | Bytes(bytes: seq<Byte>)
    | Timestamp(t: Time)
    | Numeric(mantissa: Option<int>, exp: Int32, nan: bool, infinity: Int8, valid: bool)
    | Interval(microseconds: Int64, days: Int32, months: Int32, valid: bool)
    | TimeOfDay(microseconds: Int64, valid: bool)
    | Bits(bytes: seq<Byte>, len: Int32, valid: bool)
    | Point(p: Vec2, valid: bool)
    | Line(a: Float, b': Float, c: Float, valid: bool)
    | Lseg(p0: Vec2, p1: Vec2, valid: bool)
    | Box(p0: Vec2, p1: Vec2, valid: bool)
    | Path(ps: seq<Vec2>, closed: bool, valid: bool)
    | Polygon(ps: seq<Vec2>, valid: bool)
    | Circle(p: Vec2, r: Float, valid: bool)
    | Tid(block: UInt32, offset: UInt16, valid: bool)
    | TsVector(lexemes: seq<Lexeme>, valid: bool)
    | Hstore(entries: map<string, Option<string>>)
    | Range(range: RangeValue)
    | Multirange(ranges: seq<RangeValue>)
    | NetPrefix(prefix: Prefix)
    | MacAddr(bytes: seq<Byte>)
    | RawCell(format: Int16, bytes: seq<Byte>)

  /** Parsed JSON with numbers kept as literals. */
  datatype Json =
    | JNull
    | JBool(b: bool)
    | JNumber(literal: string)
    | JString(s: string)
    | JArray(es: seq<Json>)
    | JObject(m: map<string, Json>)

  /** The library conversions the codec calls; `reflect` is encoding/json on a typed value inside a plain container. */
  datatype Codec = Codec(
    base64: seq<Byte> -> string,
    unbase64: string -> Option<seq<Byte>>,
    printFloat: Float -> string,
    parseFloat: string -> Option<Float>,
    formatTime: Time -> string,
    parseTime: string -> Option<Time>,
    printPrefix: Prefix -> string,
    parsePrefix: string -> Option<Prefix>,
    reflect: Cell -> Option<Json>)

  /** The float64 of a whole number, exact below 2^53 in magnitude. */
  function WholeFloat(n: int): Float
    requires -EXACT_WHOLE < n < EXACT_WHOLE
  {
    Finite(n < 0, if n < 0 then -n else n, 0)
  }

  /** Kinds that encoding/json prints as a bare string or number when it meets them inside a plain list or map. */
  predicate ScalarKind(v: Cell) { v.Bytes? || v.Flt32? || v.Timestamp? || v.NetPrefix? || v.MacAddr? }

  /** What those libraries promise: parsing inverts printing, and small whole floats print as integers. */
  ghost predicate Lawful(c: Codec) {
    && (forall b :: c.unbase64(c.base64(b)) == Some(b))
    && (forall f: Float :: f.Finite? ==> c.parseFloat(c.printFloat(f)) == Some(f))
    && c.parseFloat("NaN") == Some(NaN) && c.parseFloat("+Inf") == Some(PosInf) && c.parseFloat("-Inf") == Some(NegInf)
    && (forall t :: c.parseTime(c.formatTime(t)) == Some(t))
    && (forall p: Prefix :: c.parsePrefix(c.printPrefix(p)) == if p.InvalidPrefix? then None else Some(p))
    && (forall n: int :: -EXACT_WHOLE < n < EXACT_WHOLE ==> c.printFloat(WholeFloat(n)) == PrintInt(n))
    && (forall b :: c.reflect(Bytes(b)) == Some(JString(c.base64(b))))
    && (forall v :: ScalarKind(v) && c.reflect(v).Some? ==> c.reflect(v).value.JString? || c.reflect(v).value.JNumber?)
  }

  const PG_TYPE := "$pgtype"
  const NULL_SENTINEL := "~~KEPLOY_PG_NULL~~"

  // ---- Encoding ----

  function JInt(n: int): Json { JNumber(PrintInt(n)) }

  function Tagged(kind: string, key: string, value: Json): Json {
    JObject(map[PG_TYPE := JString(kind), key := value])
  }

  function FloatJson(c: Codec, f: Float): Json {
    match f
    case NaN => Tagged("float", "value", JString("NaN"))
    case PosInf => Tagged("float", "value", JString("+Inf"))
    case NegInf => Tagged("float", "value", JString("-Inf"))
    case Finite(_, _, _) => JNumber(c.printFloat(f))
  }

  function Vec2Json(c: Codec, v: Vec2): Json {
    JObject(map["x" := FloatJson(c, v.x), "y" := FloatJson(c, v.y)])
  }

  function Vec2SeqJson(c: Codec, ps: seq<Vec2>): seq<Json> {
    seq(|ps|, i requires 0 <= i < |ps| => Vec2Json(c, ps[i]))
  }

  function PositionJson(p: Position): Json {
    JObject(map["position" := JInt(p.position), "weight" := JInt(p.weight)])
  }

  function PositionsJson(ps: seq<Position>): seq<Json> {
    seq(|ps|, i requires 0 <= i < |ps| => PositionJson(ps[i]))
  }

  function LexemeJson(l: Lexeme): Json {
    JObject(map["word" := JString(l.word), "positions" := JArray(PositionsJson(l.positions))])
  }

  function LexemesJson(ls: seq<Lexeme>): seq<Json> {
    seq(|ls|, i requires 0 <= i < |ls| => LexemeJson(ls[i]))
  }

  function OptionJson(s: Option<string>): Json { if s.None? then JNull else JString(s.value) }

  /** `encoding/json` on a value that the cell encoder passes through unchanged; it rejects non-finite floats. */
  function EncodePlain(c: Codec, v: Cell): Option<Json>
    decreases v
  {
    match v
    case Nil => Some(JNull)
    case Bool(b) => Some(JBool(b))
    case Int(n) => Some(JInt(n))
    case Flt(f) => if f.Finite? then Some(JNumber(c.printFloat(f))) else None
    case Str(s) => Some(JString(s))
    case List(es) =>
      var js :- EncodePlainAll(c, es);
      Some(JArray(js))
    case Dict(m) =>
      if forall k :: k in m ==> EncodePlain(c, m[k]).Some?
      then Some(JObject(map k | k in m :: EncodePlain(c, m[k]).value))
      else None
    case _ => c.reflect(v)
  }

  function EncodePlainAll(c: Codec, es: seq<Cell>): Option<seq<Json>>
    decreases es
  {
    if es == [] then Some([])
    else
      var j :- EncodePlain(c, es[0]);
      var js :- EncodePlainAll(c, es[1..]);
      Some([j] + js)
  }

  predicate NumberKind(v: Cell) { v.Numeric? || v.Interval? || v.TimeOfDay? || v.Tid? || v.Bits? || v.RawCell? }

  predicate ShapedKind(v: Cell) { v.Line? || v.Path? || v.Circle? || v.TsVector? || v.NetPrefix? || v.MacAddr? }

  predicate TaggedKind(v: Cell) {
    v.Bytes? || v.Timestamp? || v.Point? || v.Lseg? || v.Box? || v.Polygon? || v.Hstore?
  }

  // ---- The fields written for each kind ----

  function NumericMap(v: Cell): map<string, Json>
    requires v.Numeric?
  {
    map["int" := JString(if v.mantissa.None? then "" else PrintInt(v.mantissa.value)), "exp" := JInt(v.exp),
        "nan" := JBool(v.nan), "infinitymodifier" := JInt(v.infinity), "valid" := JBool(v.valid)]
  }

  function IntervalMap(v: Cell): map<string, Json>
    requires v.Interval?
  {
    map["microseconds" := JInt(v.microseconds), "days" := JInt(v.days), "months" := JInt(v.months),
        "valid" := JBool(v.valid)]
  }

  function TimeMap(v: Cell): map<string, Json>
    requires v.TimeOfDay?
  {
    map["microseconds" := JInt(v.microseconds), "valid" := JBool(v.valid)]
  }

  function TidMap(v: Cell): map<string, Json>
    requires v.Tid?
  {
    map["blocknumber" := JInt(v.block), "offsetnumber" := JInt(v.offset), "valid" := JBool(v.valid)]
  }

  function BitsMap(c: Codec, v: Cell): map<string, Json>
    requires v.Bits?
  {
    map["bytes" := JString(c.base64(v.bytes)), "len" := JInt(v.len), "valid" := JBool(v.valid)]
  }

  function RawMap(c: Codec, v: Cell): map<string, Json>
    requires v.RawCell?
  {
    map["format" := JInt(v.format), "bytes" := JString(c.base64(v.bytes))]
  }

  function NumberJson(c: Codec, v: Cell): map<string, Json>
    requires NumberKind(v)
  {
    if v.Numeric? then NumericMap(v)
    else if v.Interval? then IntervalMap(v)
    else if v.TimeOfDay? then TimeMap(v)
    else if v.Tid? then TidMap(v)
    else if v.Bits? then BitsMap(c, v)
    else RawMap(c, v)
  }

  function LineMap(c: Codec, v: Cell): map<string, Json>
    requires v.Line?
  {
    map["a" := FloatJson(c, v.a), "b" := FloatJson(c, v.b'), "c" := FloatJson(c, v.c), "valid" := JBool(v.valid)]
  }

  function PathMap(c: Codec, v: Cell): map<string, Json>
    requires v.Path?
  {
    map["p" := JArray(Vec2SeqJson(c, v.ps)), "closed" := JBool(v.closed), "valid" := JBool(v.valid)]
  }

  function CircleMap(c: Codec, v: Cell): map<string, Json>
    requires v.Circle?
  {
    map["p" := Vec2Json(c, v.p), "r" := FloatJson(c, v.r), "valid" := JBool(v.valid)]
  }

  function TsVectorMap(v: Cell): map<string, Json>
    requires v.TsVector?
  {
    map["lexemes" := JArray(LexemesJson(v.lexemes)), "valid" := JBool(v.valid)]
  }

  function PrefixMap(c: Codec, v: Cell): map<string, Json>
    requires v.NetPrefix?
  {
    map["prefix" := JString(c.printPrefix(v.prefix))]
  }

  function MacMap(c: Codec, v: Cell): map<string, Json>
    requires v.MacAddr?
  {
    map["macaddr" := Tagged("binary", "data", JString(c.base64(v.bytes)))]
  }

  function ShapedJson(c: Codec, v: Cell): map<string, Json>
    requires ShapedKind(v)
  {
    if v.Line? then LineMap(c, v)
    else if v.Path? then PathMap(c, v)
    else if v.Circle? then CircleMap(c, v)
    else if v.TsVector? then TsVectorMap(v)
    else if v.NetPrefix? then PrefixMap(c, v)
    else MacMap(c, v)
  }

  function BytesMap(c: Codec, v: Cell): map<string, Json>
    requires v.Bytes?
  {
    map[PG_TYPE := JString("binary"), "data" := JString(c.base64(v.bytes))]
  }

  function TimestampMap(c: Codec, v: Cell): map<string, Json>
    requires v.Timestamp?
  {
    map[PG_TYPE := JString("timestamp"), "value" := JString(c.formatTime(v.t))]
  }

  function PointMap(c: Codec, v: Cell): map<string, Json>
    requires v.Point?
  {
    map[PG_TYPE := JString("point"), "p" := Vec2Json(c, v.p), "valid" := JBool(v.valid)]
  }

  function PointsMap(c: Codec, v: Cell): map<string, Json>
    requires v.Lseg? || v.Box? || v.Polygon?
  {
    var kind := if v.Lseg? then "lseg" else if v.Box? then "box" else "polygon";
    var ps := if v.Polygon? then v.ps else [v.p0, v.p1];
    map[PG_TYPE := JString(kind), "p" := JArray(Vec2SeqJson(c, ps)), "valid" := JBool(v.valid)]
  }

  function HstoreMap(v: Cell): map<string, Json>
    requires v.Hstore?
  {
    map[PG_TYPE := JString("hstore"), "values" := JObject(map k | k in v.entries :: OptionJson(v.entries[k]))]
  }

  function TaggedJson(c: Codec, v: Cell): map<string, Json>
    requires TaggedKind(v)
  {
    if v.Bytes? then BytesMap(c, v)
    else if v.Timestamp? then TimestampMap(c, v)
    else if v.Point? then PointMap(c, v)
    else if v.Hstore? then HstoreMap(v)
    else PointsMap(c, v)
  }

  /** `MarshalJSON`: the JSON of a cell, or failure where encoding/json fails. */
  function Encode(c: Codec, v: Cell): Option<Json>
    decreases v
  {
    if NumberKind(v) then Some(JObject(NumberJson(c, v)))
    else if ShapedKind(v) then Some(JObject(ShapedJson(c, v)))
    else if TaggedKind(v) then Some(JObject(TaggedJson(c, v)))
    else
      match v
      case Range(r) => EncodeRange(c, r)
      case Multirange(rs) =>
        var js :- EncodeRanges(c, rs);
        Some(Tagged("multirange", "values", JArray(js)))
      case Flt(f) => Some(FloatJson(c, f))
      case Flt32(f) => Some(FloatJson(c, f))
      case _ => EncodePlain(c, v)
  }

  function EncodeRange(c: Codec, r: RangeValue): Option<Json>
    decreases r
  {
    var lower :- Encode(c, r.lower);
    var upper :- Encode(c, r.upper);
    Some(RangeJson(r, lower, upper))
  }

  function RangeJson(r: RangeValue, lower: Json, upper: Json): Json {
    JObject(map["lower" := lower, "upper" := upper, "lowertype" := JInt(r.lowerType),
        "uppertype" := JInt(r.upperType), "valid" := JBool(r.valid)])
  }

  function EncodeRanges(c: Codec, rs: seq<RangeValue>): Option<seq<Json>>
    decreases rs
  {
    if rs == [] then Some([])
    else
      var j :- EncodeRange(c, rs[0]);
      var js :- EncodeRanges(c, rs[1..]);
      Some([j] + js)
  }

  // ---- Decoding ----

  function AsInt64(j: Json): Option<int> {
    match j
    case JNumber(literal) => ParseInt64(literal)
    case JString(s) => ParseInt64(s)
    case _ => None
  }

  function AsBool(j: Json): Option<bool> { if j.JBool? then Some(j.b) else None }

  function AsString(j: Json): Option<string> { if j.JString? then Some(j.s) else None }

  function DecodeFloat(c: Codec, j: Json): Option<Float> {
    var s :- AsString(j);
    c.parseFloat(s)
  }

  function AsFloat(c: Codec, j: Json): Option<Float> {
    match j
    case JNumber(literal) => c.parseFloat(literal)
    case JObject(m) => if PG_TYPE in m && m[PG_TYPE] == JString("float") then DecodeFloat(c, Get(m, "value")) else None
    case _ => None
  }

  /** Go's map lookup: a missing key reads as nil. */
  function Get(m: map<string, Json>, k: string): Json { if k in m then m[k] else JNull }

  /** A struct field: absent and null leave the zero value. */
  function IntField(m: map<string, Json>, k: string): Option<int> {
    if Get(m, k).JNull? then Some(0) else AsInt64(m[k])
  }

  function BoolField(m: map<string, Json>, k: string): Option<bool> {
    if Get(m, k).JNull? then Some(false) else AsBool(m[k])
  }

  function FloatField(c: Codec, m: map<string, Json>, k: string): Option<Float> {
    if Get(m, k).JNull? then Some(Finite(false, 0, 0)) else AsFloat(c, m[k])
  }

  function BytesField(c: Codec, m: map<string, Json>, k: string): Option<seq<Byte>> {
    if Get(m, k).JNull? then Some([])
    else
      var s :- AsString(m[k]);
      c.unbase64(s)
  }

  function NumericFromJson(m: map<string, Json>): Option<Cell> {
    var n :- NumericInt(Get(m, "int"));
    var exp :- IntField(m, "exp");
    var nan :- BoolField(m, "nan");
    var infinity :- IntField(m, "infinitymodifier");
    var valid :- BoolField(m, "valid");
    Some(Numeric(n, ToInt32(exp), nan, ToInt8(infinity), valid))
  }

  /** The mantissa: absent, null and the empty string are nil. */
  function NumericInt(j: Json): Option<Option<int>> {
    if j.JNull? then Some(None)
    else
      var s :- AsString(j);
      if s == "" then Some(None)
      else
        var n :- ParseInt(s);
        Some(Some(n))
  }

  function IntervalFromJson(m: map<string, Json>): Option<Cell> {
    var microseconds :- IntField(m, "microseconds");
    var days :- IntField(m, "days");
    var months :- IntField(m, "months");
    var valid :- BoolField(m, "valid");
    if InInt64(microseconds) then Some(Interval(microseconds, ToInt32(days), ToInt32(months), valid)) else None
  }

  function TimeFromJson(m: map<string, Json>): Option<Cell> {
    var microseconds :- IntField(m, "microseconds");
    var valid :- BoolField(m, "valid");
    if InInt64(microseconds) then Some(TimeOfDay(microseconds, valid)) else None
  }

  /** Bytes as base64, or as a list of small integers in older fixtures. */
  function BitsBytes(c: Codec, j: Json): Option<seq<Byte>> {
    match j
    case JNull => Some([])
    case JString(s) => c.unbase64(s)
    case JArray(es) => SmallInts(es)
    case _ => None
  }

  function SmallInts(es: seq<Json>): Option<seq<Byte>> {
    if es == [] then Some([])
    else
      var n :- AsInt64(es[0]);
      var rest :- SmallInts(es[1..]);
      Some([ToByte(n)] + rest)
  }

  function BitsFromJson(c: Codec, m: map<string, Json>): Option<Cell> {
    var bytes :- BitsBytes(c, Get(m, "bytes"));
    var len :- IntField(m, "len");
    var valid :- BoolField(m, "valid");
    Some(Bits(bytes, ToInt32(len), valid))
  }

  function Vec2FromJson(c: Codec, j: Json): Option<Vec2> {
    if !j.JObject? then None
    else
      var x :- FloatField(c, j.m, "x");
      var y :- FloatField(c, j.m, "y");
      Some(Vec2(x, y))
  }

  function Vec2sFromJson(c: Codec, es: seq<Json>): Option<seq<Vec2>> {
    if es == [] then Some([])
    else
      var rest :- Vec2sFromJson(c, es[..|es| - 1]);
      var v :- Vec2FromJson(c, es[|es| - 1]);
      Some(rest + [v])
  }

  const ORIGIN := Vec2(Finite(false, 0, 0), Finite(false, 0, 0))

  function PointField(c: Codec, m: map<string, Json>): Option<Vec2> {
    if Get(m, "p").JNull? then Some(ORIGIN) else Vec2FromJson(c, m["p"])
  }

  function PointsField(c: Codec, m: map<string, Json>): Option<seq<Vec2>> {
    var p := Get(m, "p");
    if p.JNull? then Some([]) else if p.JArray? then Vec2sFromJson(c, p.es) else None
  }

  /** Exactly two points, where absent and null leave both at the origin. */
  function TwoPointsField(c: Codec, m: map<string, Json>): Option<(Vec2, Vec2)> {
    var ps :- PointsField(c, m);
    if Get(m, "p").JNull? then Some((ORIGIN, ORIGIN)) else if |ps| == 2 then Some((ps[0], ps[1])) else None
  }

  function PositionFromJson(j: Json): Option<Position> {
    if !j.JObject? then None
    else
      var position :- IntField(j.m, "position");
      var weight :- IntField(j.m, "weight");
      Some(Position(ToUInt16(position), ToByte(weight)))
  }

  function PositionsFromJson(es: seq<Json>): Option<seq<Position>> {
    if es == [] then Some([])
    else
      var rest :- PositionsFromJson(es[..|es| - 1]);
      var p :- PositionFromJson(es[|es| - 1]);
      Some(rest + [p])
  }

  function LexemeFromJson(j: Json): Option<Lexeme> {
    if !j.JObject? then None
    else
      var word :- (if Get(j.m, "word").JNull? then Some("") else AsString(j.m["word"]));
      var positions := Get(j.m, "positions");
      var ps :- (if positions.JNull? then Some([]) else if positions.JArray? then PositionsFromJson(positions.es)
          else None);
      Some(Lexeme(word, ps))
  }

  function LexemesFromJson(es: seq<Json>): Option<seq<Lexeme>> {
    if es == [] then Some([])
    else
      var rest :- LexemesFromJson(es[..|es| - 1]);
      var l :- LexemeFromJson(es[|es| - 1]);
      Some(rest + [l])
  }

  function TsVectorFromJson(m: map<string, Json>): Option<Cell> {
    var lexemes := Get(m, "lexemes");
    var ls :- (if lexemes.JNull? then Some([]) else if lexemes.JArray? then LexemesFromJson(lexemes.es) else None);
    var valid :- BoolField(m, "valid");
    Some(TsVector(ls, valid))
  }

  function HstoreFromJson(m: map<string, Json>): Option<Cell> {
    var values := Get(m, "values");
    if values.JNull? then Some(Hstore(map[]))
    else if !values.JObject? then None
    else if forall k :: k in values.m ==> values.m[k].JNull? || values.m[k].JString?
    then Some(Hstore(map k | k in values.m :: if values.m[k].JNull? then None else Some(values.m[k].s)))
    else None
  }

  function MacFromJson(c: Codec, j: Json): Option<Cell> {
    match j
    case JObject(m) =>
      if Get(m, PG_TYPE) != JString("binary") then None
      else
        var b :- DecodeBinary(c, Get(m, "data"));
        Some(MacAddr(b))
    case JString(s) =>
      var b :- c.unbase64(s);
      Some(MacAddr(b))
    case _ => None
  }

  function DecodeBinary(c: Codec, j: Json): Option<seq<Byte>> {
    var s :- AsString(j);
    c.unbase64(s)
  }

  /** The shapes recognised by their exact key set. */
  datatype Shape = PrefixShape | MacShape | NumericShape | IntervalShape | TimeShape | BitsShape | LineShape
                 | PathShape | CircleShape | TidShape | TsVectorShape | RangeShape | RawShape

  function KeySet(s: Shape): set<string> {
    match s
    case PrefixShape => {"prefix"}
    case MacShape => {"macaddr"}
    case NumericShape => {"exp", "infinitymodifier", "int", "nan", "valid"}
    case IntervalShape => {"days", "microseconds", "months", "valid"}
    case TimeShape => {"microseconds", "valid"}
    case BitsShape => {"bytes", "len", "valid"}
    case LineShape => {"a", "b", "c", "valid"}
    case PathShape => {"closed", "p", "valid"}
    case CircleShape => {"p", "r", "valid"}
    case TidShape => {"blocknumber", "offsetnumber", "valid"}
    case TsVectorShape => {"lexemes", "valid"}
    case RangeShape => {"lower", "lowertype", "upper", "uppertype", "valid"}
    case RawShape => {"bytes", "format"}
  }

  /** The key-set probe, in the order of the switch. */
  function ShapeOf(keys: set<string>): Option<Shape> {
    if keys == KeySet(PrefixShape) then Some(PrefixShape)
    else if keys == KeySet(MacShape) then Some(MacShape)
    else if keys == KeySet(NumericShape) then Some(NumericShape)
    else if keys == KeySet(IntervalShape) then Some(IntervalShape)
    else if keys == KeySet(TimeShape) then Some(TimeShape)
    else if keys == KeySet(BitsShape) then Some(BitsShape)
    else if keys == KeySet(LineShape) then Some(LineShape)
    else if keys == KeySet(PathShape) then Some(PathShape)
    else if keys == KeySet(CircleShape) then Some(CircleShape)
    else if keys == KeySet(TidShape) then Some(TidShape)
    else if keys == KeySet(TsVectorShape) then Some(TsVectorShape)
    else if keys == KeySet(RangeShape) then Some(RangeShape)
    else if keys == KeySet(RawShape) then Some(RawShape)
    else None
  }

  /** `recoverCellFromJSON`. */
  function Decode(c: Codec, j: Json): Option<Cell>
    decreases j, 2
  {
    match j
    case JNull => Some(Nil)
    case JBool(b) => Some(Bool(b))
    case JNumber(literal) =>
      var n := ParseInt64(literal);
      if n.Some? then Some(Int(n.value))
      else
        var f :- c.parseFloat(literal);
        Some(Flt(f))
    case JString(s) => Some(if s == NULL_SENTINEL then Nil else Str(s))
    case JArray(es) =>
      var vs :- DecodeAll(c, es);
      Some(List(vs))
    case JObject(m) =>
      if Get(m, PG_TYPE).JString? then DecodeTagged(c, m[PG_TYPE].s, j)
      else
        var shape := ShapeOf(m.Keys);
        if shape.Some? then DecodeShape(c, shape.value, j)
        else if forall k :: k in m ==> Decode(c, m[k]).Some?
        then Some(Dict(map k | k in m :: Decode(c, m[k]).value))
        else None
  }

  function DecodeAll(c: Codec, es: seq<Json>): Option<seq<Cell>>
    decreases es, 2
  {
    if es == [] then Some([])
    else
      var v :- Decode(c, es[0]);
      var vs :- DecodeAll(c, es[1..]);
      Some([v] + vs)
  }

  function TidFromJson(m: map<string, Json>): Option<Cell> {
    var block :- IntField(m, "blocknumber");
    var offset :- IntField(m, "offsetnumber");
    var valid :- BoolField(m, "valid");
    Some(Tid(ToUInt32(block), ToUInt16(offset), valid))
  }

  function RawFromJson(c: Codec, m: map<string, Json>): Option<Cell> {
    var format :- IntField(m, "format");
    var bytes :- BytesField(c, m, "bytes");
    Some(RawCell(ToInt16(format), bytes))
  }

  predicate NumberShape(shape: Shape) {
    || shape.NumericShape? || shape.IntervalShape? || shape.TimeShape?
    || shape.TidShape? || shape.BitsShape? || shape.RawShape?
  }

  function NumberFromJson(c: Codec, shape: Shape, m: map<string, Json>): Option<Cell>
    requires NumberShape(shape)
  {
    match shape
    case NumericShape => NumericFromJson(m)
    case IntervalShape => IntervalFromJson(m)
    case TimeShape => TimeFromJson(m)
    case TidShape => TidFromJson(m)
    case BitsShape => BitsFromJson(c, m)
    case RawShape => RawFromJson(c, m)
  }

  function PrefixFromJson(c: Codec, m: map<string, Json>): Option<Cell> {
    var s :- AsString(Get(m, "prefix"));
    var p :- c.parsePrefix(s);
    Some(NetPrefix(p))
  }

  function LineFromJson(c: Codec, m: map<string, Json>): Option<Cell> {
    var x :- FloatField(c, m, "a");
    var y :- FloatField(c, m, "b");
    var z :- FloatField(c, m, "c");
    var valid :- BoolField(m, "valid");
    Some(Line(x, y, z, valid))
  }

  function PathFromJson(c: Codec, m: map<string, Json>): Option<Cell> {
    var ps :- PointsField(c, m);
    var closed :- BoolField(m, "closed");
    var valid :- BoolField(m, "valid");
    Some(Path(ps, closed, valid))
  }

  function CircleFromJson(c: Codec, m: map<string, Json>): Option<Cell> {
    var p :- PointField(c, m);
    var r :- FloatField(c, m, "r");
    var valid :- BoolField(m, "valid");
    Some(Circle(p, r, valid))
  }

  function ShapedFromJson(c: Codec, shape: Shape, m: map<string, Json>): Option<Cell>
    requires !NumberShape(shape) && !shape.RangeShape?
  {
    match shape
    case PrefixShape => PrefixFromJson(c, m)
    case MacShape => MacFromJson(c, Get(m, "macaddr"))
    case LineShape => LineFromJson(c, m)
    case PathShape => PathFromJson(c, m)
    case CircleShape => CircleFromJson(c, m)
    case TsVectorShape => TsVectorFromJson(m)
  }

  function DecodeShape(c: Codec, shape: Shape, j: Json): Option<Cell>
    requires j.JObject?
    decreases j, 1
  {
    if NumberShape(shape) then NumberFromJson(c, shape, j.m)
    else if !shape.RangeShape? then ShapedFromJson(c, shape, j.m)
    else
      var r :- RangeFromJson(c, j);
      Some(Range(r))
  }

  function RangeFromJson(c: Codec, j: Json): Option<RangeValue>
    requires j.JObject?
    decreases j, 0
  {
    var m := j.m;
    var lower :- (if "lower" in m then Decode(c, m["lower"]) else Some(Nil));
    var upper :- (if "upper" in m then Decode(c, m["upper"]) else Some(Nil));
    var lowerType :- IntField(m, "lowertype");
    var upperType :- IntField(m, "uppertype");
    var valid :- BoolField(m, "valid");
    Some(RangeValue(lower, upper, ToByte(lowerType), ToByte(upperType), valid))
  }

  function RangesFromJson(c: Codec, es: seq<Json>): Option<seq<RangeValue>>
    decreases es, 2
  {
    if es == [] then Some([])
    else if !es[0].JObject? then None
    else
      var r :- RangeFromJson(c, es[0]);
      var rs :- RangesFromJson(c, es[1..]);
      Some([r] + rs)
  }

  function BytesFromJson(c: Codec, m: map<string, Json>): Option<Cell> {
    var b :- DecodeBinary(c, Get(m, "data"));
    Some(Bytes(b))
  }

  function TimestampFromJson(c: Codec, m: map<string, Json>): Option<Cell> {
    var s :- AsString(Get(m, "value"));
    var t :- c.parseTime(s);
    Some(Timestamp(t))
  }

  function PointFromJson(c: Codec, m: map<string, Json>): Option<Cell> {
    var p :- PointField(c, m);
    var valid :- BoolField(m, "valid");
    Some(Point(p, valid))
  }

  function LsegFromJson(c: Codec, m: map<string, Json>): Option<Cell> {
    var ps :- TwoPointsField(c, m);
    var valid :- BoolField(m, "valid");
    Some(Lseg(ps.0, ps.1, valid))
  }

  function BoxFromJson(c: Codec, m: map<string, Json>): Option<Cell> {
    var ps :- TwoPointsField(c, m);
    var valid :- BoolField(m, "valid");
    Some(Box(ps.0, ps.1, valid))
  }

  function PolygonFromJson(c: Codec, m: map<string, Json>): Option<Cell> {
    var ps :- PointsField(c, m);
    var valid :- BoolField(m, "valid");
    Some(Polygon(ps, valid))
  }

  function FloatFromJson(c: Codec, m: map<string, Json>): Option<Cell> {
    var f :- DecodeFloat(c, Get(m, "value"));
    Some(Flt(f))
  }

  function TaggedFromJson(c: Codec, kind: string, m: map<string, Json>): Option<Cell> {
    if kind == "binary" then BytesFromJson(c, m)
    else if kind == "timestamp" then TimestampFromJson(c, m)
    else if kind == "point" then PointFromJson(c, m)
    else if kind == "lseg" then LsegFromJson(c, m)
    else if kind == "box" then BoxFromJson(c, m)
    else if kind == "polygon" then PolygonFromJson(c, m)
    else if kind == "hstore" then HstoreFromJson(m)
    else if kind == "float" then FloatFromJson(c, m)
    else None
  }

  /** `decodeJSONByDiscriminator`. */
  function DecodeTagged(c: Codec, kind: string, j: Json): Option<Cell>
    requires j.JObject?
    decreases j, 1
  {
    if kind == "multirange" then
      var values := Get(j.m, "values");
      if values.JNull? then Some(Multirange([]))
      else if !values.JArray? then None
      else
        var rs :- RangesFromJson(c, values.es);
        Some(Multirange(rs))
    else TaggedFromJson(c, kind, j.m)
  }

  // ---- The reconstructors that loop ----

  /** `vec2SeqFromJSON` on an array. */
  method Vec2SeqFromJson(c: Codec, arr: seq<Json>) returns (out: Option<seq<Vec2>>)
    ensures out == Vec2sFromJson(c, arr)
  {
    var ps: seq<Vec2> := [];
    for i := 0 to |arr|
      invariant Vec2sFromJson(c, arr[..i]) == Some(ps)
    {
      assert arr[..i + 1][..i] == arr[..i];
      var v := Vec2FromJson(c, arr[i]);
      if v.None? {
        StopsShort(c, arr, i);
        return None;
      }
      ps := ps + [v.value];
    }
    assert arr[..|arr|] == arr;
    return Some(ps);
  }

  /** One bad element makes the whole array fail. */
  lemma {:induction false} StopsShort(c: Codec, arr: seq<Json>, i: nat)
    requires i < |arr| && Vec2FromJson(c, arr[i]).None?
    ensures Vec2sFromJson(c, arr).None?
    decreases |arr|
  {
    if i < |arr| - 1 {
      StopsShort(c, arr[..|arr| - 1], i);
    }
  }

  /** The lexeme loop of `tsvectorFromJSON`, with the position loop inside it. */
  method LexemeSeqFromJson(arr: seq<Json>) returns (out: Option<seq<Lexeme>>)
    ensures out == LexemesFromJson(arr)
  {
    var ls: seq<Lexeme> := [];
    for i := 0 to |arr|
      invariant LexemesFromJson(arr[..i]) == Some(ls)
    {
      assert arr[..i + 1][..i] == arr[..i];
      var l := LexemeFromObject(arr[i]);
      if l.None? {
        LexemeStopsShort(arr, i);
        return None;
      }
      ls := ls + [l.value];
    }
    assert arr[..|arr|] == arr;
    return Some(ls);
  }

  lemma {:induction false} LexemeStopsShort(arr: seq<Json>, i: nat)
    requires i < |arr| && LexemeFromJson(arr[i]).None?
    ensures LexemesFromJson(arr).None?
    decreases |arr|
  {
    if i < |arr| - 1 {
      LexemeStopsShort(arr[..|arr| - 1], i);
    }
  }

  method LexemeFromObject(j: Json) returns (out: Option<Lexeme>)
    ensures out == LexemeFromJson(j)
  {
    if !j.JObject? { return None; }
    var word := "";
    var w := Get(j.m, "word");
    if !w.JNull? {
      if !w.JString? { return None; }
      word := w.s;
    }
    var positions: seq<Position> := [];
    var p := Get(j.m, "positions");
    if !p.JNull? {
      if !p.JArray? { return None; }
      for i := 0 to |p.es|
        invariant PositionsFromJson(p.es[..i]) == Some(positions)
      {
        assert p.es[..i + 1][..i] == p.es[..i];
        var pos := PositionFromJson(p.es[i]);
        if pos.None? {
          PositionStopsShort(p.es, i);
          return None;
        }
        positions := positions + [pos.value];
      }
      assert p.es[..|p.es|] == p.es;
    }
    return Some(Lexeme(word, positions));
  }

  lemma {:induction false} PositionStopsShort(arr: seq<Json>, i: nat)
    requires i < |arr| && PositionFromJson(arr[i]).None?
    ensures PositionsFromJson(arr).None?
    decreases |arr|
  {
    if i < |arr| - 1 {
      PositionStopsShort(arr[..|arr| - 1], i);
    }
  }

  /** `hstoreFromJSON`, visiting the entries in any order. */
  method HstoreFromObject(m: map<string, Json>) returns (out: Option<Cell>)
    ensures out == HstoreFromJson(m)
  {
    var values := Get(m, "values");
    if values.JNull? { return Some(Hstore(map[])); }
    if !values.JObject? { return None; }
    var entries: map<string, Option<string>> := map[];
    var rest := values.m.Keys;
    while rest != {}
      invariant rest <= values.m.Keys && entries.Keys == values.m.Keys - rest
      invariant forall k :: k in entries ==>
                  if values.m[k].JNull? then entries[k] == None
                  else values.m[k].JString? && entries[k] == Some(values.m[k].s)
      decreases |rest|
    {
      var k :| k in rest;
      rest := rest - {k};
      var val := values.m[k];
      if val.JNull? {
        entries := entries[k := None];
        continue;
      }
      if !val.JString? { return None; }
      entries := entries[k := Some(val.s)];
    }
    assert entries == map k | k in values.m :: if values.m[k].JNull? then None else Some(values.m[k].s);
    return Some(Hstore(entries));
  }
}

/** What a stream's frames are turned into: header maps and length-prefixed gRPC messages. */
module Http2Messages {
  import opened Text
  import opened Http2

  // ---- Headers ----

  predicate IsPseudo(name: string) { name != "" && name[0] == ':' }

  /** The value of the last field with the name. */
  function LastValue(fields: seq<HeaderField>, name: string): Option<string> {
    if fields == [] then None
    else if fields[|fields| - 1].name == name then Some(fields[|fields| - 1].value)
    else LastValue(fields[..|fields| - 1], name)
  }

  function Lookup(m: map<string, string>, name: string): Option<string> { if name in m then Some(m[name]) else None }

  /** Each name is found in the map its first character calls for, with its last value, and nowhere else. */
  lemma {:induction false} HeadersHoldLastValues(fields: seq<HeaderField>, name: string)
    ensures var h := ProcessHeaders(fields);
            && Lookup(h.pseudo, name) == (if IsPseudo(name) then LastValue(fields, name) else None)
            && Lookup(h.ordinary, name) == (if IsPseudo(name) then None else LastValue(fields, name))
    decreases |fields|
  {
    if fields != [] {
      HeadersHoldLastValues(fields[..|fields| - 1], name);
    }
  }

  /** `ProcessHeaders`. */
  method BuildHeaders(fields: seq<HeaderField>) returns (h: GrpcHeaders)
    ensures h == ProcessHeaders(fields)
  {
    var pseudo, ordinary: map<string, string> := map[], map[];
    for i := 0 to |fields|
      invariant GrpcHeaders(pseudo, ordinary) == ProcessHeaders(fields[..i])
    {
      assert fields[..i + 1][..i] == fields[..i];
      if |fields[i].name| > 0 && fields[i].name[0] == ':' {
        pseudo := pseudo[fields[i].name := fields[i].value];
      } else {
        ordinary := ordinary[fields[i].name := fields[i].value];
      }
    }
    assert fields[..|fields|] == fields;
    h := GrpcHeaders(pseudo, ordinary);
  }

  // ---- Messages ----

  const TWO_32 := 0x1_0000_0000

  /** `binary.BigEndian.PutUint32`. */
  function PutUint32(n: nat): (r: seq<Byte>)
    ensures |r| == 4
  {
    [n / 0x100_0000 % 256, n / 0x1_0000 % 256, n / 256 % 256, n % 256]
  }

  lemma {:induction false} PutThenRead(n: nat)
    requires n < TWO_32
    ensures var b := PutUint32(n); BigEndian32(b[0], b[1], b[2], b[3]) == n
  {
    assert n / 256 / 256 == n / 0x1_0000 && n / 0x1_0000 / 256 == n / 0x100_0000;
  }

  lemma {:induction false} ReadThenPut(a: Byte, b: Byte, c: Byte, d: Byte)
    ensures 0 <= BigEndian32(a, b, c, d) < TWO_32 && PutUint32(BigEndian32(a, b, c, d)) == [a, b, c, d]
  {
    var n := BigEndian32(a, b, c, d);
    assert n / 256 == (a * 256 + b) * 256 + c && n % 256 == d;
    assert n / 0x1_0000 == a * 256 + b && n / 256 % 256 == c;
    assert n / 0x100_0000 == a && n / 0x1_0000 % 256 == b;
  }

  /** `CreatePayloadFromLengthPrefixedMessage`; `encode` is the protoscope scanner, which may fail. */
  function PayloadOf(encode: string -> Option<seq<Byte>>, msg: Message): Option<seq<Byte>> {
    var encoded :- encode(msg.decodedData);
    Some([msg.compressionFlag % 256] + PutUint32(|encoded| % TWO_32) + encoded)
  }

  /** The scanner reads back what the printer wrote, and the empty text is the empty message. */
  ghost predicate Inverts(protoscope: seq<Byte> -> string, encode: string -> Option<seq<Byte>>) {
    encode("") == Some([]) && forall b :: encode(protoscope(b)) == Some(b)
  }

  /** The parts of a body of at least five bytes. */
  lemma {:induction false} MessageParts<D>(env: Env<D>, flag: Byte, prefix: seq<Byte>, rest: seq<Byte>)
    requires |prefix| == 4
    ensures MessageOf(env, [flag] + prefix + rest)
         == Message(flag, BigEndian32(prefix[0], prefix[1], prefix[2], prefix[3]),
             if rest == [] then "" else env.protoscope(rest))
  {
    var data := [flag] + prefix + rest;
    assert data[0] == flag && data[1] == prefix[0] && data[2] == prefix[1] && data[3] == prefix[2]
        && data[4] == prefix[3];
    assert data[5..] == rest;
  }

  lemma {:induction false} SamePayload(flag: Byte, put: seq<Byte>, prefix: seq<Byte>, rest: seq<Byte>)
    requires |put| == |prefix| == 4
    ensures [flag] + put + rest == [flag] + prefix + rest <==> put == prefix
  {
    var x, y := [flag] + put + rest, [flag] + prefix + rest;
    assert x[1..5] == put && y[1..5] == prefix;
  }

  lemma {:induction false} PrefixStatesLength(prefix: seq<Byte>, length: nat)
    requires |prefix| == 4 && length < TWO_32
    ensures PutUint32(length) == prefix <==> BigEndian32(prefix[0], prefix[1], prefix[2], prefix[3]) == length
  {
    hide PutUint32, BigEndian32;
    ReadThenPut(prefix[0], prefix[1], prefix[2], prefix[3]);
    PutThenRead(length);
    assert prefix == [prefix[0], prefix[1], prefix[2], prefix[3]];
  }

  /** A captured body is rebuilt from its message exactly when it is one message whose prefix states its length. */
  lemma {:induction false} BodyRebuiltIff<D>(env: Env<D>, encode: string -> Option<seq<Byte>>, data: seq<Byte>)
    requires Inverts(env.protoscope, encode)
    ensures PayloadOf(encode, MessageOf(env, data)) == Some(data)
       <==> |data| >= 5 && BigEndian32(data[1], data[2], data[3], data[4]) == (|data| - 5) % TWO_32
  {
    hide PutUint32, BigEndian32;
    if |data| >= 5 {
      var flag, prefix, rest := data[0], data[1..5], data[5..];
      assert data == [flag] + prefix + rest;
      MessageParts(env, flag, prefix, rest);
      assert encode(MessageOf(env, data).decodedData) == Some(rest);
      SamePayload(flag, PutUint32(|rest| % TWO_32), prefix, rest);
      PrefixStatesLength(prefix, |rest| % TWO_32);
    } else {
      assert |PayloadOf(encode, NO_MESSAGE).value| == 5;
    }
  }

  /** A body without a whole prefix has no message. */
  lemma {:induction false} ShortBody<D>(env: Env<D>, data: seq<Byte>)
    requires |data| < 5
    ensures MessageOf(env, data) == Message(0, 0, "")
  {
  }

  /** A rebuilt payload states the length of its data, whatever length the message claimed. */
  lemma {:induction false} RebuiltLengthIsActual<D>(env: Env<D>, encode: string -> Option<seq<Byte>>, msg: Message)
    requires PayloadOf(encode, msg).Some?
    ensures var encoded := encode(msg.decodedData).value;
            MessageOf(env, PayloadOf(encode, msg).value)
            == Message(msg.compressionFlag % 256, |encoded| % TWO_32,
                if encoded == [] then "" else env.protoscope(encoded))
  {
    var encoded := encode(msg.decodedData).value;
    MessageParts(env, msg.compressionFlag % 256, PutUint32(|encoded| % TWO_32), encoded);
    PutThenRead(|encoded| % TWO_32);
  }

  /** A whole message: its prefix states the length of its data. */
  predicate WholeMessage(data: seq<Byte>) {
    |data| >= 5 && BigEndian32(data[1], data[2], data[3], data[4]) == |data| - 5
  }

  /**
   * The body of a streaming call: a whole message followed by more is not rebuilt, since one length is written for
   * both.
   */
  lemma {:induction false} SecondMessageIsNotRebuilt<D>(env: Env<D>, encode: string -> Option<seq<Byte>>,
                                                        first: seq<Byte>, more: seq<Byte>)
    requires Inverts(env.protoscope, encode) && WholeMessage(first) && more != [] && |first| + |more| < TWO_32
    ensures PayloadOf(encode, MessageOf(env, first)) == Some(first)
    ensures PayloadOf(encode, MessageOf(env, first + more)) != Some(first + more)
  {
    hide BigEndian32, MessageOf, PayloadOf;
    var data := first + more;
    assert data[1] == first[1] && data[2] == first[2] && data[3] == first[3] && data[4] == first[4];
    BodyRebuiltIff(env, encode, first);
    BodyRebuiltIff(env, encode, data);
  }

  /** Two one-byte messages in one body. */
  lemma {:induction false} TwoMessagesAreNotRebuilt<D>(env: Env<D>, encode: string -> Option<seq<Byte>>)
    requires Inverts(env.protoscope, encode)
    ensures var data: seq<Byte> := [0, 0, 0, 0, 1, 7] + [0, 0, 0, 0, 1, 8];
            PayloadOf(encode, MessageOf(env, data)) != Some(data)
  {
    var first: seq<Byte> := [0, 0, 0, 0, 1, 7];
    assert WholeMessage(first);
    SecondMessageIsNotRebuilt(env, encode, first, [0, 0, 0, 0, 1, 8]);
  }
}

/** Reassembling gRPC exchanges from HTTP/2 frames: the per-frame transition of the stream manager. */
module Http2 {
  import opened Text

  type Byte = b: int | 0 <= b < 256

  datatype HeaderField = HeaderField(name: string, value: string)

  datatype GrpcHeaders = GrpcHeaders(pseudo: map<string, string>, ordinary: map<string, string>)

  datatype Message = Message(compressionFlag: nat, messageLength: nat, decodedData: string)

  datatype GrpcReq = GrpcReq(headers: GrpcHeaders, body: Message, timestamp: int)

  datatype GrpcResp = GrpcResp(headers: GrpcHeaders, body: Message, trailers: GrpcHeaders, timestamp: int)

  datatype Setting = Setting(id: nat, val: nat)

  datatype Payload =
    | Headers(frag: seq<Byte>, endHeaders: bool, endStream: bool)
    | Continuation(frag: seq<Byte>, endHeaders: bool)
    | Data(data: seq<Byte>, endStream: bool)
    | Settings(ack: bool, settings: seq<Setting>)
    | OtherFrame

  /** END_STREAM is a flag of HEADERS and of DATA. */
  predicate CarriesEndStream(p: Payload) { (p.Headers? || p.Data?) && p.endStream }

  /** A frame as seen on the wire; `outgoing` frames travel from server to client. */
  datatype Event = Event(streamId: nat, payload: Payload, outgoing: bool, time: int)

  /** The libraries the manager calls: an HPACK decoder over any state `D`, and the protoscope printer. */
  datatype Env<!D> = Env(
    decode: (D, seq<Byte>) -> (D, Option<seq<HeaderField>>),
    setMaxTableSize: (D, nat) -> D,
    protoscope: seq<Byte> -> string)

  const ZERO_TIME := 0
  const SETTINGS_HEADER_TABLE_SIZE := 1
  const MAX_HPACK_TABLE_SIZE := 64 * 1024

  const NO_HEADERS := GrpcHeaders(map[], map[])
  const NO_MESSAGE := Message(0, 0, "")
  const EMPTY_REQ := GrpcReq(NO_HEADERS, NO_MESSAGE, ZERO_TIME)
  const EMPTY_RESP := GrpcResp(NO_HEADERS, NO_MESSAGE, NO_HEADERS, ZERO_TIME)

  /** The request half of a stream, fed by incoming frames. */
  datatype ReqSide = ReqSide(
    frags: seq<seq<Byte>>,
    headersReceived: bool,
    data: seq<seq<Byte>>,
    endStream: bool,
    msg: Option<GrpcReq>)

  /** The response half of a stream, fed by outgoing frames. */
  datatype RespSide = RespSide(
    frags: seq<seq<Byte>>,
    headersReceived: bool,
    trailersReceived: bool,
    data: seq<seq<Byte>>,
    endStream: bool,
    msg: Option<GrpcResp>)

  datatype StreamState = StreamState(
    openedByServer: bool,
    startTime: int,
    endTime: int,
    req: ReqSide,
    resp: RespSide,
    isComplete: bool)

  predicate ReqDone(r: ReqSide) { r.headersReceived && r.endStream }

  predicate RespDone(r: RespSide) { r.headersReceived && r.trailersReceived && r.endStream }

  datatype Manager<D> = Manager(streams: map<nat, StreamState>, decoderIn: D, decoderOut: D) {
    function Decoder(outgoing: bool): D { if outgoing then decoderOut else decoderIn }
    function WithDecoder(outgoing: bool, d: D): Manager<D> {
      if outgoing then this.(decoderOut := d) else this.(decoderIn := d)
    }
  }

  /** What one frame does to its side of a stream and to the decoder of its direction. */
  datatype Outcome<S, D> = Outcome(side: S, decoder: D, err: bool, ended: bool)

  function NewStream(outgoing: bool): StreamState {
    StreamState(outgoing, ZERO_TIME, ZERO_TIME, ReqSide([], false, [], false, None),
        RespSide([], false, false, [], false, None), false)
  }

  function Flatten(parts: seq<seq<Byte>>): seq<Byte> {
    if parts == [] then [] else parts[0] + Flatten(parts[1..])
  }

  function ProcessHeaders(fields: seq<HeaderField>): GrpcHeaders {
    if fields == [] then NO_HEADERS
    else
      var h := ProcessHeaders(fields[..|fields| - 1]);
      var f := fields[|fields| - 1];
      if f.name != "" && f.name[0] == ':' then h.(pseudo := h.pseudo[f.name := f.value])
      else h.(ordinary := h.ordinary[f.name := f.value])
  }

  function BigEndian32(a: int, b: int, c: int, d: int): int {
    ((a * 256 + b) * 256 + c) * 256 + d
  }

  /** The gRPC length-prefixed message in a body; shorter bodies give the zero message. */
  function MessageOf<D>(env: Env<D>, data: seq<Byte>): Message {
    if |data| < 5 then NO_MESSAGE
    else Message(
      data[0],
      BigEndian32(data[1], data[2], data[3], data[4]),
      if |data| > 5 then env.protoscope(data[5..]) else "")
  }

  function ReqOf(r: ReqSide): GrpcReq { if r.msg.Some? then r.msg.value else EMPTY_REQ }

  function RespOf(r: RespSide): GrpcResp { if r.msg.Some? then r.msg.value else EMPTY_RESP }

  /** `processHeaderBlock` for a request: the first decoded block holds the headers, later ones are dropped. */
  function ReqBlock<D>(env: Env<D>, r: ReqSide, dec: D): Outcome<ReqSide, D> {
    if r.frags == [] then Outcome(r, dec, false, false)
    else
      var (dec', fields) := env.decode(dec, Flatten(r.frags));
      var r' := r.(frags := []);
      if fields.None? then Outcome(r', dec', true, false)
      else if r.headersReceived then Outcome(r', dec', false, false)
      else
        Outcome(r'.(msg := Some(ReqOf(r).(headers := ProcessHeaders(fields.value))), headersReceived := true), dec',
            false, false)
  }

  /** `processHeaderBlock` for a response: the first decoded block holds the headers, later ones the trailers. */
  function RespBlock<D>(env: Env<D>, r: RespSide, dec: D): Outcome<RespSide, D> {
    if r.frags == [] then Outcome(r, dec, false, false)
    else
      var (dec', fields) := env.decode(dec, Flatten(r.frags));
      var r' := r.(frags := []);
      if fields.None? then Outcome(r', dec', true, false)
      else
        var h := ProcessHeaders(fields.value);
        if !r.headersReceived
        then Outcome(r'.(msg := Some(RespOf(r).(headers := h)), headersReceived := true), dec', false, false)
        else Outcome(r'.(msg := Some(RespOf(r).(trailers := h)), trailersReceived := true), dec', false, false)
  }

  /** `processCompleteMessage` for a request whose END_STREAM has arrived. */
  function EndReq<D>(env: Env<D>, r: ReqSide): ReqSide {
    if r.data == [] then r.(endStream := true)
    else r.(endStream := true, data := [], msg := Some(ReqOf(r).(body := MessageOf(env, Flatten(r.data)))))
  }

  /** `processCompleteMessage` for a response whose END_STREAM has arrived. */
  function EndResp<D>(env: Env<D>, r: RespSide): RespSide {
    if r.data == [] then r.(endStream := true, msg := Some(RespOf(r)))
    else r.(endStream := true, data := [], msg := Some(RespOf(r).(body := MessageOf(env, Flatten(r.data)))))
  }

  /** END_STREAM on a HEADERS frame while no trailers are known: the headers double as trailers. */
  function PromoteTrailers(r: RespSide): RespSide {
    if r.headersReceived && !r.trailersReceived
    then r.(msg := Some(RespOf(r).(trailers := RespOf(r).headers)), trailersReceived := true)
    else r
  }

  function ReqStep<D>(env: Env<D>, r: ReqSide, dec: D, payload: Payload): Outcome<ReqSide, D> {
    match payload
    case Headers(frag, endHeaders, endStream) =>
      var r' := r.(frags := r.frags + [frag]);
      var o := if endHeaders then ReqBlock(env, r', dec) else Outcome(r', dec, false, false);
      if o.err || !endStream then o else o.(side := EndReq(env, o.side), ended := true)
    case Continuation(frag, endHeaders) =>
      var r' := r.(frags := r.frags + [frag]);
      if endHeaders then ReqBlock(env, r', dec) else Outcome(r', dec, false, false)
    case Data(data, endStream) =>
      var r' := r.(data := r.data + [data]);
      if endStream then Outcome(EndReq(env, r'), dec, false, true) else Outcome(r', dec, false, false)
    case _ => Outcome(r, dec, false, false)
  }

  function RespStep<D>(env: Env<D>, r: RespSide, dec: D, payload: Payload): Outcome<RespSide, D> {
    match payload
    case Headers(frag, endHeaders, endStream) =>
      var r' := r.(frags := r.frags + [frag]);
      var o := if endHeaders then RespBlock(env, r', dec) else Outcome(r', dec, false, false);
      if o.err || !endStream then o else o.(side := EndResp(env, PromoteTrailers(o.side)), ended := true)
    case Continuation(frag, endHeaders) =>
      var r' := r.(frags := r.frags + [frag]);
      if endHeaders then RespBlock(env, r', dec) else Outcome(r', dec, false, false)
    case Data(data, endStream) =>
      var r' := r.(data := r.data + [data]);
      if endStream then Outcome(EndResp(env, r'), dec, false, true) else Outcome(r', dec, false, false)
    case _ => Outcome(r, dec, false, false)
  }

  /** `checkStreamCompletion`. */
  function CheckCompletion(s: StreamState): StreamState {
    s.(isComplete := s.isComplete || (ReqDone(s.req) && RespDone(s.resp)))
  }

  /** One frame of an existing stream, with the decoder of the frame's direction. */
  function StreamStep<D>(env: Env<D>, s: StreamState, dec: D, ev: Event): (StreamState, D, bool) {
    if ev.outgoing then
      var o := RespStep(env, s.resp, dec, ev.payload);
      var s' := s.(resp := o.side);
      (if o.ended then CheckCompletion(s'.(endTime := ev.time)) else s', o.decoder, o.err)
    else
      var o := ReqStep(env, s.req, dec, ev.payload);
      var s' := s.(req := o.side, startTime := if s.startTime == ZERO_TIME then ev.time else s.startTime);
      (if o.ended then CheckCompletion(s') else s', o.decoder, o.err)
  }

  function ApplySettings<D>(env: Env<D>, dec: D, settings: seq<Setting>): D {
    if settings == [] then dec
    else
      var s := settings[0];
      var dec' := if s.id == SETTINGS_HEADER_TABLE_SIZE
                  then env.setMaxTableSize(dec, if s.val > MAX_HPACK_TABLE_SIZE then MAX_HPACK_TABLE_SIZE else s.val)
                  else dec;
      ApplySettings(env, dec', settings[1..])
  }

  /** `HandleFrame`: the new manager state, and whether an error was returned. */
  function Handle<D>(env: Env<D>, m: Manager<D>, ev: Event): (Manager<D>, bool) {
    if ev.streamId == 0 then
      if ev.payload.Settings? && !ev.payload.ack
      then (m.WithDecoder(!ev.outgoing, ApplySettings(env, m.Decoder(!ev.outgoing), ev.payload.settings)), false)
      else (m, false)
    else
      var s := if ev.streamId in m.streams then m.streams[ev.streamId] else NewStream(ev.outgoing);
      var (s', dec', err) := StreamStep(env, s, m.Decoder(ev.outgoing), ev);
      (m.(streams := m.streams[ev.streamId := s']).WithDecoder(ev.outgoing, dec'), err)
  }

  function Run<D>(env: Env<D>, m: Manager<D>, evs: seq<Event>): Manager<D>
    decreases evs
  {
    if evs == [] then m else Run(env, Handle(env, m, evs[0]).0, evs[1..])
  }

  lemma {:induction false} RunConcat<D>(env: Env<D>, m: Manager<D>, xs: seq<Event>, ys: seq<Event>)
    ensures Run(env, m, xs + ys) == Run(env, Run(env, m, xs), ys)
    decreases xs
  {
    if xs == [] {
      assert xs + ys == ys;
    } else {
      assert (xs + ys)[1..] == xs[1..] + ys;
      RunConcat(env, Handle(env, m, xs[0]).0, xs[1..], ys);
    }
  }

  lemma {:induction false} FlattenConcat(xs: seq<seq<Byte>>, ys: seq<seq<Byte>>)
    ensures Flatten(xs + ys) == Flatten(xs) + Flatten(ys)
  {
    if xs == [] {
      assert xs + ys == ys;
    } else {
      assert (xs + ys)[1..] == xs[1..] + ys;
      FlattenConcat(xs[1..], ys);
    }
  }

  predicate ReqInv(r: ReqSide) { r.headersReceived ==> r.msg.Some? }

  predicate RespInv(r: RespSide) {
    && (r.headersReceived ==> r.msg.Some?)
    && (r.trailersReceived ==> r.headersReceived)
  }

  /** What every frame keeps, for each stream. */
  predicate StreamInv(s: StreamState) {
    && ReqInv(s.req) && RespInv(s.resp)
    && (s.isComplete ==> ReqDone(s.req) && RespDone(s.resp))
  }

  lemma {:induction false} ReqStepKeeps<D>(env: Env<D>, r: ReqSide, dec: D, payload: Payload)
    requires ReqInv(r)
    ensures var r' := ReqStep(env, r, dec, payload).side;
            ReqInv(r') && (r.headersReceived ==> r'.headersReceived) && (r.endStream ==> r'.endStream)
  {
  }

  lemma {:induction false} RespStepKeeps<D>(env: Env<D>, r: RespSide, dec: D, payload: Payload)
    requires RespInv(r)
    ensures var r' := RespStep(env, r, dec, payload).side;
            && RespInv(r') && (r.headersReceived ==> r'.headersReceived)
            && (r.trailersReceived ==> r'.trailersReceived) && (r.endStream ==> r'.endStream)
  {
  }

  /** A frame keeps the invariant, and a complete stream stays complete. */
  lemma {:induction false} StreamStepKeeps<D>(env: Env<D>, s: StreamState, dec: D, ev: Event)
    requires StreamInv(s)
    ensures StreamInv(StreamStep(env, s, dec, ev).0)
    ensures s.isComplete ==> StreamStep(env, s, dec, ev).0.isComplete
  {
    if ev.outgoing {
      RespStepKeeps(env, s.resp, dec, ev.payload);
    } else {
      ReqStepKeeps(env, s.req, dec, ev.payload);
    }
  }

  ghost predicate ManagerInv<D>(m: Manager<D>) { forall id :: id in m.streams ==> StreamInv(m.streams[id]) }

  lemma {:induction false} HandleKeeps<D>(env: Env<D>, m: Manager<D>, ev: Event)
    requires ManagerInv(m)
    ensures ManagerInv(Handle(env, m, ev).0)
    ensures forall id :: id in m.streams ==> id in Handle(env, m, ev).0.streams
    ensures forall id :: id in m.streams && m.streams[id].isComplete ==> Handle(env, m, ev).0.streams[id].isComplete
  {
    hide StreamStep, ReqInv, RespInv, ReqDone, RespDone;
    if ev.streamId != 0 {
      StreamStepKeeps(env, if ev.streamId in m.streams then m.streams[ev.streamId] else NewStream(ev.outgoing),
          m.Decoder(ev.outgoing), ev);
    }
  }

  // ---- The manager as the code keeps it ----

  datatype CompletedStream = CompletedStream(id: nat, req: GrpcReq, resp: GrpcResp)

  class StreamManager<D> {
    const env: Env<D>
    var streams: map<nat, StreamState>
    var decoderIn: D
    var decoderOut: D

    ghost function State(): Manager<D>
      reads this
    {
      Manager(streams, decoderIn, decoderOut)
    }

    ghost predicate Valid()
      reads this
    {
      ManagerInv(State())
    }

    constructor (env: Env<D>, decoderIn: D, decoderOut: D)
      ensures this.env == env && State() == Manager(map[], decoderIn, decoderOut) && Valid()
    {
      this.env := env;
      this.streams := map[];
      this.decoderIn, this.decoderOut := decoderIn, decoderOut;
    }

    method HandleFrame(ev: Event) returns (err: bool)
      requires Valid()
      modifies this
      ensures (State(), err) == Handle(env, old(State()), ev)
      ensures Valid()
    {
      hide ReqStep, RespStep, ApplySettings, ReqDone, RespDone, ManagerInv;
      HandleKeeps(env, State(), ev);
      err := false;
      var id := ev.streamId;
      if id == 0 {
        if ev.payload.Settings? && !ev.payload.ack {
          UpdateDecoderTableSize(ev.payload.settings, ev.outgoing);
        }
        return;
      }
      if id !in streams {
        streams := streams[id := NewStream(ev.outgoing)];
      }
      var s := streams[id];
      var ended;
      if ev.outgoing {
        var resp;
        resp, err, ended := HandleResponse(s.resp, ev.payload);
        s := s.(resp := resp);
        if ended { s := s.(endTime := ev.time); }
      } else {
        if s.startTime == ZERO_TIME { s := s.(startTime := ev.time); }
        var req;
        req, err, ended := HandleRequest(s.req, ev.payload);
        s := s.(req := req);
      }
      if ended && !s.isComplete && ReqDone(s.req) && RespDone(s.resp) {
        s := s.(isComplete := true);
      }
      streams := streams[id := s];
      assert streams == old(streams)[id := s];
    }

    method HandleRequest(r: ReqSide, payload: Payload) returns (r': ReqSide, err: bool, ended: bool)
      modifies this`decoderIn
      ensures Outcome(r', decoderIn, err, ended) == ReqStep(env, r, old(decoderIn), payload)
    {
      r', err, ended := r, false, false;
      match payload
      case Headers(frag, endHeaders, endStream) =>
        r' := r'.(frags := r'.frags + [frag]);
        if endHeaders {
          r', err := DecodeRequestBlock(r');
          if err { return; }
        }
        if endStream {
          r', ended := EndReq(env, r'), true;
        }
      case Continuation(frag, endHeaders) =>
        r' := r'.(frags := r'.frags + [frag]);
        if endHeaders {
          r', err := DecodeRequestBlock(r');
        }
      case Data(data, endStream) =>
        r' := r'.(data := r'.data + [data]);
        if endStream {
          r', ended := EndReq(env, r'), true;
        }
      case _ =>
    }

    method DecodeRequestBlock(r: ReqSide) returns (r': ReqSide, err: bool)
      modifies this`decoderIn
      ensures Outcome(r', decoderIn, err, false) == ReqBlock(env, r, old(decoderIn))
    {
      r', err := r, false;
      if r.frags == [] { return; }
      var block := Flatten(r.frags);
      r' := r'.(frags := []);
      var (dec, fields) := env.decode(decoderIn, block);
      decoderIn := dec;
      if fields.None? { err := true; return; }
      if !r.headersReceived {
        r' := r'.(msg := Some(ReqOf(r).(headers := ProcessHeaders(fields.value))), headersReceived := true);
      }
    }

    method HandleResponse(r: RespSide, payload: Payload) returns (r': RespSide, err: bool, ended: bool)
      modifies this`decoderOut
      ensures Outcome(r', decoderOut, err, ended) == RespStep(env, r, old(decoderOut), payload)
    {
      r', err, ended := r, false, false;
      match payload
      case Headers(frag, endHeaders, endStream) =>
        r' := r'.(frags := r'.frags + [frag]);
        if endHeaders {
          r', err := DecodeResponseBlock(r');
          if err { return; }
        }
        if endStream {
          if r'.headersReceived && !r'.trailersReceived {
            r' := r'.(msg := Some(RespOf(r').(trailers := RespOf(r').headers)), trailersReceived := true);
          }
          r', ended := EndResp(env, r'), true;
        }
      case Continuation(frag, endHeaders) =>
        r' := r'.(frags := r'.frags + [frag]);
        if endHeaders {
          r', err := DecodeResponseBlock(r');
        }
      case Data(data, endStream) =>
        r' := r'.(data := r'.data + [data]);
        if endStream {
          r', ended := EndResp(env, r'), true;
        }
      case _ =>
    }

    method DecodeResponseBlock(r: RespSide) returns (r': RespSide, err: bool)
      modifies this`decoderOut
      ensures Outcome(r', decoderOut, err, false) == RespBlock(env, r, old(decoderOut))
    {
      r', err := r, false;
      if r.frags == [] { return; }
      var block := Flatten(r.frags);
      r' := r'.(frags := []);
      var (dec, fields) := env.decode(decoderOut, block);
      decoderOut := dec;
      if fields.None? { err := true; return; }
      var h := ProcessHeaders(fields.value);
      if !r.headersReceived {
        r' := r'.(msg := Some(RespOf(r).(headers := h)), headersReceived := true);
      } else {
        r' := r'.(msg := Some(RespOf(r).(trailers := h)), trailersReceived := true);
      }
    }

    method UpdateDecoderTableSize(settings: seq<Setting>, outgoing: bool)
      modifies this
      ensures State() == old(State()).WithDecoder(!outgoing,
          ApplySettings(env, old(State()).Decoder(!outgoing), settings))
    {
      for i := 0 to |settings|
        invariant ApplySettings(env, State().Decoder(!outgoing), settings[i..])
            == ApplySettings(env, old(State()).Decoder(!outgoing), settings)
        invariant State() == old(State()).WithDecoder(!outgoing, State().Decoder(!outgoing))
      {
        assert settings[i..][1..] == settings[i + 1..];
        if settings[i].id == SETTINGS_HEADER_TABLE_SIZE {
          var size := settings[i].val;
          if size > MAX_HPACK_TABLE_SIZE { size := MAX_HPACK_TABLE_SIZE; }
          if outgoing {
            decoderIn := env.setMaxTableSize(decoderIn, size);
          } else {
            decoderOut := env.setMaxTableSize(decoderOut, size);
          }
        }
      }
    }

    /** Every complete stream, once, stamped with its start and end time. */
    method GetCompleteStreams() returns (completed: seq<CompletedStream>)
      requires Valid()
      modifies this`streams
      ensures Valid() && streams == StampedExcept(old(streams), {})
      ensures Ids(completed) == CompleteIds(old(streams), old(streams).Keys)
      ensures forall i, j :: 0 <= i < j < |completed| ==> completed[i].id != completed[j].id
      ensures forall c :: c in completed ==> Reports(old(streams), c)
    {
      hide StampedExcept, Stamped, CompleteIds, Ids, Reports;
      completed := [];
      ghost var before := streams;
      var rest := streams.Keys;
      NoneStamped(before);
      while rest != {}
        invariant rest <= before.Keys && streams == StampedExcept(before, rest)
        invariant Ids(completed) == CompleteIds(before, before.Keys - rest)
        invariant forall i, j :: 0 <= i < j < |completed| ==> completed[i].id != completed[j].id
        invariant forall c :: c in completed ==> Reports(before, c)
        decreases |rest|
      {
        var id :| id in rest;
        StampOne(before, rest, id);
        ghost var held := rest;
        rest := rest - {id};
        assert before.Keys - rest - {id} == before.Keys - held;
        if streams[id].isComplete {
          var c := Collect(id);
          ReportsHeld(before, held, c);
          CollectOne(before, rest, id, completed, c);
          completed := completed + [c];
        } else {
          SkipOne(before, rest, id);
        }
      }
      assert streams == StampedExcept(before, {}) && before.Keys - rest == before.Keys;
      AllStamped(before);
    }

    method Collect(id: nat) returns (c: CompletedStream)
      requires id in streams && streams[id].isComplete && StreamInv(streams[id])
      modifies this`streams
      ensures streams == old(streams)[id := Stamped(old(streams)[id])]
      ensures c.id == id && Reports(old(streams), c)
    {
      var s := streams[id];
      c := CompletedStream(id, s.req.msg.value.(timestamp := s.startTime), s.resp.msg.value.(timestamp := s.endTime));
      streams := streams[id := s.(req := s.req.(msg := Some(c.req)), resp := s.resp.(msg := Some(c.resp)))];
    }

    method CleanupStream(id: nat)
      requires Valid()
      modifies this`streams
      ensures Valid() && streams == old(streams) - {id}
    {
      streams := streams - {id};
    }
  }

  ghost function Ids(completed: seq<CompletedStream>): set<nat> {
    set c | c in completed :: c.id
  }

  lemma {:induction false} IdsAppend(completed: seq<CompletedStream>, c: CompletedStream)
    ensures Ids(completed + [c]) == Ids(completed) + {c.id}
  {
    assert c in completed + [c];
  }

  /** `c` carries the exchange held for its stream, with the times of its first request frame and of its end. */
  predicate Reports(streams: map<nat, StreamState>, c: CompletedStream) {
    c.id in streams &&
    var s := Stamped(streams[c.id]);
    s.isComplete && s.req.msg == Some(c.req) && s.resp.msg == Some(c.resp)
  }

  function Stamped(s: StreamState): StreamState {
    if s.isComplete && s.req.msg.Some? && s.resp.msg.Some?
    then s.(req := s.req.(msg := Some(s.req.msg.value.(timestamp := s.startTime))),
            resp := s.resp.(msg := Some(s.resp.msg.value.(timestamp := s.endTime))))
    else s
  }

  function StampedExcept(streams: map<nat, StreamState>, rest: set<nat>): map<nat, StreamState> {
    map id | id in streams :: if id in rest then streams[id] else Stamped(streams[id])
  }

  ghost function CompleteIds(streams: map<nat, StreamState>, among: set<nat>): set<nat> {
    set id | id in among && id in streams && streams[id].isComplete
  }

  lemma {:induction false} NoneStamped(streams: map<nat, StreamState>)
    ensures StampedExcept(streams, streams.Keys) == streams
    ensures Ids([]) == CompleteIds(streams, streams.Keys - streams.Keys)
  {
  }

  lemma {:induction false} AllStamped(streams: map<nat, StreamState>)
    requires forall id :: id in streams ==> StreamInv(streams[id])
    ensures forall id :: id in StampedExcept(streams, {}) ==> StreamInv(StampedExcept(streams, {})[id])
  {
  }

  lemma {:induction false} StampOne(streams: map<nat, StreamState>, rest: set<nat>, id: nat)
    requires id in rest && id in streams && StreamInv(streams[id])
    ensures id in StampedExcept(streams, rest) && StampedExcept(streams, rest)[id] == streams[id]
    ensures StampedExcept(streams, rest - {id}) == StampedExcept(streams, rest)[id := Stamped(streams[id])]
    ensures !streams[id].isComplete ==> StampedExcept(streams, rest - {id}) == StampedExcept(streams, rest)
    ensures streams[id].isComplete ==> streams[id].req.msg.Some? && streams[id].resp.msg.Some?
  {
  }

  lemma {:induction false} ReportsHeld(streams: map<nat, StreamState>, rest: set<nat>, c: CompletedStream)
    requires c.id in rest && Reports(StampedExcept(streams, rest), c)
    ensures Reports(streams, c)
  {
  }

  lemma {:induction false} SkipOne(streams: map<nat, StreamState>, rest: set<nat>, id: nat)
    requires id in streams && id !in rest && !streams[id].isComplete
    ensures CompleteIds(streams, streams.Keys - rest - {id}) == CompleteIds(streams, streams.Keys - rest)
  {
  }

  lemma {:induction false} CollectOne(streams: map<nat, StreamState>, rest: set<nat>, id: nat,
                                      completed: seq<CompletedStream>, c: CompletedStream)
    requires id in streams && id !in rest && streams[id].isComplete && c.id == id
    requires Ids(completed) == CompleteIds(streams, streams.Keys - rest - {id})
    ensures Ids(completed + [c]) == CompleteIds(streams, streams.Keys - rest)
    ensures forall i :: 0 <= i < |completed| ==> completed[i].id != id
  {
    IdsAppend(completed, c);
    forall i | 0 <= i < |completed| ensures completed[i].id != id {
      assert completed[i].id in Ids(completed);
    }
  }
}

/** When an exchange is complete: in every reachable state, and exactly at the end of a well-formed gRPC exchange. */
module Http2Completion {
  import opened Text
  import opened Http2

  /** Along any run every complete stream has its request, response and all five flags, and it stays complete. */
  lemma {:induction false} CompleteStreamsStaySound<D>(env: Env<D>, m: Manager<D>, evs: seq<Event>)
    requires ManagerInv(m)
    ensures ManagerInv(Run(env, m, evs))
    ensures forall id :: id in m.streams ==> id in Run(env, m, evs).streams
    ensures forall id :: id in m.streams && m.streams[id].isComplete ==> Run(env, m, evs).streams[id].isComplete
    decreases evs
  {
    if evs != [] {
      hide Handle, ManagerInv;
      HandleKeeps(env, m, evs[0]);
      CompleteStreamsStaySound(env, Handle(env, m, evs[0]).0, evs[1..]);
    }
  }

  // ---- What no frame changes ----

  /** Headers once received, of a request or of a response, stay as they are. */
  predicate KeepsHeaders(s: StreamState, t: StreamState) {
    KeepsReqHeaders(s.req, t.req) && KeepsRespHeaders(s.resp, t.resp)
  }

  predicate KeepsReqHeaders(q: ReqSide, r: ReqSide) {
    q.headersReceived ==>
      r.headersReceived && q.msg.Some? && r.msg.Some? && r.msg.value.headers == q.msg.value.headers
  }

  predicate KeepsRespHeaders(q: RespSide, r: RespSide) {
    q.headersReceived ==>
      r.headersReceived && q.msg.Some? && r.msg.Some? && r.msg.value.headers == q.msg.value.headers
  }

  lemma {:induction false} ReqKeepsHeaders<D>(env: Env<D>, r: ReqSide, dec: D, p: Payload)
    requires ReqInv(r)
    ensures KeepsReqHeaders(r, ReqStep(env, r, dec, p).side)
  {
    hide Flatten, MessageOf, ProcessHeaders;
  }

  lemma {:induction false} RespKeepsHeaders<D>(env: Env<D>, r: RespSide, dec: D, p: Payload)
    requires RespInv(r)
    ensures KeepsRespHeaders(r, RespStep(env, r, dec, p).side)
  {
    hide Flatten, MessageOf, ProcessHeaders;
  }

  lemma {:induction false} StepKeepsHeaders<D>(env: Env<D>, s: StreamState, dec: D, ev: Event)
    requires StreamInv(s)
    ensures KeepsHeaders(s, StreamStep(env, s, dec, ev).0)
  {
    hide ReqStep, RespStep;
    if ev.outgoing {
      RespKeepsHeaders(env, s.resp, dec, ev.payload);
    } else {
      ReqKeepsHeaders(env, s.req, dec, ev.payload);
    }
  }

  /** Along any run, well formed or not, the first header block of each direction is the one that is reported. */
  lemma {:induction false} HeadersAreFinal<D>(env: Env<D>, m: Manager<D>, evs: seq<Event>, id: nat)
    requires ManagerInv(m) && id in m.streams
    ensures id in Run(env, m, evs).streams && KeepsHeaders(m.streams[id], Run(env, m, evs).streams[id])
    decreases evs
  {
    if evs == [] {
      NothingChanged(m.streams[id]);
    } else {
      var ev, m1 := evs[0], Handle(env, m, evs[0]).0;
      HandleKeeps(env, m, ev);
      assert KeepsHeaders(m.streams[id], m1.streams[id]) by {
        hide StreamStep, ApplySettings;
        if ev.streamId == id { StepKeepsHeaders(env, m.streams[id], m.Decoder(ev.outgoing), ev); }
        NothingChanged(m.streams[id]);
      }
      hide Handle, ManagerInv;
      HeadersAreFinal(env, m1, evs[1..], id);
    }
  }

  lemma {:induction false} NothingChanged(s: StreamState)
    requires StreamInv(s)
    ensures KeepsHeaders(s, s)
  {
  }

  /** The body bytes a side holds when a frame arrives, with those of the frame. */
  function Buffered(data: seq<seq<Byte>>, p: Payload): seq<seq<Byte>> { if p.Data? then data + [p.data] else data }

  /**
   * A body is set by the end of its side alone, to the message in all bytes buffered so far; an end without any leaves
   * the body as it was.
   */
  lemma {:induction false} ReqBodyAfterFrame<D>(env: Env<D>, r: ReqSide, dec: D, p: Payload)
    ensures var o, held := ReqStep(env, r, dec, p), Buffered(r.data, p);
            if CarriesEndStream(p) && !o.err then
              o.side.data == []
              && ReqOf(o.side).body == if held == [] then ReqOf(r).body else MessageOf(env, Flatten(held))
            else o.side.data == held && ReqOf(o.side).body == ReqOf(r).body
  {
    hide Flatten, ProcessHeaders, MessageOf;
    var r' := if p.Headers? || p.Continuation? then r.(frags := r.frags + [p.frag]) else r;
    ReqBlockKeepsBody(env, r', dec);
    hide ReqBlock;
  }

  lemma {:induction false} ReqBlockKeepsBody<D>(env: Env<D>, r: ReqSide, dec: D)
    ensures var r' := ReqBlock(env, r, dec).side; r'.data == r.data && ReqOf(r').body == ReqOf(r).body
  {
    hide Flatten, ProcessHeaders;
  }

  lemma {:induction false} RespBodyAfterFrame<D>(env: Env<D>, r: RespSide, dec: D, p: Payload)
    ensures var o, held := RespStep(env, r, dec, p), Buffered(r.data, p);
            if CarriesEndStream(p) && !o.err then
              o.side.data == []
              && RespOf(o.side).body == if held == [] then RespOf(r).body else MessageOf(env, Flatten(held))
            else o.side.data == held && RespOf(o.side).body == RespOf(r).body
  {
    hide Flatten, ProcessHeaders, MessageOf;
    var r' := if p.Headers? || p.Continuation? then r.(frags := r.frags + [p.frag]) else r;
    RespBlockKeepsBody(env, r', dec);
    PromotionKeepsBody(r');
    PromotionKeepsBody(RespBlock(env, r', dec).side);
    hide RespBlock, PromoteTrailers;
  }

  lemma {:induction false} RespBlockKeepsBody<D>(env: Env<D>, r: RespSide, dec: D)
    ensures var r' := RespBlock(env, r, dec).side; r'.data == r.data && RespOf(r').body == RespOf(r).body
  {
    hide Flatten, ProcessHeaders;
  }

  lemma {:induction false} PromotionKeepsBody(r: RespSide)
    ensures PromoteTrailers(r).data == r.data && RespOf(PromoteTrailers(r)).body == RespOf(r).body
  {
  }

  /** The fragments held for a direction of a stream. */
  function Held<D>(m: Manager<D>, id: nat, outgoing: bool): seq<seq<Byte>> {
    if id !in m.streams then [] else if outgoing then m.streams[id].resp.frags else m.streams[id].req.frags
  }

  /** A frame is an error exactly when it ends a header block that does not decode. */
  lemma {:induction false} ErrorIffUndecodable<D>(env: Env<D>, m: Manager<D>, ev: Event)
    ensures Handle(env, m, ev).1
       <==> && ev.streamId != 0 && (ev.payload.Headers? || ev.payload.Continuation?) && ev.payload.endHeaders
            && env.decode(m.Decoder(ev.outgoing),
                          Flatten(Held(m, ev.streamId, ev.outgoing) + [ev.payload.frag])).1.None?
  {
    hide Flatten, ProcessHeaders, MessageOf;
  }

  predicate EndsBlock(p: Payload) { (p.Headers? || p.Continuation?) && p.endHeaders }

  /** The flags of a stream after a frame that is accepted, by the flags on the wire. */
  lemma {:induction false} FlagsAfterFrame<D>(env: Env<D>, s: StreamState, dec: D, ev: Event)
    requires !StreamStep(env, s, dec, ev).2
    ensures var s', p := StreamStep(env, s, dec, ev).0, ev.payload;
            var incoming, outgoing := !ev.outgoing, ev.outgoing;
            && (s'.req.headersReceived <==> s.req.headersReceived || (incoming && EndsBlock(p)))
            && (s'.req.endStream <==> s.req.endStream || (incoming && CarriesEndStream(p)))
            && (s'.resp.headersReceived <==> s.resp.headersReceived || (outgoing && EndsBlock(p)))
            && (s'.resp.endStream <==> s.resp.endStream || (outgoing && CarriesEndStream(p)))
            && (s'.resp.trailersReceived <==>
                  || s.resp.trailersReceived || (outgoing && EndsBlock(p) && s.resp.headersReceived)
                  || (outgoing && p.Headers? && p.endStream && s'.resp.headersReceived))
            && (s'.isComplete <==>
                  || s.isComplete
                  || (CarriesEndStream(p) && s'.req.headersReceived && s'.req.endStream
                      && s'.resp.headersReceived && s'.resp.trailersReceived && s'.resp.endStream))
  {
    hide ReqStep, RespStep;
    if ev.outgoing {
      RespFlags(env, s.resp, dec, ev.payload);
    } else {
      ReqFlags(env, s.req, dec, ev.payload);
    }
  }

  lemma {:induction false} ReqFlags<D>(env: Env<D>, r: ReqSide, dec: D, p: Payload)
    ensures var o := ReqStep(env, r, dec, p);
            && (o.ended <==> CarriesEndStream(p) && !o.err)
            && (o.side.endStream <==> r.endStream || (CarriesEndStream(p) && !o.err))
            && (!o.err ==> (o.side.headersReceived <==> r.headersReceived || EndsBlock(p)))
  {
    hide Flatten, ProcessHeaders, MessageOf;
  }

  lemma {:induction false} RespFlags<D>(env: Env<D>, r: RespSide, dec: D, p: Payload)
    ensures var o := RespStep(env, r, dec, p);
            && (o.ended <==> CarriesEndStream(p) && !o.err)
            && (o.side.endStream <==> r.endStream || (CarriesEndStream(p) && !o.err))
            && (!o.err ==> (o.side.headersReceived <==> r.headersReceived || EndsBlock(p)))
            && (!o.err ==>
                  (o.side.trailersReceived <==>
                     || r.trailersReceived || (EndsBlock(p) && r.headersReceived)
                     || (p.Headers? && p.endStream && o.side.headersReceived)))
  {
    hide Flatten, ProcessHeaders, MessageOf;
  }

  // ---- Table sizes ----

  /** The table sizes a SETTINGS frame asks for, none above 64 KiB. */
  function TableSizes(settings: seq<Setting>): seq<nat> {
    if settings == [] then []
    else
      var s := settings[0];
      (if s.id == 1 then [if s.val <= 65536 then s.val else 65536] else []) + TableSizes(settings[1..])
  }

  function Resized<D>(env: Env<D>, dec: D, sizes: seq<nat>): D
    decreases sizes
  {
    if sizes == [] then dec else Resized(env, env.setMaxTableSize(dec, sizes[0]), sizes[1..])
  }

  lemma {:induction false} SettingsResize<D>(env: Env<D>, dec: D, settings: seq<Setting>)
    ensures ApplySettings(env, dec, settings) == Resized(env, dec, TableSizes(settings))
    decreases settings
  {
    if settings != [] {
      var s, rest := settings[0], TableSizes(settings[1..]);
      var size := if s.val <= 65536 then s.val else 65536;
      assert ([size] + rest)[0] == size && ([size] + rest)[1..] == rest && [] + rest == rest;
      SettingsResize(env, if s.id == 1 then env.setMaxTableSize(dec, size) else dec, settings[1..]);
    }
  }

  /** A SETTINGS frame resizes the decoder of the opposite direction, clamped and in order, and nothing else. */
  lemma {:induction false} SettingsResizeOpposite<D>(env: Env<D>, m: Manager<D>, settings: seq<Setting>, outgoing: bool,
                                                     time: int)
    ensures var n := Handle(env, m, Event(0, Settings(false, settings), outgoing, time)).0;
            && n.streams == m.streams && n.Decoder(outgoing) == m.Decoder(outgoing)
            && n.Decoder(!outgoing) == Resized(env, m.Decoder(!outgoing), TableSizes(settings))
  {
    SettingsResize(env, m.Decoder(!outgoing), settings);
  }

  // ---- The life of one side of an exchange ----

  datatype Phase = Idle | Opening | Open | Closed | Malformed

  /** The opening header block, possibly continued; only an unfragmented one may end the stream at once. */
  function Opened(p: Payload): Phase {
    if !p.Headers? then Malformed
    else if p.endHeaders then (if p.endStream then Closed else Open)
    else if p.endStream then Malformed else Opening
  }

  function Continued(p: Payload): Phase {
    if !p.Continuation? then Malformed else if p.endHeaders then Open else Opening
  }

  /** A request: header block, then DATA, with END_STREAM on the last frame. */
  function ReqNext(phase: Phase, p: Payload): Phase {
    if p.Settings? || p.OtherFrame? then phase
    else match phase
      case Idle => Opened(p)
      case Opening => Continued(p)
      case Open => if !p.Data? then Malformed else if p.endStream then Closed else Open
      case _ => Malformed
  }

  /** A response: header block, DATA, then a trailer block with END_STREAM; or one block that is both. */
  function RespNext(phase: Phase, p: Payload): Phase {
    if p.Settings? || p.OtherFrame? then phase
    else match phase
      case Idle => Opened(p)
      case Opening => Continued(p)
      case Open =>
        if p.Data? && !p.endStream then Open
        else if p.Headers? && p.endHeaders && p.endStream then Closed
        else Malformed
      case _ => Malformed
  }

  /** What one side of a stream has carried: undecoded header bytes, decoded header blocks, body bytes. */
  datatype Side = Side(phase: Phase, pending: seq<Byte>, blocks: seq<GrpcHeaders>, body: seq<Byte>)

  const START := Side(Idle, [], [], [])

  /**
   * A header block is decoded when it ends, with the decoder `dec` of that moment; one that does not decode is
   * malformed.
   */
  function AdvanceSide<D>(env: Env<D>, side: Side, dec: D, p: Payload, next: Phase): Side {
    match p
    case Data(data, _) => side.(phase := next, body := side.body + data)
    case Settings(_, _) => side.(phase := next)
    case OtherFrame => side.(phase := next)
    case _ =>
      var pending := side.pending + p.frag;
      if !p.endHeaders then side.(phase := next, pending := pending)
      else
        var fields := env.decode(dec, pending).1;
        if fields.None? then side.(phase := Malformed)
        else side.(phase := next, pending := [], blocks := side.blocks + [ProcessHeaders(fields.value)])
  }

  /** How far stream `id` has come in a run from `m`. */
  datatype Progress = Progress(seen: bool, req: Side, resp: Side)

  function Advance<D>(env: Env<D>, p: Progress, dec: D, ev: Event): Progress {
    if ev.outgoing then p.(seen := true,
        resp := AdvanceSide(env, p.resp, dec, ev.payload, RespNext(p.resp.phase, ev.payload)))
    else p.(seen := true, req := AdvanceSide(env, p.req, dec, ev.payload, ReqNext(p.req.phase, ev.payload)))
  }

  function Track<D>(env: Env<D>, m: Manager<D>, id: nat, evs: seq<Event>): Progress
    decreases |evs|
  {
    if evs == [] then Progress(false, START, START)
    else
      var before, ev := evs[..|evs| - 1], evs[|evs| - 1];
      var p := Track(env, m, id, before);
      if ev.streamId == id then Advance(env, p, Run(env, m, before).Decoder(ev.outgoing), ev) else p
  }

  predicate TracksReq<D>(env: Env<D>, r: ReqSide, side: Side) {
    var phase := side.phase;
    && (r.headersReceived <==> phase.Open? || phase.Closed?)
    && (r.endStream <==> phase.Closed?)
    && (if phase.Open? || phase.Closed? then r.msg.Some? && |side.blocks| == 1
        && r.msg.value.headers == side.blocks[0] else side.blocks == [])
    && (if phase.Closed? then r.data == [] && r.msg.Some? && r.msg.value.body == MessageOf(env, side.body)
        else Flatten(r.data) == side.body && ReqOf(r).body == NO_MESSAGE)
    && Flatten(r.frags) == side.pending && (r.frags == [] <==> !phase.Opening?)
  }

  predicate TracksResp<D>(env: Env<D>, r: RespSide, side: Side) {
    var phase := side.phase;
    && (r.headersReceived <==> phase.Open? || phase.Closed?)
    && (r.trailersReceived <==> phase.Closed?)
    && (r.endStream <==> phase.Closed?)
    && (if phase.Open? || phase.Closed? then r.msg.Some? && 1 <= |side.blocks| <= 2
        && r.msg.value.headers == side.blocks[0] else side.blocks == [])
    && (phase.Open? ==> |side.blocks| == 1)
    && (if phase.Closed? then
          && r.data == [] && r.msg.Some? && r.msg.value.body == MessageOf(env, side.body)
          && side.blocks != [] && r.msg.value.trailers == side.blocks[|side.blocks| - 1]
        else Flatten(r.data) == side.body && RespOf(r).body == NO_MESSAGE)
    && Flatten(r.frags) == side.pending && (r.frags == [] <==> !phase.Opening?)
  }

  lemma {:induction false} FlattenSnoc(parts: seq<seq<Byte>>, f: seq<Byte>)
    ensures Flatten(parts + [f]) == Flatten(parts) + f
  {
    FlattenConcat(parts, [f]);
    assert Flatten([f]) == f;
  }

  lemma {:induction false} ReqAdvances<D>(env: Env<D>, r: ReqSide, dec: D, side: Side, p: Payload)
    requires TracksReq(env, r, side)
    requires !AdvanceSide(env, side, dec, p, ReqNext(side.phase, p)).phase.Malformed?
    ensures var o, side' := ReqStep(env, r, dec, p), AdvanceSide(env, side, dec, p, ReqNext(side.phase, p));
            TracksReq(env, o.side, side') && (o.ended <==> side'.phase.Closed? && !side.phase.Closed?)
  {
    if p.Data? {
      FlattenSnoc(r.data, p.data);
    } else if p.Headers? || p.Continuation? {
      FlattenSnoc(r.frags, p.frag);
    }
  }

  lemma {:induction false} RespAdvances<D>(env: Env<D>, r: RespSide, dec: D, side: Side, p: Payload)
    requires TracksResp(env, r, side)
    requires !AdvanceSide(env, side, dec, p, RespNext(side.phase, p)).phase.Malformed?
    ensures var o, side' := RespStep(env, r, dec, p), AdvanceSide(env, side, dec, p, RespNext(side.phase, p));
            TracksResp(env, o.side, side') && (o.ended <==> side'.phase.Closed? && !side.phase.Closed?)
  {
    if p.Data? {
      FlattenSnoc(r.data, p.data);
    } else if p.Headers? || p.Continuation? {
      FlattenSnoc(r.frags, p.frag);
    }
  }

  /** The stream's flags, messages and completion are those its frames call for. */
  predicate Tracks<D>(env: Env<D>, s: StreamState, p: Progress) {
    && TracksReq(env, s.req, p.req) && TracksResp(env, s.resp, p.resp)
    && (s.isComplete <==> p.req.phase.Closed? && p.resp.phase.Closed?)
  }

  lemma {:induction false} StreamAdvances<D>(env: Env<D>, s: StreamState, dec: D, p: Progress, ev: Event)
    requires Tracks(env, s, p)
    requires !Advance(env, p, dec, ev).req.phase.Malformed? && !Advance(env, p, dec, ev).resp.phase.Malformed?
    ensures Tracks(env, StreamStep(env, s, dec, ev).0, Advance(env, p, dec, ev))
  {
    if ev.outgoing {
      RespAdvances(env, s.resp, dec, p.resp, ev.payload);
    } else {
      ReqAdvances(env, s.req, dec, p.req, ev.payload);
    }
  }

  lemma {:induction false} FrameAdvances<D>(env: Env<D>, m: Manager<D>, p: Progress, ev: Event)
    requires var id := ev.streamId;
             && id != 0 && (id in m.streams <==> p.seen)
             && if p.seen then Tracks(env, m.streams[id], p) else p == Progress(false, START, START)
    requires var after := Advance(env, p, m.Decoder(ev.outgoing), ev);
             !after.req.phase.Malformed? && !after.resp.phase.Malformed?
    ensures var after, m' := Advance(env, p, m.Decoder(ev.outgoing), ev), Handle(env, m, ev).0;
            after.seen && ev.streamId in m'.streams && Tracks(env, m'.streams[ev.streamId], after)
  {
    hide AdvanceSide, StreamStep;
    var s := if ev.streamId in m.streams then m.streams[ev.streamId] else NewStream(ev.outgoing);
    StreamAdvances(env, s, m.Decoder(ev.outgoing), p, ev);
  }

  /**
   * However the two directions and other streams are interleaved, a well-formed exchange is complete
   * exactly when both of its sides are closed, and then it carries the header blocks and bodies that were sent.
   */
  lemma {:induction false} ExchangeCompletesWhenBothSidesClose<D>(env: Env<D>, m: Manager<D>, id: nat, evs: seq<Event>)
    requires id != 0 && id !in m.streams
    requires !Track(env, m, id, evs).req.phase.Malformed? && !Track(env, m, id, evs).resp.phase.Malformed?
    ensures id in Run(env, m, evs).streams <==> Track(env, m, id, evs).seen
    ensures Track(env, m, id, evs).seen ==> Tracks(env, Run(env, m, evs).streams[id], Track(env, m, id, evs))
    decreases |evs|
  {
    if evs != [] {
      hide AdvanceSide, StreamStep, Tracks;
      var before, ev := evs[..|evs| - 1], evs[|evs| - 1];
      assert evs == before + [ev];
      RunConcat(env, m, before, [ev]);
      var m1 := Run(env, m, before);
      assert Run(env, m1, [ev]) == Handle(env, m1, ev).0;
      ExchangeCompletesWhenBothSidesClose(env, m, id, before);
      if ev.streamId == id {
        UnseenIsIdle(env, m, id, before);
        FrameAdvances(env, m1, Track(env, m, id, before), ev);
      }
    }
  }

  lemma {:induction false} UnseenIsIdle<D>(env: Env<D>, m: Manager<D>, id: nat, evs: seq<Event>)
    ensures !Track(env, m, id, evs).seen ==> Track(env, m, id, evs) == Progress(false, START, START)
    decreases |evs|
  {
    if evs != [] {
      UnseenIsIdle(env, m, id, evs[..|evs| - 1]);
    }
  }
}

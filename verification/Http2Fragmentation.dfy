/** How a header block or a body is cut into frames does not matter, except for a block that also ends the stream. */
module Http2Fragmentation {
  import opened Http2

  /** A list of fragments seen only as its bytes (an empty list differs from an empty fragment). */
  function Packed(parts: seq<seq<Byte>>): seq<seq<Byte>> {
    if parts == [] then [] else [Flatten(parts)]
  }

  predicate SameBytes(a: seq<seq<Byte>>, b: seq<seq<Byte>>) { Packed(a) == Packed(b) }

  predicate SameReq(r: ReqSide, q: ReqSide) {
    && SameBytes(r.frags, q.frags) && SameBytes(r.data, q.data)
    && r.headersReceived == q.headersReceived && r.endStream == q.endStream && r.msg == q.msg
  }

  predicate SameResp(r: RespSide, q: RespSide) {
    && SameBytes(r.frags, q.frags) && SameBytes(r.data, q.data)
    && r.headersReceived == q.headersReceived && r.trailersReceived == q.trailersReceived
    && r.endStream == q.endStream && r.msg == q.msg
  }

  /** Two streams that differ at most in times, in the direction first seen, and in how buffered bytes are cut. */
  predicate SameStream(s: StreamState, t: StreamState) {
    SameReq(s.req, t.req) && SameResp(s.resp, t.resp) && s.isComplete == t.isComplete
  }

  ghost predicate SameManager<D>(m: Manager<D>, n: Manager<D>) {
    && m.decoderIn == n.decoderIn && m.decoderOut == n.decoderOut && m.streams.Keys == n.streams.Keys
    && forall id :: id in m.streams ==> SameStream(m.streams[id], n.streams[id])
  }

  lemma {:induction false} SameBytesAppend(a: seq<seq<Byte>>, b: seq<seq<Byte>>, f: seq<Byte>)
    requires SameBytes(a, b)
    ensures Flatten(a) == Flatten(b) && SameBytes(a + [f], b + [f]) && (a == [] <==> b == [])
  {
    assert a != [] ==> Packed(a)[0] == Flatten(a);
    assert b != [] ==> Packed(b)[0] == Flatten(b);
    FlattenConcat(a, [f]);
    FlattenConcat(b, [f]);
  }

  lemma {:induction false} PackedSplit(a: seq<seq<Byte>>, f0: seq<Byte>, f1: seq<Byte>)
    ensures Packed(a + [f0] + [f1]) == Packed(a + [f0 + f1]) && Flatten(a + [f0] + [f1]) == Flatten(a + [f0 + f1])
  {
    FlattenConcat(a + [f0], [f1]);
    FlattenConcat(a, [f0]);
    FlattenConcat(a, [f0 + f1]);
    assert Flatten([f0]) == f0 && Flatten([f1]) == f1 && Flatten([f0 + f1]) == f0 + f1;
    assert Flatten(a) + (f0 + f1) == (Flatten(a) + f0) + f1;
  }

  // ---- Packing is a bisimulation ----

  lemma {:induction false} ReqBlockSame<D>(env: Env<D>, r: ReqSide, q: ReqSide, dec: D)
    requires SameReq(r, q)
    ensures var o, o' := ReqBlock(env, r, dec), ReqBlock(env, q, dec);
            SameReq(o.side, o'.side) && o.decoder == o'.decoder && o.err == o'.err && !o.ended && !o'.ended
  {
    SameBytesAppend(r.frags, q.frags, []);
  }

  lemma {:induction false} EndReqSame<D>(env: Env<D>, r: ReqSide, q: ReqSide)
    requires SameReq(r, q)
    ensures SameReq(EndReq(env, r), EndReq(env, q))
  {
    SameBytesAppend(r.data, q.data, []);
  }

  lemma {:induction false} ReqStepSame<D>(env: Env<D>, r: ReqSide, q: ReqSide, dec: D, p: Payload)
    requires SameReq(r, q)
    ensures var o, o' := ReqStep(env, r, dec, p), ReqStep(env, q, dec, p);
            SameReq(o.side, o'.side) && o.decoder == o'.decoder && o.ended == o'.ended
  {
    hide ReqBlock, EndReq, Packed, Flatten;
    if p.Headers? || p.Continuation? {
      SameBytesAppend(r.frags, q.frags, p.frag);
      var r', q' := r.(frags := r.frags + [p.frag]), q.(frags := q.frags + [p.frag]);
      ReqBlockSame(env, r', q', dec);
      EndReqSame(env, r', q');
      EndReqSame(env, ReqBlock(env, r', dec).side, ReqBlock(env, q', dec).side);
    } else if p.Data? {
      SameBytesAppend(r.data, q.data, p.data);
      EndReqSame(env, r.(data := r.data + [p.data]), q.(data := q.data + [p.data]));
    }
  }

  lemma {:induction false} RespBlockSame<D>(env: Env<D>, r: RespSide, q: RespSide, dec: D)
    requires SameResp(r, q)
    ensures var o, o' := RespBlock(env, r, dec), RespBlock(env, q, dec);
            SameResp(o.side, o'.side) && o.decoder == o'.decoder && o.err == o'.err && !o.ended && !o'.ended
  {
    SameBytesAppend(r.frags, q.frags, []);
  }

  lemma {:induction false} EndRespSame<D>(env: Env<D>, r: RespSide, q: RespSide)
    requires SameResp(r, q)
    ensures SameResp(EndResp(env, r), EndResp(env, q))
    ensures SameResp(EndResp(env, PromoteTrailers(r)), EndResp(env, PromoteTrailers(q)))
  {
    SameBytesAppend(r.data, q.data, []);
  }

  lemma {:induction false} RespStepSame<D>(env: Env<D>, r: RespSide, q: RespSide, dec: D, p: Payload)
    requires SameResp(r, q)
    ensures var o, o' := RespStep(env, r, dec, p), RespStep(env, q, dec, p);
            SameResp(o.side, o'.side) && o.decoder == o'.decoder && o.ended == o'.ended
  {
    hide RespBlock, EndResp, PromoteTrailers, Packed, Flatten;
    if p.Headers? || p.Continuation? {
      SameBytesAppend(r.frags, q.frags, p.frag);
      var r', q' := r.(frags := r.frags + [p.frag]), q.(frags := q.frags + [p.frag]);
      RespBlockSame(env, r', q', dec);
      EndRespSame(env, r', q');
      EndRespSame(env, RespBlock(env, r', dec).side, RespBlock(env, q', dec).side);
    } else if p.Data? {
      SameBytesAppend(r.data, q.data, p.data);
      EndRespSame(env, r.(data := r.data + [p.data]), q.(data := q.data + [p.data]));
    }
  }

  lemma {:induction false} StreamStepSame<D>(env: Env<D>, s: StreamState, t: StreamState, dec: D, x: Event, y: Event)
    requires SameStream(s, t) && y == x.(time := y.time)
    ensures SameStream(StreamStep(env, s, dec, x).0, StreamStep(env, t, dec, y).0)
    ensures StreamStep(env, s, dec, x).1 == StreamStep(env, t, dec, y).1
  {
    if x.outgoing {
      RespStepSame(env, s.resp, t.resp, dec, x.payload);
    } else {
      ReqStepSame(env, s.req, t.req, dec, x.payload);
    }
  }

  /** Frames that differ only in their time keep managers the same. */
  lemma {:induction false} HandleSame<D>(env: Env<D>, m: Manager<D>, n: Manager<D>, x: Event, y: Event)
    requires SameManager(m, n) && y == x.(time := y.time)
    ensures SameManager(Handle(env, m, x).0, Handle(env, n, y).0)
  {
    hide StreamStep, SameReq, SameResp, ApplySettings;
    var s := if x.streamId in m.streams then m.streams[x.streamId] else NewStream(x.outgoing);
    var t := if x.streamId in n.streams then n.streams[x.streamId] else NewStream(x.outgoing);
    StreamStepSame(env, s, t, m.Decoder(x.outgoing), x, y);
  }

  lemma {:induction false} RunSame<D>(env: Env<D>, m: Manager<D>, n: Manager<D>, evs: seq<Event>)
    requires SameManager(m, n)
    ensures SameManager(Run(env, m, evs), Run(env, n, evs))
    decreases evs
  {
    if evs != [] {
      HandleSame(env, m, n, evs[0], evs[0]);
      RunSame(env, Handle(env, m, evs[0]).0, Handle(env, n, evs[0]).0, evs[1..]);
    }
  }

  // ---- Cutting a frame in two ----

  /** `p` cut into `p1` and `p2`; a block that ends the stream is not cut. */
  predicate Splits(p: Payload, p1: Payload, p2: Payload) {
    match p
    case Headers(f, endHeaders, endStream) =>
      && !endStream && p1.Headers? && p2.Continuation? && f == p1.frag + p2.frag
      && !p1.endHeaders && !p1.endStream && p2.endHeaders == endHeaders
    case Continuation(f, endHeaders) =>
      p1.Continuation? && p2.Continuation? && f == p1.frag + p2.frag && !p1.endHeaders && p2.endHeaders == endHeaders
    case Data(d, endStream) =>
      p1.Data? && p2.Data? && d == p1.data + p2.data && !p1.endStream && p2.endStream == endStream
    case _ => false
  }

  lemma {:induction false} ReqSplit<D>(env: Env<D>, r: ReqSide, dec: D, p: Payload, p1: Payload, p2: Payload)
    requires Splits(p, p1, p2)
    ensures var o, o1 := ReqStep(env, r, dec, p), ReqStep(env, r, dec, p1);
            var o2 := ReqStep(env, o1.side, o1.decoder, p2);
            !o1.ended && SameReq(o2.side, o.side) && o2.decoder == o.decoder && o2.ended == o.ended
  {
    hide ReqBlock, EndReq, Packed, Flatten;
    if p.Data? {
      PackedSplit(r.data, p1.data, p2.data);
      EndReqSame(env, r.(data := r.data + [p1.data] + [p2.data]), r.(data := r.data + [p.data]));
    } else {
      PackedSplit(r.frags, p1.frag, p2.frag);
      ReqBlockSame(env, r.(frags := r.frags + [p1.frag] + [p2.frag]), r.(frags := r.frags + [p.frag]), dec);
    }
  }

  lemma {:induction false} RespSplit<D>(env: Env<D>, r: RespSide, dec: D, p: Payload, p1: Payload, p2: Payload)
    requires Splits(p, p1, p2)
    ensures var o, o1 := RespStep(env, r, dec, p), RespStep(env, r, dec, p1);
            var o2 := RespStep(env, o1.side, o1.decoder, p2);
            !o1.ended && SameResp(o2.side, o.side) && o2.decoder == o.decoder && o2.ended == o.ended
  {
    hide RespBlock, EndResp, Packed, Flatten;
    if p.Data? {
      PackedSplit(r.data, p1.data, p2.data);
      EndRespSame(env, r.(data := r.data + [p1.data] + [p2.data]), r.(data := r.data + [p.data]));
    } else {
      PackedSplit(r.frags, p1.frag, p2.frag);
      RespBlockSame(env, r.(frags := r.frags + [p1.frag] + [p2.frag]), r.(frags := r.frags + [p.frag]), dec);
    }
  }

  predicate SameLane(x: Event, y: Event) { x.streamId == y.streamId != 0 && x.outgoing == y.outgoing }

  lemma {:induction false} SplitHandled<D>(env: Env<D>, m: Manager<D>, ev: Event, e1: Event, e2: Event)
    requires SameLane(ev, e1) && SameLane(ev, e2) && Splits(ev.payload, e1.payload, e2.payload)
    ensures SameManager(Handle(env, Handle(env, m, e1).0, e2).0, Handle(env, m, ev).0)
  {
    hide ReqStep, RespStep, Packed, ApplySettings;
    var s := if ev.streamId in m.streams then m.streams[ev.streamId] else NewStream(ev.outgoing);
    if ev.outgoing {
      RespSplit(env, s.resp, m.decoderOut, ev.payload, e1.payload, e2.payload);
    } else {
      ReqSplit(env, s.req, m.decoderIn, ev.payload, e1.payload, e2.payload);
    }
  }

  // ---- Cutting a frame into any number of pieces, inside any run ----

  /** `pieces` carry `ev` in order: HEADERS then CONTINUATIONs, or DATA frames, with the end flag on the last. */
  ghost predicate Fragments(ev: Event, pieces: seq<Event>)
    decreases |pieces|
  {
    pieces != [] && SameLane(ev, pieces[0]) &&
    if |pieces| == 1 then pieces[0].payload == ev.payload
    else
      exists rest: Event ::
        SameLane(ev, rest) && Splits(ev.payload, pieces[0].payload, rest.payload) && Fragments(rest, pieces[1..])
  }

  lemma {:induction false} FragmentsHandled<D>(env: Env<D>, m: Manager<D>, ev: Event, pieces: seq<Event>)
    requires Fragments(ev, pieces)
    ensures SameManager(Run(env, m, pieces), Handle(env, m, ev).0)
    decreases |pieces|
  {
    var m1 := Handle(env, m, pieces[0]).0;
    if |pieces| == 1 {
      assert Run(env, m, pieces) == m1;
      HandleSame(env, m, m, pieces[0], ev);
    } else {
      var rest: Event :| SameLane(ev, rest) && Splits(ev.payload, pieces[0].payload, rest.payload)
          && Fragments(rest, pieces[1..]);
      FragmentsHandled(env, m1, rest, pieces[1..]);
      SplitHandled(env, m, ev, pieces[0], rest);
      SameTransitive(Run(env, m, pieces), Handle(env, m1, rest).0, Handle(env, m, ev).0);
    }
  }

  lemma {:induction false} SameTransitive<D>(a: Manager<D>, b: Manager<D>, c: Manager<D>)
    requires SameManager(a, b) && SameManager(b, c)
    ensures SameManager(a, c)
  {
  }

  /** In any run, cutting one frame into pieces leaves every request, response and completion flag the same. */
  lemma {:induction false} FragmentationInvisible<D>(env: Env<D>, m: Manager<D>, pre: seq<Event>, ev: Event,
                                                     pieces: seq<Event>, post: seq<Event>)
    requires Fragments(ev, pieces)
    ensures var whole, cut := Run(env, m, pre + [ev] + post), Run(env, m, pre + pieces + post);
            && whole.streams.Keys == cut.streams.Keys
            && forall id :: id in whole.streams ==>
                 && whole.streams[id].req.msg == cut.streams[id].req.msg
                 && whole.streams[id].resp.msg == cut.streams[id].resp.msg
                 && whole.streams[id].isComplete == cut.streams[id].isComplete
  {
    var m0 := Run(env, m, pre);
    RunConcat(env, m, pre + [ev], post);
    RunConcat(env, m, pre, [ev]);
    RunConcat(env, m, pre + pieces, post);
    RunConcat(env, m, pre, pieces);
    assert Run(env, m0, [ev]) == Handle(env, m0, ev).0;
    FragmentsHandled(env, m0, ev, pieces);
    RunSame(env, Run(env, m0, pieces), Handle(env, m0, ev).0, post);
    forall id | id in Run(env, m, pre + [ev] + post).streams
      ensures SameStream(Run(env, m, pre + pieces + post).streams[id], Run(env, m, pre + [ev] + post).streams[id])
    {
    }
  }

  // ---- Pieces with other frames between them ----

  /** A piece that neither ends its header block nor its stream. */
  predicate Unfinished(ev: Event) {
    match ev.payload
    case Headers(_, endHeaders, endStream) => !endHeaders && !endStream
    case Continuation(_, endHeaders) => !endHeaders
    case Data(_, endStream) => !endStream
    case _ => false
  }

  predicate InLane(lane: Event, ev: Event) { ev.streamId == lane.streamId && ev.outgoing == lane.outgoing }

  /** What an unfinished piece does to a stream: it only lengthens a buffer. */
  lemma {:induction false} UnfinishedStep<D>(env: Env<D>, s: StreamState, dec: D, other: D, ev: Event)
    requires Unfinished(ev)
    ensures StreamStep(env, s, other, ev).0 == StreamStep(env, s, dec, ev).0
    ensures var (s', dec', err) := StreamStep(env, s, dec, ev);
            && dec' == dec && !err && s'.isComplete == s.isComplete
            && (ev.outgoing ==>
                  && s'.req == s.req && s'.resp == RespStep(env, s.resp, dec, ev.payload).side
                  && (RespDone(s'.resp) <==> RespDone(s.resp)))
            && (!ev.outgoing ==>
                  && s'.resp == s.resp && s'.req == ReqStep(env, s.req, dec, ev.payload).side
                  && (ReqDone(s'.req) <==> ReqDone(s.req)))
  {
  }

  // ---- The two directions of one stream ----

  /**
   * A request frame and a response frame of one stream may be swapped: the stream is complete already or not to be
   * completed, or both or neither of them end their side, or the one that does finds the other side done before.
   */
  predicate Swappable<D>(env: Env<D>, s: StreamState, dq: D, dr: D, q: Payload, r: Payload) {
    var oq, or := ReqStep(env, s.req, dq, q), RespStep(env, s.resp, dr, r);
    || s.isComplete || !ReqDone(oq.side) || !RespDone(or.side) || oq.ended == or.ended
    || if oq.ended then RespDone(s.resp) else ReqDone(s.req)
  }

  lemma {:induction false} DoneIsKept<D>(env: Env<D>, s: StreamState, dq: D, dr: D, q: Payload, r: Payload)
    ensures ReqDone(s.req) ==> ReqDone(ReqStep(env, s.req, dq, q).side)
    ensures RespDone(s.resp) ==> RespDone(RespStep(env, s.resp, dr, r).side)
  {
  }

  /** The two orders on a stream; if it is new, they start it from different directions. */
  lemma {:induction false} StepsCommuteIff<D>(env: Env<D>, s: StreamState, t: StreamState, dq: D, dr: D, q: Event,
                                              r: Event)
    requires !q.outgoing && r.outgoing && t == s.(openedByServer := t.openedByServer)
    ensures var (s1, dq1, _) := StreamStep(env, s, dq, q);
            var (t1, dr1, _) := StreamStep(env, t, dr, r);
            var (s2, dr2, _) := StreamStep(env, s1, dr, r);
            var (t2, dq2, _) := StreamStep(env, t1, dq, q);
            && dq1 == dq2 && dr1 == dr2
            && (SameStream(s2, t2) <==> Swappable(env, s, dq, dr, q.payload, r.payload))
  {
    hide ReqStep, RespStep, Packed, ReqDone, RespDone;
    DoneIsKept(env, s, dq, dr, q.payload, r.payload);
  }

  ghost function Current<D>(m: Manager<D>, ev: Event): StreamState {
    if ev.streamId in m.streams then m.streams[ev.streamId] else NewStream(ev.outgoing)
  }

  lemma {:induction false} HandleStream<D>(env: Env<D>, m: Manager<D>, y: Event)
    requires y.streamId != 0
    ensures var (t, dec, _) := StreamStep(env, Current(m, y), m.Decoder(y.outgoing), y);
            Handle(env, m, y).0 == m.(streams := m.streams[y.streamId := t]).WithDecoder(y.outgoing, dec)
  {
    hide StreamStep;
  }

  /** Exactly then the two orders lead to the same manager, up to times, the direction first seen and cuts. */
  lemma {:induction false} DirectionsCommuteIff<D>(env: Env<D>, m: Manager<D>, q: Event, r: Event)
    requires q.streamId == r.streamId != 0 && !q.outgoing && r.outgoing
    ensures SameManager(Handle(env, Handle(env, m, q).0, r).0, Handle(env, Handle(env, m, r).0, q).0)
       <==> Swappable(env, Current(m, q), m.decoderIn, m.decoderOut, q.payload, r.payload)
  {
    hide Handle, StreamStep, Swappable, SameReq, SameResp;
    HandleStream(env, m, q);
    HandleStream(env, m, r);
    HandleStream(env, Handle(env, m, q).0, r);
    HandleStream(env, Handle(env, m, r).0, q);
    StepsCommuteIff(env, Current(m, q), Current(m, r), m.decoderIn, m.decoderOut, q, r);
    forall i | i in m.streams ensures SameStream(m.streams[i], m.streams[i]) { SameStreamReflexive(m.streams[i]); }
    var id, a, b := q.streamId, Handle(env, Handle(env, m, q).0, r).0, Handle(env, Handle(env, m, r).0, q).0;
    assert SameManager(a, b) <==> SameStream(a.streams[id], b.streams[id]);
  }

  lemma {:induction false} SameStreamReflexive(s: StreamState)
    ensures SameStream(s, s)
  {
  }

  lemma {:induction false} SameSymmetric<D>(m: Manager<D>, n: Manager<D>)
    requires SameManager(m, n)
    ensures SameManager(n, m)
  {
  }

  lemma {:induction false} SwapInStream<D>(env: Env<D>, m: Manager<D>, x: Event, y: Event)
    requires x.streamId == y.streamId != 0 && Unfinished(x) && x.outgoing != y.outgoing
    ensures SameManager(Handle(env, Handle(env, m, x).0, y).0, Handle(env, Handle(env, m, y).0, x).0)
  {
    hide Handle, SameManager;
    if x.outgoing {
      DirectionsCommuteIff(env, m, y, x);
      SameSymmetric(Handle(env, Handle(env, m, y).0, x).0, Handle(env, Handle(env, m, x).0, y).0);
    } else {
      DirectionsCommuteIff(env, m, x, y);
    }
  }

  /** An unfinished piece changes its own stream and nothing else, whatever the decoder holds. */
  lemma {:induction false} HandleUnfinished<D>(env: Env<D>, m: Manager<D>, x: Event, dec: D)
    requires x.streamId != 0 && Unfinished(x)
    ensures Handle(env, m, x).0 == m.(streams := m.streams[x.streamId := StreamStep(env, Current(m, x), dec, x).0])
  {
    hide StreamStep, Unfinished;
    UnfinishedStep(env, Current(m, x), m.Decoder(x.outgoing), dec, x);
  }

  /** A frame does not touch, nor depend on, another stream. */
  lemma {:induction false} OtherStreamKept<D>(env: Env<D>, m: Manager<D>, id: nat, s: StreamState, y: Event)
    requires id != y.streamId
    ensures var my := Handle(env, m, y).0;
            && Handle(env, m.(streams := m.streams[id := s]), y).0 == my.(streams := my.streams[id := s])
            && (id in my.streams <==> id in m.streams) && (id in m.streams ==> my.streams[id] == m.streams[id])
  {
    hide StreamStep, ApplySettings;
    var m' := m.(streams := m.streams[id := s]);
    var a, b := Handle(env, m', y).0, Handle(env, m, y).0;
    assert a.streams == b.streams[id := s];
  }

  lemma {:induction false} SwapAcrossStreams<D>(env: Env<D>, m: Manager<D>, x: Event, y: Event)
    requires x.streamId != 0 && x.streamId != y.streamId && Unfinished(x)
    ensures SameManager(Handle(env, Handle(env, m, x).0, y).0, Handle(env, Handle(env, m, y).0, x).0)
  {
    hide Handle, StreamStep, SameManager, Unfinished;
    var dec, my := m.decoderIn, Handle(env, m, y).0;
    HandleUnfinished(env, m, x, dec);
    HandleUnfinished(env, my, x, dec);
    OtherStreamKept(env, m, x.streamId, StreamStep(env, Current(m, x), dec, x).0, y);
    SameReflexive(Handle(env, my, x).0);
  }

  /** An unfinished piece may be swapped with any frame of another stream or of the other direction. */
  lemma {:induction false} UnfinishedCommutes<D>(env: Env<D>, m: Manager<D>, x: Event, y: Event)
    requires x.streamId != 0 && Unfinished(x) && !InLane(x, y)
    ensures SameManager(Handle(env, Handle(env, m, x).0, y).0, Handle(env, Handle(env, m, y).0, x).0)
  {
    hide Handle, SameManager, Unfinished;
    if y.streamId == x.streamId {
      SwapInStream(env, m, x, y);
    } else {
      SwapAcrossStreams(env, m, x, y);
    }
  }

  /** So it may be moved behind any run of them. */
  lemma {:induction false} MoveBack<D>(env: Env<D>, m: Manager<D>, x: Event, mid: seq<Event>)
    requires x.streamId != 0 && Unfinished(x) && forall i :: 0 <= i < |mid| ==> !InLane(x, mid[i])
    ensures SameManager(Run(env, Handle(env, m, x).0, mid), Handle(env, Run(env, m, mid), x).0)
    decreases mid
  {
    if mid == [] {
      SameReflexive(Handle(env, m, x).0);
    } else {
      hide Handle, SameManager, Unfinished;
      var y, rest := mid[0], mid[1..];
      var xy, yx := Handle(env, Handle(env, m, x).0, y).0, Handle(env, Handle(env, m, y).0, x).0;
      UnfinishedCommutes(env, m, x, y);
      RunSame(env, xy, yx, rest);
      MoveBack(env, Handle(env, m, y).0, x, rest);
      SameTransitive(Run(env, xy, rest), Run(env, yx, rest), Handle(env, Run(env, m, mid), x).0);
    }
  }

  lemma {:induction false} SameReflexive<D>(m: Manager<D>)
    ensures SameManager(m, m)
  {
  }

  /** The frames of a lane in a run, and the others. */
  function Lane(lane: Event, evs: seq<Event>): seq<Event> {
    if evs == [] then [] else (if InLane(lane, evs[0]) then [evs[0]] else []) + Lane(lane, evs[1..])
  }

  function Others(lane: Event, evs: seq<Event>): seq<Event> {
    if evs == [] then [] else (if InLane(lane, evs[0]) then [] else [evs[0]]) + Others(lane, evs[1..])
  }

  lemma {:induction false} OthersAreOutside(lane: Event, evs: seq<Event>)
    ensures forall i :: 0 <= i < |Others(lane, evs)| ==> !InLane(lane, Others(lane, evs)[i])
  {
    if evs != [] { OthersAreOutside(lane, evs[1..]); }
  }

  /** Every frame of the lane but the last of the run is an unfinished piece. */
  ghost predicate UnfinishedBut(lane: Event, evs: seq<Event>) {
    forall i :: 0 <= i < |evs| - 1 && InLane(lane, evs[i]) ==> Unfinished(evs[i])
  }

  /** The frames of a lane may be gathered at the end of the run. */
  lemma {:induction false} Gather<D>(env: Env<D>, m: Manager<D>, lane: Event, evs: seq<Event>)
    requires lane.streamId != 0 && UnfinishedBut(lane, evs)
    ensures SameManager(Run(env, m, evs), Run(env, m, Others(lane, evs) + Lane(lane, evs)))
    decreases evs
  {
    if evs == [] {
      SameReflexive(m);
    } else {
      hide Handle, SameManager, Unfinished;
      var y, rest := evs[0], evs[1..];
      var others, pieces := Others(lane, rest), Lane(lane, rest);
      var m1 := Handle(env, m, y).0;
      assert forall i :: 0 <= i < |rest| ==> rest[i] == evs[i + 1];
      Gather(env, m1, lane, rest);
      GatherShape(lane, evs);
      if InLane(lane, y) {
        GatherOne(env, m, y, rest, others, pieces, lane);
        SameTransitive(Run(env, m, evs), Run(env, m1, others + pieces), Run(env, m, others + ([y] + pieces)));
      } else {
        RunCons(env, m, y, others + pieces);
      }
    }
  }

  lemma {:induction false} RunCons<D>(env: Env<D>, m: Manager<D>, y: Event, evs: seq<Event>)
    ensures Run(env, m, [y] + evs) == Run(env, Handle(env, m, y).0, evs)
  {
    hide Handle;
    assert ([y] + evs)[0] == y && ([y] + evs)[1..] == evs;
  }

  lemma {:induction false} GatherShape(lane: Event, evs: seq<Event>)
    requires evs != []
    ensures var y, others, pieces := evs[0], Others(lane, evs[1..]), Lane(lane, evs[1..]);
            Others(lane, evs) + Lane(lane, evs)
            == if InLane(lane, y) then others + ([y] + pieces) else [y] + (others + pieces)
  {
  }

  lemma {:induction false} GatherOne<D>(env: Env<D>, m: Manager<D>, y: Event, rest: seq<Event>, others: seq<Event>,
                                        pieces: seq<Event>, lane: Event)
    requires y.streamId != 0 && InLane(lane, y) && (rest != [] ==> Unfinished(y))
    requires others == Others(lane, rest) && pieces == Lane(lane, rest)
    ensures SameManager(Run(env, Handle(env, m, y).0, others + pieces), Run(env, m, others + ([y] + pieces)))
  {
    hide Handle, SameManager, Unfinished;
    var m1 := Handle(env, m, y).0;
    if rest == [] {
      assert others + ([y] + pieces) == [y] && others + pieces == [];
      SameReflexive(m1);
    } else {
      OthersAreOutside(lane, rest);
      MoveBack(env, m, y, others);
      RunConcat(env, m1, others, pieces);
      RunConcat(env, m, others, [y] + pieces);
      RunCons(env, Run(env, m, others), y, pieces);
      RunSame(env, Run(env, m1, others), Handle(env, Run(env, m, others), y).0, pieces);
    }
  }

  lemma {:induction false} FragmentsUnfinished(ev: Event, pieces: seq<Event>, i: nat)
    requires Fragments(ev, pieces) && i < |pieces| - 1
    ensures Unfinished(pieces[i])
    decreases |pieces|
  {
    var rest: Event :| SameLane(ev, rest) && Splits(ev.payload, pieces[0].payload, rest.payload)
        && Fragments(rest, pieces[1..]);
    if i > 0 { FragmentsUnfinished(rest, pieces[1..], i - 1); }
  }

  lemma {:induction false} LaneEndsRun(lane: Event, evs: seq<Event>, i: nat) returns (j: nat)
    requires i < |evs| && InLane(lane, evs[i]) && InLane(lane, evs[|evs| - 1])
    ensures j < |Lane(lane, evs)| && Lane(lane, evs)[j] == evs[i]
    ensures i < |evs| - 1 ==> j < |Lane(lane, evs)| - 1
    decreases evs
  {
    var rest := evs[1..];
    if i == 0 {
      j := 0;
      if |evs| > 1 { var k := LaneEndsRun(lane, rest, |rest| - 1); }
    } else {
      var k := LaneEndsRun(lane, rest, i - 1);
      j := if InLane(lane, evs[0]) then k + 1 else k;
    }
  }

  /**
   * In any run, the pieces of a frame may be spread among frames of other streams and of the other direction: every
   * request, response and completion flag is as if the whole frame had come where the last piece did.
   */
  lemma {:induction false} SpreadPiecesInvisible<D>(env: Env<D>, m: Manager<D>, pre: seq<Event>, ev: Event,
                                                    evs: seq<Event>, post: seq<Event>)
    requires evs != [] && InLane(ev, evs[|evs| - 1]) && Fragments(ev, Lane(ev, evs))
    ensures var whole, cut := Run(env, m, pre + Others(ev, evs) + [ev] + post), Run(env, m, pre + evs + post);
            && whole.streams.Keys == cut.streams.Keys
            && forall id :: id in whole.streams ==>
                 && whole.streams[id].req.msg == cut.streams[id].req.msg
                 && whole.streams[id].resp.msg == cut.streams[id].resp.msg
                 && whole.streams[id].isComplete == cut.streams[id].isComplete
  {
    var others, pieces := Others(ev, evs), Lane(ev, evs);
    forall i | 0 <= i < |evs| - 1 && InLane(ev, evs[i]) ensures Unfinished(evs[i]) {
      var j := LaneEndsRun(ev, evs, i);
      FragmentsUnfinished(ev, pieces, j);
    }
    assert SameManager(Run(env, m, pre + evs + post), Run(env, m, pre + others + [ev] + post)) by {
      hide Handle, SameManager;
      var m0 := Run(env, m, pre);
      var m1 := Run(env, m0, others);
      Gather(env, m0, ev, evs);
      RunConcat(env, m0, others, pieces);
      FragmentsHandled(env, m1, ev, pieces);
      SameTransitive(Run(env, m0, evs), Run(env, m1, pieces), Handle(env, m1, ev).0);
      RunSame(env, Run(env, m0, evs), Handle(env, m1, ev).0, post);
      RunConcat(env, m, pre + evs, post);
      RunConcat(env, m, pre, evs);
      RunConcat(env, m, pre + others + [ev], post);
      RunConcat(env, m, pre + others, [ev]);
      RunConcat(env, m, pre, others);
      assert Run(env, m1, [ev]) == Handle(env, m1, ev).0;
    }
    SameMessages(Run(env, m, pre + evs + post), Run(env, m, pre + others + [ev] + post));
  }

  lemma {:induction false} SameMessages<D>(cut: Manager<D>, whole: Manager<D>)
    requires SameManager(cut, whole)
    ensures whole.streams.Keys == cut.streams.Keys
    ensures forall id :: id in whole.streams ==>
              && whole.streams[id].req.msg == cut.streams[id].req.msg
              && whole.streams[id].resp.msg == cut.streams[id].resp.msg
              && whole.streams[id].isComplete == cut.streams[id].isComplete
  {
  }

  // ---- A header block that also ends the stream ----

  ghost function Block(s: StreamState, outgoing: bool, f0: seq<Byte>, f1: seq<Byte>): seq<Byte> {
    Flatten((if outgoing then s.resp.frags else s.req.frags) + [f0 + f1])
  }

  /**
   * Cut in two, a response block with END_STREAM keeps its effect exactly when it decodes and is not the first block.
   */
  lemma {:induction false} SplitEndOfResponseIff<D>(env: Env<D>, s: StreamState, dec: D, id: nat, f0: seq<Byte>,
                                                    f1: seq<Byte>, t0: int, t1: int)
    requires StreamInv(s) && !s.resp.endStream
    ensures var (whole, _, _) := StreamStep(env, s, dec, Event(id, Headers(f0 + f1, true, true), true, t0));
            var (first, dec1, _) := StreamStep(env, s, dec, Event(id, Headers(f0, false, true), true, t0));
            var (cut, _, _) := StreamStep(env, first, dec1, Event(id, Continuation(f1, true), true, t1));
            SameStream(whole, cut) <==> env.decode(dec, Block(s, true, f0, f1)).1.Some? && s.resp.headersReceived
  {
    hide RespStep, Packed;
    CutEndOfResponse(env, s, dec, f0, f1);
  }

  lemma {:induction false} CutEndOfResponse<D>(env: Env<D>, s: StreamState, dec: D, f0: seq<Byte>, f1: seq<Byte>)
    requires RespInv(s.resp) && !s.resp.endStream
    ensures var whole := RespStep(env, s.resp, dec, Headers(f0 + f1, true, true));
            var first := RespStep(env, s.resp, dec, Headers(f0, false, true));
            var cut := RespStep(env, first.side, first.decoder, Continuation(f1, true));
            var kept := env.decode(dec, Block(s, true, f0, f1)).1.Some? && s.resp.headersReceived;
            && (SameResp(whole.side, cut.side) <==> kept) && first.ended && !cut.ended
            && (kept ==> whole.ended && RespDone(whole.side) && RespDone(first.side))
  {
    PackedSplit(s.resp.frags, f0, f1);
  }

  /**
   * The same for a request: the block must decode, and either not be the first or not be awaited by a finished
   * response.
   */
  lemma {:induction false} SplitEndOfRequestIff<D>(env: Env<D>, s: StreamState, dec: D, id: nat, f0: seq<Byte>,
                                                   f1: seq<Byte>, t0: int, t1: int)
    requires StreamInv(s) && !s.req.endStream
    ensures var (whole, _, _) := StreamStep(env, s, dec, Event(id, Headers(f0 + f1, true, true), false, t0));
            var (first, dec1, _) := StreamStep(env, s, dec, Event(id, Headers(f0, false, true), false, t0));
            var (cut, _, _) := StreamStep(env, first, dec1, Event(id, Continuation(f1, true), false, t1));
            SameStream(whole, cut) <==>
            env.decode(dec, Block(s, false, f0, f1)).1.Some? && (s.req.headersReceived || !RespDone(s.resp))
  {
    PackedSplit(s.req.frags, f0, f1);
  }

  /** A trailers-only response sent in two pieces: the stream never completes, whatever the client still sends. */
  lemma {:induction false} CutTrailersOnlyNeverCompletes<D>(env: Env<D>, m: Manager<D>, id: nat, f0: seq<Byte>,
                                                            f1: seq<Byte>, t0: int, t1: int, post: seq<Event>)
    requires id != 0 && (id in m.streams ==> StreamInv(m.streams[id]) && !m.streams[id].resp.headersReceived)
    requires forall i :: 0 <= i < |post| ==> post[i].streamId != id || !post[i].outgoing
    ensures var cut := [Event(id, Headers(f0, false, true), true, t0), Event(id, Continuation(f1, true), true, t1)];
            var m' := Run(env, m, cut + post);
            id in m'.streams && !m'.streams[id].isComplete
  {
    var e0, e1 := Event(id, Headers(f0, false, true), true, t0), Event(id, Continuation(f1, true), true, t1);
    var m1 := Handle(env, m, e0).0;
    var m2 := Handle(env, m1, e1).0;
    assert !m1.streams[id].resp.trailersReceived && !m1.streams[id].resp.headersReceived && !m1.streams[id].isComplete;
    assert !m2.streams[id].resp.trailersReceived && !m2.streams[id].isComplete;
    RunConcat(env, m, [e0, e1], post);
    assert [e0, e1][1..] == [e1] && Run(env, m1, [e1]) == m2;
    StaysIncomplete(env, m2, id, post);
  }

  lemma {:induction false} StaysIncomplete<D>(env: Env<D>, m: Manager<D>, id: nat, post: seq<Event>)
    requires id in m.streams && !m.streams[id].resp.trailersReceived && !m.streams[id].isComplete
    requires forall i :: 0 <= i < |post| ==> post[i].streamId != id || !post[i].outgoing
    ensures id in Run(env, m, post).streams && !Run(env, m, post).streams[id].isComplete
    decreases post
  {
    if post != [] {
      StaysIncomplete(env, Handle(env, m, post[0]).0, id, post[1..]);
    }
  }
}

/** The times reported with an exchange, and the exchange reported, in terms of the frames of a run. */
module Http2Times {
  import opened Text
  import opened Http2
  import opened Http2Completion

  /** The time of the first request frame of a stream. */
  function FirstRequest(id: nat, evs: seq<Event>): Option<int> {
    if evs == [] then None
    else if evs[0].streamId == id && !evs[0].outgoing then Some(evs[0].time)
    else FirstRequest(id, evs[1..])
  }

  /** The time of the last response frame of a stream that carried END_STREAM and was accepted. */
  function LastEnd<D>(env: Env<D>, m: Manager<D>, id: nat, evs: seq<Event>): Option<int> {
    if evs == [] then None
    else
      var before, ev := evs[..|evs| - 1], evs[|evs| - 1];
      if ev.streamId == id && ev.outgoing && CarriesEndStream(ev.payload) && !Handle(env, Run(env, m, before), ev).1
      then Some(ev.time)
      else LastEnd(env, m, id, before)
  }

  ghost predicate Timed(evs: seq<Event>) { forall i :: 0 <= i < |evs| ==> evs[i].time != 0 }

  function Or(t: Option<int>, otherwise: int): int { if t.Some? then t.value else otherwise }

  lemma {:induction false} FirstRequestSnoc(id: nat, evs: seq<Event>, ev: Event)
    ensures FirstRequest(id, evs + [ev])
         == var before := FirstRequest(id, evs);
            if before.Some? then before else if ev.streamId == id && !ev.outgoing then Some(ev.time) else None
    decreases evs
  {
    if evs == [] {
      assert evs + [ev] == [ev] && [ev][1..] == [];
    } else {
      assert (evs + [ev])[0] == evs[0] && (evs + [ev])[1..] == evs[1..] + [ev];
      FirstRequestSnoc(id, evs[1..], ev);
    }
  }

  lemma {:induction false} FirstRequestTimed(id: nat, evs: seq<Event>)
    requires Timed(evs)
    ensures FirstRequest(id, evs) != Some(0)
  {
    if evs != [] {
      assert forall i :: 0 <= i < |evs[1..]| ==> evs[1..][i] == evs[i + 1];
      FirstRequestTimed(id, evs[1..]);
    }
  }

  /** What one frame of a stream does to its times. */
  lemma {:induction false} StepTimes<D>(env: Env<D>, s: StreamState, dec: D, ev: Event)
    ensures var (s', _, err) := StreamStep(env, s, dec, ev);
            && s'.startTime == (if !ev.outgoing && s.startTime == 0 then ev.time else s.startTime)
            && s'.endTime == (if ev.outgoing && CarriesEndStream(ev.payload) && !err then ev.time else s.endTime)
            && (s'.req.endStream ==> s.req.endStream || !ev.outgoing)
            && (s'.resp.endStream <==> s.resp.endStream || (ev.outgoing && CarriesEndStream(ev.payload) && !err))
  {
    hide ReqStep, RespStep;
    if ev.outgoing {
      RespFlags(env, s.resp, dec, ev.payload);
    } else {
      ReqFlags(env, s.req, dec, ev.payload);
    }
  }

  /** Along any run, a stream's start is the time of its first request frame, and its end that of its last end. */
  lemma {:induction false} StreamTimes<D>(env: Env<D>, m: Manager<D>, id: nat, evs: seq<Event>)
    requires id != 0 && id !in m.streams && Timed(evs)
    ensures var n := Run(env, m, evs);
            if id in n.streams then
              && n.streams[id].startTime == Or(FirstRequest(id, evs), 0)
              && n.streams[id].endTime == Or(LastEnd(env, m, id, evs), 0)
              && (n.streams[id].req.endStream ==> FirstRequest(id, evs).Some?)
              && (n.streams[id].resp.endStream <==> LastEnd(env, m, id, evs).Some?)
            else FirstRequest(id, evs).None? && LastEnd(env, m, id, evs).None?
    decreases |evs|
  {
    if evs != [] {
      var before, ev := evs[..|evs| - 1], evs[|evs| - 1];
      assert evs == before + [ev];
      assert forall i :: 0 <= i < |before| ==> before[i] == evs[i];
      StreamTimes(env, m, id, before);
      RunConcat(env, m, before, [ev]);
      var m1 := Run(env, m, before);
      assert Run(env, m1, [ev]) == Handle(env, m1, ev).0;
      FirstRequestSnoc(id, before, ev);
      FirstRequestTimed(id, before);
      hide StreamStep, ApplySettings, Run, FirstRequest;
      if ev.streamId == id {
        var s := if id in m1.streams then m1.streams[id] else NewStream(ev.outgoing);
        StepTimes(env, s, m1.Decoder(ev.outgoing), ev);
      }
    }
  }

  /** A complete stream has had a request frame and an accepted end of its response. */
  lemma {:induction false} CompleteIsTimed<D>(env: Env<D>, m: Manager<D>, id: nat, evs: seq<Event>)
    requires id != 0 && id !in m.streams && Timed(evs) && ManagerInv(m)
    requires id in Run(env, m, evs).streams && Run(env, m, evs).streams[id].isComplete
    ensures FirstRequest(id, evs).Some? && LastEnd(env, m, id, evs).Some?
  {
    CompleteStreamsStaySound(env, m, evs);
    StreamTimes(env, m, id, evs);
  }

  /**
   * What `GetCompleteStreams` reports after any run, for a stream that began in it: the request carries the time of its
   * first frame, the response that of the last accepted frame with END_STREAM.
   */
  lemma {:induction false} ReportedTimes<D>(env: Env<D>, m: Manager<D>, evs: seq<Event>, c: CompletedStream)
    requires ManagerInv(m) && c.id != 0 && c.id !in m.streams && Timed(evs) && Reports(Run(env, m, evs).streams, c)
    ensures Some(c.req.timestamp) == FirstRequest(c.id, evs)
    ensures Some(c.resp.timestamp) == LastEnd(env, m, c.id, evs)
  {
    CompleteStreamsStaySound(env, m, evs);
    StreamTimes(env, m, c.id, evs);
    CompleteIsTimed(env, m, c.id, evs);
  }

  /** And for a well-formed exchange it carries the header blocks and the bodies that were sent, and nothing else. */
  lemma {:induction false} ReportedExchange<D>(env: Env<D>, m: Manager<D>, evs: seq<Event>, c: CompletedStream)
    requires ManagerInv(m) && c.id != 0 && c.id !in m.streams && Timed(evs) && Reports(Run(env, m, evs).streams, c)
    requires var p := Track(env, m, c.id, evs);
             !p.req.phase.Malformed? && !p.resp.phase.Malformed?
    ensures var p := Track(env, m, c.id, evs);
            && p.req.phase.Closed? && p.resp.phase.Closed? && p.req.blocks != [] && p.resp.blocks != []
            && c.req == GrpcReq(p.req.blocks[0], MessageOf(env, p.req.body), Or(FirstRequest(c.id, evs), 0))
            && c.resp == GrpcResp(p.resp.blocks[0], MessageOf(env, p.resp.body), p.resp.blocks[|p.resp.blocks| - 1],
                                  Or(LastEnd(env, m, c.id, evs), 0))
  {
    hide Run, Track, MessageOf;
    ExchangeCompletesWhenBothSidesClose(env, m, c.id, evs);
    ReportedTimes(env, m, evs, c);
  }
}

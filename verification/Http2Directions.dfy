/** The two directions of one stream may be interleaved too, unless a header block is closed after END_STREAM. */
module Http2Directions {
  import opened Http2
  import opened Http2Interleaving
  import opened Http2Fragmentation

  /** A frame that closes a header block and does not itself carry END_STREAM. */
  predicate Closes(p: Payload) { (p.Headers? && p.endHeaders && !p.endStream) || (p.Continuation? && p.endHeaders) }

  predicate Ended<D>(m: Manager<D>, id: nat, outgoing: bool) {
    id in m.streams && if outgoing then m.streams[id].resp.endStream else m.streams[id].req.endStream
  }

  /** In the frames of one direction, no header block is closed after END_STREAM. */
  predicate EndsCleanly(ended: bool, evs: seq<Event>)
    decreases evs
  {
    evs == [] ||
    (!(ended && Closes(evs[0].payload)) && EndsCleanly(ended || CarriesEndStream(evs[0].payload), evs[1..]))
  }

  ghost predicate CleanRun<D>(m: Manager<D>, evs: seq<Event>) {
    forall id, outgoing :: EndsCleanly(Ended(m, id, outgoing), Project(Direction(id, outgoing), evs))
  }

  lemma {:induction false} EndsCleanlyMonotone(evs: seq<Event>)
    requires EndsCleanly(true, evs)
    ensures EndsCleanly(false, evs)
  {
    if evs != [] && !CarriesEndStream(evs[0].payload) { EndsCleanlyMonotone(evs[1..]); }
  }

  lemma {:induction false} EndsCleanlyPrefix(ended: bool, xs: seq<Event>, ys: seq<Event>)
    requires EndsCleanly(ended, xs + ys)
    ensures EndsCleanly(ended, xs)
    decreases xs
  {
    if xs != [] {
      assert (xs + ys)[0] == xs[0] && (xs + ys)[1..] == xs[1..] + ys;
      EndsCleanlyPrefix(ended || CarriesEndStream(xs[0].payload), xs[1..], ys);
    }
  }

  lemma {:induction false} CleanPrefix<D>(m: Manager<D>, xs: seq<Event>, ys: seq<Event>)
    requires CleanRun(m, xs + ys)
    ensures CleanRun(m, xs)
  {
    hide Ended, EndsCleanly, Uses;
    forall id, outgoing ensures EndsCleanly(Ended(m, id, outgoing), Project(Direction(id, outgoing), xs)) {
      ProjectConcat(Direction(id, outgoing), xs, ys);
      var px, py := Project(Direction(id, outgoing), xs), Project(Direction(id, outgoing), ys);
      EndsCleanlyPrefix(Ended(m, id, outgoing), px, py);
    }
  }

  /** The frame does not close a block of a side that has ended. */
  predicate Clean<D>(m: Manager<D>, ev: Event) { !(Ended(m, ev.streamId, ev.outgoing) && Closes(ev.payload)) }

  /** A frame ends at most its own side, and only by END_STREAM. */
  lemma {:induction false} EndedAfter<D>(env: Env<D>, m: Manager<D>, ev: Event, id: nat, outgoing: bool)
    requires id != 0
    ensures var m' := Handle(env, m, ev).0;
            if Uses(ev, Direction(id, outgoing)) then
              Ended(m', id, outgoing) ==> Ended(m, id, outgoing) || CarriesEndStream(ev.payload)
            else Ended(m', id, outgoing) == Ended(m, id, outgoing)
  {
    hide StreamStep, ApplySettings;
    StepEnds(env, Current(m, ev), m.Decoder(ev.outgoing), ev);
  }

  lemma {:induction false} StepEnds<D>(env: Env<D>, s: StreamState, dec: D, ev: Event)
    ensures var s' := StreamStep(env, s, dec, ev).0;
            var ends := CarriesEndStream(ev.payload);
            if ev.outgoing then s'.req == s.req && (s'.resp.endStream ==> s.resp.endStream || ends)
            else s'.resp == s.resp && (s'.req.endStream ==> s.req.endStream || ends)
  {
  }

  lemma {:induction false} CleanHead<D>(env: Env<D>, m: Manager<D>, evs: seq<Event>)
    requires evs != [] && CleanRun(m, evs)
    ensures evs[0].streamId != 0 ==> Clean(m, evs[0])
    ensures CleanRun(Handle(env, m, evs[0]).0, evs[1..])
  {
    var ev, rest := evs[0], evs[1..];
    var m' := Handle(env, m, ev).0;
    var own := Direction(ev.streamId, ev.outgoing);
    assert EndsCleanly(Ended(m, own.id, own.outgoing), Project(own, evs));
    hide Handle, Ended;
    forall id, outgoing ensures EndsCleanly(Ended(m', id, outgoing), Project(Direction(id, outgoing), rest)) {
      var r := Direction(id, outgoing);
      assert EndsCleanly(Ended(m, id, outgoing), Project(r, evs));
      CleanLaneTail(env, m, evs, id, outgoing);
    }
  }

  lemma {:induction false} CleanLaneTail<D>(env: Env<D>, m: Manager<D>, evs: seq<Event>, id: nat, outgoing: bool)
    requires evs != [] && EndsCleanly(Ended(m, id, outgoing), Project(Direction(id, outgoing), evs))
    ensures EndsCleanly(Ended(Handle(env, m, evs[0]).0, id, outgoing), Project(Direction(id, outgoing), evs[1..]))
  {
    hide Handle, Ended;
    var r := Direction(id, outgoing);
    var tail := Project(r, evs[1..]);
    if id == 0 {
      NothingAtZero(outgoing, evs[1..]);
    } else {
      EndedAfter(env, m, evs[0], id, outgoing);
      if Uses(evs[0], r) {
        assert Project(r, evs)[1..] == tail;
        if EndsCleanly(true, tail) { EndsCleanlyMonotone(tail); }
      } else {
        assert Project(r, evs) == tail;
      }
    }
  }

  lemma {:induction false} NothingAtZero(outgoing: bool, evs: seq<Event>)
    ensures Project(Direction(0, outgoing), evs) == []
  {
    if evs != [] { NothingAtZero(outgoing, evs[1..]); }
  }

  /** A frame that is done with its side without ending it has closed a block after END_STREAM. */
  lemma {:induction false} CleanIsSwappable<D>(env: Env<D>, m: Manager<D>, q: Event, r: Event)
    requires q.streamId == r.streamId && !q.outgoing && r.outgoing && Clean(m, q) && Clean(m, r)
    ensures Swappable(env, Current(m, q), m.decoderIn, m.decoderOut, q.payload, r.payload)
  {
    var s := Current(m, q);
    ReqDoneByEnding(env, s.req, m.decoderIn, q.payload);
    RespDoneByEnding(env, s.resp, m.decoderOut, r.payload);
    hide ReqStep, RespStep;
  }

  lemma {:induction false} ReqDoneByEnding<D>(env: Env<D>, s: ReqSide, dec: D, p: Payload)
    requires !(s.endStream && Closes(p))
    ensures var o := ReqStep(env, s, dec, p);
            ReqDone(o.side) ==> o.ended || ReqDone(s)
  {
  }

  lemma {:induction false} RespDoneByEnding<D>(env: Env<D>, s: RespSide, dec: D, p: Payload)
    requires !(s.endStream && Closes(p))
    ensures var o := RespStep(env, s, dec, p);
            RespDone(o.side) ==> o.ended || RespDone(s)
  {
  }

  lemma {:induction false} CleanCommute<D>(env: Env<D>, m: Manager<D>, x: Event, y: Event)
    requires Independent(PerDirection, x, y)
    requires x.streamId != 0 ==> Clean(m, x)
    requires y.streamId != 0 ==> Clean(m, y)
    ensures SameManager(Handle(env, Handle(env, m, x).0, y).0, Handle(env, Handle(env, m, y).0, x).0)
  {
    hide Handle, SameManager, Clean, Swappable;
    if x.streamId == y.streamId != 0 {
      assert x.outgoing != y.outgoing by { assert Counts(PerDirection, Direction(x.streamId, x.outgoing)); }
      if x.outgoing {
        CleanIsSwappable(env, m, y, x);
        DirectionsCommuteIff(env, m, y, x);
        SameSymmetric(Handle(env, Handle(env, m, y).0, x).0, Handle(env, Handle(env, m, x).0, y).0);
      } else {
        CleanIsSwappable(env, m, x, y);
        DirectionsCommuteIff(env, m, x, y);
      }
    } else {
      forall r | Counts(PerStream, r) ensures !(Uses(x, r) && Uses(y, r)) {
        if r.Decoder? { assert Counts(PerDirection, r); }
      }
      IndependentCommute(env, m, x, y);
      SameReflexive(Handle(env, Handle(env, m, x).0, y).0);
    }
  }

  lemma {:induction false} CleanKept<D>(env: Env<D>, m: Manager<D>, x: Event, y: Event)
    requires Independent(PerDirection, x, y) && x.streamId != 0 && Clean(m, x)
    ensures Clean(Handle(env, m, y).0, x)
  {
    hide Handle, Ended;
    assert Counts(PerDirection, Direction(x.streamId, x.outgoing));
    EndedAfter(env, m, y, x.streamId, x.outgoing);
  }

  /** A frame moves to the front past frames it is independent of. */
  lemma {:induction false} CleanMoveToFront<D>(env: Env<D>, m: Manager<D>, u: seq<Event>, x: Event)
    requires CleanRun(m, u) && (x.streamId != 0 ==> Clean(m, x))
    requires forall y :: y in u ==> Independent(PerDirection, x, y)
    ensures SameManager(Run(env, Run(env, m, u), [x]), Run(env, Handle(env, m, x).0, u))
    decreases u
  {
    if u == [] {
      assert Run(env, m, [x]) == Handle(env, m, x).0;
      SameReflexive(Handle(env, m, x).0);
    } else {
      hide Handle, SameManager, CleanRun, Clean, Independent;
      var y, rest := u[0], u[1..];
      var m1 := Handle(env, m, y).0;
      CleanHead(env, m, u);
      if x.streamId != 0 { CleanKept(env, m, x, y); }
      CleanMoveToFront(env, m1, rest, x);
      CleanCommute(env, m, x, y);
      var xy, yx := Handle(env, Handle(env, m, x).0, y).0, Handle(env, m1, x).0;
      RunSame(env, xy, yx, rest);
      SameSymmetric(Run(env, xy, rest), Run(env, yx, rest));
      SameTransitive(Run(env, Run(env, m, u), [x]), Run(env, yx, rest), Run(env, xy, rest));
    }
  }

  lemma {:induction false} CleanPulled<D>(env: Env<D>, m: Manager<D>, u: seq<Event>, x: Event, v: seq<Event>)
    requires CleanRun(m, u) && (x.streamId != 0 ==> Clean(m, x))
    requires forall y :: y in u ==> Independent(PerDirection, x, y)
    ensures SameManager(Run(env, m, u + [x] + v), Run(env, Handle(env, m, x).0, u + v))
  {
    hide Handle, SameManager, CleanRun, Clean, Independent;
    CleanMoveToFront(env, m, u, x);
    RunConcat(env, m, u + [x], v);
    RunConcat(env, m, u, [x]);
    RunConcat(env, Handle(env, m, x).0, u, v);
    RunSame(env, Run(env, Run(env, m, u), [x]), Run(env, Handle(env, m, x).0, u), v);
  }

  /**
   * Any two runs with the same frames per direction of each stream and per decoder, in which no header block is closed
   * after END_STREAM, lead to the same requests, responses and completion flags.
   */
  lemma {:induction false} DirectionsInterleave<D>(env: Env<D>, m: Manager<D>, xs: seq<Event>, ys: seq<Event>)
    requires SameProjections(PerDirection, xs, ys) && CleanRun(m, xs)
    ensures SameManager(Run(env, m, xs), Run(env, m, ys))
    decreases |xs| + |ys|
  {
    if xs == [] && ys == [] {
      SameReflexive(m);
    } else {
      hide Handle, SameManager, Clean, Independent;
      SameCleanRun(m, xs, ys);
      hide CleanRun;
      if xs == [] {
        IdleHead(PerDirection, env, m, xs, ys);
        DirectionsInterleave(env, m, xs, ys[1..]);
      } else if Idle(PerDirection, xs[0]) {
        IdleHead(PerDirection, env, m, ys, xs);
        SameProjectionsSymmetric(xs[1..], ys);
        SameCleanRun(m, ys, xs[1..]);
        DirectionsInterleave(env, m, xs[1..], ys);
      } else {
        var x := xs[0];
        var u, v := PullToFront(PerDirection, xs, ys);
        CleanHead(env, m, xs);
        assert u + [x] + v == u + ([x] + v);
        CleanPrefix(m, u, [x] + v);
        CleanPulled(env, m, u, x, v);
        var m1 := Handle(env, m, x).0;
        DirectionsInterleave(env, m1, xs[1..], u + v);
        SameSymmetric(Run(env, m, ys), Run(env, m1, u + v));
        SameTransitive(Run(env, m, xs), Run(env, m1, u + v), Run(env, m, ys));
      }
    }
  }

  lemma {:induction false} SameProjectionsSymmetric(xs: seq<Event>, ys: seq<Event>)
    requires SameProjections(PerDirection, ys, xs)
    ensures SameProjections(PerDirection, xs, ys)
  {
  }

  lemma {:induction false} SameCleanRun<D>(m: Manager<D>, xs: seq<Event>, ys: seq<Event>)
    requires SameProjections(PerDirection, xs, ys) && CleanRun(m, xs)
    ensures CleanRun(m, ys)
  {
    hide Ended, EndsCleanly;
    forall id, outgoing ensures EndsCleanly(Ended(m, id, outgoing), Project(Direction(id, outgoing), ys)) {
      assert Counts(PerDirection, Direction(id, outgoing));
      assert Project(Direction(id, outgoing), xs) == Project(Direction(id, outgoing), ys);
    }
  }

  /**
   * A request block that is closed after its END_STREAM: the exchange completes when the response follows it, and never
   * when the response comes between.
   */
  lemma {:induction false} LateBlockIsMissed<D>(env: Env<D>, m: Manager<D>, id: nat, f0: seq<Byte>, f1: seq<Byte>,
                                                g: seq<Byte>, t: int)
    requires id != 0 && id !in m.streams
    requires env.decode(m.decoderIn, f0 + f1).1.Some? && env.decode(m.decoderOut, g).1.Some?
    ensures var q0, q1 := Event(id, Headers(f0, false, true), false, t), Event(id, Continuation(f1, true), false, t);
            var r := Event(id, Headers(g, true, true), true, t);
            var last, between := Run(env, m, [q0, q1, r]), Run(env, m, [q0, r, q1]);
            && id in last.streams && last.streams[id].isComplete
            && id in between.streams && !between.streams[id].isComplete
            && SameProjections(PerDirection, [q0, q1, r], [q0, r, q1])
  {
    hide Handle, StreamStep, Uses;
    var q0, q1 := Event(id, Headers(f0, false, true), false, t), Event(id, Continuation(f1, true), false, t);
    var r := Event(id, Headers(g, true, true), true, t);
    var m0 := Handle(env, m, q0).0;
    LateSteps(env, id, m.decoderIn, m.decoderOut, f0, f1, g, t);
    HandleStream(env, m, q0);
    HandleStream(env, m0, q1);
    HandleStream(env, m0, r);
    HandleStream(env, Handle(env, m0, q1).0, r);
    HandleStream(env, Handle(env, m0, r).0, q1);
    RunThree(env, m, q0, q1, r);
    RunThree(env, m, q0, r, q1);
    forall p | Counts(PerDirection, p) ensures Project(p, [q0, q1, r]) == Project(p, [q0, r, q1]) {
      DirectionsShareNothing(p, q1, r);
      SwapInProjection(p, q0, q1, r);
    }
  }

  lemma {:induction false} RunThree<D>(env: Env<D>, m: Manager<D>, a: Event, b: Event, c: Event)
    ensures Run(env, m, [a, b, c]) == Handle(env, Handle(env, Handle(env, m, a).0, b).0, c).0
  {
    hide Handle;
    assert [a, b, c][1..] == [b, c] && [b, c][1..] == [c];
    var m2 := Handle(env, Handle(env, m, a).0, b).0;
    assert Run(env, m2, [c]) == Handle(env, m2, c).0;
  }

  lemma {:induction false} DirectionsShareNothing(p: Resource, x: Event, y: Event)
    requires Counts(PerDirection, p) && x.streamId == y.streamId != 0 && x.outgoing != y.outgoing
    ensures !(Uses(x, p) && Uses(y, p))
  {
  }

  lemma {:induction false} SwapInProjection(p: Resource, a: Event, b: Event, c: Event)
    requires Uses(b, p) ==> !Uses(c, p)
    ensures Project(p, [a, b, c]) == Project(p, [a, c, b])
  {
    hide Uses;
    assert [a, b, c] == [a] + ([b] + [c]) && [a, c, b] == [a] + ([c] + [b]);
    ProjectConcat(p, [a], [b] + [c]);
    ProjectConcat(p, [a], [c] + [b]);
    ProjectConcat(p, [b], [c]);
    ProjectConcat(p, [c], [b]);
    assert Project(p, [b]) == Kept(p, b) && Project(p, [c]) == Kept(p, c);
  }

  lemma {:induction false} LateSteps<D>(env: Env<D>, id: nat, dq: D, dr: D, f0: seq<Byte>, f1: seq<Byte>, g: seq<Byte>,
                                        t: int)
    requires env.decode(dq, f0 + f1).1.Some? && env.decode(dr, g).1.Some?
    ensures var q0, q1 := Event(id, Headers(f0, false, true), false, t), Event(id, Continuation(f1, true), false, t);
            var r := Event(id, Headers(g, true, true), true, t);
            var (s, d, _) := StreamStep(env, NewStream(false), dq, q0);
            && d == dq
            && StreamStep(env, StreamStep(env, s, dq, q1).0, dr, r).0.isComplete
            && !StreamStep(env, StreamStep(env, s, dr, r).0, dq, q1).0.isComplete
  {
    var none: seq<seq<Byte>> := [];
    assert none + [f0] + [f1] == [f0, f1] && none + [g] == [g];
    assert Flatten([f0, f1]) == f0 + f1 by { assert [f0, f1][1..] == [f1]; assert Flatten([f1]) == f1; }
    assert Flatten([g]) == g;
  }
}

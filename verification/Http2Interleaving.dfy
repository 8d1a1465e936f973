/** Frames of different streams may be interleaved in any way that keeps each decoder's own order. */
module Http2Interleaving {
  import opened Http2

  /** What a frame can depend on: a stream, one direction of a stream, or the HPACK decoder of a direction. */
  datatype Resource = Stream(id: nat) | Direction(id: nat, outgoing: bool) | Decoder(outgoing: bool)

  /** Whether a stream counts as one resource or as two, one for each direction. */
  datatype Grain = PerStream | PerDirection

  predicate Counts(g: Grain, r: Resource) { if g.PerStream? then !r.Direction? else !r.Stream? }

  /** Frames that end a header block advance their direction's decoder; SETTINGS resize the opposite one. */
  predicate Uses(ev: Event, r: Resource) {
    match r
    case Stream(id) => id != 0 && ev.streamId == id
    case Direction(id, outgoing) => id != 0 && ev.streamId == id && ev.outgoing == outgoing
    case Decoder(outgoing) =>
      if ev.streamId == 0 then ev.payload.Settings? && !ev.payload.ack && ev.outgoing != outgoing
      else (ev.payload.Headers? || ev.payload.Continuation?) && ev.payload.endHeaders && ev.outgoing == outgoing
  }

  ghost predicate Independent(g: Grain, x: Event, y: Event) {
    forall r :: Counts(g, r) ==> !(Uses(x, r) && Uses(y, r))
  }

  /** The frames of a run that use `r`, in order. */
  function Project(r: Resource, evs: seq<Event>): seq<Event> {
    if evs == [] then [] else Kept(r, evs[0]) + Project(r, evs[1..])
  }

  function Kept(r: Resource, ev: Event): seq<Event> {
    if Uses(ev, r) then [ev] else []
  }

  lemma {:induction false} ProjectConcat(r: Resource, xs: seq<Event>, ys: seq<Event>)
    ensures Project(r, xs + ys) == Project(r, xs) + Project(r, ys)
  {
    if xs == [] {
      assert xs + ys == ys;
    } else {
      assert (xs + ys)[0] == xs[0] && (xs + ys)[1..] == xs[1..] + ys;
      ProjectConcat(r, xs[1..], ys);
      var k := Kept(r, xs[0]);
      assert k + (Project(r, xs[1..]) + Project(r, ys)) == (k + Project(r, xs[1..])) + Project(r, ys);
    }
  }

  lemma {:induction false} ProjectMember(r: Resource, evs: seq<Event>, x: Event)
    ensures x in Project(r, evs) <==> x in evs && Uses(x, r)
  {
    if evs != [] {
      ProjectMember(r, evs[1..], x);
    }
  }

  /** A frame that leaves the decoder alone behaves the same whatever the decoder's state. */
  lemma {:induction false} DecoderUnused<D>(env: Env<D>, s: StreamState, d: D, d': D, ev: Event)
    requires ev.streamId != 0 && !Uses(ev, Decoder(ev.outgoing))
    ensures StreamStep(env, s, d, ev).1 == d
    ensures StreamStep(env, s, d, ev).0 == StreamStep(env, s, d', ev).0
  {
  }

  lemma {:induction false} IndependentCommute<D>(env: Env<D>, m: Manager<D>, x: Event, y: Event)
    requires Independent(PerStream, x, y)
    ensures Handle(env, Handle(env, m, x).0, y).0 == Handle(env, Handle(env, m, y).0, x).0
  {
    assert x.streamId != 0 ==> Uses(x, Stream(x.streamId));
    assert y.streamId != 0 ==> Uses(y, Stream(y.streamId));
    assert !(Uses(x, Decoder(true)) && Uses(y, Decoder(true)));
    assert !(Uses(x, Decoder(false)) && Uses(y, Decoder(false)));
    if x.streamId != 0 && y.streamId != 0 {
      StreamsCommute(env, m, x, y);
    } else if x.streamId != 0 {
      SettingsCommute(env, m, x, y);
    } else if y.streamId != 0 {
      SettingsCommute(env, m, y, x);
    }
  }

  lemma {:induction false} StreamsCommute<D>(env: Env<D>, m: Manager<D>, x: Event, y: Event)
    requires x.streamId != 0 && y.streamId != 0 && x.streamId != y.streamId
    requires x.outgoing == y.outgoing ==> !Uses(x, Decoder(x.outgoing)) || !Uses(y, Decoder(x.outgoing))
    ensures Handle(env, Handle(env, m, x).0, y).0 == Handle(env, Handle(env, m, y).0, x).0
  {
    hide StreamStep, ApplySettings;
    var mx, my := Handle(env, m, x).0, Handle(env, m, y).0;
    var sx := if x.streamId in m.streams then m.streams[x.streamId] else NewStream(x.outgoing);
    var sy := if y.streamId in m.streams then m.streams[y.streamId] else NewStream(y.outgoing);
    if x.outgoing == y.outgoing {
      if !Uses(x, Decoder(x.outgoing)) {
        DecoderUnused(env, sx, m.Decoder(x.outgoing), my.Decoder(x.outgoing), x);
        DecoderUnused(env, sx, my.Decoder(x.outgoing), m.Decoder(x.outgoing), x);
      } else {
        DecoderUnused(env, sy, m.Decoder(y.outgoing), mx.Decoder(y.outgoing), y);
        DecoderUnused(env, sy, mx.Decoder(y.outgoing), m.Decoder(y.outgoing), y);
      }
    }
    StreamsSwap(m.streams, x.streamId, StreamStep(env, sx, m.Decoder(x.outgoing), x).0,
                y.streamId, StreamStep(env, sy, m.Decoder(y.outgoing), y).0);
  }

  lemma {:induction false} StreamsSwap(streams: map<nat, StreamState>, i: nat, s: StreamState, j: nat, t: StreamState)
    requires i != j
    ensures streams[i := s][j := t] == streams[j := t][i := s]
  {
  }

  lemma {:induction false} SettingsCommute<D>(env: Env<D>, m: Manager<D>, x: Event, y: Event)
    requires x.streamId != 0 && y.streamId == 0
    requires Uses(y, Decoder(x.outgoing)) ==> !Uses(x, Decoder(x.outgoing))
    ensures Handle(env, Handle(env, m, x).0, y).0 == Handle(env, Handle(env, m, y).0, x).0
  {
    if Uses(y, Decoder(x.outgoing)) {
      var s := if x.streamId in m.streams then m.streams[x.streamId] else NewStream(x.outgoing);
      var my := Handle(env, m, y).0;
      DecoderUnused(env, s, m.Decoder(x.outgoing), my.Decoder(x.outgoing), x);
      DecoderUnused(env, s, my.Decoder(x.outgoing), m.Decoder(x.outgoing), x);
    }
  }

  /** A frame moves to the front past frames it is independent of. */
  lemma {:induction false} MoveToFront<D>(env: Env<D>, m: Manager<D>, u: seq<Event>, x: Event)
    requires forall y :: y in u ==> Independent(PerStream, x, y)
    ensures Run(env, m, u + [x]) == Run(env, m, [x] + u)
    decreases u
  {
    if u == [] {
      assert u + [x] == [x] + u;
    } else {
      assert (u + [x])[0] == u[0] && (u + [x])[1..] == u[1..] + [x];
      MoveToFront(env, Handle(env, m, u[0]).0, u[1..], x);
      IndependentCommute(env, m, x, u[0]);
      assert ([x] + u[1..])[1..] == u[1..];
      assert ([x] + u)[1..] == u;
    }
  }

  function IndexOf(x: Event, evs: seq<Event>): (i: nat)
    requires x in evs
    ensures i < |evs| && evs[i] == x && x !in evs[..i]
  {
    if evs[0] == x then 0 else
      var i := IndexOf(x, evs[1..]) + 1;
      assert evs[..i] == [evs[0]] + evs[1..][..i - 1];
      i
  }

  ghost predicate SameProjections(g: Grain, xs: seq<Event>, ys: seq<Event>) {
    forall r :: Counts(g, r) ==> Project(r, xs) == Project(r, ys)
  }

  /** Any two runs with the same frames per stream and per decoder leave the manager in the same state. */
  lemma {:induction false} InterleavingsAgree<D>(env: Env<D>, m: Manager<D>, xs: seq<Event>, ys: seq<Event>)
    requires SameProjections(PerStream, xs, ys)
    ensures Run(env, m, xs) == Run(env, m, ys)
    decreases |xs| + |ys|
  {
    if xs == [] && ys == [] {
    } else if xs == [] {
      IdleHead(PerStream, env, m, xs, ys);
      InterleavingsAgree(env, m, xs, ys[1..]);
    } else if Idle(PerStream, xs[0]) {
      IdleHead(PerStream, env, m, ys, xs);
      InterleavingsAgree(env, m, xs[1..], ys);
    } else {
      var u, v := PullToFront(PerStream, xs, ys);
      RunPulled(env, m, u, xs[0], v);
      InterleavingsAgree(env, Handle(env, m, xs[0]).0, xs[1..], u + v);
    }
  }

  /** A frame that uses nothing. */
  ghost predicate Idle(g: Grain, x: Event) { forall r :: Counts(g, r) ==> !Uses(x, r) }

  /** The first frame of `xs` is in `ys` too, behind frames independent of it. */
  lemma {:induction false} PullToFront(g: Grain, xs: seq<Event>, ys: seq<Event>) returns (u: seq<Event>, v: seq<Event>)
    requires xs != [] && !Idle(g, xs[0]) && SameProjections(g, xs, ys)
    ensures ys == u + [xs[0]] + v && forall y :: y in u ==> Independent(g, xs[0], y)
    ensures SameProjections(g, xs[1..], u + v)
  {
    hide Uses, Counts;
    var x := xs[0];
    var r0 :| Counts(g, r0) && Uses(x, r0);
    assert Project(r0, xs) == Project(r0, ys);
    assert Project(r0, xs)[0] == x;
    ProjectMember(r0, ys, x);
    var i := IndexOf(x, ys);
    u, v := ys[..i], ys[i + 1..];
    PullOut(g, x, xs, u, v, ys);
  }

  lemma {:induction false} RunPulled<D>(env: Env<D>, m: Manager<D>, u: seq<Event>, x: Event, v: seq<Event>)
    requires forall y :: y in u ==> Independent(PerStream, x, y)
    ensures Run(env, m, u + [x] + v) == Run(env, Handle(env, m, x).0, u + v)
  {
    MoveToFront(env, m, u, x);
    RunConcat(env, m, u + [x], v);
    RunConcat(env, m, [x] + u, v);
    assert [x] + u + v == [x] + (u + v);
    RunConcat(env, m, [x], u + v);
    assert Run(env, m, [x]) == Handle(env, m, x).0;
  }

  /** A leading frame that uses nothing changes nothing. */
  lemma {:induction false} IdleHead<D>(g: Grain, env: Env<D>, m: Manager<D>, xs: seq<Event>, ys: seq<Event>)
    requires ys != [] && SameProjections(g, xs, ys) && (xs == [] || Idle(g, ys[0]))
    ensures SameProjections(g, xs, ys[1..]) && Run(env, m, ys) == Run(env, m, ys[1..])
  {
    var y := ys[0];
    forall r | Counts(g, r) ensures !Uses(y, r) && Project(r, xs) == Project(r, ys[1..]) {
      assert Project(r, xs) == Project(r, ys);
    }
    var own := if g.PerStream? then Stream(y.streamId) else Direction(y.streamId, y.outgoing);
    assert !Uses(y, own) && !Uses(y, Decoder(!y.outgoing));
    assert Handle(env, m, y).0 == m;
  }

  /** The first occurrence of `xs[0]` in `ys` is preceded only by frames independent of it. */
  lemma {:induction false} PullOut(g: Grain, x: Event, xs: seq<Event>, u: seq<Event>, v: seq<Event>, ys: seq<Event>)
    requires xs != [] && x == xs[0] && x !in u && ys == u + [x] + v && SameProjections(g, xs, ys)
    ensures SameProjections(g, xs[1..], u + v)
    ensures forall y :: y in u ==> Independent(g, x, y)
  {
    hide Uses, Counts;
    forall r | Counts(g, r) ensures Project(r, xs[1..]) == Project(r, u + v) {
      assert Project(r, xs) == Project(r, ys);
      PullOutAt(r, x, xs, u, v);
    }
    forall y, r | y in u && Counts(g, r) && Uses(x, r) ensures !Uses(y, r) {
      assert Project(r, xs) == Project(r, ys);
      PullOutAt(r, x, xs, u, v);
      ProjectMember(r, u, y);
    }
  }

  lemma {:induction false} PullOutAt(r: Resource, x: Event, xs: seq<Event>, u: seq<Event>, v: seq<Event>)
    requires xs != [] && x == xs[0] && x !in u && Project(r, xs) == Project(r, u + [x] + v)
    ensures Project(r, xs[1..]) == Project(r, u + v)
    ensures Uses(x, r) ==> Project(r, u) == []
  {
    hide Uses;
    ProjectMember(r, u, x);
    ProjectConcat(r, u + [x], v);
    ProjectConcat(r, u, [x]);
    ProjectConcat(r, u, v);
    assert Project(r, [x]) == Kept(r, x);
    HeadCancels(Project(r, u), Kept(r, x), Project(r, v), Project(r, xs[1..]));
  }

  lemma {:induction false} HeadCancels(pu: seq<Event>, k: seq<Event>, pv: seq<Event>, px: seq<Event>)
    requires pu + k + pv == k + px && |k| <= 1 && (k != [] ==> k[0] !in pu)
    ensures px == pu + pv && (k != [] ==> pu == [])
  {
    if k == [] {
      assert pu + k == pu && k + px == px;
    } else {
      assert k[0] == (k + px)[0] == (pu + k + pv)[0];
      assert pu == [];
      assert pu + k == k && (k + pv)[1..] == pv && (k + px)[1..] == px;
    }
  }
}

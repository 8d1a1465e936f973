/** The store that hands TLS handshake captures to the connections waiting for them. */
module TlsHandshakeStore {

  /** Times and durations in nanoseconds. */
  const ENTRY_TTL := 30_000_000_000
  const MAX_QUEUE_PER_KEY := 128

  datatype Timed<E> = Timed(entry: E, pushedAt: int)

  type Store<E> = map<string, seq<Timed<E>>>

  function Queue<E>(s: Store<E>, key: string): seq<Timed<E>> { if key in s then s[key] else [] }

  /** How many entries at the front of the queue are older than the cutoff. */
  function StaleFrom<E>(q: seq<Timed<E>>, i: nat, cutoff: int): (n: nat)
    requires i <= |q|
    ensures i <= n <= |q|
    ensures forall j :: i <= j < n ==> q[j].pushedAt < cutoff
    ensures n < |q| ==> q[n].pushedAt >= cutoff
    decreases |q| - i
  {
    if i == |q| || q[i].pushedAt >= cutoff then i else StaleFrom(q, i + 1, cutoff)
  }

  function Stale<E>(q: seq<Timed<E>>, cutoff: int): nat { StaleFrom(q, 0, cutoff) }

  function Trim<E>(q: seq<Timed<E>>, cutoff: int): seq<Timed<E>> { q[Stale(q, cutoff)..] }

  function Prune<E>(s: Store<E>, now: int): Store<E> {
    map key | key in s && Trim(s[key], now - ENTRY_TTL) != [] :: Trim(s[key], now - ENTRY_TTL)
  }

  function Pushed<E>(s: Store<E>, key: string, entry: E, pruneAt: int, pushAt: int): Store<E> {
    var pruned := Prune(s, pruneAt);
    pruned[key := Queue(pruned, key) + [Timed(entry, pushAt)]]
  }

  function Taken<E>(s: Store<E>, key: string): Store<E>
    requires Queue(s, key) != []
  {
    if |s[key]| == 1 then s - {key} else s[key := s[key][1..]]
  }

  datatype Outcome<E> = Got(entry: E) | Missed | Waiting(deadline: int)

  function AttemptOn<E>(pruned: Store<E>, key: string, deadline: int, timedOut: bool, now: int)
    : (Store<E>, Outcome<E>)
  {
    var q := Queue(pruned, key);
    if q != [] then
      if q[0].pushedAt > deadline then (pruned, Missed) else (Taken(pruned, key), Got(q[0].entry))
    else if timedOut || now > deadline then (pruned, Missed)
    else (pruned, Waiting(deadline))
  }

  /** One round of the waiting loop, which runs with the lock held. */
  function Attempt<E>(s: Store<E>, key: string, deadline: int, timedOut: bool, pruneAt: int, now: int)
    : (Store<E>, Outcome<E>)
  {
    AttemptOn(Prune(s, pruneAt), key, deadline, timedOut, now)
  }

  datatype Clock = Clock(pruneAt: int, startAt: int, retryAt: int, checkAt: int)

  function EnteredOn<E>(pruned: Store<E>, key: string, timeout: int, t: Clock): (Store<E>, Outcome<E>) {
    var q := Queue(pruned, key);
    if q != [] then (Taken(pruned, key), Got(q[0].entry))
    else if timeout <= 0 then (pruned, Missed)
    else Attempt(pruned, key, t.startAt + timeout, false, t.retryAt, t.checkAt)
  }

  /** `PopWait` up to its return or its first wait. */
  function Entered<E>(s: Store<E>, key: string, timeout: int, t: Clock): (Store<E>, Outcome<E>) {
    EnteredOn(Prune(s, t.pruneAt), key, timeout, t)
  }

  // ---- Pruning ----

  ghost predicate Sorted<E>(q: seq<Timed<E>>) { forall i, j :: 0 <= i < j < |q| ==> q[i].pushedAt <= q[j].pushedAt }

  /** The entries no older than the cutoff, wherever they stand. */
  function Fresh<E>(q: seq<Timed<E>>, cutoff: int): seq<Timed<E>> {
    if q == [] then []
    else (if q[0].pushedAt >= cutoff then [q[0]] else []) + Fresh(q[1..], cutoff)
  }

  ghost predicate NoneStale<E>(q: seq<Timed<E>>, cutoff: int) { forall i :: 0 <= i < |q| ==> q[i].pushedAt >= cutoff }

  lemma {:induction false} FreshLength<E>(q: seq<Timed<E>>, cutoff: int)
    ensures |Fresh(q, cutoff)| <= |q|
    ensures |Fresh(q, cutoff)| == |q| <==> NoneStale(q, cutoff)
    ensures NoneStale(q, cutoff) ==> Fresh(q, cutoff) == q
    decreases q
  {
    if q != [] {
      FreshLength(q[1..], cutoff);
      assert q == [q[0]] + q[1..];
      if NoneStale(q[1..], cutoff) && q[0].pushedAt >= cutoff {
        forall i | 0 <= i < |q| ensures q[i].pushedAt >= cutoff { if i > 0 { assert q[i] == q[1..][i - 1]; } }
      }
    }
  }

  lemma {:induction false} StaleTail<E>(q: seq<Timed<E>>, i: nat, cutoff: int)
    requires 1 <= i <= |q|
    ensures StaleFrom(q, i, cutoff) == 1 + StaleFrom(q[1..], i - 1, cutoff)
    decreases |q| - i
  {
    if i < |q| {
      assert q[i] == q[1..][i - 1];
      StaleTail(q, i + 1, cutoff);
    }
  }

  /** Trimming the front drops every stale entry exactly when no stale entry stands behind a fresh one. */
  lemma {:induction false} TrimIsFilterIff<E>(q: seq<Timed<E>>, cutoff: int)
    ensures Trim(q, cutoff) == Fresh(q, cutoff) <==> NoneStale(Trim(q, cutoff), cutoff)
    ensures Sorted(q) ==> Trim(q, cutoff) == Fresh(q, cutoff)
    decreases q
  {
    if q != [] && q[0].pushedAt < cutoff {
      StaleHead(q, cutoff);
      hide Trim, Fresh, NoneStale;
      TrimIsFilterIff(q[1..], cutoff);
    } else {
      assert Trim(q, cutoff) == q;
      hide Trim, Fresh;
      FreshLength(q, cutoff);
      assert Sorted(q) ==> NoneStale(q, cutoff);
    }
  }

  lemma {:induction false} StaleHead<E>(q: seq<Timed<E>>, cutoff: int)
    requires q != [] && q[0].pushedAt < cutoff
    ensures Trim(q, cutoff) == Trim(q[1..], cutoff) && Fresh(q, cutoff) == Fresh(q[1..], cutoff)
  {
    StaleTail(q, 1, cutoff);
  }

  lemma {:induction false} PruneQueue<E>(s: Store<E>, now: int, key: string)
    ensures Queue(Prune(s, now), key) == Trim(Queue(s, key), now - ENTRY_TTL)
  {
  }

  // ---- Conservation over runs ----

  /** The sections `Push` and `PopWait` run with the lock held. */
  datatype Step<E> =
    | PushStep(key: string, entry: E, pruneAt: int, pushAt: int)
    | EnterStep(key: string, timeout: int, clock: Clock)
    | WakeStep(key: string, deadline: int, timedOut: bool, pruneAt: int, now: int)

  function After<E>(s: Store<E>, step: Step<E>): Store<E> {
    match step
    case PushStep(key, entry, pruneAt, pushAt) => Pushed(s, key, entry, pruneAt, pushAt)
    case EnterStep(key, timeout, clock) => Entered(s, key, timeout, clock).0
    case WakeStep(key, deadline, timedOut, pruneAt, now) => Attempt(s, key, deadline, timedOut, pruneAt, now).0
  }

  /** An entry leaving its queue, with the time of the prune that dropped it or preceded its hand-over. */
  datatype Gone<E> = Gone(item: Timed<E>, at: int)

  function Dropped<E>(q: seq<Timed<E>>, at: int): seq<Gone<E>> {
    if q == [] then [] else [Gone(q[0], at)] + Dropped(q[1..], at)
  }

  function Expired<E>(s: Store<E>, key: string, at: int): seq<Gone<E>> {
    var q := Queue(s, key);
    Dropped(q[..Stale(q, at - ENTRY_TTL)], at)
  }

  function Handed<E>(pruned: Store<E>, waiter: string, key: string, at: int): seq<Gone<E>> {
    if waiter == key && Queue(pruned, key) != [] then [Gone(Queue(pruned, key)[0], at)] else []
  }

  function HandedBy<E>(pruned: Store<E>, waiter: string, deadline: int, key: string, at: int): seq<Gone<E>> {
    if Queue(pruned, waiter) != [] && Queue(pruned, waiter)[0].pushedAt <= deadline
        then Handed(pruned, waiter, key, at) else []
  }

  function AttemptGone<E>(s: Store<E>, waiter: string, deadline: int, pruneAt: int, key: string): seq<Gone<E>> {
    Expired(s, key, pruneAt) + HandedBy(Prune(s, pruneAt), waiter, deadline, key, pruneAt)
  }

  function EnteredGone<E>(pruned: Store<E>, waiter: string, timeout: int, t: Clock, key: string): seq<Gone<E>> {
    if Queue(pruned, waiter) != [] then Handed(pruned, waiter, key, t.pruneAt)
    else if timeout <= 0 then []
    else AttemptGone(pruned, waiter, t.startAt + timeout, t.retryAt, key)
  }

  /** What leaves the queue of `key` in one step, in order. */
  function Leaving<E>(s: Store<E>, step: Step<E>, key: string): seq<Gone<E>> {
    match step
    case PushStep(_, _, pruneAt, _) => Expired(s, key, pruneAt)
    case WakeStep(waiter, deadline, _, pruneAt, _) => AttemptGone(s, waiter, deadline, pruneAt, key)
    case EnterStep(waiter, timeout, t) =>
      Expired(s, key, t.pruneAt) + EnteredGone(Prune(s, t.pruneAt), waiter, timeout, t, key)
  }

  function Arriving<E>(step: Step<E>, key: string): seq<Timed<E>> {
    if step.PushStep? && step.key == key then [Timed(step.entry, step.pushAt)] else []
  }

  function Items<E>(gone: seq<Gone<E>>): seq<Timed<E>> {
    if gone == [] then [] else [gone[0].item] + Items(gone[1..])
  }

  lemma {:induction false} ItemsConcat<E>(a: seq<Gone<E>>, b: seq<Gone<E>>)
    ensures Items(a + b) == Items(a) + Items(b)
    decreases a
  {
    if a == [] {
      assert a + b == b;
    } else {
      assert (a + b)[1..] == a[1..] + b;
      ItemsConcat(a[1..], b);
    }
  }

  lemma {:induction false} ItemsDropped<E>(q: seq<Timed<E>>, at: int)
    ensures Items(Dropped(q, at)) == q
    decreases q
  {
    if q != [] {
      assert Dropped(q, at)[1..] == Dropped(q[1..], at);
      ItemsDropped(q[1..], at);
    }
  }

  lemma {:induction false} PruneConserves<E>(s: Store<E>, at: int, key: string)
    ensures Queue(s, key) == Items(Expired(s, key, at)) + Queue(Prune(s, at), key)
  {
    hide Dropped, StaleFrom, Prune, Queue, Items;
    PruneQueue(s, at, key);
    var q := Queue(s, key);
    ItemsDropped(q[..Stale(q, at - ENTRY_TTL)], at);
  }

  lemma {:induction false} TakenConserves<E>(pruned: Store<E>, waiter: string, key: string, at: int)
    requires Queue(pruned, waiter) != []
    ensures Queue(pruned, key) == Items(Handed(pruned, waiter, key, at)) + Queue(Taken(pruned, waiter), key)
  {
    var q := Queue(pruned, key);
    assert waiter == key ==> q == [q[0]] + q[1..];
  }

  lemma {:induction false} AttemptOnConserves<E>(pruned: Store<E>, waiter: string, deadline: int, timedOut: bool,
                                                 now: int, key: string, at: int)
    ensures Queue(pruned, key)
         == Items(HandedBy(pruned, waiter, deadline, key, at))
             + Queue(AttemptOn(pruned, waiter, deadline, timedOut, now).0, key)
  {
    if Queue(pruned, waiter) != [] && Queue(pruned, waiter)[0].pushedAt <= deadline {
      TakenConserves(pruned, waiter, key, at);
    }
  }

  lemma {:induction false} AttemptConserves<E>(s: Store<E>, waiter: string, deadline: int, timedOut: bool,
                                               pruneAt: int, now: int, key: string)
    ensures Queue(s, key)
         == Items(AttemptGone(s, waiter, deadline, pruneAt, key))
             + Queue(Attempt(s, waiter, deadline, timedOut, pruneAt, now).0, key)
  {
    var pruned := Prune(s, pruneAt);
    PruneConserves(s, pruneAt, key);
    AttemptOnConserves(pruned, waiter, deadline, timedOut, now, key, pruneAt);
    ItemsConcat(Expired(s, key, pruneAt), HandedBy(pruned, waiter, deadline, key, pruneAt));
  }

  lemma {:induction false} EnteredOnConserves<E>(pruned: Store<E>, waiter: string, timeout: int, t: Clock, key: string)
    ensures Queue(pruned, key) == Items(EnteredGone(pruned, waiter, timeout, t, key))
        + Queue(EnteredOn(pruned, waiter, timeout, t).0, key)
  {
    hide Taken, Handed, Attempt, AttemptGone;
    if Queue(pruned, waiter) != [] {
      TakenConserves(pruned, waiter, key, t.pruneAt);
    } else if timeout > 0 {
      AttemptConserves(pruned, waiter, t.startAt + timeout, false, t.retryAt, t.checkAt, key);
    }
  }

  lemma {:induction false} EnterConserves<E>(s: Store<E>, waiter: string, timeout: int, t: Clock, key: string)
    ensures Queue(s, key) == Items(Leaving(s, EnterStep(waiter, timeout, t), key))
        + Queue(Entered(s, waiter, timeout, t).0, key)
  {
    hide Prune, Expired, EnteredGone, EnteredOn, Queue, Items;
    var pruned := Prune(s, t.pruneAt);
    PruneConserves(s, t.pruneAt, key);
    EnteredOnConserves(pruned, waiter, timeout, t, key);
    ItemsConcat(Expired(s, key, t.pruneAt), EnteredGone(pruned, waiter, timeout, t, key));
  }

  lemma {:induction false} StepConserves<E>(s: Store<E>, step: Step<E>, key: string)
    ensures Queue(s, key) + Arriving(step, key) == Items(Leaving(s, step, key)) + Queue(After(s, step), key)
  {
    hide Entered, Attempt, AttemptGone, Expired;
    match step
    case PushStep(_, _, pruneAt, _) => PruneConserves(s, pruneAt, key);
    case EnterStep(waiter, timeout, clock) => EnterConserves(s, waiter, timeout, clock, key);
    case WakeStep(waiter, deadline, timedOut, pruneAt, now) =>
      AttemptConserves(s, waiter, deadline, timedOut, pruneAt, now, key);
  }

  function RunStore<E>(s: Store<E>, steps: seq<Step<E>>): Store<E>
    decreases steps
  {
    if steps == [] then s else RunStore(After(s, steps[0]), steps[1..])
  }

  function AllLeaving<E>(s: Store<E>, steps: seq<Step<E>>, key: string): seq<Gone<E>>
    decreases steps
  {
    if steps == [] then [] else Leaving(s, steps[0], key) + AllLeaving(After(s, steps[0]), steps[1..], key)
  }

  function AllArriving<E>(steps: seq<Step<E>>, key: string): seq<Timed<E>> {
    if steps == [] then [] else Arriving(steps[0], key) + AllArriving(steps[1..], key)
  }

  /** Whatever the clock did, every entry pushed leaves its queue once, in push order, or is still there. */
  lemma {:induction false} EveryEntryLeavesOnceInOrder<E>(s: Store<E>, steps: seq<Step<E>>, key: string)
    ensures Queue(s, key) + AllArriving(steps, key) == Items(AllLeaving(s, steps, key)) + Queue(RunStore(s, steps), key)
    decreases steps
  {
    if steps == [] {
      assert Queue(s, key) + [] == [] + Queue(s, key);
    } else {
      var s', rest := After(s, steps[0]), steps[1..];
      var left, later := Leaving(s, steps[0], key), AllLeaving(s', rest, key);
      StepConserves(s, steps[0], key);
      EveryEntryLeavesOnceInOrder(s', rest, key);
      ItemsConcat(left, later);
      ChainConserves(Queue(s, key), Arriving(steps[0], key), Items(left), Queue(s', key),
                     AllArriving(rest, key), Items(later), Queue(RunStore(s', rest), key));
    }
  }

  lemma {:induction false} ChainConserves<T>(q: seq<T>, a: seq<T>, l: seq<T>, q': seq<T>, a': seq<T>, l': seq<T>,
                                             q'': seq<T>)
    requires q + a == l + q' && q' + a' == l' + q''
    ensures q + (a + a') == (l + l') + q''
  {
    calc {
      q + (a + a');
      (q + a) + a';
      (l + q') + a';
      l + (q' + a');
      l + (l' + q'');
      (l + l') + q'';
    }
  }

  // ---- What callers receive ----

  /** The entry left within its lifetime. */
  predicate InTime<E>(g: Gone<E>) { g.item.pushedAt >= g.at - ENTRY_TTL }

  /** The entries that left in time, in order. */
  function Timely<E>(gone: seq<Gone<E>>): seq<E> {
    if gone == [] then [] else TimelyOne(gone[0]) + Timely(gone[1..])
  }

  function Handover<E>(out: Outcome<E>, mine: bool): seq<E> { if mine && out.Got? then [out.entry] else [] }

  /** What a step returns to a caller that asked for `key`. */
  function Received<E>(s: Store<E>, step: Step<E>, key: string): seq<E> {
    match step
    case PushStep(_, _, _, _) => []
    case EnterStep(waiter, timeout, clock) => Handover(Entered(s, waiter, timeout, clock).1, waiter == key)
    case WakeStep(waiter, deadline, timedOut, pruneAt, now) =>
      Handover(Attempt(s, waiter, deadline, timedOut, pruneAt, now).1, waiter == key)
  }

  function AllReceived<E>(s: Store<E>, steps: seq<Step<E>>, key: string): seq<E>
    decreases steps
  {
    if steps == [] then [] else Received(s, steps[0], key) + AllReceived(After(s, steps[0]), steps[1..], key)
  }

  function TimelyOne<E>(g: Gone<E>): seq<E> { if InTime(g) then [g.item.entry] else [] }

  lemma {:induction false} TimelyNext<E>(gone: seq<Gone<E>>)
    requires gone != []
    ensures Timely(gone) == TimelyOne(gone[0]) + Timely(gone[1..])
  {
  }

  lemma {:induction false} TimelyConcat<E>(a: seq<Gone<E>>, b: seq<Gone<E>>)
    ensures Timely(a + b) == Timely(a) + Timely(b)
    decreases a
  {
    if a == [] {
      assert a + b == b;
    } else {
      hide TimelyOne, Timely;
      var all := a + b;
      assert all[0] == a[0] && all[1..] == a[1..] + b;
      TimelyNext(all);
      TimelyNext(a);
      TimelyConcat(a[1..], b);
      assert TimelyOne(a[0]) + (Timely(a[1..]) + Timely(b)) == (TimelyOne(a[0]) + Timely(a[1..])) + Timely(b);
    }
  }

  lemma {:induction false} DroppedIsLate<E>(q: seq<Timed<E>>, at: int)
    requires forall i :: 0 <= i < |q| ==> q[i].pushedAt < at - ENTRY_TTL
    ensures Timely(Dropped(q, at)) == []
    ensures q != [] ==> Dropped(q, at) != [] && !InTime(Dropped(q, at)[|Dropped(q, at)| - 1])
    decreases q
  {
    if q != [] {
      assert Dropped(q, at)[1..] == Dropped(q[1..], at);
      DroppedIsLate(q[1..], at);
    }
  }

  /** Nothing, or a sequence whose last entry left too late. */
  predicate EndsLate<E>(gone: seq<Gone<E>>) { gone == [] || !InTime(gone[|gone| - 1]) }

  lemma {:induction false} ExpiredIsLate<E>(s: Store<E>, key: string, at: int)
    ensures Timely(Expired(s, key, at)) == [] && EndsLate(Expired(s, key, at))
  {
    var q := Queue(s, key);
    DroppedIsLate(q[..Stale(q, at - ENTRY_TTL)], at);
  }

  /** What leaves is first what a prune drops, then at most one entry, handed to the caller that asked for it. */
  ghost predicate EndsWithReceipt<E>(gone: seq<Gone<E>>, got: seq<E>) {
    && Timely(gone) == got && |got| <= 1
    && (got == [] ==> EndsLate(gone))
    && (got != [] ==> gone != [] && InTime(gone[|gone| - 1]) && gone[|gone| - 1].item.entry == got[0])
  }

  lemma {:induction false} AfterExpiry<E>(s: Store<E>, key: string, at: int, rest: seq<Gone<E>>, got: seq<E>)
    requires EndsWithReceipt(rest, got)
    ensures EndsWithReceipt(Expired(s, key, at) + rest, got)
  {
    var expired := Expired(s, key, at);
    ExpiredIsLate(s, key, at);
    TimelyConcat(expired, rest);
    if rest == [] {
      assert expired + rest == expired;
    } else {
      assert (expired + rest)[|expired + rest| - 1] == rest[|rest| - 1];
    }
  }

  lemma {:induction false} HandedReceipt<E>(s: Store<E>, waiter: string, key: string, at: int)
    ensures var pruned := Prune(s, at);
            var q := Queue(pruned, waiter);
            EndsWithReceipt(Handed(pruned, waiter, key, at), if waiter == key && q != [] then [q[0].entry] else [])
  {
    PruneQueue(s, at, key);
    var gone := Handed(Prune(s, at), waiter, key, at);
    assert gone != [] ==> gone[1..] == [];
  }

  lemma {:induction false} AttemptReceipt<E>(s: Store<E>, waiter: string, deadline: int, timedOut: bool, pruneAt: int,
                                             now: int, key: string)
    ensures EndsWithReceipt(AttemptGone(s, waiter, deadline, pruneAt, key),
                            Handover(Attempt(s, waiter, deadline, timedOut, pruneAt, now).1, waiter == key))
  {
    var pruned := Prune(s, pruneAt);
    var got := Handover(AttemptOn(pruned, waiter, deadline, timedOut, now).1, waiter == key);
    HandedReceipt(s, waiter, key, pruneAt);
    AfterExpiry(s, key, pruneAt, HandedBy(pruned, waiter, deadline, key, pruneAt), got);
  }

  lemma {:induction false} EnterReceipt<E>(s: Store<E>, waiter: string, timeout: int, t: Clock, key: string)
    ensures EndsWithReceipt(Leaving(s, EnterStep(waiter, timeout, t), key),
        Handover(Entered(s, waiter, timeout, t).1, waiter == key))
  {
    var pruned := Prune(s, t.pruneAt);
    var got := Handover(EnteredOn(pruned, waiter, timeout, t).1, waiter == key);
    var rest := EnteredGone(pruned, waiter, timeout, t, key);
    assert EndsWithReceipt(rest, got) by {
      if Queue(pruned, waiter) != [] {
        HandedReceipt(s, waiter, key, t.pruneAt);
      } else if timeout > 0 {
        AttemptReceipt(pruned, waiter, t.startAt + timeout, false, t.retryAt, t.checkAt, key);
      }
    }
    AfterExpiry(s, key, t.pruneAt, rest, got);
  }

  /**
   * A caller gets an entry exactly when the last one to leave its queue in that step left in time, and gets that one.
   */
  lemma {:induction false} StepReceipt<E>(s: Store<E>, step: Step<E>, key: string)
    ensures EndsWithReceipt(Leaving(s, step, key), Received(s, step, key))
  {
    match step
    case PushStep(_, _, pruneAt, _) => ExpiredIsLate(s, key, pruneAt);
    case EnterStep(waiter, timeout, clock) => EnterReceipt(s, waiter, timeout, clock, key);
    case WakeStep(waiter, deadline, timedOut, pruneAt, now) =>
      AttemptReceipt(s, waiter, deadline, timedOut, pruneAt, now, key);
  }

  /** Over any run callers receive, in push order, exactly the entries that left their queue within their lifetime. */
  lemma {:induction false} CallersReceiveWhatLeavesInTime<E>(s: Store<E>, steps: seq<Step<E>>, key: string)
    ensures AllReceived(s, steps, key) == Timely(AllLeaving(s, steps, key))
    decreases steps
  {
    if steps != [] {
      var s' := After(s, steps[0]);
      StepReceipt(s, steps[0], key);
      CallersReceiveWhatLeavesInTime(s', steps[1..], key);
      TimelyConcat(Leaving(s, steps[0], key), AllLeaving(s', steps[1..], key));
    }
  }

  /**
   * Every entry pushed is received by a caller, or dropped after its lifetime, once and in push order, or is still
   * queued.
   */
  lemma {:induction false} EveryEntryIsReceivedOrDropped<E>(s: Store<E>, steps: seq<Step<E>>, key: string)
    ensures var left := AllLeaving(s, steps, key);
            && Queue(s, key) + AllArriving(steps, key) == Items(left) + Queue(RunStore(s, steps), key)
            && AllReceived(s, steps, key) == Timely(left)
  {
    EveryEntryLeavesOnceInOrder(s, steps, key);
    CallersReceiveWhatLeavesInTime(s, steps, key);
  }

  lemma {:induction false} AttemptOnOutcome<E>(pruned: Store<E>, key: string, deadline: int, timedOut: bool, now: int)
    ensures var front := Queue(pruned, key);
            var (s', out) := AttemptOn(pruned, key, deadline, timedOut, now);
            && (out.Got? <==> front != [] && front[0].pushedAt <= deadline)
            && (out.Got? ==> out.entry == front[0].entry && Queue(s', key) == front[1..])
            && (!out.Got? ==> Queue(s', key) == front)
            && (out.Waiting? <==> front == [] && !timedOut && now <= deadline)
  {
  }

  /** A waiter is never handed an entry pushed after its deadline, and otherwise gets the front of the pruned queue. */
  lemma {:induction false} WaiterGetsFrontByDeadline<E>(s: Store<E>, key: string, deadline: int, timedOut: bool,
                                                        pruneAt: int, now: int)
    ensures var front := Trim(Queue(s, key), pruneAt - ENTRY_TTL);
            var (s', out) := Attempt(s, key, deadline, timedOut, pruneAt, now);
            && (out.Got? <==> front != [] && front[0].pushedAt <= deadline)
            && (out.Got? ==> out.entry == front[0].entry && Queue(s', key) == front[1..])
            && (!out.Got? ==> Queue(s', key) == front)
            && (out.Waiting? <==> front == [] && !timedOut && now <= deadline)
  {
    PruneQueue(s, pruneAt, key);
    AttemptOnOutcome(Prune(s, pruneAt), key, deadline, timedOut, now);
  }

  // ---- A clock that never runs backwards ----

  /** The times a step reads, in the order it reads them. */
  function Ticks<E>(step: Step<E>): seq<int> {
    match step
    case PushStep(_, _, pruneAt, pushAt) => [pruneAt, pushAt]
    case EnterStep(_, _, t) => [t.pruneAt, t.startAt, t.retryAt, t.checkAt]
    case WakeStep(_, _, _, pruneAt, now) => [pruneAt, now]
  }

  ghost predicate Forward(from: int, ticks: seq<int>) {
    && (forall i :: 0 <= i < |ticks| ==> from <= ticks[i])
    && forall i, j :: 0 <= i < j < |ticks| ==> ticks[i] <= ticks[j]
  }

  function Last<E>(step: Step<E>): int { var t := Ticks(step); t[|t| - 1] }

  ghost predicate RunsForward<E>(from: int, steps: seq<Step<E>>)
    decreases steps
  {
    steps == [] || (Forward(from, Ticks(steps[0])) && RunsForward(Last(steps[0]), steps[1..]))
  }

  ghost predicate QueueBy<E>(q: seq<Timed<E>>, now: int) {
    Sorted(q) && forall i :: 0 <= i < |q| ==> q[i].pushedAt <= now
  }

  /** No key is kept with an empty queue, and every queue is in push order up to the present. */
  ghost predicate Orderly<E>(s: Store<E>, now: int) { forall key :: key in s ==> s[key] != [] && QueueBy(s[key], now) }

  lemma {:induction false} PruneOrderly<E>(s: Store<E>, at: int, now: int)
    requires Orderly(s, now)
    ensures Orderly(Prune(s, at), now)
  {
  }

  lemma {:induction false} TakenOrderly<E>(s: Store<E>, key: string, now: int)
    requires Orderly(s, now) && Queue(s, key) != []
    ensures Orderly(Taken(s, key), now)
  {
  }

  lemma {:induction false} AttemptOrderly<E>(s: Store<E>, waiter: string, deadline: int, timedOut: bool, pruneAt: int,
                                             now: int, bound: int)
    requires Orderly(s, bound)
    ensures Orderly(Attempt(s, waiter, deadline, timedOut, pruneAt, now).0, bound)
  {
    PruneOrderly(s, pruneAt, bound);
    if Queue(Prune(s, pruneAt), waiter) != [] { TakenOrderly(Prune(s, pruneAt), waiter, bound); }
  }

  lemma {:induction false} OrderlyLater<E>(s: Store<E>, now: int, later: int)
    requires Orderly(s, now) && now <= later
    ensures Orderly(s, later)
  {
  }

  lemma {:induction false} StepOrderly<E>(s: Store<E>, step: Step<E>, now: int)
    requires Orderly(s, now) && Forward(now, Ticks(step))
    ensures Orderly(After(s, step), Last(step))
  {
    assert now <= Ticks(step)[|Ticks(step)| - 1] == Last(step);
    hide Orderly, Pushed, Entered, Attempt, Forward;
    OrderlyLater(s, now, Last(step));
    match step
    case PushStep(key, entry, pruneAt, pushAt) => PushedOrderly(s, key, entry, pruneAt, pushAt);
    case EnterStep(waiter, timeout, t) => EnteredOrderly(s, waiter, timeout, t);
    case WakeStep(waiter, deadline, timedOut, pruneAt, at) =>
      AttemptOrderly(s, waiter, deadline, timedOut, pruneAt, at, at);
  }

  lemma {:induction false} PushedOrderly<E>(s: Store<E>, key: string, entry: E, pruneAt: int, pushAt: int)
    requires Orderly(s, pushAt)
    ensures Orderly(Pushed(s, key, entry, pruneAt, pushAt), pushAt)
  {
    hide Prune;
    PruneOrderly(s, pruneAt, pushAt);
  }

  lemma {:induction false} EnteredOrderly<E>(s: Store<E>, waiter: string, timeout: int, t: Clock)
    requires Orderly(s, t.checkAt)
    ensures Orderly(Entered(s, waiter, timeout, t).0, t.checkAt)
  {
    hide Orderly, Prune, Attempt, Taken, Queue;
    var pruned := Prune(s, t.pruneAt);
    PruneOrderly(s, t.pruneAt, t.checkAt);
    if Queue(pruned, waiter) != [] {
      TakenOrderly(pruned, waiter, t.checkAt);
    } else if timeout > 0 {
      AttemptOrderly(pruned, waiter, t.startAt + timeout, false, t.retryAt, t.checkAt, t.checkAt);
    }
  }

  /** With a forward clock, a prune at the end of any run drops exactly the stale entries. */
  lemma {:induction false} PruneIsExactOverRuns<E>(s: Store<E>, from: int, steps: seq<Step<E>>, at: int, key: string)
    requires Orderly(s, from) && RunsForward(from, steps)
    ensures var end := RunStore(s, steps);
            && Queue(Prune(end, at), key) == Fresh(Queue(end, key), at - 30_000_000_000)
            && (key in Prune(end, at) <==> Fresh(Queue(end, key), at - 30_000_000_000) != [])
    decreases steps
  {
    if steps == [] {
      PruneQueue(s, at, key);
      assert Sorted(Queue(s, key));
      TrimIsFilterIff(Queue(s, key), at - ENTRY_TTL);
    } else {
      StepOrderly(s, steps[0], from);
      PruneIsExactOverRuns(After(s, steps[0]), Last(steps[0]), steps[1..], at, key);
    }
  }

  // ---- The queue cap ----

  /** The push as its length check reads: a full queue gives up its oldest entry. */
  function CappedPushed<E>(s: Store<E>, key: string, entry: E, pruneAt: int, pushAt: int): Store<E> {
    var pruned := Prune(s, pruneAt);
    var q := Queue(pruned, key);
    var kept := if |q| >= MAX_QUEUE_PER_KEY then q[1..] else q;
    pruned[key := kept + [Timed(entry, pushAt)]]
  }

  /** The shortened queue is thrown away, so the cap is kept only where it was not needed. */
  lemma {:induction false} CapHoldsIff<E>(s: Store<E>, key: string, entry: E, pruneAt: int, pushAt: int)
    ensures var live := |Trim(Queue(s, key), pruneAt - 30_000_000_000)|;
            && |Queue(Pushed(s, key, entry, pruneAt, pushAt), key)| == live + 1
            && (|Queue(Pushed(s, key, entry, pruneAt, pushAt), key)| <= 128 <==> live < 128)
            && (Pushed(s, key, entry, pruneAt, pushAt) == CappedPushed(s, key, entry, pruneAt, pushAt) <==> live < 128)
            && (live <= 128 ==> |Queue(CappedPushed(s, key, entry, pruneAt, pushAt), key)| <= 128)
  {
    PruneQueue(s, pruneAt, key);
    var q := Queue(Prune(s, pruneAt), key);
    if |q| >= MAX_QUEUE_PER_KEY {
      assert |Queue(CappedPushed(s, key, entry, pruneAt, pushAt), key)| == |q|;
    }
  }

  ghost predicate WithinCap<E>(s: Store<E>) { forall key :: key in s ==> |s[key]| <= MAX_QUEUE_PER_KEY }

  /** A run whose pushes keep what their length check says. */
  function CappedAfter<E>(s: Store<E>, step: Step<E>): Store<E> {
    if step.PushStep? then CappedPushed(s, step.key, step.entry, step.pruneAt, step.pushAt) else After(s, step)
  }

  function CappedRun<E>(s: Store<E>, steps: seq<Step<E>>): Store<E>
    decreases steps
  {
    if steps == [] then s else CappedRun(CappedAfter(s, steps[0]), steps[1..])
  }

  lemma {:induction false} PruneWithinCap<E>(s: Store<E>, at: int)
    requires WithinCap(s)
    ensures WithinCap(Prune(s, at))
  {
  }

  lemma {:induction false} AttemptWithinCap<E>(s: Store<E>, step: Step<E>)
    requires WithinCap(s) && step.WakeStep?
    ensures WithinCap(After(s, step))
  {
    PruneWithinCap(s, step.pruneAt);
  }

  lemma {:induction false} StepWithinCap<E>(s: Store<E>, step: Step<E>)
    requires WithinCap(s)
    ensures WithinCap(CappedAfter(s, step))
  {
    match step
    case PushStep(_, _, pruneAt, _) => PruneWithinCap(s, pruneAt);
    case WakeStep(_, _, _, _, _) => AttemptWithinCap(s, step);
    case EnterStep(waiter, timeout, t) =>
      PruneWithinCap(s, t.pruneAt);
      AttemptWithinCap(Prune(s, t.pruneAt), WakeStep(waiter, t.startAt + timeout, false, t.retryAt, t.checkAt));
  }

  /** With the intended push every queue stays within the cap, over every run. */
  lemma {:induction false} CappedRunsStayWithinCap<E>(s: Store<E>, steps: seq<Step<E>>)
    requires WithinCap(s)
    ensures WithinCap(CappedRun(s, steps))
    decreases steps
  {
    if steps != [] {
      StepWithinCap(s, steps[0]);
      CappedRunsStayWithinCap(CappedAfter(s, steps[0]), steps[1..]);
    }
  }

  function Burst<E>(key: string, entry: E, at: int, n: nat): seq<Step<E>> { seq(n, _ => PushStep(key, entry, at, at)) }

  /** Any number of pushes at one instant all stay queued, so no bound on the queue holds over all runs. */
  lemma {:induction false} BurstIsKeptWhole<E>(s: Store<E>, key: string, entry: E, at: int, n: nat)
    requires forall i :: 0 <= i < |Queue(s, key)| ==> Queue(s, key)[i].pushedAt == at
    ensures |Queue(RunStore(s, Burst(key, entry, at, n)), key)| == |Queue(s, key)| + n
    decreases n
  {
    if n > 0 {
      var steps := Burst(key, entry, at, n);
      assert steps[1..] == Burst(key, entry, at, n - 1);
      PruneQueue(s, at, key);
      var s' := After(s, steps[0]);
      assert Queue(s', key) == Queue(s, key) + [Timed(entry, at)];
      BurstIsKeptWhole(s', key, entry, at, n - 1);
    }
  }

  // ---- The object ----

  class HandshakeStore<E> {
    var m: Store<E>

    constructor ()
      ensures m == map[]
    {
      m := map[];
    }

    method PruneExpired(now: int)
      modifies this
      ensures m == Prune(old(m), now)
    {
      hide StaleFrom, Stale, Trim;
      var cutoff := now - ENTRY_TTL;
      var before := m;
      var keys := m.Keys;
      while keys != {}
        invariant keys <= before.Keys
        invariant forall key :: key in keys ==> key in m && m[key] == before[key]
        invariant forall key :: key in m ==> key in before
        invariant forall key :: key in before && key !in keys ==>
                    (key in m <==> Trim(before[key], cutoff) != [])
                        && (key in m ==> m[key] == Trim(before[key], cutoff))
        decreases |keys|
      {
        var key :| key in keys;
        keys := keys - {key};
        var q := m[key];
        var trim := CountStale(q, cutoff);
        if trim > 0 { q := q[trim..]; }
        assert q == Trim(before[key], cutoff);
        if |q| == 0 {
          m := m - {key};
        } else {
          m := m[key := q];
        }
      }
      assert m == Prune(before, now);
    }

    method Push(key: string, entry: E, pruneAt: int, pushAt: int)
      modifies this
      ensures m == Pushed(old(m), key, entry, pruneAt, pushAt)
    {
      PruneExpired(pruneAt);
      var q := Queue(m, key);
      if |q| >= MAX_QUEUE_PER_KEY { q := q[1..]; }
      m := m[key := Queue(m, key) + [Timed(entry, pushAt)]];
    }

    method Take(key: string) returns (entry: E)
      requires Queue(m, key) != []
      modifies this
      ensures m == Taken(old(m), key) && entry == old(Queue(m, key))[0].entry
    {
      var q := m[key];
      entry := q[0].entry;
      m := m[key := q[1..]];
      if |m[key]| == 0 { m := m - {key}; }
    }

    method Retry(key: string, deadline: int, timedOut: bool, pruneAt: int, now: int) returns (out: Outcome<E>)
      modifies this
      ensures (m, out) == Attempt(old(m), key, deadline, timedOut, pruneAt, now)
    {
      PruneExpired(pruneAt);
      var q := Queue(m, key);
      if |q| > 0 {
        if q[0].pushedAt > deadline { return Missed; }
        var entry := Take(key);
        return Got(entry);
      }
      if timedOut || now > deadline { return Missed; }
      return Waiting(deadline);
    }

    method PopWait(key: string, timeout: int, t: Clock) returns (out: Outcome<E>)
      modifies this
      ensures (m, out) == Entered(old(m), key, timeout, t)
    {
      PruneExpired(t.pruneAt);
      if |Queue(m, key)| > 0 {
        var entry := Take(key);
        return Got(entry);
      }
      if timeout <= 0 { return Missed; }
      out := Retry(key, t.startAt + timeout, false, t.retryAt, t.checkAt);
    }
  }

  method CountStale<E>(q: seq<Timed<E>>, cutoff: int) returns (trim: nat)
    ensures trim == Stale(q, cutoff) && trim <= |q| && q[trim..] == Trim(q, cutoff)
  {
    trim := 0;
    while trim < |q| && q[trim].pushedAt < cutoff
      invariant trim <= |q| && Stale(q, cutoff) == StaleFrom(q, trim, cutoff)
    {
      trim := trim + 1;
    }
  }
}

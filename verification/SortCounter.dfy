/** The shared sort counter: what every interleaving of its atomic steps guarantees. */
module SortCounter {

  const MAX_INT64 := 0x7fff_ffff_ffff_ffff
  const MIN_INT64 := -0x8000_0000_0000_0000

  type Int64 = x: int | MIN_INT64 <= x <= MAX_INT64

  /** Where a goroutine stands in `UpdateSortCounterIfHigher`. */
  datatype Place = Outside | Looping(val: Int64) | Loaded(val: Int64, curr: Int64)

  datatype State = State(counter: Int64, places: map<nat, Place>)

  function PlaceOf(s: State, who: nat): Place { if who in s.places then s.places[who] else Outside }

  /** One atomic step. An update is called, then loads and swaps until it returns. */
  datatype Event =
    | Next(who: nat)
    | Call(who: nat, val: Int64)
    | Load(who: nat)
    | Swap(who: nat)
    | Init(value: Int64)

  predicate Enabled(s: State, e: Event) {
    match e
    case Next(who) => PlaceOf(s, who).Outside?
    case Call(who, _) => PlaceOf(s, who).Outside?
    case Load(who) => PlaceOf(s, who).Looping?
    case Swap(who) => PlaceOf(s, who).Loaded?
    case Init(_) => true
  }

  /** Adding one wraps at the largest value. */
  function Increment(c: Int64): Int64 { if c == MAX_INT64 then MIN_INT64 else c + 1 }

  function Step(s: State, e: Event): State
    requires Enabled(s, e)
  {
    match e
    case Next(_) => s.(counter := Increment(s.counter))
    case Call(who, val) => s.(places := s.places[who := Looping(val)])
    case Load(who) =>
      var val := PlaceOf(s, who).val;
      s.(places := s.places[who := if val <= s.counter then Outside else Loaded(val, s.counter)])
    case Swap(who) =>
      var p := PlaceOf(s, who);
      if s.counter == p.curr then State(p.val, s.places[who := Outside])
          else s.(places := s.places[who := Looping(p.val)])
    case Init(value) => s.(counter := value)
  }

  /** The number a step hands out. */
  function Issued(s: State, e: Event): seq<Int64> { if e.Next? then [Increment(s.counter)] else [] }

  /** The step with which an update of `val` returns. */
  predicate Returns(s: State, e: Event, val: Int64)
    requires Enabled(s, e)
  {
    (e.Load? || e.Swap?) && PlaceOf(s, e.who).val == val && PlaceOf(Step(s, e), e.who).Outside?
  }

  ghost predicate Legal(s: State, run: seq<Event>)
    decreases run
  {
    run == [] || (Enabled(s, run[0]) && Legal(Step(s, run[0]), run[1..]))
  }

  function End(s: State, run: seq<Event>): State
    requires Legal(s, run)
    decreases run
  {
    if run == [] then s else End(Step(s, run[0]), run[1..])
  }

  function AllIssued(s: State, run: seq<Event>): seq<Int64>
    requires Legal(s, run)
    decreases run
  {
    if run == [] then [] else Issued(s, run[0]) + AllIssued(Step(s, run[0]), run[1..])
  }

  /** The step neither overwrites the counter nor increments it past the largest value. */
  predicate Steady(s: State, e: Event) { !e.Init? && (e.Next? ==> s.counter < MAX_INT64) }

  ghost predicate SteadyRun(s: State, run: seq<Event>)
    requires Legal(s, run)
    decreases run
  {
    run == [] || (Steady(s, run[0]) && SteadyRun(Step(s, run[0]), run[1..]))
  }

  /** A goroutine about to swap means to raise the counter above what it loaded, and no one has gone below that. */
  ghost predicate Sound(s: State) {
    forall who :: who in s.places && s.places[who].Loaded? ==>
        s.places[who].curr < s.places[who].val && s.places[who].curr <= s.counter
  }

  lemma {:induction false} StepKeepsSound(s: State, e: Event)
    requires Enabled(s, e) && Sound(s) && Steady(s, e)
    ensures Sound(Step(s, e))
    ensures s.counter <= Step(s, e).counter
  {
    if e.Swap? { assert e.who in s.places && s.places[e.who].Loaded?; }
  }

  lemma {:induction false} NeverDecreases(s: State, run: seq<Event>)
    requires Legal(s, run) && Sound(s) && SteadyRun(s, run)
    ensures s.counter <= End(s, run).counter && Sound(End(s, run))
    decreases run
  {
    if run != [] {
      StepKeepsSound(s, run[0]);
      NeverDecreases(Step(s, run[0]), run[1..]);
    }
  }

  /** How often a number is asked for in a run. */
  function Requests(run: seq<Event>): nat {
    if run == [] then 0 else (if run[0].Next? then 1 else 0) + Requests(run[1..])
  }

  /** Every request gets a number. */
  lemma {:induction false} EveryRequestIsServed(s: State, run: seq<Event>)
    requires Legal(s, run)
    ensures |AllIssued(s, run)| == Requests(run)
    decreases run
  {
    if run != [] { EveryRequestIsServed(Step(s, run[0]), run[1..]); }
  }

  /** Strictly increasing numbers above one bound and at most the other. */
  ghost predicate Between(low: int, numbers: seq<Int64>, high: int) {
    && (forall i :: 0 <= i < |numbers| ==> low < numbers[i] <= high)
    && (forall i, j :: 0 <= i < j < |numbers| ==> numbers[i] < numbers[j])
  }

  /** Numbers come out strictly increasing, above where the counter stood and never above where it ends. */
  lemma {:induction false} IssuedNumbersIncrease(s: State, run: seq<Event>)
    requires Legal(s, run) && Sound(s) && SteadyRun(s, run)
    ensures Between(s.counter, AllIssued(s, run), End(s, run).counter)
    decreases run
  {
    if run != [] {
      var s' := Step(s, run[0]);
      StepKeepsSound(s, run[0]);
      IssuedNumbersIncrease(s', run[1..]);
      NeverDecreases(s', run[1..]);
      hide Step, Sound, AllIssued, End;
      StillIncreasing(s.counter, Issued(s, run[0]), s'.counter, AllIssued(s', run[1..]), End(s', run[1..]).counter);
    }
  }

  lemma {:induction false} StillIncreasing(low: int, first: seq<Int64>, mid: int, later: seq<Int64>, high: int)
    requires low <= mid <= high && |first| <= 1 && (first != [] ==> low < first[0] <= mid) && Between(mid, later, high)
    ensures Between(low, first + later, high)
  {
    var all := first + later;
    forall i | 0 <= i < |all| ensures all[i] == if i < |first| then first[i] else later[i - |first|] { }
  }

  /** Once an update of `val` has returned, every number issued by anyone is above `val`. */
  lemma {:induction false} NumbersAfterUpdateExceedIt(s: State, e: Event, val: Int64, run: seq<Event>)
    requires Enabled(s, e) && Sound(s) && Returns(s, e, val)
    requires Legal(Step(s, e), run) && SteadyRun(Step(s, e), run)
    ensures forall i :: 0 <= i < |AllIssued(Step(s, e), run)| ==> val < AllIssued(Step(s, e), run)[i]
  {
    StepKeepsSound(s, e);
    assert val <= Step(s, e).counter;
    IssuedNumbersIncrease(Step(s, e), run);
  }

  /**
   * A swap fails only because others raised the counter meanwhile, so at its next load the update is
   * strictly closer to its value: it retries at most as often as the counter moves below `val`.
   */
  lemma {:induction false} FailedSwapMeansProgress(s: State, who: nat)
    requires Sound(s) && Enabled(s, Swap(who))
    ensures var p := PlaceOf(s, who);
            var s' := Step(s, Swap(who));
            && (PlaceOf(s', who).Outside? <==> s.counter == p.curr)
            && (!PlaceOf(s', who).Outside? ==>
                  s'.counter == s.counter > p.curr && PlaceOf(s', who) == Looping(p.val)
                  && p.val - s'.counter < p.val - p.curr)
  {
    assert who in s.places && s.places[who].Loaded?;
  }

  /** The counter has 64 bits: a number is one above the last, and the largest is followed by the smallest. */
  lemma {:induction false} NextIsOneMore(s: State, who: nat)
    requires PlaceOf(s, who).Outside?
    ensures var n := Step(s, Next(who)).counter;
            && Issued(s, Next(who)) == [n]
            && (if s.counter == 9_223_372_036_854_775_807 then n == -9_223_372_036_854_775_808 else n == s.counter + 1)
  {
  }

  /** A step lowers the counter exactly when it overwrites it with less or wraps it. */
  lemma {:induction false} LowersIff(s: State, e: Event)
    requires Enabled(s, e) && Sound(s)
    ensures Step(s, e).counter < s.counter <==> (e.Next? && s.counter == MAX_INT64) || (e.Init? && e.value < s.counter)
  {
    if Steady(s, e) { StepKeepsSound(s, e); }
  }

  /** An update raises the counter to its value and no further, and only when the value is higher. */
  lemma {:induction false} UpdateAloneIsMaximum(s: State, who: nat, val: Int64)
    requires PlaceOf(s, who).Outside?
    ensures var run := if val <= s.counter then [Call(who, val), Load(who)] else [Call(who, val), Load(who), Swap(who)];
            && Legal(s, run)
            && End(s, run).counter == (if val <= s.counter then s.counter else val)
            && PlaceOf(End(s, run), who).Outside?
  {
    var s1 := Step(s, Call(who, val));
    var s2 := Step(s1, Load(who));
    if val <= s.counter {
      var run := [Call(who, val), Load(who)];
      assert run[1..] == [Load(who)] && run[1..][1..] == [];
      assert Legal(s2, []);
      assert Legal(s1, run[1..]) && End(s1, run[1..]) == s2;
    } else {
      var run := [Call(who, val), Load(who), Swap(who)];
      var s3 := Step(s2, Swap(who));
      assert run[1..] == [Load(who), Swap(who)] && run[1..][1..] == [Swap(who)] && run[1..][1..][1..] == [];
      assert Legal(s3, []);
      assert Legal(s2, run[1..][1..]) && End(s2, run[1..][1..]) == s3;
      assert Legal(s1, run[1..]) && End(s1, run[1..]) == s3;
    }
  }
}

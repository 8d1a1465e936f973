/** Routing mocks into pools around a test window: the two-pool filter, the three-pool filter, and their laws. */
module MockRouting {
  import opened Text
  import opened Mocks

  const NO_TIME := 0

  /** The outer test's window, the strictness in force, and the earliest window start seen (0 for none). */
  datatype Window = Window(after: int, before: int, strict: bool, firstStart: int) {
    predicate Bounded() { after != NO_TIME && before != NO_TIME }
    predicate Holds(t: int) { after <= t <= before }
    predicate Startup(t: int) { firstStart != NO_TIME && t < firstStart }
  }

  datatype Pool = Filtered | Unfiltered | Startup | Dropped

  datatype Routed = Routed(pool: Pool, mock: Mock)

  predicate Undated(m: Mock) { m.reqTime == NO_TIME || m.resTime == NO_TIME }

  predicate Inverted(m: Mock) { m.resTime < m.reqTime }

  function EffectiveLifetime(m: Mock): Lifetime {
    if !m.lifetime.PerTest? then m.lifetime
    else if m.lifetimeDerived then m.lifetime
    else if m.Meta("type") == "config" then Session
    else if m.Meta("type") == "connection" then Connection
    else PerTest
  }

  /** The lifetime as the two-pool filter reads it: the tag counts even on a mock derived as per-test. */
  function TaggedLifetime(m: Mock): Lifetime {
    if !m.lifetime.PerTest? then m.lifetime
    else if m.Meta("type") == "config" then Session
    else if m.Meta("type") == "connection" then Connection
    else PerTest
  }

  /** A dated per-test mock: inside the window, or outside it with startup traffic going to `startupPool`. */
  function RoutePerTest(w: Window, m: Mock, startupPool: Pool): Routed {
    if w.Holds(m.reqTime) then Routed(Filtered, m.(isFiltered := true))
    else if !w.strict then Routed(Unfiltered, m.(isFiltered := false))
    else if w.Startup(m.reqTime) then Routed(startupPool, m.(isFiltered := true))
    else Routed(Dropped, m)
  }

  /** Routing once the mock's lifetime has been read. */
  function RouteAs(three: bool, w: Window, m: Mock, lifetime: Lifetime): Routed {
    if Undated(m) then Routed(Filtered, m.(isFiltered := true))
    else if Inverted(m) then Routed(Dropped, m)
    else if lifetime.PerTest? then RoutePerTest(w, m, if three then Startup else Filtered)
    else Routed(if three && lifetime.Connection? then Startup else Unfiltered,
        m.(lifetime := lifetime, isFiltered := false))
  }

  function Route(three: bool, w: Window, m: Mock): Routed {
    RouteAs(three, w, m, if three then EffectiveLifetime(m) else TaggedLifetime(m))
  }

  /** The mocks routed to a pool, in input order; missing entries are skipped. */
  function Routes(three: bool, w: Window, ms: seq<Option<Mock>>, pool: Pool): seq<Option<Mock>> {
    if ms == [] then []
    else Routes(three, w, ms[..|ms| - 1], pool) + Arrival(three, w, ms[|ms| - 1], pool)
  }

  function Arrival(three: bool, w: Window, m: Option<Mock>, pool: Pool): seq<Option<Mock>> {
    if m.Some? then Landing(Route(three, w, m.value), pool) else []
  }

  function Landing(r: Routed, pool: Pool): seq<Option<Mock>> {
    if r.pool == pool then [Some(r.mock)] else []
  }

  lemma {:induction false} RoutesNone(three: bool, w: Window)
    ensures forall pool :: Routes(three, w, [], pool) == []
  {
  }

  lemma {:induction false} RoutesNext(three: bool, w: Window, ms: seq<Option<Mock>>, i: nat)
    requires i < |ms|
    ensures forall pool :: Routes(three, w, ms[..i + 1], pool)
                        == Routes(three, w, ms[..i], pool) + Arrival(three, w, ms[i], pool)
  {
    hide Arrival;
    assert ms[..i + 1][..i] == ms[..i];
  }

  /** The pools of the two-pool filter, which hands the list back as it is when a bound of the window is not set. */
  function TwoPool(w: Window, ms: seq<Option<Mock>>, pool: Pool): seq<Option<Mock>> {
    if w.Bounded() then Routes(false, w, ms, pool) else if pool.Filtered? then ms else []
  }

  /** `filterByTimeStampTierAware`. */
  method FilterTwoPools(ms: seq<Option<Mock>>, w: Window)
    returns (filtered: seq<Option<Mock>>, unfiltered: seq<Option<Mock>>)
    ensures filtered == TwoPool(w, ms, Filtered) && unfiltered == TwoPool(w, ms, Unfiltered)
  {
    filtered, unfiltered := [], [];
    if w.after == NO_TIME { return ms, []; }
    if w.before == NO_TIME { return ms, []; }
    for i := 0 to |ms|
      invariant filtered == Routes(false, w, ms[..i], Filtered) && unfiltered == Routes(false, w, ms[..i], Unfiltered)
    {
      assert ms[..i + 1][..i] == ms[..i];
      if ms[i].None? { continue; }
      var p := ms[i].value;
      if p.reqTime == NO_TIME || p.resTime == NO_TIME {
        filtered := filtered + [Some(p.(isFiltered := true))];
        continue;
      }
      if p.resTime < p.reqTime { continue; }
      if p.lifetime.Session? || p.lifetime.Connection? {
        unfiltered := unfiltered + [Some(p.(isFiltered := false))];
        continue;
      }
      if p.Meta("type") == "config" || p.Meta("type") == "connection" {
        p := p.(lifetime := if p.Meta("type") == "config" then Session else Connection, isFiltered := false);
        unfiltered := unfiltered + [Some(p)];
        continue;
      }
      if w.after <= p.reqTime <= w.before {
        filtered := filtered + [Some(p.(isFiltered := true))];
        continue;
      }
      if w.strict {
        if w.firstStart != NO_TIME && p.reqTime < w.firstStart {
          filtered := filtered + [Some(p.(isFiltered := true))];
        }
      } else {
        unfiltered := unfiltered + [Some(p.(isFiltered := false))];
      }
    }
    assert ms[..|ms|] == ms;
  }

  /** Without a window the three-pool filter partitions by lifetime alone. */
  function Unwindowed(m: Mock): Routed {
    match EffectiveLifetime(m)
    case Session => Routed(Unfiltered, m.(isFiltered := false))
    case Connection => Routed(Startup, m.(isFiltered := false))
    case PerTest => Routed(Filtered, m.(isFiltered := true))
  }

  function UnwindowedRoutes(ms: seq<Option<Mock>>, pool: Pool): seq<Option<Mock>> {
    if ms == [] then []
    else
      var last := ms[|ms| - 1];
      UnwindowedRoutes(ms[..|ms| - 1], pool) +
      if last.Some? && Unwindowed(last.value).pool == pool then [Some(Unwindowed(last.value).mock)] else []
  }

  /** The pools of the three-pool filter. */
  function ThreePool(w: Window, ms: seq<Option<Mock>>, pool: Pool): seq<Option<Mock>> {
    if w.Bounded() then Routes(true, w, ms, pool) else UnwindowedRoutes(ms, pool)
  }

  /** `FilterByTimeStampThreeTier`. */
  method FilterThreePools(ms: seq<Option<Mock>>, w: Window)
    returns (filtered: seq<Option<Mock>>, unfiltered: seq<Option<Mock>>, startup: seq<Option<Mock>>)
    ensures filtered == ThreePool(w, ms, Filtered) && unfiltered == ThreePool(w, ms, Unfiltered)
    ensures startup == ThreePool(w, ms, Startup)
  {
    if w.after == NO_TIME || w.before == NO_TIME {
      filtered, unfiltered, startup := PartitionByLifetime(ms);
      return;
    }
    hide Routes;
    filtered, unfiltered, startup := [], [], [];
    RoutesNone(true, w);
    for i := 0 to |ms|
      invariant filtered == Routes(true, w, ms[..i], Filtered)
      invariant unfiltered == Routes(true, w, ms[..i], Unfiltered)
      invariant startup == Routes(true, w, ms[..i], Startup)
    {
      RoutesNext(true, w, ms, i);
      if ms[i].None? { continue; }
      var p := ms[i].value;
      if p.reqTime == NO_TIME || p.resTime == NO_TIME {
        filtered := filtered + [Some(p.(isFiltered := true))];
        continue;
      }
      if p.resTime < p.reqTime { continue; }
      var lifetime := EffectiveLifetime(p);
      if lifetime.Connection? {
        startup := startup + [Some(p.(isFiltered := false, lifetime := Connection))];
        continue;
      } else if lifetime.Session? {
        unfiltered := unfiltered + [Some(p.(isFiltered := false, lifetime := Session))];
        continue;
      }
      if w.after <= p.reqTime <= w.before {
        filtered := filtered + [Some(p.(isFiltered := true))];
        continue;
      }
      if w.strict {
        if w.firstStart != NO_TIME && p.reqTime < w.firstStart {
          startup := startup + [Some(p.(isFiltered := true))];
        }
      } else {
        unfiltered := unfiltered + [Some(p.(isFiltered := false))];
      }
    }
    assert ms[..|ms|] == ms;
  }

  method PartitionByLifetime(ms: seq<Option<Mock>>)
    returns (filtered: seq<Option<Mock>>, unfiltered: seq<Option<Mock>>, startup: seq<Option<Mock>>)
    ensures filtered == UnwindowedRoutes(ms, Filtered) && unfiltered == UnwindowedRoutes(ms, Unfiltered)
    ensures startup == UnwindowedRoutes(ms, Startup)
  {
    filtered, unfiltered, startup := [], [], [];
    for i := 0 to |ms|
      invariant filtered == UnwindowedRoutes(ms[..i], Filtered)
      invariant unfiltered == UnwindowedRoutes(ms[..i], Unfiltered)
      invariant startup == UnwindowedRoutes(ms[..i], Startup)
    {
      assert ms[..i + 1][..i] == ms[..i];
      if ms[i].None? { continue; }
      var p := ms[i].value;
      match EffectiveLifetime(p)
      case Session => unfiltered := unfiltered + [Some(p.(isFiltered := false))];
      case Connection => startup := startup + [Some(p.(isFiltered := false))];
      case PerTest => filtered := filtered + [Some(p.(isFiltered := true))];
    }
    assert ms[..|ms|] == ms;
  }

  // ---- The two filters route alike ----

  /** The entries of a pool that have a given lifetime. */
  function OfLifetime(pool: seq<Option<Mock>>, lifetime: Lifetime): seq<Option<Mock>> {
    if pool == [] then []
    else
      var last := pool[|pool| - 1];
      OfLifetime(pool[..|pool| - 1], lifetime) + if last.Some? && last.value.lifetime == lifetime then [last] else []
  }

  lemma {:induction false} OfLifetimeConcat(a: seq<Option<Mock>>, b: seq<Option<Mock>>, lifetime: Lifetime)
    ensures OfLifetime(a + b, lifetime) == OfLifetime(a, lifetime) + OfLifetime(b, lifetime)
  {
    if b == [] {
      assert a + b == a;
    } else {
      assert (a + b)[..|a + b| - 1] == a + b[..|b| - 1];
      OfLifetimeConcat(a, b[..|b| - 1], lifetime);
    }
  }

  type Bag = multiset<Option<Mock>>

  ghost predicate SameFiltered(w: Window, ms: seq<Option<Mock>>) {
    multiset(TwoPool(w, ms, Filtered)) ==
    multiset(ThreePool(w, ms, Filtered)) + multiset(OfLifetime(ThreePool(w, ms, Startup), PerTest))
  }

  ghost predicate SameUnfiltered(w: Window, ms: seq<Option<Mock>>) {
    multiset(TwoPool(w, ms, Unfiltered)) == ThreePoolUnfiltered(w, ms)
  }

  /** A mock the two filters disagree on. */
  predicate Disputed(m: Option<Mock>) {
    m.Some? && !Undated(m.value) && !Inverted(m.value) && Contradictory(m.value)
  }

  /** What a disputed mock adds to the two-pool unfiltered pool, or to its three-pool counterpart. */
  ghost function Excess(three: bool, w: Window, m: Option<Mock>): Bag {
    if Disputed(m) then multiset(Arrival(three, w, m, Unfiltered)) else multiset{}
  }

  ghost function TotalExcess(three: bool, w: Window, ms: seq<Option<Mock>>): Bag {
    if ms == [] then multiset{} else TotalExcess(three, w, ms[..|ms| - 1]) + Excess(three, w, ms[|ms| - 1])
  }

  lemma {:induction false} RoutesSnoc(three: bool, w: Window, ms: seq<Option<Mock>>, pool: Pool, lifetime: Lifetime)
    requires ms != []
    ensures var before, a := Routes(three, w, ms[..|ms| - 1], pool), Arrival(three, w, ms[|ms| - 1], pool);
            && multiset(Routes(three, w, ms, pool)) == multiset(before) + multiset(a)
            && multiset(OfLifetime(Routes(three, w, ms, pool), lifetime)) ==
               multiset(OfLifetime(before, lifetime)) + multiset(OfLifetime(a, lifetime))
  {
    OfLifetimeConcat(Routes(three, w, ms[..|ms| - 1], pool), Arrival(three, w, ms[|ms| - 1], pool), lifetime);
  }

  lemma {:induction false} LandingOfLifetime(r: Routed, pool: Pool, lifetime: Lifetime)
    ensures OfLifetime(Landing(r, pool), lifetime) == if r.mock.lifetime == lifetime then Landing(r, pool) else []
  {
    assert |Landing(r, pool)| == 1 ==> Landing(r, pool)[..0] == [];
  }

  /** Read with one lifetime, a mock is routed alike by both filters. */
  lemma {:induction false} LandingsAgree(w: Window, m: Mock, lifetime: Lifetime)
    requires lifetime.PerTest? ==> m.lifetime.PerTest?
    ensures var two, three := RouteAs(false, w, m, lifetime), RouteAs(true, w, m, lifetime);
            && Landing(two, Filtered) == Landing(three, Filtered) + OfLifetime(Landing(three, Startup), PerTest)
            && Landing(two, Unfiltered) == Landing(three, Unfiltered) + OfLifetime(Landing(three, Startup), Connection)
  {
    var three := RouteAs(true, w, m, lifetime);
    LandingOfLifetime(three, Startup, PerTest);
    LandingOfLifetime(three, Startup, Connection);
  }

  lemma {:induction false} ArrivalsAgree(w: Window, m: Option<Mock>)
    requires !Disputed(m)
    ensures Arrival(false, w, m, Filtered)
        == Arrival(true, w, m, Filtered) + OfLifetime(Arrival(true, w, m, Startup), PerTest)
    ensures Arrival(false, w, m, Unfiltered)
        == Arrival(true, w, m, Unfiltered) + OfLifetime(Arrival(true, w, m, Startup), Connection)
  {
    if m.Some? {
      LandingsAgree(w, m.value, EffectiveLifetime(m.value));
      assert RouteAs(false, w, m.value, TaggedLifetime(m.value))
          == RouteAs(false, w, m.value, EffectiveLifetime(m.value));
    }
  }

  lemma {:induction false} ArrivalExcess(w: Window, m: Option<Mock>)
    ensures multiset(Arrival(false, w, m, Unfiltered)) + Excess(true, w, m) ==
            multiset(Arrival(true, w, m, Unfiltered))
                + multiset(OfLifetime(Arrival(true, w, m, Startup), Connection)) + Excess(false, w, m)
    ensures forall x :: x in Excess(false, w, m) ==> x.Some? && !x.value.lifetime.PerTest?
    ensures forall x :: x in Excess(true, w, m) ==> x.Some? && x.value.lifetime.PerTest?
    ensures Excess(false, w, m) == multiset{} <==> !Disputed(m)
  {
    if Disputed(m) {
      DisputedArrivals(w, m);
      hide Arrival, Disputed;
    } else {
      hide Arrival, Disputed;
      ArrivalsAgree(w, m);
    }
  }

  /** A disputed mock goes to the unfiltered pool of the two-pool filter, and per test in the three-pool filter. */
  lemma {:induction false} DisputedArrivals(w: Window, m: Option<Mock>)
    requires Disputed(m)
    ensures var two, three := Arrival(false, w, m, Unfiltered), Arrival(true, w, m, Unfiltered);
            && OfLifetime(Arrival(true, w, m, Startup), Connection) == []
            && |two| == 1 && two[0].Some? && !two[0].value.lifetime.PerTest?
            && forall x :: x in three ==> x.Some? && x.value.lifetime.PerTest?
  {
    var three := Route(true, w, m.value);
    LandingOfLifetime(three, Startup, Connection);
    assert three.mock.lifetime.PerTest?;
  }

  lemma {:induction false} BagExchange<T>(a: multiset<T>, b: multiset<T>, a': multiset<T>, b': multiset<T>)
    ensures (a + a') + (b + b') == (a + b) + (a' + b')
  {
  }

  lemma {:induction false} BagEmpty<T>(a: multiset<T>, b: multiset<T>)
    ensures a + b == multiset{} <==> a == multiset{} && b == multiset{}
  {
    assert |a + b| == |a| + |b|;
  }

  /** What the three-pool filter puts where the two-pool filter has its unfiltered pool. */
  ghost function ThreePoolUnfiltered(w: Window, ms: seq<Option<Mock>>): Bag {
    multiset(ThreePool(w, ms, Unfiltered)) + multiset(OfLifetime(ThreePool(w, ms, Startup), Connection))
  }

  /** The unfiltered pools differ exactly by the excess of the disputed mocks. */
  lemma {:induction false} ExcessExplains(w: Window, ms: seq<Option<Mock>>)
    requires w.Bounded()
    ensures multiset(TwoPool(w, ms, Unfiltered)) + TotalExcess(true, w, ms)
        == ThreePoolUnfiltered(w, ms) + TotalExcess(false, w, ms)
    decreases |ms|
  {
    if ms != [] {
      var before, last := ms[..|ms| - 1], ms[|ms| - 1];
      ExcessExplains(w, before);
      RoutesSnoc(false, w, ms, Unfiltered, Connection);
      RoutesSnoc(true, w, ms, Unfiltered, Connection);
      RoutesSnoc(true, w, ms, Startup, Connection);
      ArrivalExcess(w, last);
      var two, two' := multiset(Routes(false, w, before, Unfiltered)), multiset(Arrival(false, w, last, Unfiltered));
      var three, three' := multiset(Routes(true, w, before, Unfiltered)), multiset(Arrival(true, w, last, Unfiltered));
      var conn, conn' := multiset(OfLifetime(Routes(true, w, before, Startup), Connection)),
          multiset(OfLifetime(Arrival(true, w, last, Startup), Connection));
      BagExchange(two, TotalExcess(true, w, before), two', Excess(true, w, last));
      BagExchange(three, conn, three', conn');
      BagExchange(three + conn, TotalExcess(false, w, before), three' + conn', Excess(false, w, last));
    }
  }

  lemma {:induction false} ExcessLifetimes(w: Window, ms: seq<Option<Mock>>)
    ensures forall x :: x in TotalExcess(false, w, ms) ==> x.Some? && !x.value.lifetime.PerTest?
    ensures forall x :: x in TotalExcess(true, w, ms) ==> x.Some? && x.value.lifetime.PerTest?
    decreases |ms|
  {
    if ms != [] {
      ExcessLifetimes(w, ms[..|ms| - 1]);
      ArrivalExcess(w, ms[|ms| - 1]);
    }
  }

  ghost predicate Undisputed(ms: seq<Option<Mock>>) { forall i :: 0 <= i < |ms| ==> !Disputed(ms[i]) }

  lemma {:induction false} UndisputedSnoc(ms: seq<Option<Mock>>)
    requires ms != []
    ensures Undisputed(ms) <==> Undisputed(ms[..|ms| - 1]) && !Disputed(ms[|ms| - 1])
  {
    assert forall i :: 0 <= i < |ms| - 1 ==> ms[..|ms| - 1][i] == ms[i];
  }

  lemma {:induction false} NoExcessIffUndisputed(w: Window, ms: seq<Option<Mock>>)
    ensures TotalExcess(false, w, ms) == multiset{} <==> Undisputed(ms)
    ensures Undisputed(ms) ==> TotalExcess(true, w, ms) == multiset{}
    decreases |ms|
  {
    if ms != [] {
      var before, last := ms[..|ms| - 1], ms[|ms| - 1];
      NoExcessIffUndisputed(w, before);
      UndisputedSnoc(ms);
      assert Excess(false, w, last) == multiset{} <==> !Disputed(last) by { ArrivalExcess(w, last); }
      BagEmpty(TotalExcess(false, w, before), Excess(false, w, last));
      BagEmpty(TotalExcess(true, w, before), Excess(true, w, last));
    }
  }

  lemma {:induction false} FilteredAgree(w: Window, ms: seq<Option<Mock>>)
    requires w.Bounded()
    requires Undisputed(ms)
    ensures SameFiltered(w, ms)
    decreases |ms|
  {
    if ms != [] {
      FilteredAgree(w, ms[..|ms| - 1]);
      RoutesSnoc(false, w, ms, Filtered, PerTest);
      RoutesSnoc(true, w, ms, Filtered, PerTest);
      RoutesSnoc(true, w, ms, Startup, PerTest);
      ArrivalsAgree(w, ms[|ms| - 1]);
    }
  }

  /** The two filters route a list alike exactly when it holds no disputed mock. */
  lemma {:induction false} FiltersRouteAlikeIff(w: Window, ms: seq<Option<Mock>>)
    requires w.Bounded()
    ensures SameFiltered(w, ms) && SameUnfiltered(w, ms) <==> Undisputed(ms)
  {
    ExcessExplains(w, ms);
    NoExcessIffUndisputed(w, ms);
    ExcessLifetimes(w, ms);
    var two, three := TotalExcess(false, w, ms), TotalExcess(true, w, ms);
    var common := multiset(Routes(false, w, ms, Unfiltered));
    if common == ThreePoolUnfiltered(w, ms) {
      assert three == (common + three) - common == (common + two) - common == two;
      assert forall x :: x in two ==> x in three;
      assert two == multiset{};
    }
    if Undisputed(ms) {
      FilteredAgree(w, ms);
      assert common + three == common && ThreePoolUnfiltered(w, ms) + two == ThreePoolUnfiltered(w, ms);
    }
  }

  /** Mocks that went through the classifier are routed alike by both filters, in every window. */
  lemma {:induction false} ClassifiedMocksRouteAlike(w: Window, raw: seq<Mock>, ms: seq<Option<Mock>>, strictEnv: bool)
    requires w.Bounded()
    requires |raw| == |ms| && forall i :: 0 <= i < |ms| ==> !raw[i].lifetimeDerived
    requires forall i :: 0 <= i < |ms| ==> ms[i].None? || ms[i].value == Derive(raw[i], strictEnv)
    ensures SameFiltered(w, ms) && SameUnfiltered(w, ms)
  {
    forall i | 0 <= i < |ms| ensures !Disputed(ms[i]) {
      DeriveIsNeverContradictory(raw[i], strictEnv);
    }
    FiltersRouteAlikeIff(w, ms);
  }

  // ---- Containment and conservation ----

  lemma {:induction false} RoutesMember(three: bool, w: Window, ms: seq<Option<Mock>>, pool: Pool, x: Option<Mock>)
    ensures x in Routes(three, w, ms, pool) <==> exists i :: 0 <= i < |ms| && x in Arrival(three, w, ms[i], pool)
    decreases |ms|
  {
    if ms != [] {
      var before, last := ms[..|ms| - 1], ms[|ms| - 1];
      RoutesMember(three, w, before, pool, x);
      if x in Routes(three, w, before, pool) {
        var i :| 0 <= i < |before| && x in Arrival(three, w, before[i], pool);
        assert ms[i] == before[i];
      }
      if i :| 0 <= i < |ms| && x in Arrival(three, w, ms[i], pool) && i < |ms| - 1 {
        assert before[i] == ms[i];
      }
    }
  }

  /** In strict mode a dated entry of the per-test pool was requested inside the window or before the first one. */
  lemma {:induction false} StrictPoolIsContained(w: Window, ms: seq<Option<Mock>>, p: Mock)
    requires w.Bounded() && w.strict && Some(p) in TwoPool(w, ms, Filtered) && !Undated(p)
    ensures w.Holds(p.reqTime) || w.Startup(p.reqTime)
  {
    RoutesMember(false, w, ms, Filtered, Some(p));
  }

  ghost predicate Disjoint(ws: seq<Window>) {
    forall i, j, t :: 0 <= i < j < |ws| && ws[i].Holds(t) ==> !ws[j].Holds(t)
  }

  /** Over tests with disjoint windows, no dated mock requested since the first start is in two tests' pools. */
  lemma {:induction false} NoMockReachesTwoTests(ws: seq<Window>, ms: seq<seq<Option<Mock>>>, i: nat, j: nat, p: Mock)
    requires |ms| == |ws| && Disjoint(ws) && i < |ws| && j < |ws|
    requires forall k :: 0 <= k < |ws| ==> ws[k].Bounded() && ws[k].strict && ws[k].firstStart == ws[0].firstStart
    requires !Undated(p) && !ws[0].Startup(p.reqTime)
    requires Some(p) in TwoPool(ws[i], ms[i], Filtered) && Some(p) in TwoPool(ws[j], ms[j], Filtered)
    ensures i == j
  {
    StrictPoolIsContained(ws[i], ms[i], p);
    StrictPoolIsContained(ws[j], ms[j], p);
  }

  /**
   * Strict mode loses nothing inside the window: an ordered per-test mock reaches the pool exactly when its request
   * is in it.
   */
  lemma {:induction false} StrictPoolIsExact(w: Window, ms: seq<Option<Mock>>, m: Mock)
    requires w.Bounded() && w.strict && Some(m) in ms && !Undated(m) && !Inverted(m) && TaggedLifetime(m).PerTest?
    requires !w.Startup(m.reqTime)
    ensures Some(m.(isFiltered := true)) in TwoPool(w, ms, Filtered) <==> w.Holds(m.reqTime)
  {
    var p := m.(isFiltered := true);
    RoutesMember(false, w, ms, Filtered, Some(p));
    if w.Holds(m.reqTime) {
      var i :| 0 <= i < |ms| && ms[i] == Some(m);
      assert Some(p) in Arrival(false, w, ms[i], Filtered);
    } else if Some(p) in Routes(false, w, ms, Filtered) {
      StrictPoolIsContained(w, ms, p);
    }
  }

  /** A mock without the marks that routing stamps on it. */
  function Core(m: Mock): Mock { m.(isFiltered := false, lifetime := PerTest) }

  function Cores(pool: seq<Option<Mock>>): seq<Mock> {
    if pool == [] then []
    else
      var last := pool[|pool| - 1];
      Cores(pool[..|pool| - 1]) + if last.Some? then [Core(last.value)] else []
  }

  /** The mocks that routing keeps: all but inverted ones and, in strict mode, stale per-test ones. */
  predicate Keeps(w: Window, m: Mock) {
    Undated(m) ||
    (!Inverted(m) && (!TaggedLifetime(m).PerTest? || !w.strict || w.Holds(m.reqTime) || w.Startup(m.reqTime)))
  }

  function Kept(w: Window, ms: seq<Option<Mock>>): seq<Option<Mock>> {
    if ms == [] then []
    else
      var last := ms[|ms| - 1];
      Kept(w, ms[..|ms| - 1]) + if last.Some? && Keeps(w, last.value) then [last] else []
  }

  lemma {:induction false} CoresSnoc(a: seq<Option<Mock>>, b: seq<Option<Mock>>)
    requires |b| <= 1
    ensures Cores(a + b) == Cores(a) + Cores(b)
  {
    if b == [] {
      assert a + b == a;
    } else {
      assert (a + b)[..|a + b| - 1] == a && b[..0] == [];
    }
  }

  lemma {:induction false} RoutesConserve(w: Window, ms: seq<Option<Mock>>)
    ensures multiset(Cores(Routes(false, w, ms, Filtered))) + multiset(Cores(Routes(false, w, ms, Unfiltered)))
         == multiset(Cores(Kept(w, ms)))
    decreases |ms|
  {
    if ms != [] {
      hide Cores, Arrival, Keeps, Routes;
      RoutesNext(false, w, ms, |ms| - 1);
      assert ms[..|ms|] == ms;
      var before, last := ms[..|ms| - 1], ms[|ms| - 1];
      RoutesConserve(w, before);
      var f, u := Routes(false, w, before, Filtered), Routes(false, w, before, Unfiltered);
      var f', u' := Arrival(false, w, last, Filtered), Arrival(false, w, last, Unfiltered);
      var k' := if last.Some? && Keeps(w, last.value) then [last] else [];
      CoresSnoc(f, f');
      CoresSnoc(u, u');
      CoresSnoc(Kept(w, before), k');
      ArrivalConserves(w, last);
      assert multiset(Cores(f')) + multiset(Cores(u')) == multiset(Cores(f') + Cores(u')) == multiset(Cores(k'));
      BagExchange(multiset(Cores(f)), multiset(Cores(u)), multiset(Cores(f')), multiset(Cores(u')));
    }
  }

  /** Every kept mock lands in exactly one of the two pools, unchanged but for its marks, and nothing else does. */
  lemma {:induction false} RoutingConserves(w: Window, ms: seq<Option<Mock>>)
    ensures multiset(Cores(TwoPool(w, ms, Filtered))) + multiset(Cores(TwoPool(w, ms, Unfiltered)))
         == multiset(Cores(if w.Bounded() then Kept(w, ms) else ms))
  {
    RoutesConserve(w, ms);
  }

  lemma {:induction false} ArrivalConserves(w: Window, m: Option<Mock>)
    ensures Cores(Arrival(false, w, m, Filtered)) + Cores(Arrival(false, w, m, Unfiltered)) ==
            Cores(if m.Some? && Keeps(w, m.value) then [m] else [])
  {
  }

  /** In lax mode only a response that precedes its request is lost. */
  lemma {:induction false} LaxKeepsAllButInverted(w: Window, m: Mock)
    requires !w.strict
    ensures Keeps(w, m) <==> Undated(m) || !Inverted(m)
  {
  }
}

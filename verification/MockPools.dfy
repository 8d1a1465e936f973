/** Which mocks a pool holds, from their dates, lifetimes and tags alone. */
module MockPools {
  import opened Text
  import opened Mocks
  import opened MockRouting

  // ---- What the filters look at ----

  predicate Dateless(m: Mock) { m.reqTime == 0 || m.resTime == 0 }

  predicate InOrder(m: Mock) { m.reqTime != 0 && m.resTime != 0 && m.reqTime <= m.resTime }

  predicate InWindow(w: Window, m: Mock) { w.after <= m.reqTime && m.reqTime <= w.before }

  predicate BeforeFirstWindow(w: Window, m: Mock) { w.firstStart != 0 && m.reqTime < w.firstStart }

  predicate HasTag(m: Mock, tag: string) { "type" in m.metadata && m.metadata["type"] == tag }

  /** Reusable across tests; the tag counts where no lifetime is set and, if `trust`, the lifetime was not derived. */
  predicate SessionLike(m: Mock, trust: bool) {
    m.lifetime.Session? || (m.lifetime.PerTest? && HasTag(m, "config") && !(trust && m.lifetimeDerived))
  }

  predicate ConnectionLike(m: Mock, trust: bool) {
    m.lifetime.Connection? || (m.lifetime.PerTest? && HasTag(m, "connection") && !(trust && m.lifetimeDerived))
  }

  predicate TestLike(m: Mock, trust: bool) { !SessionLike(m, trust) && !ConnectionLike(m, trust) }

  function Filtering(m: Mock): Mock { m.(isFiltered := true) }

  function Reusing(m: Mock, lifetime: Lifetime): Mock { m.(isFiltered := false, lifetime := lifetime) }

  // ---- Pools of a window ----

  /** `p` is what pool `pool` holds of mock `m`: three pools or two, with the startup pool only among three. */
  predicate Belongs(three: bool, w: Window, m: Mock, pool: Pool, p: Mock) {
    match pool
    case Filtered =>
      p == Filtering(m) &&
      (Dateless(m)
       || (InOrder(m) && TestLike(m, three) && (InWindow(w, m) || (!three && w.strict && BeforeFirstWindow(w, m)))))
    case Unfiltered =>
      InOrder(m) &&
      (|| (SessionLike(m, three) && p == Reusing(m, Session))
       || (!three && ConnectionLike(m, three) && p == Reusing(m, Connection))
       || (TestLike(m, three) && !InWindow(w, m) && !w.strict && p == Reusing(m, PerTest)))
    case Startup =>
      three && InOrder(m) &&
      (|| (ConnectionLike(m, three) && p == Reusing(m, Connection))
       || (TestLike(m, three) && !InWindow(w, m) && w.strict && BeforeFirstWindow(w, m) && p == Filtering(m)))
    case Dropped => false
  }

  function PoolOf(three: bool, w: Window, ms: seq<Option<Mock>>, pool: Pool): seq<Option<Mock>> {
    if three then ThreePool(w, ms, pool) else TwoPool(w, ms, pool)
  }

  lemma {:induction false} LandsWhereItBelongs(three: bool, w: Window, m: Mock, pool: Pool, p: Mock)
    requires !pool.Dropped?
    ensures Some(p) in Arrival(three, w, Some(m), pool) <==> Belongs(three, w, m, pool, p)
  {
    hide SessionLike, ConnectionLike, EffectiveLifetime, TaggedLifetime;
    LifetimeRead(m);
  }

  /** How the two filters read a lifetime. */
  lemma {:induction false} LifetimeRead(m: Mock)
    ensures TaggedLifetime(m).Session? <==> SessionLike(m, false)
    ensures TaggedLifetime(m).Connection? <==> ConnectionLike(m, false)
    ensures EffectiveLifetime(m).Session? <==> SessionLike(m, true)
    ensures EffectiveLifetime(m).Connection? <==> ConnectionLike(m, true)
    ensures m.lifetime.PerTest? || (m.lifetime == TaggedLifetime(m) == EffectiveLifetime(m))
  {
  }

  /** With a window, each pool of either filter holds marked copies of exactly the mocks that belong there. */
  lemma {:induction false} PoolsHoldExactly(three: bool, w: Window, ms: seq<Option<Mock>>, pool: Pool, p: Mock)
    requires w.after != 0 && w.before != 0 && !pool.Dropped?
    ensures Some(p) in PoolOf(three, w, ms, pool) <==> exists m :: Some(m) in ms && Belongs(three, w, m, pool, p)
  {
    hide Routes, Arrival, Belongs;
    RoutesMember(three, w, ms, pool, Some(p));
    if i :| 0 <= i < |ms| && Some(p) in Arrival(three, w, ms[i], pool) {
      NothingFromNone(three, w, pool);
      var m := ms[i].value;
      assert ms[i] == Some(m) && Some(m) in ms;
      LandsWhereItBelongs(three, w, m, pool, p);
    }
    if m :| Some(m) in ms && Belongs(three, w, m, pool, p) {
      var i :| 0 <= i < |ms| && ms[i] == Some(m);
      LandsWhereItBelongs(three, w, m, pool, p);
    }
  }

  lemma {:induction false} NothingFromNone(three: bool, w: Window, pool: Pool)
    ensures Arrival(three, w, None, pool) == []
  {
  }

  /**
   * In lax mode a per-test mock is in the filtered pool when it was requested in the window, and otherwise, unmarked,
   * in the unfiltered one; in both filters.
   */
  lemma {:induction false} LaxPoolsAreExact(three: bool, w: Window, ms: seq<Option<Mock>>, m: Mock)
    requires w.after != 0 && w.before != 0 && !w.strict
    requires Some(m) in ms && InOrder(m) && TestLike(m, three)
    ensures Some(m.(isFiltered := true)) in PoolOf(three, w, ms, Filtered) <==> w.after <= m.reqTime <= w.before
    ensures Some(m.(isFiltered := false)) in PoolOf(three, w, ms, Unfiltered) <==> !(w.after <= m.reqTime <= w.before)
  {
    hide PoolOf;
    var marked, plain := m.(isFiltered := true), m.(isFiltered := false);
    PoolsHoldExactly(three, w, ms, Filtered, marked);
    PoolsHoldExactly(three, w, ms, Unfiltered, plain);
    assert InWindow(w, m) ==> Belongs(three, w, m, Filtered, marked);
    assert !InWindow(w, m) ==> Belongs(three, w, m, Unfiltered, plain);
  }

  /** In either mode and either filter, a dated mock of the filtered pool is a per-test one. */
  lemma {:induction false} ReusableIsNeverFiltered(three: bool, w: Window, ms: seq<Option<Mock>>, p: Mock)
    requires w.after != 0 && w.before != 0 && Some(p) in PoolOf(three, w, ms, Filtered) && !Dateless(p)
    ensures TestLike(p, three) && p.isFiltered
  {
    PoolsHoldExactly(three, w, ms, Filtered, p);
  }

  /** In strict mode a per-test mock from outside the window and after the first one is in no pool. */
  lemma {:induction false} StrictDropsStale(three: bool, w: Window, ms: seq<Option<Mock>>, pool: Pool, p: Mock)
    requires w.after != 0 && w.before != 0 && w.strict && !pool.Dropped? && InOrder(p) && TestLike(p, three)
    requires !(w.after <= p.reqTime <= w.before) && (w.firstStart == 0 || p.reqTime >= w.firstStart)
    ensures Some(p) !in PoolOf(three, w, ms, pool)
  {
    PoolsHoldExactly(three, w, ms, pool, p);
  }

  // ---- Without a window ----

  /** The two-pool filter hands the list back; the three-pool filter splits it by lifetime, keeping lifetimes as set. */
  lemma {:induction false} WithoutWindow(w: Window, ms: seq<Option<Mock>>, p: Mock)
    requires w.after == 0 || w.before == 0
    ensures PoolOf(false, w, ms, Filtered) == ms && PoolOf(false, w, ms, Unfiltered) == []
    ensures Some(p) in PoolOf(true, w, ms, Filtered) <==>
              exists m :: Some(m) in ms && TestLike(m, true) && p == m.(isFiltered := true)
    ensures Some(p) in PoolOf(true, w, ms, Unfiltered) <==>
              exists m :: Some(m) in ms && SessionLike(m, true) && p == m.(isFiltered := false)
    ensures Some(p) in PoolOf(true, w, ms, Startup) <==>
              exists m :: Some(m) in ms && ConnectionLike(m, true) && p == m.(isFiltered := false)
  {
    hide UnwindowedRoutes, SessionLike, ConnectionLike;
    UnwindowedPool(ms, Filtered, p);
    UnwindowedPool(ms, Unfiltered, p);
    UnwindowedPool(ms, Startup, p);
  }

  predicate UnwindowedBelongs(m: Mock, pool: Pool) {
    match pool
    case Filtered => TestLike(m, true)
    case Unfiltered => SessionLike(m, true)
    case Startup => ConnectionLike(m, true)
    case Dropped => false
  }

  lemma {:induction false} UnwindowedPool(ms: seq<Option<Mock>>, pool: Pool, p: Mock)
    ensures Some(p) in UnwindowedRoutes(ms, pool) <==>
              exists m :: Some(m) in ms && UnwindowedBelongs(m, pool) && p == m.(isFiltered := pool.Filtered?)
  {
    hide UnwindowedRoutes, UnwindowedBelongs, Unwindowed;
    UnwindowedMember(ms, pool, p);
    if m :| Some(m) in ms && Unwindowed(m).pool == pool && p == Unwindowed(m).mock { UnwindowedLands(m); }
    if m :| Some(m) in ms && UnwindowedBelongs(m, pool) && p == m.(isFiltered := pool.Filtered?) { UnwindowedLands(m); }
  }

  lemma {:induction false} UnwindowedLands(m: Mock)
    ensures var r := Unwindowed(m);
            && r.mock == m.(isFiltered := r.pool.Filtered?)
            && forall pool :: r.pool == pool <==> UnwindowedBelongs(m, pool)
  {
    hide SessionLike, ConnectionLike, EffectiveLifetime;
    LifetimeRead(m);
  }

  lemma {:induction false} UnwindowedMember(ms: seq<Option<Mock>>, pool: Pool, p: Mock)
    ensures Some(p) in UnwindowedRoutes(ms, pool)
       <==> exists m :: Some(m) in ms && Unwindowed(m).pool == pool && p == Unwindowed(m).mock
    decreases |ms|
  {
    if ms != [] {
      var before, last := ms[..|ms| - 1], ms[|ms| - 1];
      assert ms == before + [last];
      UnwindowedMember(before, pool, p);
      hide Unwindowed;
    }
  }
}

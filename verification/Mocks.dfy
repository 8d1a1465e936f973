/** Recorded mocks and the classification of how long each stays usable. */
module Mocks {
  import opened Text

  datatype Lifetime = PerTest | Session | Connection

  datatype Kind = Http | Http2 | MySql | Postgres | PostgresV2 | Generic | Dns | OtherKind(name: string)

  /** Timestamps are instants with 0 for Go's zero time; absent metadata reads as the empty string. */
  datatype Mock = Mock(
    name: string,
    kind: Kind,
    reqTime: int,
    resTime: int,
    metadata: map<string, string>,
    mysqlCommands: seq<Option<string>>,
    lifetime: Lifetime,
    lifetimeDerived: bool,
    isFiltered: bool)
  {
    function Meta(key: string): string { if key in metadata then metadata[key] else "" }
    predicate Tagged() { Meta("type") == "config" || Meta("type") == "connection" }
  }

  predicate ImplicitSessionKind(k: Kind) { !k.OtherKind? }

  predicate SessionReusableCommand(cmd: string) {
    cmd in ["COM_PING", "COM_STATISTICS", "COM_DEBUG", "COM_RESET_CONNECTION"]
  }

  predicate MySqlSessionReusable(m: Mock) {
    |m.mysqlCommands| == 1 && m.mysqlCommands[0].Some? && SessionReusableCommand(m.mysqlCommands[0].value)
  }

  /** An untagged mock of a legacy kind, which the classifier counts when it first meets it. */
  predicate LegacyFallback(m: Mock) {
    !(m.kind.MySql? && MySqlSessionReusable(m)) && m.Meta("type") == "" && ImplicitSessionKind(m.kind)
  }

  /** The lifetime of a mock never classified before; `strictEnv` turns the lax kind fallback off. */
  function Classify(m: Mock, strictEnv: bool): Lifetime {
    if m.kind.MySql? && MySqlSessionReusable(m) then Session
    else if m.Meta("type") == "config" then Session
    else if m.Meta("type") == "connection" then (if m.Meta("connID") != "" then Connection else Session)
    else if m.Meta("type") == "" && ImplicitSessionKind(m.kind) then Session
    else if !strictEnv && ImplicitSessionKind(m.kind) then Session
    else PerTest
  }

  function Derive(m: Mock, strictEnv: bool): Mock {
    if m.lifetimeDerived then m else m.(lifetime := Classify(m, strictEnv), lifetimeDerived := true)
  }

  class MockRef {
    var value: Mock
    constructor (value: Mock) ensures this.value == value { this.value := value; }
  }

  class Classifier {
    const strictEnv: bool
    var legacyKindFallbackFires: nat

    constructor (strictEnv: bool)
      ensures this.strictEnv == strictEnv && legacyKindFallbackFires == 0
    {
      this.strictEnv := strictEnv;
      legacyKindFallbackFires := 0;
    }

    method DeriveLifetime(m: MockRef)
      modifies this`legacyKindFallbackFires, m
      ensures m.value == Derive(old(m.value), strictEnv)
      ensures legacyKindFallbackFires == old(legacyKindFallbackFires) +
                if Fires(old(m.value)) then 1 else 0
    {
      if m.value.lifetimeDerived { return; }
      m.value := m.value.(lifetimeDerived := true);
      if m.value.kind.MySql? && MySqlSessionReusable(m.value) {
        m.value := m.value.(lifetime := Session);
        return;
      }
      var tag := m.value.Meta("type");
      if tag == "config" {
        m.value := m.value.(lifetime := Session);
        return;
      } else if tag == "connection" {
        if m.value.Meta("connID") != "" {
          m.value := m.value.(lifetime := Connection);
          return;
        }
        m.value := m.value.(lifetime := Session);
        return;
      }
      if tag == "" && ImplicitSessionKind(m.value.kind) {
        m.value := m.value.(lifetime := Session);
        legacyKindFallbackFires := legacyKindFallbackFires + 1;
        return;
      }
      if !strictEnv && ImplicitSessionKind(m.value.kind) {
        m.value := m.value.(lifetime := Session);
        return;
      }
      m.value := m.value.(lifetime := PerTest);
    }
  }

  // ---- What the classification says ----

  /** The recorded tag, empty if there is none. */
  function TagOf(m: Mock): string { if "type" in m.metadata then m.metadata["type"] else "" }

  predicate NamesConnection(m: Mock) { "connID" in m.metadata && m.metadata["connID"] != "" }

  predicate LegacyKind(k: Kind) { k in [Http, Http2, MySql, Postgres, PostgresV2, Generic, Dns] }

  /** One MySQL command whose answer does not depend on its input. */
  predicate KeepsAlive(m: Mock) {
    m.kind == MySql &&
    exists cmd :: cmd in ["COM_PING", "COM_STATISTICS", "COM_DEBUG", "COM_RESET_CONNECTION"]
        && m.mysqlCommands == [Some(cmd)]
  }

  /** When a mock belongs to one connection, and when to one test; it is for the session otherwise. */
  lemma {:induction false} ClassifiedIff(m: Mock, strictEnv: bool)
    ensures Classify(m, strictEnv) == Connection <==>
            !KeepsAlive(m) && TagOf(m) == "connection" && NamesConnection(m)
    ensures Classify(m, strictEnv) == PerTest <==>
            && !KeepsAlive(m) && TagOf(m) != "config" && TagOf(m) != "connection"
            && (!LegacyKind(m.kind) || (strictEnv && TagOf(m) != ""))
    ensures Fires(m) <==> !m.lifetimeDerived && !KeepsAlive(m) && TagOf(m) == "" && LegacyKind(m.kind)
  {
    assert KeepsAlive(m) <==> m.kind.MySql? && MySqlSessionReusable(m) by { KeepsAliveIff(m); }
    hide KeepsAlive, MySqlSessionReusable;
    assert LegacyKind(m.kind) <==> ImplicitSessionKind(m.kind);
  }

  lemma {:induction false} KeepsAliveIff(m: Mock)
    ensures KeepsAlive(m) <==> m.kind.MySql? && MySqlSessionReusable(m)
  {
    if m.kind.MySql? && MySqlSessionReusable(m) {
      assert m.mysqlCommands == [Some(m.mysqlCommands[0].value)];
    }
  }

  /**
   * Once classified, a mock keeps its lifetime; before that its lifetime is the classified one, and the rest is kept.
   */
  lemma {:induction false} DeriveOnce(m: Mock, strictEnv: bool)
    ensures var d := Derive(m, strictEnv);
            && d.lifetimeDerived && d.lifetime == (if m.lifetimeDerived then m.lifetime else Classify(m, strictEnv))
            && d.(lifetime := m.lifetime, lifetimeDerived := m.lifetimeDerived) == m
            && Derive(d, strictEnv) == d && !Fires(d)
  {
  }

  // ---- Every ingest path may classify the same mock again ----

  /** The mocks and the counter after classifying the mocks named by `ids`, in order and with repetitions. */
  datatype Ingest = Ingest(mocks: map<nat, Mock>, fires: nat)

  function IngestAll(s: Ingest, ids: seq<nat>, strictEnv: bool): Ingest
    decreases ids
  {
    if ids == [] then s
    else if ids[0] !in s.mocks then IngestAll(s, ids[1..], strictEnv)
    else
      var m := s.mocks[ids[0]];
      IngestAll(Ingest(s.mocks[ids[0] := Derive(m, strictEnv)], s.fires + if Fires(m) then 1 else 0), ids[1..],
          strictEnv)
  }

  predicate Fires(m: Mock) { !m.lifetimeDerived && LegacyFallback(m) }

  ghost function FallbackIds(mocks: map<nat, Mock>, ids: seq<nat>): set<nat> {
    set id | id in ids && id in mocks && Fires(mocks[id])
  }

  lemma {:induction false} FallbackStep(mocks: map<nat, Mock>, ids: seq<nat>, m: Mock)
    requires ids != [] && ids[0] in mocks && m.lifetimeDerived
    ensures |FallbackIds(mocks, ids)| == |FallbackIds(mocks[ids[0] := m], ids[1..])| + if Fires(mocks[ids[0]]) then 1
        else 0
  {
    var rest := FallbackIds(mocks[ids[0] := m], ids[1..]);
    assert ids[0] !in rest;
    assert FallbackIds(mocks, ids) == rest + if Fires(mocks[ids[0]]) then {ids[0]} else {};
  }

  /** Repeated ingestion classifies each mock once and counts each legacy mock once, in any order. */
  lemma {:induction false} IngestCountsEachMockOnce(s: Ingest, ids: seq<nat>, strictEnv: bool)
    ensures IngestAll(s, ids, strictEnv).mocks ==
            map id | id in s.mocks :: if id in ids then Derive(s.mocks[id], strictEnv) else s.mocks[id]
    ensures IngestAll(s, ids, strictEnv).fires == s.fires + |FallbackIds(s.mocks, ids)|
    decreases ids
  {
    if ids == [] {
      assert FallbackIds(s.mocks, ids) == {};
    } else if ids[0] !in s.mocks {
      IngestCountsEachMockOnce(s, ids[1..], strictEnv);
      assert FallbackIds(s.mocks, ids) == FallbackIds(s.mocks, ids[1..]);
    } else {
      var m := s.mocks[ids[0]];
      var m' := Derive(m, strictEnv);
      IngestCountsEachMockOnce(Ingest(s.mocks[ids[0] := m'], s.fires + if Fires(m) then 1 else 0), ids[1..], strictEnv);
      FallbackStep(s.mocks, ids, m');
      assert Derive(m', strictEnv) == m';
    }
  }

  /** A classification the two routing filters read differently: derived as per-test although tagged as reusable. */
  predicate Contradictory(m: Mock) { m.lifetimeDerived && m.lifetime.PerTest? && m.Tagged() }

  /** Classifying a fresh mock never produces a contradictory one. */
  lemma {:induction false} DeriveIsNeverContradictory(m: Mock, strictEnv: bool)
    ensures Contradictory(Derive(m, strictEnv)) <==> Contradictory(m)
  {
  }
}

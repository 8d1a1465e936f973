/** The mock tree with its ID index: when the two stay in step, and the plain map they then implement. */
module TreeDb {

  /** A mock's runtime marks; the comparator reads only the sort order and the ID. */
  datatype Info = Info(id: int, sortOrder: int, isFiltered: bool)

  datatype Key = Key(sortOrder: int, id: int)

  function KeyOf(i: Info): Key { Key(i.sortOrder, i.id) }

  /** `customComparator`. */
  function Compare(a: Info, b: Info): int {
    if a.sortOrder < b.sortOrder then -1
    else if a.sortOrder > b.sortOrder then 1
    else if a.id < b.id then -1
    else if a.id > b.id then 1
    else 0
  }

  predicate Less(a: Key, b: Key) { a.sortOrder < b.sortOrder || (a.sortOrder == b.sortOrder && a.id < b.id) }

  /** The comparator is a strict total order on keys, blind to everything else. */
  lemma {:induction false} ComparatorIsTotalOrder(a: Info, b: Info, c: Info)
    ensures -1 <= Compare(a, b) <= 1
    ensures Compare(a, b) == 0 <==> KeyOf(a) == KeyOf(b)
    ensures Compare(a, b) < 0 <==> Less(KeyOf(a), KeyOf(b))
    ensures Compare(a, b) < 0 <==> Compare(b, a) > 0
    ensures Compare(a, b) < 0 && Compare(b, c) < 0 ==> Compare(a, c) < 0
  {
  }

  datatype Node<V> = Node(info: Info, obj: V)

  /** The red-black tree as an ordered map from comparator keys to nodes, and the index from ID to key. */
  datatype Db<V> = Db(tree: map<Key, Node<V>>, index: map<int, Info>)

  function Inserted<V>(db: Db<V>, key: Info, obj: V): Db<V> {
    Db(db.tree[KeyOf(key) := Node(key, obj)], db.index[key.id := key])
  }

  function Deleted<V>(db: Db<V>, key: Info): (Db<V>, bool) {
    if KeyOf(key) in db.tree then (Db(db.tree - {KeyOf(key)}, db.index - {key.id}), true) else (db, false)
  }

  function Updated<V>(db: Db<V>, oldKey: Info, newKey: Info, obj: V): (Db<V>, bool) {
    if KeyOf(oldKey) in db.tree then
      (Db((db.tree - {KeyOf(oldKey)})[KeyOf(newKey) := Node(newKey, obj)],
          (db.index - {oldKey.id})[newKey.id := newKey]), true)
    else if oldKey.id !in db.index then (db, false)
    else
      var current := db.index[oldKey.id];
      (Db((db.tree - {KeyOf(current)})[KeyOf(newKey) := Node(newKey, obj)],
          (db.index - {oldKey.id})[newKey.id := newKey]), true)
  }

  /** The index is the exact inverse of the tree's keys. */
  ghost predicate InStep<V>(db: Db<V>) {
    && (forall id :: id in db.index ==>
          db.index[id].id == id && KeyOf(db.index[id]) in db.tree && db.tree[KeyOf(db.index[id])].info == db.index[id])
    && (forall k :: k in db.tree ==> k.id in db.index && KeyOf(db.index[k.id]) == k)
  }

  /** The plain map from ID to entry that a database in step stands for. */
  ghost function Entries<V>(db: Db<V>): map<int, Node<V>>
    requires InStep(db)
  {
    map id | id in db.index :: db.tree[KeyOf(db.index[id])]
  }

  /** A key may be stored when its ID is unused, or used by an entry of the same sort order. */
  predicate Admissible(index: map<int, Info>, key: Info) {
    key.id in index ==> index[key.id].sortOrder == key.sortOrder
  }

  /** An insert keeps the index in step exactly when its key is admissible, and then it is a map update. */
  lemma {:induction false} InsertRefines<V>(db: Db<V>, key: Info, obj: V)
    requires InStep(db)
    ensures InStep(Inserted(db, key, obj)) <==> Admissible(db.index, key)
    ensures Admissible(db.index, key) ==> Entries(Inserted(db, key, obj)) == Entries(db)[key.id := Node(key, obj)]
  {
    if !Admissible(db.index, key) {
      var stale := KeyOf(db.index[key.id]);
      assert stale in Inserted(db, key, obj).tree;
    } else {
      var after := Inserted(db, key, obj);
      assert InStep(after);
      var want := Entries(db)[key.id := Node(key, obj)];
      assert Entries(after).Keys == want.Keys;
      forall id | id in want
        ensures Entries(after)[id] == want[id]
      {
        assert id != key.id ==> KeyOf(db.index[id]) != KeyOf(key);
      }
    }
  }

  lemma {:induction false} RemovalIsMapRemoval<V>(db: Db<V>, id: int)
    requires InStep(db) && id in db.index
    ensures var removed := Db(db.tree - {KeyOf(db.index[id])}, db.index - {id});
            InStep(removed) && Entries(removed) == Entries(db) - {id}
  {
    var removed := Db(db.tree - {KeyOf(db.index[id])}, db.index - {id});
    assert InStep(removed);
    var want := Entries(db) - {id};
    assert Entries(removed).Keys == want.Keys;
    forall i | i in want
      ensures Entries(removed)[i] == want[i]
    {
    }
  }

  /** A delete succeeds only with the current sort order, and keeps the index in step. */
  lemma {:induction false} DeleteRefines<V>(db: Db<V>, key: Info)
    requires InStep(db)
    ensures var (db', found) := Deleted(db, key);
            && InStep(db')
            && (found <==> key.id in Entries(db) && Entries(db)[key.id].info.sortOrder == key.sortOrder)
            && Entries(db') == if found then Entries(db) - {key.id} else Entries(db)
  {
    var (db', found) := Deleted(db, key);
    assert InStep(db');
    if found {
      RemovalIsMapRemoval(db, key.id);
    }
  }

  /** An update finds its entry by ID even when the sort order given is stale. */
  lemma {:induction false} UpdateRefines<V>(db: Db<V>, oldKey: Info, newKey: Info, obj: V)
    requires InStep(db)
    ensures var (db', found) := Updated(db, oldKey, newKey, obj);
            && (found <==> oldKey.id in Entries(db))
            && (found ==> (InStep(db') <==> Admissible(db.index - {oldKey.id}, newKey)))
            && (found && Admissible(db.index - {oldKey.id}, newKey) ==>
                  Entries(db') == (Entries(db) - {oldKey.id})[newKey.id := Node(newKey, obj)])
            && (!found ==> db' == db)
  {
    var (db', found) := Updated(db, oldKey, newKey, obj);
    if found {
      var current := db.index[oldKey.id];
      var removed := Db(db.tree - {KeyOf(current)}, db.index - {oldKey.id});
      assert KeyOf(oldKey) in db.tree ==> KeyOf(oldKey) == KeyOf(current);
      RemovalIsMapRemoval(db, oldKey.id);
      assert db' == Inserted(removed, newKey, obj);
      InsertRefines(removed, newKey, obj);
    }
  }

  /** In step or not: an entry with exactly the old key is the one that is moved, and the old ID leaves the index. */
  lemma {:induction false} UpdatePrefersExactKey<V>(db: Db<V>, oldKey: Info, newKey: Info, obj: V)
    requires Key(oldKey.sortOrder, oldKey.id) in db.tree
    ensures var (db', found) := Updated(db, oldKey, newKey, obj);
            && found && db'.tree.Keys == db.tree.Keys - {Key(oldKey.sortOrder, oldKey.id)}
                + {Key(newKey.sortOrder, newKey.id)}
            && db'.tree[Key(newKey.sortOrder, newKey.id)] == Node(newKey, obj)
            && (forall k :: k in db.tree && k in db'.tree && k != KeyOf(newKey) ==> db'.tree[k] == db.tree[k])
            && db'.index == (db.index - {oldKey.id})[newKey.id := newKey]
  {
  }

  // ---- Whole runs ----

  datatype Op<V> =
    | InsertOp(key: Info, obj: V)
    | DeleteOp(key: Info)
    | UpdateOp(oldKey: Info, newKey: Info, obj: V)
    | DeleteAllOp

  function Step<V>(db: Db<V>, op: Op<V>): (Db<V>, bool) {
    match op
    case InsertOp(key, obj) => (Inserted(db, key, obj), true)
    case DeleteOp(key) => Deleted(db, key)
    case UpdateOp(oldKey, newKey, obj) => Updated(db, oldKey, newKey, obj)
    case DeleteAllOp => (Db(map[], map[]), true)
  }

  /** The same operation on the plain map. */
  function MapStep<V>(m: map<int, Node<V>>, op: Op<V>): (map<int, Node<V>>, bool) {
    match op
    case InsertOp(key, obj) => (m[key.id := Node(key, obj)], true)
    case DeleteOp(key) =>
      if key.id in m && m[key.id].info.sortOrder == key.sortOrder then (m - {key.id}, true) else (m, false)
    case UpdateOp(oldKey, newKey, obj) =>
      if oldKey.id in m then ((m - {oldKey.id})[newKey.id := Node(newKey, obj)], true) else (m, false)
    case DeleteAllOp => (map[], true)
  }

  /** Every key that is stored is admissible on the plain map at that point. */
  predicate Allowed<V>(m: map<int, Node<V>>, op: Op<V>) {
    match op
    case InsertOp(key, _) => key.id in m ==> m[key.id].info.sortOrder == key.sortOrder
    case UpdateOp(oldKey, newKey, _) =>
      oldKey.id in m && newKey.id in m && newKey.id != oldKey.id ==> m[newKey.id].info.sortOrder == newKey.sortOrder
    case _ => true
  }

  ghost predicate AllAllowed<V>(m: map<int, Node<V>>, ops: seq<Op<V>>)
    decreases ops
  {
    ops == [] || (Allowed(m, ops[0]) && AllAllowed(MapStep(m, ops[0]).0, ops[1..]))
  }

  function Results<V>(db: Db<V>, ops: seq<Op<V>>): (Db<V>, seq<bool>)
    decreases ops
  {
    if ops == [] then (db, [])
    else
      var (db', r) := Step(db, ops[0]);
      var (db'', rs) := Results(db', ops[1..]);
      (db'', [r] + rs)
  }

  function MapResults<V>(m: map<int, Node<V>>, ops: seq<Op<V>>): (map<int, Node<V>>, seq<bool>)
    decreases ops
  {
    if ops == [] then (m, [])
    else
      var (m', r) := MapStep(m, ops[0]);
      var (m'', rs) := MapResults(m', ops[1..]);
      (m'', [r] + rs)
  }

  /** One operation keeps the index in step exactly when it is allowed, and then it acts as on the plain map. */
  lemma {:induction false} StepRefines<V>(db: Db<V>, op: Op<V>)
    requires InStep(db)
    ensures InStep(Step(db, op).0) <==> Allowed(Entries(db), op)
    ensures Allowed(Entries(db), op) ==> (Entries(Step(db, op).0), Step(db, op).1) == MapStep(Entries(db), op)
  {
    match op
    case InsertOp(key, obj) => InsertRefines(db, key, obj);
    case DeleteOp(key) => DeleteRefines(db, key);
    case UpdateOp(oldKey, newKey, obj) => UpdateRefines(db, oldKey, newKey, obj);
    case DeleteAllOp =>
  }

  /** The index is in step before the run and after every operation of it. */
  ghost predicate AlwaysInStep<V>(db: Db<V>, ops: seq<Op<V>>)
    decreases ops
  {
    InStep(db) && (ops == [] || AlwaysInStep(Step(db, ops[0]).0, ops[1..]))
  }

  /**
   * A run keeps the index in step throughout exactly when the plain map allows each operation, and
   * then the database gives the plain map's answers and ends with its contents.
   */
  lemma {:induction false} RunRefines<V>(db: Db<V>, ops: seq<Op<V>>)
    requires InStep(db)
    ensures AlwaysInStep(db, ops) <==> AllAllowed(Entries(db), ops)
    ensures AllAllowed(Entries(db), ops) ==>
              InStep(Results(db, ops).0) && (Entries(Results(db, ops).0), Results(db, ops).1)
                  == MapResults(Entries(db), ops)
    decreases ops
  {
    if ops != [] {
      StepRefines(db, ops[0]);
      if Allowed(Entries(db), ops[0]) {
        RunRefines(Step(db, ops[0]).0, ops[1..]);
      } else {
        assert !InStep(Step(db, ops[0]).0);
        assert !AlwaysInStep(Step(db, ops[0]).0, ops[1..]);
      }
    }
  }

  // ---- The object ----

  class TreeDb<V> {
    var tree: map<Key, Node<V>>
    var index: map<int, Info>

    ghost function State(): Db<V>
      reads this
    {
      Db(tree, index)
    }

    constructor ()
      ensures State() == Db(map[], map[]) && InStep(State())
    {
      tree, index := map[], map[];
    }

    method Insert(key: Info, obj: V)
      modifies this
      ensures State() == Inserted(old(State()), key, obj)
      ensures old(InStep(State())) ==> (InStep(State()) <==> Admissible(old(index), key))
    {
      if InStep(State()) { InsertRefines(State(), key, obj); }
      tree := tree[KeyOf(key) := Node(key, obj)];
      index := index[key.id := key];
    }

    method Delete(key: Info) returns (found: bool)
      modifies this
      ensures (State(), found) == Deleted(old(State()), key)
      ensures old(InStep(State())) ==> InStep(State())
    {
      if InStep(State()) { DeleteRefines(State(), key); }
      if KeyOf(key) !in tree { return false; }
      tree := tree - {KeyOf(key)};
      index := index - {key.id};
      return true;
    }

    method Update(oldKey: Info, newKey: Info, obj: V) returns (found: bool)
      modifies this
      ensures (State(), found) == Updated(old(State()), oldKey, newKey, obj)
      ensures old(InStep(State())) && found ==> (InStep(State()) <==> Admissible(old(index) - {oldKey.id}, newKey))
    {
      if InStep(State()) { UpdateRefines(State(), oldKey, newKey, obj); }
      if KeyOf(oldKey) in tree {
        tree := tree - {KeyOf(oldKey)};
        tree := tree[KeyOf(newKey) := Node(newKey, obj)];
        index := index - {oldKey.id};
        index := index[newKey.id := newKey];
        return true;
      }
      if oldKey.id !in index { return false; }
      var current := index[oldKey.id];
      tree := tree - {KeyOf(current)};
      tree := tree[KeyOf(newKey) := Node(newKey, obj)];
      index := index - {oldKey.id};
      index := index[newKey.id := newKey];
      return true;
    }

    method DeleteAll()
      modifies this
      ensures State() == Db(map[], map[]) && InStep(State())
    {
      tree := map[];
      index := map[];
    }

    /** Visits values in key order until `fn` refuses one; `keys` are the keys visited. */
    method RangeValues(fn: V -> bool) returns (visited: seq<V>, ghost keys: seq<Key>)
      ensures |visited| == |keys| && forall i :: 0 <= i < |keys| ==> keys[i] in tree && visited[i] == tree[keys[i]].obj
      ensures forall i, j :: 0 <= i < j < |keys| ==> Less(keys[i], keys[j])
      ensures forall i :: 0 <= i < |keys| - 1 ==> fn(visited[i])
      ensures forall k :: k in tree && k !in keys ==>
          keys != [] && Less(keys[|keys| - 1], k) && !fn(visited[|keys| - 1])
    {
      visited, keys := [], [];
      var rest := tree.Keys;
      while rest != {}
        invariant rest <= tree.Keys && |visited| == |keys|
        invariant forall k :: k in tree <==> k in rest || k in keys
        invariant forall i :: 0 <= i < |keys| ==> keys[i] in tree && visited[i] == tree[keys[i]].obj && fn(visited[i])
        invariant forall i, k :: 0 <= i < |keys| && k in rest ==> Less(keys[i], k)
        invariant forall i, j :: 0 <= i < j < |keys| ==> Less(keys[i], keys[j])
        decreases |rest|
      {
        var k := Leftmost(rest);
        rest := rest - {k};
        visited, keys := visited + [tree[k].obj], keys + [k];
        if !fn(tree[k].obj) { return; }
      }
    }
  }

  method Leftmost(keys: set<Key>) returns (least: Key)
    requires keys != {}
    ensures least in keys && forall k :: k in keys && k != least ==> Less(least, k)
  {
    least :| least in keys;
    var rest := keys - {least};
    while rest != {}
      invariant least in keys && rest <= keys
      invariant forall k :: k in keys && k !in rest && k != least ==> Less(least, k)
      decreases |rest|
    {
      var k :| k in rest;
      rest := rest - {k};
      if Less(k, least) { least := k; }
    }
  }
}

/** The Rust todo-app example (rust/examples/basic/src/lib.rs): `AppVersioned`,
    its `OwnedVersionedData` items and its four converters. The v2 and v3 records
    hold `HashMap`s, modelled as maps; a loop over a `HashMap` visits the keys in
    an order the program does not choose, modelled by picking any remaining key,
    so what a converter promises about order is only counts and sets. */
module RustBasic {
  import opened Wrappers
  import opened Vbare
  import opened BareCodec
  import opened AppSchema
  import opened VbareProperties

  datatype V2App = V2App(todos: map<nat, V2Todo>, settings: map<string, string>)

  datatype TodoDetail = TodoDetail(title: string, tags: map<nat, Tag>)
  datatype V3Todo = V3Todo(id: nat, status: TodoStatus, createdAt: nat, priority: Priority,
                           assignee: Assignee, detail: TodoDetail, history: seq<Change>)
  datatype AppConfig = AppConfig(theme: Theme, features: map<string, bool>)
  datatype V3App = V3App(todos: map<nat, V3Todo>, config: AppConfig, boards: map<nat, Board>)

  datatype AppVersioned = V1(v1: V1App) | V2(v2: V2App) | V3(v3: V3App)

  /** v1 ids are `u32`; `as u32` keeps the low 32 bits of a `u64`. */
  const U32Modulus: nat := 0x1_0000_0000

  // ---------------------------------------------------------------- OwnedVersionedData

  function Latest(latest: V3App): AppVersioned
  {
    V3(latest)
  }

  /** `into_latest`: succeeds exactly on a v3 app, and then undoes `latest`. */
  function IntoLatest(d: AppVersioned): (r: Result<V3App>)
    ensures r.Success? <==> d.V3?
    ensures r.Success? ==> Latest(r.value) == d
    ensures r.Failure? ==> r.error == NotLatest
  {
    if d.V3? then Success(d.v3) else Failure(NotLatest)
  }

  /** `serde_bare` for the three app records. */
  datatype AppCodecs = AppCodecs(v1: Codec<V1App>, v2: Codec<V2App>, v3: Codec<V3App>)

  ghost predicate CodecsRoundTrip(c: AppCodecs)
  {
    RoundTrips(c.v1) && RoundTrips(c.v2) && RoundTrips(c.v3)
  }

  /** `deserialize_version`: versions 1, 2 and 3 decode their own record, any
      other version is an error. */
  function DeserializeVersion(c: AppCodecs, payload: seq<byte>, version: int): (r: Result<AppVersioned>)
    ensures !(1 <= version <= 3) ==> r == Failure(InvalidVersion(version))
    ensures r.Success? ==> (r.value.V1? <==> version == 1) && (r.value.V2? <==> version == 2) && (r.value.V3? <==> version == 3)
  {
    if version == 1 then
      var x :- c.v1.decode(payload); Success(V1(x))
    else if version == 2 then
      var x :- c.v2.decode(payload); Success(V2(x))
    else if version == 3 then
      var x :- c.v3.decode(payload); Success(V3(x))
    else
      Failure(InvalidVersion(version))
  }

  function VersionOf(d: AppVersioned): int
  {
    match d
    case V1(_) => 1
    case V2(_) => 2
    case V3(_) => 3
  }

  /** `serialize_version`: encodes by variant, ignoring the version argument. */
  function SerializeVersion(c: AppCodecs, d: AppVersioned, version: int): Result<seq<byte>>
  {
    match d
    case V1(x) => Success(c.v1.encode(x))
    case V2(x) => Success(c.v2.encode(x))
    case V3(x) => Success(c.v3.encode(x))
  }

  /** Encoding never fails, does not depend on the version argument, and decodes
      back at the version of the value's own variant. */
  lemma SerializeVersionByVariant(c: AppCodecs, d: AppVersioned, version: int)
    requires CodecsRoundTrip(c)
    ensures SerializeVersion(c, d, version).Success?
    ensures SerializeVersion(c, d, version) == SerializeVersion(c, d, VersionOf(d))
    ensures DeserializeVersion(c, SerializeVersion(c, d, version).value, VersionOf(d)) == Success(d)
  {
    match d
    case V1(x) => assert c.v1.decode(c.v1.encode(x)) == Success(x);
    case V2(x) => assert c.v2.decode(c.v2.encode(x)) == Success(x);
    case V3(x) => assert c.v3.decode(c.v3.encode(x)) == Success(x);
  }

  // ---------------------------------------------------------------- enumeration order

  /** `order` lists every key of `keys` exactly once: one possible iteration order. */
  ghost predicate Enumerates(order: seq<nat>, keys: set<nat>)
  {
    |order| == |keys| &&
    (forall k :: k in keys <==> k in order) &&
    (forall i, j :: 0 <= i < j < |order| ==> order[i] != order[j])
  }

  /** One more step of a loop that takes key `k` out of `remaining` and appends it. */
  lemma EnumerationStep(order: seq<nat>, keys: set<nat>, remaining: set<nat>, k: nat)
    requires remaining <= keys && k in remaining
    requires |order| + |remaining| == |keys|
    requires forall x :: x in keys - remaining <==> x in order
    requires forall i, j :: 0 <= i < j < |order| ==> order[i] != order[j]
    ensures |order + [k]| + |remaining - {k}| == |keys|
    ensures forall x :: x in keys - (remaining - {k}) <==> x in order + [k]
    ensures forall i, j :: 0 <= i < j < |order + [k]| ==> (order + [k])[i] != (order + [k])[j]
  {
    assert remaining == (remaining - {k}) + {k};
  }

  // ---------------------------------------------------------------- v1 -> v2

  /** The map `v1_to_v2` fills: each todo upgraded and inserted under its id in
      list order, so a later todo overwrites an earlier one with the same id. */
  function TodosById(todos: seq<V1Todo>): map<nat, V2Todo>
    decreases |todos|
  {
    if todos == [] then map[]
    else
      var last := todos[|todos| - 1];
      TodosById(todos[..|todos| - 1])[last.id := MigrateV1TodoToV2(last)]
  }

  function V2OfV1(app: V1App): V2App
  {
    V2App(TodosById(app.todos), map[])
  }

  /** The converter `v1_to_v2` as a function: a v1 app is upgraded, any other
      variant passes through. The source's converter never returns `Err`. */
  function UpgradeV1(d: AppVersioned): AppVersioned
  {
    if d.V1? then V2(V2OfV1(d.v1)) else d
  }

  /** `v1_to_v2`: upgrades a v1 app, passes any other variant through. */
  method V1ToV2(d: AppVersioned) returns (r: Result<AppVersioned>)
    ensures r == Success(UpgradeV1(d))
  {
    if !d.V1? {
      return Success(d);
    }
    var app := d.v1;
    var todos: map<nat, V2Todo> := map[];
    for i := 0 to |app.todos|
      invariant todos == TodosById(app.todos[..i])
    {
      var t := app.todos[i];
      var id: nat := t.id;
      var status := if t.done then Done else Open;
      assert app.todos[..i + 1][..i] == app.todos[..i];
      todos := todos[id := V2Todo(id, t.title, status, 0, [])];
    }
    assert app.todos[..|app.todos|] == app.todos;
    return Success(V2(V2App(todos, map[])));
  }

  function Ids(todos: seq<V1Todo>): set<nat>
  {
    set t | t in todos :: t.id
  }

  predicate IdsDistinct(todos: seq<V1Todo>)
  {
    forall i, j :: 0 <= i < j < |todos| ==> todos[i].id != todos[j].id
  }

  /** The keys of the map are the ids in the list. */
  lemma {:induction false} TodosByIdKeys(todos: seq<V1Todo>)
    ensures TodosById(todos).Keys == Ids(todos)
    decreases |todos|
  {
    if todos != [] {
      var init, last := todos[..|todos| - 1], todos[|todos| - 1];
      TodosByIdKeys(init);
      assert todos == init + [last];
      assert Ids(todos) == Ids(init) + {last.id};
    }
  }

  /** With distinct ids there are as many entries as todos. */
  lemma {:induction false} TodosByIdCount(todos: seq<V1Todo>)
    requires IdsDistinct(todos)
    ensures |TodosById(todos)| == |todos|
    decreases |todos|
  {
    if todos != [] {
      var init, last := todos[..|todos| - 1], todos[|todos| - 1];
      assert IdsDistinct(init) by {
        forall i, j | 0 <= i < j < |init| ensures init[i].id != init[j].id {
          assert init[i] == todos[i] && init[j] == todos[j];
        }
      }
      TodosByIdCount(init);
      TodosByIdKeys(init);
      assert last.id !in Ids(init) by {
        forall t | t in init ensures t.id != last.id {
          var i :| 0 <= i < |init| && init[i] == t;
          assert todos[i] == t;
        }
      }
    }
  }

  /** A todo that no later todo shares its id with is what the map holds under it. */
  lemma {:induction false} TodosByIdLastWins(todos: seq<V1Todo>, j: nat)
    requires j < |todos|
    requires forall j' :: j < j' < |todos| ==> todos[j'].id != todos[j].id
    ensures todos[j].id in TodosById(todos) && TodosById(todos)[todos[j].id] == MigrateV1TodoToV2(todos[j])
    decreases |todos|
  {
    if j < |todos| - 1 {
      TodosByIdLastWins(todos[..|todos| - 1], j);
    }
  }

  // ---------------------------------------------------------------- v2 -> v3

  /** The tag map `convert_tags` builds: key k (from 1) holds the tag with id k,
      the k-th name and no color. */
  function NumberedTags(names: seq<string>): map<nat, Tag>
    decreases |names|
  {
    if names == [] then map[]
    else NumberedTags(names[..|names| - 1])[|names| := Tag(|names|, names[|names| - 1], Option.None)]
  }

  /** `convert_tags`: a loop inserting one tag per name under a counter from 1. */
  method ConvertTags(tags: seq<string>) returns (m: map<nat, Tag>)
    ensures m == NumberedTags(tags)
  {
    m := map[];
    var nextId: nat := 1;
    for i := 0 to |tags|
      invariant nextId == i + 1
      invariant m == NumberedTags(tags[..i])
    {
      assert tags[..i + 1][..i] == tags[..i];
      m := m[nextId := Tag(nextId, tags[i], Option.None)];
      nextId := nextId + 1;
    }
    assert tags[..|tags|] == tags;
  }

  /** The tag map has keys 1..n for n names, key k holding the tag with id k,
      the k-th name and no color; so it has exactly as many entries as names. */
  lemma {:induction false} NumberedTagsShape(names: seq<string>)
    ensures forall k :: k in NumberedTags(names) <==> 1 <= k <= |names|
    ensures forall k :: k in NumberedTags(names) ==> NumberedTags(names)[k] == Tag(k, names[k - 1], Option.None)
    ensures |NumberedTags(names)| == |names|
    decreases |names|
  {
    if names != [] {
      var init := names[..|names| - 1];
      NumberedTagsShape(init);
      var m := NumberedTags(init);
      assert |names| !in m;
      forall k | k in NumberedTags(names) && k < |names|
        ensures NumberedTags(names)[k] == Tag(k, names[k - 1], Option.None)
      {
        assert init[k - 1] == names[k - 1];
      }
    }
  }

  /** The v3 todo `v2_to_v3` inserts under key `id`: the key as id, status,
      creation time and title kept, tags numbered, priority `Low`, nobody
      assigned, empty history. */
  function UpgradedTodo(id: nat, todo: V2Todo): V3Todo
  {
    V3Todo(id, todo.status, todo.createdAt, Low, Unassigned, TodoDetail(todo.title, NumberedTags(todo.tags)), [])
  }

  /** The v3 app `v2_to_v3` returns: the same keys, each todo upgraded, theme
      `System`, no features, no boards; the v2 settings are dropped. */
  function V3OfV2(app: V2App): V3App
  {
    V3App(map id | id in app.todos :: UpgradedTodo(id, app.todos[id]), AppConfig(System, map[]), map[])
  }

  /** The converter `v2_to_v3` as a function: a v2 app is upgraded, any other
      variant passes through. The source's converter never returns `Err`. */
  function UpgradeV2(d: AppVersioned): AppVersioned
  {
    if d.V2? then V3(V3OfV2(d.v2)) else d
  }

  /** `v2_to_v3`: upgrades a v2 app, passes any other variant through. */
  method V2ToV3(d: AppVersioned) returns (r: Result<AppVersioned>)
    ensures r == Success(UpgradeV2(d))
  {
    if !d.V2? {
      return Success(d);
    }
    var app := d.v2;
    var todos: map<nat, V3Todo> := map[];
    var remaining := app.todos.Keys;
    while remaining != {}
      invariant remaining <= app.todos.Keys
      invariant todos.Keys == app.todos.Keys - remaining
      invariant forall id :: id in todos ==> todos[id] == UpgradedTodo(id, app.todos[id])
      decreases remaining
    {
      var id :| id in remaining;
      var t := app.todos[id];
      var tags := ConvertTags(t.tags);
      // the v2 and v3 status enums have the same three members
      todos := todos[id := V3Todo(id, t.status, t.createdAt, Low, Unassigned, TodoDetail(t.title, tags), [])];
      remaining := remaining - {id};
    }
    assert todos == V3OfV2(app).todos;
    return Success(V3(V3App(todos, AppConfig(System, map[]), map[])));
  }

  // ---------------------------------------------------------------- v3 -> v2

  /** The tag names read in `order`. */
  function NamesInOrder(tags: map<nat, Tag>, order: seq<nat>): (names: seq<string>)
    requires forall i :: 0 <= i < |order| ==> order[i] in tags
    ensures |names| == |order|
  {
    seq(|order|, i requires 0 <= i < |order| => tags[order[i]].name)
  }

  /** `revert_tags`: the names of all tags, one per tag, in the map's iteration order. */
  method RevertTags(tags: map<nat, Tag>) returns (names: seq<string>, ghost order: seq<nat>)
    ensures Enumerates(order, tags.Keys)
    ensures names == NamesInOrder(tags, order)
  {
    names, order := [], [];
    var remaining := tags.Keys;
    while remaining != {}
      invariant remaining <= tags.Keys
      invariant |order| + |remaining| == |tags.Keys|
      invariant forall x :: x in tags.Keys - remaining <==> x in order
      invariant forall i, j :: 0 <= i < j < |order| ==> order[i] != order[j]
      invariant forall i :: 0 <= i < |order| ==> order[i] in tags
      invariant names == NamesInOrder(tags, order)
      decreases remaining
    {
      var k :| k in remaining;
      EnumerationStep(order, tags.Keys, remaining, k);
      names, order := names + [tags[k].name], order + [k];
      remaining := remaining - {k};
    }
  }

  /** A v3 todo downgraded under key `id`: the key as id, title, status and
      creation time kept, the tag names in some iteration order of the tag map. */
  ghost predicate IsDowngradedTodo(id: nat, todo: V3Todo, r: V2Todo)
  {
    r.id == id && r.title == todo.detail.title && r.status == todo.status && r.createdAt == todo.createdAt &&
    exists order :: Enumerates(order, todo.detail.tags.Keys) && r.tags == NamesInOrder(todo.detail.tags, order)
  }

  /** The v2 apps `v3_to_v2` may return: the same keys, each todo downgraded, no settings. */
  ghost predicate IsV2OfV3(app: V3App, r: V2App)
  {
    r.todos.Keys == app.todos.Keys && r.settings == map[] &&
    forall id :: id in app.todos ==> IsDowngradedTodo(id, app.todos[id], r.todos[id])
  }

  /** `v3_to_v2`: downgrades a v3 app, passes any other variant through. */
  method V3ToV2(d: AppVersioned) returns (r: Result<AppVersioned>)
    ensures d.V3? ==> r.Success? && r.value.V2? && IsV2OfV3(d.v3, r.value.v2)
    ensures !d.V3? ==> r == Success(d)
  {
    if !d.V3? {
      return Success(d);
    }
    var app := d.v3;
    var todos: map<nat, V2Todo> := map[];
    var remaining := app.todos.Keys;
    while remaining != {}
      invariant remaining <= app.todos.Keys
      invariant todos.Keys == app.todos.Keys - remaining
      invariant forall id :: id in todos ==> IsDowngradedTodo(id, app.todos[id], todos[id])
      decreases remaining
    {
      var id :| id in remaining;
      var t := app.todos[id];
      var tags, order := RevertTags(t.detail.tags);
      todos := todos[id := V2Todo(id, t.detail.title, t.status, t.createdAt, tags)];
      remaining := remaining - {id};
    }
    return Success(V2(V2App(todos, map[])));
  }

  /** Reading one more key appends its tag's name. */
  lemma NamesInOrderSnoc(tags: map<nat, Tag>, order: seq<nat>, last: nat)
    requires forall i :: 0 <= i < |order| ==> order[i] in tags
    requires last in tags
    ensures NamesInOrder(tags, order + [last]) == NamesInOrder(tags, order) + [tags[last].name]
  {
  }

  /** The keys in `keys` whose tag is named `n`. */
  ghost function NamedKeys(tags: map<nat, Tag>, keys: set<nat>, n: string): (s: set<nat>)
    ensures forall k :: k in s <==> k in keys && k in tags && tags[k].name == n
  {
    set k | k in keys && k in tags && tags[k].name == n
  }

  /** How many of the keys in `keys` carry a tag named `n`. */
  ghost function NameCount(tags: map<nat, Tag>, keys: set<nat>, n: string): nat
  {
    |NamedKeys(tags, keys, n)|
  }

  /** One more key adds one to the count exactly when its tag is named `n`. */
  lemma NameCountAdd(tags: map<nat, Tag>, keys: set<nat>, x: nat, n: string)
    requires x !in keys && x in tags
    ensures NameCount(tags, keys + {x}, n) == NameCount(tags, keys, n) + (if tags[x].name == n then 1 else 0)
  {
    var before, after := NamedKeys(tags, keys, n), NamedKeys(tags, keys + {x}, n);
    if tags[x].name == n {
      assert after == before + {x};
    } else {
      assert after == before;
    }
  }

  /** The count over `keys` only looks at the tags under `keys`. */
  lemma NameCountAgree(tags: map<nat, Tag>, tags': map<nat, Tag>, keys: set<nat>, n: string)
    requires keys <= tags.Keys && keys <= tags'.Keys
    requires forall k :: k in keys ==> tags[k] == tags'[k]
    ensures NameCount(tags, keys, n) == NameCount(tags', keys, n)
  {
    assert NamedKeys(tags, keys, n) == NamedKeys(tags', keys, n);
  }

  /** The keys an order lists. */
  ghost function KeysOf(order: seq<nat>): set<nat>
  {
    set k | k in order
  }

  /** Reading the tags in an order without repeats gives each name as often as
      the keys of the order carry it. */
  lemma {:induction false} NamesInOrderCount(tags: map<nat, Tag>, order: seq<nat>, n: string)
    requires forall i :: 0 <= i < |order| ==> order[i] in tags
    requires forall i, j :: 0 <= i < j < |order| ==> order[i] != order[j]
    ensures multiset(NamesInOrder(tags, order))[n] == NameCount(tags, KeysOf(order), n)
    decreases |order|
  {
    if order == [] {
      assert KeysOf(order) == {};
    } else {
      var init, last := order[..|order| - 1], order[|order| - 1];
      assert order == init + [last];
      assert forall i :: 0 <= i < |init| ==> init[i] == order[i];
      NamesInOrderCount(tags, init, n);
      NamesInOrderSnoc(tags, init, last);
      assert forall i :: 0 <= i < |init| ==> init[i] != last;
      assert last !in KeysOf(init);
      assert KeysOf(order) == KeysOf(init) + {last};
      NameCountAdd(tags, KeysOf(init), last, n);
    }
  }

  /** Reading every tag once, in any order, gives each name as often as tags carry it. */
  lemma EnumerationCounts(tags: map<nat, Tag>, order: seq<nat>)
    requires Enumerates(order, tags.Keys)
    ensures forall n :: multiset(NamesInOrder(tags, order))[n] == NameCount(tags, tags.Keys, n)
  {
    assert KeysOf(order) == tags.Keys;
    forall n ensures multiset(NamesInOrder(tags, order))[n] == NameCount(tags, tags.Keys, n) {
      NamesInOrderCount(tags, order, n);
    }
  }

  /** A downgraded todo has one tag name per tag, its names are exactly the
      names of the tags, and each name occurs as often as tags carry it. */
  lemma DowngradedTagsCountAndSet(id: nat, todo: V3Todo, r: V2Todo)
    requires IsDowngradedTodo(id, todo, r)
    ensures |r.tags| == |todo.detail.tags|
    ensures (set n | n in r.tags) == (set k | k in todo.detail.tags :: todo.detail.tags[k].name)
    ensures forall n :: multiset(r.tags)[n] == NameCount(todo.detail.tags, todo.detail.tags.Keys, n)
  {
    var tags := todo.detail.tags;
    var order :| Enumerates(order, tags.Keys) && r.tags == NamesInOrder(tags, order);
    EnumerationCounts(tags, order);
    forall n | n in (set k | k in tags :: tags[k].name) ensures n in r.tags {
      var k :| k in tags && tags[k].name == n;
      var i :| 0 <= i < |order| && order[i] == k;
      assert r.tags[i] == n;
    }
  }

  // ---------------------------------------------------------------- v2 -> v1

  /** The v1 todo `v2_to_v1` pushes: id cut to 32 bits, title kept, done exactly
      when the status is `Done`. */
  function DowngradedV1Todo(todo: V2Todo): V1Todo
  {
    V1Todo(todo.id % U32Modulus, todo.title, todo.status == Done)
  }

  /** The v1 apps `v2_to_v1` may return: one todo per map entry, in some iteration
      order of the map. */
  ghost predicate IsV1OfV2(app: V2App, r: V1App)
  {
    exists order :: Enumerates(order, app.todos.Keys) &&
      |r.todos| == |order| &&
      forall i :: 0 <= i < |order| ==> r.todos[i] == DowngradedV1Todo(app.todos[order[i]])
  }

  /** `v2_to_v1`: downgrades a v2 app, passes any other variant through. */
  method V2ToV1(d: AppVersioned) returns (r: Result<AppVersioned>)
    ensures d.V2? ==> r.Success? && r.value.V1? && IsV1OfV2(d.v2, r.value.v1)
    ensures !d.V2? ==> r == Success(d)
  {
    if !d.V2? {
      return Success(d);
    }
    var app := d.v2;
    var todos: seq<V1Todo> := [];
    ghost var order: seq<nat> := [];
    var remaining := app.todos.Keys;
    while remaining != {}
      invariant remaining <= app.todos.Keys
      invariant |order| + |remaining| == |app.todos.Keys|
      invariant forall x :: x in app.todos.Keys - remaining <==> x in order
      invariant forall i, j :: 0 <= i < j < |order| ==> order[i] != order[j]
      invariant forall i :: 0 <= i < |order| ==> order[i] in app.todos
      invariant |todos| == |order|
      invariant forall i :: 0 <= i < |order| ==> todos[i] == DowngradedV1Todo(app.todos[order[i]])
      decreases remaining
    {
      var id :| id in remaining;
      var t := app.todos[id];
      EnumerationStep(order, app.todos.Keys, remaining, id);
      var done := t.status == Done;
      todos, order := todos + [V1Todo(t.id % U32Modulus, t.title, done)], order + [id];
      remaining := remaining - {id};
    }
    return Success(V1(V1App(todos)));
  }

  /** `t.id as u32`: a v2 id of 2^32 + 7 comes back as 7. */
  lemma DowngradeTruncatesId()
    ensures DowngradedV1Todo(V2Todo(U32Modulus + 7, "t", Open, 0, [])).id == 7
  {
  }

  // ---------------------------------------------------------------- round trips and tests

  /** Below 2^32 the v1 id survives the trip to v2 and back. */
  lemma TodoRoundTrip(todo: V1Todo)
    requires todo.id < U32Modulus
    ensures DowngradedV1Todo(MigrateV1TodoToV2(todo)) == todo
  {
  }

  /** With distinct ids below 2^32, downgrading what the upgraded map holds under
      a todo's id gives that todo back. */
  lemma UpgradedLookup(app: V1App, j: nat)
    requires IdsDistinct(app.todos)
    requires forall i :: 0 <= i < |app.todos| ==> app.todos[i].id < U32Modulus
    requires j < |app.todos|
    ensures app.todos[j].id in TodosById(app.todos)
    ensures DowngradedV1Todo(TodosById(app.todos)[app.todos[j].id]) == app.todos[j]
  {
    TodosByIdLastWins(app.todos, j);
    TodoRoundTrip(app.todos[j]);
  }

  /** The set half of `V1RoundTrip`, for one given iteration order. */
  lemma V1RoundTripInOrder(app: V1App, order: seq<nat>, r: V1App)
    requires IdsDistinct(app.todos)
    requires forall i :: 0 <= i < |app.todos| ==> app.todos[i].id < U32Modulus
    requires Enumerates(order, TodosById(app.todos).Keys)
    requires |r.todos| == |order|
    requires forall i :: 0 <= i < |order| ==> r.todos[i] == DowngradedV1Todo(TodosById(app.todos)[order[i]])
    ensures (set t | t in r.todos) == (set t | t in app.todos)
  {
    TodosByIdKeys(app.todos);
    assert forall t :: t in r.todos ==> t in app.todos by {
      forall t | t in r.todos ensures t in app.todos {
        var i :| 0 <= i < |r.todos| && r.todos[i] == t;
        assert order[i] in Ids(app.todos);
        var j :| 0 <= j < |app.todos| && app.todos[j].id == order[i];
        UpgradedLookup(app, j);
      }
    }
    assert forall t :: t in app.todos ==> t in r.todos by {
      forall t | t in app.todos ensures t in r.todos {
        var j :| 0 <= j < |app.todos| && app.todos[j] == t;
        UpgradedLookup(app, j);
        var i :| 0 <= i < |order| && order[i] == t.id;
        assert r.todos[i] == t;
      }
    }
  }

  /** Upgrading a v1 app whose ids are distinct and fit in 32 bits and downgrading
      it again gives back the same todos, as many of them, in some order. */
  lemma V1RoundTrip(app: V1App, r: V1App)
    requires IdsDistinct(app.todos)
    requires forall i :: 0 <= i < |app.todos| ==> app.todos[i].id < U32Modulus
    requires IsV1OfV2(V2OfV1(app), r)
    ensures |r.todos| == |app.todos|
    ensures (set t | t in r.todos) == (set t | t in app.todos)
  {
    var m := TodosById(app.todos);
    TodosByIdCount(app.todos);
    var order :| Enumerates(order, m.Keys) && |r.todos| == |order| &&
      forall i :: 0 <= i < |order| ==> r.todos[i] == DowngradedV1Todo(m[order[i]]);
    V1RoundTripInOrder(app, order, r);
  }

  /** Upgrading a v2 app to v3 and back keeps its keys and each todo's id (when
      todos are stored under their own ids), title, status and creation time, and
      gives each todo back a permutation of its tag names (same multiset; the
      order is the tag map's iteration order). */
  lemma V2RoundTrip(app: V2App, r: V2App)
    requires forall id :: id in app.todos ==> app.todos[id].id == id
    requires IsV2OfV3(V3OfV2(app), r)
    ensures r.todos.Keys == app.todos.Keys
    ensures forall id :: id in app.todos ==>
      r.todos[id].id == app.todos[id].id && r.todos[id].title == app.todos[id].title &&
      r.todos[id].status == app.todos[id].status && r.todos[id].createdAt == app.todos[id].createdAt &&
      |r.todos[id].tags| == |app.todos[id].tags| &&
      (set n | n in r.todos[id].tags) == (set n | n in app.todos[id].tags) &&
      multiset(r.todos[id].tags) == multiset(app.todos[id].tags)
  {
    forall id | id in app.todos
      ensures |r.todos[id].tags| == |app.todos[id].tags|
      ensures (set n | n in r.todos[id].tags) == (set n | n in app.todos[id].tags)
      ensures multiset(r.todos[id].tags) == multiset(app.todos[id].tags)
    {
      TagsRoundTrip(id, app.todos[id], r.todos[id]);
    }
  }

  /** One todo's tags after the trip to v3 and back: a permutation of its names. */
  lemma TagsRoundTrip(id: nat, todo: V2Todo, r: V2Todo)
    requires IsDowngradedTodo(id, UpgradedTodo(id, todo), r)
    ensures |r.tags| == |todo.tags|
    ensures (set n | n in r.tags) == (set n | n in todo.tags)
    ensures multiset(r.tags) == multiset(todo.tags)
  {
    var names := todo.tags;
    DowngradedTagsCountAndSet(id, UpgradedTodo(id, todo), r);
    NumberedTagsShape(names);
    NumberedTagNames(names);
    forall n ensures multiset(r.tags)[n] == multiset(names)[n] {
      NumberedTagsCount(names, n);
    }
  }

  /** Each name is carried by as many numbered tags as it occurs in the list. */
  lemma {:induction false} NumberedTagsCount(names: seq<string>, n: string)
    ensures NameCount(NumberedTags(names), NumberedTags(names).Keys, n) == multiset(names)[n]
    decreases |names|
  {
    var tags := NumberedTags(names);
    if names == [] {
      assert tags.Keys == {};
    } else {
      var init, last := names[..|names| - 1], names[|names| - 1];
      assert names == init + [last];
      NumberedTagsCount(init, n);
      NumberedTagsShape(init);
      var m := NumberedTags(init);
      assert |names| !in m;
      assert tags == m[|names| := Tag(|names|, last, Option.None)];
      assert tags.Keys == m.Keys + {|names|};
      NameCountAgree(m, tags, m.Keys, n);
      NameCountAdd(tags, m.Keys, |names|, n);
    }
  }

  /** The names of the numbered tags are the names they were made from. */
  lemma NumberedTagNames(names: seq<string>)
    ensures var tags := NumberedTags(names);
            (set k | k in tags :: tags[k].name) == (set n | n in names)
  {
    var tags := NumberedTags(names);
    NumberedTagsShape(names);
    forall n | n in names ensures n in (set k | k in tags :: tags[k].name) {
      var i :| 0 <= i < |names| && names[i] == n;
      assert i + 1 in tags && tags[i + 1].name == n;
    }
    forall k | k in tags ensures tags[k].name in names {
      assert tags[k].name == names[k - 1];
    }
  }

  /** Downgrading a one-todo v3 app whose todo has no tags gives the one v2 todo
      with the key as id, the same title, status and creation time, and no tags. */
  lemma DowngradeSingleUntagged(id: nat, todo: V3Todo, app: V3App, r: V2App)
    requires app.todos == map[id := todo] && todo.detail.tags == map[]
    requires IsV2OfV3(app, r)
    ensures r.todos == map[id := V2Todo(id, todo.detail.title, todo.status, todo.createdAt, [])]
  {
    assert IsDowngradedTodo(id, todo, r.todos[id]);
    var tagOrder :| Enumerates(tagOrder, todo.detail.tags.Keys) && r.todos[id].tags == NamesInOrder(todo.detail.tags, tagOrder);
    assert |tagOrder| == 0;
  }

  /** Downgrading a one-todo v2 app gives the one downgraded v1 todo. */
  lemma DowngradeSingle(id: nat, todo: V2Todo, app: V2App, r: V1App)
    requires app.todos == map[id := todo]
    requires IsV1OfV2(app, r)
    ensures r.todos == [DowngradedV1Todo(todo)]
  {
    var order :| Enumerates(order, app.todos.Keys) && |r.todos| == |order| &&
      forall i :: 0 <= i < |order| ==> r.todos[i] == DowngradedV1Todo(app.todos[order[i]]);
    assert order == [id] by {
      assert app.todos.Keys == {id};
      SingletonOrder(order, id);
    }
    assert r.todos[0] == DowngradedV1Todo(todo);
  }

  /** The one iteration order of a single key. */
  lemma SingletonOrder(order: seq<nat>, id: nat)
    requires Enumerates(order, {id})
    ensures order == [id]
  {
    assert |order| == 1;
    assert order[0] in {id};
  }

  // ---------------------------------------------------------------- the handler

  /** What a `v3_to_v2` converter does to every value: the contract of `V3ToV2`,
      for each input, under one choice of `HashMap` iteration order. */
  ghost predicate DowngradesV3(f: AppVersioned -> AppVersioned)
  {
    forall d: AppVersioned :: if d.V3? then f(d).V2? && IsV2OfV3(d.v3, f(d).v2) else f(d) == d
  }

  /** What a `v2_to_v1` converter does to every value: the contract of `V2ToV1`. */
  ghost predicate DowngradesV2(f: AppVersioned -> AppVersioned)
  {
    forall d: AppVersioned :: if d.V2? then f(d).V1? && IsV1OfV2(d.v2, f(d).v1) else f(d) == d
  }

  /** `serialize_converters`: `[v3_to_v2, v2_to_v1]`, in that order. */
  ghost predicate IsSerializeConverters(downs: seq<AppVersioned -> AppVersioned>)
  {
    |downs| == 2 && DowngradesV3(downs[0]) && DowngradesV2(downs[1])
  }

  /** `deserialize_converters`: `[v1_to_v2, v2_to_v3]`. */
  const DeserializeConverters: seq<AppVersioned -> AppVersioned> := [UpgradeV1, UpgradeV2]

  /** The handler configuration of `impl OwnedVersionedData for AppVersioned`:
      the two codecs, the upgrade list, and `downs` for the downgrade list. */
  function AppHandler(c: AppCodecs, downs: seq<AppVersioned -> AppVersioned>): Config<AppVersioned>
  {
    Config((payload, version) => DeserializeVersion(c, payload, version),
           (d, version) => SerializeVersion(c, d, version),
           DeserializeConverters, downs)
  }

  /** `migrate_to_latest`: `deserialize`, which decodes, upgrades and ends with
      `into_latest`. The downgrade list plays no part. */
  function MigrateToLatest(c: AppCodecs, downs: seq<AppVersioned -> AppVersioned>, payload: seq<byte>, version: int): Result<V3App>
  {
    var d :- Deserialized(AppHandler(c, downs), payload, version);
    IntoLatest(d)
  }

  /** The upgrades a call at the version of a decoded value runs take it to v3. */
  lemma UpgradesFrom(d: AppVersioned)
    ensures Apply(Steps(DeserializeConverters, VersionOf(d)), d) ==
      match d
      case V1(x) => V3(V3OfV2(V2OfV1(x)))
      case V2(x) => V3(V3OfV2(x))
      case V3(x) => V3(x)
  {
    match d
    case V1(x) =>
      ApplyPair(UpgradeV1, UpgradeV2, d);
      assert Steps(DeserializeConverters, 1) == [UpgradeV1, UpgradeV2];
    case V2(x) =>
      assert Steps(DeserializeConverters, 2) == [UpgradeV2];
      assert Apply([UpgradeV2], d) == Apply([UpgradeV2][1..], UpgradeV2(d));
      assert [UpgradeV2][1..] == [];
    case V3(x) =>
      assert Steps(DeserializeConverters, 3) == [];
  }

  /** `migrate_to_latest` fails exactly when decoding at `version` fails, with the
      same error (an unknown version is `InvalidVersion`); a payload decoded at
      version 1 is upgraded twice, at version 2 once, at version 3 not at all. */
  lemma MigrateToLatestSpec(c: AppCodecs, downs: seq<AppVersioned -> AppVersioned>, payload: seq<byte>, version: int)
    ensures var r := MigrateToLatest(c, downs, payload, version);
      r.Failure? <==> DeserializeVersion(c, payload, version).Failure?
    ensures var r := MigrateToLatest(c, downs, payload, version);
      r.Failure? ==> DeserializeVersion(c, payload, version) == Failure(r.error)
    ensures !(1 <= version <= 3) ==> MigrateToLatest(c, downs, payload, version) == Failure(InvalidVersion(version))
    ensures version == 1 && c.v1.decode(payload).Success? ==>
      MigrateToLatest(c, downs, payload, version) == Success(V3OfV2(V2OfV1(c.v1.decode(payload).value)))
    ensures version == 2 && c.v2.decode(payload).Success? ==>
      MigrateToLatest(c, downs, payload, version) == Success(V3OfV2(c.v2.decode(payload).value))
    ensures version == 3 ==> MigrateToLatest(c, downs, payload, version) == c.v3.decode(payload)
  {
    var decoded := DeserializeVersion(c, payload, version);
    if decoded.Success? {
      assert VersionOf(decoded.value) == version;
      UpgradesFrom(decoded.value);
    }
  }

  /** migrates_v1_to_v3: the v1 app with todos 1 "a" (not done) and 2 "b" (done),
      encoded and migrated from version 1, has two todos, the one under key 2 `Done`. */
  lemma UpgradeV1ToV3Example(c: AppCodecs, downs: seq<AppVersioned -> AppVersioned>)
    requires CodecsRoundTrip(c)
    ensures var r := MigrateToLatest(c, downs, c.v1.encode(V1App([V1Todo(1, "a", false), V1Todo(2, "b", true)])), 1);
      r.Success? && |r.value.todos| == 2 && 2 in r.value.todos && r.value.todos[2].status == Done
  {
    var v1 := V1App([V1Todo(1, "a", false), V1Todo(2, "b", true)]);
    assert c.v1.decode(c.v1.encode(v1)) == Success(v1);
    MigrateToLatestSpec(c, downs, c.v1.encode(v1), 1);
    TodosByIdCount(v1.todos);
    TodosByIdLastWins(v1.todos, 1);
    var v3 := V3OfV2(V2OfV1(v1));
    assert v3.todos.Keys == V2OfV1(v1).todos.Keys;
  }

  /** migrates_v2_to_v3_with_tags: todo 5 "with-tags" (created at 42, tags red and
      blue), encoded and migrated from version 2, keeps title and creation time and
      has two tags. */
  lemma UpgradeV2ToV3Example(c: AppCodecs, downs: seq<AppVersioned -> AppVersioned>)
    requires CodecsRoundTrip(c)
    ensures var r := MigrateToLatest(c, downs, c.v2.encode(V2App(map[5 := V2Todo(5, "with-tags", Open, 42, ["red", "blue"])], map[])), 2);
      r.Success? && 5 in r.value.todos && r.value.todos[5].detail.title == "with-tags" &&
      |r.value.todos[5].detail.tags| == 2 && r.value.todos[5].createdAt == 42
  {
    var v2 := V2App(map[5 := V2Todo(5, "with-tags", Open, 42, ["red", "blue"])], map[]);
    assert c.v2.decode(c.v2.encode(v2)) == Success(v2);
    MigrateToLatestSpec(c, downs, c.v2.encode(v2), 2);
    NumberedTagsShape(["red", "blue"]);
  }

  /** `serialize(1)` of a v3 app runs `v3_to_v2` and then `v2_to_v1` and writes the
      v1 encoding of the result. */
  lemma SerializeToV1(c: AppCodecs, downs: seq<AppVersioned -> AppVersioned>, app: V3App)
    requires IsSerializeConverters(downs)
    ensures downs[0](V3(app)).V2? && IsV2OfV3(app, downs[0](V3(app)).v2)
    ensures downs[1](downs[0](V3(app))).V1? && IsV1OfV2(downs[0](V3(app)).v2, downs[1](downs[0](V3(app))).v1)
    ensures Serialized(AppHandler(c, downs), V3(app), 1) == Success(c.v1.encode(downs[1](downs[0](V3(app))).v1))
  {
    var f, g := downs[0], downs[1];
    assert downs == [f, g];
    ApplyPair(f, g, V3(app));
  }

  /** serializes_v3_to_v1: the v3 app holding one done todo 7 "hello", serialized
      at version 1 whatever the iteration orders, decodes as v1 to the single todo
      7 "hello", done. */
  lemma DowngradeV3ToV1Example(c: AppCodecs, downs: seq<AppVersioned -> AppVersioned>)
    requires CodecsRoundTrip(c) && IsSerializeConverters(downs)
    ensures var app := V3App(map[7 := V3Todo(7, Done, 123, High, Unassigned, TodoDetail("hello", map[]), [])], AppConfig(System, map[]), map[]);
      var bytes := Serialized(AppHandler(c, downs), V3(app), 1);
      bytes.Success? && c.v1.decode(bytes.value) == Success(V1App([V1Todo(7, "hello", true)]))
  {
    var todo := V3Todo(7, Done, 123, High, Unassigned, TodoDetail("hello", map[]), []);
    var app := V3App(map[7 := todo], AppConfig(System, map[]), map[]);
    SerializeToV1(c, downs, app);
    var r2 := downs[0](V3(app)).v2;
    var r1 := downs[1](V2(r2)).v1;
    DowngradeSingleUntagged(7, todo, app, r2);
    DowngradeSingle(7, V2Todo(7, "hello", Done, 123, []), r2, r1);
    assert c.v1.decode(c.v1.encode(r1)) == Success(r1);
  }

  /** As written, `serialize(2)` of a v3 app runs position 1 of the downgrade list,
      `v2_to_v1`, which passes a v3 app through: the v3 encoding is written under
      version 2. */
  lemma SerializeV3AtVersion2AsWritten(c: AppCodecs, downs: seq<AppVersioned -> AppVersioned>, app: V3App)
    requires IsSerializeConverters(downs)
    ensures Serialized(AppHandler(c, downs), V3(app), 2) == Success(c.v3.encode(app))
  {
    var g := downs[1];
    assert Steps(downs, 2) == [g];
    assert Apply([g], V3(app)) == Apply([g][1..], g(V3(app)));
    assert [g][1..] == [];
  }

  /** With the intended addressing, `serialize(2)` of a v3 app runs `v3_to_v2` only
      and writes the v2 encoding of its downgrade. */
  lemma SerializeV3AtVersion2Intended(c: AppCodecs, downs: seq<AppVersioned -> AppVersioned>, app: V3App)
    requires IsSerializeConverters(downs)
    ensures downs[0](V3(app)).V2? && IsV2OfV3(app, downs[0](V3(app)).v2)
    ensures SerializedIntended(AppHandler(c, downs), V3(app), 2) == Success(c.v2.encode(downs[0](V3(app)).v2))
  {
    var f := downs[0];
    assert IntendedSteps(downs, 2) == [f];
    assert Apply([f], V3(app)) == Apply([f][1..], f(V3(app)));
    assert [f][1..] == [];
  }
}

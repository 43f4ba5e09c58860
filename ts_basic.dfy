/** The TypeScript todo-app example (typescript/examples/basic/src/index.ts): the
    v2 and v3 app records, which hold JavaScript `Map`s, the migrations between
    the three app versions, and the `APP_VERSIONED` handler built from them. */
module TsBasic {
  import opened Wrappers
  import opened Vbare
  import opened VbareProperties
  import opened BareCodec
  import opened AppSchema
  import JsMap

  datatype V2App = V2App(todos: JsMap.Map<nat, V2Todo>, settings: JsMap.Map<string, string>)

  datatype TodoDetail = TodoDetail(title: string, tags: JsMap.Map<nat, Tag>)
  datatype V3Todo = V3Todo(id: nat, status: TodoStatus, createdAt: nat, priority: Priority,
                           assignee: Assignee, detail: TodoDetail, history: seq<Change>)
  datatype AppConfig = AppConfig(theme: Theme, features: JsMap.Map<string, bool>)
  datatype V3App = V3App(todos: JsMap.Map<nat, V3Todo>, config: AppConfig, boards: JsMap.Map<nat, Board>)

  // ---------------------------------------------------------------- v1 -> v2

  /** The map `migrateV1ToV2App` fills: every todo upgraded and set under its id,
      in list order, so a later todo with the same id overwrites an earlier one. */
  function TodosById(todos: seq<V1Todo>): JsMap.Map<nat, V2Todo>
    decreases |todos|
  {
    if todos == [] then []
    else
      var last := todos[|todos| - 1];
      JsMap.Set(TodosById(todos[..|todos| - 1]), last.id, MigrateV1TodoToV2(last))
  }

  function V1ToV2App(app: V1App): V2App
  {
    V2App(TodosById(app.todos), [])
  }

  /** `migrateV1ToV2App`: a loop setting each upgraded todo under its id. */
  method MigrateV1ToV2App(app: V1App) returns (r: V2App)
    ensures r == V1ToV2App(app)
  {
    var todos: JsMap.Map<nat, V2Todo> := [];
    for i := 0 to |app.todos|
      invariant todos == TodosById(app.todos[..i])
    {
      var migrated := MigrateV1TodoToV2(app.todos[i]);
      assert app.todos[..i + 1][..i] == app.todos[..i];
      todos := JsMap.Set(todos, migrated.id, migrated);
    }
    assert app.todos[..|app.todos|] == app.todos;
    r := V2App(todos, []);
  }

  predicate IdsDistinct(todos: seq<V1Todo>)
  {
    forall i, j :: 0 <= i < j < |todos| ==> todos[i].id != todos[j].id
  }

  /** Some todo in the list has id `k`. */
  predicate HasId(todos: seq<V1Todo>, k: nat)
  {
    exists j :: 0 <= j < |todos| && todos[j].id == k
  }

  lemma HasIdSnoc(todos: seq<V1Todo>, k: nat)
    requires todos != []
    ensures HasId(todos, k) <==> HasId(todos[..|todos| - 1], k) || todos[|todos| - 1].id == k
  {
    var init := todos[..|todos| - 1];
    if HasId(todos, k) && todos[|todos| - 1].id != k {
      var j :| 0 <= j < |todos| && todos[j].id == k;
      assert init[j].id == k;
    }
    if HasId(init, k) {
      var j :| 0 <= j < |init| && init[j].id == k;
      assert todos[j].id == k;
    }
  }

  /** The keys of the map are exactly the ids in the list. */
  lemma {:induction false} TodosByIdKeys(todos: seq<V1Todo>, k: nat)
    ensures k in JsMap.Keys(TodosById(todos)) <==> HasId(todos, k)
    decreases |todos|
  {
    if todos != [] {
      var n := |todos| - 1;
      var init, last := todos[..n], todos[n];
      TodosByIdKeys(init, k);
      HasIdSnoc(todos, k);
      var m := TodosById(init);
      assert TodosById(todos) == JsMap.Set(m, last.id, MigrateV1TodoToV2(last));
      if k != last.id {
        assert JsMap.Get(TodosById(todos), k) == JsMap.Get(m, k);
      }
    }
  }

  /** A todo that no later todo shares its id with is what the map holds under it. */
  lemma {:induction false} TodosByIdLastWins(todos: seq<V1Todo>, j: nat)
    requires j < |todos|
    requires forall j' :: j < j' < |todos| ==> todos[j'].id != todos[j].id
    ensures JsMap.Get(TodosById(todos), todos[j].id) == Some(MigrateV1TodoToV2(todos[j]))
    decreases |todos|
  {
    if j < |todos| - 1 {
      var init := todos[..|todos| - 1];
      TodosByIdLastWins(init, j);
    }
  }

  /** With distinct ids, the map holds one entry per todo, in list order. */
  lemma {:induction false} TodosByIdDistinct(todos: seq<V1Todo>)
    requires IdsDistinct(todos)
    ensures |TodosById(todos)| == |todos|
    ensures forall i :: 0 <= i < |todos| ==> TodosById(todos)[i] == (todos[i].id, MigrateV1TodoToV2(todos[i]))
    decreases |todos|
  {
    if todos != [] {
      var n := |todos| - 1;
      var init, last := todos[..n], todos[n];
      assert IdsDistinct(init) by {
        forall i, j | 0 <= i < j < n ensures init[i].id != init[j].id {
          assert init[i] == todos[i] && init[j] == todos[j];
        }
      }
      TodosByIdDistinct(init);
      var m := TodosById(init);
      var r := TodosById(todos);
      assert r == m + [(last.id, MigrateV1TodoToV2(last))] by {
        assert last.id !in JsMap.Keys(m) by {
          forall i | 0 <= i < |m| ensures JsMap.Keys(m)[i] != last.id {
            assert m[i].0 == init[i].id == todos[i].id;
          }
        }
      }
      forall i | 0 <= i < |todos| ensures r[i] == (todos[i].id, MigrateV1TodoToV2(todos[i])) {
        if i < n {
          assert r[i] == m[i] && init[i] == todos[i];
        }
      }
    }
  }

  // ---------------------------------------------------------------- v2 -> v3

  /** The tag map built from a list of names: ids 1, 2, ... in list order, no color. */
  function NumberedTags(names: seq<string>): JsMap.Map<nat, Tag>
  {
    seq(|names|, i requires 0 <= i < |names| => (i + 1, Tag(i + 1, names[i], Option.None)))
  }

  /** The tag map has keys 1..n and key k holds the tag with id k, the k-th name
      and no color. */
  lemma NumberedTagsGet(names: seq<string>, k: nat)
    ensures |NumberedTags(names)| == |names|
    ensures JsMap.Get(NumberedTags(names), k) ==
      if 1 <= k <= |names| then Some(Tag(k, names[k - 1], Option.None)) else Option.None
  {
    var tags := NumberedTags(names);
    if 1 <= k <= |names| {
      assert tags[k - 1] == (k, Tag(k, names[k - 1], Option.None));
      JsMap.GetAt(tags, k - 1);
    } else {
      assert k !in JsMap.Keys(tags) by {
        forall i | 0 <= i < |tags| ensures JsMap.Keys(tags)[i] != k {
          assert tags[i].0 == i + 1;
        }
      }
    }
  }

  /** What `migrateV2TodoToV3` returns: id, title, status and creation time kept,
      tags numbered, priority `Medium`, nobody assigned, empty history. */
  function UpgradedTodo(todo: V2Todo): V3Todo
  {
    V3Todo(todo.id, todo.status, todo.createdAt, Medium, Unassigned,
           TodoDetail(todo.title, NumberedTags(todo.tags)), [])
  }

  /** `migrateV2TodoToV3`: a loop that sets one tag per name under a counter
      starting at 1. */
  method MigrateV2TodoToV3(todo: V2Todo) returns (r: V3Todo)
    ensures r == UpgradedTodo(todo)
  {
    var tags: JsMap.Map<nat, Tag> := [];
    var nextTagId: nat := 1;
    for i := 0 to |todo.tags|
      invariant nextTagId == i + 1
      invariant tags == NumberedTags(todo.tags[..i])
    {
      var id := nextTagId;
      assert id !in JsMap.Keys(tags) by {
        forall j | 0 <= j < |tags| ensures JsMap.Keys(tags)[j] != id {
          assert tags[j].0 == j + 1;
        }
      }
      tags := JsMap.Set(tags, id, Tag(id, todo.tags[i], Option.None));
      nextTagId := nextTagId + 1;
    }
    assert todo.tags[..|todo.tags|] == todo.tags;
    r := V3Todo(todo.id, todo.status, todo.createdAt, Medium, Unassigned, TodoDetail(todo.title, tags), []);
  }

  function UpgradeEntry(id: nat, todo: V2Todo): V3Todo
  {
    UpgradedTodo(todo)
  }

  /** What `migrateV2ToV3App` returns: the same keys in the same order, each todo
      upgraded, theme `System`, no features, no boards. */
  function V2ToV3App(app: V2App): V3App
  {
    V3App(JsMap.MapEntries(app.todos, UpgradeEntry), AppConfig(System, []), [])
  }

  method MigrateV2ToV3App(app: V2App) returns (r: V3App)
    ensures r == V2ToV3App(app)
  {
    var todos: JsMap.Map<nat, V3Todo> := [];
    for i := 0 to |app.todos|
      invariant todos == JsMap.MapEntries(app.todos[..i], UpgradeEntry)
    {
      var (id, t) := app.todos[i];
      var migrated := MigrateV2TodoToV3(t);
      JsMap.MapEntriesStep(app.todos, i, UpgradeEntry);
      todos := JsMap.Set(todos, id, migrated);
    }
    assert app.todos[..|app.todos|] == app.todos;
    r := V3App(todos, AppConfig(System, []), []);
  }

  // ---------------------------------------------------------------- v3 -> v2

  /** The tag names in the tag map's iteration order. */
  function TagNames(tags: JsMap.Map<nat, Tag>): (names: seq<string>)
    ensures |names| == |tags|
  {
    seq(|tags|, i requires 0 <= i < |tags| => tags[i].1.name)
  }

  /** The v2 todo `migrateV3ToV2App` sets under key `id`: the key as id, title,
      status and creation time kept, the tag names in map order. */
  function DowngradedTodo(id: nat, todo: V3Todo): V2Todo
  {
    V2Todo(id, todo.detail.title, todo.status, todo.createdAt, TagNames(todo.detail.tags))
  }

  /** What `migrateV3ToV2App` returns: the same keys in the same order, each todo
      downgraded, no settings. */
  function V3ToV2App(app: V3App): V2App
  {
    V2App(JsMap.MapEntries(app.todos, DowngradedTodo), [])
  }

  /** `migrateV3ToV2App`: an outer loop over the todos and an inner loop pushing
      each tag's name. */
  method MigrateV3ToV2App(app: V3App) returns (r: V2App)
    ensures r == V3ToV2App(app)
  {
    var todos: JsMap.Map<nat, V2Todo> := [];
    for i := 0 to |app.todos|
      invariant todos == JsMap.MapEntries(app.todos[..i], DowngradedTodo)
    {
      var (id, t) := app.todos[i];
      var tags: seq<string> := [];
      for j := 0 to |t.detail.tags|
        invariant tags == TagNames(t.detail.tags)[..j]
      {
        tags := tags + [t.detail.tags[j].1.name];
      }
      assert tags == TagNames(t.detail.tags);
      JsMap.MapEntriesStep(app.todos, i, DowngradedTodo);
      todos := JsMap.Set(todos, id, V2Todo(id, t.detail.title, t.status, t.createdAt, tags));
    }
    assert app.todos[..|app.todos|] == app.todos;
    r := V2App(todos, []);
  }

  // ---------------------------------------------------------------- v2 -> v1

  /** The v1 todo `migrateV2ToV1App` pushes: id and title kept, done exactly when
      the status is `Done`. */
  function DowngradedV1Todo(todo: V2Todo): V1Todo
  {
    V1Todo(todo.id, todo.title, todo.status == Done)
  }

  /** What `migrateV2ToV1App` returns: one todo per map entry, in map order. */
  function V2ToV1App(app: V2App): V1App
  {
    V1App(seq(|app.todos|, i requires 0 <= i < |app.todos| => DowngradedV1Todo(app.todos[i].1)))
  }

  method MigrateV2ToV1App(app: V2App) returns (r: V1App)
    ensures r == V2ToV1App(app)
  {
    var todos: seq<V1Todo> := [];
    for i := 0 to |app.todos|
      invariant todos == V2ToV1App(app).todos[..i]
    {
      var t := app.todos[i].1;
      todos := todos + [V1Todo(t.id, t.title, t.status == Done)];
    }
    r := V1App(todos);
  }

  // ---------------------------------------------------------------- round trips

  /** Upgrading a v1 app whose ids are distinct and downgrading it again gives the
      same app back, todos in the same order. */
  lemma V1RoundTrip(app: V1App)
    requires IdsDistinct(app.todos)
    ensures V2ToV1App(V1ToV2App(app)) == app
  {
    TodosByIdDistinct(app.todos);
  }

  /** Numbering a list of tag names and reading the names back in map order gives
      the list back. */
  lemma NumberedTagNames(names: seq<string>)
    ensures TagNames(NumberedTags(names)) == names
  {
  }

  /** Upgrading a v2 app to v3 and back gives it back when every todo is stored
      under its own id and there are no settings (v3 has nowhere to keep them). */
  lemma V2RoundTrip(app: V2App)
    requires forall i :: 0 <= i < |app.todos| ==> app.todos[i].0 == app.todos[i].1.id
    requires app.settings == []
    ensures V3ToV2App(V2ToV3App(app)) == app
  {
    var up := V2ToV3App(app).todos;
    var back := V3ToV2App(V2ToV3App(app)).todos;
    forall i | 0 <= i < |app.todos| ensures back[i] == app.todos[i] {
      NumberedTagNames(app.todos[i].1.tags);
      assert up[i] == (app.todos[i].0, UpgradedTodo(app.todos[i].1));
    }
  }

  // ---------------------------------------------------------------- APP_VERSIONED

  /** A value passed between the converters of `APP_VERSIONED`, which are typed
      `any`. `Garbled` stands for what a converter or codec written for one
      app version makes of an app of another version. */
  datatype AnyApp = App1(v1: V1App) | App2(v2: V2App) | App3(v3: V3App) | Garbled

  function UpgradeV1(d: AnyApp): AnyApp
  {
    if d.App1? then App2(V1ToV2App(d.v1)) else Garbled
  }

  function UpgradeV2(d: AnyApp): AnyApp
  {
    if d.App2? then App3(V2ToV3App(d.v2)) else Garbled
  }

  function DowngradeV3(d: AnyApp): AnyApp
  {
    if d.App3? then App2(V3ToV2App(d.v3)) else Garbled
  }

  function DowngradeV2(d: AnyApp): AnyApp
  {
    if d.App2? then App1(V2ToV1App(d.v2)) else Garbled
  }

  /** The generated `V1`, `V2` and `V3` `decodeApp`/`encodeApp` pairs. */
  datatype AppCodecs = AppCodecs(v1: Codec<V1App>, v2: Codec<V2App>, v3: Codec<V3App>)

  ghost predicate CodecsRoundTrip(c: AppCodecs)
  {
    RoundTrips(c.v1) && RoundTrips(c.v2) && RoundTrips(c.v3)
  }

  /** The `deserializeVersion` switch: versions 1, 2 and 3 decode with their own
      codec, any other version is an error. */
  function DeserializeVersion(c: AppCodecs, bytes: seq<byte>, version: int): (r: Result<AnyApp>)
    ensures !(1 <= version <= 3) ==> r == Failure(InvalidVersion(version))
    ensures r.Success? ==> (r.value.App1? <==> version == 1) && (r.value.App2? <==> version == 2) && (r.value.App3? <==> version == 3)
  {
    if version == 1 then
      var x :- c.v1.decode(bytes); Success(App1(x))
    else if version == 2 then
      var x :- c.v2.decode(bytes); Success(App2(x))
    else if version == 3 then
      var x :- c.v3.decode(bytes); Success(App3(x))
    else
      Failure(InvalidVersion(version))
  }

  /** The `serializeVersion` switch: versions 1, 2 and 3 encode with their own
      codec (an app of another version is `Mistyped`), any other version is an error. */
  function SerializeVersion(c: AppCodecs, d: AnyApp, version: int): (r: Result<seq<byte>>)
    ensures !(1 <= version <= 3) ==> r == Failure(InvalidVersion(version))
    ensures r.Success? <==> (version == 1 && d.App1?) || (version == 2 && d.App2?) || (version == 3 && d.App3?)
  {
    if version == 1 then
      if d.App1? then Success(c.v1.encode(d.v1)) else Failure(Mistyped)
    else if version == 2 then
      if d.App2? then Success(c.v2.encode(d.v2)) else Failure(Mistyped)
    else if version == 3 then
      if d.App3? then Success(c.v3.encode(d.v3)) else Failure(Mistyped)
    else
      Failure(InvalidVersion(version))
  }

  /** An app encoded at its own version decodes back to itself. */
  lemma CodecDispatchRoundTrip(c: AppCodecs, d: AnyApp, version: int)
    requires CodecsRoundTrip(c)
    requires SerializeVersion(c, d, version).Success?
    ensures DeserializeVersion(c, SerializeVersion(c, d, version).value, version) == Success(d)
  {
    if version == 1 {
      assert c.v1.decode(c.v1.encode(d.v1)) == Success(d.v1);
    } else if version == 2 {
      assert c.v2.decode(c.v2.encode(d.v2)) == Success(d.v2);
    } else {
      assert c.v3.decode(c.v3.encode(d.v3)) == Success(d.v3);
    }
  }

  const DeserializeConverters: seq<AnyApp -> AnyApp> := [UpgradeV1, UpgradeV2]
  const SerializeConverters: seq<AnyApp -> AnyApp> := [DowngradeV3, DowngradeV2]

  /** The configuration `APP_VERSIONED` is created with. */
  function AppVersioned(c: AppCodecs): Config<AnyApp>
  {
    Config((bytes, version) => DeserializeVersion(c, bytes, version),
           (d, version) => SerializeVersion(c, d, version),
           DeserializeConverters, SerializeConverters)
  }

  /** Whatever version a payload is decoded at, a successful `deserialize` returns
      a v3 app: versions 1 and 2 are upgraded by both or by the last converter. */
  lemma DeserializeReachesLatest(c: AppCodecs, bytes: seq<byte>, version: int)
    ensures Deserialized(AppVersioned(c), bytes, version).Success? ==>
      Deserialized(AppVersioned(c), bytes, version).value.App3?
  {
    var config := AppVersioned(c);
    var decoded := DeserializeVersion(c, bytes, version);
    if decoded.Success? {
      if version == 1 {
        assert Apply(DeserializeConverters, decoded.value) ==
          Apply(DeserializeConverters[1..], UpgradeV1(decoded.value));
        assert DeserializeConverters[1..][1..] == [];
      } else if version == 2 {
        assert Steps(DeserializeConverters, 2) == [UpgradeV2];
        assert [UpgradeV2][1..] == [];
        assert Apply([UpgradeV2], decoded.value) == Apply([UpgradeV2][1..], UpgradeV2(decoded.value));
      }
    }
  }

  /** `deserialize(V1.encodeApp(app), 1)` upgrades through v2 to v3. */
  lemma DeserializeV1App(c: AppCodecs, app: V1App)
    requires CodecsRoundTrip(c)
    ensures Deserialized(AppVersioned(c), c.v1.encode(app), 1) == Success(App3(V2ToV3App(V1ToV2App(app))))
  {
    var bytes := c.v1.encode(app);
    assert c.v1.decode(bytes) == Success(app);
    assert AppVersioned(c).deserializeVersion(bytes, 1) == Success(App1(app));
    var up := App2(V1ToV2App(app));
    assert Apply(DeserializeConverters, App1(app)) == Apply(DeserializeConverters[1..], up);
    assert DeserializeConverters[1..][1..] == [];
    assert Apply(DeserializeConverters[1..], up) == Apply(DeserializeConverters[1..][1..], App3(V2ToV3App(V1ToV2App(app))));
  }

  /** The example test: todos 1 "a" (not done) and 2 "b" (done) decoded at
      version 1 become a v3 app with two todos, the one under key 2 `Done`. */
  lemma DeserializeV1Example(c: AppCodecs)
    requires CodecsRoundTrip(c)
    ensures var app := V1App([V1Todo(1, "a", false), V1Todo(2, "b", true)]);
      var r := Deserialized(AppVersioned(c), c.v1.encode(app), 1);
      r.Success? && r.value.App3? && |r.value.v3.todos| == 2 &&
      JsMap.Get(r.value.v3.todos, 2).Some? && JsMap.Get(r.value.v3.todos, 2).value.status == Done
  {
    var app := V1App([V1Todo(1, "a", false), V1Todo(2, "b", true)]);
    DeserializeV1App(c, app);
    TodosByIdDistinct(app.todos);
    var v3 := V2ToV3App(V1ToV2App(app));
    JsMap.GetAt(v3.todos, 1);
  }

  /** The example test: a v2 app with todo 5 "with-tags" (tags red and blue,
      created at 42) decoded at version 2 keeps title and creation time and gets
      two tags. */
  lemma DeserializeV2Example(c: AppCodecs)
    requires CodecsRoundTrip(c)
    ensures var app := V2App([(5, V2Todo(5, "with-tags", Open, 42, ["red", "blue"]))], []);
      var r := Deserialized(AppVersioned(c), c.v2.encode(app), 2);
      r.Success? && r.value.App3? && JsMap.Get(r.value.v3.todos, 5).Some? &&
      JsMap.Get(r.value.v3.todos, 5).value.detail.title == "with-tags" &&
      |JsMap.Get(r.value.v3.todos, 5).value.detail.tags| == 2 &&
      JsMap.Get(r.value.v3.todos, 5).value.createdAt == 42
  {
    var app := V2App([(5, V2Todo(5, "with-tags", Open, 42, ["red", "blue"]))], []);
    assert c.v2.decode(c.v2.encode(app)) == Success(app);
    assert Steps(DeserializeConverters, 2) == [UpgradeV2];
    assert [UpgradeV2][1..] == [];
    assert Apply([UpgradeV2], App2(app)) == Apply([UpgradeV2][1..], App3(V2ToV3App(app)));
    JsMap.GetAt(V2ToV3App(app).todos, 0);
  }

  /** The example test: one done v3 todo 7 "hello" serialized at version 1 is the
      v1 app holding todo 7 "hello", done. */
  lemma SerializeV3ToV1Example(c: AppCodecs)
    ensures var todo := V3Todo(7, Done, 123, High, Unassigned, TodoDetail("hello", []), []);
      var app := V3App([(7, todo)], AppConfig(System, []), []);
      Serialized(AppVersioned(c), App3(app), 1) == Success(c.v1.encode(V1App([V1Todo(7, "hello", true)])))
  {
    var todo := V3Todo(7, Done, 123, High, Unassigned, TodoDetail("hello", []), []);
    var app := V3App([(7, todo)], AppConfig(System, []), []);
    var v2 := V3ToV2App(app);
    assert v2.todos == [(7, V2Todo(7, "hello", Done, 123, []))];
    assert V2ToV1App(v2) == V1App([V1Todo(7, "hello", true)]);
    assert Apply(SerializeConverters, App3(app)) == Apply(SerializeConverters[1..], App2(v2));
    assert Apply(SerializeConverters[1..], App2(v2)) == Apply(SerializeConverters[1..][1..], App1(V2ToV1App(v2)));
    assert SerializeConverters[1..][1..] == [];
  }

  /** As written, serializing a v3 app to version 2 runs position 1 of the
      downgrade list, `migrateV2ToV1App`, on a v3 app: the call cannot produce a
      v2 app. */
  lemma SerializeV3AtVersion2AsWritten(c: AppCodecs, app: V3App)
    ensures Serialized(AppVersioned(c), App3(app), 2) == Failure(Mistyped)
  {
    assert Steps(SerializeConverters, 2) == [DowngradeV2];
    assert [DowngradeV2][1..] == [];
    assert Apply([DowngradeV2], App3(app)) == Apply([DowngradeV2][1..], Garbled);
  }

  /** With the intended addressing, serializing a v3 app to version 2 runs
      `migrateV3ToV2App` only and encodes its result with the v2 codec. */
  lemma SerializeV3AtVersion2Intended(c: AppCodecs, app: V3App)
    ensures SerializedIntended(AppVersioned(c), App3(app), 2) == Success(c.v2.encode(V3ToV2App(app)))
  {
    assert IntendedSteps(SerializeConverters, 2) == [DowngradeV3];
    assert [DowngradeV3][1..] == [];
    assert Apply([DowngradeV3], App3(app)) == Apply([DowngradeV3][1..], App2(V3ToV2App(app)));
  }
}

/** typescript/examples/basic/src/migrator.ts: the same v1 -> v2 -> v3 upgrades as
    the example's index.ts (modelled once, in `TsBasic`), the `migrations` map
    keyed by the version a migration starts from, and `migrateToLatest`. */
module TsMigrator {
  import opened Wrappers
  import opened Vbare
  import opened AppSchema
  import opened TsBasic
  import JsMap

  const CurrentVersion := 3

  /** `migrations`: version 1 to the v1 -> v2 upgrade, version 2 to the v2 -> v3 one. */
  const Migrations: JsMap.Map<int, AnyApp -> AnyApp> := [(1, UpgradeV1), (2, UpgradeV2)]

  /** Each key is the version its migration starts from: applied to an app of that
      version it gives the app of the next version, and no other version has one. */
  lemma MigrationsByFromVersion(v: int, a1: V1App, a2: V2App)
    ensures JsMap.Keys(Migrations) == [1, 2]
    ensures JsMap.Get(Migrations, 1).Some? && JsMap.Get(Migrations, 1).value(App1(a1)) == App2(V1ToV2App(a1))
    ensures JsMap.Get(Migrations, 2).Some? && JsMap.Get(Migrations, 2).value(App2(a2)) == App3(V2ToV3App(a2))
    ensures v != 1 && v != 2 ==> JsMap.Get(Migrations, v) == Option.None
  {
    JsMap.GetAt(Migrations, 0);
    JsMap.GetAt(Migrations, 1);
  }

  /** `migrateToLatest` as written: an app said to be at version 3 is returned as
      it is, whatever it holds. From version 1 or 2 the app goes through
      `APP_VERSIONED.deserialize`; that handler was created with `currentVersion`
      and `migrations` but without `deserializeConverters`, which `deserialize`
      calls right after decoding, so the call fails. */
  function MigrateToLatest(app: AnyApp, fromVersion: int): (r: Result<AnyApp>)
    requires fromVersion == 1 || fromVersion == 2 || fromVersion == 3
    ensures r.Success? <==> fromVersion == CurrentVersion
    ensures r.Success? ==> r.value == app
  {
    if fromVersion == 3 then Success(app) else Failure(MissingConverters)
  }

  /** The migrator test's input, one v1 todo 7 "hello" not done, fails as written. */
  lemma MigrateToLatestFromV1AsWritten()
    ensures MigrateToLatest(App1(V1App([V1Todo(7, "hello", false)])), 1) == Failure(MissingConverters)
  {
  }

  /** What `migrateToLatest` evidently intends: apply the migration keyed by each
      version from `fromVersion` up to the current one. */
  function MigrateToLatestIntended(app: AnyApp, fromVersion: int): (r: AnyApp)
    requires fromVersion == 1 || fromVersion == 2 || fromVersion == 3
    ensures fromVersion == CurrentVersion ==> r == app
    ensures fromVersion == 2 && app.App2? ==> r == App3(V2ToV3App(app.v2))
    ensures fromVersion == 1 && app.App1? ==> r == App3(V2ToV3App(V1ToV2App(app.v1)))
    decreases 3 - fromVersion
  {
    if fromVersion == 3 then app
    else
      MigrationsByFromVersion(fromVersion, if app.App1? then app.v1 else V1App([]), if app.App2? then app.v2 else V2App([], []));
      MigrateToLatestIntended(JsMap.Get(Migrations, fromVersion).value(app), fromVersion + 1)
  }

  /** Run from version 1 or 2, the intended `migrateToLatest` returns what the
      example's index.ts handler `APP_VERSIONED.deserialize` returns for the same
      app encoded at that version. */
  lemma IntendedMatchesHandler(c: AppCodecs, a1: V1App, a2: V2App)
    requires CodecsRoundTrip(c)
    ensures Deserialized(AppVersioned(c), c.v1.encode(a1), 1) == Success(MigrateToLatestIntended(App1(a1), 1))
    ensures Deserialized(AppVersioned(c), c.v2.encode(a2), 2) == Success(MigrateToLatestIntended(App2(a2), 2))
  {
    MigrationsByFromVersion(0, a1, a2);
    MigrationsByFromVersion(0, a1, V1ToV2App(a1));
    DeserializeV1App(c, a1);
    assert c.v2.decode(c.v2.encode(a2)) == Success(a2);
    assert Steps(DeserializeConverters, 2) == [UpgradeV2];
    assert [UpgradeV2][1..] == [];
    assert Apply([UpgradeV2], App2(a2)) == Apply([UpgradeV2][1..], App3(V2ToV3App(a2)));
  }

  /** The migrator test: from version 1, one todo 7 "hello" not done becomes a v3
      app with one todo, `Open`, titled "hello". */
  lemma MigrateToLatestExample()
    ensures var r := MigrateToLatestIntended(App1(V1App([V1Todo(7, "hello", false)])), 1);
      r.App3? && |r.v3.todos| == 1 &&
      r.v3.todos[0].1.status == Open && r.v3.todos[0].1.detail.title == "hello"
  {
    var a1 := V1App([V1Todo(7, "hello", false)]);
    MigrationsByFromVersion(0, a1, V1ToV2App(a1));
    TodosByIdDistinct(a1.todos);
  }

  /** The migrator test of `migrateV1ToV2App`: todos 1 "task a" (not done) and
      2 "task b" (done) give a two-entry map; 1 is `Open`, created at 0, untagged;
      2 is `Done`; there are no settings. */
  lemma MigrateV1ToV2Example()
    ensures var r := V1ToV2App(V1App([V1Todo(1, "task a", false), V1Todo(2, "task b", true)]));
      |r.todos| == 2 && r.settings == [] &&
      JsMap.Get(r.todos, 1) == Some(V2Todo(1, "task a", Open, 0, [])) &&
      JsMap.Get(r.todos, 2).Some? && JsMap.Get(r.todos, 2).value.status == Done
  {
    var a1 := V1App([V1Todo(1, "task a", false), V1Todo(2, "task b", true)]);
    TodosByIdDistinct(a1.todos);
    JsMap.GetAt(V1ToV2App(a1).todos, 0);
    JsMap.GetAt(V1ToV2App(a1).todos, 1);
  }

  /** The migrator test of `migrateV2ToV3App`: todo 10 "with tags" (in progress,
      tags red and blue) keeps its key and title, gets two tags, priority
      `Medium`, nobody assigned; the app gets theme `System` and no boards. */
  lemma MigrateV2ToV3Example()
    ensures var r := V2ToV3App(V2App([(10, V2Todo(10, "with tags", InProgress, 123, ["red", "blue"]))], []));
      |r.todos| == 1 && JsMap.Get(r.todos, 10).Some? &&
      JsMap.Get(r.todos, 10).value.detail.title == "with tags" &&
      |JsMap.Get(r.todos, 10).value.detail.tags| == 2 &&
      JsMap.Get(r.todos, 10).value.priority == Medium &&
      JsMap.Get(r.todos, 10).value.assignee.kind == AssigneeKind.None &&
      r.config.theme == System && r.boards == []
  {
    var a2 := V2App([(10, V2Todo(10, "with tags", InProgress, 123, ["red", "blue"]))], []);
    JsMap.GetAt(V2ToV3App(a2).todos, 0);
  }
}

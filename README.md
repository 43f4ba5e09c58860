# vbare in Dafny

vbare versions binary (BARE) payloads. A payload is written under the schema
version it was encoded with. A **handler** decodes the payload at that version
and runs an upgrade chain of converters to reach the latest version. It also
runs a downgrade chain to write a latest value at an older version, and it can
frame a payload behind a 2-byte little-endian version number. This project
models that handler and the code built around it:

- `Vbare` models the handler of `typescript/vbare/src/index.ts`:
  - the functions `Deserialized`, `Serialized`, `Frame`, `ExtractVersion` and
    `DeserializedWithEmbeddedVersion` say what each operation returns;
  - the class `VersionedDataHandler` does it with loops and a buffer, and each
    method is proved equal to its function.
- `VbareProperties` proves when serialize-then-deserialize round-trips. It also
  proves what the serialize chain addressing selects, and gives the addressing
  the converter lists are written for (see Findings).
- `TestData` models the three-version record of `rust/vbare/tests/test.rs` and
  its converters. The tests' expectations are stated as lemmas on the
  handler's model.
- `AppSchema`, `TsBasic`, `TsMigrator` and `RustBasic` model the todo-app
  example, whose app goes through three versions:
  - `TsBasic` is its TypeScript converters over JavaScript `Map`s, which the
    `JsMap` module models as insertion-ordered lists of entries;
  - `TsMigrator` is `migrator.ts`;
  - `RustBasic` is its Rust converters over `HashMap`s, modelled as maps
    whose iteration order is any order. The Rust upgrade gives priority `Low`
    where the TypeScript one gives `Medium`, and each model keeps its own
    source's value.
- `SchemaPreprocess` models the text passes that `compileSchema` runs on a
  schema, plus the configuration defaults and `postProcessAssert`:
  - drop `//` comment lines;
  - `map<A, B>` becomes `map<A><B>`;
  - snake_case field names become camelCase.
- `Release` models `isValidVersion` and the `Cargo.toml` line rewriter of
  `scripts/release.ts`. The rewriter is a `map` callback with two captured
  flags, modelled as a method and a loop, and proved against a fold.
- `Text` models the JavaScript string operations these use: `trim`, `split`
  on `/\r?\n/`, `join` and `endsWith`. `BareCodec` and `Wrappers` hold the
  codec pair and the `Option`/`Result` types.

Thrown errors become `Failure` values of `Wrappers.Error`. Integers are
unbounded, and every place the source truncates is written out:
`setUint16` keeps the version modulo 65536, and Rust's `as u32` keeps an id
modulo 2^32.

## Model

| member | source | states |
|---|---|---|
| Vbare.Steps | typescript/vbare/src/index.ts:28-32 | a call at `version` runs the chain from position `max(0, version - 1)` to its end, in order: `max(0, \|chain\| - max(0, version - 1))` converters |
| Vbare.Deserialized | typescript/vbare/src/index.ts:26-34 | a codec failure is returned as is; a version past the chain runs no converter; version 1 or below runs the whole upgrade chain |
| Vbare.Serialized | typescript/vbare/src/index.ts:37-45 | a version past the chain writes the value unconverted; version 1 or below runs the whole downgrade chain before the codec |
| Vbare.Frame | typescript/vbare/src/index.ts:48-56 | the frame is 2 bytes longer than the payload, holds the payload after them, and its first two bytes read little-endian are the version modulo 65536 |
| Vbare.ExtractVersion | typescript/vbare/src/index.ts:78-86 | fails exactly below 2 bytes, with `TooShort`; otherwise returns a 16-bit version and data that `Frame` turns back into the input |
| Vbare.DeserializedWithEmbeddedVersion | typescript/vbare/src/index.ts:58-66 | too short below 2 bytes; otherwise deserializes `bytes[2..]` at the little-endian version of the first two bytes |
| Vbare.VersionedDataHandler.constructor | typescript/vbare/src/index.ts:22-23 | the handler keeps the configuration it is given |
| Vbare.VersionedDataHandler.Deserialize | typescript/vbare/src/index.ts:26-34 | the decode-then-upgrade loop returns `Deserialized` |
| Vbare.VersionedDataHandler.Serialize | typescript/vbare/src/index.ts:37-45 | the downgrade loop followed by the codec returns `Serialized` |
| Vbare.VersionedDataHandler.SerializeWithEmbeddedVersion | typescript/vbare/src/index.ts:48-56 | a serialize failure is passed on; otherwise the result is the framed payload |
| Vbare.VersionedDataHandler.DeserializeWithEmbeddedVersion | typescript/vbare/src/index.ts:58-66 | returns `DeserializedWithEmbeddedVersion` |
| Vbare.VersionedDataHandler.EmbedVersion | typescript/vbare/src/index.ts:69-76 | the buffer filled byte by byte is `Frame(version, data)` |
| Vbare.CreateVersionedDataHandler | typescript/vbare/src/index.ts:89-93 | a fresh handler over the configuration |
| VbareProperties.ChainsCancel | typescript/vbare/src/index.ts:14-18 | if the upgrade list undoes the downgrade list back to front, downgrading through the whole chain and upgrading back is the identity |
| VbareProperties.RoundTripShape | typescript/vbare/src/index.ts:26-45 | at any version, when the codec round-trips there, serialize then deserialize gives the selected upgrade steps applied to the selected downgrade steps |
| VbareProperties.RoundTripToOldest | typescript/vbare/src/index.ts:26-45 | at version 1 or below every downgrade then every upgrade runs, and paired chains give the value back |
| VbareProperties.RoundTripAtLatest | typescript/vbare/src/index.ts:26-45 | at the latest version no converter runs in either direction and the value comes back |
| VbareProperties.RoundTripShortChain | typescript/vbare/src/index.test.ts:26-58 | with at most one converter per chain, the as-written addressing round-trips at every version |
| VbareProperties.OneConverterChain | typescript/vbare/src/index.test.ts:40-58 | with one converter per chain, version 1 runs both converters and version 2 runs neither |
| VbareProperties.StepsInOrder | typescript/vbare/src/index.ts:30-32 | the k-th converter run is chain position `max(0, version - 1) + k`: positions in increasing order, none skipped or repeated |
| VbareProperties.StepCounts | typescript/vbare/src/index.ts:28-43 | both chains run the same number of steps at a version; for versions 1 through `\|chain\|` the first step is position `version - 1` |
| VbareProperties.IntendedSteps | rust/vbare/tests/test.rs:201-214 | the intended downgrade steps are a prefix of the list, as many as the as-written addressing selects |
| VbareProperties.AddressingsAgree | typescript/vbare/src/index.ts:41-43 | the two addressings agree at version 1 and below, past the chain, and for chains of at most one converter |
| VbareProperties.IntendedStepsPair | typescript/vbare/src/index.ts:14-18 | under the intended addressing, the steps both directions select still undo each other |
| VbareProperties.IntendedRoundTrip | typescript/vbare/src/index.ts:37-45 | with the intended addressing, serialize then deserialize gives the value back at every version (paired chains, codec round-trips) |
| VbareProperties.ExtractEmbedded | typescript/vbare/src/index.ts:48-66 | reading a frame back gives the version modulo 65536 and the payload |
| VbareProperties.EmbeddedRoundTrip | typescript/vbare/src/index.ts:48-66 | for a 16-bit version, deserializing the framed serialize output is the round trip at that version |
| TestData.UnwrapLatest | rust/vbare/tests/test.rs:36-47 | succeeds exactly on V3 and then undoes `wrap_latest`; otherwise `NotLatest` |
| TestData.DeserializeVersion | rust/vbare/tests/test.rs:49-56 | versions other than 1, 2, 3 are `InvalidVersion`; a success at version n is variant Vn |
| TestData.SerializeVersionByVariant | rust/vbare/tests/test.rs:58-64 | encoding never fails, ignores the version argument, and decodes back at the variant's version |
| TestData.V1ToV2 | rust/vbare/tests/test.rs:117-126 | V1 becomes V2 with id and name kept and description "default"; other variants pass through |
| TestData.V2ToV3 | rust/vbare/tests/test.rs:128-138 | V2 becomes V3 with its fields kept and no tags; other variants pass through |
| TestData.V3ToV2 | rust/vbare/tests/test.rs:140-149 | V3 becomes V2 with tags dropped; other variants pass through |
| TestData.V2ToV1 | rust/vbare/tests/test.rs:151-159 | V2 becomes V1 with description dropped; other variants pass through |
| TestData.ConvertersPairUp | rust/vbare/tests/test.rs:116-160 | each upgrade is undone by the matching downgrade; the other way round only the dropped field is reset |
| TestData.DowngradeToV1AndBack | rust/vbare/tests/test.rs:66-72 | the full downgrade then upgrade of a V3 value keeps id and name, gives description "default" and no tags |
| TestData.DeserializeUnwrapsLatest | rust/vbare/tests/test.rs:40-47 | after a successful decode the upgrades always reach V3, so `unwrap_latest` succeeds and returns that record |
| TestData.UnknownVersionRejected | rust/vbare/tests/test.rs:196-199 | deserializing at an unknown version such as 99 fails with `InvalidVersion` |
| TestData.V3RoundTripAtVersion1 | rust/vbare/tests/test.rs:224-244 | a V3 value written at version 1 is its V1 encoding and reads back with description "default" and no tags |
| TestData.V3RoundTripAtVersion3 | rust/vbare/tests/test.rs:246-263 | at version 3 nothing is converted and every field survives |
| TestData.V2AtVersion2AsWritten | rust/vbare/tests/test.rs:178-194 | as written, a V2 value serialized at version 2 is written as the V1 encoding |
| TestData.V3AtVersion2AsWritten | rust/vbare/tests/test.rs:201-222 | as written, a V3 value serialized at version 2 is written as the V3 encoding |
| TestData.AtVersion2Intended | rust/vbare/tests/test.rs:201-222 | intended addressing: V3 at version 2 loses only its tags, V2 is written as is, and version 2 bytes read back as V3 without tags |
| TestData.EmbeddedV2AtVersion1 | rust/vbare/tests/test.rs:296-318 | the frame starts with bytes 1, 0 and reads back as V3 with description "default" and no tags |
| TestData.V2SerializedAtVersion1 | rust/vbare/tests/test.rs:162-176 | a V2 value written at version 1 is the V1 encoding of its id and name |
| TestData.V1PayloadDeserialized | rust/vbare/tests/test.rs:162-176 | a version 1 payload reads back as V3 with description "default" and no tags |
| TestData.EmbeddedV2AtVersion2Intended | rust/vbare/tests/test.rs:320-342 | the version 2 frame starts with bytes 2, 0 and reads back as V3 with its description and no tags |
| TestData.NoConvertersRoundTrip | rust/vbare/tests/test.rs:344-356 | with no converters a value round-trips at its single version |
| AppSchema.MigrateV1TodoToV2 | typescript/examples/basic/src/index.ts:40-48 | id and title kept, status `Done` exactly when done and `Open` otherwise, created at 0, no tags |
| TsBasic.MigrateV1ToV2App | typescript/examples/basic/src/index.ts:50-60 | the loop's map is `TodosById` of the list and there are no settings |
| TsBasic.TodosByIdKeys | typescript/examples/basic/src/index.ts:51-55 | the map's keys are exactly the ids in the list |
| TsBasic.TodosByIdLastWins | typescript/examples/basic/src/index.ts:51-55 | the map holds, under an id, the upgrade of the last todo with that id |
| TsBasic.TodosByIdDistinct | typescript/examples/basic/src/index.ts:51-55 | with distinct ids there is one entry per todo, in list order |
| TsBasic.NumberedTagsGet | typescript/examples/basic/src/index.ts:64-70 | the tag map has keys 1..n; key k holds id k, the k-th name and no color |
| TsBasic.MigrateV2TodoToV3 | typescript/examples/basic/src/index.ts:62-81 | the counter loop builds the numbered tags; id, status, time and title kept; priority `Medium`; unassigned; empty history |
| TsBasic.MigrateV2ToV3App | typescript/examples/basic/src/index.ts:83-95 | same keys in the same order, each todo upgraded, theme `System`, no features, no boards |
| TsBasic.TagNames | typescript/examples/basic/src/index.ts:102-103 | one name per tag |
| TsBasic.MigrateV3ToV2App | typescript/examples/basic/src/index.ts:99-114 | same keys in the same order; each todo's key as id, tag names in map order, no settings |
| TsBasic.MigrateV2ToV1App | typescript/examples/basic/src/index.ts:116-123 | one v1 todo per map entry in map order, done exactly when the status is `Done` |
| TsBasic.V1RoundTrip | typescript/examples/basic/src/index.ts:50-123 | a v1 app with distinct ids comes back unchanged from v2, in the same order |
| TsBasic.NumberedTagNames | typescript/examples/basic/src/index.ts:99-103 | reading the numbered tags' names back in map order gives the list of names |
| TsBasic.V2RoundTrip | typescript/examples/basic/src/index.ts:83-114 | a v2 app whose todos sit under their own ids and has no settings comes back unchanged from v3 |
| TsBasic.DeserializeVersion | typescript/examples/basic/src/index.ts:9-20 | unknown versions fail with `InvalidVersion`; a success at version n is an app of version n |
| TsBasic.SerializeVersion | typescript/examples/basic/src/index.ts:21-32 | unknown versions fail; it succeeds exactly on an app of the requested version |
| TsBasic.CodecDispatchRoundTrip | typescript/examples/basic/src/index.ts:9-32 | an app encoded at a version decodes back at that version |
| TsBasic.DeserializeReachesLatest | typescript/examples/basic/src/index.ts:8-38 | every successful `deserialize` returns a v3 app |
| TsBasic.DeserializeV1App | typescript/examples/basic/src/index.ts:34-35 | a v1 payload is upgraded through both converters |
| TsBasic.DeserializeV1Example | typescript/examples/basic/index.test.ts:8-22 | todos 1 and 2 at version 1 become two v3 todos, the one under key 2 `Done` |
| TsBasic.DeserializeV2Example | typescript/examples/basic/index.test.ts:24-42 | todo 5 at version 2 keeps its title and creation time and gets two tags |
| TsBasic.SerializeV3ToV1Example | typescript/examples/basic/index.test.ts:44-70 | one done v3 todo 7 "hello" written at version 1 is the v1 app holding todo 7 "hello", done |
| TsBasic.SerializeV3AtVersion2AsWritten | typescript/examples/basic/src/index.ts:36-37 | as written, serializing a v3 app at version 2 runs only `migrateV2ToV1App` on it, and the version 2 encoder is not handed a v2 app (an error here; see Left out) |
| TsBasic.SerializeV3AtVersion2Intended | typescript/examples/basic/src/index.ts:36-37 | with the intended addressing, version 2 runs `migrateV3ToV2App` only |
| TsMigrator.MigrationsByFromVersion | typescript/examples/basic/src/migrator.ts:66-70 | keys 1 and 2 in that order; each maps an app of that version to the next version; no other key |
| TsMigrator.MigrateToLatest | typescript/examples/basic/src/migrator.ts:84-92 | succeeds exactly from version 3, returning the app as is |
| TsMigrator.MigrateToLatestFromV1AsWritten | typescript/examples/basic/src/index.test.ts:48-59 | the migrator test's input fails as written |
| TsMigrator.MigrateToLatestIntended | typescript/examples/basic/src/migrator.ts:84-92 | from version 3 the app is returned as is; a v2 app from version 2 is upgraded once; a v1 app from version 1 is upgraded twice |
| TsMigrator.IntendedMatchesHandler | typescript/examples/basic/src/migrator.ts:84-92 | from versions 1 and 2 the intended result is what the BARE handler `APP_VERSIONED.deserialize` of index.ts returns for the encoded app |
| TsMigrator.MigrateToLatestExample | typescript/examples/basic/src/index.test.ts:48-59 | todo 7 "hello" from version 1 becomes one `Open` v3 todo titled "hello" |
| TsMigrator.MigrateV1ToV2Example | typescript/examples/basic/src/index.test.ts:8-25 | two todos give two entries: 1 is `Open`, created at 0, untagged; 2 is `Done`; there are no settings |
| TsMigrator.MigrateV2ToV3Example | typescript/examples/basic/src/index.test.ts:27-46 | todo 10 keeps key and title, gets two tags, priority `Medium`, nobody assigned; theme `System`, no boards |
| RustBasic.IntoLatest | rust/examples/basic/src/lib.rs:22-31 | succeeds exactly on a v3 app and then undoes `latest`; otherwise `NotLatest` |
| RustBasic.DeserializeVersion | rust/examples/basic/src/lib.rs:33-40 | unknown versions fail with `InvalidVersion`; a success at version n is variant Vn |
| RustBasic.SerializeVersionByVariant | rust/examples/basic/src/lib.rs:42-48 | encoding never fails, ignores the version argument, and decodes back at the variant's version |
| RustBasic.V1ToV2 | rust/examples/basic/src/lib.rs:61-90 | a v1 app becomes the v2 app of `TodosById` with no settings; other variants pass through |
| RustBasic.TodosByIdKeys | rust/examples/basic/src/lib.rs:65-81 | the map's keys are the set of ids |
| RustBasic.TodosByIdCount | rust/examples/basic/src/lib.rs:65-81 | with distinct ids there are as many entries as todos |
| RustBasic.TodosByIdLastWins | rust/examples/basic/src/lib.rs:65-81 | the map holds, under an id, the upgrade of the last todo with that id |
| RustBasic.ConvertTags | rust/examples/basic/src/lib.rs:97-112 | the counter loop builds `NumberedTags` |
| RustBasic.NumberedTagsShape | rust/examples/basic/src/lib.rs:97-112 | keys are exactly 1..n; key k holds id k, the k-th name and no color; n entries |
| RustBasic.V2ToV3 | rust/examples/basic/src/lib.rs:92-153 | a v2 app becomes a v3 app: same keys, each todo upgraded with priority `Low`, theme `System`, settings dropped; other variants pass through |
| RustBasic.NamesInOrder | rust/examples/basic/src/lib.rs:159-165 | one name per key of the order |
| RustBasic.RevertTags | rust/examples/basic/src/lib.rs:159-165 | the names of all tags, each tag once, in some iteration order of the map |
| RustBasic.V3ToV2 | rust/examples/basic/src/lib.rs:155-194 | a v3 app becomes a v2 app with the same keys, each todo downgraded (tag names in some map order), no settings; other variants pass through |
| RustBasic.DowngradedTagsCountAndSet | rust/examples/basic/src/lib.rs:159-165 | a downgraded todo has one name per tag; the names are exactly the tags' names, each as often as tags carry it |
| RustBasic.V2ToV1 | rust/examples/basic/src/lib.rs:196-213 | a v2 app becomes one v1 todo per entry in some map order, ids cut to 32 bits; other variants pass through |
| RustBasic.DowngradeTruncatesId | rust/examples/basic/src/lib.rs:204 | `as u32` turns id 2^32 + 7 into 7 |
| RustBasic.TodoRoundTrip | rust/examples/basic/src/lib.rs:196-213 | a v1 todo with an id below 2^32 survives the trip to v2 and back |
| RustBasic.UpgradedLookup | rust/examples/basic/src/lib.rs:61-90 | with distinct 32-bit ids, downgrading the map's entry under a todo's id gives that todo |
| RustBasic.V1RoundTripInOrder | rust/examples/basic/src/lib.rs:196-213 | for any one iteration order, the downgraded todos are the same set as the originals |
| RustBasic.V1RoundTrip | rust/examples/basic/src/lib.rs:61-213 | a v1 app with distinct 32-bit ids comes back from v2 with as many todos and the same set, in some order |
| RustBasic.V2RoundTrip | rust/examples/basic/src/lib.rs:92-194 | from v3 and back, keys and each todo's id, title, status and time are kept; each todo gets back a permutation of its tag names |
| RustBasic.TagsRoundTrip | rust/examples/basic/src/lib.rs:97-112 | numbering a tag list and reading the names back in any map order gives a permutation of the list |
| RustBasic.NumberedTagNames | rust/examples/basic/src/lib.rs:97-112 | the tags' names are the names they were made from |
| RustBasic.UpgradesFrom | rust/examples/basic/src/lib.rs:50-52 | from the version of a decoded app, `deserialize_converters` take a v1 app through both upgrades, a v2 app through `v2_to_v3` only, and leave a v3 app alone |
| RustBasic.MigrateToLatestSpec | rust/examples/basic/src/lib.rs:216-219 | `migrate_to_latest` fails exactly when decoding at the version fails, with the same error; otherwise it returns the decoded app upgraded to v3 (twice from 1, once from 2, as is from 3) |
| RustBasic.UpgradeV1ToV3Example | rust/examples/basic/tests/migrator.rs:6-29 | the encoded v1 app with todos 1 and 2, deserialized at version 1, has two todos, the one under key 2 `Done` |
| RustBasic.UpgradeV2ToV3Example | rust/examples/basic/tests/migrator.rs:31-55 | the encoded v2 app, deserialized at version 2, has todo 5 with its title, creation time and two tags |
| RustBasic.DowngradeSingleUntagged | rust/examples/basic/src/lib.rs:155-194 | an untagged one-todo v3 app downgrades to the one v2 todo with no tags |
| RustBasic.DowngradeSingle | rust/examples/basic/src/lib.rs:196-213 | a one-todo v2 app downgrades to that one v1 todo |
| RustBasic.SerializeToV1 | rust/examples/basic/src/lib.rs:54-57 | `serialize(1)` of a v3 app runs `v3_to_v2` then `v2_to_v1` and writes the v1 encoding of the result |
| RustBasic.DowngradeV3ToV1Example | rust/examples/basic/tests/migrator.rs:57-100 | whatever the iteration orders, `serialize(1)` of the app with the done todo 7 "hello" decodes as v1 to the single todo 7 "hello", done |
| RustBasic.SerializeV3AtVersion2AsWritten | rust/examples/basic/src/lib.rs:54-57 | as written, `serialize(2)` of a v3 app runs only `v2_to_v1`, which passes it through: the v3 encoding is written under version 2 |
| RustBasic.SerializeV3AtVersion2Intended | rust/examples/basic/src/lib.rs:54-57 | with the intended addressing, `serialize(2)` runs only `v3_to_v2` and writes the v2 encoding of its downgrade |
| JsMap.Get | typescript/examples/basic/src/index.test.ts:17-18 | `get` finds nothing exactly when the key is absent |
| JsMap.GetAt | typescript/examples/basic/src/index.test.ts:17-18 | `get` finds the value of the entry holding the key |
| JsMap.Set | typescript/examples/basic/src/index.ts:51-54 | `set` keeps the order of a present key and appends a new one; the key then maps to the value and every other key is unchanged |
| JsMap.MapEntries | typescript/examples/basic/src/index.ts:84-88 | same keys in the same order, each value transformed |
| JsMap.MapEntriesStep | typescript/examples/basic/src/index.ts:84-88 | setting the next entry's image extends the image of the prefix |
| Text.TrimStartSpec | typescript/vbare-compiler/src/index.ts:19 | `trimStart` removes a whitespace prefix and keeps a suffix not starting with whitespace |
| Text.TrimEndSpec | scripts/release.ts:125 | `trim`'s end removes a whitespace suffix and keeps a prefix not ending with whitespace |
| Text.SplitLines | typescript/vbare-compiler/src/index.ts:18 | at least one piece, none holding '\n' |
| Text.SplitLinesCountAndChars | typescript/vbare-compiler/src/index.ts:18 | one more piece than '\n' characters; every piece character comes from the text |
| Text.SplitJoin | typescript/vbare-compiler/src/index.ts:18-20 | splitting lines joined with "\n" or "\r\n" gives them back when none holds '\n' or ends with '\r' |
| Text.JoinSplit | typescript/vbare-compiler/src/index.ts:18-20 | joining the pieces of a text without '\r' with "\n" gives the text back |
| Text.SplitLinesTrailingEmpty | scripts/release.ts:118-119 | text ending in '\n' splits into at least two pieces, the last empty |
| Text.JoinEndsWithSeparator | scripts/release.ts:148-150 | joining lines whose last is empty ends with the separator |
| SchemaPreprocess.DropCommentLines | typescript/vbare-compiler/src/index.ts:19 | keeps only lines of the input that are not comment lines |
| SchemaPreprocess.DropCommentLinesKeepsOthers | typescript/vbare-compiler/src/index.ts:17-20 | every non-comment line is kept as often as it occurs; the result is the input exactly when no line is a comment |
| SchemaPreprocess.DropCommentLinesAppend | typescript/vbare-compiler/src/index.ts:19 | the filter commutes with concatenation, so order is kept |
| SchemaPreprocess.StripCommentsUnchanged | typescript/vbare-compiler/src/index.ts:17-20 | a schema without '\r' or comment lines is unchanged |
| SchemaPreprocess.StripCommentsReadBack | typescript/vbare-compiler/src/index.ts:17-20 | the stripped schema splits back into the kept lines |
| SchemaPreprocess.MatchMap | typescript/vbare-compiler/src/index.ts:23 | a match is a decomposition the pattern accepts, and every accepted decomposition has the same comma and bracket and no more whitespace |
| SchemaPreprocess.NormalizeMapsWithoutMap | typescript/vbare-compiler/src/index.ts:23 | text without "map<" is unchanged |
| SchemaPreprocess.MatchMapFinds | typescript/vbare-compiler/src/index.ts:23 | on `map<key,␣value>` the match takes all the whitespace |
| SchemaPreprocess.NormalizeMapsStep | typescript/vbare-compiler/src/index.ts:23 | `map<key,␣value>` becomes `map<key><value>` and the scan resumes after it |
| SchemaPreprocess.NestedMapKeepsInnerComma | typescript/vbare-compiler/src/index.ts:23 | a nested map keeps its inner comma form |
| SchemaPreprocess.ToUpperAscii | typescript/vbare-compiler/src/index.ts:27 | upper-casing keeps an ASCII letter or digit one |
| SchemaPreprocess.ToCamel | typescript/vbare-compiler/src/index.ts:26-27 | the name shrinks by exactly the number of `_x` pairs; a word stays a word |
| SchemaPreprocess.ToCamelWithoutPair | typescript/vbare-compiler/src/index.ts:26-27 | a name without `_x` pairs is unchanged |
| SchemaPreprocess.ToCamelUnchangedIff | typescript/vbare-compiler/src/index.ts:26-27 | `toCamel` leaves a name unchanged exactly when it has no `_` before an ASCII letter or digit |
| SchemaPreprocess.MatchField | typescript/vbare-compiler/src/index.ts:31 | a match is a decomposition the field pattern accepts, ending where the whitespace ends |
| SchemaPreprocess.MatchFieldComplete | typescript/vbare-compiler/src/index.ts:31 | whenever the pattern matches, the matcher finds the same indentation, name and colon |
| SchemaPreprocess.RewriteFieldsKeepsNonWord | typescript/vbare-compiler/src/index.ts:30-35 | every character other than letters, digits and `_` survives in order |
| SchemaPreprocess.RewriteFieldsWithoutUnderscore | typescript/vbare-compiler/src/index.ts:30-35 | text without `_` is unchanged |
| SchemaPreprocess.RewriteFieldsInsideLine | typescript/vbare-compiler/src/index.ts:31 | away from a line start, text without line terminators is unchanged |
| SchemaPreprocess.RewriteFieldsAtMatch | typescript/vbare-compiler/src/index.ts:30-35 | at a line start with a match, the name is replaced by its camel form and the scan resumes after the match |
| SchemaPreprocess.RewriteFieldLine | typescript/vbare-compiler/src/index.ts:29-35 | on a declaration line only the name changes, to its camel form |
| SchemaPreprocess.PreprocessUnchanged | typescript/vbare-compiler/src/index.ts:16-35 | a schema with no '\r', comment line, "map<" or `_` reaches the generator unchanged |
| SchemaPreprocess.DefaultConfig | typescript/vbare-compiler/src/index.ts:40-44 | keys are the caller's plus `pedantic` and `generator`; caller values win; defaults are `true` and "ts" |
| SchemaPreprocess.DefaultConfigIdempotent | typescript/vbare-compiler/src/index.ts:40-44 | defaulting twice is defaulting once |
| SchemaPreprocess.FindImport | typescript/vbare-compiler/src/index.ts:65 | finds the first line-start import at or after a position, or reports there is none |
| SchemaPreprocess.PostProcessAssert | typescript/vbare-compiler/src/index.ts:63-71 | ends with the assert function; without an import it only appends; with one it removes exactly one import; always longer |
| SchemaPreprocess.PostProcessAssertNotIdempotent | typescript/vbare-compiler/src/index.ts:63-71 | a second pass appends the function again |
| SchemaPreprocess.PostProcessAssertKeepsSecondImport | typescript/vbare-compiler/src/index.ts:65 | only the first import is removed; a later one stays |
| SchemaPreprocess.StripImportKeepsSecond | typescript/vbare-compiler/src/index.ts:65 | after the removal a later import stands shifted back by the import's length |
| Release.ValidVersionIff | scripts/release.ts:45-47 | the validator accepts exactly three dot-separated digit runs, optionally followed by '-' and a non-empty pre-release run |
| Release.ValidVersionExamples | scripts/release.ts:45-47 | "0.0.12" and "1.2.3-rc.1" pass; "1.2", "v1.2.3" and "1.2.3-" do not |
| Release.MatchVersionLine | scripts/release.ts:133 | a match is a decomposition the version-line pattern accepts |
| Release.MatchVersionLineComplete | scripts/release.ts:133 | every accepted decomposition is the one the matcher returns |
| Release.RewriteFrom | scripts/release.ts:124-141 | one output line per input line |
| Release.RewriteFromAt | scripts/release.ts:124-141 | line k is the callback's result under the flag left by the lines before it |
| Release.RewriteLinesChangesOnlyPackageVersion | scripts/release.ts:124-141 | only version lines inside `[package]` change; headers and lines outside `[package]` are kept |
| Release.NewlineOf | scripts/release.ts:117 | "\r\n" exactly when the file contains one, otherwise "\n" |
| Release.Callback | scripts/release.ts:124-141 | the callback returns the rewritten line, the new section flag and whether it rewrote |
| Release.MapLines | scripts/release.ts:121-141 | the `map` loop returns the rewritten lines and sets `updated` exactly when some line was rewritten |
| Release.UpdateCargoToml | scripts/release.ts:115-151 | returns the content written, or `None` when the file is skipped |
| Release.InPackageAfterLastHeader | scripts/release.ts:127-130 | the section flag is decided by the last header seen |
| Release.InPackageAfterNoHeader | scripts/release.ts:127-130 | without a header the flag keeps its value |
| Release.NoPackageHeaderNoRewrite | scripts/release.ts:121-141 | without a `[package]` header no line is rewritten |
| Release.NoPackageHeaderSkipped | scripts/release.ts:143-146 | a file without a `[package]` header is skipped |
| Release.AnyRewriteFromWitness | scripts/release.ts:132-137 | when `updated` ends true, some line was a version line inside `[package]` |
| Release.RewriteImpliesAny | scripts/release.ts:132-137 | a version line inside `[package]` sets `updated` |
| Release.AnyRewriteIff | scripts/release.ts:122-146 | `updated` ends true exactly when some line is a version line inside `[package]` |
| Release.UpdatedContentNoneIff | scripts/release.ts:143-146 | the file is skipped exactly when no line is a version line inside `[package]` |
| Release.ReplacedIsVersionLine | scripts/release.ts:133-136 | the replaced line is still a version line with the same key, '=' and opening quote |
| Release.ReplacedLineReadBack | scripts/release.ts:133-136 | the replaced line matches again, its quoted value reads back as the version, and it is not a header |
| Release.RewriteLineChars | scripts/release.ts:132-140 | every character of the result comes from the line or the version |
| Release.ReplaceValueChars | scripts/release.ts:136 | every character of a replaced line comes from the line or the version |
| Release.RewriteLineAt | scripts/release.ts:132-137 | a version line inside `[package]` gets its quoted value replaced |
| Release.RewriteLineStable | scripts/release.ts:124-141 | rewriting a rewritten line again changes nothing and leaves the same flag |
| Release.RewriteFromIdempotent | scripts/release.ts:124-141 | a second rewrite of the rewritten lines is a no-op |
| Release.RewriteLinesIdempotent | scripts/release.ts:115-151 | a second release run with the same version leaves the lines as they are |
| Release.FinalNewlineKept | scripts/release.ts:148-151 | a file that ended with a line break still does, and the append never adds a second one |
| Release.FinalNewlineKeptLines | scripts/release.ts:148-151 | with an empty last piece the joined lines already end with the separator |
| Release.RewriteLineKeepsEnd | scripts/release.ts:136 | a rewritten line is empty exactly when the input is, and ends with the same character |
| Release.RewriteLinesKeepBreaksOut | scripts/release.ts:124-141 | lines without '\n' or a trailing '\r' stay so after the rewrite |
| Release.UpdatedContentReadBack | scripts/release.ts:115-151 | splitting the written content gives the rewritten lines, when no line ends with '\r' and the version has no '\n' |

## Left out

- rust/vbare/src/lib.rs is not part of this model. The Rust `serialize`,
  `deserialize` and `migrate_to_latest` are taken to behave as the TypeScript
  handler, whose comments say it mirrors the Rust skip logic. The tests of
  rust/vbare/tests/test.rs are stated against `Vbare` through `TestData`, and
  those of the example crate through `RustBasic.AppHandler`. The Rust `deserialize` returns `Latest`: it ends
  with `unwrap_latest` (rust/vbare/tests/test.rs:40-47). The model keeps that
  step separate, and `TestData.DeserializeUnwrapsLatest` states that it always
  succeeds after a successful decode.
- Byte formats: the BARE and JSON codecs are opaque `Codec` pairs (`BareCodec`).
  The only assumption is that decoding an encoding gives the value back
  (`RoundTrips`). The generated schema files are not part of this model.
- The BARE code generator (`transform` of `@bare-ts/tools`) is not modelled.
  Neither is the file I/O of `compileSchema` (`readFile`, `mkdir`,
  `writeFile`), nor the CLI.
- Release script:
  - `updatePackageJson` is left out: it needs a JSON parser and printer;
  - `collectManifests`, `walk` and `runCommand` are left out: they are
    filesystem and process I/O;
  - the main flow's argument handling is left out;
  - the warnings and log lines printed are left out.
- Converters are total functions. The TypeScript converters never throw on
  their own version's value, and the Rust converters always return `Ok`.
- Vbare.Deserialized: a version is an integer. A non-integer JavaScript
  number is not modelled.
- TsBasic.MigrateV2ToV1App: ids are unbounded. The JavaScript `Number(t.id)`
  loses precision above 2^53, and that is not modelled.
- TsBasic.MigrateV1ToV2App: ids are unbounded; `BigInt(todo.id)` of a
  non-integer `number` is not modelled.
- TsMigrator.MigrateToLatest: the JSON encode and decode around the handler call
  (typescript/examples/basic/src/migrator.ts:80-81, 90) is not modelled. From
  versions 1 and 2 the call fails when `deserialize` calls the missing
  `deserializeConverters` (typescript/vbare/src/index.ts:28); the model reports
  that failure as `MissingConverters`. The JSON step does not round-trip v2 or
  v3 apps: `JSON.stringify` writes a `Map` as `{}`.
- TsMigrator.MigrateToLatestIntended: applies the migrations to the app value
  itself. It is not what `migrateToLatest` would return if `deserializeConverters`
  were added: through its JSON codec, a v2 app would reach `migrateV2ToV3App`
  with its Maps turned into empty objects, and that call throws.
- TsBasic.SerializeVersion: a converter applied to an app of another version
  gives `Garbled`, and encoding anything but an app of the requested version is
  `Mistyped`. In JavaScript the converters are untyped: `migrateV2ToV1App` on a
  v3 app returns a v1-shaped object whose titles are `undefined`. Whether the
  generated `encodeApp` then throws is outside this model (the generated
  encoders are not part of it), so it is assumed to throw.
- RustBasic.V3ToV2 and RustBasic.V2ToV1: `HashMap` iteration order is not
  fixed by the program. The contracts hold for some order, so the round trips
  state counts and sets rather than equality of lists.
- RustBasic.AppHandler: the downgrade list `serialize_converters` is not built
  as functions, because the downgrades are relations over `HashMap` order. It
  is a parameter `downs`; `IsSerializeConverters` requires its two entries to
  do, on every value, what `V3ToV2` and `V2ToV1` promise. This fixes one
  iteration order per map, which covers any single call. The upgrade list is
  built from `UpgradeV1` and `UpgradeV2`.
- RustBasic.MigrateToLatest: takes `downs` only to build the handler; its
  result does not depend on it (`MigrateToLatestSpec`).
- The example's `APP_VERSIONED` encoding of nested maps and the generator's
  handling of `map<A><B>` with a nested map are not modelled. For nested
  maps, only the as-written text rewrite is stated (`NestedMapKeepsInnerComma`).

## Findings

| source | as written | input that shows it | evidently intended | confidence | as-written member | corrected member |
|---|---|---|---|---|---|---|
| typescript/vbare/src/index.ts:41-43 | `serialize` at version v runs the downgrade list from position v - 1 to the end, i.e. its last entries; the list is written newest step first | the three-version `TestData` with a V2 value serialized at version 2 runs `v2_to_v1` and writes the V1 encoding under version 2, which does not decode as V2 (test_v2_to_v2 expects description "data") | run the first `\|list\| - (v - 1)` entries, so version 2 runs only v3 -> v2, as test_v3_to_v2 states | not executed | TestData.V2AtVersion2AsWritten | VbareProperties.IntendedRoundTrip |
| rust/examples/basic/src/lib.rs:54-57 | the example's `serialize_converters` are `[v3_to_v2, v2_to_v1]`, so under the addressing of the row above `serialize(2)` runs only `v2_to_v1` | any v3 app serialized at version 2: `v2_to_v1` passes it through and its v3 encoding is written under version 2 | run only `v3_to_v2` at version 2 | not executed | RustBasic.SerializeV3AtVersion2AsWritten | RustBasic.SerializeV3AtVersion2Intended |
| typescript/examples/basic/src/migrator.ts:77-82 | the migrator's handler is created with `currentVersion` and `migrations` but without `deserializeConverters`, which `deserialize` calls after decoding | `migrateToLatest` of the v1 app holding todo 7 "hello" at version 1 throws instead of returning a v3 app | apply the migration keyed by each version from `fromVersion` up to 3 to the app (the JSON step would also have to keep Map contents, see Left out) | not executed | TsMigrator.MigrateToLatestFromV1AsWritten | TsMigrator.IntendedMatchesHandler |

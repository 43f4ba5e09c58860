/** The three-version record of rust/vbare/tests/test.rs (V1: id and name; V2 adds
    a description; V3 adds tags), its codec dispatch and its four converters, plugged
    into the handler; and the single-version record that has no converters. */
module TestData {
  import opened Wrappers
  import opened Vbare
  import opened VbareProperties
  import opened BareCodec

  datatype TestDataV1 = TestDataV1(id: nat, name: string)
  datatype TestDataV2 = TestDataV2(id: nat, name: string, description: string)
  datatype TestDataV3 = TestDataV3(id: nat, name: string, description: string, tags: seq<string>)

  datatype TestData = V1(v1: TestDataV1) | V2(v2: TestDataV2) | V3(v3: TestDataV3)

  /** `serde_bare` for each of the three structs. */
  datatype Codecs = Codecs(v1: Codec<TestDataV1>, v2: Codec<TestDataV2>, v3: Codec<TestDataV3>)

  ghost predicate CodecsRoundTrip(c: Codecs)
  {
    RoundTrips(c.v1) && RoundTrips(c.v2) && RoundTrips(c.v3)
  }

  function WrapLatest(latest: TestDataV3): TestData
  {
    V3(latest)
  }

  /** Only a V3 value is the latest; unwrapping undoes `WrapLatest`. */
  function UnwrapLatest(d: TestData): (r: Result<TestDataV3>)
    ensures r.Success? <==> d.V3?
    ensures r.Success? ==> WrapLatest(r.value) == d
    ensures r.Failure? ==> r.error == NotLatest
  {
    if d.V3? then Success(d.v3) else Failure(NotLatest)
  }

  /** Decodes `payload` as the struct of `version`; only 1, 2 and 3 are known. */
  function DeserializeVersion(c: Codecs, payload: seq<byte>, version: int): (r: Result<TestData>)
    ensures !(1 <= version <= 3) ==> r == Failure(InvalidVersion(version))
    ensures r.Success? ==> (r.value.V1? <==> version == 1) && (r.value.V2? <==> version == 2) && (r.value.V3? <==> version == 3)
  {
    if version == 1 then
      var x :- c.v1.decode(payload); Success(V1(x))
    else if version == 2 then
      var x :- c.v2.decode(payload); Success(V2(x))
    else if version == 3 then
      var x :- c.v3.decode(payload); Success(V3(x))
    else
      Failure(InvalidVersion(version))
  }

  /** The version a value's variant belongs to. */
  function VersionOf(d: TestData): int
  {
    match d
    case V1(_) => 1
    case V2(_) => 2
    case V3(_) => 3
  }

  /** Encodes by variant; the version argument is ignored. */
  function SerializeVersion(c: Codecs, d: TestData, version: int): Result<seq<byte>>
  {
    match d
    case V1(x) => Success(c.v1.encode(x))
    case V2(x) => Success(c.v2.encode(x))
    case V3(x) => Success(c.v3.encode(x))
  }

  /** Encoding never fails, does not depend on the version argument, and decodes
      back at the version of the value's own variant. */
  lemma SerializeVersionByVariant(c: Codecs, d: TestData, version: int)
    requires CodecsRoundTrip(c)
    ensures SerializeVersion(c, d, version).Success?
    ensures SerializeVersion(c, d, version) == SerializeVersion(c, d, VersionOf(d))
    ensures DeserializeVersion(c, SerializeVersion(c, d, version).value, VersionOf(d)) == Success(d)
  {
    match d
    case V1(x) => assert c.v1.decode(c.v1.encode(x)) == Success(x);
    case V2(x) => assert c.v2.decode(c.v2.encode(x)) == Success(x);
    case V3(x) => assert c.v3.decode(c.v3.encode(x)) == Success(x);
  }

  /** Upgrade V1 to V2: id and name kept, description "default"; other variants untouched. */
  function V1ToV2(d: TestData): (r: TestData)
    ensures d.V1? ==> r.V2? && r.v2.id == d.v1.id && r.v2.name == d.v1.name && r.v2.description == "default"
    ensures !d.V1? ==> r == d
  {
    match d
    case V1(v1) => V2(TestDataV2(v1.id, v1.name, "default"))
    case other => other
  }

  /** Upgrade V2 to V3: id, name and description kept, no tags; other variants untouched. */
  function V2ToV3(d: TestData): (r: TestData)
    ensures d.V2? ==> r.V3? && r.v3.id == d.v2.id && r.v3.name == d.v2.name && r.v3.description == d.v2.description && r.v3.tags == []
    ensures !d.V2? ==> r == d
  {
    match d
    case V2(v2) => V3(TestDataV3(v2.id, v2.name, v2.description, []))
    case other => other
  }

  /** Downgrade V3 to V2: tags dropped, the rest kept; other variants untouched. */
  function V3ToV2(d: TestData): (r: TestData)
    ensures d.V3? ==> r.V2? && r.v2.id == d.v3.id && r.v2.name == d.v3.name && r.v2.description == d.v3.description
    ensures !d.V3? ==> r == d
  {
    match d
    case V3(v3) => V2(TestDataV2(v3.id, v3.name, v3.description))
    case other => other
  }

  /** Downgrade V2 to V1: description dropped, id and name kept; other variants untouched. */
  function V2ToV1(d: TestData): (r: TestData)
    ensures d.V2? ==> r.V1? && r.v1.id == d.v2.id && r.v1.name == d.v2.name
    ensures !d.V2? ==> r == d
  {
    match d
    case V2(v2) => V1(TestDataV1(v2.id, v2.name))
    case other => other
  }

  /** Each upgrade is undone by the matching downgrade on its own source variant;
      the other way round only the field the downgrade dropped is lost. */
  lemma ConvertersPairUp(x1: TestDataV1, x2: TestDataV2, x3: TestDataV3)
    ensures V2ToV1(V1ToV2(V1(x1))) == V1(x1)
    ensures V3ToV2(V2ToV3(V2(x2))) == V2(x2)
    ensures V1ToV2(V2ToV1(V2(x2))) == V2(TestDataV2(x2.id, x2.name, "default"))
    ensures V2ToV3(V3ToV2(V3(x3))) == V3(TestDataV3(x3.id, x3.name, x3.description, []))
  {
  }

  const DeserializeConverters: seq<TestData -> TestData> := [V1ToV2, V2ToV3]
  const SerializeConverters: seq<TestData -> TestData> := [V3ToV2, V2ToV1]

  /** The handler configuration of `impl OwnedVersionedData for TestData`. */
  function TestConfig(c: Codecs): Config<TestData>
  {
    Config((payload, version) => DeserializeVersion(c, payload, version),
           (d, version) => SerializeVersion(c, d, version),
           DeserializeConverters, SerializeConverters)
  }

  /** Downgrading a V3 value to V1 and upgrading it back keeps id and name, gives
      description "default" and no tags. */
  lemma {:induction false} DowngradeToV1AndBack(x: TestDataV3)
    ensures Apply(DeserializeConverters, Apply(SerializeConverters, V3(x))) ==
      V3(TestDataV3(x.id, x.name, "default", []))
  {
    var ups, downs := DeserializeConverters, SerializeConverters;
    var v2 := V2(TestDataV2(x.id, x.name, x.description));
    var v1 := V1(TestDataV1(x.id, x.name));
    calc {
      Apply(downs, V3(x));
      Apply(downs[1..], v2);
      { assert downs[1..][1..] == []; }
      v1;
    }
    calc {
      Apply(ups, v1);
      Apply(ups[1..], V2(TestDataV2(x.id, x.name, "default")));
      { assert ups[1..][1..] == []; }
      V3(TestDataV3(x.id, x.name, "default", []));
    }
  }

  /** `deserialize` ends with `unwrap_latest`: whatever the codec accepts at a
      version is upgraded to V3, so after a successful decode the unwrap succeeds
      and gives the V3 record the upgrades produced. */
  lemma DeserializeUnwrapsLatest(c: Codecs, payload: seq<byte>, version: int)
    ensures Deserialized(TestConfig(c), payload, version).Success? ==>
      UnwrapLatest(Deserialized(TestConfig(c), payload, version).value).Success? &&
      WrapLatest(UnwrapLatest(Deserialized(TestConfig(c), payload, version).value).value) ==
        Deserialized(TestConfig(c), payload, version).value
  {
    var decoded := DeserializeVersion(c, payload, version);
    if decoded.Success? {
      if version == 1 {
        assert Apply(DeserializeConverters, decoded.value) ==
          Apply(DeserializeConverters[1..], V1ToV2(decoded.value));
        assert DeserializeConverters[1..][1..] == [];
      } else if version == 2 {
        assert Steps(DeserializeConverters, 2) == [V2ToV3];
        assert [V2ToV3][1..] == [];
        assert Apply([V2ToV3], decoded.value) == Apply([V2ToV3][1..], V2ToV3(decoded.value));
      }
    }
  }

  /** A version the codec does not know is rejected by the codec, 99 included. */
  lemma UnknownVersionRejected(c: Codecs, payload: seq<byte>, version: int)
    requires !(1 <= version <= 3)
    ensures Deserialized(TestConfig(c), payload, version) == Failure(InvalidVersion(version))
  {
  }

  /** Serialize a V3 value to version 1 and deserialize it: both downgrades run,
      then both upgrades (both addressings agree at version 1). */
  lemma V3RoundTripAtVersion1(c: Codecs, x: TestDataV3)
    requires CodecsRoundTrip(c)
    ensures Serialized(TestConfig(c), V3(x), 1) == Success(c.v1.encode(TestDataV1(x.id, x.name)))
    ensures Deserialized(TestConfig(c), Serialized(TestConfig(c), V3(x), 1).value, 1) ==
      Success(V3(TestDataV3(x.id, x.name, "default", [])))
  {
    var config := TestConfig(c);
    var v1 := TestDataV1(x.id, x.name);
    DowngradeToV1AndBack(x);
    ApplyPair(V3ToV2, V2ToV1, V3(x));
    assert Serialized(config, V3(x), 1) == SerializeVersion(c, V1(v1), 1);
    assert c.v1.decode(c.v1.encode(v1)) == Success(v1);
    assert config.deserializeVersion(c.v1.encode(v1), 1) == Success(V1(v1));
  }

  /** At the latest version (3) nothing is converted and every field survives. */
  lemma V3RoundTripAtVersion3(c: Codecs, x: TestDataV3)
    requires CodecsRoundTrip(c)
    ensures Serialized(TestConfig(c), V3(x), 3) == Success(c.v3.encode(x))
    ensures Deserialized(TestConfig(c), c.v3.encode(x), 3) == Success(V3(x))
  {
    assert c.v3.decode(c.v3.encode(x)) == Success(x);
  }

  /** As written, serializing a V2 value to version 2 runs position 1 of the
      downgrade list, `v2_to_v1`, so the bytes written under version 2 are the V1
      encoding and the description is lost. */
  lemma V2AtVersion2AsWritten(c: Codecs, x: TestDataV2)
    ensures Serialized(TestConfig(c), V2(x), 2) == Success(c.v1.encode(TestDataV1(x.id, x.name)))
  {
    assert Steps(SerializeConverters, 2) == [V2ToV1];
    assert Apply([V2ToV1], V2(x)) == Apply([V2ToV1][1..], V1(TestDataV1(x.id, x.name)));
    assert [V2ToV1][1..] == [];
  }

  /** As written, serializing a V3 value to version 2 runs `v2_to_v1`, which passes
      a V3 value through: the V3 encoding is written under version 2. */
  lemma V3AtVersion2AsWritten(c: Codecs, x: TestDataV3)
    ensures Serialized(TestConfig(c), V3(x), 2) == Success(c.v3.encode(x))
  {
    assert Steps(SerializeConverters, 2) == [V2ToV1];
    assert Apply([V2ToV1], V3(x)) == Apply([V2ToV1][1..], V3(x));
    assert [V2ToV1][1..] == [];
  }

  /** With the intended addressing, serializing to version 2 runs `v3_to_v2` only:
      a V3 value loses its tags and keeps its description, a V2 value is written
      as it is, and deserializing at version 2 brings either back to V3 with no tags. */
  lemma AtVersion2Intended(c: Codecs, x2: TestDataV2, x3: TestDataV3)
    requires CodecsRoundTrip(c)
    ensures SerializedIntended(TestConfig(c), V2(x2), 2) == Success(c.v2.encode(x2))
    ensures SerializedIntended(TestConfig(c), V3(x3), 2) == Success(c.v2.encode(TestDataV2(x3.id, x3.name, x3.description)))
    ensures Deserialized(TestConfig(c), c.v2.encode(x2), 2) == Success(V3(TestDataV3(x2.id, x2.name, x2.description, [])))
  {
    assert IntendedSteps(SerializeConverters, 2) == [V3ToV2];
    assert [V3ToV2][1..] == [];
    assert Apply([V3ToV2], V2(x2)) == Apply([V3ToV2][1..], V2(x2));
    assert Apply([V3ToV2], V3(x3)) == Apply([V3ToV2][1..], V2(TestDataV2(x3.id, x3.name, x3.description)));
    assert Steps(DeserializeConverters, 2) == [V2ToV3];
    assert [V2ToV3][1..] == [];
    assert c.v2.decode(c.v2.encode(x2)) == Success(x2);
    assert Apply([V2ToV3], V2(x2)) == Apply([V2ToV3][1..], V3(TestDataV3(x2.id, x2.name, x2.description, [])));
  }

  /** The embedded frame of a V2 value at version 1 starts with bytes 1, 0 and
      decodes to the latest version with description "default" and no tags. */
  lemma EmbeddedV2AtVersion1(c: Codecs, x: TestDataV2)
    requires CodecsRoundTrip(c)
    ensures Serialized(TestConfig(c), V2(x), 1).Success?
    ensures var frame := Frame(1, Serialized(TestConfig(c), V2(x), 1).value);
      frame[0] == 1 && frame[1] == 0 &&
      DeserializedWithEmbeddedVersion(TestConfig(c), frame) == Success(V3(TestDataV3(x.id, x.name, "default", [])))
  {
    var v1 := TestDataV1(x.id, x.name);
    var payload := c.v1.encode(v1);
    V2SerializedAtVersion1(c, x);
    var frame := Frame(1, payload);
    assert frame[2..] == payload && frame[0] as int + 256 * frame[1] as int == 1;
    V1PayloadDeserialized(c, v1);
  }

  /** Serializing a V2 value at version 1 downgrades it and encodes it with the
      version 1 codec. */
  lemma V2SerializedAtVersion1(c: Codecs, x: TestDataV2)
    ensures Serialized(TestConfig(c), V2(x), 1) == Success(c.v1.encode(TestDataV1(x.id, x.name)))
  {
    ApplyPair(V3ToV2, V2ToV1, V2(x));
  }

  /** A version 1 payload decodes and upgrades to the latest version with
      description "default" and no tags. */
  lemma V1PayloadDeserialized(c: Codecs, v1: TestDataV1)
    requires CodecsRoundTrip(c)
    ensures Deserialized(TestConfig(c), c.v1.encode(v1), 1) == Success(V3(TestDataV3(v1.id, v1.name, "default", [])))
  {
    var config := TestConfig(c);
    var payload := c.v1.encode(v1);
    assert c.v1.decode(payload) == Success(v1);
    assert config.deserializeVersion(payload, 1) == Success(V1(v1));
    ApplyPair(V1ToV2, V2ToV3, V1(v1));
  }

  /** The embedded frame of a V2 value at version 2 (intended addressing) starts
      with bytes 2, 0 and decodes to the latest version with its description. */
  lemma EmbeddedV2AtVersion2Intended(c: Codecs, x: TestDataV2)
    requires CodecsRoundTrip(c)
    ensures var frame := Frame(2, c.v2.encode(x));
      frame[0] == 2 && frame[1] == 0 &&
      DeserializedWithEmbeddedVersion(TestConfig(c), frame) == Success(V3(TestDataV3(x.id, x.name, x.description, [])))
  {
    var payload := c.v2.encode(x);
    var frame := Frame(2, payload);
    assert frame[2..] == payload && frame[0] as int + 256 * frame[1] as int == 2;
    AtVersion2Intended(c, x, TestDataV3(x.id, x.name, x.description, []));
  }

  // The single-version record that declares no converters.

  datatype TestDataNoConvertersV1 = TestDataNoConvertersV1(id: nat, name: string)

  function NoConvertersConfig(codec: Codec<TestDataNoConvertersV1>): Config<TestDataNoConvertersV1>
  {
    Config((payload, version) => if version == 1 then codec.decode(payload) else Failure(InvalidVersion(version)),
           (d, version) => Success(codec.encode(d)),
           [], [])
  }

  /** With no converters, a value round-trips at its single version. */
  lemma NoConvertersRoundTrip(codec: Codec<TestDataNoConvertersV1>, x: TestDataNoConvertersV1)
    requires RoundTrips(codec)
    ensures Serialized(NoConvertersConfig(codec), x, 1).Success?
    ensures Deserialized(NoConvertersConfig(codec), Serialized(NoConvertersConfig(codec), x, 1).value, 1) == Success(x)
  {
    var config := NoConvertersConfig(codec);
    assert CodecRoundTrips(config, 1) by {
      forall y ensures config.serializeVersion(y, 1).Success? ==>
        config.deserializeVersion(config.serializeVersion(y, 1).value, 1) == Success(y)
      {
        assert codec.decode(codec.encode(y)) == Success(y);
      }
    }
    RoundTripToOldest(config, x, 1);
  }
}

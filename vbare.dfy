/** The versioned-data handler: decode a payload of a known schema version and
    upgrade it to the latest version through a chain of converters, downgrade a
    latest value through a second chain and encode it at an older version, and
    frame a payload behind a 2-byte little-endian version number. */
module Vbare {
  import opened Wrappers

  type byte = x: int | 0 <= x < 256

  /** A version number travelling with a payload (`VersionedData<Uint8Array>`). */
  datatype VersionedBytes = VersionedBytes(version: int, data: seq<byte>)

  /** What the caller supplies when building a handler; it never changes afterwards.
      The two codecs are opaque to the handler; converter lists are addressed from
      0, position `i` belonging to the step whose source version is `i + 1`. */
  datatype Config<!V> = Config(
    deserializeVersion: (seq<byte>, int) -> Result<V>,
    serializeVersion: (V, int) -> Result<seq<byte>>,
    deserializeConverters: seq<V -> V>,
    serializeConverters: seq<V -> V>)

  /** First chain position a call at `version` visits: max(0, version - 1). */
  function StartIndex(version: int): nat
  {
    if version >= 1 then version - 1 else 0
  }

  /** The converters a call at `version` runs, in the order it runs them. */
  function Steps<V>(converters: seq<V -> V>, version: int): (steps: seq<V -> V>)
    ensures |steps| == if StartIndex(version) < |converters| then |converters| - StartIndex(version) else 0
    ensures StartIndex(version) <= |converters| ==> steps == converters[StartIndex(version)..]
  {
    if StartIndex(version) < |converters| then converters[StartIndex(version)..] else []
  }

  /** Threads `x` through `steps` from first to last, each step consuming the
      previous step's output. */
  function Apply<V>(steps: seq<V -> V>, x: V): V
    decreases |steps|
  {
    if steps == [] then x else Apply(steps[1..], steps[0](x))
  }

  /** Running one more step after `steps` is applying it to their result. */
  lemma {:induction false} ApplySnoc<V>(steps: seq<V -> V>, f: V -> V, x: V)
    ensures Apply(steps + [f], x) == f(Apply(steps, x))
    decreases |steps|
  {
    if steps == [] {
      assert [] + [f] == [f];
      assert Apply([f], x) == Apply([f][1..], f(x));
      assert [f][1..] == [];
    } else {
      assert (steps + [f])[0] == steps[0];
      assert (steps + [f])[1..] == steps[1..] + [f];
      ApplySnoc(steps[1..], f, steps[0](x));
    }
  }

  /** Two steps: the second applied to the first's result. */
  lemma ApplyPair<V>(f: V -> V, g: V -> V, x: V)
    ensures Apply([f, g], x) == g(f(x))
  {
    assert [f, g][1..] == [g];
    assert Apply([f, g], x) == Apply([g], f(x));
    assert [g][1..] == [];
    assert Apply([g], f(x)) == Apply([], g(f(x)));
  }

  /** What `deserialize(bytes, version)` returns: the codec's error, or the decoded
      value carried through the upgrade converters from position max(0, version - 1)
      to the end. There is no check against versions newer than the chain: such a
      version simply runs no converter. */
  function Deserialized<V>(config: Config<V>, bytes: seq<byte>, version: int): (r: Result<V>)
    ensures config.deserializeVersion(bytes, version).Failure? ==> r == config.deserializeVersion(bytes, version)
    ensures version > |config.deserializeConverters| ==> r == config.deserializeVersion(bytes, version)
    ensures version <= 1 && config.deserializeVersion(bytes, version).Success? ==>
      r == Success(Apply(config.deserializeConverters, config.deserializeVersion(bytes, version).value))
  {
    match config.deserializeVersion(bytes, version)
    case Failure(e) => Failure(e)
    case Success(x) => Success(Apply(Steps(config.deserializeConverters, version), x))
  }

  /** What `serialize(data, version)` returns: the downgrade converters from
      position max(0, version - 1) to the end applied to `data`, then the codec
      called once at `version`. */
  function Serialized<V>(config: Config<V>, data: V, version: int): (r: Result<seq<byte>>)
    ensures version > |config.serializeConverters| ==> r == config.serializeVersion(data, version)
    ensures version <= 1 ==> r == config.serializeVersion(Apply(config.serializeConverters, data), version)
  {
    config.serializeVersion(Apply(Steps(config.serializeConverters, version), data), version)
  }

  /** The embedded-version frame: the version reduced to an unsigned 16-bit
      number, low byte first, then the payload with no length prefix. */
  function Frame(version: int, payload: seq<byte>): (r: seq<byte>)
    ensures |r| == 2 + |payload| && r[2..] == payload
    ensures r[0] as int + 256 * r[1] as int == version % 65536
  {
    [version % 256, (version / 256) % 256] + payload
  }

  /** Reads a frame: too short below 2 bytes, otherwise the 16-bit little-endian
      version and the bytes after it, which the writer `Frame` reproduces exactly. */
  function ExtractVersion(bytes: seq<byte>): (r: Result<VersionedBytes>)
    ensures r.Failure? <==> |bytes| < 2
    ensures r.Failure? ==> r.error == TooShort
    ensures r.Success? ==> 0 <= r.value.version < 65536 && Frame(r.value.version, r.value.data) == bytes
  {
    if |bytes| < 2 then Failure(TooShort)
    else
      var version := bytes[0] as int + 256 * bytes[1] as int;
      assert version % 256 == bytes[0] && (version / 256) % 256 == bytes[1];
      assert bytes == [bytes[0], bytes[1]] + bytes[2..];
      Success(VersionedBytes(version, bytes[2..]))
  }

  /** What `deserializeWithEmbeddedVersion(bytes)` returns. */
  function DeserializedWithEmbeddedVersion<V>(config: Config<V>, bytes: seq<byte>): (r: Result<V>)
    ensures |bytes| < 2 ==> r == Failure(TooShort)
    ensures |bytes| >= 2 ==> r == Deserialized(config, bytes[2..], bytes[0] as int + 256 * bytes[1] as int)
  {
    match ExtractVersion(bytes)
    case Failure(e) => Failure(e)
    case Success(f) => Deserialized(config, f.data, f.version)
  }

  class VersionedDataHandler<V> {
    const config: Config<V>

    constructor (config: Config<V>)
      ensures this.config == config
    {
      this.config := config;
    }

    method Deserialize(bytes: seq<byte>, version: int) returns (r: Result<V>)
      ensures r == Deserialized(config, bytes, version)
    {
      var decoded := config.deserializeVersion(bytes, version);
      if decoded.Failure? {
        return Failure(decoded.error);
      }
      var data := decoded.value;
      var converters := config.deserializeConverters;
      ghost var start := StartIndex(version);
      var i := StartIndex(version);
      while i < |converters|
        invariant start <= i
        invariant start < |converters| ==> i <= |converters| && data == Apply(converters[start..i], decoded.value)
        invariant start >= |converters| ==> data == decoded.value
      {
        ApplySnoc(converters[start..i], converters[i], decoded.value);
        assert converters[start..i + 1] == converters[start..i] + [converters[i]];
        data := converters[i](data);
        i := i + 1;
      }
      assert start < |converters| ==> converters[start..i] == converters[start..];
      return Success(data);
    }

    method Serialize(data: V, version: int) returns (r: Result<seq<byte>>)
      ensures r == Serialized(config, data, version)
    {
      var cur := data;
      var converters := config.serializeConverters;
      ghost var start := StartIndex(version);
      var i := StartIndex(version);
      while i < |converters|
        invariant start <= i
        invariant start < |converters| ==> i <= |converters| && cur == Apply(converters[start..i], data)
        invariant start >= |converters| ==> cur == data
      {
        ApplySnoc(converters[start..i], converters[i], data);
        assert converters[start..i + 1] == converters[start..i] + [converters[i]];
        cur := converters[i](cur);
        i := i + 1;
      }
      assert start < |converters| ==> converters[start..i] == converters[start..];
      r := config.serializeVersion(cur, version);
    }

    method SerializeWithEmbeddedVersion(data: V, version: int) returns (r: Result<seq<byte>>)
      ensures Serialized(config, data, version).Failure? ==> r == Serialized(config, data, version)
      ensures Serialized(config, data, version).Success? ==> r == Success(Frame(version, Serialized(config, data, version).value))
    {
      var payload := Serialize(data, version);
      if payload.Failure? {
        return Failure(payload.error);
      }
      var out := EmbedVersion(VersionedBytes(version, payload.value));
      return Success(out);
    }

    method DeserializeWithEmbeddedVersion(bytes: seq<byte>) returns (r: Result<V>)
      ensures r == DeserializedWithEmbeddedVersion(config, bytes)
    {
      if |bytes| < 2 {
        return Failure(TooShort);
      }
      var version := bytes[0] as int + 256 * bytes[1] as int;
      var payload := bytes[2..];
      r := Deserialize(payload, version);
    }

    /** Writes the 2-byte header (as `DataView.setUint16(0, version, true)` does,
        reducing the version modulo 65536) and copies the payload after it into a
        fresh buffer. */
    method EmbedVersion(data: VersionedBytes) returns (out: seq<byte>)
      ensures out == Frame(data.version, data.data)
    {
      var buffer := new byte[2 + |data.data|];
      buffer[0] := data.version % 256;
      buffer[1] := (data.version / 256) % 256;
      for i := 0 to |data.data|
        invariant buffer[0] == data.version % 256 && buffer[1] == (data.version / 256) % 256
        invariant forall j :: 0 <= j < i ==> buffer[2 + j] == data.data[j]
      {
        buffer[2 + i] := data.data[i];
      }
      out := buffer[..];
      assert out == [data.version % 256, (data.version / 256) % 256] + data.data;
    }
  }

  /** `createVersionedDataHandler(config)`: a fresh handler over `config`. */
  method CreateVersionedDataHandler<V>(config: Config<V>) returns (h: VersionedDataHandler<V>)
    ensures fresh(h) && h.config == config
  {
    h := new VersionedDataHandler(config);
  }
}

/** What the handler's chain addressing and framing guarantee, where round trips
    hold and where they do not, and the serialize addressing the converter lists
    are written for. */
module VbareProperties {
  import opened Wrappers
  import opened Vbare

  /** Upgrade step `i` undoes downgrade step `n - 1 - i`: a downgrade list is
      written from the latest version down (newest step first) and an upgrade list
      from the oldest version up, so the two lists pair up back to front. */
  ghost predicate ChainsInverse<V(!new)>(ups: seq<V -> V>, downs: seq<V -> V>)
  {
    && |ups| == |downs|
    && forall i :: 0 <= i < |ups| ==> Undoes(ups[i], downs[|downs| - 1 - i])
  }

  /** `up` restores every value `down` was given. */
  ghost predicate Undoes<V(!new)>(up: V -> V, down: V -> V)
  {
    forall y :: up(down(y)) == y
  }

  /** The codec decodes at `version` whatever it encoded at `version`. */
  ghost predicate CodecRoundTrips<V(!new)>(config: Config<V>, version: int)
  {
    forall y :: config.serializeVersion(y, version).Success? ==>
      config.deserializeVersion(config.serializeVersion(y, version).value, version) == Success(y)
  }

  /** Downgrading through the whole chain and upgrading back is the identity when
      the chains pair up. */
  lemma {:induction false} ChainsCancel<V(!new)>(ups: seq<V -> V>, downs: seq<V -> V>, x: V)
    requires ChainsInverse(ups, downs)
    ensures Apply(ups, Apply(downs, x)) == x
    decreases |downs|
  {
    if downs != [] {
      var n := |downs|;
      var init, rest := ups[..n - 1], downs[1..];
      assert ChainsInverse(init, rest) by {
        forall i | 0 <= i < |init|
          ensures Undoes(init[i], rest[|rest| - 1 - i])
        {
          assert init[i] == ups[i] && rest[|rest| - 1 - i] == downs[n - 1 - i];
        }
      }
      calc {
        Apply(ups, Apply(downs, x));
        Apply(ups, Apply(rest, downs[0](x)));
        { assert ups == init + [ups[n - 1]];
          ApplySnoc(init, ups[n - 1], Apply(rest, downs[0](x))); }
        ups[n - 1](Apply(init, Apply(rest, downs[0](x))));
        { ChainsCancel(init, rest, downs[0](x)); }
        ups[n - 1](downs[0](x));
        { assert Undoes(ups[n - 1], downs[n - 1 - (n - 1)]); }
        x;
      }
    }
  }

  /** Whatever the version, serialize then deserialize at that version yields the
      upgrade steps the version selects applied to the downgrade steps it selects,
      provided the codec round-trips at that version. */
  lemma RoundTripShape<V(!new)>(config: Config<V>, x: V, version: int)
    requires CodecRoundTrips(config, version)
    requires Serialized(config, x, version).Success?
    ensures Deserialized(config, Serialized(config, x, version).value, version) ==
      Success(Apply(Steps(config.deserializeConverters, version), Apply(Steps(config.serializeConverters, version), x)))
  {
    var y := Apply(Steps(config.serializeConverters, version), x);
    assert config.serializeVersion(y, version) == Serialized(config, x, version);
  }

  /** Target 1 (or any version below it, which is clamped): every downgrade runs,
      then every upgrade; with paired chains the value comes back unchanged. */
  lemma RoundTripToOldest<V(!new)>(config: Config<V>, x: V, version: int)
    requires version <= 1
    requires CodecRoundTrips(config, version)
    requires Serialized(config, x, version).Success?
    ensures Deserialized(config, Serialized(config, x, version).value, version) ==
      Success(Apply(config.deserializeConverters, Apply(config.serializeConverters, x)))
    ensures ChainsInverse(config.deserializeConverters, config.serializeConverters) ==>
      Deserialized(config, Serialized(config, x, version).value, version) == Success(x)
  {
    RoundTripShape(config, x, version);
    assert Steps(config.deserializeConverters, version) == config.deserializeConverters;
    assert Steps(config.serializeConverters, version) == config.serializeConverters;
    if ChainsInverse(config.deserializeConverters, config.serializeConverters) {
      ChainsCancel(config.deserializeConverters, config.serializeConverters, x);
    }
  }

  /** Target = latest (one past the end of both chains): no converter runs in
      either direction, so only the codec is involved. */
  lemma RoundTripAtLatest<V(!new)>(config: Config<V>, x: V)
    requires |config.serializeConverters| == |config.deserializeConverters|
    requires CodecRoundTrips(config, |config.deserializeConverters| + 1)
    requires Serialized(config, x, |config.deserializeConverters| + 1).Success?
    ensures var latest := |config.deserializeConverters| + 1;
      Serialized(config, x, latest) == config.serializeVersion(x, latest) &&
      Deserialized(config, Serialized(config, x, latest).value, latest) == Success(x)
  {
  }

  /** Chains of at most one converter: the as-written addressing round-trips at
      every version when the two converters undo each other. */
  lemma RoundTripShortChain<V(!new)>(config: Config<V>, x: V, version: int)
    requires |config.deserializeConverters| <= 1
    requires ChainsInverse(config.deserializeConverters, config.serializeConverters)
    requires CodecRoundTrips(config, version)
    requires Serialized(config, x, version).Success?
    ensures Deserialized(config, Serialized(config, x, version).value, version) == Success(x)
  {
    if version <= 1 {
      RoundTripToOldest(config, x, version);
    } else {
      RoundTripShape(config, x, version);
      assert Steps(config.deserializeConverters, version) == [];
      assert Steps(config.serializeConverters, version) == [];
    }
  }

  /** A one-converter chain: at version 1 the result is the upgrade of the
      downgrade; at version 2 neither converter runs. */
  lemma OneConverterChain<V(!new)>(config: Config<V>, x: V, bytes: seq<byte>)
    requires |config.deserializeConverters| == 1 && |config.serializeConverters| == 1
    ensures Serialized(config, x, 1) == config.serializeVersion(config.serializeConverters[0](x), 1)
    ensures CodecRoundTrips(config, 1) && Serialized(config, x, 1).Success? ==>
      Deserialized(config, Serialized(config, x, 1).value, 1) ==
        Success(config.deserializeConverters[0](config.serializeConverters[0](x)))
    ensures Serialized(config, x, 2) == config.serializeVersion(x, 2)
    ensures Deserialized(config, bytes, 2) == config.deserializeVersion(bytes, 2)
  {
    var downs := config.serializeConverters;
    assert Apply(downs, x) == Apply(downs[1..], downs[0](x));
    assert downs[1..] == [];
    var ups := config.deserializeConverters;
    assert Apply(ups, downs[0](x)) == Apply(ups[1..], ups[0](downs[0](x)));
    assert ups[1..] == [];
    if CodecRoundTrips(config, 1) && Serialized(config, x, 1).Success? {
      RoundTripToOldest(config, x, 1);
    }
  }

  /** The `k`-th step a call at `version` runs is chain position
      max(0, version - 1) + k: positions are visited in increasing order, none
      skipped or repeated. */
  lemma StepsInOrder<V>(converters: seq<V -> V>, version: int, k: nat)
    requires k < |Steps(converters, version)|
    ensures StartIndex(version) + k < |converters|
    ensures Steps(converters, version)[k] == converters[StartIndex(version) + k]
  {
  }

  /** Both chains select the same number of steps for a version, which is
      max(0, |chain| - max(0, version - 1)); the first step run at versions 2 up
      to the chain length is position version - 1, not position 0. */
  lemma StepCounts<V>(ups: seq<V -> V>, downs: seq<V -> V>, version: int)
    requires |ups| == |downs|
    ensures |Steps(ups, version)| == |Steps(downs, version)|
    ensures |Steps(downs, version)| == if version <= 1 then |downs| else if version - 1 <= |downs| then |downs| - (version - 1) else 0
    ensures 1 <= version <= |downs| ==> Steps(downs, version)[0] == downs[version - 1]
  {
  }

  // ---------------------------------------------------------------------------
  // The serialize addressing the converter lists are written for.
  //
  // A downgrade list is authored newest step first ([v3 -> v2, v2 -> v1]), so
  // reaching version `v` from the latest takes its FIRST |list| - (v - 1) entries.
  // `serialize` as written takes the LAST |list| - (v - 1) entries instead: the
  // count is right, the choice of steps is not, for every v strictly between 1 and
  // the latest version.
  // ---------------------------------------------------------------------------

  /** The downgrade steps that reach `version` from the latest version: the
      prefix of the list, as many entries as `Steps` selects. */
  function IntendedSteps<V>(converters: seq<V -> V>, version: int): (steps: seq<V -> V>)
    ensures |steps| == |Steps(converters, version)|
  {
    if StartIndex(version) < |converters| then converters[..|converters| - StartIndex(version)] else []
  }

  /** `serialize` with the intended addressing. */
  function SerializedIntended<V>(config: Config<V>, data: V, version: int): Result<seq<byte>>
  {
    config.serializeVersion(Apply(IntendedSteps(config.serializeConverters, version), data), version)
  }

  /** The two addressings agree at version 1 and below and at the latest version
      and above, and whenever the chain has at most one converter. */
  lemma AddressingsAgree<V>(config: Config<V>, data: V, version: int)
    requires version <= 1 || version > |config.serializeConverters| || |config.serializeConverters| <= 1
    ensures SerializedIntended(config, data, version) == Serialized(config, data, version)
  {
    var downs := config.serializeConverters;
    assert IntendedSteps(downs, version) == Steps(downs, version);
  }

  /** In paired chains, upgrade position `j` undoes downgrade position
      `|downs| - 1 - j`. */
  lemma PairAt<V(!new)>(ups: seq<V -> V>, downs: seq<V -> V>, j: nat)
    requires ChainsInverse(ups, downs) && j < |ups|
    ensures Undoes(ups[j], downs[|downs| - 1 - j])
  {
  }

  /** The steps both directions select for a version still pair up when the
      downgrade side uses the intended addressing. */
  lemma IntendedStepsPair<V(!new)>(ups: seq<V -> V>, downs: seq<V -> V>, version: int)
    requires ChainsInverse(ups, downs)
    ensures ChainsInverse(Steps(ups, version), IntendedSteps(downs, version))
  {
    var upSteps, downSteps := Steps(ups, version), IntendedSteps(downs, version);
    forall i | 0 <= i < |upSteps|
      ensures Undoes(upSteps[i], downSteps[|downSteps| - 1 - i])
    {
      IntendedStepPairAt(ups, downs, version, i);
    }
  }

  /** Step `i` of the upgrade selection undoes the matching step of the intended
      downgrade selection. */
  lemma IntendedStepPairAt<V(!new)>(ups: seq<V -> V>, downs: seq<V -> V>, version: int, i: nat)
    requires ChainsInverse(ups, downs)
    requires i < |Steps(ups, version)|
    ensures Undoes(Steps(ups, version)[i], IntendedSteps(downs, version)[|IntendedSteps(downs, version)| - 1 - i])
  {
    var s, n := StartIndex(version), |downs|;
    var j := s + i;
    PairAt(ups, downs, j);
    assert IntendedSteps(downs, version) == downs[..n - s];
  }

  /** With the intended addressing, serialize then deserialize round-trips at
      every version, given paired chains and a codec that round-trips there. */
  lemma IntendedRoundTrip<V(!new)>(config: Config<V>, x: V, version: int)
    requires ChainsInverse(config.deserializeConverters, config.serializeConverters)
    requires CodecRoundTrips(config, version)
    requires SerializedIntended(config, x, version).Success?
    ensures Deserialized(config, SerializedIntended(config, x, version).value, version) == Success(x)
  {
    var upSteps := Steps(config.deserializeConverters, version);
    var downSteps := IntendedSteps(config.serializeConverters, version);
    IntendedStepsPair(config.deserializeConverters, config.serializeConverters, version);
    ChainsCancel(upSteps, downSteps, x);
    var y := Apply(downSteps, x);
    assert config.serializeVersion(y, version) == SerializedIntended(config, x, version);
    assert config.deserializeVersion(config.serializeVersion(y, version).value, version) == Success(y);
  }

  // ---------------------------------------------------------------------------
  // The embedded-version frame.
  // ---------------------------------------------------------------------------

  /** Reading back a frame yields the version modulo 65536 and the payload. */
  lemma ExtractEmbedded(version: int, payload: seq<byte>)
    ensures ExtractVersion(Frame(version, payload)) == Success(VersionedBytes(version % 65536, payload))
  {
  }

  /** For versions that fit in 16 bits, deserializing the framed output of
      serialize is deserializing the payload at that version; combined with
      `RoundTripShape` this gives the chain steps the round trip runs. */
  lemma EmbeddedRoundTrip<V(!new)>(config: Config<V>, x: V, version: int)
    requires 0 <= version < 65536
    requires CodecRoundTrips(config, version)
    requires Serialized(config, x, version).Success?
    ensures DeserializedWithEmbeddedVersion(config, Frame(version, Serialized(config, x, version).value)) ==
      Success(Apply(Steps(config.deserializeConverters, version), Apply(Steps(config.serializeConverters, version), x)))
  {
    var payload := Serialized(config, x, version).value;
    var frame := Frame(version, payload);
    assert frame[2..] == payload && frame[0] as int + 256 * frame[1] as int == version;
    assert DeserializedWithEmbeddedVersion(config, frame) == Deserialized(config, payload, version);
    RoundTripShape(config, x, version);
  }
}

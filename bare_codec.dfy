/** A generated or library codec for one schema type, as the examples use it:
    decoding bytes may fail, encoding a well-typed value cannot. The byte-level
    format is not modelled. */
module BareCodec {
  import opened Wrappers
  import opened Vbare

  datatype Codec<!T> = Codec(decode: seq<byte> -> Result<T>, encode: T -> seq<byte>)

  /** What a correct codec guarantees: decoding an encoding gives the value back. */
  ghost predicate RoundTrips<T(!new)>(codec: Codec<T>)
  {
    forall x :: codec.decode(codec.encode(x)) == Success(x)
  }
}

/** Bytes, digests and the hash function shared by the layered tree and the
    binary node tree.

    The Rust code is generic over a `digest::Digest` implementation (or uses
    SHA-256 directly). Its internals are outside the model: a hash function is
    any total map from byte strings to byte strings, and nothing is assumed
    about it (no injectivity, no fixed width). Feeding `a` and then `b` to a
    streaming hasher and finalizing is `hash(a + b)`. */
module Hashing {

  newtype byte = x: int | 0 <= x < 256

  /** The output of a hash function. */
  type Digest = seq<byte>

  /** A hash function, the model of the type parameter `H: Digest`. */
  type Hash = seq<byte> -> Digest
}

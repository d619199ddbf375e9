/** Bytes and digests.

    The hash functions themselves are not modelled. Every statement that needs one takes it as a
    parameter of type `Sum`, so it holds for all hash functions; no collision resistance is
    assumed unless a statement says so. */
module Digests {
  newtype Byte = b: int | 0 <= b < 256
  type Bytes = seq<Byte>

  /** The algorithms registered with the digest library. */
  datatype Algorithm = Sha256 | Sha384 | Sha512

  datatype Digest = Digest(alg: Algorithm, encoded: string)

  /** Maps an algorithm and the bytes absorbed to the encoded sum. */
  type Sum = (Algorithm, Bytes) -> string

  /** The algorithm the registry stores blobs under. */
  const CANONICAL: Algorithm := Sha256

  function DigestOf(sum: Sum, alg: Algorithm, content: Bytes): Digest {
    Digest(alg, sum(alg, content))
  }

  predicate IsHex(c: char) {
    '0' <= c <= '9' || 'a' <= c <= 'f'
  }

  /** The library's rule: a registered algorithm and exactly as many lower-case hexadecimal digits as its
      sum has. */
  predicate ValidDigest(d: Digest) {
    && |d.encoded| == (match d.alg case Sha256 => 64 case Sha384 => 96 case Sha512 => 128)
    && forall i :: 0 <= i < |d.encoded| ==> IsHex(d.encoded[i])
  }
}

/** Small shared vocabulary: optional values, results, bytes and SHA-1 digests. */
module Prelude {

  datatype Option<T> = None | Some(value: T)

  datatype Result<T, E> = Success(value: T) | Failure(error: E)

  /** One octet, as Python's `bytes` holds them. */
  newtype byte = b: int | 0 <= b < 256

  /** What `hashlib.sha1(...).digest()` yields: exactly 20 bytes (FIPS 180-4, a 160-bit digest). */
  type Digest = d: seq<byte> | |d| == 20 witness seq(20, _ => 0 as byte)

  /** SHA-1 itself is not modelled: every function that hashes takes the hash as a parameter. */
  type Sha1 = seq<byte> -> Digest
}

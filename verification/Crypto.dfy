/**
 SHA-256 (section 6.2 of FIPS 180-4) and Ed25519 (section 5.1 of RFC 8032), kept abstract.
 */
module Cryptography {
  import opened Bytes

  /** `publicKey` maps a private key to its public key. */
  datatype Crypto = Crypto(
    sha256: bytes -> bytes,
    publicKey: bytes -> bytes,
    sign: (bytes, bytes) -> bytes,
    verify: (bytes, bytes, bytes) -> bool)

  /** All that is assumed: output lengths, and that a signature verifies under its own key. */
  ghost predicate Sound(c: Crypto) {
    && (forall m: bytes :: |c.sha256(m)| == 32)
    && (forall k: bytes :: |c.publicKey(k)| == 32)
    && (forall k: bytes, m: bytes :: |c.sign(k, m)| == 64)
    && (forall k: bytes, m: bytes :: c.verify(c.publicKey(k), m, c.sign(k, m)))
  }
}

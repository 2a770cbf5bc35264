/**
  The cryptographic primitives, as arbitrary functions constrained by the few laws the
  protocol logic relies on. Every theorem of the project holds for every lawful suite.
*/
module Crypto {
  import opened Bytes

  /** AEAD arguments are key, nonce, associated data and message, in that order. */
  datatype Suite = Suite(
    encrypt: (bytes, bytes, bytes, bytes) -> bytes,
    encryptDetached: (bytes, bytes, bytes, bytes) -> (bytes, bytes),
    decrypt: (bytes, bytes, bytes, bytes) -> Option<bytes>,
    hkdf: (bytes, bytes) -> (bytes, bytes))

  const TAG_LEN: nat := 16

  ghost predicate Lawful(s: Suite) {
    && (forall k, n, a, p :: |s.encrypt(k, n, a, p)| == |p| + TAG_LEN)
    && (forall k, n, a, p :: s.decrypt(k, n, a, s.encrypt(k, n, a, p)) == Some(p))
    && (forall k, n, a, c ::
          s.decrypt(k, n, a, c).Some? ==> |c| == |s.decrypt(k, n, a, c).value| + TAG_LEN)
    && (forall k, n, a, p ::
          var (body, tag) := s.encryptDetached(k, n, a, p);
          |tag| == TAG_LEN && body + tag == s.encrypt(k, n, a, p))
  }

  /** A suite that appends a zero tag: the laws are satisfiable. */
  function ToySuite(): (s: Suite)
  {
    Suite(
      (k, n, a, p: bytes) => p + Zeros(TAG_LEN),
      (k, n, a, p: bytes) => (p, Zeros(TAG_LEN)),
      (k, n, a, c: bytes) => if |c| >= TAG_LEN then Some(c[..|c| - TAG_LEN]) else None,
      (k: bytes, m: bytes) => (Zeros(32), Zeros(32)))
  }

  lemma ToySuiteIsLawful()
    ensures Lawful(ToySuite())
  {
    forall p: bytes
      ensures (p + Zeros(TAG_LEN))[..|p|] == p
    {
    }
  }

  type Cipher = s: Suite | Lawful(s) ghost witness (ToySuiteIsLawful(); ToySuite())

  function Encrypt(s: Cipher, key: bytes, nonce: bytes, aad: bytes, plain: bytes): (c: bytes)
    ensures |c| == |plain| + TAG_LEN
  {
    s.encrypt(key, nonce, aad, plain)
  }

  /** The in-place form: the ciphertext that replaces the buffer, and the tag. */
  function EncryptDetached(s: Cipher, key: bytes, nonce: bytes, aad: bytes, plain: bytes): (r: (bytes, bytes))
    ensures r.0 + r.1 == Encrypt(s, key, nonce, aad, plain)
    ensures |r.0| == |plain| && |r.1| == TAG_LEN
  {
    assert var r := s.encryptDetached(key, nonce, aad, plain);
           |r.0 + r.1| == |plain| + TAG_LEN;
    s.encryptDetached(key, nonce, aad, plain)
  }

  function Decrypt(s: Cipher, key: bytes, nonce: bytes, aad: bytes, c: bytes): (p: Option<bytes>)
    ensures p.Some? ==> |c| == |p.value| + TAG_LEN
    ensures forall q :: c == Encrypt(s, key, nonce, aad, q) ==> p == Some(q)
  {
    s.decrypt(key, nonce, aad, c)
  }
}

/** The cryptographic primitives, known only through the laws the protocols rest on. */
module Crypto {
  import opened Bytes

  const TAG := 16
  const KEY := 32
  const SIGNATURE := 64

  /** ChaCha20-Poly1305 (RFC 8439, section 2.8): key, nonce, associated data, text. */
  datatype Aead = Aead(
    seal: (bytes, bytes, bytes, bytes) -> bytes,
    open: (bytes, bytes, bytes, bytes) -> Option<bytes>)
  {
    ghost predicate Lawful() {
      && (forall k, n, a, m {:trigger seal(k, n, a, m)} :: open(k, n, a, seal(k, n, a, m)) == Some(m))
      && (forall k, n, a, m {:trigger seal(k, n, a, m)} :: |seal(k, n, a, m)| == |m| + TAG)
    }
  }

  /** X25519, Ed25519 and HKDF-SHA512. */
  datatype Suite = Suite(
    aead: Aead,
    publicOf: bytes -> bytes,
    agree: (bytes, bytes) -> bytes,
    hkdf: (bytes, bytes, bytes) -> bytes,
    verifierOf: bytes -> bytes,
    sign: (bytes, bytes) -> bytes,
    verify: (bytes, bytes, bytes) -> bool)
  {
    ghost predicate Lawful() {
      && aead.Lawful()
      && (forall s {:trigger publicOf(s)} :: |publicOf(s)| == KEY)
      && (forall s, p {:trigger agree(s, p)} :: |agree(s, p)| == KEY)
      && (forall a, b {:trigger agree(a, publicOf(b))} :: agree(a, publicOf(b)) == agree(b, publicOf(a)))
      && (forall s, t, i {:trigger hkdf(s, t, i)} :: |hkdf(s, t, i)| == KEY)
      && (forall k, m {:trigger sign(k, m)} :: |sign(k, m)| == SIGNATURE && verify(verifierOf(k), m, sign(k, m)))
    }
  }

  function Zeros(n: nat): (r: bytes)
    ensures |r| == n
  {
    if n == 0 then [] else [0] + Zeros(n - 1)
  }

  /** The laws contradict nothing: a toy suite meets them all. */
  lemma LawsAreConsistent() returns (s: Suite)
    ensures s.Lawful()
  {
    var open := (k: bytes, n: bytes, a: bytes, c: bytes) => if |c| < TAG then None else Some(c[..|c| - TAG]);
    var aead := Aead((k, n, a, m: bytes) => m + Zeros(TAG), open);
    forall m: bytes
      ensures (m + Zeros(TAG))[..|m + Zeros(TAG)| - TAG] == m
    {
    }
    s := Suite(aead, s => Zeros(KEY), (a, b) => Zeros(KEY), (a, b, c) => Zeros(KEY), k => k,
               (k, m) => Zeros(SIGNATURE), (k, m, g) => true);
  }
}

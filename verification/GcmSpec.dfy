/** Galois/Counter Mode as NIST SP 800-38D defines it, on byte strings, over an abstract block cipher and an abstract
    multiplication of blocks. */
module GcmSpec {
  import opened Bytes
  import Bits

  const BLOCK: nat := 16

  /** The forward cipher of a key on a block, and the multiplication of blocks of section 6.3. */
  datatype Primitives = Primitives(cipher: (bytes, bytes) -> bytes, dot: (bytes, bytes) -> bytes) {
    ghost predicate Lawful() {
      && (forall k, b :: |cipher(k, b)| == BLOCK)
      && (forall x, y :: |dot(x, y)| == BLOCK)
    }
  }

  function XorByte(a: byte, b: byte): (r: byte) {
    Bits.XorBound(a as nat, b as nat, 8);
    assert Bits.Pow2(8) == 256;
    Bits.Xor(a as nat, b as nat) as byte
  }

  lemma XorByteUndoes(a: byte, b: byte)
    ensures XorByte(XorByte(a, b), b) == a
  {
    Bits.XorUndoes(a as nat, b as nat);
  }

  /** Byte by byte, as far as both go. */
  function Xor(a: bytes, b: bytes): (r: bytes)
    ensures |r| == Min(|a|, |b|)
  {
    seq(Min(|a|, |b|), i requires 0 <= i < |a| && i < |b| => XorByte(a[i], b[i]))
  }

  function Zeros(n: nat): (r: bytes)
    ensures |r| == n && forall i :: 0 <= i < n ==> r[i] == 0
  {
    seq(n, i => 0)
  }

  /** How many zero bytes fill the last block. */
  function Fill(n: nat): (f: nat)
    ensures f < BLOCK && (n + f) % BLOCK == 0
  {
    (BLOCK - n % BLOCK) % BLOCK
  }

  /** Section 6.4, on a string of whole blocks. */
  function Ghash(p: Primitives, h: bytes, x: bytes): bytes
    requires |x| % BLOCK == 0
    decreases |x|
  {
    if x == [] then Zeros(BLOCK) else p.dot(Xor(Ghash(p, h, x[..|x| - BLOCK]), x[|x| - BLOCK..]), h)
  }

  const COUNTER_SPACE: nat := 0x1_0000_0000

  /** 32 bits. */
  function Word(n: nat): (r: bytes)
    ensures |r| == 4
  {
    Be(n, 4)
  }

  /** Section 6.2, applied `k` times: the last 32 bits count modulo 2^32, the others stay. */
  function Counter(icb: bytes, k: nat): (r: bytes)
    requires |icb| == BLOCK
    ensures |r| == BLOCK
  {
    icb[..12] + Word((FromBe(icb[12..]) + k) % COUNTER_SPACE)
  }

  /** Section 6.5: byte `i` is masked with byte `i mod 16` of the cipher on counter block `i / 16`. */
  function Gctr(p: Primitives, key: bytes, icb: bytes, x: bytes): (r: bytes)
    requires p.Lawful() && |icb| == BLOCK
    ensures |r| == |x|
  {
    seq(|x|, i requires 0 <= i < |x| => XorByte(x[i], p.cipher(key, Counter(icb, i / BLOCK))[i % BLOCK]))
  }

  /** The pre-counter block of section 7.1, step 2. */
  function PreCounter(p: Primitives, h: bytes, iv: bytes): (j: bytes) {
    if |iv| == 12 then iv + [0, 0, 0, 1]
    else Ghash(p, h, iv + Zeros(Fill(|iv|) + 8) + Be(8 * |iv|, 8))
  }

  lemma WholeBlocks(x: nat, y: nat)
    requires x % BLOCK == 0 && y % BLOCK == 0
    ensures (x + y + BLOCK) % BLOCK == 0
  {
    assert x == BLOCK * (x / BLOCK) && y == BLOCK * (y / BLOCK);
    assert x + y + BLOCK == BLOCK * (x / BLOCK + y / BLOCK + 1);
  }

  /** Section 7.1, steps 4 and 5. */
  function Authenticated(aad: bytes, ciphertext: bytes): (r: bytes)
    ensures |r| % BLOCK == 0
  {
    WholeBlocks(|aad| + Fill(|aad|), |ciphertext| + Fill(|ciphertext|));
    aad + Zeros(Fill(|aad|)) + ciphertext + Zeros(Fill(|ciphertext|)) + Be(8 * |aad|, 8) + Be(8 * |ciphertext|, 8)
  }

  /** Section 7.1, step 6, from a given pre-counter block: the tag before truncation. */
  function FullTag(p: Primitives, key: bytes, j0: bytes, aad: bytes, ciphertext: bytes): (t: bytes)
    requires p.Lawful() && |j0| == BLOCK
  {
    Gctr(p, key, j0, Ghash(p, p.cipher(key, Zeros(BLOCK)), Authenticated(aad, ciphertext)))
  }

  /** Encryption and decryption of the text: GCTR from the block after the pre-counter block. */
  function Text(p: Primitives, key: bytes, j0: bytes, x: bytes): (r: bytes)
    requires p.Lawful() && |j0| == BLOCK
    ensures |r| == |x|
  {
    Gctr(p, key, Counter(j0, 1), x)
  }

  lemma GhashIsABlock(p: Primitives, h: bytes, x: bytes)
    requires p.Lawful() && |x| % BLOCK == 0
    ensures |Ghash(p, h, x)| == BLOCK
  {
  }

  /** Primitives that make nothing but zeros. */
  function ZeroPrimitives(): (p: Primitives)
    ensures p.Lawful()
  {
    Primitives((k, b) => Zeros(BLOCK), (x, y) => Zeros(BLOCK))
  }

  /** The laws contradict nothing. */
  lemma LawsAreConsistent() returns (p: Primitives)
    ensures p.Lawful()
  {
    p := ZeroPrimitives();
  }
}

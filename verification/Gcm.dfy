/** `src/gcm.rs`: sealing and opening with an initialisation vector of any length and a tag of 1 to 16 bytes. */
module Gcm {
  import opened Bytes
  import opened GcmSpec
  import Bits

  datatype Error = InvalidKeyLength(n: nat) | InvalidTagLength(n: nat)

  predicate GoodKey(key: bytes) {
    |key| == 16 || |key| == 24 || |key| == 32
  }

  predicate GoodTagLength(n: nat) {
    1 <= n <= BLOCK
  }

  /** The code's pre-counter block: the GHASH form whatever the length of the vector. */
  function J0(p: Primitives, key: bytes, iv: bytes): (j: bytes)
    requires p.Lawful()
    ensures |j| == BLOCK
  {
    GhashIsABlock(p, p.cipher(key, Zeros(BLOCK)), iv + Zeros(Fill(|iv|) + 8) + Be(8 * |iv|, 8));
    Ghash(p, p.cipher(key, Zeros(BLOCK)), iv + Zeros(Fill(|iv|) + 8) + Be(8 * |iv|, 8))
  }

  /** A list of blocks as one string. */
  function Joined(blocks: seq<bytes>): bytes {
    if blocks == [] then [] else Joined(blocks[..|blocks| - 1]) + blocks[|blocks| - 1]
  }

  ghost predicate AllBlocks(blocks: seq<bytes>) {
    forall i :: 0 <= i < |blocks| ==> |blocks[i]| == BLOCK
  }

  lemma {:induction false} JoinedLength(blocks: seq<bytes>)
    requires AllBlocks(blocks)
    ensures |Joined(blocks)| == BLOCK * |blocks|
  {
    if blocks != [] {
      JoinedLength(blocks[..|blocks| - 1]);
    }
  }

  lemma JoinedSnoc(blocks: seq<bytes>, b: bytes)
    requires AllBlocks(blocks) && |b| == BLOCK
    ensures AllBlocks(blocks + [b]) && Joined(blocks + [b]) == Joined(blocks) + b
  {
    assert (blocks + [b])[..|blocks|] == blocks;
  }

  /** `xor_into`. */
  method XorInto(dst: array<byte>, src: bytes)
    modifies dst
    ensures dst[..] == Xor(old(dst[..]), src) + old(dst[..])[Min(dst.Length, |src|)..]
  {
    ghost var was := dst[..];
    var n := Min(dst.Length, |src|);
    for i := 0 to n
      invariant forall k :: 0 <= k < i ==> dst[k] == XorByte(was[k], src[k])
      invariant forall k :: i <= k < dst.Length ==> dst[k] == was[k]
    {
      dst[i] := XorByte(dst[i], src[i]);
    }
    assert dst[..] == dst[..n] + dst[n..];
    assert dst[..n] == Xor(was, src) && dst[n..] == was[n..];
  }

  /** The data with zeros up to a whole block. */
  function Filled(data: bytes): bytes {
    data + Zeros(Fill(|data|))
  }

  /** `pad_blocks`: the data in blocks, zeros filling the last, behind the blocks already there. */
  method PadBlocks(data: bytes, blocks: seq<bytes>) returns (r: seq<bytes>)
    requires AllBlocks(blocks)
    ensures AllBlocks(r) && Joined(r) == Joined(blocks) + Filled(data)
  {
    hide AllBlocks, Joined, Filled;
    r := blocks;
    var n: nat := 0;
    NothingFilled(data, Joined(blocks));
    while BLOCK * n < |data|
      invariant BLOCK * n <= |Filled(data)| && (n == 0 || BLOCK * (n - 1) < |data|)
      invariant AllBlocks(r) && Joined(r) == Joined(blocks) + Filled(data)[..BLOCK * n]
      decreases |data| - BLOCK * n
    {
      var b := PadChunk(data[BLOCK * n..Min(BLOCK * n + BLOCK, |data|)]);
      PaddedBlock(data, n, b, Joined(blocks));
      JoinedSnoc(r, b);
      r := r + [b];
      n := n + 1;
    }
    AllFilled(data, n, Joined(blocks));
  }

  /** One block: the chunk copied over zeros. */
  method PadChunk(chunk: bytes) returns (r: bytes)
    requires |chunk| <= BLOCK
    ensures r == chunk + Zeros(BLOCK - |chunk|)
  {
    var b := new byte[BLOCK](i => 0);
    for k := 0 to |chunk|
      invariant forall j :: 0 <= j < BLOCK ==> b[j] == if j < k then chunk[j] else 0
    {
      b[k] := chunk[k];
    }
    r := b[..];
  }

  lemma FilledLength(data: bytes)
    ensures |Filled(data)| % BLOCK == 0 && |data| <= |Filled(data)| < |data| + BLOCK
  {
  }

  lemma NothingFilled(data: bytes, before: bytes)
    ensures before + Filled(data)[..0] == before
  {
  }

  lemma AllFilled(data: bytes, n: nat, before: bytes)
    requires BLOCK * n >= |data| && BLOCK * n <= |Filled(data)| && (n == 0 || BLOCK * (n - 1) < |data|)
    ensures before + Filled(data)[..BLOCK * n] == before + Filled(data)
  {
    FilledLength(data);
    assert BLOCK * n == |Filled(data)|;
  }

  lemma PaddedBlock(data: bytes, n: nat, b: bytes, before: bytes)
    requires BLOCK * n < |data|
    requires var chunk := data[BLOCK * n..Min(BLOCK * n + BLOCK, |data|)]; b == chunk + Zeros(BLOCK - |chunk|)
    ensures BLOCK * (n + 1) <= |Filled(data)| && |b| == BLOCK
    ensures before + Filled(data)[..BLOCK * n] + b == before + Filled(data)[..BLOCK * (n + 1)]
  {
    var all, at := Filled(data), BLOCK * n;
    FilledLength(data);
    assert BLOCK * (n + 1) <= |all|;
    forall j | 0 <= j < BLOCK
      ensures all[at + j] == b[j]
    {
    }
    SliceIs(all, at, b);
    assert all[..at] + b == all[..at + BLOCK];
  }

  lemma SliceIs(all: bytes, at: nat, b: bytes)
    requires at + |b| <= |all| && forall j :: 0 <= j < |b| ==> all[at + j] == b[j]
    ensures all[..at] + b == all[..at + |b|]
  {
  }

  /** `ghash`: the blocks one after the other. */
  method GhashOf(p: Primitives, h: bytes, blocks: seq<bytes>) returns (y: bytes)
    requires p.Lawful() && AllBlocks(blocks)
    ensures |Joined(blocks)| % BLOCK == 0 && y == Ghash(p, h, Joined(blocks))
    ensures |y| == BLOCK
  {
    y := Zeros(BLOCK);
    for i := 0 to |blocks|
      invariant AllBlocks(blocks[..i]) && |Joined(blocks[..i])| % BLOCK == 0 && y == Ghash(p, h, Joined(blocks[..i]))
                  && |y| == BLOCK
    {
      GhashStep(p, h, blocks, i);
      y := p.dot(Xor(y, blocks[i]), h);
    }
    assert blocks[..|blocks|] == blocks;
    JoinedLength(blocks);
  }

  lemma GhashStep(p: Primitives, h: bytes, blocks: seq<bytes>, i: nat)
    requires p.Lawful() && AllBlocks(blocks) && i < |blocks|
    ensures |Joined(blocks[..i])| % BLOCK == 0 && |Joined(blocks[..i + 1])| % BLOCK == 0
    ensures Ghash(p, h, Joined(blocks[..i + 1])) == p.dot(Xor(Ghash(p, h, Joined(blocks[..i])), blocks[i]), h)
  {
    TakeOneMore(blocks, i);
    JoinedSnoc(blocks[..i], blocks[i]);
    JoinedLength(blocks[..i]);
    var x := Joined(blocks[..i + 1]);
    assert x[..|x| - BLOCK] == Joined(blocks[..i]) && x[|x| - BLOCK..] == blocks[i];
  }

  /** `j0_short_iv`. */
  method J0ShortIv(p: Primitives, key: bytes, h: bytes, iv: bytes) returns (j: bytes)
    requires p.Lawful() && h == p.cipher(key, Zeros(BLOCK))
    ensures j == J0(p, key, iv)
  {
    hide Ghash, Joined, Filled, AllBlocks, Be;
    NoBlocks();
    var blocks := PadBlocks(iv, []);
    var lengths := Zeros(8) + Be(8 * |iv|, 8);
    JoinedSnoc(blocks, lengths);
    blocks := blocks + [lengths];
    VectorBlocks(iv, Be(8 * |iv|, 8));
    j := GhashOf(p, h, blocks);
  }

  lemma NoBlocks()
    ensures AllBlocks([]) && Joined([]) == []
  {
  }

  lemma VectorBlocks(iv: bytes, length: bytes)
    ensures [] + Filled(iv) + (Zeros(8) + length) == iv + Zeros(Fill(|iv|) + 8) + length
  {
    assert Zeros(Fill(|iv|)) + Zeros(8) == Zeros(Fill(|iv|) + 8);
  }

  /** `inc32`. */
  method Inc32(j: bytes) returns (r: bytes)
    requires |j| == BLOCK
    ensures r == Counter(j, 1)
  {
    hide Word, FromBe;
    var ctr := FromBe(j[12..]);
    CounterFits(j);
    ctr := if ctr == U32_MAX then 0 else ctr + 1;
    r := j[..12] + Word(ctr);
  }

  lemma CounterFits(j: bytes)
    requires |j| == BLOCK
    ensures FromBe(j[12..]) < COUNTER_SPACE
  {
    assert Pow256(4) == COUNTER_SPACE;
  }

  lemma CounterSum(icb: bytes, a: nat, b: nat)
    requires |icb| == BLOCK
    ensures Counter(Counter(icb, a), b) == Counter(icb, a + b)
  {
    hide Word, FromBe;
    var n := FromBe(icb[12..]);
    var mid := (n + a) % COUNTER_SPACE;
    WordValue(mid);
    assert Counter(icb, a)[12..] == Word(mid) && Counter(icb, a)[..12] == icb[..12];
    ModSum(n + a, b);
  }

  lemma WordValue(n: nat)
    requires n < COUNTER_SPACE
    ensures FromBe(Word(n)) == n
  {
    assert Pow256(4) == COUNTER_SPACE;
    BeRoundTrip(n, 4);
  }

  lemma ModSum(x: nat, b: nat)
    ensures (x % COUNTER_SPACE + b) % COUNTER_SPACE == (x + b) % COUNTER_SPACE
  {
    assert x == x / COUNTER_SPACE * COUNTER_SPACE + x % COUNTER_SPACE;
  }

  /** The counter-mode loop of both directions. */
  method CounterMode(p: Primitives, key: bytes, j0: bytes, x: bytes) returns (r: bytes)
    requires p.Lawful() && |j0| == BLOCK
    ensures r == Text(p, key, j0, x)
  {
    hide Counter, Gctr, Xor;
    r := [];
    var counter := Inc32(j0);
    ghost var icb := counter;
    CounterZero(icb);
    var n: nat := 0;
    while BLOCK * n < |x|
      invariant counter == Counter(icb, n) && |counter| == BLOCK
      invariant |r| == Min(BLOCK * n, |x|) && r == Gctr(p, key, icb, x)[..|r|]
      decreases |x| - BLOCK * n
    {
      var chunk := x[BLOCK * n..Min(BLOCK * n + BLOCK, |x|)];
      var block := MaskChunk(p, key, counter, chunk);
      MaskedChunk(p, key, icb, x, n, block);
      r := r + block;
      counter := Inc32(counter);
      CounterSum(icb, n, 1);
      n := n + 1;
    }
  }

  /** One turn: a copy of the chunk is masked in place. */
  method MaskChunk(p: Primitives, key: bytes, counter: bytes, chunk: bytes) returns (r: bytes)
    requires p.Lawful() && |chunk| <= BLOCK
    ensures r == Xor(chunk, p.cipher(key, counter)[..|chunk|])
  {
    var mask := p.cipher(key, counter);
    var block := new byte[|chunk|](i requires 0 <= i < |chunk| => chunk[i]);
    assert block[..] == chunk;
    XorInto(block, mask[..|chunk|]);
    r := block[..];
  }

  lemma CounterZero(icb: bytes)
    requires |icb| == BLOCK
    ensures Counter(icb, 0) == icb
  {
    CounterFits(icb);
    WordOf(icb[12..]);
    hide Word, FromBe;
    assert icb[..12] + icb[12..] == icb;
  }

  lemma WordOf(b: bytes)
    requires |b| == 4
    ensures Word(FromBe(b)) == b
  {
    BeOfFromBe(b);
  }

  lemma MaskedChunk(p: Primitives, key: bytes, icb: bytes, x: bytes, n: nat, block: bytes)
    requires p.Lawful() && |icb| == BLOCK && BLOCK * n < |x|
    requires var chunk := x[BLOCK * n..Min(BLOCK * n + BLOCK, |x|)];
             block == Xor(chunk, p.cipher(key, Counter(icb, n))[..|chunk|])
    ensures BLOCK * n + |block| == Min(BLOCK * n + BLOCK, |x|)
    ensures Gctr(p, key, icb, x)[..BLOCK * n] + block == Gctr(p, key, icb, x)[..BLOCK * n + |block|]
  {
    var all, at := Gctr(p, key, icb, x), BLOCK * n;
    forall k | 0 <= k < |block|
      ensures all[at + k] == block[k]
    {
      assert (at + k) / BLOCK == n && (at + k) % BLOCK == k;
    }
    assert all[at..at + |block|] == block;
  }

  /** The tag loop of both directions: GHASH over associated data, ciphertext and lengths, masked with the
      cipher on J0. */
  method TagOf(p: Primitives, key: bytes, h: bytes, j0: bytes, aad: bytes, ciphertext: bytes) returns (tag: bytes)
    requires p.Lawful() && |j0| == BLOCK && h == p.cipher(key, Zeros(BLOCK))
    ensures tag == FullTag(p, key, j0, aad, ciphertext) && |tag| == BLOCK
  {
    hide Ghash, Joined, Filled, AllBlocks, Be, Authenticated, Gctr;
    NoBlocks();
    var blocks := PadBlocks(aad, []);
    blocks := PadBlocks(ciphertext, blocks);
    var lengths := Be(8 * |aad|, 8) + Be(8 * |ciphertext|, 8);
    JoinedSnoc(blocks, lengths);
    blocks := blocks + [lengths];
    AuthenticatedBlocks(aad, ciphertext);
    var s := GhashOf(p, h, blocks);
    tag := MaskTag(p, key, j0, s);
    OneBlock(p, key, j0, s, tag);
  }

  lemma AuthenticatedBlocks(aad: bytes, ciphertext: bytes)
    ensures [] + Filled(aad) + Filled(ciphertext) + (Be(8 * |aad|, 8) + Be(8 * |ciphertext|, 8))
              == Authenticated(aad, ciphertext)
  {
    hide Be, Zeros, Fill;
    var a, c := Filled(aad), Filled(ciphertext);
    var m, n := Be(8 * |aad|, 8), Be(8 * |ciphertext|, 8);
    assert a + ciphertext + Zeros(Fill(|ciphertext|)) == a + c;
    assert [] + a + c + (m + n) == a + c + m + n;
  }

  /** The cipher on J0, masked in place. */
  method MaskTag(p: Primitives, key: bytes, j0: bytes, s: bytes) returns (r: bytes)
    requires p.Lawful() && |s| == BLOCK
    ensures r == Xor(p.cipher(key, j0), s) + p.cipher(key, j0)[BLOCK..]
  {
    var mask := p.cipher(key, j0);
    var full := new byte[BLOCK](i requires 0 <= i < BLOCK => mask[i]);
    assert full[..] == mask;
    XorInto(full, s);
    r := full[..];
  }

  lemma OneBlock(p: Primitives, key: bytes, j0: bytes, s: bytes, t: bytes)
    requires p.Lawful() && |j0| == BLOCK && |s| == BLOCK
    requires t == Xor(p.cipher(key, j0), s) + p.cipher(key, j0)[BLOCK..]
    ensures t == Gctr(p, key, j0, s)
  {
    CounterZero(j0);
    forall i | 0 <= i < BLOCK
      ensures t[i] == Gctr(p, key, j0, s)[i]
    {
      XorByteCommutes(s[i], p.cipher(key, j0)[i]);
    }
  }

  lemma XorByteCommutes(a: byte, b: byte)
    ensures XorByte(a, b) == XorByte(b, a)
  {
    Commutes(a as nat, b as nat);
  }

  lemma {:induction false} Commutes(a: nat, b: nat)
    ensures Bits.Xor(a, b) == Bits.Xor(b, a)
    decreases a + b
  {
    if a > 0 && b > 0 {
      Commutes(a / 2, b / 2);
    }
  }
  /** What sealing and opening give, as functions. */
  function Sealed(p: Primitives, key: bytes, iv: bytes, aad: bytes, plaintext: bytes,
                  tagLength: nat): (r: Result<(bytes, bytes), Error>)
    requires p.Lawful()
  {
    if !GoodTagLength(tagLength) then Err(InvalidTagLength(tagLength))
    else if !GoodKey(key) then Err(InvalidKeyLength(|key|))
    else
      var j0 := J0(p, key, iv);
      var c := Text(p, key, j0, plaintext);
      GhashIsABlock(p, p.cipher(key, Zeros(BLOCK)), Authenticated(aad, c));
      Ok((c, FullTag(p, key, j0, aad, c)[..tagLength]))
  }

  function Opened(p: Primitives, key: bytes, iv: bytes, aad: bytes, ciphertext: bytes,
                  tag: bytes): (r: Result<Option<bytes>, Error>)
    requires p.Lawful()
  {
    if !GoodTagLength(|tag|) then Err(InvalidTagLength(|tag|))
    else if !GoodKey(key) then Err(InvalidKeyLength(|key|))
    else
      var j0 := J0(p, key, iv);
      GhashIsABlock(p, p.cipher(key, Zeros(BLOCK)), Authenticated(aad, ciphertext));
      if FullTag(p, key, j0, aad, ciphertext)[..|tag|] != tag then Ok(None)
      else Ok(Some(Text(p, key, j0, ciphertext)))
  }

  /** `seal_truncated`. */
  method SealTruncated(p: Primitives, key: bytes, iv: bytes, aad: bytes, plaintext: bytes, tagLength: nat)
    returns (r: Result<(bytes, bytes), Error>)
    requires p.Lawful()
    ensures r == Sealed(p, key, iv, aad, plaintext, tagLength)
  {
    if !(1 <= tagLength <= BLOCK) {
      return Err(InvalidTagLength(tagLength));
    }
    if |key| != 16 && |key| != 24 && |key| != 32 {
      return Err(InvalidKeyLength(|key|));
    }
    var h := p.cipher(key, Zeros(BLOCK));
    var j0 := J0ShortIv(p, key, h, iv);
    var c := CounterMode(p, key, j0, plaintext);
    var tag := TagOf(p, key, h, j0, aad, c);
    r := Ok((c, tag[..tagLength]));
  }

  /** `open_truncated`. */
  method OpenTruncated(p: Primitives, key: bytes, iv: bytes, aad: bytes, ciphertext: bytes, tag: bytes)
    returns (r: Result<Option<bytes>, Error>)
    requires p.Lawful()
    ensures r == Opened(p, key, iv, aad, ciphertext, tag)
  {
    if tag == [] || |tag| > BLOCK {
      return Err(InvalidTagLength(|tag|));
    }
    if |key| != 16 && |key| != 24 && |key| != 32 {
      return Err(InvalidKeyLength(|key|));
    }
    var h := p.cipher(key, Zeros(BLOCK));
    var j0 := J0ShortIv(p, key, h, iv);
    var full := TagOf(p, key, h, j0, aad, ciphertext);
    if full[..|tag|] != tag {
      return Ok(None);
    }
    var text := CounterMode(p, key, j0, ciphertext);
    r := Ok(Some(text));
  }

  // ----- what that is worth -----

  lemma GctrUndoes(p: Primitives, key: bytes, icb: bytes, x: bytes)
    requires p.Lawful() && |icb| == BLOCK
    ensures Gctr(p, key, icb, Gctr(p, key, icb, x)) == x
  {
    var y := Gctr(p, key, icb, x);
    forall i | 0 <= i < |x|
      ensures Gctr(p, key, icb, y)[i] == x[i]
    {
      XorByteUndoes(x[i], p.cipher(key, Counter(icb, i / BLOCK))[i % BLOCK]);
    }
  }

  /** What is accepted is exactly what was sealed: opening gives a plaintext if and only if sealing that plaintext
      gives this ciphertext and this tag. */
  lemma OpensWhatWasSealed(p: Primitives, key: bytes, iv: bytes, aad: bytes, plaintext: bytes, ciphertext: bytes,
                           tag: bytes)
    requires p.Lawful()
    ensures Opened(p, key, iv, aad, ciphertext, tag) == Ok(Some(plaintext))
       <==> Sealed(p, key, iv, aad, plaintext, |tag|) == Ok((ciphertext, tag))
  {
    hide Gctr, Ghash, Authenticated, J0;
    var j0 := J0(p, key, iv);
    GctrUndoes(p, key, Counter(j0, 1), plaintext);
    GctrUndoes(p, key, Counter(j0, 1), ciphertext);
  }

  /** In particular every sealed message opens. */
  lemma SealedOpens(p: Primitives, key: bytes, iv: bytes, aad: bytes, plaintext: bytes, tagLength: nat)
    requires p.Lawful() && GoodKey(key) && GoodTagLength(tagLength)
    ensures var s := Sealed(p, key, iv, aad, plaintext, tagLength);
            s.Ok? && |s.value.0| == |plaintext| && |s.value.1| == tagLength
            && Opened(p, key, iv, aad, s.value.0, s.value.1) == Ok(Some(plaintext))
  {
    hide Gctr, Ghash, Authenticated, J0;
    var s := Sealed(p, key, iv, aad, plaintext, tagLength);
    var j0 := J0(p, key, iv);
    GhashIsABlock(p, p.cipher(key, Zeros(BLOCK)), Authenticated(aad, s.value.0));
    assert |FullTag(p, key, j0, aad, s.value.0)| == BLOCK;
    OpensWhatWasSealed(p, key, iv, aad, plaintext, s.value.0, s.value.1);
  }

  /** A tag that is accepted is accepted when cut shorter, with the same plaintext. */
  lemma ShorterTagsOpenToo(p: Primitives, key: bytes, iv: bytes, aad: bytes, ciphertext: bytes, tag: bytes, n: nat)
    requires p.Lawful() && 1 <= n <= |tag| && Opened(p, key, iv, aad, ciphertext, tag).Ok?
             && Opened(p, key, iv, aad, ciphertext, tag).value.Some?
    ensures Opened(p, key, iv, aad, ciphertext, tag[..n]) == Opened(p, key, iv, aad, ciphertext, tag)
  {
    hide Gctr, Ghash, Authenticated, J0;
    var full := FullTag(p, key, J0(p, key, iv), aad, ciphertext);
    GhashIsABlock(p, p.cipher(key, Zeros(BLOCK)), Authenticated(aad, ciphertext));
    assert |full| == BLOCK && full[..n] == full[..|tag|][..n];
  }

  /** The code's pre-counter block is the standard's, whatever the cipher and the key, exactly for the vectors that
      are not 12 bytes long. */
  lemma J0IsStandard(iv: bytes)
    ensures (forall p: Primitives, key: bytes :: p.Lawful() ==>
               J0(p, key, iv) == PreCounter(p, p.cipher(key, Zeros(BLOCK)), iv))
       <==> |iv| != 12
  {
    if |iv| == 12 {
      var p := ZeroPrimitives();
      ZeroJ0(iv);
      assert PreCounter(p, p.cipher([], Zeros(BLOCK)), iv)[15] == 1;
    }
  }

  lemma ZeroJ0(iv: bytes)
    ensures J0(ZeroPrimitives(), [], iv) == Zeros(BLOCK)
  {
  }

  /** Counter blocks repeat after exactly 2^32 steps. */
  lemma CountersRepeat(icb: bytes, i: nat, j: nat)
    requires |icb| == BLOCK && i <= j
    ensures Counter(icb, i) == Counter(icb, j) <==> (j - i) % COUNTER_SPACE == 0
  {
    hide Word, FromBe;
    var n := FromBe(icb[12..]);
    var a, b := (n + i) % COUNTER_SPACE, (n + j) % COUNTER_SPACE;
    WordValue(a);
    WordValue(b);
    assert Counter(icb, i)[12..] == Word(a) && Counter(icb, j)[12..] == Word(b);
    SameRemainder(n + i, n + j);
  }

  lemma SameRemainder(x: nat, y: nat)
    requires x <= y
    ensures x % COUNTER_SPACE == y % COUNTER_SPACE <==> (y - x) % COUNTER_SPACE == 0
  {
    assert x == x / COUNTER_SPACE * COUNTER_SPACE + x % COUNTER_SPACE;
    assert y == y / COUNTER_SPACE * COUNTER_SPACE + y % COUNTER_SPACE;
  }

  /** Within one message of less than 2^32 blocks no counter block is used twice, and none is the one the tag uses. */
  lemma MasksAreFresh(j0: bytes, i: nat, j: nat)
    requires |j0| == BLOCK && i < j < COUNTER_SPACE
    ensures Counter(j0, i) != Counter(j0, j)
    ensures i > 0 ==> Counter(Counter(j0, 1), i - 1) == Counter(j0, i)
  {
    CountersRepeat(j0, i, j);
    if i > 0 {
      CounterSum(j0, 1, i - 1);
    }
  }
}

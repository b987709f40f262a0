/** Byte strings, fixed-width integers, and the failure types shared by every module. */
module Bytes {

  newtype byte = x: int | 0 <= x < 256

  type bytes = seq<byte>

  datatype Option<+T> = None | Some(value: T)

  datatype Result<+T, +E> = Ok(value: T) | Err(error: E)

  const U16_MAX := 0xffff
  const U32_MAX := 0xffff_ffff
  const U64_MAX := 0xffff_ffff_ffff_ffff

  function Min(a: int, b: int): int {
    if a <= b then a else b
  }

  function Max(a: int, b: int): int {
    if a >= b then a else b
  }

  /** How many values `w` bytes can hold. */
  function Pow256(w: nat): (p: nat)
    ensures p > 0
  {
    if w == 0 then 1 else 256 * Pow256(w - 1)
  }

  /** The low `w` bytes of `n`, least significant first (`to_le_bytes()[..w]`). */
  function Le(n: nat, w: nat): (r: bytes)
    ensures |r| == w
  {
    if w == 0 then [] else [(n % 256) as byte] + Le(n / 256, w - 1)
  }

  function FromLe(b: bytes): (n: nat)
    ensures n < Pow256(|b|)
  {
    if b == [] then 0 else b[0] as int + 256 * FromLe(b[1..])
  }

  /** The low `w` bytes of `n`, most significant first (`to_be_bytes()`). */
  function Be(n: nat, w: nat): (r: bytes)
    ensures |r| == w
  {
    if w == 0 then [] else Be(n / 256, w - 1) + [(n % 256) as byte]
  }

  function FromBe(b: bytes): (n: nat)
    ensures n < Pow256(|b|)
  {
    if b == [] then 0 else 256 * FromBe(b[..|b| - 1]) + b[|b| - 1] as int
  }

  lemma LowByte(d: byte, rest: nat)
    ensures (d as int + 256 * rest) % 256 == d as int && (d as int + 256 * rest) / 256 == rest
  {
  }

  lemma {:induction false} LeRoundTrip(n: nat, w: nat)
    requires n < Pow256(w)
    ensures FromLe(Le(n, w)) == n
  {
    if w > 0 {
      LeRoundTrip(n / 256, w - 1);
    }
  }

  lemma {:induction false} BeRoundTrip(n: nat, w: nat)
    requires n < Pow256(w)
    ensures FromBe(Be(n, w)) == n
  {
    if w > 0 {
      BeRoundTrip(n / 256, w - 1);
      assert Be(n, w)[..w - 1] == Be(n / 256, w - 1);
    }
  }

  lemma {:induction false} BeOfFromBe(b: bytes)
    ensures Be(FromBe(b), |b|) == b
  {
    if b != [] {
      BeOfFromBe(b[..|b| - 1]);
      LowByte(b[|b| - 1], FromBe(b[..|b| - 1]));
    }
  }

  lemma {:induction false} LeOfFromLe(b: bytes)
    ensures Le(FromLe(b), |b|) == b
  {
    if b != [] {
      LeOfFromLe(b[1..]);
      LowByte(b[0], FromLe(b[1..]));
      assert Le(FromLe(b), |b|) == [b[0]] + Le(FromLe(b[1..]), |b| - 1);
    }
  }

  /** `e` occurs in `data` at `pos`. */
  predicate At(data: bytes, pos: nat, e: bytes) {
    pos + |e| <= |data| && data[pos..pos + |e|] == e
  }

  lemma AtConcat(data: bytes, pos: nat, a: bytes, b: bytes)
    requires At(data, pos, a + b)
    ensures At(data, pos, a)
    ensures At(data, pos + |a|, b)
  {
    assert data[pos..pos + |a + b|][..|a|] == data[pos..pos + |a|];
    assert data[pos..pos + |a + b|][|a|..] == data[pos + |a|..pos + |a| + |b|];
  }

  lemma AtJoin(data: bytes, pos: nat, a: bytes, b: bytes)
    requires At(data, pos, a) && At(data, pos + |a|, b)
    ensures At(data, pos, a + b)
  {
    var both := data[pos..pos + |a + b|];
    assert both[..|a|] == data[pos..pos + |a|] && both[|a|..] == data[pos + |a|..pos + |a| + |b|];
    assert both == both[..|a|] + both[|a|..];
  }

  lemma AtIndex(data: bytes, pos: nat, e: bytes, k: nat)
    requires At(data, pos, e) && k < |e|
    ensures data[pos + k] == e[k]
  {
    assert data[pos..pos + |e|][k] == e[k];
  }

  lemma AtMiddle(a: bytes, e: bytes, b: bytes)
    ensures At(a + e + b, |a|, e)
  {
    assert (a + e + b)[|a|..|a| + |e|] == e;
  }

  /** The concatenation of a list of byte strings. */
  function Concat(parts: seq<bytes>): (r: bytes) {
    if parts == [] then [] else parts[0] + Concat(parts[1..])
  }

  lemma {:induction false} ConcatAppend(a: seq<bytes>, b: seq<bytes>)
    ensures Concat(a + b) == Concat(a) + Concat(b)
  {
    if a == [] {
      assert a + b == b;
    } else {
      assert (a + b)[0] == a[0] && (a + b)[1..] == a[1..] + b;
      ConcatAppend(a[1..], b);
    }
  }

  /** A slice of a slice. */
  lemma SliceOfSlice<T>(s: seq<T>, from: nat, end: nat, lo: nat, hi: nat)
    requires from <= end <= |s| && lo <= hi <= end - from
    ensures s[from..end][lo..hi] == s[from + lo..from + hi]
  {
    var a, b := s[from..end][lo..hi], s[from + lo..from + hi];
    assert |a| == |b| && forall k :: 0 <= k < |a| ==> a[k] == b[k];
  }

  lemma TakeOneMore<T>(s: seq<T>, k: nat)
    requires k < |s|
    ensures s[..k + 1] == s[..k] + [s[k]]
  {
  }

  lemma TakeAll<T>(s: seq<T>)
    ensures s[..|s|] == s
  {
  }

  lemma SubsetSize<T>(a: set<T>, b: set<T>)
    requires a <= b
    ensures |a| <= |b|
  {
    assert b == a + (b - a);
  }
}

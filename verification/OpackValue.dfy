/** OPACK values (src/opack.rs) and the measures its limits speak of. */
module OpackValue {
  import opened Bytes
  import opened Bits
  import Utf8

  /** A float is its IEEE 754 bit pattern and a string its UTF-8 bytes. */
  datatype Value =
    | Null
    | Float(bits: nat)
    | Uuid(id: bytes)
    | Time(ticks: nat)
    | Bool(flag: bool)
    | Int(n: nat)
    | Str(s: bytes)
    | Data(b: bytes)
    | Array(items: seq<Value>)
    | Dict(pairs: seq<Entry>)

  datatype Entry = Entry(key: Value, value: Value)

  /** The values the Rust type can hold. */
  predicate WellFormed(v: Value) {
    match v
    case Float(bits) => bits <= U64_MAX
    case Uuid(id) => |id| == 16
    case Time(t) => t <= U64_MAX
    case Int(n) => n <= U64_MAX
    case Str(s) => Utf8.Valid(s)
    case Array(items) => forall i :: 0 <= i < |items| ==> WellFormed(items[i])
    case Dict(pairs) => forall i :: 0 <= i < |pairs| ==> WellFormed(pairs[i].key) && WellFormed(pairs[i].value)
    case _ => true
  }

  predicate IsContainer(v: Value) {
    v.Array? || v.Dict?
  }

  /** How many values `v` holds, itself included. */
  function Nodes(v: Value): (n: nat)
    ensures n >= 1
  {
    match v
    case Array(items) => 1 + NodesAll(items)
    case Dict(pairs) => 1 + NodesPairs(pairs)
    case _ => 1
  }

  function NodesAll(items: seq<Value>): nat {
    if items == [] then 0 else Nodes(items[0]) + NodesAll(items[1..])
  }

  function NodesEntry(e: Entry): nat {
    Nodes(e.key) + Nodes(e.value)
  }

  function NodesPairs(pairs: seq<Entry>): nat {
    if pairs == [] then 0 else NodesEntry(pairs[0]) + NodesPairs(pairs[1..])
  }

  /** How many levels of containers lie above the deepest value inside `v`. */
  function Nest(v: Value): nat {
    match v
    case Array(items) => if items == [] then 0 else 1 + NestAll(items)
    case Dict(pairs) => if pairs == [] then 0 else 1 + NestPairs(pairs)
    case _ => 0
  }

  function NestAll(items: seq<Value>): nat {
    if items == [] then 0 else Max(Nest(items[0]), NestAll(items[1..]))
  }

  function NestEntry(e: Entry): nat {
    Max(Nest(e.key), Nest(e.value))
  }

  function NestPairs(pairs: seq<Entry>): nat {
    if pairs == [] then 0 else Max(NestEntry(pairs[0]), NestPairs(pairs[1..]))
  }

  /** The bytes of all strings and data inside `v`. */
  function Payload(v: Value): nat {
    match v
    case Str(s) => |s|
    case Data(b) => |b|
    case Array(items) => PayloadAll(items)
    case Dict(pairs) => PayloadPairs(pairs)
    case _ => 0
  }

  function PayloadAll(items: seq<Value>): nat {
    if items == [] then 0 else Payload(items[0]) + PayloadAll(items[1..])
  }

  function PayloadEntry(e: Entry): nat {
    Payload(e.key) + Payload(e.value)
  }

  function PayloadPairs(pairs: seq<Entry>): nat {
    if pairs == [] then 0 else PayloadEntry(pairs[0]) + PayloadPairs(pairs[1..])
  }

  lemma EmptyTotals()
    ensures NodesAll([]) == 0 && PayloadAll([]) == 0 && NodesPairs([]) == 0 && PayloadPairs([]) == 0
    ensures NestAll([]) == 0 && NestPairs([]) == 0
  {
  }

  lemma {:induction false} NodesSnoc(items: seq<Value>, v: Value)
    ensures NodesAll(items + [v]) == NodesAll(items) + Nodes(v)
    ensures PayloadAll(items + [v]) == PayloadAll(items) + Payload(v)
    ensures NestAll(items + [v]) == Max(NestAll(items), Nest(v))
  {
    if items == [] {
      assert items + [v] == [v];
    } else {
      assert (items + [v])[1..] == items[1..] + [v];
      NodesSnoc(items[1..], v);
    }
  }

  lemma {:induction false} NodesPairsSnoc(pairs: seq<Entry>, e: Entry)
    ensures NodesPairs(pairs + [e]) == NodesPairs(pairs) + NodesEntry(e)
    ensures PayloadPairs(pairs + [e]) == PayloadPairs(pairs) + PayloadEntry(e)
    ensures NestPairs(pairs + [e]) == Max(NestPairs(pairs), NestEntry(e))
  {
    if pairs == [] {
      assert pairs + [e] == [e];
    } else {
      assert (pairs + [e])[1..] == pairs[1..] + [e];
      NodesPairsSnoc(pairs[1..], e);
    }
  }

  /** `f32 as f64` on bit patterns: exact widening; a NaN comes out quiet. */
  function Widen(b: nat): (r: nat)
    requires b <= U32_MAX
    ensures r <= U64_MAX
  {
    var sign := b / 0x8000_0000;
    var exponent := b / 0x80_0000 % 256;
    var fraction := b % 0x80_0000;
    var top := sign * 0x8000_0000_0000_0000;
    if exponent == 255 then
      top + 2047 * 0x10_0000_0000_0000 + (if fraction == 0 then 0 else (fraction % 0x40_0000 + 0x40_0000) * 0x2000_0000)
    else if exponent > 0 then top + (exponent + 896) * 0x10_0000_0000_0000 + fraction * 0x2000_0000
    else if fraction == 0 then top
    else
      var (shift, normal) := Normalize(fraction, 0);
      top + (897 - shift) * 0x10_0000_0000_0000 + (normal - 0x80_0000) * 0x2000_0000
  }

  /** Shift a subnormal fraction left until its implicit bit is set. */
  function Normalize(f: nat, shift: nat): (r: (nat, nat))
    requires 0 < f < 0x100_0000 && shift <= 23
    requires f * 2 < 0x100_0000 || f >= 0x80_0000
    requires shift < 23 || f >= 0x80_0000
    requires f >= Pow2(shift)
    ensures r.0 <= 23 && 0x80_0000 <= r.1 < 0x100_0000
    decreases 0x100_0000 - f
  {
    if f >= 0x80_0000 then (shift, f) else
      Pow2Small();
      Normalize(2 * f, shift + 1)
  }

  lemma Pow2Small()
    ensures Pow2(23) == 0x80_0000
  {
    assert Pow2(8) == 256;
    assert Pow2(16) == 0x1_0000;
  }

  // ----- floats as numbers -----

  /** The fields of the two formats of IEEE 754: a number that is not special is its magnitude times a power of two. */
  function Sign32(b: nat): nat {
    b / 0x8000_0000
  }

  function Exponent32(b: nat): nat {
    b / 0x80_0000 % 256
  }

  function Magnitude32(b: nat): nat {
    b % 0x80_0000 + if Exponent32(b) == 0 then 0 else 0x80_0000
  }

  function Power32(b: nat): int {
    if Exponent32(b) == 0 then -149 else Exponent32(b) - 150
  }

  function Sign64(b: nat): nat {
    b / 0x8000_0000_0000_0000
  }

  function Exponent64(b: nat): nat {
    b / 0x10_0000_0000_0000 % 2048
  }

  function Magnitude64(b: nat): nat {
    b % 0x10_0000_0000_0000 + if Exponent64(b) == 0 then 0 else 0x10_0000_0000_0000
  }

  function Power64(b: nat): int {
    if Exponent64(b) == 0 then -1074 else Exponent64(b) - 1075
  }

  lemma Fields64(sign: nat, exponent: nat, fraction: nat, b: nat)
    requires sign <= 1 && exponent < 2048 && fraction < 0x10_0000_0000_0000
    requires b == sign * 0x8000_0000_0000_0000 + exponent * 0x10_0000_0000_0000 + fraction
    ensures Sign64(b) == sign && Exponent64(b) == exponent && b % 0x10_0000_0000_0000 == fraction
  {
    assert b / 0x10_0000_0000_0000 == sign * 2048 + exponent;
  }

  lemma {:induction false} NormalizeMeans(f: nat, shift: nat)
    requires 0 < f < 0x100_0000 && shift <= 23
    requires f * 2 < 0x100_0000 || f >= 0x80_0000
    requires shift < 23 || f >= 0x80_0000
    requires f >= Pow2(shift)
    ensures var r := Normalize(f, shift); r.0 >= shift && r.1 == f * Pow2(r.0 - shift)
    decreases 0x100_0000 - f
  {
    if f < 0x80_0000 {
      Pow2Small();
      NormalizeMeans(2 * f, shift + 1);
      var r := Normalize(2 * f, shift + 1);
      DoubleUp(f, Pow2(r.0 - shift - 1));
      assert Pow2(r.0 - shift) == 2 * Pow2(r.0 - shift - 1);
    }
  }

  lemma DoubleUp(f: nat, p: nat)
    ensures 2 * f * p == f * (2 * p)
  {
  }

  /** A widened single is the same number, infinity or not a number, with the same sign. */
  lemma WidenMeans(b: nat)
    requires b <= U32_MAX
    ensures var r := Widen(b);
            && Sign64(r) == Sign32(b)
            && (Exponent32(b) == 255 ==>
                  Exponent64(r) == 2047 && (r % 0x10_0000_0000_0000 == 0 <==> b % 0x80_0000 == 0))
            && (Exponent32(b) < 255 ==>
                  && Exponent64(r) < 2047 && (Magnitude32(b) == 0 ==> Magnitude64(r) == 0)
                  && (Magnitude32(b) > 0 ==> Power64(r) <= Power32(b)
                                             && Magnitude64(r) == Magnitude32(b) * Pow2(Power32(b) - Power64(r))))
  {
    var sign, exponent, fraction := Sign32(b), Exponent32(b), b % 0x80_0000;
    if exponent == 255 {
      Fields64(sign, 2047, if fraction == 0 then 0 else (fraction % 0x40_0000 + 0x40_0000) * 0x2000_0000, Widen(b));
    } else if exponent > 0 {
      Fields64(sign, exponent + 896, fraction * 0x2000_0000, Widen(b));
      TwoTo29(29);
    } else if fraction == 0 {
      Fields64(sign, 0, 0, Widen(b));
    } else {
      WidenSubnormal(b, sign, fraction);
    }
  }

  lemma TwoTo29(k: nat)
    requires k == 29
    ensures Pow2(k) == 0x2000_0000
  {
    Pow2Small();
    assert Pow2(k) == 64 * Pow2(k - 6) && k - 6 == 23;
  }

  lemma WidenSubnormal(b: nat, sign: nat, fraction: nat)
    requires b <= U32_MAX && sign == Sign32(b) && Exponent32(b) == 0 && fraction == b % 0x80_0000 > 0
    ensures var r := Widen(b);
            && Sign64(r) == sign && 0 < Exponent64(r) < 2047 && Power64(r) <= Power32(b)
            && Magnitude64(r) == Magnitude32(b) * Pow2(Power32(b) - Power64(r))
  {
    Pow2Small();
    assert Pow2(0) == 1;
    var n := Normalize(fraction, 0);
    NormalizeMeans(fraction, 0);
    var exponent := 897 - n.0;
    hide Normalize, Pow2;
    assert Widen(b) == sign * 0x8000_0000_0000_0000 + exponent * 0x10_0000_0000_0000 + (n.1 - 0x80_0000) * 0x2000_0000;
    hide Widen;
    Fields64(sign, exponent, (n.1 - 0x80_0000) * 0x2000_0000, Widen(b));
    Scaled(fraction, n.0, n.1);
  }

  lemma Scaled(fraction: nat, shift: nat, normal: nat)
    requires normal == fraction * Pow2(shift)
    ensures normal * 0x2000_0000 == fraction * Pow2(shift + 29)
  {
    hide Pow2;
    TwoTo29(29);
    Pow2Sum(shift, 29);
    Regroup(fraction, Pow2(shift), Pow2(29));
  }

  lemma Regroup(a: nat, b: nat, c: nat)
    ensures a * b * c == a * (b * c)
  {
  }
}

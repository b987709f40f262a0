/** The OPACK encoder of src/opack.rs. */
module OpackEncode {
  import opened Bytes
  import opened OpackValue

  function IntWidth(n: nat): (w: nat)
    ensures 1 <= w <= 8
  {
    if n <= 0xff then 1 else if n <= U16_MAX then 2 else if n <= U32_MAX then 4 else 8
  }

  function IntTag(n: nat): byte {
    if n <= 0xff then 0x30 else if n <= U16_MAX then 0x31 else if n <= U32_MAX then 0x32 else 0x33
  }

  function EncInt(n: nat): (r: bytes) {
    if n < 0x28 then [(n + 8) as byte] else [IntTag(n)] + Le(n, IntWidth(n))
  }

  function StrWidth(n: nat): (w: nat)
    ensures 1 <= w <= 4
  {
    if n <= 0xff then 1 else if n <= U16_MAX then 2 else if n <= 0xff_ffff then 3 else 4
  }

  /** A length too big for four bytes is truncated, as `to_le_bytes()[..4]` does. */
  function StrHead(n: nat): (r: bytes)
    ensures r != []
  {
    if n <= 32 then [(0x40 + n) as byte] else [(0x60 + StrWidth(n)) as byte] + Le(n, StrWidth(n))
  }

  function DataTag(n: nat): byte {
    if n <= 0xff then 0x91 else if n <= U16_MAX then 0x92 else if n <= U32_MAX then 0x93 else 0x94
  }

  function DataHead(n: nat): (r: bytes)
    ensures r != []
  {
    if n <= 32 then [(0x70 + n) as byte] else [DataTag(n)] + Le(n, IntWidth(n))
  }

  /** The encoding of a value. */
  function Enc(v: Value): (r: bytes) {
    match v
    case Null => [4]
    case Float(bits) => [0x36] + Le(bits, 8)
    case Uuid(id) => [5] + id
    case Time(t) => [6] + Le(t, 8)
    case Bool(flag) => if flag then [1] else [2]
    case Int(n) => EncInt(n)
    case Str(s) => StrHead(|s|) + s
    case Data(b) => DataHead(|b|) + b
    case Array(items) =>
      if |items| < 15 then [(0xd0 + |items|) as byte] + EncAll(items) else [0xdf] + EncAll(items) + [3]
    case Dict(pairs) =>
      if |pairs| < 15 then [(0xe0 + |pairs|) as byte] + EncPairs(pairs) else [0xef] + EncPairs(pairs) + [3]
  }

  function EncAll(items: seq<Value>): (r: bytes) {
    if items == [] then [] else Enc(items[0]) + EncAll(items[1..])
  }

  function EncEntry(e: Entry): (r: bytes) {
    Enc(e.key) + Enc(e.value)
  }

  function EncPairs(pairs: seq<Entry>): (r: bytes) {
    if pairs == [] then [] else EncEntry(pairs[0]) + EncPairs(pairs[1..])
  }

  lemma {:induction false} EncAllSnoc(items: seq<Value>, v: Value)
    ensures EncAll(items + [v]) == EncAll(items) + Enc(v)
  {
    if items == [] {
      assert items + [v] == [v];
    } else {
      assert (items + [v])[1..] == items[1..] + [v];
      EncAllSnoc(items[1..], v);
    }
  }

  lemma {:induction false} EncPairsSnoc(pairs: seq<Entry>, e: Entry)
    ensures EncPairs(pairs + [e]) == EncPairs(pairs) + EncEntry(e)
  {
    if pairs == [] {
      assert pairs + [e] == [e];
    } else {
      assert (pairs + [e])[1..] == pairs[1..] + [e];
      EncPairsSnoc(pairs[1..], e);
    }
  }

  /** The growing output vector the encoder functions push onto. */
  class Output {
    var out: bytes

    constructor ()
      ensures out == []
    {
      out := [];
    }

    method EncodeInt(n: nat)
      modifies this
      ensures out == old(out) + EncInt(n)
    {
      hide Le;
      if n < 0x28 {
        out := out + [(n + 8) as byte];
        return;
      }
      var tag: byte, size := 0x33, 8;
      if n <= 0xff {
        tag, size := 0x30, 1;
      } else if n <= U16_MAX {
        tag, size := 0x31, 2;
      } else if n <= U32_MAX {
        tag, size := 0x32, 4;
      }
      out := out + [tag];
      out := out + Le(n, size);
    }

    method EncodeStr(s: bytes)
      modifies this
      ensures out == old(out) + StrHead(|s|) + s
    {
      hide Le;
      if |s| <= 32 {
        out := out + [(0x40 + |s|) as byte];
      } else {
        var width := StrWidth(|s|);
        out := out + [(0x60 + width) as byte];
        out := out + Le(|s|, width);
      }
      out := out + s;
    }

    method EncodeBytes(b: bytes)
      modifies this
      ensures out == old(out) + DataHead(|b|) + b
    {
      hide Le;
      if |b| <= 32 {
        out := out + [(0x70 + |b|) as byte];
      } else {
        var tag: byte, width := 0x94, 8;
        if |b| <= 0xff {
          tag, width := 0x91, 1;
        } else if |b| <= U16_MAX {
          tag, width := 0x92, 2;
        } else if |b| <= U32_MAX {
          tag, width := 0x93, 4;
        }
        out := out + [tag];
        out := out + Le(|b|, width);
      }
      out := out + b;
    }

    method EncodeItems(items: seq<Value>)
      modifies this
      ensures out == old(out) + EncAll(items)
      decreases items, 1
    {
      for i := 0 to |items|
        invariant out == old(out) + EncAll(items[..i])
      {
        EncodeInto(items[i]);
        EncAllSnoc(items[..i], items[i]);
        assert items[..i + 1] == items[..i] + [items[i]];
      }
      assert items[..|items|] == items;
    }

    method EncodePairs(pairs: seq<Entry>)
      modifies this
      ensures out == old(out) + EncPairs(pairs)
      decreases pairs, 1
    {
      for i := 0 to |pairs|
        invariant out == old(out) + EncPairs(pairs[..i])
      {
        EncodeEntry(pairs[i]);
        EncPairsSnoc(pairs[..i], pairs[i]);
        assert pairs[..i + 1] == pairs[..i] + [pairs[i]];
      }
      assert pairs[..|pairs|] == pairs;
    }

    method EncodeEntry(e: Entry)
      modifies this
      ensures out == old(out) + EncEntry(e)
      decreases e, 1
    {
      EncodeInto(e.key);
      EncodeInto(e.value);
    }

    method EncodeArray(items: seq<Value>)
      modifies this
      ensures out == old(out) + Enc(Array(items))
      decreases items, 2
    {
      if |items| < 15 {
        out := out + [(0xd0 + |items|) as byte];
        EncodeItems(items);
      } else {
        out := out + [0xdf];
        EncodeItems(items);
        out := out + [3];
      }
    }

    method EncodeDict(pairs: seq<Entry>)
      modifies this
      ensures out == old(out) + Enc(Dict(pairs))
      decreases pairs, 2
    {
      if |pairs| < 15 {
        out := out + [(0xe0 + |pairs|) as byte];
        EncodePairs(pairs);
      } else {
        out := out + [0xef];
        EncodePairs(pairs);
        out := out + [3];
      }
    }

    method EncodeInto(v: Value)
      modifies this
      ensures out == old(out) + Enc(v)
      decreases v, 0
    {
      match v {
        case Null => out := out + [4];
        case Float(bits) => out := out + [0x36]; out := out + Le(bits, 8);
        case Uuid(id) => out := out + [5]; out := out + id;
        case Time(t) => out := out + [6]; out := out + Le(t, 8);
        case Bool(flag) => out := out + (if flag then [1] else [2]);
        case Int(n) => EncodeInt(n);
        case Str(s) => EncodeStr(s);
        case Data(b) => EncodeBytes(b);
        case Array(items) => EncodeArray(items);
        case Dict(pairs) => EncodeDict(pairs);
      }
    }
  }

  /** `encode`: the bytes depend on the value alone. */
  method Encode(v: Value) returns (r: bytes)
    ensures r == Enc(v)
  {
    var o := new Output();
    o.EncodeInto(v);
    r := o.out;
  }
}

/** TLV8 framing (src/tlv8.rs): fragmentation on the way out, merging on the way in. */
module Tlv8 {
  import opened Bytes

  datatype Item = Item(kind: byte, value: bytes)

  const CHUNK := 255

  /** One item on the wire: `type | length | value`. */
  function Fragment(kind: byte, value: bytes): (r: bytes)
    requires |value| <= CHUNK
  {
    [kind, |value| as byte] + value
  }

  /** A nonempty value in consecutive fragments of at most 255 bytes. */
  function EncChunks(kind: byte, value: bytes): (r: bytes) {
    if |value| <= CHUNK then Fragment(kind, value)
    else Fragment(kind, value[..CHUNK]) + EncChunks(kind, value[CHUNK..])
  }

  function Enc(items: seq<Item>): (r: bytes) {
    if items == [] then [] else EncChunks(items[0].kind, items[0].value) + Enc(items[1..])
  }

  /** Take in one fragment: it continues the last item if that has the same type. */
  function Absorb(items: seq<Item>, kind: byte, payload: bytes): (r: seq<Item>) {
    var last := |items| - 1;
    if items != [] && items[last].kind == kind then items[..last] + [Item(kind, items[last].value + payload)]
    else items + [Item(kind, payload)]
  }

  /** The reader from `pos` on, with `items` read so far. A lone trailing byte is ignored and a fragment
      longer than the rest of the input is cut short. */
  function Dec(data: bytes, pos: nat, items: seq<Item>): (r: seq<Item>)
    decreases |data| - pos
  {
    if pos + 2 > |data| then items
    else
      var end := Min(pos + 2 + data[pos + 1] as int, |data|);
      Dec(data, end, Absorb(items, data[pos], data[pos + 2..end]))
  }

  /** The items with neighbours of the same type joined. */
  function Merge(items: seq<Item>): (r: seq<Item>)
    decreases |items|
  {
    if |items| < 2 then items
    else if items[0].kind == items[1].kind
    then Merge([Item(items[0].kind, items[0].value + items[1].value)] + items[2..])
    else [items[0]] + Merge(items[1..])
  }

  function MergeOnto(acc: seq<Item>, items: seq<Item>): (r: seq<Item>)
    decreases |items|
  {
    if items == [] then acc else MergeOnto(Absorb(acc, items[0].kind, items[0].value), items[1..])
  }

  /** No two neighbours have the same type. */
  ghost predicate Merged(items: seq<Item>) {
    forall i, j :: 0 <= i < j < |items| && j == i + 1 ==> items[i].kind != items[j].kind
  }

  class Tlv {
    var items: seq<Item>

    constructor ()
      ensures items == []
    {
      items := [];
    }

    method Push(kind: byte, value: bytes)
      modifies this
      ensures items == old(items) + [Item(kind, value)]
    {
      items := items + [Item(kind, value)];
    }

    method PushU8(kind: byte, value: byte)
      modifies this
      ensures items == old(items) + [Item(kind, [value])]
    {
      Push(kind, [value]);
    }

    method Encode() returns (out: bytes)
      ensures out == Enc(items)
    {
      out := [];
      for i := 0 to |items|
        invariant out == Enc(items[..i])
      {
        var kind, value := items[i].kind, items[i].value;
        ghost var before := out;
        if value == [] {
          out := out + [kind];
          out := out + [0];
        } else {
          var rest := value;
          while rest != []
            invariant out + (if rest == [] then [] else EncChunks(kind, rest)) == before + EncChunks(kind, value)
            decreases |rest|
          {
            var n := Min(CHUNK, |rest|);
            out := out + Fragment(kind, rest[..n]);
            assert n == |rest| ==> rest[..n] == rest;
            rest := rest[n..];
          }
        }
        assert out == before + EncChunks(kind, value);
        EncSnoc(items[..i], items[i]);
        assert items[..i + 1] == items[..i] + [items[i]];
      }
      assert items[..|items|] == items;
    }

    constructor Decode(data: bytes)
      ensures items == Dec(data, 0, [])
    {
      var list: seq<Item> := [];
      var pos := 0;
      while pos + 2 <= |data|
        invariant pos <= |data|
        invariant Dec(data, pos, list) == Dec(data, 0, [])
        decreases |data| - pos
      {
        var kind := data[pos];
        var end := Min(pos + 2 + data[pos + 1] as int, |data|);
        var payload := data[pos + 2..end];
        var last := |list| - 1;
        if list != [] && list[last].kind == kind {
          list := list[..last] + [Item(kind, list[last].value + payload)];
        } else {
          list := list + [Item(kind, payload)];
        }
        pos := end;
      }
      items := list;
    }

    /** The first value of a type. */
    method Get(kind: byte) returns (r: Option<bytes>)
      ensures r == Lookup(items, kind)
    {
      for i := 0 to |items|
        invariant Lookup(items, kind) == Lookup(items[i..], kind)
      {
        if items[i].kind == kind {
          return Some(items[i].value);
        }
      }
      r := None;
    }
  }

  function Lookup(items: seq<Item>, kind: byte): Option<bytes> {
    if items == [] then None
    else if items[0].kind == kind then Some(items[0].value)
    else Lookup(items[1..], kind)
  }

  lemma {:induction false} EncSnoc(items: seq<Item>, item: Item)
    ensures Enc(items + [item]) == Enc(items) + EncChunks(item.kind, item.value)
  {
    if items == [] {
      assert items + [item] == [item];
    } else {
      assert (items + [item])[1..] == items[1..] + [item];
      EncSnoc(items[1..], item);
    }
  }

  /** Two fragments of one type taken in one after the other count as their concatenation. */
  lemma AbsorbTwice(items: seq<Item>, kind: byte, a: bytes, b: bytes)
    ensures Absorb(Absorb(items, kind, a), kind, b) == Absorb(items, kind, a + b)
  {
    if items != [] && items[|items| - 1].kind == kind {
      assert items[|items| - 1].value + a + b == items[|items| - 1].value + (a + b);
    }
  }

  /** Taking the items in one by one joins exactly the neighbours of the same type. */
  lemma {:induction false} MergeOntoMerges(acc: seq<Item>, x: Item, items: seq<Item>)
    ensures MergeOnto(acc + [x], items) == acc + Merge([x] + items)
    decreases |items|
  {
    var all := [x] + items;
    if items == [] {
      assert all == [x];
    } else {
      var y := items[0];
      assert all[1..] == [y] + items[1..] && all[2..] == items[1..];
      if x.kind == y.kind {
        assert Absorb(acc + [x], y.kind, y.value) == acc + [Item(x.kind, x.value + y.value)];
        MergeOntoMerges(acc, Item(x.kind, x.value + y.value), items[1..]);
      } else {
        MergeOntoMerges(acc + [x], y, items[1..]);
        assert acc + [x] + Merge(all[1..]) == acc + ([x] + Merge(all[1..]));
      }
    }
  }

  /** Reading one fragment. */
  lemma DecFragment(data: bytes, pos: nat, items: seq<Item>, kind: byte, value: bytes)
    requires |value| <= CHUNK && At(data, pos, Fragment(kind, value))
    ensures Dec(data, pos, items) == Dec(data, pos + 2 + |value|, Absorb(items, kind, value))
  {
    hide Absorb;
    AtConcat(data, pos, [kind, |value| as byte], value);
    AtIndex(data, pos, [kind, |value| as byte], 0);
    AtIndex(data, pos, [kind, |value| as byte], 1);
  }

  lemma {:induction false} DecChunks(data: bytes, pos: nat, items: seq<Item>, kind: byte, value: bytes)
    requires At(data, pos, EncChunks(kind, value))
    ensures Dec(data, pos, items) == Dec(data, pos + |EncChunks(kind, value)|, Absorb(items, kind, value))
    decreases |value|
  {
    hide Dec, At, Absorb;
    if |value| <= CHUNK {
      DecFragment(data, pos, items, kind, value);
    } else {
      var a, b := value[..CHUNK], value[CHUNK..];
      AtConcat(data, pos, Fragment(kind, a), EncChunks(kind, b));
      DecFragment(data, pos, items, kind, a);
      DecChunks(data, pos + |Fragment(kind, a)|, Absorb(items, kind, a), kind, b);
      AbsorbTwice(items, kind, a, b);
      assert a + b == value;
    }
  }

  lemma DecEnd(data: bytes, items: seq<Item>)
    ensures Dec(data, |data|, items) == items
  {
  }

  lemma {:induction false} DecEnc(data: bytes, pos: nat, acc: seq<Item>, items: seq<Item>)
    requires At(data, pos, Enc(items)) && pos + |Enc(items)| == |data|
    ensures Dec(data, pos, acc) == MergeOnto(acc, items)
    decreases |items|
  {
    hide Dec, At, Absorb, EncChunks;
    if items == [] {
      DecEnd(data, acc);
    } else {
      var head := EncChunks(items[0].kind, items[0].value);
      AtConcat(data, pos, head, Enc(items[1..]));
      DecChunks(data, pos, acc, items[0].kind, items[0].value);
      DecEnc(data, pos + |head|, Absorb(acc, items[0].kind, items[0].value), items[1..]);
    }
  }

  /** Decoding what was encoded gives the items back with neighbours of the same type merged, for values of
      every length. */
  lemma RoundTrip(items: seq<Item>)
    ensures Dec(Enc(items), 0, []) == Merge(items)
  {
    DecEnc(Enc(items), 0, [], items);
    if items != [] {
      assert [] + [items[0]] == [items[0]] && [items[0]] + items[1..] == items;
      MergeOntoMerges([], items[0], items[1..]);
    }
  }

  lemma {:induction false} MergeKeepsMerged(items: seq<Item>)
    requires Merged(items)
    ensures Merge(items) == items
    decreases |items|
  {
    if |items| >= 2 {
      assert items[0].kind != items[1].kind;
      MergeKeepsMerged(items[1..]);
    }
  }

  /** Items whose neighbours differ come back as they were. */
  lemma MergedRoundTrip(items: seq<Item>)
    requires Merged(items)
    ensures Dec(Enc(items), 0, []) == items
  {
    RoundTrip(items);
    MergeKeepsMerged(items);
  }

  lemma {:induction false} DecIsMerged(data: bytes, pos: nat, items: seq<Item>)
    requires Merged(items)
    ensures Merged(Dec(data, pos, items))
    decreases |data| - pos
  {
    if pos + 2 <= |data| {
      var end := Min(pos + 2 + data[pos + 1] as int, |data|);
      var next := Absorb(items, data[pos], data[pos + 2..end]);
      forall i, j | 0 <= i < j < |next| && j == i + 1
        ensures next[i].kind != next[j].kind
      {
        assert j < |items| ==> items[i].kind != items[j].kind;
      }
      DecIsMerged(data, end, next);
    }
  }

  /** Whatever bytes come in, truncated ones included, the decoded items are a fixed point of encoding. */
  lemma Normalizes(data: bytes)
    ensures Dec(Enc(Dec(data, 0, [])), 0, []) == Dec(data, 0, [])
  {
    DecIsMerged(data, 0, []);
    MergedRoundTrip(Dec(data, 0, []));
  }
}

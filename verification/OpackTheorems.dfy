/** What the OPACK encoder and decoder promise together. */
module OpackTheorems {
  import opened Bytes
  import opened OpackValue
  import opened OpackEncode
  import opened OpackDecode
  import Utf8

  /** What decoding `v` without references takes from the budget. */
  function Cost(v: Value): nat {
    32 * Nodes(v) + 2 * Payload(v)
  }

  /** Parsing at `st` yields `v`, moves past `len` bytes and spends exactly `v`'s nodes and cost. */
  predicate Yields(refs: bool, data: bytes, st: State, depth: nat, v: Value, len: nat) {
    && st.pos <= |data|
    && var r := Parse(refs, data, st, depth);
    && r.Ok?
    && r.value.0 == v
    && r.value.1.pos == st.pos + len
    && r.value.1.count == st.count + Nodes(v)
    && r.value.1.budget == st.budget - Cost(v)
  }

  lemma PowFacts()
    ensures Pow256(1) == 0x100 && Pow256(2) == 0x1_0000 && Pow256(3) == 0x100_0000
    ensures Pow256(4) == 0x1_0000_0000 && Pow256(8) == 0x1_0000_0000_0000_0000
  {
    assert Pow256(4) == 0x1_0000_0000;
  }

  lemma TakeAt(data: bytes, st: State, e: bytes)
    requires At(data, st.pos, e)
    ensures TakeF(data, st, |e|) == Ok((e, st.(pos := st.pos + |e|)))
  {
  }

  lemma ReadBack(data: bytes, st: State, w: nat, n: nat)
    requires At(data, st.pos, Le(n, w)) && n < Pow256(w)
    ensures NumberF(data, st, w) == Ok((n, st.(pos := st.pos + w)))
  {
    LeRoundTrip(n, w);
    TakeAt(data, st, Le(n, w));
  }

  /** The scalar case of the round trip, from just behind the tag. */
  predicate ScalarYields(refs: bool, data: bytes, st: State, v: Value) {
    && st.pos < |data|
    && Enc(v) != []
    && Enc(v)[0] == data[st.pos]
    && !(0xd0 <= data[st.pos] <= 0xef)
    && var r := ScalarOf(refs, data, st.(pos := st.pos + 1), data[st.pos]);
    && r.Ok?
    && st.budget >= 2 * Payload(v)
    && r.value.0 == v
    && r.value.1.(objects := st.objects) == st.(pos := st.pos + |Enc(v)|, budget := st.budget - 2 * Payload(v))
  }

  lemma FixedEnc(refs: bool, data: bytes, st: State, v: Value, t: byte, body: bytes)
    requires IsFixed(t) && |body| == FixedWidth(t) && FixedValue(t, body) == v && Enc(v) == [t] + body
               && Payload(v) == 0
    requires At(data, st.pos, Enc(v))
    ensures ScalarYields(refs, data, st, v)
  {
    hide Known, FromLe;
    AtIndex(data, st.pos, Enc(v), 0);
    AtConcat(data, st.pos, [t], body);
  }

  /** A number fits the width its encoder chooses. */
  lemma WidthFits(n: nat)
    ensures n <= U64_MAX ==> n < Pow256(IntWidth(n))
    ensures n <= U32_MAX ==> n < Pow256(StrWidth(n))
  {
    PowFacts();
  }

  lemma IntEnc(refs: bool, data: bytes, st: State, n: nat)
    requires n <= U64_MAX && At(data, st.pos, EncInt(n))
    ensures ScalarYields(refs, data, st, Int(n))
  {
    AtIndex(data, st.pos, EncInt(n), 0);
    if n >= 0x28 {
      WidthFits(n);
      LeRoundTrip(n, IntWidth(n));
      FixedEnc(refs, data, st, Int(n), IntTag(n), Le(n, IntWidth(n)));
    }
  }

  lemma StrHeadRead(data: bytes, st: State, n: nat)
    requires n <= MAX_INPUT && At(data, st.pos, StrHead(n))
    ensures st.pos < |data| && 0x40 <= data[st.pos] <= 0x64
    ensures StrLength(data, st.(pos := st.pos + 1), data[st.pos]) == Ok((n, st.(pos := st.pos + |StrHead(n)|)))
  {
    var head := StrHead(n);
    AtIndex(data, st.pos, head, 0);
    if n > 32 {
      AtConcat(data, st.pos, [head[0]], Le(n, StrWidth(n)));
      WidthFits(n);
      ReadBack(data, st.(pos := st.pos + 1), StrWidth(n), n);
    }
    hide At, NumberF;
  }

  lemma StrEnc(refs: bool, data: bytes, st: State, s: bytes)
    requires Utf8.Valid(s) && At(data, st.pos, StrHead(|s|) + s) && |s| <= MAX_INPUT && st.budget >= 2 * |s|
    ensures ScalarYields(refs, data, st, Str(s))
  {
    hide Known, Utf8.Valid, At, StrLength, StrHead;
    var head := StrHead(|s|);
    AtConcat(data, st.pos, head, s);
    StrHeadRead(data, st, |s|);
    AtIndex(data, st.pos, head + s, 0);
    TakeAt(data, st.(pos := st.pos + |head|, budget := st.budget - 2 * |s|), s);
  }

  lemma DataHeadRead(data: bytes, st: State, n: nat)
    requires n <= MAX_INPUT && At(data, st.pos, DataHead(n))
    ensures st.pos < |data| && 0x70 <= data[st.pos] <= 0x94
    ensures DataLength(data, st.(pos := st.pos + 1), data[st.pos]) == Ok((n, st.(pos := st.pos + |DataHead(n)|)))
  {
    var head := DataHead(n);
    AtIndex(data, st.pos, head, 0);
    if n > 32 {
      AtConcat(data, st.pos, [head[0]], Le(n, IntWidth(n)));
      WidthFits(n);
      ReadBack(data, st.(pos := st.pos + 1), IntWidth(n), n);
    }
    hide At, NumberF;
  }

  lemma DataEnc(refs: bool, data: bytes, st: State, s: bytes)
    requires At(data, st.pos, DataHead(|s|) + s) && |s| <= MAX_INPUT && st.budget >= 2 * |s|
    ensures ScalarYields(refs, data, st, Data(s))
  {
    hide Known, Utf8.Valid, At, DataLength, DataHead;
    var head := DataHead(|s|);
    AtConcat(data, st.pos, head, s);
    DataHeadRead(data, st, |s|);
    AtIndex(data, st.pos, head + s, 0);
    TakeAt(data, st.(pos := st.pos + |head|, budget := st.budget - 2 * |s|), s);
  }

  lemma ScalarEnc(refs: bool, data: bytes, st: State, v: Value)
    requires WellFormed(v) && !IsContainer(v)
    requires At(data, st.pos, Enc(v)) && Payload(v) <= MAX_INPUT && st.budget >= 2 * Payload(v)
    ensures ScalarYields(refs, data, st, v)
  {
    PowFacts();
    match v {
      case Null => AtIndex(data, st.pos, Enc(v), 0);
      case Bool(flag) => AtIndex(data, st.pos, Enc(v), 0);
      case Float(bits) =>
        LeRoundTrip(bits, FixedWidth(0x36));
        FixedEnc(refs, data, st, v, 0x36, Le(bits, FixedWidth(0x36)));
      case Time(t) => LeRoundTrip(t, FixedWidth(6)); FixedEnc(refs, data, st, v, 6, Le(t, FixedWidth(6)));
      case Uuid(id) => FixedEnc(refs, data, st, v, 5, id);
      case Int(n) => IntEnc(refs, data, st, n);
      case Str(s) => StrEnc(refs, data, st, s);
      case Data(b) => DataEnc(refs, data, st, b);
    }
  }

  /** No encoding begins with the terminator of open-ended containers. */
  lemma NeverStartsWithTerminator(v: Value)
    ensures Enc(v) != [] && Enc(v)[0] != 3
  {
    match v {
      case Str(s) => assert Enc(v)[0] == StrHead(|s|)[0];
      case Data(b) => assert Enc(v)[0] == DataHead(|b|)[0];
      case _ =>
    }
  }

  lemma EntryNeverStartsWithTerminator(e: Entry)
    ensures EncEntry(e) != [] && EncEntry(e)[0] != 3
  {
    NeverStartsWithTerminator(e.key);
  }

  predicate Fits(data: bytes, st: State, depth: nat, e: bytes, nest: nat, nodes: nat, payload: nat) {
    && At(data, st.pos, e)
    && |data| <= MAX_INPUT
    && depth + nest <= MAX_DEPTH
    && st.count + nodes <= MAX_NODES
    && st.budget >= 32 * nodes + 2 * payload
  }

  lemma {:induction false} PayloadBound(v: Value)
    ensures Payload(v) <= |Enc(v)|
  {
    match v {
      case Array(items) => PayloadBoundAll(items);
      case Dict(pairs) => PayloadBoundPairs(pairs);
      case _ =>
    }
  }

  lemma {:induction false} PayloadBoundAll(items: seq<Value>)
    ensures PayloadAll(items) <= |EncAll(items)|
  {
    if items != [] {
      PayloadBound(items[0]);
      PayloadBoundAll(items[1..]);
    }
  }

  lemma {:induction false} PayloadBoundEntry(e: Entry)
    ensures PayloadEntry(e) <= |EncEntry(e)|
  {
    PayloadBound(e.key);
    PayloadBound(e.value);
  }

  lemma {:induction false} PayloadBoundPairs(pairs: seq<Entry>)
    ensures PayloadPairs(pairs) <= |EncPairs(pairs)|
  {
    if pairs != [] {
      PayloadBoundEntry(pairs[0]);
      PayloadBoundPairs(pairs[1..]);
    }
  }

  /** Behind the head of a container stand its elements and, if it is open-ended, a terminator. */
  lemma ContainerEnc(data: bytes, pos: nat, tag: byte, n: nat, body: bytes)
    requires At(data, pos, if n < 15 then [tag] + body else [tag] + body + [3])
    ensures pos < |data| && data[pos] == tag && At(data, pos + 1, body)
    ensures n == 15 ==> At(data, pos + 1 + |body|, [3])
  {
    if n < 15 {
      AtConcat(data, pos, [tag], body);
    } else {
      AtConcat(data, pos, [tag] + body, [3]);
      AtConcat(data, pos, [tag], body);
    }
    AtIndex(data, pos, [tag], 0);
  }

  /** Parsing where `Enc(v)` stands yields `v`, whatever follows and whatever was remembered before. */
  lemma {:induction false} ParseEnc(refs: bool, data: bytes, st: State, depth: nat, v: Value)
    requires WellFormed(v)
    requires Fits(data, st, depth, Enc(v), Nest(v), Nodes(v), Payload(v))
    ensures Yields(refs, data, st, depth, v, |Enc(v)|)
    decreases v, 0
  {
    hide At, Parse, ScalarOf;
    if v.Array? {
      ParseEncArray(refs, data, st, depth, v.items);
    } else if v.Dict? {
      ParseEncDict(refs, data, st, depth, v.pairs);
    } else {
      ParseEncScalar(refs, data, st, depth, v);
    }
  }

  lemma ParseEncScalar(refs: bool, data: bytes, st: State, depth: nat, v: Value)
    requires WellFormed(v) && !IsContainer(v)
    requires Fits(data, st, depth, Enc(v), 0, 1, Payload(v))
    ensures Yields(refs, data, st, depth, v, |Enc(v)|)
  {
    hide ScalarOf, Enc, At;
    PayloadBound(v);
    AtLength(data, st.pos, Enc(v));
    ScalarEnc(refs, data, st.(count := st.count + 1, budget := st.budget - 32), v);
  }

  lemma AtLength(data: bytes, pos: nat, e: bytes)
    requires At(data, pos, e)
    ensures pos + |e| <= |data|
  {
  }

  /** The state behind a container's tag. */
  function Inside(st: State): State
    requires st.budget >= 32
  {
    st.(pos := st.pos + 1, count := st.count + 1, budget := st.budget - 32)
  }

  lemma ParseContainer(refs: bool, data: bytes, st: State, depth: nat, n: nat)
    requires n <= 15 && st.pos < |data| && depth <= MAX_DEPTH && st.count < MAX_NODES && st.budget >= 32
    ensures data[st.pos] as int == 0xd0 + n && ParseAll(refs, data, Inside(st), depth, n, []).Ok? ==>
              var r := ParseAll(refs, data, Inside(st), depth, n, []).value;
              Parse(refs, data, st, depth) == Ok((Array(r.0), r.1))
    ensures data[st.pos] as int == 0xe0 + n && ParsePairs(refs, data, Inside(st), depth, n, []).Ok? ==>
              var r := ParsePairs(refs, data, Inside(st), depth, n, []).value;
              Parse(refs, data, st, depth) == Ok((Dict(r.0), r.1))
  {
    hide ScalarOf, ParseAll, ParsePairs;
  }

  lemma {:induction false} ParseEncArray(refs: bool, data: bytes, st: State, depth: nat, items: seq<Value>)
    requires WellFormed(Array(items))
    requires Fits(data, st, depth, Enc(Array(items)), Nest(Array(items)), Nodes(Array(items)), Payload(Array(items)))
    ensures Yields(refs, data, st, depth, Array(items), |Enc(Array(items))|)
    decreases items, 2
  {
    hide Parse, ParseAll, At, EncAll, NodesAll, NestAll, PayloadAll;
    EmptyTotals();
    var n := Min(|items|, 15);
    ContainerEnc(data, st.pos, (0xd0 + n) as byte, n, EncAll(items));
    ParseEncAll(refs, data, Inside(st), depth, n, [], items);
    ParseContainer(refs, data, st, depth, n);
  }

  lemma {:induction false} ParseEncDict(refs: bool, data: bytes, st: State, depth: nat, pairs: seq<Entry>)
    requires WellFormed(Dict(pairs))
    requires Fits(data, st, depth, Enc(Dict(pairs)), Nest(Dict(pairs)), Nodes(Dict(pairs)), Payload(Dict(pairs)))
    ensures Yields(refs, data, st, depth, Dict(pairs), |Enc(Dict(pairs))|)
    decreases pairs, 2
  {
    hide Parse, ParsePairs, At, EncPairs, NodesPairs, NestPairs, PayloadPairs;
    EmptyTotals();
    var n := Min(|pairs|, 15);
    ContainerEnc(data, st.pos, (0xe0 + n) as byte, n, EncPairs(pairs));
    ParseEncPairs(refs, data, Inside(st), depth, n, [], pairs);
    ParseContainer(refs, data, st, depth, n);
  }

  lemma TerminatorAt(data: bytes, pos: nat, n: nat)
    requires n == 15 ==> At(data, pos, [3])
    ensures n == 15 ==> pos < |data| && data[pos] == 3
  {
    if n == 15 {
      AtIndex(data, pos, [3], 0);
      AtLength(data, pos, [3]);
    }
  }

  lemma {:induction false} ParseEncAll(refs: bool, data: bytes, st: State, depth: nat, n: nat, acc: seq<Value>,
                                       items: seq<Value>)
    requires n <= 15 && (n < 15 ==> |acc| + |items| == n)
    requires forall i :: 0 <= i < |items| ==> WellFormed(items[i])
    requires Fits(data, st, depth + (if items == [] then 0 else 1), EncAll(items), NestAll(items), NodesAll(items),
                  PayloadAll(items))
    requires n == 15 ==> At(data, st.pos + |EncAll(items)|, [3])
    ensures var r := ParseAll(refs, data, st, depth, n, acc);
            && r.Ok? && r.value.0 == acc + items
            && r.value.1.pos == st.pos + |EncAll(items)| + (if n == 15 then 1 else 0)
            && r.value.1.count == st.count + NodesAll(items)
            && r.value.1.budget == st.budget - 32 * NodesAll(items) - 2 * PayloadAll(items)
    decreases items, 1
  {
    hide Parse, ParseAll, At, EncAll, NodesAll, NestAll, PayloadAll, Enc, Nodes, Nest, Payload;
    AtLength(data, st.pos, EncAll(items));
    NoItems(refs, data, st, depth, n, acc);
    if items == [] {
      assert acc + items == acc;
      TerminatorAt(data, st.pos, n);
    } else {
      var v := items[0];
      ItemsCons(items);
      NeverStartsWithTerminator(v);
      AtConcat(data, st.pos, Enc(v), EncAll(items[1..]));
      AtIndex(data, st.pos, Enc(v), 0);
      ParseEnc(refs, data, st, depth + 1, v);
      OneItemMore(refs, data, st, depth, n, acc);
      var s := Parse(refs, data, st, depth + 1).value.1;
      ParseEncAll(refs, data, s, depth, n, acc + [v], items[1..]);
      assert acc + [v] + items[1..] == acc + items;
    }
  }

  lemma ItemsCons(items: seq<Value>)
    requires items != []
    ensures EncAll(items) == Enc(items[0]) + EncAll(items[1..])
    ensures NodesAll(items) == Nodes(items[0]) + NodesAll(items[1..])
    ensures PayloadAll(items) == Payload(items[0]) + PayloadAll(items[1..])
    ensures NestAll(items) == Max(Nest(items[0]), NestAll(items[1..]))
  {
  }

  lemma NoItems(refs: bool, data: bytes, st: State, depth: nat, n: nat, acc: seq<Value>)
    ensures EncAll([]) == [] && NodesAll([]) == 0 && PayloadAll([]) == 0 && NestAll([]) == 0
    ensures st.pos <= |data| && n < 15 && |acc| == n ==> ParseAll(refs, data, st, depth, n, acc) == Ok((acc, st))
    ensures st.pos < |data| && n == 15 && data[st.pos] == 3 ==>
              ParseAll(refs, data, st, depth, n, acc) == Ok((acc, st.(pos := st.pos + 1)))
  {
  }

  lemma OneItemMore(refs: bool, data: bytes, st: State, depth: nat, n: nat, acc: seq<Value>)
    requires st.pos <= |data| && !(n < 15 && |acc| == n) && !AtEnd(data, st, n) && Parse(refs, data, st, depth + 1).Ok?
    ensures var r := Parse(refs, data, st, depth + 1).value;
            ParseAll(refs, data, st, depth, n, acc) == ParseAll(refs, data, r.1, depth, n, acc + [r.0])
  {
    hide Parse;
  }

  lemma {:induction false} ParseEncEntry(refs: bool, data: bytes, st: State, depth: nat, e: Entry)
    requires WellFormed(e.key) && WellFormed(e.value)
    requires Fits(data, st, depth, EncEntry(e), NestEntry(e), NodesEntry(e), PayloadEntry(e))
    ensures var r := ParseEntry(refs, data, st, depth);
            && r.Ok? && r.value.0 == e
            && r.value.1.pos == st.pos + |EncEntry(e)|
            && r.value.1.count == st.count + NodesEntry(e)
            && r.value.1.budget == st.budget - 32 * NodesEntry(e) - 2 * PayloadEntry(e)
    decreases e, 1
  {
    hide Parse, Enc, At;
    AtConcat(data, st.pos, Enc(e.key), Enc(e.value));
    ParseEnc(refs, data, st, depth, e.key);
    ParseEnc(refs, data, Parse(refs, data, st, depth).value.1, depth, e.value);
  }

  lemma {:induction false} ParseEncPairs(refs: bool, data: bytes, st: State, depth: nat, n: nat, acc: seq<Entry>,
                                         pairs: seq<Entry>)
    requires n <= 15 && (n < 15 ==> |acc| + |pairs| == n)
    requires forall i :: 0 <= i < |pairs| ==> WellFormed(pairs[i].key) && WellFormed(pairs[i].value)
    requires Fits(data, st, depth + (if pairs == [] then 0 else 1), EncPairs(pairs), NestPairs(pairs),
                  NodesPairs(pairs), PayloadPairs(pairs))
    requires n == 15 ==> At(data, st.pos + |EncPairs(pairs)|, [3])
    ensures var r := ParsePairs(refs, data, st, depth, n, acc);
            && r.Ok? && r.value.0 == acc + pairs
            && r.value.1.pos == st.pos + |EncPairs(pairs)| + (if n == 15 then 1 else 0)
            && r.value.1.count == st.count + NodesPairs(pairs)
            && r.value.1.budget == st.budget - 32 * NodesPairs(pairs) - 2 * PayloadPairs(pairs)
    decreases pairs, 1
  {
    hide Parse, ParseEntry, ParsePairs, At, EncPairs, NodesPairs, NestPairs, PayloadPairs, EncEntry, NodesEntry,
      NestEntry,
      PayloadEntry;
    AtLength(data, st.pos, EncPairs(pairs));
    NoPairs(refs, data, st, depth, n, acc);
    if pairs == [] {
      assert acc + pairs == acc;
      TerminatorAt(data, st.pos, n);
    } else {
      var e := pairs[0];
      PairsCons(pairs);
      EntryNeverStartsWithTerminator(e);
      AtConcat(data, st.pos, EncEntry(e), EncPairs(pairs[1..]));
      AtIndex(data, st.pos, EncEntry(e), 0);
      ParseEncEntry(refs, data, st, depth + 1, e);
      OnePairMore(refs, data, st, depth, n, acc);
      var s := ParseEntry(refs, data, st, depth + 1).value.1;
      ParseEncPairs(refs, data, s, depth, n, acc + [e], pairs[1..]);
      assert acc + [e] + pairs[1..] == acc + pairs;
    }
  }

  lemma PairsCons(pairs: seq<Entry>)
    requires pairs != []
    ensures EncPairs(pairs) == EncEntry(pairs[0]) + EncPairs(pairs[1..])
    ensures NodesPairs(pairs) == NodesEntry(pairs[0]) + NodesPairs(pairs[1..])
    ensures PayloadPairs(pairs) == PayloadEntry(pairs[0]) + PayloadPairs(pairs[1..])
    ensures NestPairs(pairs) == Max(NestEntry(pairs[0]), NestPairs(pairs[1..]))
  {
  }

  lemma NoPairs(refs: bool, data: bytes, st: State, depth: nat, n: nat, acc: seq<Entry>)
    ensures EncPairs([]) == [] && NodesPairs([]) == 0 && PayloadPairs([]) == 0 && NestPairs([]) == 0
    ensures st.pos <= |data| && n < 15 && |acc| == n ==> ParsePairs(refs, data, st, depth, n, acc) == Ok((acc, st))
    ensures st.pos < |data| && n == 15 && data[st.pos] == 3 ==>
              ParsePairs(refs, data, st, depth, n, acc) == Ok((acc, st.(pos := st.pos + 1)))
  {
  }

  lemma OnePairMore(refs: bool, data: bytes, st: State, depth: nat, n: nat, acc: seq<Entry>)
    requires st.pos <= |data| && !(n < 15 && |acc| == n) && !AtEnd(data, st, n)
    requires ParseEntry(refs, data, st, depth + 1).Ok?
    ensures var r := ParseEntry(refs, data, st, depth + 1).value;
            ParsePairs(refs, data, st, depth, n, acc) == ParsePairs(refs, data, r.1, depth, n, acc + [r.0])
  {
    hide ParseEntry;
  }

  /** The values the decoder's limits admit. */
  predicate WithinLimits(v: Value) {
    WellFormed(v) && Nest(v) <= MAX_DEPTH && Nodes(v) <= MAX_NODES && |Enc(v)| <= MAX_INPUT
  }

  /** Decoding undoes encoding for every value within the limits. */
  lemma RoundTrip(v: Value)
    requires WithinLimits(v)
    ensures DecodeF(Enc(v)) == Ok(v)
  {
    PayloadBound(v);
    ParseEnc(true, Enc(v), START, 0, v);
  }

  /** An encoding followed by anything is consumed exactly, so no encoding is a proper prefix of another. */
  lemma SelfDelimiting(v: Value, rest: bytes)
    requires WithinLimits(v) && |Enc(v) + rest| <= MAX_INPUT
    ensures Yields(true, Enc(v) + rest, START, 0, v, |Enc(v)|)
  {
    PayloadBound(v);
    AtMiddle([], Enc(v), rest);
    assert [] + Enc(v) + rest == Enc(v) + rest;
    ParseEnc(true, Enc(v) + rest, START, 0, v);
  }

  lemma PrefixFree(v: Value, w: Value, x: bytes, y: bytes)
    requires WithinLimits(v) && WithinLimits(w) && Enc(v) + x == Enc(w) + y && |Enc(v) + x| <= MAX_INPUT
    ensures v == w && x == y
  {
    SelfDelimiting(v, x);
    SelfDelimiting(w, y);
    assert x == (Enc(v) + x)[|Enc(v)|..];
    assert y == (Enc(w) + y)[|Enc(w)|..];
  }
}

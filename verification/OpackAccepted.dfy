/** Nothing but drafts is accepted: every input that decodes was one, and what the limits count of it is within them. */
module OpackAccepted {
  import opened Bytes
  import opened OpackValue
  import opened OpackDecode
  import opened OpackDrafts
  import opened OpackReferences
  import OpackTheorems
  import Utf8

  // ----- scalars -----

  /** The scalar read from just behind the tag at `st` was written as `d`. */
  ghost predicate WasScalar(data: bytes, st: State, d: Draft, ws: seq<Value>) {
    Good(d) && !d.List? && !d.Table? && At(data, st.pos, Written(d)) && Reads(data, st, d, ws)
  }

  lemma TakenIs(data: bytes, st: State, n: nat) returns (b: bytes)
    requires st.pos <= |data| && TakeF(data, st, n).Ok?
    ensures TakeF(data, st, n) == Ok((b, st.(pos := st.pos + n))) && |b| == n && At(data, st.pos, b)
  {
    b := data[st.pos..st.pos + n];
  }

  lemma TagAt(data: bytes, pos: nat, e: bytes)
    requires pos < |data| && At(data, pos + 1, e)
    ensures At(data, pos, [data[pos]] + e)
  {
    assert At(data, pos, [data[pos]]);
    AtJoin(data, pos, [data[pos]], e);
  }

  lemma OneWas(data: bytes, st: State, ws: seq<Value>) returns (d: Draft)
    requires st.pos < |data| && st.objects == Distinct(ws)
    requires var t := data[st.pos]; t == 1 || t == 2 || t == 4 || 8 <= t <= 0x2f
    ensures WasScalar(data, st, d, ws)
  {
    hide Distinct;
    var t := data[st.pos];
    d := One(if t == 4 then Null else if t < 4 then Bool(t == 1) else Int(t as int - 8));
    assert OneByte(d.v) == t;
    OneReads(data, st, d, ws);
  }

  /** The draft of a scalar of fixed width. */
  function FixedDraft(t: byte, body: bytes): Draft
    requires IsFixed(t) && |body| == FixedWidth(t)
  {
    if t == 5 then Id(body)
    else if t == 6 then Date(FromLe(body))
    else if t == 0x35 then Single(FromLe(body))
    else if t == 0x36 then Double(FromLe(body))
    else Number(FromLe(body), |body|)
  }

  lemma FixedDraftIs(t: byte, body: bytes)
    requires IsFixed(t) && |body| == FixedWidth(t)
    ensures Written(FixedDraft(t, body)) == [t] + body && Good(FixedDraft(t, body))
  {
    OpackTheorems.PowFacts();
    LeOfFromLe(body);
    hide Le, FromLe;
  }

  lemma FixedWas(data: bytes, st: State, ws: seq<Value>) returns (d: Draft)
    requires st.pos < |data| && st.objects == Distinct(ws) && IsFixed(data[st.pos])
    requires ScalarOf(true, data, st.(pos := st.pos + 1), data[st.pos]).Ok?
    ensures WasScalar(data, st, d, ws)
  {
    hide Distinct, At, FixedValue, Written, Good, Reads, Says, Memory;
    var t := data[st.pos];
    var body := TakenIs(data, st.(pos := st.pos + 1), FixedWidth(t));
    d := FixedDraft(t, body);
    FixedDraftIs(t, body);
    TagAt(data, st.pos, body);
    FixedDraftCosts(d, ws);
    ScalarReads(data, st, d, ws);
  }

  lemma FixedDraftCosts(d: Draft, ws: seq<Value>)
    requires d.Id? || d.Date? || d.Single? || d.Double? || d.Number?
    ensures Says(d, ws).Some? && Memory(d, ws) == 32
  {
  }

  lemma TextWas(data: bytes, st: State, ws: seq<Value>) returns (d: Draft)
    requires st.pos < |data| && st.objects == Distinct(ws) && 0x40 <= data[st.pos] <= 0x64
    requires ScalarOf(true, data, st.(pos := st.pos + 1), data[st.pos]).Ok?
    ensures WasScalar(data, st, d, ws)
  {
    hide Distinct, At, Utf8.Valid, FromLe, Le, Reads, Remember, TakeF, NumberF;
    var t := data[st.pos];
    var behind := st.(pos := st.pos + 1);
    var n, s := StrLength(data, behind, t).value.0, StrLength(data, behind, t).value.1;
    var w := if t <= 0x60 then 0 else t as int - 0x60;
    var text := TakenIs(data, s.(budget := s.budget - 2 * n), n);
    d := Text(text, w);
    TextHeadWas(data, st, n, w);
    AtJoin(data, st.pos, TextHead(n, w), text);
    TextReads(data, st, d, ws);
  }

  lemma TextHeadWas(data: bytes, st: State, n: nat, w: nat)
    requires st.pos < |data| && 0x40 <= data[st.pos] <= 0x64
    requires w == if data[st.pos] <= 0x60 then 0 else data[st.pos] as int - 0x60
    requires var r := StrLength(data, st.(pos := st.pos + 1), data[st.pos]); r.Ok? && r.value.0 == n
    ensures At(data, st.pos, TextHead(n, w)) && (if w == 0 then n <= 32 else w <= 4 && n < Pow256(w))
    ensures StrLength(data, st.(pos := st.pos + 1), data[st.pos]) == Ok((n, st.(pos := st.pos + |TextHead(n, w)|)))
  {
    hide At, NumberF, Le;
    if w == 0 {
      TagWas(data, st.pos);
    } else {
      NumberWas(data, st, n, w);
    }
  }

  lemma TagWas(data: bytes, pos: nat)
    requires pos < |data|
    ensures At(data, pos, [data[pos]])
  {
  }

  lemma NumberWas(data: bytes, st: State, n: nat, w: nat)
    requires st.pos < |data| && NumberF(data, st.(pos := st.pos + 1), w).Ok?
    requires NumberF(data, st.(pos := st.pos + 1), w).value.0 == n
    ensures At(data, st.pos, [data[st.pos]] + Le(n, w)) && n < Pow256(w)
    ensures NumberF(data, st.(pos := st.pos + 1), w) == Ok((n, st.(pos := st.pos + 1 + w)))
  {
    hide At, Le, FromLe;
    var b := TakenIs(data, st.(pos := st.pos + 1), w);
    LeOfFromLe(b);
    TagAt(data, st.pos, b);
  }

  lemma BlobWas(data: bytes, st: State, ws: seq<Value>) returns (d: Draft)
    requires st.pos < |data| && st.objects == Distinct(ws) && 0x70 <= data[st.pos] <= 0x94
    requires ScalarOf(true, data, st.(pos := st.pos + 1), data[st.pos]).Ok?
    ensures WasScalar(data, st, d, ws)
  {
    hide Distinct, At, FromLe, Le, Reads, Remember, TakeF, NumberF;
    var t := data[st.pos];
    var behind := st.(pos := st.pos + 1);
    var n, s := DataLength(data, behind, t).value.0, DataLength(data, behind, t).value.1;
    var w := if t <= 0x90 then 0 else Width(t as int - 0x91);
    var b := TakenIs(data, s.(budget := s.budget - 2 * n), n);
    d := Blob(b, w);
    BlobHeadWas(data, st, n, w);
    AtJoin(data, st.pos, BlobHead(n, w), b);
    BlobReads(data, st, d, ws);
  }

  lemma BlobHeadWas(data: bytes, st: State, n: nat, w: nat)
    requires st.pos < |data| && 0x70 <= data[st.pos] <= 0x94
    requires w == if data[st.pos] <= 0x90 then 0 else Width(data[st.pos] as int - 0x91)
    requires var r := DataLength(data, st.(pos := st.pos + 1), data[st.pos]); r.Ok? && r.value.0 == n
    ensures At(data, st.pos, BlobHead(n, w)) && (if w == 0 then n <= 32 else IsWidth(w) && n < Pow256(w))
    ensures DataLength(data, st.(pos := st.pos + 1), data[st.pos]) == Ok((n, st.(pos := st.pos + |BlobHead(n, w)|)))
  {
    hide At, NumberF, Le;
    if w == 0 {
      TagWas(data, st.pos);
    } else {
      NumberWas(data, st, n, w);
    }
  }

  lemma AgainWas(data: bytes, st: State, ws: seq<Value>) returns (d: Draft)
    requires st.pos < |data| && st.objects == Distinct(ws) && 0xa0 <= data[st.pos] <= 0xc4
    requires ScalarOf(true, data, st.(pos := st.pos + 1), data[st.pos]).Ok?
    ensures WasScalar(data, st, d, ws)
  {
    hide Distinct, At, Le, Reads, NumberF;
    var t := data[st.pos];
    var index := RefIndex(data, st.(pos := st.pos + 1), t).value.0;
    if t <= 0xc0 {
      d := Again(index, 0);
      TagWas(data, st.pos);
    } else {
      d := Again(index, t as int - 0xc0);
      NumberWas(data, st, index, t as int - 0xc0);
    }
    AgainReads(data, st, d, ws);
  }

  lemma ScalarWas(data: bytes, st: State, ws: seq<Value>) returns (d: Draft)
    requires st.pos < |data| && st.objects == Distinct(ws)
    requires ScalarOf(true, data, st.(pos := st.pos + 1), data[st.pos]).Ok?
    ensures WasScalar(data, st, d, ws)
  {
    hide WasScalar, Distinct, TakeF, StrLength, DataLength, RefIndex, StrOf, DataOf, RefOf, FixedValue, Remember;
    var t := data[st.pos];
    if t == 1 || t == 2 || t == 4 || 8 <= t <= 0x2f {
      d := OneWas(data, st, ws);
    } else if IsFixed(t) {
      d := FixedWas(data, st, ws);
    } else if 0x40 <= t <= 0x64 {
      d := TextWas(data, st, ws);
    } else if 0x70 <= t <= 0x94 {
      d := BlobWas(data, st, ws);
    } else {
      d := AgainWas(data, st, ws);
    }
  }

  // ----- whole inputs -----

  /** What was parsed at `st` was the draft `d`. */
  ghost predicate Was(data: bytes, st: State, depth: nat, d: Draft, ws: seq<Value>, v: Value, s: State) {
    && Good(d) && Says(d, ws) == Some(v) && At(data, st.pos, Written(d))
    && depth + Levels(d) <= MAX_DEPTH && s.count <= MAX_NODES && st.budget >= Memory(d, ws)
    && s == Behind(st, |Written(d)|, ws + Words(d), Parts(d), Memory(d, ws))
  }

  ghost predicate WereItems(data: bytes, st: State, depth: nat, n: nat, items: seq<Draft>, ws: seq<Value>,
                            values: seq<Value>, s: State) {
    && (forall i :: 0 <= i < |items| ==> Good(items[i])) && SaysAll(items, ws) == Some(values)
    && At(data, st.pos, WrittenAll(items)) && (n == 15 ==> At(data, st.pos + |WrittenAll(items)|, [3]))
    && (items != [] ==> depth + 1 + LevelsAll(items) <= MAX_DEPTH && s.count <= MAX_NODES)
    && st.budget >= MemoryAll(items, ws)
    && s == Behind(st, |WrittenAll(items)| + (if n == 15 then 1 else 0), ws + WordsAll(items), PartsAll(items),
                   MemoryAll(items, ws))
  }

  ghost predicate WerePairs(data: bytes, st: State, depth: nat, n: nat, pairs: seq<Pair>, ws: seq<Value>,
                            values: seq<Entry>, s: State) {
    && (forall i :: 0 <= i < |pairs| ==> Good(pairs[i].key) && Good(pairs[i].value))
    && SaysPairs(pairs, ws) == Some(values)
    && At(data, st.pos, WrittenPairs(pairs)) && (n == 15 ==> At(data, st.pos + |WrittenPairs(pairs)|, [3]))
    && (pairs != [] ==> depth + 1 + LevelsPairs(pairs) <= MAX_DEPTH && s.count <= MAX_NODES)
    && st.budget >= MemoryPairs(pairs, ws)
    && s == Behind(st, |WrittenPairs(pairs)| + (if n == 15 then 1 else 0), ws + WordsPairs(pairs), PartsPairs(pairs),
                   MemoryPairs(pairs, ws))
  }

  ghost predicate WasPair(data: bytes, st: State, depth: nat, p: Pair, ws: seq<Value>, e: Entry, s: State) {
    && Good(p.key) && Good(p.value) && SaysPair(p, ws) == Some(e) && At(data, st.pos, WrittenPair(p))
    && depth + LevelsPair(p) <= MAX_DEPTH && s.count <= MAX_NODES && st.budget >= MemoryPair(p, ws)
    && s == Behind(st, |WrittenPair(p)|, ws + WordsPair(p), PartsPair(p), MemoryPair(p, ws))
  }

  lemma {:induction false} DraftWas(data: bytes, st: State, depth: nat, ws: seq<Value>) returns (d: Draft)
    requires st.pos <= |data| && st.objects == Distinct(ws) && Parse(true, data, st, depth).Ok?
    ensures var r := Parse(true, data, st, depth).value; Was(data, st, depth, d, ws, r.0, r.1)
    decreases |data| - st.pos, 0
  {
    hide Was, WereItems, WerePairs, WasScalar, ScalarOf, ParseAll, ParsePairs, Distinct;
    var t := data[st.pos];
    var inside := st.(pos := st.pos + 1, count := st.count + 1, budget := st.budget - 32);
    if 0xd0 <= t <= 0xdf {
      var items := ItemsWere(data, inside, depth, t as int - 0xd0, [], ws);
      d := List(items, t != 0xdf);
      ListWas(data, st, depth, t as int - 0xd0, items, ws);
    } else if 0xe0 <= t <= 0xef {
      var pairs := PairsWere(data, inside, depth, t as int - 0xe0, [], ws);
      d := Table(pairs, t != 0xef);
      TableWas(data, st, depth, t as int - 0xe0, pairs, ws);
    } else {
      d := ScalarWas(data, st.(count := st.count + 1, budget := st.budget - 32), ws);
      ScalarIsAll(data, st, depth, d, ws);
    }
  }

  lemma {:induction false} ScalarIsAll(data: bytes, st: State, depth: nat, d: Draft, ws: seq<Value>)
    requires st.pos < |data| && depth <= MAX_DEPTH && st.count < MAX_NODES && st.budget >= 32
    requires WasScalar(data, st.(count := st.count + 1, budget := st.budget - 32), d, ws)
    ensures Parse(true, data, st, depth).Ok?
    ensures var r := Parse(true, data, st, depth).value; Was(data, st, depth, d, ws, r.0, r.1)
  {
    hide ScalarOf, Distinct, Good, Says, Written, At, Words, Memory;
  }

  lemma {:induction false} ListWas(data: bytes, st: State, depth: nat, n: nat, items: seq<Draft>, ws: seq<Value>)
    requires st.pos < |data| && n <= 15 && data[st.pos] as int == 0xd0 + n
    requires depth <= MAX_DEPTH && st.count < MAX_NODES && st.budget >= 32
    requires var inside := OpackTheorems.Inside(st);
             && ParseAll(true, data, inside, depth, n, []).Ok?
             && (n < 15 ==> |items| == n)
             && var r := ParseAll(true, data, inside, depth, n, []).value;
                WereItems(data, inside, depth, n, items, ws, r.0, r.1)
    ensures Parse(true, data, st, depth).Ok?
    ensures var r := Parse(true, data, st, depth).value; Was(data, st, depth, List(items, n != 15), ws, r.0, r.1)
  {
    hide ParseAll, Distinct, Good, SaysAll, WrittenAll, At, WordsAll, MemoryAll, PartsAll, LevelsAll, ScalarOf;
    var all := WrittenAll(items);
    if n == 15 {
      AtJoin(data, st.pos + 1, all, [3]);
      TagAt(data, st.pos, all + [3]);
      assert [data[st.pos]] + (all + [3]) == [0xdf] + all + [3];
    } else {
      TagAt(data, st.pos, all);
    }
    GoodContainers(items, []);
    OpackTheorems.ParseContainer(true, data, st, depth, n);
    NoParts();
    NoneIsNothing(items, []);
    hide Parse;
  }

  lemma {:induction false} GoodContainers(items: seq<Draft>, pairs: seq<Pair>)
    ensures forall counted ::
              (counted ==> |items| < 15) && (forall i :: 0 <= i < |items| ==> Good(items[i])) ==>
                Good(List(items, counted))
    ensures forall counted ::
              (counted ==> |pairs| < 15)
              && (forall i :: 0 <= i < |pairs| ==> Good(pairs[i].key) && Good(pairs[i].value)) ==>
                Good(Table(pairs, counted))
  {
  }

  lemma NoneIsNothing(items: seq<Draft>, pairs: seq<Pair>)
    ensures items == [] ==> PartsAll(items) == 0
    ensures pairs == [] ==> PartsPairs(pairs) == 0
  {
  }

  lemma {:induction false} TableWas(data: bytes, st: State, depth: nat, n: nat, pairs: seq<Pair>, ws: seq<Value>)
    requires st.pos < |data| && n <= 15 && data[st.pos] as int == 0xe0 + n
    requires depth <= MAX_DEPTH && st.count < MAX_NODES && st.budget >= 32
    requires var inside := OpackTheorems.Inside(st);
             && ParsePairs(true, data, inside, depth, n, []).Ok?
             && (n < 15 ==> |pairs| == n)
             && var r := ParsePairs(true, data, inside, depth, n, []).value;
                WerePairs(data, inside, depth, n, pairs, ws, r.0, r.1)
    ensures Parse(true, data, st, depth).Ok?
    ensures var r := Parse(true, data, st, depth).value; Was(data, st, depth, Table(pairs, n != 15), ws, r.0, r.1)
  {
    hide ParsePairs, Distinct, Good, SaysPairs, WrittenPairs, At, WordsPairs, MemoryPairs, PartsPairs, LevelsPairs,
      ScalarOf;
    var all := WrittenPairs(pairs);
    if n == 15 {
      AtJoin(data, st.pos + 1, all, [3]);
      TagAt(data, st.pos, all + [3]);
      assert [data[st.pos]] + (all + [3]) == [0xef] + all + [3];
    } else {
      TagAt(data, st.pos, all);
    }
    GoodContainers([], pairs);
    OpackTheorems.ParseContainer(true, data, st, depth, n);
    NoParts();
    NoneIsNothing([], pairs);
    hide Parse;
  }

  lemma {:induction false} ItemsWere(data: bytes, st: State, depth: nat, n: nat, acc: seq<Value>, ws: seq<Value>)
    returns (items: seq<Draft>)
    requires n <= 15 && st.pos <= |data| && st.objects == Distinct(ws) && ParseAll(true, data, st, depth, n, acc).Ok?
    ensures n < 15 ==> |acc| + |items| == n
    ensures var r := ParseAll(true, data, st, depth, n, acc).value;
            acc <= r.0 && WereItems(data, st, depth, n, items, ws, r.0[|acc|..], r.1)
    decreases |data| - st.pos, 1
  {
    hide Was, WereItems, Parse, Distinct;
    if (n < 15 && |acc| == n) || AtEnd(data, st, n) {
      items := [];
      NoItems(data, st, depth, n, ws);
      assert acc[|acc|..] == [];
    } else {
      var d := DraftWas(data, st, depth + 1, ws);
      var r := Parse(true, data, st, depth + 1).value;
      WasNext(data, st, depth + 1, d, ws, r.0, r.1);
      var rest := ItemsWere(data, r.1, depth, n, acc + [r.0], ws + Words(d));
      var last := ParseAll(true, data, r.1, depth, n, acc + [r.0]).value;
      items := [d] + rest;
      OneMoreItem(data, st, depth, n, d, rest, ws, r.0, last.0[|acc| + 1..], r.1, last.1);
      assert last.0[|acc|..] == [r.0] + last.0[|acc| + 1..];
    }
  }

  lemma WasNext(data: bytes, st: State, depth: nat, d: Draft, ws: seq<Value>, v: Value, s: State)
    requires Was(data, st, depth, d, ws, v, s)
    ensures s.objects == Distinct(ws + Words(d))
  {
  }

  lemma {:induction false} NoItems(data: bytes, st: State, depth: nat, n: nat, ws: seq<Value>)
    requires st.pos <= |data| && st.objects == Distinct(ws) && (n == 15 ==> AtEnd(data, st, n))
    ensures WereItems(data, st, depth, n, [], ws, [], if n == 15 then st.(pos := st.pos + 1) else st)
    ensures WerePairs(data, st, depth, n, [], ws, [], if n == 15 then st.(pos := st.pos + 1) else st)
  {
    NothingMore(ws);
    hide Distinct;
  }

  lemma {:induction false} OneMoreItem(data: bytes, st: State, depth: nat, n: nat, d: Draft, rest: seq<Draft>,
                                       ws: seq<Value>, v: Value,
                    values: seq<Value>, s: State, last: State)
    requires Was(data, st, depth + 1, d, ws, v, s)
    requires WereItems(data, s, depth, n, rest, ws + Words(d), values, last)
    ensures WereItems(data, st, depth, n, [d] + rest, ws, [v] + values, last)
  {
    hide Distinct, Good, Says, Written, At, Words, Memory, Parts, Levels;
    var items := [d] + rest;
    assert items[0] == d && items[1..] == rest;
    AtJoin(data, st.pos, Written(d), WrittenAll(rest));
    ItemsCons([], v, values, ws, Words(d), WordsAll(rest));
    if rest == [] {
      NoParts();
    }
  }

  lemma {:induction false} PairWas(data: bytes, st: State, depth: nat, ws: seq<Value>) returns (p: Pair)
    requires st.pos <= |data| && st.objects == Distinct(ws) && ParseEntry(true, data, st, depth).Ok?
    ensures var r := ParseEntry(true, data, st, depth).value; WasPair(data, st, depth, p, ws, r.0, r.1)
    decreases |data| - st.pos, 1
  {
    hide Was, Parse, Distinct;
    var k := DraftWas(data, st, depth, ws);
    var s := Parse(true, data, st, depth).value;
    WasNext(data, st, depth, k, ws, s.0, s.1);
    var v := DraftWas(data, s.1, depth, ws + Words(k));
    var r := Parse(true, data, s.1, depth).value;
    p := Pair(k, v);
    BothWere(data, st, depth, k, v, ws, s.0, r.0, s.1, r.1);
  }

  lemma {:induction false} BothWere(data: bytes, st: State, depth: nat, k: Draft, v: Draft, ws: seq<Value>, a: Value,
                                    b: Value, s: State,
                 last: State)
    requires Was(data, st, depth, k, ws, a, s) && Was(data, s, depth, v, ws + Words(k), b, last)
    ensures WasPair(data, st, depth, Pair(k, v), ws, Entry(a, b), last)
  {
    hide Distinct, Good, Says, Written, At, Words, Memory, Parts, Levels;
    AtJoin(data, st.pos, Written(k), Written(v));
    ItemsCons([], 0, [], ws, Words(k), Words(v));
  }

  lemma {:induction false} PairsWere(data: bytes, st: State, depth: nat, n: nat, acc: seq<Entry>, ws: seq<Value>)
    returns (pairs: seq<Pair>)
    requires n <= 15 && st.pos <= |data| && st.objects == Distinct(ws) && ParsePairs(true, data, st, depth, n, acc).Ok?
    ensures n < 15 ==> |acc| + |pairs| == n
    ensures var r := ParsePairs(true, data, st, depth, n, acc).value;
            acc <= r.0 && WerePairs(data, st, depth, n, pairs, ws, r.0[|acc|..], r.1)
    decreases |data| - st.pos, 2
  {
    hide WasPair, WerePairs, WereItems, ParseEntry, Distinct;
    if (n < 15 && |acc| == n) || AtEnd(data, st, n) {
      pairs := [];
      NoItems(data, st, depth, n, ws);
      assert acc[|acc|..] == [];
    } else {
      var p := PairWas(data, st, depth + 1, ws);
      var r := ParseEntry(true, data, st, depth + 1).value;
      WasPairNext(data, st, depth + 1, p, ws, r.0, r.1);
      var rest := PairsWere(data, r.1, depth, n, acc + [r.0], ws + WordsPair(p));
      var last := ParsePairs(true, data, r.1, depth, n, acc + [r.0]).value;
      pairs := [p] + rest;
      OneMorePair(data, st, depth, n, p, rest, ws, r.0, last.0[|acc| + 1..], r.1, last.1);
      assert last.0[|acc|..] == [r.0] + last.0[|acc| + 1..];
    }
  }

  lemma WasPairNext(data: bytes, st: State, depth: nat, p: Pair, ws: seq<Value>, e: Entry, s: State)
    requires WasPair(data, st, depth, p, ws, e, s)
    ensures s.objects == Distinct(ws + WordsPair(p))
  {
  }

  lemma {:induction false} OneMorePair(data: bytes, st: State, depth: nat, n: nat, p: Pair, rest: seq<Pair>,
                                       ws: seq<Value>, e: Entry,
                    values: seq<Entry>, s: State, last: State)
    requires WasPair(data, st, depth + 1, p, ws, e, s)
    requires WerePairs(data, s, depth, n, rest, ws + WordsPair(p), values, last)
    ensures WerePairs(data, st, depth, n, [p] + rest, ws, [e] + values, last)
  {
    hide Distinct, Good, SaysPair, WrittenPair, At, WordsPair, MemoryPair, PartsPair, LevelsPair;
    var pairs := [p] + rest;
    assert pairs[0] == p && pairs[1..] == rest;
    AtJoin(data, st.pos, WrittenPair(p), WrittenPairs(rest));
    ItemsCons([], e, values, ws, WordsPair(p), WordsPairs(rest));
    if rest == [] {
      NoParts();
    }
  }

  /** What the decoder accepts, exactly: the drafts within the limits, each as what it says. */
  lemma AcceptedIsDraft(data: bytes, v: Value)
    ensures DecodeF(data) == Ok(v) <==>
            exists d :: Good(d) && Says(d, []) == Some(v) && WithinLimits(d) && Written(d) == data
  {
    hide Parse, Good, Says, Written, WithinLimits;
    if DecodeF(data) == Ok(v) {
      var d := DecodedWas(data);
    }
    if d :| Good(d) && Says(d, []) == Some(v) && WithinLimits(d) && Written(d) == data {
      DraftIsRead(d);
    }
  }

  lemma DecodedWas(data: bytes) returns (d: Draft)
    requires DecodeF(data).Ok?
    ensures Good(d) && Says(d, []) == Some(DecodeF(data).value) && WithinLimits(d) && Written(d) == data
  {
    hide Parse, Good, Says, Written, Levels, Parts, Memory, Words;
    assert Distinct([]) == [];
    d := DraftWas(data, START, 0, []);
    var r := Parse(true, data, START, 0).value;
    assert data[0..|data|] == data;
  }
}

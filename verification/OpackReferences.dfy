/** The decoder reads every draft as what it says, back references included, and accepts nothing but drafts. */
module OpackReferences {
  import opened Bytes
  import opened OpackValue
  import opened OpackDecode
  import opened OpackDrafts
  import OpackTheorems
  import Utf8

  // ----- scalars -----

  /** From just behind the tag, the scalar `d` is read behind the words `ws`. */
  ghost predicate Reads(data: bytes, st: State, d: Draft, ws: seq<Value>) {
    && st.pos < |data| && !(0xd0 <= data[st.pos] <= 0xef)
    && Says(d, ws).Some? && Memory(d, ws) >= 32 && st.budget >= Memory(d, ws) - 32
    && ScalarOf(true, data, st.(pos := st.pos + 1), data[st.pos])
         == Ok((Says(d, ws).value, State(st.pos + |Written(d)|, Distinct(ws + Words(d)), st.count,
                                         st.budget - (Memory(d, ws) - 32))))
  }

  lemma NothingMore(ws: seq<Value>)
    ensures ws + [] == ws
  {
  }

  lemma {:induction false} OneReads(data: bytes, st: State, d: Draft, ws: seq<Value>)
    requires d.One? && Good(d) && At(data, st.pos, Written(d)) && st.objects == Distinct(ws)
    ensures Reads(data, st, d, ws)
  {
    AtIndex(data, st.pos, Written(d), 0);
    NothingMore(ws);
    hide Distinct;
  }

  lemma {:induction false} FixedReads(data: bytes, st: State, d: Draft, ws: seq<Value>, t: byte, body: bytes)
    requires IsFixed(t) && |body| == FixedWidth(t) && st.objects == Distinct(ws)
    requires Written(d) == [t] + body && Words(d) == [FixedValue(t, body)] && Memory(d, ws) == 32
    requires Says(d, ws) == Some(FixedValue(t, body)) && At(data, st.pos, Written(d))
    ensures Reads(data, st, d, ws)
  {
    hide Known, FromLe, Distinct, Written, Words, Says, Memory, FixedValue, Remember;
    AtIndex(data, st.pos, Written(d), 0);
    AtConcat(data, st.pos, [t], body);
    OpackTheorems.TakeAt(data, st.(pos := st.pos + 1), body);
    RememberIsDistinct(st.(pos := st.pos + 1 + |body|), ws, FixedValue(t, body));
  }

  lemma {:induction false} NumberReads(data: bytes, st: State, d: Draft, ws: seq<Value>)
    requires d.Number? && Good(d) && At(data, st.pos, Written(d)) && st.objects == Distinct(ws)
    ensures Reads(data, st, d, ws)
  {
    LeRoundTrip(d.n, d.w);
    FixedReads(data, st, d, ws, (0x30 + Log(d.w)) as byte, Le(d.n, d.w));
  }

  lemma {:induction false} FloatReads(data: bytes, st: State, d: Draft, ws: seq<Value>)
    requires (d.Single? || d.Double?) && Good(d) && At(data, st.pos, Written(d)) && st.objects == Distinct(ws)
    ensures Reads(data, st, d, ws)
  {
    OpackTheorems.PowFacts();
    hide Le, Widen, At, Distinct;
    if d.Single? {
      LeRoundTrip(d.bits, FixedWidth(0x35));
      FixedReads(data, st, d, ws, 0x35, Le(d.bits, FixedWidth(0x35)));
    } else {
      LeRoundTrip(d.bits, FixedWidth(0x36));
      FixedReads(data, st, d, ws, 0x36, Le(d.bits, FixedWidth(0x36)));
    }
  }

  lemma {:induction false} OtherFixedReads(data: bytes, st: State, d: Draft, ws: seq<Value>)
    requires (d.Date? || d.Id?) && Good(d) && At(data, st.pos, Written(d)) && st.objects == Distinct(ws)
    ensures Reads(data, st, d, ws)
  {
    OpackTheorems.PowFacts();
    hide Le, At, Distinct;
    if d.Date? {
      LeRoundTrip(d.ticks, FixedWidth(6));
      FixedReads(data, st, d, ws, 6, Le(d.ticks, FixedWidth(6)));
    } else {
      FixedReads(data, st, d, ws, 5, d.id);
    }
  }

  lemma ShortHead(data: bytes, pos: nat, tag: byte)
    requires At(data, pos, [tag])
    ensures pos < |data| && data[pos] == tag
  {
    AtIndex(data, pos, [tag], 0);
  }

  lemma LongHead(data: bytes, st: State, tag: byte, n: nat, w: nat)
    requires At(data, st.pos, [tag] + Le(n, w)) && n < Pow256(w)
    ensures st.pos < |data| && data[st.pos] == tag
    ensures NumberF(data, st.(pos := st.pos + 1), w) == Ok((n, st.(pos := st.pos + 1 + w)))
  {
    hide NumberF, Le;
    AtConcat(data, st.pos, [tag], Le(n, w));
    ShortHead(data, st.pos, tag);
    OpackTheorems.ReadBack(data, st.(pos := st.pos + 1), w, n);
  }

  lemma {:induction false} TextHeadRead(data: bytes, st: State, n: nat, w: nat)
    requires (if w == 0 then n <= 32 else w <= 4 && n < Pow256(w)) && At(data, st.pos, TextHead(n, w))
    ensures st.pos < |data| && 0x40 <= data[st.pos] <= 0x64
    ensures StrLength(data, st.(pos := st.pos + 1), data[st.pos]) == Ok((n, st.(pos := st.pos + |TextHead(n, w)|)))
  {
    hide At, NumberF, Le, Pow256;
    if w == 0 {
      ShortHead(data, st.pos, (0x40 + n) as byte);
    } else {
      LongHead(data, st, (0x60 + w) as byte, n, w);
    }
  }

  lemma {:induction false} TextReads(data: bytes, st: State, d: Draft, ws: seq<Value>)
    requires d.Text? && Good(d) && At(data, st.pos, Written(d)) && st.objects == Distinct(ws)
    requires st.budget >= 2 * |d.s|
    ensures Reads(data, st, d, ws)
  {
    hide Known, Utf8.Valid, At, StrLength, TextHead, Distinct, Remember;
    var head := TextHead(|d.s|, d.w);
    AtConcat(data, st.pos, head, d.s);
    TextHeadRead(data, st, |d.s|, d.w);
    var s := st.(pos := st.pos + |head|, budget := st.budget - 2 * |d.s|);
    OpackTheorems.TakeAt(data, s, d.s);
    RememberIsDistinct(s.(pos := s.pos + |d.s|), ws, Str(d.s));
  }

  lemma {:induction false} BlobHeadRead(data: bytes, st: State, n: nat, w: nat)
    requires (if w == 0 then n <= 32 else IsWidth(w) && n < Pow256(w)) && At(data, st.pos, BlobHead(n, w))
    ensures st.pos < |data| && 0x70 <= data[st.pos] <= 0x94
    ensures DataLength(data, st.(pos := st.pos + 1), data[st.pos]) == Ok((n, st.(pos := st.pos + |BlobHead(n, w)|)))
  {
    hide At, NumberF, Le, Pow256;
    if w == 0 {
      ShortHead(data, st.pos, (0x70 + n) as byte);
    } else {
      LongHead(data, st, (0x91 + Log(w)) as byte, n, w);
    }
  }

  lemma {:induction false} BlobReads(data: bytes, st: State, d: Draft, ws: seq<Value>)
    requires d.Blob? && Good(d) && At(data, st.pos, Written(d)) && st.objects == Distinct(ws)
    requires st.budget >= 2 * |d.b|
    ensures Reads(data, st, d, ws)
  {
    hide Known, At, DataLength, BlobHead, Distinct, Remember;
    var head := BlobHead(|d.b|, d.w);
    AtConcat(data, st.pos, head, d.b);
    BlobHeadRead(data, st, |d.b|, d.w);
    var s := st.(pos := st.pos + |head|, budget := st.budget - 2 * |d.b|);
    OpackTheorems.TakeAt(data, s, d.b);
    RememberIsDistinct(s.(pos := s.pos + |d.b|), ws, Data(d.b));
  }

  lemma {:induction false} AgainHeadRead(data: bytes, st: State, i: nat, w: nat)
    requires (if w == 0 then i <= 32 else w <= 4 && i < Pow256(w)) && At(data, st.pos, AgainHead(i, w))
    ensures st.pos < |data| && 0xa0 <= data[st.pos] <= 0xc4
    ensures RefIndex(data, st.(pos := st.pos + 1), data[st.pos]) == Ok((i, st.(pos := st.pos + |AgainHead(i, w)|)))
  {
    hide At, NumberF, Le, Pow256;
    if w == 0 {
      ShortHead(data, st.pos, (0xa0 + i) as byte);
    } else {
      LongHead(data, st, (0xc0 + w) as byte, i, w);
    }
  }

  lemma {:induction false} AgainReads(data: bytes, st: State, d: Draft, ws: seq<Value>)
    requires d.Again? && Good(d) && At(data, st.pos, Written(d)) && st.objects == Distinct(ws)
    requires Says(d, ws).Some? && st.budget >= Memory(d, ws) - 32
    ensures Reads(data, st, d, ws)
  {
    hide At, RefIndex, AgainHead, Distinct;
    AgainHeadRead(data, st, d.index, d.w);
    NothingMore(ws);
  }

  lemma {:induction false} ScalarReads(data: bytes, st: State, d: Draft, ws: seq<Value>)
    requires !d.List? && !d.Table? && Good(d) && At(data, st.pos, Written(d)) && st.objects == Distinct(ws)
    requires Says(d, ws).Some? && st.budget >= Memory(d, ws) - 32
    ensures Reads(data, st, d, ws)
  {
    match d
    case One(_) => OneReads(data, st, d, ws);
    case Number(_, _) => NumberReads(data, st, d, ws);
    case Text(_, _) => TextReads(data, st, d, ws);
    case Blob(_, _) => BlobReads(data, st, d, ws);
    case Again(_, _) => AgainReads(data, st, d, ws);
    case Date(_) => OtherFixedReads(data, st, d, ws);
    case Id(_) => OtherFixedReads(data, st, d, ws);
    case _ => FloatReads(data, st, d, ws);
  }

  // ----- whole drafts -----

  /** What stands at `st`, and that the limits leave room for it. */
  ghost predicate Fits(data: bytes, st: State, depth: nat, e: bytes, levels: nat, parts: nat, memory: nat,
                       ws: seq<Value>) {
    && At(data, st.pos, e) && depth + levels <= MAX_DEPTH && st.count + parts <= MAX_NODES && st.budget >= memory
    && st.objects == Distinct(ws)
  }

  /** The state behind it. */
  function Behind(st: State, length: nat, ws: seq<Value>, parts: nat, memory: nat): State
    requires st.budget >= memory
  {
    State(st.pos + length, Distinct(ws), st.count + parts, st.budget - memory)
  }

  lemma WrittenStarts(d: Draft)
    requires Good(d)
    ensures Written(d) != [] && Written(d)[0] != 3
  {
  }

  lemma AtLength(data: bytes, pos: nat, e: bytes)
    requires At(data, pos, e)
    ensures pos + |e| <= |data|
  {
  }

  lemma {:induction false} ParseDraft(data: bytes, st: State, depth: nat, d: Draft, ws: seq<Value>)
    requires Good(d) && Says(d, ws).Some?
    requires Fits(data, st, depth, Written(d), Levels(d), Parts(d), Memory(d, ws), ws)
    ensures st.pos <= |data| && st.budget >= Memory(d, ws)
    ensures Parse(true, data, st, depth)
         == Ok((Says(d, ws).value, Behind(st, |Written(d)|, ws + Words(d), Parts(d), Memory(d, ws))))
    decreases d, 0
  {
    hide At, Parse;
    if d.List? {
      ParseList(data, st, depth, d.items, d.counted, ws);
    } else if d.Table? {
      ParseTable(data, st, depth, d.pairs, d.counted, ws);
    } else {
      ParseScalar(data, st, depth, d, ws);
    }
  }

  lemma {:induction false} ParseScalar(data: bytes, st: State, depth: nat, d: Draft, ws: seq<Value>)
    requires !d.List? && !d.Table? && Good(d) && Says(d, ws).Some?
    requires Fits(data, st, depth, Written(d), Levels(d), Parts(d), Memory(d, ws), ws)
    ensures st.pos <= |data| && st.budget >= Memory(d, ws)
    ensures Parse(true, data, st, depth)
         == Ok((Says(d, ws).value, Behind(st, |Written(d)|, ws + Words(d), Parts(d), Memory(d, ws))))
  {
    hide ScalarOf, Written, At, Distinct, Good, Says;
    AtLength(data, st.pos, Written(d));
    ScalarReads(data, st.(count := st.count + 1, budget := st.budget - 32), d, ws);
  }

  lemma {:induction false} ParseList(data: bytes, st: State, depth: nat, items: seq<Draft>, counted: bool,
                                     ws: seq<Value>)
    requires var d := List(items, counted); Good(d) && Says(d, ws).Some?
    requires var d := List(items, counted);
             Fits(data, st, depth, Written(d), Levels(d), Parts(d), Memory(d, ws), ws)
    ensures var d := List(items, counted);
            && st.pos <= |data| && st.budget >= Memory(d, ws)
            && Parse(true, data, st, depth)
               == Ok((Says(d, ws).value, Behind(st, |Written(d)|, ws + Words(d), Parts(d), Memory(d, ws))))
    decreases items, 2
  {
    hide Parse, ParseAll, At, Distinct, WrittenAll, WordsAll, LevelsAll, PartsAll, MemoryAll, SaysAll;
    var n := if counted then |items| else 15;
    NoParts();
    OpackTheorems.ContainerEnc(data, st.pos, (0xd0 + n) as byte, n, WrittenAll(items));
    ParseItems(data, OpackTheorems.Inside(st), depth, n, [], items, ws);
    assert [] + SaysAll(items, ws).value == SaysAll(items, ws).value;
    OpackTheorems.ParseContainer(true, data, st, depth, n);
  }

  lemma NoParts()
    ensures LevelsAll([]) == 0 && LevelsPairs([]) == 0
  {
  }

  lemma {:induction false} ParseTable(data: bytes, st: State, depth: nat, pairs: seq<Pair>, counted: bool,
                                      ws: seq<Value>)
    requires var d := Table(pairs, counted); Good(d) && Says(d, ws).Some?
    requires var d := Table(pairs, counted);
             Fits(data, st, depth, Written(d), Levels(d), Parts(d), Memory(d, ws), ws)
    ensures var d := Table(pairs, counted);
            && st.pos <= |data| && st.budget >= Memory(d, ws)
            && Parse(true, data, st, depth)
               == Ok((Says(d, ws).value, Behind(st, |Written(d)|, ws + Words(d), Parts(d), Memory(d, ws))))
    decreases pairs, 2
  {
    hide Parse, ParsePairs, At, Distinct, WrittenPairs, WordsPairs, LevelsPairs, PartsPairs, MemoryPairs, SaysPairs;
    var n := if counted then |pairs| else 15;
    NoParts();
    OpackTheorems.ContainerEnc(data, st.pos, (0xe0 + n) as byte, n, WrittenPairs(pairs));
    ParseAllPairs(data, OpackTheorems.Inside(st), depth, n, [], pairs, ws);
    assert [] + SaysPairs(pairs, ws).value == SaysPairs(pairs, ws).value;
    OpackTheorems.ParseContainer(true, data, st, depth, n);
  }

  lemma {:induction false} ParseItems(data: bytes, st: State, depth: nat, n: nat, acc: seq<Value>, items: seq<Draft>,
                                      ws: seq<Value>)
    requires n <= 15 && (n < 15 ==> |acc| + |items| == n)
    requires (forall i :: 0 <= i < |items| ==> Good(items[i])) && SaysAll(items, ws).Some?
    requires Fits(data, st, depth + (if items == [] then 0 else 1), WrittenAll(items), LevelsAll(items),
                  PartsAll(items), MemoryAll(items, ws), ws)
    requires n == 15 ==> At(data, st.pos + |WrittenAll(items)|, [3])
    ensures st.pos <= |data| && st.budget >= MemoryAll(items, ws)
    ensures ParseAll(true, data, st, depth, n, acc)
         == Ok((acc + SaysAll(items, ws).value,
                Behind(st, |WrittenAll(items)| + (if n == 15 then 1 else 0), ws + WordsAll(items), PartsAll(items),
                       MemoryAll(items, ws))))
    decreases items, 1
  {
    hide Parse, ParseAll, Written, At, Parts, Levels, Memory, Words, Says, Good, Distinct;
    AtLength(data, st.pos, WrittenAll(items));
    OpackTheorems.NoItems(true, data, st, depth, n, acc);
    if items == [] {
      NothingMore(ws);
      NothingMore(acc);
      OpackTheorems.TerminatorAt(data, st.pos, n);
    } else {
      var d, rest := items[0], items[1..];
      WrittenStarts(d);
      AtConcat(data, st.pos, Written(d), WrittenAll(rest));
      AtIndex(data, st.pos, Written(d), 0);
      ParseDraft(data, st, depth + 1, d, ws);
      OpackTheorems.OneItemMore(true, data, st, depth, n, acc);
      var s := Behind(st, |Written(d)|, ws + Words(d), Parts(d), Memory(d, ws));
      ParseItems(data, s, depth, n, acc + [Says(d, ws).value], rest, ws + Words(d));
      ItemsCons(acc, Says(d, ws).value, SaysAll(rest, ws + Words(d)).value, ws, Words(d), WordsAll(rest));
    }
  }

  lemma ItemsCons<T>(acc: seq<T>, v: T, more: seq<T>, ws: seq<Value>, one: seq<Value>, others: seq<Value>)
    ensures acc + [v] + more == acc + ([v] + more) && ws + one + others == ws + (one + others)
  {
  }

  lemma {:induction false} ParsePair(data: bytes, st: State, depth: nat, p: Pair, ws: seq<Value>)
    requires Good(p.key) && Good(p.value) && SaysPair(p, ws).Some?
    requires Fits(data, st, depth, WrittenPair(p), LevelsPair(p), PartsPair(p), MemoryPair(p, ws), ws)
    ensures st.pos <= |data| && st.budget >= MemoryPair(p, ws)
    ensures ParseEntry(true, data, st, depth)
         == Ok((SaysPair(p, ws).value,
                Behind(st, |WrittenPair(p)|, ws + WordsPair(p), PartsPair(p), MemoryPair(p, ws))))
    decreases p, 1
  {
    hide Parse, Written, At, Parts, Levels, Memory, Words, Says, Good, Distinct;
    AtConcat(data, st.pos, Written(p.key), Written(p.value));
    ParseDraft(data, st, depth, p.key, ws);
    var s := Behind(st, |Written(p.key)|, ws + Words(p.key), Parts(p.key), Memory(p.key, ws));
    ParseDraft(data, s, depth, p.value, ws + Words(p.key));
    ItemsCons([], 0, [], ws, Words(p.key), Words(p.value));
  }

  lemma {:induction false} ParseAllPairs(data: bytes, st: State, depth: nat, n: nat, acc: seq<Entry>, pairs: seq<Pair>,
                                         ws: seq<Value>)
    requires n <= 15 && (n < 15 ==> |acc| + |pairs| == n)
    requires (forall i :: 0 <= i < |pairs| ==> Good(pairs[i].key) && Good(pairs[i].value)) && SaysPairs(pairs, ws).Some?
    requires Fits(data, st, depth + (if pairs == [] then 0 else 1), WrittenPairs(pairs), LevelsPairs(pairs),
                  PartsPairs(pairs), MemoryPairs(pairs, ws), ws)
    requires n == 15 ==> At(data, st.pos + |WrittenPairs(pairs)|, [3])
    ensures st.pos <= |data| && st.budget >= MemoryPairs(pairs, ws)
    ensures ParsePairs(true, data, st, depth, n, acc)
         == Ok((acc + SaysPairs(pairs, ws).value,
                Behind(st, |WrittenPairs(pairs)| + (if n == 15 then 1 else 0), ws + WordsPairs(pairs),
                       PartsPairs(pairs), MemoryPairs(pairs, ws))))
    decreases pairs, 1
  {
    hide ParseEntry, ParsePairs, WrittenPair, At, PartsPair, LevelsPair, MemoryPair, WordsPair, SaysPair, Good,
      Distinct;
    AtLength(data, st.pos, WrittenPairs(pairs));
    OpackTheorems.NoPairs(true, data, st, depth, n, acc);
    if pairs == [] {
      NothingMore(ws);
      assert acc + [] == acc;
      OpackTheorems.TerminatorAt(data, st.pos, n);
    } else {
      var p, rest := pairs[0], pairs[1..];
      PairStarts(p);
      AtConcat(data, st.pos, WrittenPair(p), WrittenPairs(rest));
      AtIndex(data, st.pos, WrittenPair(p), 0);
      ParsePair(data, st, depth + 1, p, ws);
      OpackTheorems.OnePairMore(true, data, st, depth, n, acc);
      var s := Behind(st, |WrittenPair(p)|, ws + WordsPair(p), PartsPair(p), MemoryPair(p, ws));
      ParseAllPairs(data, s, depth, n, acc + [SaysPair(p, ws).value], rest, ws + WordsPair(p));
      ItemsCons(acc, SaysPair(p, ws).value, SaysPairs(rest, ws + WordsPair(p)).value, ws, WordsPair(p),
                WordsPairs(rest));
    }
  }

  lemma PairStarts(p: Pair)
    requires Good(p.key)
    ensures WrittenPair(p) != [] && WrittenPair(p)[0] != 3
  {
    hide Written;
    WrittenStarts(p.key);
  }

  /** The limits of the decoder. */
  ghost predicate WithinLimits(d: Draft) {
    |Written(d)| <= 4 * 1024 * 1024 && Levels(d) <= 64 && Parts(d) <= 65536 && Memory(d, []) <= 16 * 1024 * 1024
  }

  /** Every draft within the limits is decoded as what it says. */
  lemma DraftIsRead(d: Draft)
    requires Good(d) && Says(d, []).Some? && WithinLimits(d)
    ensures DecodeF(Written(d)) == Ok(Says(d, []).value)
  {
    hide Written, Parse, Says, Good, Levels, Parts, Memory, Words;
    assert At(Written(d), 0, Written(d)) && Distinct([]) == [];
    ParseDraft(Written(d), START, 0, d, []);
  }
}

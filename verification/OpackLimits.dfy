/** The decoder's limits, on every input it accepts, back references included. */
module OpackLimits {
  import opened Bytes
  import opened OpackValue
  import opened OpackEncode
  import opened OpackDecode
  import opened OpackTheorems
  import Utf8

  predicate Scalars(objects: seq<Value>) {
    forall i :: 0 <= i < |objects| ==> !IsContainer(objects[i]) && WellFormed(objects[i])
  }

  /** From `st` to `s` the decoder read values of the given total size: it counted each node, paid for each
      node and byte, never unlearned an object, and learned scalars only. Without back references it paid
      no more than the bytes it read warrant. */
  predicate Progress(refs: bool, st: State, s: State, nodes: nat, payload: nat) {
    && s.count == st.count + nodes
    && st.budget - s.budget >= 32 * nodes + payload
    && st.objects <= s.objects
    && Scalars(s.objects)
    && (!refs ==> st.budget - s.budget <= 32 * nodes + 2 * (s.pos - st.pos))
  }

  lemma RememberKeepsScalars(st: State, v: Value)
    requires Scalars(st.objects) && !IsContainer(v) && WellFormed(v)
    ensures Scalars(Remember(st, v).objects) && st.objects <= Remember(st, v).objects
    ensures Remember(st, v).(objects := st.objects) == st
  {
  }

  lemma FixedIsScalar(t: byte, b: bytes)
    requires IsFixed(t) && |b| == FixedWidth(t)
    ensures WellFormed(FixedValue(t, b)) && !IsContainer(FixedValue(t, b)) && Payload(FixedValue(t, b)) == 0
  {
    PowFacts();
  }

  /** A scalar `v` read between `st` and `s`, paid for by at least its bytes. */
  predicate Made(st: State, v: Value, s: State) {
    && WellFormed(v) && !IsContainer(v)
    && s.count == st.count
    && st.budget - s.budget >= Payload(v)
    && st.objects <= s.objects && Scalars(s.objects)
  }

  /** The same, at no more than twice the bytes moved over. */
  predicate MadePlain(st: State, v: Value, s: State) {
    Made(st, v, s) && st.budget - s.budget <= 2 * (s.pos - st.pos)
  }

  lemma StrProgress(data: bytes, st: State, n: nat)
    requires st.pos <= |data| && Scalars(st.objects) && StrOf(data, st, n).Ok?
    ensures MadePlain(st, StrOf(data, st, n).value.0, StrOf(data, st, n).value.1)
  {
    RememberKeepsScalars(st, StrOf(data, st, n).value.0);
  }

  lemma DataProgress(data: bytes, st: State, n: nat)
    requires st.pos <= |data| && Scalars(st.objects) && DataOf(data, st, n).Ok?
    ensures MadePlain(st, DataOf(data, st, n).value.0, DataOf(data, st, n).value.1)
  {
    RememberKeepsScalars(st, DataOf(data, st, n).value.0);
  }

  lemma FixedProgress(data: bytes, st: State, t: byte)
    requires st.pos <= |data| && Scalars(st.objects) && IsFixed(t) && TakeF(data, st, FixedWidth(t)).Ok?
    ensures var taken := TakeF(data, st, FixedWidth(t)).value;
            MadePlain(st, FixedValue(t, taken.0), Remember(taken.1, FixedValue(t, taken.0)))
  {
    var taken := TakeF(data, st, FixedWidth(t)).value;
    FixedIsScalar(t, taken.0);
    RememberKeepsScalars(taken.1, FixedValue(t, taken.0));
  }

  lemma RefProgress(st: State, index: nat)
    requires Scalars(st.objects) && RefOf(st, index).Ok?
    ensures Made(st, RefOf(st, index).value.0, RefOf(st, index).value.1)
  {
  }

  lemma ScalarProgress(refs: bool, data: bytes, st: State, t: byte)
    requires st.pos <= |data| && Scalars(st.objects) && ScalarOf(refs, data, st, t).Ok?
    ensures var r := ScalarOf(refs, data, st, t).value;
            if refs then Made(st, r.0, r.1) else MadePlain(st, r.0, r.1)
  {
    hide StrOf, DataOf, RefOf, StrLength, DataLength, RefIndex, FixedValue, Remember, Scalars, IsFixed, FixedWidth;
    if 8 <= t <= 0x2f || t == 1 || t == 2 || t == 4 {
    } else if IsFixed(t) {
      FixedProgress(data, st, t);
    } else if 0x40 <= t <= 0x64 {
      var n := StrLength(data, st, t).value;
      StrProgress(data, n.1, n.0);
    } else if 0x70 <= t <= 0x94 {
      var n := DataLength(data, st, t).value;
      DataProgress(data, n.1, n.0);
    } else {
      var i := RefIndex(data, st, t).value;
      RefProgress(i.1, i.0);
    }
  }

  /** What a container being read has grown to, from `st` at `acc` to `s` at `items`. */
  predicate AllProgress(refs: bool, st: State, depth: nat, acc: seq<Value>, items: seq<Value>, s: State) {
    && WellFormed(Array(items))
    && (items != [] ==> depth + 1 + NestAll(items) <= MAX_DEPTH)
    && s.count <= MAX_NODES
    && NodesAll(items) >= NodesAll(acc) && PayloadAll(items) >= PayloadAll(acc)
    && Progress(refs, st, s, NodesAll(items) - NodesAll(acc), PayloadAll(items) - PayloadAll(acc))
  }

  predicate PairsProgress(refs: bool, st: State, depth: nat, acc: seq<Entry>, pairs: seq<Entry>, s: State) {
    && WellFormed(Dict(pairs))
    && (pairs != [] ==> depth + 1 + NestPairs(pairs) <= MAX_DEPTH)
    && s.count <= MAX_NODES
    && NodesPairs(pairs) >= NodesPairs(acc) && PayloadPairs(pairs) >= PayloadPairs(acc)
    && Progress(refs, st, s, NodesPairs(pairs) - NodesPairs(acc), PayloadPairs(pairs) - PayloadPairs(acc))
  }

  /** A parsed value is well formed, no deeper than the depth left, and paid for. */
  predicate ValueProgress(refs: bool, st: State, depth: nat, v: Value, s: State) {
    && WellFormed(v)
    && depth + Nest(v) <= MAX_DEPTH
    && s.count <= MAX_NODES
    && Progress(refs, st, s, Nodes(v), Payload(v))
  }

  lemma {:induction false} ParseProgress(refs: bool, data: bytes, st: State, depth: nat)
    requires st.pos <= |data| && Scalars(st.objects) && Parse(refs, data, st, depth).Ok?
    ensures ValueProgress(refs, st, depth, Parse(refs, data, st, depth).value.0, Parse(refs, data, st, depth).value.1)
    decreases |data| - st.pos, 0
  {
    hide ScalarOf, ParseAll, ParsePairs, Scalars, NodesAll, NodesPairs, PayloadAll, PayloadPairs, NestAll, NestPairs;
    EmptyTotals();
    var t := data[st.pos];
    if 0xd0 <= t <= 0xdf {
      ParseAllProgress(refs, data, Inside(st), depth, t as int - 0xd0, []);
    } else if 0xe0 <= t <= 0xef {
      ParsePairsProgress(refs, data, Inside(st), depth, t as int - 0xe0, []);
    } else {
      ScalarProgress(refs, data, Inside(st), t);
    }
  }

  lemma {:induction false} ParseAllProgress(refs: bool, data: bytes, st: State, depth: nat, n: nat, acc: seq<Value>)
    requires st.pos <= |data| && Scalars(st.objects) && depth <= MAX_DEPTH && st.count <= MAX_NODES
    requires WellFormed(Array(acc)) && (acc != [] ==> depth + 1 + NestAll(acc) <= MAX_DEPTH)
    requires ParseAll(refs, data, st, depth, n, acc).Ok?
    ensures var r := ParseAll(refs, data, st, depth, n, acc).value; AllProgress(refs, st, depth, acc, r.0, r.1)
    decreases |data| - st.pos, 1
  {
    hide Parse, Scalars, Nodes, Payload, Nest, NodesAll, PayloadAll, NestAll;
    if !(n < 15 && |acc| == n) && !AtEnd(data, st, n) {
      var (v, s) := Parse(refs, data, st, depth + 1).value;
      ParseProgress(refs, data, st, depth + 1);
      EmptyTotals();
      NodesSnoc(acc, v);
      ParseAllProgress(refs, data, s, depth, n, acc + [v]);
    }
  }

  lemma {:induction false} ParsePairsProgress(refs: bool, data: bytes, st: State, depth: nat, n: nat, acc: seq<Entry>)
    requires st.pos <= |data| && Scalars(st.objects) && depth <= MAX_DEPTH && st.count <= MAX_NODES
    requires WellFormed(Dict(acc)) && (acc != [] ==> depth + 1 + NestPairs(acc) <= MAX_DEPTH)
    requires ParsePairs(refs, data, st, depth, n, acc).Ok?
    ensures var r := ParsePairs(refs, data, st, depth, n, acc).value; PairsProgress(refs, st, depth, acc, r.0, r.1)
    decreases |data| - st.pos, 2
  {
    hide ParseEntry, Scalars, NodesEntry, PayloadEntry, NestEntry, NodesPairs, PayloadPairs, NestPairs;
    if !(n < 15 && |acc| == n) && !AtEnd(data, st, n) {
      var (e, s) := ParseEntry(refs, data, st, depth + 1).value;
      ParseEntryProgress(refs, data, st, depth + 1);
      EmptyTotals();
      NodesPairsSnoc(acc, e);
      ParsePairsProgress(refs, data, s, depth, n, acc + [e]);
    }
  }

  lemma {:induction false} ParseEntryProgress(refs: bool, data: bytes, st: State, depth: nat)
    requires st.pos <= |data| && Scalars(st.objects) && ParseEntry(refs, data, st, depth).Ok?
    ensures var (e, s) := ParseEntry(refs, data, st, depth).value;
            && WellFormed(e.key) && WellFormed(e.value)
            && depth + NestEntry(e) <= MAX_DEPTH
            && s.count <= MAX_NODES
            && Progress(refs, st, s, NodesEntry(e), PayloadEntry(e))
    decreases |data| - st.pos, 1
  {
    hide Parse, Scalars, Nodes, Payload, Nest;
    ParseProgress(refs, data, st, depth);
    ParseProgress(refs, data, Parse(refs, data, st, depth).value.1, depth);
  }

  /** Every accepted input decodes to a value within the node, depth and memory limits, however many back
      references it uses; and the decoder's own counter is that value's node count. */
  lemma AcceptedWithinLimits(data: bytes)
    requires DecodeF(data).Ok?
    ensures var v := DecodeF(data).value;
            && WellFormed(v) && Nest(v) <= MAX_DEPTH && Nodes(v) <= MAX_NODES
            && 32 * Nodes(v) + Payload(v) <= MAX_BUDGET
            && Parse(true, data, START, 0).value.1.count == Nodes(v)
  {
    ParseProgress(true, data, START, 0);
  }

  /** Writing an accepted value out again, now without references, decodes to the same value. */
  lemma Reencode(data: bytes)
    requires DecodeF(data).Ok? && |Enc(DecodeF(data).value)| <= MAX_INPUT
    ensures DecodeF(Enc(DecodeF(data).value)) == DecodeF(data)
  {
    AcceptedWithinLimits(data);
    RoundTrip(DecodeF(data).value);
  }

  /** `a` succeeds whenever `b` does, with the same value, from a budget of `bonus` more. */
  predicate Covers<T(==)>(a: Result<(T, State), Error>, b: Result<(T, State), Error>, bonus: int) {
    b.Ok? && b.value.1.budget + bonus >= 0 ==>
      a.Ok? && a.value.0 == b.value.0 && a.value.1 == b.value.1.(budget := b.value.1.budget + bonus)
  }

  /** Another budget changes nothing as long as what the parse spends is there, and allowing references
      changes nothing for input that needs none. */
  lemma LengthBudget(data: bytes, st: State, t: byte, bonus: int)
    requires st.pos <= |data| && st.budget + bonus >= 0
    ensures 0x40 <= t <= 0x64 ==>
              Covers(StrLength(data, st.(budget := st.budget + bonus), t), StrLength(data, st, t), bonus)
    ensures 0x70 <= t <= 0x94 ==>
              Covers(DataLength(data, st.(budget := st.budget + bonus), t), DataLength(data, st, t), bonus)
    ensures 0xa0 <= t <= 0xc4 ==>
              Covers(RefIndex(data, st.(budget := st.budget + bonus), t), RefIndex(data, st, t), bonus)
  {
  }

  lemma BodyBudget(data: bytes, st: State, n: nat, bonus: int)
    requires st.pos <= |data| && st.budget + bonus >= 0
    ensures Covers(StrOf(data, st.(budget := st.budget + bonus), n), StrOf(data, st, n), bonus)
    ensures Covers(DataOf(data, st.(budget := st.budget + bonus), n), DataOf(data, st, n), bonus)
    ensures Covers(RefOf(st.(budget := st.budget + bonus), n), RefOf(st, n), bonus)
  {
    hide Known, Utf8.Valid;
  }

  lemma ScalarBudget(refs: bool, data: bytes, st: State, t: byte, bonus: int)
    requires st.pos <= |data| && st.budget + bonus >= 0
    ensures Covers(ScalarOf(true, data, st.(budget := st.budget + bonus), t), ScalarOf(refs, data, st, t), bonus)
  {
    hide StrOf, DataOf, RefOf, StrLength, DataLength, RefIndex, Known, FixedValue, IsFixed, FixedWidth;
    LengthBudget(data, st, t, bonus);
    if 0x40 <= t <= 0x64 && StrLength(data, st, t).Ok? {
      BodyBudget(data, StrLength(data, st, t).value.1, StrLength(data, st, t).value.0, bonus);
    } else if 0x70 <= t <= 0x94 && DataLength(data, st, t).Ok? {
      BodyBudget(data, DataLength(data, st, t).value.1, DataLength(data, st, t).value.0, bonus);
    } else if 0xa0 <= t <= 0xc4 && RefIndex(data, st, t).Ok? {
      BodyBudget(data, RefIndex(data, st, t).value.1, RefIndex(data, st, t).value.0, bonus);
    }
  }

  lemma {:induction false} ParseBudget(refs: bool, data: bytes, st: State, depth: nat, bonus: int)
    requires st.pos <= |data| && st.budget + bonus >= 0
    ensures Covers(Parse(true, data, st.(budget := st.budget + bonus), depth), Parse(refs, data, st, depth), bonus)
    decreases |data| - st.pos, 0
  {
    hide ScalarOf, ParseAll, ParsePairs;
    var r := Parse(refs, data, st, depth);
    if r.Ok? && r.value.1.budget + bonus >= 0 {
      var t := data[st.pos];
      if 0xd0 <= t <= 0xdf {
        ParseAllBudget(refs, data, Inside(st), depth, t as int - 0xd0, [], bonus);
      } else if 0xe0 <= t <= 0xef {
        ParsePairsBudget(refs, data, Inside(st), depth, t as int - 0xe0, [], bonus);
      } else {
        ScalarBudget(refs, data, Inside(st), t, bonus);
      }
    }
  }

  lemma {:induction false} ParseAllBudget(refs: bool, data: bytes, st: State, depth: nat, n: nat, acc: seq<Value>,
                                          bonus: int)
    requires st.pos <= |data| && st.budget + bonus >= 0
    ensures Covers(ParseAll(true, data, st.(budget := st.budget + bonus), depth, n, acc),
                   ParseAll(refs, data, st, depth, n, acc), bonus)
    decreases |data| - st.pos, 1
  {
    hide Parse;
    var r := Parse(refs, data, st, depth + 1);
    if r.Ok? && r.value.1.budget + bonus >= 0 {
      ParseBudget(refs, data, st, depth + 1, bonus);
      ParseAllBudget(refs, data, r.value.1, depth, n, acc + [r.value.0], bonus);
    }
  }

  lemma {:induction false} ParsePairsBudget(refs: bool, data: bytes, st: State, depth: nat, n: nat, acc: seq<Entry>,
                                            bonus: int)
    requires st.pos <= |data| && st.budget + bonus >= 0
    ensures Covers(ParsePairs(true, data, st.(budget := st.budget + bonus), depth, n, acc),
                   ParsePairs(refs, data, st, depth, n, acc), bonus)
    decreases |data| - st.pos, 2
  {
    hide ParseEntry;
    var r := ParseEntry(refs, data, st, depth + 1);
    if r.Ok? && r.value.1.budget + bonus >= 0 {
      ParseEntryBudget(refs, data, st, depth + 1, bonus);
      ParsePairsBudget(refs, data, r.value.1, depth, n, acc + [r.value.0], bonus);
    }
  }

  lemma {:induction false} ParseEntryBudget(refs: bool, data: bytes, st: State, depth: nat, bonus: int)
    requires st.pos <= |data| && st.budget + bonus >= 0
    ensures Covers(ParseEntry(true, data, st.(budget := st.budget + bonus), depth), ParseEntry(refs, data, st, depth),
                   bonus)
    decreases |data| - st.pos, 1
  {
    hide Parse;
    var r := Parse(refs, data, st, depth);
    if r.Ok? && r.value.1.budget + bonus >= 0 {
      ParseBudget(refs, data, st, depth, bonus);
      ParseBudget(refs, data, r.value.1, depth, bonus);
    }
  }

  /** Input that some budget lets through without back references, the decoder's own budget lets through too:
      on such input the allocation limit is never what refuses. */
  lemma BudgetNeverRefusesPlainInput(data: bytes, budget: nat)
    requires |data| <= MAX_INPUT
    requires Parse(false, data, START.(budget := budget), 0).Ok?
    requires Parse(false, data, START.(budget := budget), 0).value.1.pos == |data|
    ensures DecodeF(data) == Ok(Parse(false, data, START.(budget := budget), 0).value.0)
  {
    ParseProgress(false, data, START.(budget := budget), 0);
    ParseBudget(false, data, START.(budget := budget), 0, MAX_BUDGET - budget);
  }
}

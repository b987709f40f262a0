/** The OPACK inputs the decoder accepts, told from what an encoder may write: every width of a number or a length,
    containers with a count or a terminator, and back references. Each is decoded as what it says, and nothing else is
    accepted. */
module OpackDrafts {
  import opened Bytes
  import opened OpackValue
  import opened OpackDecode
  import Utf8

  /** A value as it is written. `w` is the number of bytes a number or a length takes, none when the tag holds it. */
  datatype Draft =
    | One(v: Value)
    | Number(n: nat, w: nat)
    | Single(bits: nat)
    | Double(bits: nat)
    | Date(ticks: nat)
    | Id(id: bytes)
    | Text(s: bytes, w: nat)
    | Blob(b: bytes, w: nat)
    | Again(index: nat, w: nat)
    | List(items: seq<Draft>, counted: bool)
    | Table(pairs: seq<Pair>, counted: bool)

  datatype Pair = Pair(key: Draft, value: Draft)

  // ----- its bytes -----

  /** The power of two that a width is. */
  function Log(w: nat): nat {
    if w <= 1 then 0 else if w == 2 then 1 else if w == 4 then 2 else 3
  }

  predicate IsWidth(w: nat) {
    w == 1 || w == 2 || w == 4 || w == 8
  }

  function OneByte(v: Value): byte {
    match v
    case Bool(flag) => if flag then 1 else 2
    case Int(n) => if n < 0x28 then (8 + n) as byte else 0
    case _ => 4
  }

  function Written(d: Draft): (r: bytes) {
    match d
    case One(v) => [OneByte(v)]
    case Number(n, w) => [(0x30 + Log(w)) as byte] + Le(n, w)
    case Single(bits) => [0x35] + Le(bits, 4)
    case Double(bits) => [0x36] + Le(bits, 8)
    case Date(t) => [6] + Le(t, 8)
    case Id(id) => [5] + id
    case Text(s, w) => TextHead(|s|, w) + s
    case Blob(b, w) => BlobHead(|b|, w) + b
    case Again(i, w) => AgainHead(i, w)
    case List(items, counted) =>
      if counted then [(0xd0 + Min(|items|, 14)) as byte] + WrittenAll(items) else [0xdf] + WrittenAll(items) + [3]
    case Table(pairs, counted) =>
      if counted then [(0xe0 + Min(|pairs|, 14)) as byte] + WrittenPairs(pairs) else [0xef] + WrittenPairs(pairs) + [3]
  }

  function TextHead(n: nat, w: nat): bytes {
    if w == 0 then [(0x40 + Min(n, 32)) as byte] else [(0x60 + Min(w, 4)) as byte] + Le(n, w)
  }

  function BlobHead(n: nat, w: nat): bytes {
    if w == 0 then [(0x70 + Min(n, 32)) as byte] else [(0x91 + Log(w)) as byte] + Le(n, w)
  }

  function AgainHead(i: nat, w: nat): bytes {
    if w == 0 then [(0xa0 + Min(i, 32)) as byte] else [(0xc0 + Min(w, 4)) as byte] + Le(i, w)
  }

  function WrittenAll(items: seq<Draft>): bytes {
    if items == [] then [] else Written(items[0]) + WrittenAll(items[1..])
  }

  function WrittenPair(p: Pair): bytes {
    Written(p.key) + Written(p.value)
  }

  function WrittenPairs(pairs: seq<Pair>): bytes {
    if pairs == [] then [] else WrittenPair(pairs[0]) + WrittenPairs(pairs[1..])
  }

  // ----- what may be written -----

  predicate Good(d: Draft) {
    match d
    case One(v) => v.Null? || v.Bool? || (v.Int? && v.n < 0x28)
    case Number(n, w) => IsWidth(w) && n < Pow256(w)
    case Single(bits) => bits <= U32_MAX
    case Double(bits) => bits <= U64_MAX
    case Date(t) => t <= U64_MAX
    case Id(id) => |id| == 16
    case Text(s, w) => Utf8.Valid(s) && (if w == 0 then |s| <= 32 else w <= 4 && |s| < Pow256(w))
    case Blob(b, w) => |b| <= 4 * 1024 * 1024 && (if w == 0 then |b| <= 32 else IsWidth(w) && |b| < Pow256(w))
    case Again(i, w) => if w == 0 then i <= 32 else w <= 4 && i < Pow256(w)
    case List(items, counted) => (counted ==> |items| < 15) && forall i :: 0 <= i < |items| ==> Good(items[i])
    case Table(pairs, counted) =>
      (counted ==> |pairs| < 15) && forall i :: 0 <= i < |pairs| ==> Good(pairs[i].key) && Good(pairs[i].value)
  }

  // ----- what it says -----

  /** The scalars written out that count as remembered, in order. */
  function Words(d: Draft): seq<Value> {
    match d
    case Number(n, _) => [Int(n)]
    case Single(bits) => [Float(if bits <= U32_MAX then Widen(bits) else 0)]
    case Double(bits) => [Float(bits)]
    case Date(t) => [Time(t)]
    case Id(id) => [Uuid(id)]
    case Text(s, _) => [Str(s)]
    case Blob(b, _) => [Data(b)]
    case List(items, _) => WordsAll(items)
    case Table(pairs, _) => WordsPairs(pairs)
    case _ => []
  }

  function WordsAll(items: seq<Draft>): seq<Value> {
    if items == [] then [] else Words(items[0]) + WordsAll(items[1..])
  }

  function WordsPair(p: Pair): seq<Value> {
    Words(p.key) + Words(p.value)
  }

  function WordsPairs(pairs: seq<Pair>): seq<Value> {
    if pairs == [] then [] else WordsPair(pairs[0]) + WordsPairs(pairs[1..])
  }

  predicate Occurs(ws: seq<Value>, v: Value) {
    exists i :: 0 <= i < |ws| && Same(ws[i], v)
  }

  /** Each of them once, where it first occurs. */
  function Distinct(ws: seq<Value>): seq<Value> {
    if ws == [] then []
    else
      var k := |ws| - 1;
      if Occurs(ws[..k], ws[k]) then Distinct(ws[..k]) else Distinct(ws[..k]) + [ws[k]]
  }

  /** The value, behind the words `ws`: a back reference is the distinct word of its number. */
  function Says(d: Draft, ws: seq<Value>): (r: Option<Value>) {
    match d
    case One(v) => Some(v)
    case Again(i, _) => if i < |Distinct(ws)| then Some(Distinct(ws)[i]) else None
    case List(items, _) =>
      (match SaysAll(items, ws) case None => None case Some(l) => Some(Array(l)))
    case Table(pairs, _) =>
      (match SaysPairs(pairs, ws) case None => None case Some(l) => Some(Dict(l)))
    case _ => if Words(d) == [] then None else Some(Words(d)[0])
  }

  function SaysAll(items: seq<Draft>, ws: seq<Value>): (r: Option<seq<Value>>)
    ensures r.Some? ==> |r.value| == |items|
  {
    if items == [] then Some([])
    else match (Says(items[0], ws), SaysAll(items[1..], ws + Words(items[0])))
      case (Some(v), Some(rest)) => Some([v] + rest)
      case _ => None
  }

  function SaysPair(p: Pair, ws: seq<Value>): Option<Entry> {
    match (Says(p.key, ws), Says(p.value, ws + Words(p.key)))
    case (Some(k), Some(v)) => Some(Entry(k, v))
    case _ => None
  }

  function SaysPairs(pairs: seq<Pair>, ws: seq<Value>): (r: Option<seq<Entry>>)
    ensures r.Some? ==> |r.value| == |pairs|
  {
    if pairs == [] then Some([])
    else match (SaysPair(pairs[0], ws), SaysPairs(pairs[1..], ws + WordsPair(pairs[0])))
      case (Some(e), Some(rest)) => Some([e] + rest)
      case _ => None
  }

  // ----- what the limits count -----

  function Parts(d: Draft): (n: nat)
    ensures n >= 1
  {
    match d
    case List(items, _) => 1 + PartsAll(items)
    case Table(pairs, _) => 1 + PartsPairs(pairs)
    case _ => 1
  }

  function PartsAll(items: seq<Draft>): nat {
    if items == [] then 0 else Parts(items[0]) + PartsAll(items[1..])
  }

  function PartsPair(p: Pair): nat {
    Parts(p.key) + Parts(p.value)
  }

  function PartsPairs(pairs: seq<Pair>): nat {
    if pairs == [] then 0 else PartsPair(pairs[0]) + PartsPairs(pairs[1..])
  }

  function Levels(d: Draft): nat {
    match d
    case List(items, _) => if items == [] then 0 else 1 + LevelsAll(items)
    case Table(pairs, _) => if pairs == [] then 0 else 1 + LevelsPairs(pairs)
    case _ => 0
  }

  function LevelsAll(items: seq<Draft>): nat {
    if items == [] then 0 else Max(Levels(items[0]), LevelsAll(items[1..]))
  }

  function LevelsPair(p: Pair): nat {
    Max(Levels(p.key), Levels(p.value))
  }

  function LevelsPairs(pairs: seq<Pair>): nat {
    if pairs == [] then 0 else Max(LevelsPair(pairs[0]), LevelsPairs(pairs[1..]))
  }

  /** The memory the decoder sets aside: 32 for each value, twice a string or data, and for a reference what it refers
      to. */
  function Memory(d: Draft, ws: seq<Value>): nat {
    match d
    case Text(s, _) => 32 + 2 * |s|
    case Blob(b, _) => 32 + 2 * |b|
    case Again(i, _) => 32 + if i < |Distinct(ws)| then SizeOf(Distinct(ws)[i]) else 0
    case List(items, _) => 32 + MemoryAll(items, ws)
    case Table(pairs, _) => 32 + MemoryPairs(pairs, ws)
    case _ => 32
  }

  function SizeOf(v: Value): nat {
    if v.Str? then |v.s| else if v.Data? then |v.b| else 16
  }

  function MemoryAll(items: seq<Draft>, ws: seq<Value>): nat {
    if items == [] then 0 else Memory(items[0], ws) + MemoryAll(items[1..], ws + Words(items[0]))
  }

  function MemoryPair(p: Pair, ws: seq<Value>): nat {
    Memory(p.key, ws) + Memory(p.value, ws + Words(p.key))
  }

  function MemoryPairs(pairs: seq<Pair>, ws: seq<Value>): nat {
    if pairs == [] then 0 else MemoryPair(pairs[0], ws) + MemoryPairs(pairs[1..], ws + WordsPair(pairs[0]))
  }

  // ----- the table is the distinct words -----

  lemma SameChains(a: Value, b: Value, c: Value)
    requires Same(a, b) && Same(b, c)
    ensures Same(a, c)
  {
  }

  lemma {:induction false} KnownIfOccurred(ws: seq<Value>, v: Value)
    ensures Known(Distinct(ws), v) <==> Occurs(ws, v)
    decreases |ws|
  {
    hide Same;
    if ws != [] {
      var k := |ws| - 1;
      var before, u, table := ws[..k], ws[k], Distinct(ws[..k]);
      KnownIfOccurred(before, v);
      if i :| 0 <= i < |before| && Same(before[i], v) {
        assert ws[i] == before[i];
      }
      if Occurs(before, u) {
        if Same(u, v) {
          var i :| 0 <= i < |before| && Same(before[i], u);
          SameChains(before[i], u, v);
        }
      } else {
        assert (table + [u])[|table|] == u;
        assert forall i :: 0 <= i < |table| ==> (table + [u])[i] == table[i];
      }
    }
  }

  lemma RememberIsDistinct(st: State, ws: seq<Value>, v: Value)
    requires st.objects == Distinct(ws)
    ensures Remember(st, v) == st.(objects := Distinct(ws + [v]))
  {
    KnownIfOccurred(ws, v);
    assert (ws + [v])[..|ws|] == ws;
    hide Known, Occurs;
  }

  /** Floats are the same if they are the same number: as sign and magnitude, both zeros being one; no NaN is. */
  function Signed(bits: nat): int {
    if bits < 0x8000_0000_0000_0000 then bits else 0x8000_0000_0000_0000 - bits
  }

  lemma SameMeans(a: nat, b: nat)
    requires a <= U64_MAX && b <= U64_MAX
    ensures Same(Float(a), Float(b)) <==> !NotANumber(a) && !NotANumber(b) && Signed(a) == Signed(b)
  {
  }

  /** All exponent bits set, and some bit of the fraction. */
  predicate NotANumber(bits: nat) {
    bits / 0x10_0000_0000_0000 % 0x800 == 0x7ff && bits % 0x10_0000_0000_0000 != 0
  }
}

/** The bounded OPACK decoder of src/opack.rs. */
module OpackDecode {
  import opened Bytes
  import opened OpackValue
  import Utf8

  const MAX_INPUT := 4 * 1024 * 1024
  const MAX_BUDGET := 16 * 1024 * 1024
  const MAX_DEPTH := 64
  const MAX_NODES := 65536

  datatype Error =
    | InputTooLong | UnexpectedEnd | AllocationLimit | NestingLimit | DataLimit
    | InvalidReference | InvalidUtf8 | UnsupportedTag | TrailingBytes

  /** What `Decoder` keeps between steps. */
  datatype State = State(pos: nat, objects: seq<Value>, count: nat, budget: nat)

  /** Rust's `==` on the scalar values the object table can hold: floats compare as IEEE 754 numbers. */
  predicate Same(a: Value, b: Value) {
    if a.Float? && b.Float? then
      !IsNan(a.bits) && !IsNan(b.bits) && (a.bits == b.bits || (IsZero(a.bits) && IsZero(b.bits)))
    else a == b
  }

  predicate IsNan(bits: nat) {
    bits % 0x8000_0000_0000_0000 > 0x7ff0_0000_0000_0000
  }

  predicate IsZero(bits: nat) {
    bits % 0x8000_0000_0000_0000 == 0
  }

  predicate Known(objects: seq<Value>, v: Value) {
    exists i :: 0 <= i < |objects| && Same(objects[i], v)
  }

  function Remember(st: State, v: Value): State {
    if Known(st.objects, v) then st else st.(objects := st.objects + [v])
  }

  function TakeF(data: bytes, st: State, n: nat): (r: Result<(bytes, State), Error>)
    requires st.pos <= |data|
    ensures r.Ok? ==> r.value.1 == st.(pos := st.pos + n) && st.pos + n <= |data| && |r.value.0| == n
  {
    if n <= |data| - st.pos then Ok((data[st.pos..st.pos + n], st.(pos := st.pos + n))) else Err(UnexpectedEnd)
  }

  function NumberF(data: bytes, st: State, n: nat): (r: Result<(nat, State), Error>)
    requires st.pos <= |data|
    ensures r.Ok? ==> r.value.1 == st.(pos := st.pos + n) && st.pos + n <= |data| && r.value.0 < Pow256(n)
  {
    match TakeF(data, st, n)
    case Err(e) => Err(e)
    case Ok((b, s)) => Ok((FromLe(b), s))
  }

  function ChargeF(st: State, n: nat): (r: Result<State, Error>)
    ensures r.Ok? ==> n <= st.budget && r.value == st.(budget := st.budget - n)
  {
    if n <= st.budget then Ok(st.(budget := st.budget - n)) else Err(AllocationLimit)
  }

  /** 1, 2, 4 or 8 bytes: `1 << k`. */
  function Width(k: nat): (w: nat)
    requires k <= 3
    ensures w <= 8
  {
    if k == 0 then 1 else if k == 1 then 2 else if k == 2 then 4 else 8
  }

  function StrLength(data: bytes, st: State, t: byte): (r: Result<(nat, State), Error>)
    requires st.pos <= |data| && 0x40 <= t <= 0x64
    ensures r.Ok? ==> r.value.1.(pos := st.pos) == st && st.pos <= r.value.1.pos <= |data|
  {
    if t <= 0x60 then Ok((t as int - 0x40, st)) else NumberF(data, st, t as int - 0x60)
  }

  function DataLength(data: bytes, st: State, t: byte): (r: Result<(nat, State), Error>)
    requires st.pos <= |data| && 0x70 <= t <= 0x94
    ensures r.Ok? ==> r.value.1.(pos := st.pos) == st && st.pos <= r.value.1.pos <= |data|
  {
    if t <= 0x90 then Ok((t as int - 0x70, st)) else NumberF(data, st, Width(t as int - 0x91))
  }

  function RefIndex(data: bytes, st: State, t: byte): (r: Result<(nat, State), Error>)
    requires st.pos <= |data| && 0xa0 <= t <= 0xc4
    ensures r.Ok? ==> r.value.1.(pos := st.pos) == st && st.pos <= r.value.1.pos <= |data|
  {
    if t <= 0xc0 then Ok((t as int - 0xa0, st)) else NumberF(data, st, t as int - 0xc0)
  }

  /** What a back reference to `v` costs. */
  function RefSize(v: Value): nat {
    match v case Str(s) => |s| case Data(b) => |b| case _ => 16
  }

  function StrOf(data: bytes, st: State, n: nat): (r: Result<(Value, State), Error>)
    requires st.pos <= |data|
  {
    match ChargeF(st, 2 * n)
    case Err(e) => Err(e)
    case Ok(s1) =>
      match TakeF(data, s1, n)
      case Err(e) => Err(e)
      case Ok((b, s2)) => if Utf8.Valid(b) then Ok((Str(b), Remember(s2, Str(b)))) else Err(InvalidUtf8)
  }

  function DataOf(data: bytes, st: State, n: nat): (r: Result<(Value, State), Error>)
    requires st.pos <= |data|
  {
    if n > MAX_INPUT then Err(DataLimit) else
    match ChargeF(st, 2 * n)
    case Err(e) => Err(e)
    case Ok(s1) =>
      match TakeF(data, s1, n)
      case Err(e) => Err(e)
      case Ok((b, s2)) => Ok((Data(b), Remember(s2, Data(b))))
  }

  function RefOf(st: State, index: nat): (r: Result<(Value, State), Error>) {
    if index >= |st.objects| then Err(InvalidReference) else
    match ChargeF(st, RefSize(st.objects[index]))
    case Err(e) => Err(e)
    case Ok(s) => Ok((st.objects[index], s))
  }

  /** Fixed-width scalars: tags 5, 6, 0x30..0x33, 0x35 and 0x36. */
  predicate IsFixed(t: byte) {
    t == 5 || t == 6 || 0x30 <= t <= 0x33 || t == 0x35 || t == 0x36
  }

  function FixedWidth(t: byte): (w: nat)
    requires IsFixed(t)
  {
    if t == 5 then 16 else if t == 6 || t == 0x36 then 8 else if t == 0x35 then 4 else Width(t as int - 0x30)
  }

  function FixedValue(t: byte, b: bytes): Value
    requires IsFixed(t) && |b| == FixedWidth(t)
  {
    if t == 5 then Uuid(b)
    else if t == 6 then Time(FromLe(b))
    else if t == 0x35 then assert Pow256(4) == U32_MAX + 1; Float(Widen(FromLe(b)))
    else if t == 0x36 then Float(FromLe(b))
    else Int(FromLe(b))
  }

  /** The value after a tag `t` that opens no container. Without `refs` a back reference is an unknown tag. */
  function ScalarOf(refs: bool, data: bytes, st: State, t: byte): (r: Result<(Value, State), Error>)
    requires st.pos <= |data|
    ensures r.Ok? ==> st.pos <= r.value.1.pos <= |data| && r.value.1.budget <= st.budget
  {
    if t == 1 then Ok((Bool(true), st))
    else if t == 2 then Ok((Bool(false), st))
    else if t == 4 then Ok((Null, st))
    else if 8 <= t <= 0x2f then Ok((Int(t as int - 8), st))
    else if IsFixed(t) then
      match TakeF(data, st, FixedWidth(t))
      case Err(e) => Err(e)
      case Ok((b, s)) => Ok((FixedValue(t, b), Remember(s, FixedValue(t, b))))
    else if 0x40 <= t <= 0x64 then
      match StrLength(data, st, t) case Err(e) => Err(e) case Ok((n, s)) => StrOf(data, s, n)
    else if 0x70 <= t <= 0x94 then
      match DataLength(data, st, t) case Err(e) => Err(e) case Ok((n, s)) => DataOf(data, s, n)
    else if refs && 0xa0 <= t <= 0xc4 then
      match RefIndex(data, st, t) case Err(e) => Err(e) case Ok((i, s)) => RefOf(s, i)
    else Err(UnsupportedTag)
  }

  /** One value at `st.pos`. */
  function Parse(refs: bool, data: bytes, st: State, depth: nat): (r: Result<(Value, State), Error>)
    requires st.pos <= |data|
    ensures r.Ok? ==> st.pos < r.value.1.pos <= |data| && r.value.1.budget <= st.budget
    decreases |data| - st.pos, 0
  {
    var s0 := st.(count := st.count + 1);
    if depth > MAX_DEPTH || s0.count > MAX_NODES then Err(NestingLimit) else
    match ChargeF(s0, 32)
    case Err(e) => Err(e)
    case Ok(s1) =>
      if st.pos == |data| then Err(UnexpectedEnd) else
      var t := data[st.pos];
      var s2 := s1.(pos := st.pos + 1);
      if 0xd0 <= t <= 0xdf then
        match ParseAll(refs, data, s2, depth, t as int - 0xd0, [])
        case Err(e) => Err(e)
        case Ok((items, s)) => Ok((Array(items), s))
      else if 0xe0 <= t <= 0xef then
        match ParsePairs(refs, data, s2, depth, t as int - 0xe0, [])
        case Err(e) => Err(e)
        case Ok((pairs, s)) => Ok((Dict(pairs), s))
      else ScalarOf(refs, data, s2, t)
  }

  /** An open-ended container (announced length 15) ends at a byte 3. */
  predicate AtEnd(data: bytes, st: State, n: nat) {
    n == 15 && st.pos < |data| && data[st.pos] == 3
  }

  /** The rest of an array of announced length `n` whose first elements are `acc`. */
  function ParseAll(refs: bool, data: bytes, st: State, depth: nat, n: nat,
                    acc: seq<Value>): (r: Result<(seq<Value>, State), Error>)
    requires st.pos <= |data|
    ensures r.Ok? ==> st.pos <= r.value.1.pos <= |data| && r.value.1.budget <= st.budget
    decreases |data| - st.pos, 1
  {
    if n < 15 && |acc| == n then Ok((acc, st))
    else if AtEnd(data, st, n) then Ok((acc, st.(pos := st.pos + 1)))
    else match Parse(refs, data, st, depth + 1)
      case Err(e) => Err(e)
      case Ok((v, s)) => ParseAll(refs, data, s, depth, n, acc + [v])
  }

  /** One key and its value. */
  function ParseEntry(refs: bool, data: bytes, st: State, depth: nat): (r: Result<(Entry, State), Error>)
    requires st.pos <= |data|
    ensures r.Ok? ==> st.pos < r.value.1.pos <= |data| && r.value.1.budget <= st.budget
    decreases |data| - st.pos, 1
  {
    match Parse(refs, data, st, depth)
    case Err(e) => Err(e)
    case Ok((k, s)) =>
      match Parse(refs, data, s, depth)
      case Err(e) => Err(e)
      case Ok((v, s2)) => Ok((Entry(k, v), s2))
  }

  function ParsePairs(refs: bool, data: bytes, st: State, depth: nat, n: nat,
                      acc: seq<Entry>): (r: Result<(seq<Entry>, State), Error>)
    requires st.pos <= |data|
    ensures r.Ok? ==> st.pos <= r.value.1.pos <= |data| && r.value.1.budget <= st.budget
    decreases |data| - st.pos, 2
  {
    if n < 15 && |acc| == n then Ok((acc, st))
    else if AtEnd(data, st, n) then Ok((acc, st.(pos := st.pos + 1)))
    else match ParseEntry(refs, data, st, depth + 1)
      case Err(e) => Err(e)
      case Ok((e, s)) => ParsePairs(refs, data, s, depth, n, acc + [e])
  }

  const START := State(0, [], 0, MAX_BUDGET)

  /** `opack::decode`. */
  function DecodeF(data: bytes): Result<Value, Error> {
    if |data| > MAX_INPUT then Err(InputTooLong) else
    match Parse(true, data, START, 0)
    case Err(e) => Err(e)
    case Ok((v, s)) => if s.pos == |data| then Ok(v) else Err(TrailingBytes)
  }

  /** The decoder object. After an error its fields are not read again. */
  class Decoder {
    const data: bytes
    var pos: nat
    var objects: seq<Value>
    var count: nat
    var budget: nat

    constructor (data: bytes)
      ensures this.data == data && Now() == START
    {
      this.data := data;
      pos, objects, count, budget := 0, [], 0, MAX_BUDGET;
    }

    function Now(): State
      reads this
    {
      State(pos, objects, count, budget)
    }

    method Take(n: nat) returns (r: Result<bytes, Error>)
      requires pos <= |data|
      modifies this
      ensures TakeF(data, old(Now()), n) == match r case Ok(b) => Ok((b, Now())) case Err(e) => Err(e)
    {
      if n > |data| - pos {
        return Err(UnexpectedEnd);
      }
      var start := pos;
      pos := pos + n;
      r := Ok(data[start..pos]);
    }

    method Number(n: nat) returns (r: Result<nat, Error>)
      requires pos <= |data|
      modifies this
      ensures NumberF(data, old(Now()), n) == match r case Ok(x) => Ok((x, Now())) case Err(e) => Err(e)
    {
      var b := Take(n);
      match b
      case Err(e) => r := Err(e);
      case Ok(b) => r := Ok(FromLe(b));
    }

    method Charge(n: nat) returns (r: Result<(), Error>)
      modifies this
      ensures ChargeF(old(Now()), n) == match r case Ok(_) => Ok(Now()) case Err(e) => Err(e)
    {
      if n > budget {
        return Err(AllocationLimit);
      }
      budget := budget - n;
      r := Ok(());
    }

    method RememberValue(v: Value)
      modifies this
      ensures Now() == Remember(old(Now()), v)
    {
      if !Known(objects, v) {
        objects := objects + [v];
      }
    }

    method ReadStr(t: byte) returns (r: Result<Value, Error>)
      requires pos <= |data| && 0x40 <= t <= 0x64
      modifies this
      ensures ScalarOf(true, data, old(Now()), t) == match r case Ok(v) => Ok((v, Now())) case Err(e) => Err(e)
    {
      var n := Ok(t as int - 0x40);
      if t > 0x60 {
        n := Number(t as int - 0x60);
      }
      if n.Err? {
        return Err(n.error);
      }
      var charged := Charge(2 * n.value);
      if charged.Err? {
        return Err(charged.error);
      }
      var b := Take(n.value);
      if b.Err? {
        return Err(b.error);
      }
      if !Utf8.Valid(b.value) {
        return Err(InvalidUtf8);
      }
      RememberValue(Str(b.value));
      r := Ok(Str(b.value));
    }

    method ReadData(t: byte) returns (r: Result<Value, Error>)
      requires pos <= |data| && 0x70 <= t <= 0x94
      modifies this
      ensures ScalarOf(true, data, old(Now()), t) == match r case Ok(v) => Ok((v, Now())) case Err(e) => Err(e)
    {
      var n := Ok(t as int - 0x70);
      if t > 0x90 {
        n := Number(Width(t as int - 0x91));
      }
      if n.Err? {
        return Err(n.error);
      }
      if n.value > MAX_INPUT {
        return Err(DataLimit);
      }
      var charged := Charge(2 * n.value);
      if charged.Err? {
        return Err(charged.error);
      }
      var b := Take(n.value);
      if b.Err? {
        return Err(b.error);
      }
      RememberValue(Data(b.value));
      r := Ok(Data(b.value));
    }

    method ReadReference(t: byte) returns (r: Result<Value, Error>)
      requires pos <= |data| && 0xa0 <= t <= 0xc4
      modifies this
      ensures ScalarOf(true, data, old(Now()), t) == match r case Ok(v) => Ok((v, Now())) case Err(e) => Err(e)
    {
      var index := Ok(t as int - 0xa0);
      if t > 0xc0 {
        index := Number(t as int - 0xc0);
      }
      if index.Err? {
        return Err(index.error);
      }
      if index.value >= |objects| {
        return Err(InvalidReference);
      }
      var target := objects[index.value];
      var charged := Charge(RefSize(target));
      if charged.Err? {
        return Err(charged.error);
      }
      r := Ok(target);
    }

    method ReadScalar(t: byte) returns (r: Result<Value, Error>)
      requires pos <= |data|
      modifies this
      ensures ScalarOf(true, data, old(Now()), t) == match r case Ok(v) => Ok((v, Now())) case Err(e) => Err(e)
    {
      if t == 1 || t == 2 {
        r := Ok(Bool(t == 1));
      } else if t == 4 {
        r := Ok(Null);
      } else if 8 <= t <= 0x2f {
        r := Ok(Int(t as int - 8));
      } else if IsFixed(t) {
        var b := Take(FixedWidth(t));
        if b.Err? {
          return Err(b.error);
        }
        RememberValue(FixedValue(t, b.value));
        r := Ok(FixedValue(t, b.value));
      } else if 0x40 <= t <= 0x64 {
        r := ReadStr(t);
      } else if 0x70 <= t <= 0x94 {
        r := ReadData(t);
      } else if 0xa0 <= t <= 0xc4 {
        r := ReadReference(t);
      } else {
        r := Err(UnsupportedTag);
      }
    }

    method ParseValue(depth: nat) returns (r: Result<Value, Error>)
      requires pos <= |data|
      modifies this
      ensures Parse(true, data, old(Now()), depth) == match r case Ok(v) => Ok((v, Now())) case Err(e) => Err(e)
      decreases |data| - pos, 0
    {
      count := count + 1;
      if depth > MAX_DEPTH || count > MAX_NODES {
        return Err(NestingLimit);
      }
      var charged := Charge(32);
      if charged.Err? {
        return Err(charged.error);
      }
      var tag := Take(1);
      if tag.Err? {
        return Err(tag.error);
      }
      var t := tag.value[0];
      if 0xd0 <= t <= 0xdf {
        var items := ParseItems(depth, t as int - 0xd0);
        r := match items case Ok(l) => Ok(Array(l)) case Err(e) => Err(e);
      } else if 0xe0 <= t <= 0xef {
        var pairs := ParseEntries(depth, t as int - 0xe0);
        r := match pairs case Ok(l) => Ok(Dict(l)) case Err(e) => Err(e);
      } else {
        r := ReadScalar(t);
      }
    }

    method ParseItems(depth: nat, n: nat) returns (r: Result<seq<Value>, Error>)
      requires pos <= |data|
      modifies this
      ensures ParseAll(true, data, old(Now()), depth, n, [])
                == match r case Ok(l) => Ok((l, Now())) case Err(e) => Err(e)
      decreases |data| - pos, 1
    {
      var items: seq<Value> := [];
      while !(n < 15 && |items| == n)
        invariant old(pos) <= pos <= |data|
        invariant ParseAll(true, data, old(Now()), depth, n, []) == ParseAll(true, data, Now(), depth, n, items)
        decreases |data| - pos
      {
        if n == 15 && pos < |data| && data[pos] == 3 {
          pos := pos + 1;
          return Ok(items);
        }
        var v := ParseValue(depth + 1);
        if v.Err? {
          return Err(v.error);
        }
        items := items + [v.value];
      }
      r := Ok(items);
    }

    method ParseEntries(depth: nat, n: nat) returns (r: Result<seq<Entry>, Error>)
      requires pos <= |data|
      modifies this
      ensures ParsePairs(true, data, old(Now()), depth, n, [])
                == match r case Ok(l) => Ok((l, Now())) case Err(e) => Err(e)
      decreases |data| - pos, 1
    {
      var items: seq<Entry> := [];
      while !(n < 15 && |items| == n)
        invariant old(pos) <= pos <= |data|
        invariant ParsePairs(true, data, old(Now()), depth, n, []) == ParsePairs(true, data, Now(), depth, n, items)
        decreases |data| - pos
      {
        if n == 15 && pos < |data| && data[pos] == 3 {
          pos := pos + 1;
          return Ok(items);
        }
        var k := ParseValue(depth + 1);
        if k.Err? {
          return Err(k.error);
        }
        var v := ParseValue(depth + 1);
        if v.Err? {
          return Err(v.error);
        }
        items := items + [Entry(k.value, v.value)];
      }
      r := Ok(items);
    }
  }

  method Decode(data: bytes) returns (r: Result<Value, Error>)
    ensures r == DecodeF(data)
  {
    if |data| > MAX_INPUT {
      return Err(InputTooLong);
    }
    var d := new Decoder(data);
    var v := d.ParseValue(0);
    if v.Err? {
      return Err(v.error);
    }
    if d.pos != |data| {
      return Err(TrailingBytes);
    }
    r := Ok(v.value);
  }
}

/** Continuity packets (src/companion.rs) and the encrypted OPACK exchange over a byte stream
    (src/companion_client.rs). */
module Continuity {
  import opened Bytes
  import opened Crypto
  import opened ContentChannel
  import opened OpackValue
  import OpackEncode
  import OpackDecode
  import OpackTheorems

  datatype PacketType = PairVerifyPublicKey | PairVerifyContinue | EncryptedData | Finished

  datatype Packet = Packet(ptype: PacketType, body: bytes)

  datatype Error =
    | TooLong | ShortHeader | UnknownType | LengthMismatch | ShortEncrypted | BodyCap | StreamEnded
    | NotEncrypted | Channel(c: ContentChannel.Error) | Opack(o: OpackDecode.Error)

  const MAX_BODY := 0xff_ffff
  const MAX_PACKET_BODY := 4 * 1024 * 1024

  function Code(t: PacketType): byte {
    match t
    case PairVerifyPublicKey => 0x05
    case PairVerifyContinue => 0x06
    case EncryptedData => 0x08
    case Finished => 0x01
  }

  function FromU8(b: byte): Option<PacketType> {
    if b == 0x05 then Some(PairVerifyPublicKey)
    else if b == 0x06 then Some(PairVerifyContinue)
    else if b == 0x08 then Some(EncryptedData)
    else if b == 0x01 then Some(Finished)
    else None
  }

  /** `type | length` with a 24-bit big-endian length. */
  function Header(t: PacketType, n: nat): (r: Result<bytes, Error>)
    ensures r.Ok? ==> |r.value| == 4
  {
    if n > MAX_BODY then Err(TooLong)
    else Ok([Code(t), (n / 0x1_0000) as byte, (n / 0x100 % 0x100) as byte, (n % 0x100) as byte])
  }

  function Length(h: bytes): nat
    requires |h| >= 4
  {
    h[1] as int * 0x1_0000 + h[2] as int * 0x100 + h[3] as int
  }

  function Serialize(p: Packet): (r: Result<bytes, Error>) {
    match Header(p.ptype, |p.body|) case Err(e) => Err(e) case Ok(h) => Ok(h + p.body)
  }

  function Parse(data: bytes): (r: Result<Packet, Error>) {
    if |data| < 4 then Err(ShortHeader)
    else match FromU8(data[0])
      case None => Err(UnknownType)
      case Some(t) => if |data| != 4 + Length(data) then Err(LengthMismatch) else Ok(Packet(t, data[4..]))
  }

  /** One packet off a stream, from `pos` on, and the position behind it. */
  function ReadF(data: bytes, pos: nat): (r: Result<(Packet, nat), Error>)
    requires pos <= |data|
    ensures r.Ok? ==> pos < r.value.1 <= |data|
  {
    if pos + 4 > |data| then Err(StreamEnded)
    else match FromU8(data[pos])
      case None => Err(UnknownType)
      case Some(t) =>
        var n := Length(data[pos..pos + 4]);
        if t == EncryptedData && n < TAG then Err(ShortEncrypted)
        else if n > MAX_PACKET_BODY then Err(BodyCap)
        else if pos + 4 + n > |data| then Err(StreamEnded)
        else Ok((Packet(t, data[pos + 4..pos + 4 + n]), pos + 4 + n))
  }

  /** What one side of the connection has read so far and written so far. */
  class Stream {
    const input: bytes
    var pos: nat
    var output: bytes

    ghost predicate Valid()
      reads this
    {
      pos <= |input|
    }

    constructor (input: bytes)
      ensures Valid() && this.input == input && pos == 0 && output == []
    {
      this.input, pos, output := input, 0, [];
    }

    method ReadExact(n: nat) returns (r: Option<bytes>)
      requires Valid()
      modifies this`pos
      ensures Valid()
      ensures r == if old(pos) + n <= |input| then Some(input[old(pos)..old(pos) + n]) else None
      ensures r.Some? ==> pos == old(pos) + n
    {
      if n > |input| - pos {
        pos := |input|;
        return None;
      }
      r := Some(input[pos..pos + n]);
      pos := pos + n;
    }

    method ReadPacket() returns (r: Result<Packet, Error>)
      requires Valid()
      modifies this`pos
      ensures Valid()
      ensures ReadF(input, old(pos)) == match r case Ok(p) => Ok((p, pos)) case Err(e) => Err(e)
    {
      var start := pos;
      var header := ReadExact(4);
      if header.None? {
        return Err(StreamEnded);
      }
      assert header.value[0] == input[start];
      var t := FromU8(header.value[0]);
      if t.None? {
        return Err(UnknownType);
      }
      var n := Length(header.value);
      if t.value == EncryptedData && n < TAG {
        return Err(ShortEncrypted);
      }
      if n > MAX_PACKET_BODY {
        return Err(BodyCap);
      }
      var body := ReadExact(n);
      if body.None? {
        return Err(StreamEnded);
      }
      r := Ok(Packet(t.value, body.value));
    }

    method WritePacket(p: Packet) returns (r: Result<(), Error>)
      modifies this`output
      ensures r == match Serialize(p) case Ok(_) => Ok(()) case Err(e) => Err(e)
      ensures output == match Serialize(p) case Ok(w) => old(output) + w case Err(_) => old(output)
    {
      var wire := Serialize(p);
      if wire.Err? {
        return Err(wire.error);
      }
      output := output + wire.value;
      r := Ok(());
    }

    method SendOpack(ch: Channel, v: Value) returns (r: Result<(), Error>)
      modifies this`output, ch
      ensures var (w, next) := SendF(ch.aead, old(ch.Now()), v);
              && ch.Now() == next
              && output == old(output) + (if w.Ok? then w.value else [])
              && r == (if w.Ok? then Ok(()) else Err(w.error))
    {
      var plain := OpackEncode.Encode(v);
      var header := Header(EncryptedData, |plain| + TAG);
      if header.Err? {
        return Err(header.error);
      }
      var sealed := ch.Encrypt(plain, header.value);
      if sealed.Err? {
        return Err(Error.Channel(sealed.error));
      }
      r := WritePacket(Packet(EncryptedData, sealed.value));
    }

    method RecvOpack(ch: Channel) returns (r: Result<Value, Error>)
      requires Valid()
      modifies this`pos, ch
      ensures Valid()
      ensures var q := RecvF(ch.aead, old(ch.Now()), input, old(pos));
              && ch.Now() == q.1
              && match r case Ok(v) => q.0 == Ok((v, pos)) case Err(e) => q.0 == Err(e)
    {
      var p := ReadPacket();
      if p.Err? {
        return Err(p.error);
      }
      if p.value.ptype != EncryptedData {
        return Err(NotEncrypted);
      }
      var header := Header(p.value.ptype, |p.value.body|);
      if header.Err? {
        return Err(header.error);
      }
      var plain := ch.Decrypt(p.value.body, header.value);
      if plain.Err? {
        return Err(Error.Channel(plain.error));
      }
      var v := OpackDecode.Decode(plain.value);
      r := match v case Ok(x) => Ok(x) case Err(e) => Err(Opack(e));
    }
  }

  /** `send_opack`: the bytes that go out, and the channel afterwards. */
  function SendF(a: Aead, ch: Ends, v: Value): (r: (Result<bytes, Error>, Ends)) {
    var plain := OpackEncode.Enc(v);
    match Header(EncryptedData, |plain| + TAG)
    case Err(e) => (Err(e), ch)
    case Ok(h) =>
      var (sealed, next) := EncryptF(a, ch, plain, h);
      match sealed
      case Err(e) => (Err(Error.Channel(e)), next)
      case Ok(c) => (Serialize(Packet(EncryptedData, c)), next)
  }

  /** `recv_opack` on the stream from `pos` on: the value and the position behind it, and the channel afterwards. */
  function RecvF(a: Aead, ch: Ends, data: bytes, pos: nat): (r: (Result<(Value, nat), Error>, Ends))
    requires pos <= |data|
    ensures r.0.Ok? ==> pos < r.0.value.1 <= |data|
  {
    match ReadF(data, pos)
    case Err(e) => (Err(e), ch)
    case Ok((p, end)) =>
      if p.ptype != EncryptedData then (Err(NotEncrypted), ch) else
      match Header(p.ptype, |p.body|)
      case Err(e) => (Err(e), ch)
      case Ok(h) =>
        var (plain, next) := DecryptF(a, ch, p.body, h);
        match plain
        case Err(e) => (Err(Error.Channel(e)), next)
        case Ok(text) =>
          match OpackDecode.DecodeF(text)
          case Err(e) => (Err(Opack(e)), next)
          case Ok(v) => (Ok((v, end)), next)
  }

  // ----- What the two sides promise together -----

  lemma HeaderRoundTrip(t: PacketType, n: nat)
    requires n <= MAX_BODY
    ensures Header(t, n).Ok? && FromU8(Header(t, n).value[0]) == Some(t) && Length(Header(t, n).value) == n
  {
  }

  /** A packet read from where it was written comes back, and exactly its bytes are consumed, whatever
      follows: exactly when its body fits the reader's cap and, if encrypted, can hold a tag. */
  lemma ReadSerialized(p: Packet, data: bytes, pos: nat)
    requires Serialize(p).Ok? && At(data, pos, Serialize(p).value)
    ensures ReadF(data, pos) == Ok((p, pos + |Serialize(p).value|)) <==>
            |p.body| <= MAX_PACKET_BODY && (p.ptype == EncryptedData ==> |p.body| >= TAG)
    ensures |p.body| > MAX_PACKET_BODY ==> ReadF(data, pos).Err?
  {
    var h := Header(p.ptype, |p.body|).value;
    HeaderRoundTrip(p.ptype, |p.body|);
    AtConcat(data, pos, h, p.body);
    AtIndex(data, pos, h, 0);
    assert data[pos..pos + 4] == h;
  }

  lemma ParseSerialized(p: Packet)
    requires |p.body| <= MAX_BODY
    ensures Serialize(p).Ok? && Parse(Serialize(p).value) == Ok(p)
  {
    HeaderRoundTrip(p.ptype, |p.body|);
    assert Serialize(p).value[4..] == p.body;
    assert Length(Serialize(p).value) == Length(Header(p.ptype, |p.body|).value);
  }

  /** And every packet that is read stands there as it is serialised. */
  lemma ReadWasSerialized(data: bytes, pos: nat)
    requires pos <= |data| && ReadF(data, pos).Ok?
    ensures var (p, end) := ReadF(data, pos).value;
            && Serialize(p).Ok? && At(data, pos, Serialize(p).value) && end == pos + |Serialize(p).value|
            && |p.body| <= MAX_PACKET_BODY && (p.ptype == EncryptedData ==> |p.body| >= TAG)
  {
    var (p, end) := ReadF(data, pos).value;
    var wire := data[pos..pos + 4];
    HeaderWas(p.ptype, wire);
    AtJoin(data, pos, wire, p.body);
  }

  lemma HeaderWas(t: PacketType, wire: bytes)
    requires |wire| == 4 && FromU8(wire[0]) == Some(t) && Length(wire) <= MAX_PACKET_BODY
    ensures Header(t, Length(wire)) == Ok(wire)
  {
    Places(wire[1] as int, wire[2] as int, wire[3] as int, Length(wire));
    CodeWas(wire[0], t);
    assert wire == [wire[0], wire[1], wire[2], wire[3]];
  }

  lemma Places(a: nat, b: nat, c: nat, n: nat)
    requires a < 256 && b < 256 && c < 256 && n == a * 0x1_0000 + b * 0x100 + c
    ensures n / 0x1_0000 == a && n / 0x100 % 0x100 == b && n % 0x100 == c
  {
    assert n / 0x100 == a * 0x100 + b;
  }

  lemma CodeWas(b: byte, t: PacketType)
    requires FromU8(b) == Some(t)
    ensures Code(t) == b
  {
  }

  /** A value is received only out of an encrypted packet that opens under the next nonce, with the packet's own header,
      as it stands on the wire, as the associated data. */
  lemma ReceivedWasSealed(a: Aead, ch: Ends, data: bytes, pos: nat) returns (body: bytes, text: bytes)
    requires pos <= |data| && RecvF(a, ch, data, pos).0.Ok?
    ensures var v := RecvF(a, ch, data, pos).0.value.0;
            && ReadF(data, pos).Ok? && ReadF(data, pos).value.0 == Packet(EncryptedData, body)
            && a.open(ch.decKey, Nonce(ch.decNonce), data[pos..pos + 4], body) == Some(text)
            && OpackDecode.DecodeF(text) == Ok(v)
            && RecvF(a, ch, data, pos).1 == ch.(decNonce := ch.decNonce + 1)
  {
    hide OpackDecode.DecodeF, ReadF, Header;
    ReadWasSerialized(data, pos);
    var p := ReadF(data, pos).value.0;
    body := p.body;
    var h := Header(EncryptedData, |body|).value;
    AtConcat(data, pos, h, body);
    text := a.open(ch.decKey, Nonce(ch.decNonce), h, body).value;
  }

  /** The two channels are in step in one direction. */
  predicate InStep(sender: Ends, receiver: Ends) {
    sender.encKey == receiver.decKey && sender.encNonce == receiver.decNonce
  }

  /** The limits `v` must respect for a decoder to accept it, size aside. */
  predicate Decodable(v: Value) {
    WellFormed(v) && Nest(v) <= OpackDecode.MAX_DEPTH && Nodes(v) <= OpackDecode.MAX_NODES
  }

  /** One message through OPACK, the channel and the framing: whenever the sender accepts it, the receiver
      gets the same value and stays in step, exactly when the encoding leaves room for the tag under the
      reader's cap. The sender alone would let almost four times as much through. */
  lemma OneMessage(a: Aead, sender: Ends, receiver: Ends, v: Value, data: bytes, pos: nat)
    requires a.Lawful() && InStep(sender, receiver) && Decodable(v)
    requires SendF(a, sender, v).0.Ok? && At(data, pos, SendF(a, sender, v).0.value)
    ensures |OpackEncode.Enc(v)| <= MAX_PACKET_BODY - TAG <==> RecvF(a, receiver, data, pos).0.Ok?
    ensures |OpackEncode.Enc(v)| <= MAX_PACKET_BODY - TAG ==>
              && RecvF(a, receiver, data, pos).0 == Ok((v, pos + |SendF(a, sender, v).0.value|))
              && InStep(SendF(a, sender, v).1, RecvF(a, receiver, data, pos).1)
  {
    hide OpackEncode.Enc, OpackDecode.DecodeF, ReadF, Length;
    var plain := OpackEncode.Enc(v);
    var h := Header(EncryptedData, |plain| + TAG).value;
    var c := a.seal(sender.encKey, Nonce(sender.encNonce), h, plain);
    var p := Packet(EncryptedData, c);
    assert |c| == |plain| + TAG && a.open(receiver.decKey, Nonce(receiver.decNonce), h, c) == Some(plain);
    ReadSerialized(p, data, pos);
    if |plain| <= MAX_PACKET_BODY - TAG {
      OpackTheorems.RoundTrip(v);
    }
  }

  // ----- A stream of values -----

  /** Send every value in turn: all the bytes, and the channel afterwards. */
  function SendAll(a: Aead, ch: Ends, values: seq<Value>): (r: (Result<bytes, Error>, Ends))
    decreases |values|
  {
    if values == [] then (Ok([]), ch)
    else
      var (w, next) := SendF(a, ch, values[0]);
      if w.Err? then (w, next) else
      var (rest, last) := SendAll(a, next, values[1..]);
      (if rest.Err? then rest else Ok(w.value + rest.value), last)
  }

  function RecvAll(a: Aead, ch: Ends, data: bytes, pos: nat, count: nat): (r: Result<seq<Value>, Error>)
    requires pos <= |data|
    decreases count
  {
    if count == 0 then Ok([])
    else
      var (v, next) := RecvF(a, ch, data, pos);
      if v.Err? then Err(v.error) else
      match RecvAll(a, next, data, v.value.1, count - 1)
      case Err(e) => Err(e)
      case Ok(rest) => Ok([v.value.0] + rest)
  }

  /** Any stream of values that fits is delivered intact and in order. */
  lemma {:induction false} StreamDelivered(a: Aead, sender: Ends, receiver: Ends, values: seq<Value>, data: bytes,
                                           pos: nat)
    requires a.Lawful() && InStep(sender, receiver)
    requires forall i :: 0 <= i < |values| ==>
               Decodable(values[i]) && |OpackEncode.Enc(values[i])| <= MAX_PACKET_BODY - TAG
    requires SendAll(a, sender, values).0.Ok? && At(data, pos, SendAll(a, sender, values).0.value)
    ensures RecvAll(a, receiver, data, pos, |values|) == Ok(values)
    decreases |values|
  {
    hide SendF, RecvF;
    if values != [] {
      var v := values[0];
      var (w, next) := SendF(a, sender, v);
      AtConcat(data, pos, w.value, SendAll(a, next, values[1..]).0.value);
      OneMessage(a, sender, receiver, v, data, pos);
      StreamDelivered(a, next, RecvF(a, receiver, data, pos).1, values[1..], data, pos + |w.value|);
      assert [v] + values[1..] == values;
    }
  }
}

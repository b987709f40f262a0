/** Pair-Verify (src/companion.rs): the client and server state machines, and the client's driver
    (src/companion_client.rs). */
module PairVerify {
  import opened Bytes
  import opened Crypto
  import opened Continuity
  import ContentChannel
  import opened OpackValue
  import OpackEncode
  import OpackDecode
  import OpackTheorems
  import Tlv8
  import Utf8

  datatype Fault =
    | BadBody(o: OpackDecode.Error) | NoPairingData | MissingPublicKey | PublicKeyLength | EphemeralUsed
    | LowOrderKey | MissingEncrypted | CannotDecrypt | MissingSignature | SignatureLength | UnknownSigner
    | WrongState | NoSharedSecret | Wire(e: Continuity.Error)

  datatype Identity = Identity(signing: bytes, peers: seq<(bytes, bytes)>)

  const PUBLIC_KEY: byte := 0x03
  const ENCRYPTED_DATA: byte := 0x05
  const STATE: byte := 0x06
  const SIGNATURE_ITEM: byte := 0x0a
  const APP_FLAGS: byte := 0x19

  /** "_pd" */
  const PD: bytes := [0x5f, 0x70, 0x64]
  /** "PV-Msg02" and "PV-Msg03" */
  const MSG02: bytes := [0x50, 0x56, 0x2d, 0x4d, 0x73, 0x67, 0x30, 0x32]
  const MSG03: bytes := [0x50, 0x56, 0x2d, 0x4d, 0x73, 0x67, 0x30, 0x33]

  /** "ServerEncrypt-main" and "ClientEncrypt-main" */
  const SERVER_MAIN: bytes := [83, 101, 114, 118, 101, 114, 69, 110, 99, 114, 121, 112, 116, 45, 109, 97, 105, 110]
  const CLIENT_MAIN: bytes := [67, 108, 105, 101, 110, 116, 69, 110, 99, 114, 121, 112, 116, 45, 109, 97, 105, 110]
  /** "Pair-Verify-Encrypt-Salt" and "Pair-Verify-Encrypt-Info" */
  const PV_SALT: bytes := [80, 97, 105, 114, 45, 86, 101, 114, 105, 102, 121, 45, 69, 110, 99, 114, 121, 112, 116, 45,
                           83, 97, 108, 116]
  const PV_INFO: bytes := [80, 97, 105, 114, 45, 86, 101, 114, 105, 102, 121, 45, 69, 110, 99, 114, 121, 112, 116, 45,
                           73, 110, 102, 111]

  function PairVerifyKey(s: Suite, shared: bytes): bytes {
    s.hkdf(shared, PV_SALT, PV_INFO)
  }

  /** Four zero bytes, then the label. */
  function PvNonce(text: bytes): bytes {
    [0, 0, 0, 0] + text
  }

  function ClientChannel(s: Suite, shared: bytes): ContentChannel.Ends {
    ContentChannel.Ends(s.hkdf(shared, [], CLIENT_MAIN), s.hkdf(shared, [], SERVER_MAIN), 0, 0)
  }

  function ServerChannel(s: Suite, shared: bytes): ContentChannel.Ends {
    ContentChannel.Ends(s.hkdf(shared, [], SERVER_MAIN), s.hkdf(shared, [], CLIENT_MAIN), 0, 0)
  }

  /** `Value::get`: the value of the first pair whose key is this string. */
  function Get(v: Value, key: bytes): Option<Value> {
    if v.Dict? then GetPair(v.pairs, key) else None
  }

  function GetPair(pairs: seq<Entry>, key: bytes): Option<Value> {
    if pairs == [] then None
    else if pairs[0].key == Str(key) then Some(pairs[0].value)
    else GetPair(pairs[1..], key)
  }

  /** `wrap_pairing_data`: the items inside an OPACK dictionary. */
  function Wrap(items: seq<Tlv8.Item>): bytes {
    OpackEncode.Enc(Dict([Entry(Str(PD), Data(Tlv8.Enc(items)))]))
  }

  function PairingTlv(body: bytes): (r: Result<seq<Tlv8.Item>, Fault>) {
    match OpackDecode.DecodeF(body)
    case Err(e) => Err(BadBody(e))
    case Ok(v) =>
      match Get(v, PD)
      case Some(Data(b)) => Ok(Tlv8.Dec(b, 0, []))
      case _ => Err(NoPairingData)
  }

  /** The public key a message carries. */
  function PublicKeyOf(items: seq<Tlv8.Item>): Result<bytes, Fault> {
    match Tlv8.Lookup(items, PUBLIC_KEY)
    case None => Err(MissingPublicKey)
    case Some(k) => if |k| == KEY then Ok(k) else Err(PublicKeyLength)
  }

  /** The signature inside the sealed part of a message. */
  function SignatureOf(s: Suite, shared: bytes, text: bytes, items: seq<Tlv8.Item>): Result<bytes, Fault> {
    match Tlv8.Lookup(items, ENCRYPTED_DATA)
    case None => Err(MissingEncrypted)
    case Some(c) =>
      match s.aead.open(PairVerifyKey(s, shared), PvNonce(text), [], c)
      case None => Err(CannotDecrypt)
      case Some(plain) =>
        match Tlv8.Lookup(Tlv8.Dec(plain, 0, []), SIGNATURE_ITEM)
        case None => Err(MissingSignature)
        case Some(sig) => if |sig| == SIGNATURE then Ok(sig) else Err(SignatureLength)
  }

  /** Some listed peer's key verifies the signature. */
  predicate Known(s: Suite, peers: seq<(bytes, bytes)>, text: bytes, sig: bytes) {
    exists i :: 0 <= i < |peers| && s.verify(peers[i].1, text, sig)
  }

  /** Our signature over `text`, sealed. */
  function SealSignature(s: Suite, shared: bytes, text: bytes, signing: bytes, signed: bytes): bytes {
    s.aead.seal(PairVerifyKey(s, shared), PvNonce(text), [],
                Tlv8.Enc([Tlv8.Item(SIGNATURE_ITEM, s.sign(signing, signed))]))
  }

  function AllZero(b: bytes): bool {
    forall i :: 0 <= i < |b| ==> b[i] == 0
  }

  // ----- Client -----

  datatype ClientState = ClientState(ephemeral: Option<bytes>, public: bytes, identity: Identity, shared: Option<bytes>)

  function M1Items(public: bytes): seq<Tlv8.Item> {
    [Tlv8.Item(PUBLIC_KEY, public), Tlv8.Item(STATE, [1]), Tlv8.Item(APP_FLAGS, [1])]
  }

  function M3Items(sealed: bytes): seq<Tlv8.Item> {
    [Tlv8.Item(ENCRYPTED_DATA, sealed), Tlv8.Item(STATE, [3])]
  }

  /** `process_m2`, and the client afterwards: the shared secret is set before the signature is checked. */
  function ProcessM2F(s: Suite, c: ClientState, m2: Packet): (r: (Result<Packet, Fault>, ClientState)) {
    match PairingTlv(m2.body)
    case Err(e) => (Err(e), c)
    case Ok(items) =>
      match PublicKeyOf(items)
      case Err(e) => (Err(e), c)
      case Ok(peer) =>
        match c.ephemeral
        case None => (Err(EphemeralUsed), c)
        case Some(eph) =>
          var shared := s.agree(eph, peer);
          if AllZero(shared) then (Err(LowOrderKey), c.(ephemeral := None)) else
          var c2 := c.(ephemeral := None, shared := Some(shared));
          match SignatureOf(s, shared, MSG02, items)
          case Err(e) => (Err(e), c2)
          case Ok(sig) =>
            if !Known(s, c.identity.peers, peer + c.public, sig) then (Err(UnknownSigner), c2) else
            var sealed := SealSignature(s, shared, MSG03, c.identity.signing, c.public + peer);
            (Ok(Packet(PairVerifyContinue, Wrap(M3Items(sealed)))), c2)
  }

  function CheckM4F(s: Suite, c: ClientState, m4: Packet): (r: Result<ContentChannel.Ends, Fault>) {
    match PairingTlv(m4.body)
    case Err(e) => Err(e)
    case Ok(items) =>
      if Tlv8.Lookup(items, STATE) != Some([4]) then Err(WrongState)
      else if c.shared.None? then Err(NoSharedSecret)
      else Ok(ClientChannel(s, c.shared.value))
  }

  class Client {
    const suite: Suite
    const public: bytes
    const identity: Identity
    var ephemeral: Option<bytes>
    var shared: Option<bytes>

    constructor (suite: Suite, secret: bytes, identity: Identity)
      ensures this.suite == suite
      ensures Now() == ClientState(Some(secret), suite.publicOf(secret), identity, None)
    {
      this.suite := suite;
      this.public, this.identity := suite.publicOf(secret), identity;
      ephemeral, shared := Some(secret), None;
    }

    function Now(): ClientState
      reads this
    {
      ClientState(ephemeral, public, identity, shared)
    }

    method BuildM1() returns (p: Packet)
      ensures p == Packet(PairVerifyPublicKey, Wrap(M1Items(public)))
    {
      var tlv := new Tlv8.Tlv();
      tlv.Push(PUBLIC_KEY, public);
      tlv.PushU8(STATE, 1);
      tlv.PushU8(APP_FLAGS, 1);
      assert tlv.items == M1Items(public);
      p := Packet(PairVerifyPublicKey, Wrap(tlv.items));
    }

    method ProcessM2(m2: Packet) returns (r: Result<Packet, Fault>)
      modifies this
      ensures (r, Now()) == ProcessM2F(suite, old(Now()), m2)
    {
      var tlv := PairingTlv(m2.body);
      if tlv.Err? {
        return Err(tlv.error);
      }
      var peer := PublicKeyOf(tlv.value);
      if peer.Err? {
        return Err(peer.error);
      }
      var eph := ephemeral;
      ephemeral := None;
      if eph.None? {
        return Err(EphemeralUsed);
      }
      var secret := suite.agree(eph.value, peer.value);
      if AllZero(secret) {
        return Err(LowOrderKey);
      }
      shared := Some(secret);
      var sig := SignatureOf(suite, secret, MSG02, tlv.value);
      if sig.Err? {
        return Err(sig.error);
      }
      if !Known(suite, identity.peers, peer.value + public, sig.value) {
        return Err(UnknownSigner);
      }
      var sealed := SealSignature(suite, secret, MSG03, identity.signing, public + peer.value);
      var out := new Tlv8.Tlv();
      out.Push(ENCRYPTED_DATA, sealed);
      out.PushU8(STATE, 3);
      assert out.items == M3Items(sealed);
      r := Ok(Packet(PairVerifyContinue, Wrap(out.items)));
    }

    method CheckM4(m4: Packet) returns (r: Result<ContentChannel.Channel, Fault>)
      ensures match r
              case Ok(ch) => fresh(ch) && CheckM4F(suite, Now(), m4) == Ok(ch.Now()) && ch.aead == suite.aead
              case Err(e) => CheckM4F(suite, Now(), m4) == Err(e)
    {
      var tlv := PairingTlv(m4.body);
      if tlv.Err? {
        return Err(tlv.error);
      }
      if Tlv8.Lookup(tlv.value, STATE) != Some([4]) {
        return Err(WrongState);
      }
      if shared.None? {
        return Err(NoSharedSecret);
      }
      var ends := ClientChannel(suite, shared.value);
      var ch := new ContentChannel.Channel(suite.aead, ends.encKey, ends.decKey);
      r := Ok(ch);
    }
  }

  // ----- Server -----

  datatype ServerState = ServerState(ephemeral: Option<bytes>, public: bytes, identity: Identity, shared: Option<bytes>,
                                     clientPub: Option<bytes>)

  function M2Items(public: bytes, sealed: bytes): seq<Tlv8.Item> {
    [Tlv8.Item(PUBLIC_KEY, public), Tlv8.Item(ENCRYPTED_DATA, sealed), Tlv8.Item(STATE, [2])]
  }

  const M4: Packet := Packet(PairVerifyContinue, Wrap([Tlv8.Item(STATE, [4])]))

  function ProcessM1F(s: Suite, v: ServerState, m1: Packet): (r: (Result<Packet, Fault>, ServerState)) {
    match PairingTlv(m1.body)
    case Err(e) => (Err(e), v)
    case Ok(items) =>
      match PublicKeyOf(items)
      case Err(e) => (Err(e), v)
      case Ok(peer) =>
        match v.ephemeral
        case None => (Err(EphemeralUsed), v)
        case Some(eph) =>
          var shared := s.agree(eph, peer);
          var sealed := SealSignature(s, shared, MSG02, v.identity.signing, v.public + peer);
          (Ok(Packet(PairVerifyContinue, Wrap(M2Items(v.public, sealed)))),
           v.(ephemeral := None, shared := Some(shared), clientPub := Some(peer)))
  }

  function ProcessM3F(s: Suite, v: ServerState, m3: Packet): (r: Result<(Packet, ContentChannel.Ends), Fault>) {
    match PairingTlv(m3.body)
    case Err(e) => Err(e)
    case Ok(items) =>
      if v.shared.None? || v.clientPub.None? then Err(NoSharedSecret) else
      match SignatureOf(s, v.shared.value, MSG03, items)
      case Err(e) => Err(e)
      case Ok(sig) =>
        if !Known(s, v.identity.peers, v.clientPub.value + v.public, sig) then Err(UnknownSigner)
        else Ok((M4, ServerChannel(s, v.shared.value)))
  }

  class Server {
    const suite: Suite
    const public: bytes
    const identity: Identity
    var ephemeral: Option<bytes>
    var shared: Option<bytes>
    var clientPub: Option<bytes>

    constructor (suite: Suite, secret: bytes, identity: Identity)
      ensures this.suite == suite
      ensures Now() == ServerState(Some(secret), suite.publicOf(secret), identity, None, None)
    {
      this.suite := suite;
      this.public, this.identity := suite.publicOf(secret), identity;
      ephemeral, shared, clientPub := Some(secret), None, None;
    }

    function Now(): ServerState
      reads this
    {
      ServerState(ephemeral, public, identity, shared, clientPub)
    }

    method ProcessM1(m1: Packet) returns (r: Result<Packet, Fault>)
      modifies this
      ensures (r, Now()) == ProcessM1F(suite, old(Now()), m1)
    {
      var tlv := PairingTlv(m1.body);
      if tlv.Err? {
        return Err(tlv.error);
      }
      var peer := PublicKeyOf(tlv.value);
      if peer.Err? {
        return Err(peer.error);
      }
      if ephemeral.None? {
        return Err(EphemeralUsed);
      }
      var secret := suite.agree(ephemeral.value, peer.value);
      ephemeral := None;
      shared := Some(secret);
      clientPub := Some(peer.value);
      var sealed := SealSignature(suite, secret, MSG02, identity.signing, public + peer.value);
      var out := new Tlv8.Tlv();
      out.Push(PUBLIC_KEY, public);
      out.Push(ENCRYPTED_DATA, sealed);
      out.PushU8(STATE, 2);
      assert out.items == M2Items(public, sealed);
      r := Ok(Packet(PairVerifyContinue, Wrap(out.items)));
    }

    method ProcessM3(m3: Packet) returns (r: Result<(Packet, ContentChannel.Channel), Fault>)
      ensures match r
              case Ok((m4, ch)) =>
                fresh(ch) && ProcessM3F(suite, Now(), m3) == Ok((m4, ch.Now())) && ch.aead == suite.aead
              case Err(e) => ProcessM3F(suite, Now(), m3) == Err(e)
    {
      var tlv := PairingTlv(m3.body);
      if tlv.Err? {
        return Err(tlv.error);
      }
      if shared.None? || clientPub.None? {
        return Err(NoSharedSecret);
      }
      var sig := SignatureOf(suite, shared.value, MSG03, tlv.value);
      if sig.Err? {
        return Err(sig.error);
      }
      if !Known(suite, identity.peers, clientPub.value + public, sig.value) {
        return Err(UnknownSigner);
      }
      var out := new Tlv8.Tlv();
      out.PushU8(STATE, 4);
      assert out.items == [Tlv8.Item(STATE, [4])];
      var m4 := Packet(PairVerifyContinue, Wrap(out.items));
      var ends := ServerChannel(suite, shared.value);
      var ch := new ContentChannel.Channel(suite.aead, ends.encKey, ends.decKey);
      r := Ok((m4, ch));
    }
  }

  // ----- The two drivers -----

  /** What became of a handshake on the bytes that came in: the channel and the position behind the last packet
      read, and the bytes that went out, on failure too. */
  datatype Driven = Driven(outcome: Result<(ContentChannel.Ends, nat), Fault>, sent: bytes)

  /** `Session::handshake`. */
  function HandshakeF(s: Suite, c: ClientState, input: bytes): (r: Driven)
    ensures r.outcome.Ok? ==> r.outcome.value.1 <= |input|
  {
    match Serialize(Packet(PairVerifyPublicKey, Wrap(M1Items(c.public))))
    case Err(e) => Driven(Err(Wire(e)), [])
    case Ok(w1) =>
      match ReadF(input, 0)
      case Err(e) => Driven(Err(Wire(e)), w1)
      case Ok((m2, pos)) =>
        var (m3, c2) := ProcessM2F(s, c, m2);
        if m3.Err? then Driven(Err(m3.error), w1) else
        match Serialize(m3.value)
        case Err(e) => Driven(Err(Wire(e)), w1)
        case Ok(w3) =>
          match ReadF(input, pos)
          case Err(e) => Driven(Err(Wire(e)), w1 + w3)
          case Ok((m4, end)) =>
            match CheckM4F(s, c2, m4)
            case Err(e) => Driven(Err(e), w1 + w3)
            case Ok(ends) => Driven(Ok((ends, end)), w1 + w3)
  }

  method Handshake(s: Suite, secret: bytes, identity: Identity, stream: Stream)
    returns (r: Result<ContentChannel.Channel, Fault>)
    requires stream.Valid() && stream.pos == 0
    modifies stream
    ensures stream.Valid()
    ensures var d := HandshakeF(s, ClientState(Some(secret), s.publicOf(secret), identity, None), stream.input);
            && stream.output == old(stream.output) + d.sent
            && match r
               case Ok(ch) => fresh(ch) && ch.aead == s.aead && d.outcome == Ok((ch.Now(), stream.pos))
               case Err(e) => d.outcome == Err(e)
  {
    hide ReadF, Serialize, ProcessM2F, CheckM4F, Wrap, M1Items;
    var client := new Client(s, secret, identity);
    var m1 := client.BuildM1();
    var w1 := stream.WritePacket(m1);
    if w1.Err? {
      return Err(Wire(w1.error));
    }
    var m2 := stream.ReadPacket();
    if m2.Err? {
      return Err(Wire(m2.error));
    }
    var m3 := client.ProcessM2(m2.value);
    if m3.Err? {
      return Err(m3.error);
    }
    var w3 := stream.WritePacket(m3.value);
    if w3.Err? {
      return Err(Wire(w3.error));
    }
    var m4 := stream.ReadPacket();
    if m4.Err? {
      return Err(Wire(m4.error));
    }
    r := client.CheckM4(m4.value);
  }

  /** The handshake of `run_mock_server`. */
  function AnswerF(s: Suite, v: ServerState, input: bytes): (r: Driven)
    ensures r.outcome.Ok? ==> r.outcome.value.1 <= |input|
  {
    match ReadF(input, 0)
    case Err(e) => Driven(Err(Wire(e)), [])
    case Ok((m1, pos)) =>
      var (m2, v2) := ProcessM1F(s, v, m1);
      if m2.Err? then Driven(Err(m2.error), []) else
      match Serialize(m2.value)
      case Err(e) => Driven(Err(Wire(e)), [])
      case Ok(w2) =>
        match ReadF(input, pos)
        case Err(e) => Driven(Err(Wire(e)), w2)
        case Ok((m3, end)) =>
          match ProcessM3F(s, v2, m3)
          case Err(e) => Driven(Err(e), w2)
          case Ok((m4, ends)) =>
            match Serialize(m4)
            case Err(e) => Driven(Err(Wire(e)), w2)
            case Ok(w4) => Driven(Ok((ends, end)), w2 + w4)
  }

  method AnswerHandshake(s: Suite, secret: bytes, identity: Identity, stream: Stream)
    returns (r: Result<ContentChannel.Channel, Fault>)
    requires stream.Valid() && stream.pos == 0
    modifies stream
    ensures stream.Valid()
    ensures var d := AnswerF(s, ServerState(Some(secret), s.publicOf(secret), identity, None, None), stream.input);
            && stream.output == old(stream.output) + d.sent
            && match r
               case Ok(ch) => fresh(ch) && ch.aead == s.aead && d.outcome == Ok((ch.Now(), stream.pos))
               case Err(e) => d.outcome == Err(e)
  {
    hide ReadF, Serialize, ProcessM1F, ProcessM3F;
    var server := new Server(s, secret, identity);
    var m1 := stream.ReadPacket();
    if m1.Err? {
      return Err(Wire(m1.error));
    }
    var m2 := server.ProcessM1(m1.value);
    if m2.Err? {
      return Err(m2.error);
    }
    var w2 := stream.WritePacket(m2.value);
    if w2.Err? {
      return Err(Wire(w2.error));
    }
    var m3 := stream.ReadPacket();
    if m3.Err? {
      return Err(Wire(m3.error));
    }
    var last := server.ProcessM3(m3.value);
    if last.Err? {
      return Err(last.error);
    }
    var w4 := stream.WritePacket(last.value.0);
    if w4.Err? {
      return Err(Wire(w4.error));
    }
    r := Ok(last.value.1);
  }

  /** M2 carried a 32-byte key `peer` and, sealed under the secret agreed with it, a signature over
      `peer ++ public` that some listed key verifies. */
  ghost predicate Authenticated(s: Suite, c: ClientState, m2: Packet, peer: bytes, sig: bytes, shared: bytes) {
    && c.ephemeral.Some?
    && |peer| == KEY
    && shared == s.agree(c.ephemeral.value, peer) && !AllZero(shared)
    && PairingTlv(m2.body).Ok?
    && PublicKeyOf(PairingTlv(m2.body).value) == Ok(peer)
    && SignatureOf(s, shared, MSG02, PairingTlv(m2.body).value) == Ok(sig)
    && Known(s, c.identity.peers, peer + c.public, sig)
  }

  /** No session without a verified peer: whatever bytes arrive, a handshake that returns a channel read an
      M2 with a signature over both public keys that a listed key verifies, and behind it an M4 that reports state
      4; and the channel's keys come from the secret agreed with that very public key. */
  lemma SessionImpliesVerifiedPeer(s: Suite, c: ClientState, input: bytes)
    returns (m2: Packet, m4: Packet, peer: bytes, sig: bytes, shared: bytes)
    requires c.shared.None? && HandshakeF(s, c, input).outcome.Ok?
    ensures ReadF(input, 0).Ok? && m2 == ReadF(input, 0).value.0
    ensures var pos := ReadF(input, 0).value.1; ReadF(input, pos).Ok? && m4 == ReadF(input, pos).value.0
    ensures Authenticated(s, c, m2, peer, sig, shared)
    ensures PairingTlv(m4.body).Ok? && Tlv8.Lookup(PairingTlv(m4.body).value, STATE) == Some([4])
    ensures HandshakeF(s, c, input).outcome.value.0 == ClientChannel(s, shared)
  {
    hide PairingTlv, SignatureOf, Wrap, ReadF, Serialize, Known, AllZero, SealSignature;
    m2 := ReadF(input, 0).value.0;
    m4 := ReadF(input, ReadF(input, 0).value.1).value.0;
    var items := PairingTlv(m2.body).value;
    peer := PublicKeyOf(items).value;
    shared := s.agree(c.ephemeral.value, peer);
    sig := SignatureOf(s, shared, MSG02, items).value;
  }

  /** Nor does the peer's half hand one out: it read an M1 with a key, and an M3 with a signature over both keys, sealed
      under the secret agreed with that key, that a listed key verifies. */
  lemma AnswerImpliesVerifiedPeer(s: Suite, v: ServerState, input: bytes)
    returns (m1: Packet, m3: Packet, peer: bytes, sig: bytes, shared: bytes)
    requires v.shared.None? && AnswerF(s, v, input).outcome.Ok?
    ensures ReadF(input, 0).Ok? && m1 == ReadF(input, 0).value.0
    ensures var pos := ReadF(input, 0).value.1; ReadF(input, pos).Ok? && m3 == ReadF(input, pos).value.0
    ensures PairingTlv(m1.body).Ok? && PublicKeyOf(PairingTlv(m1.body).value) == Ok(peer) && |peer| == KEY
    ensures v.ephemeral.Some? && shared == s.agree(v.ephemeral.value, peer)
    ensures PairingTlv(m3.body).Ok? && SignatureOf(s, shared, MSG03, PairingTlv(m3.body).value) == Ok(sig)
    ensures Known(s, v.identity.peers, peer + v.public, sig)
    ensures AnswerF(s, v, input).outcome.value.0 == ServerChannel(s, shared)
  {
    hide PairingTlv, SignatureOf, Wrap, ReadF, Serialize, Known, SealSignature;
    m1 := ReadF(input, 0).value.0;
    m3 := ReadF(input, ReadF(input, 0).value.1).value.0;
    peer := PublicKeyOf(PairingTlv(m1.body).value).value;
    shared := s.agree(v.ephemeral.value, peer);
    sig := SignatureOf(s, shared, MSG03, PairingTlv(m3.body).value).value;
  }

  /** The order of the driver's calls is what makes this safe: an M2 whose signer is unknown is refused, yet
      it leaves the secret in place, so `check_m4` alone would still hand out a channel. */
  lemma CheckM4AloneIsNotEnough(s: Suite, c: ClientState, m2: Packet)
    requires ProcessM2F(s, c, m2).0 == Err(UnknownSigner)
    requires s.Lawful()
    ensures var c2 := ProcessM2F(s, c, m2).1;
            && c2.shared.Some?
            && CheckM4F(s, c2, M4) == Ok(ClientChannel(s, c2.shared.value))
  {
    Unwrap([Tlv8.Item(STATE, [4])]);
    hide PairingTlv, SignatureOf, Known, AllZero, SealSignature;
  }

  // ----- Honest runs -----

  const MAX_ITEMS := 4096

  lemma WrapperFits(b: bytes)
    requires |b| <= MAX_ITEMS
    ensures var v := Dict([Entry(Str(PD), Data(b))]);
            OpackTheorems.WithinLimits(v) && |OpackEncode.Enc(v)| <= |b| + 16
  {
    var e := Entry(Str(PD), Data(b));
    var v := Dict([e]);
    PdEntry(b);
    assert [e][1..] == [] && v.pairs == [e];
    EmptyTotals();
    assert NodesPairs([e]) == NodesEntry(e) + NodesPairs([]) && NestPairs([e]) == Max(NestEntry(e), NestPairs([]));
    assert Nodes(v) == 1 + NodesPairs([e]) && Nest(v) == 1 + NestPairs([e]);
    assert OpackEncode.EncPairs([e]) == OpackEncode.EncEntry(e) + OpackEncode.EncPairs([]);
    assert OpackEncode.EncPairs([]) == [];
    assert |OpackEncode.Enc(v)| == 1 + |OpackEncode.EncPairs([e])|;
    assert forall i :: 0 <= i < |v.pairs| ==> v.pairs[i] == e;
  }

  lemma PdEntry(b: bytes)
    requires |b| <= MAX_ITEMS
    ensures var e := Entry(Str(PD), Data(b));
            && WellFormed(e.key) && WellFormed(e.value) && NodesEntry(e) == 2 && NestEntry(e) == 0
            && |OpackEncode.EncEntry(e)| <= 13 + |b|
  {
    Utf8.AsciiDecodes(PD);
    var e := Entry(Str(PD), Data(b));
    assert |OpackEncode.Enc(e.key)| == 4 && |OpackEncode.Enc(e.value)| <= 9 + |b|;
  }

  /** Short item lists without same-type neighbours survive TLV8, OPACK and back. */
  lemma Unwrap(items: seq<Tlv8.Item>)
    requires Tlv8.Merged(items) && |Tlv8.Enc(items)| <= MAX_ITEMS
    ensures PairingTlv(Wrap(items)) == Ok(items)
    ensures |Wrap(items)| <= MAX_ITEMS + 16
  {
    hide OpackEncode.Enc, OpackTheorems.WithinLimits, OpackDecode.DecodeF, Tlv8.Dec;
    var v := Dict([Entry(Str(PD), Data(Tlv8.Enc(items)))]);
    WrapperFits(Tlv8.Enc(items));
    OpackTheorems.RoundTrip(v);
    Tlv8.MergedRoundTrip(items);
  }

  /** A packet written to a stream is read back as it was. */
  lemma Carried(p: Packet)
    requires |p.body| <= MAX_PACKET_BODY && p.ptype != EncryptedData
    ensures Serialize(p).Ok? && ReadF(Serialize(p).value, 0) == Ok((p, |Serialize(p).value|))
  {
    var w := Serialize(p).value;
    assert At(w, 0, w);
    ReadSerialized(p, w, 0);
  }

  lemma EncLengths(kind: byte, value: bytes, rest: seq<Tlv8.Item>)
    requires |value| <= Tlv8.CHUNK
    ensures |Tlv8.Enc([Tlv8.Item(kind, value)] + rest)| == 2 + |value| + |Tlv8.Enc(rest)|
  {
    assert ([Tlv8.Item(kind, value)] + rest)[1..] == rest;
  }

  /** The signature sealed by one side is the one the other side extracts. */
  lemma SignatureCarried(s: Suite, shared: bytes, text: bytes, signing: bytes, signed: bytes, items: seq<Tlv8.Item>)
    requires s.Lawful() && Tlv8.Lookup(items, ENCRYPTED_DATA) == Some(SealSignature(s, shared, text, signing, signed))
    ensures SignatureOf(s, shared, text, items) == Ok(s.sign(signing, signed))
  {
    var inner := [Tlv8.Item(SIGNATURE_ITEM, s.sign(signing, signed))];
    Tlv8.MergedRoundTrip(inner);
    assert Tlv8.Lookup(inner, SIGNATURE_ITEM) == Some(s.sign(signing, signed));
    assert |s.sign(signing, signed)| == SIGNATURE;
  }

  lemma SealLength(s: Suite, shared: bytes, text: bytes, signing: bytes, signed: bytes)
    requires s.Lawful()
    ensures |SealSignature(s, shared, text, signing, signed)| == 2 + SIGNATURE + TAG
  {
    var sig := s.sign(signing, signed);
    assert |sig| == SIGNATURE;
    EncLengths(SIGNATURE_ITEM, sig, []);
    assert [Tlv8.Item(SIGNATURE_ITEM, sig)] + [] == [Tlv8.Item(SIGNATURE_ITEM, sig)];
  }

  lemma M1Carried(public: bytes)
    requires |public| == KEY
    ensures PairingTlv(Wrap(M1Items(public))) == Ok(M1Items(public)) && |Wrap(M1Items(public))| <= 2 * MAX_ITEMS
    ensures PublicKeyOf(M1Items(public)) == Ok(public)
  {
    var flags := [Tlv8.Item(APP_FLAGS, [1])];
    EncLengths(APP_FLAGS, [1], []);
    EncLengths(STATE, [1], flags);
    EncLengths(PUBLIC_KEY, public, [Tlv8.Item(STATE, [1])] + flags);
    assert flags + [] == flags;
    assert M1Items(public) == [Tlv8.Item(PUBLIC_KEY, public)] + ([Tlv8.Item(STATE, [1])] + flags);
    Unwrap(M1Items(public));
  }

  lemma M2Carried(public: bytes, sealed: bytes)
    requires |public| == KEY && |sealed| == 2 + SIGNATURE + TAG
    ensures PairingTlv(Wrap(M2Items(public, sealed))) == Ok(M2Items(public, sealed))
              && |Wrap(M2Items(public, sealed))| <= 2 * MAX_ITEMS
    ensures PublicKeyOf(M2Items(public, sealed)) == Ok(public)
    ensures Tlv8.Lookup(M2Items(public, sealed), ENCRYPTED_DATA) == Some(sealed)
  {
    var state := [Tlv8.Item(STATE, [2])];
    EncLengths(STATE, [2], []);
    EncLengths(ENCRYPTED_DATA, sealed, state);
    EncLengths(PUBLIC_KEY, public, [Tlv8.Item(ENCRYPTED_DATA, sealed)] + state);
    assert state + [] == state;
    assert M2Items(public, sealed) == [Tlv8.Item(PUBLIC_KEY, public)] + ([Tlv8.Item(ENCRYPTED_DATA, sealed)] + state);
    assert M2Items(public, sealed)[1..][0] == Tlv8.Item(ENCRYPTED_DATA, sealed);
    Unwrap(M2Items(public, sealed));
  }

  lemma M3Carried(sealed: bytes)
    requires |sealed| == 2 + SIGNATURE + TAG
    ensures PairingTlv(Wrap(M3Items(sealed))) == Ok(M3Items(sealed)) && |Wrap(M3Items(sealed))| <= 2 * MAX_ITEMS
    ensures Tlv8.Lookup(M3Items(sealed), ENCRYPTED_DATA) == Some(sealed)
  {
    var state := [Tlv8.Item(STATE, [3])];
    EncLengths(STATE, [3], []);
    EncLengths(ENCRYPTED_DATA, sealed, state);
    assert state + [] == state;
    assert M3Items(sealed) == [Tlv8.Item(ENCRYPTED_DATA, sealed)] + state;
    Unwrap(M3Items(sealed));
  }

  lemma M4Carried()
    ensures PairingTlv(M4.body) == Ok([Tlv8.Item(STATE, [4])]) && |M4.body| <= 2 * MAX_ITEMS
  {
    EncLengths(STATE, [4], []);
    assert [Tlv8.Item(STATE, [4])] + [] == [Tlv8.Item(STATE, [4])];
    Unwrap([Tlv8.Item(STATE, [4])]);
  }

  /** `identity` lists the key that `signing` signs with. */
  predicate Lists(s: Suite, identity: Identity, signing: bytes) {
    exists i :: 0 <= i < |identity.peers| && identity.peers[i].1 == s.verifierOf(signing)
  }

  lemma ListedIsKnown(s: Suite, identity: Identity, signing: bytes, text: bytes)
    requires s.Lawful() && Lists(s, identity, signing)
    ensures Known(s, identity.peers, text, s.sign(signing, text))
  {
    var i :| 0 <= i < |identity.peers| && identity.peers[i].1 == s.verifierOf(signing);
    assert s.verify(identity.peers[i].1, text, s.sign(signing, text));
  }

  /** What passes between an honest client and an honest server. */
  datatype Transcript = Transcript(m1: Packet, m2: Packet, m3: Packet, m4: Packet, client: ContentChannel.Ends,
                                   server: ContentChannel.Ends)

  /** Every message is the one its sender's state machine produced from what it was sent, and both accept. */
  ghost predicate Completes(s: Suite, clientSecret: bytes, serverSecret: bytes, ci: Identity, si: Identity,
                            t: Transcript) {
    var c := ClientState(Some(clientSecret), s.publicOf(clientSecret), ci, None);
    var v := ServerState(Some(serverSecret), s.publicOf(serverSecret), si, None, None);
    && t.m1 == Packet(PairVerifyPublicKey, Wrap(M1Items(c.public)))
    && ProcessM1F(s, v, t.m1).0 == Ok(t.m2)
    && ProcessM2F(s, c, t.m2).0 == Ok(t.m3)
    && ProcessM3F(s, ProcessM1F(s, v, t.m1).1, t.m3) == Ok((t.m4, t.server))
    && CheckM4F(s, ProcessM2F(s, c, t.m2).1, t.m4) == Ok(t.client)
  }

  /** Each message as its receiver reads it off the stream. */
  ghost predicate Delivered(p: Packet) {
    Serialize(p).Ok? && ReadF(Serialize(p).value, 0) == Ok((p, |Serialize(p).value|))
  }

  /** An honest client and server that list each other's keys complete M1 to M4 without error, through the
      framing, OPACK, TLV8 and the sealed signatures, and end with mirrored channels at counter zero. */
  lemma HonestHandshake(s: Suite, clientSecret: bytes, serverSecret: bytes, ci: Identity, si: Identity)
    returns (t: Transcript)
    requires s.Lawful()
    requires Lists(s, ci, si.signing) && Lists(s, si, ci.signing)
    requires !AllZero(s.agree(clientSecret, s.publicOf(serverSecret)))
    ensures Completes(s, clientSecret, serverSecret, ci, si, t)
    ensures Delivered(t.m1) && Delivered(t.m2) && Delivered(t.m3) && Delivered(t.m4)
    ensures InStep(t.client, t.server) && InStep(t.server, t.client)
    ensures t.client.encNonce == 0 && t.server.encNonce == 0
  {
    hide PairingTlv, Wrap, SealSignature, SignatureOf, Known, Lists, AllZero, PublicKeyOf, M1Items, M2Items, M3Items;
    var cp, sp := s.publicOf(clientSecret), s.publicOf(serverSecret);
    assert |cp| == KEY && |sp| == KEY;
    var shared := s.agree(serverSecret, cp);
    assert shared == s.agree(clientSecret, sp);
    var seal2 := SealSignature(s, shared, MSG02, si.signing, sp + cp);
    var seal3 := SealSignature(s, shared, MSG03, ci.signing, cp + sp);
    SealLength(s, shared, MSG02, si.signing, sp + cp);
    SealLength(s, shared, MSG03, ci.signing, cp + sp);
    M1Carried(cp);
    M2Carried(sp, seal2);
    M3Carried(seal3);
    M4Carried();
    SignatureCarried(s, shared, MSG02, si.signing, sp + cp, M2Items(sp, seal2));
    SignatureCarried(s, shared, MSG03, ci.signing, cp + sp, M3Items(seal3));
    ListedIsKnown(s, ci, si.signing, sp + cp);
    ListedIsKnown(s, si, ci.signing, cp + sp);
    t := Transcript(
      Packet(PairVerifyPublicKey, Wrap(M1Items(cp))),
      Packet(PairVerifyContinue, Wrap(M2Items(sp, seal2))),
      Packet(PairVerifyContinue, Wrap(M3Items(seal3))),
      M4, ClientChannel(s, shared), ServerChannel(s, shared));
    Carried(t.m1);
    Carried(t.m2);
    Carried(t.m3);
    Carried(t.m4);
  }
}

/** The encrypted channel after Pair-Verify (src/companion.rs): one key and one counter per direction. */
module ContentChannel {
  import opened Bytes
  import opened Crypto

  datatype Error = BadTag | NonceExhausted

  /** The fields of a channel. */
  datatype Ends = Ends(encKey: bytes, decKey: bytes, encNonce: nat, decNonce: nat)

  /** The counter, little endian, then four zero bytes. */
  function Nonce(counter: nat): (n: bytes)
    ensures |n| == 12
  {
    Le(counter, 8) + [0, 0, 0, 0]
  }

  /** `checked_add(1)` on a `u64`. */
  function NextCounter(counter: nat): Option<nat> {
    if counter >= U64_MAX then None else Some(counter + 1)
  }

  function EncryptF(a: Aead, ch: Ends, text: bytes, aad: bytes): (r: (Result<bytes, Error>, Ends)) {
    match NextCounter(ch.encNonce)
    case None => (Err(NonceExhausted), ch)
    case Some(n) => (Ok(a.seal(ch.encKey, Nonce(ch.encNonce), aad, text)), ch.(encNonce := n))
  }

  function DecryptF(a: Aead, ch: Ends, cipher: bytes, aad: bytes): (r: (Result<bytes, Error>, Ends)) {
    match a.open(ch.decKey, Nonce(ch.decNonce), aad, cipher)
    case None => (Err(BadTag), ch)
    case Some(text) =>
      match NextCounter(ch.decNonce)
      case None => (Err(NonceExhausted), ch)
      case Some(n) => (Ok(text), ch.(decNonce := n))
  }

  class Channel {
    const aead: Aead
    var encKey: bytes
    var decKey: bytes
    var encNonce: nat
    var decNonce: nat

    constructor (aead: Aead, encKey: bytes, decKey: bytes)
      ensures this.aead == aead && Now() == Ends(encKey, decKey, 0, 0)
    {
      this.aead := aead;
      this.encKey, this.decKey, encNonce, decNonce := encKey, decKey, 0, 0;
    }

    function Now(): Ends
      reads this
    {
      Ends(encKey, decKey, encNonce, decNonce)
    }

    method Encrypt(text: bytes, aad: bytes) returns (r: Result<bytes, Error>)
      modifies this
      ensures (r, Now()) == EncryptF(aead, old(Now()), text, aad)
    {
      var out := aead.seal(encKey, Nonce(encNonce), aad, text);
      var next := NextCounter(encNonce);
      if next.None? {
        return Err(NonceExhausted);
      }
      encNonce := next.value;
      r := Ok(out);
    }

    method Decrypt(cipher: bytes, aad: bytes) returns (r: Result<bytes, Error>)
      modifies this
      ensures (r, Now()) == DecryptF(aead, old(Now()), cipher, aad)
    {
      var out := aead.open(decKey, Nonce(decNonce), aad, cipher);
      if out.None? {
        return Err(BadTag);
      }
      var next := NextCounter(decNonce);
      if next.None? {
        return Err(NonceExhausted);
      }
      decNonce := next.value;
      r := Ok(out.value);
    }
  }

  /** Different counters give different nonces. */
  lemma NonceInjective(i: nat, j: nat)
    requires i <= U64_MAX && j <= U64_MAX && Nonce(i) == Nonce(j)
    ensures i == j
  {
    var w := |Le(i, 8)|;
    assert Pow256(w) == U64_MAX + 1;
    assert Nonce(i)[..w] == Le(i, w) && Nonce(j)[..w] == Le(j, w);
    LeRoundTrip(i, w);
    LeRoundTrip(j, w);
  }

  // ----- Two channels talking over FIFO wires -----

  /** One sealed message on the wire with the associated data both sides compute for it. */
  datatype Sealed = Sealed(cipher: bytes, aad: bytes, nonce: bytes)

  /** One direction: what was sent, what is in flight, what was received, in order. */
  datatype Lane = Lane(sent: seq<bytes>, wire: seq<Sealed>, received: seq<bytes>, issued: seq<Sealed>)

  datatype World = World(left: Ends, right: Ends, toRight: Lane, toLeft: Lane)

  datatype Event =
    | Send(fromLeft: bool, text: bytes, aad: bytes)
    | Deliver(toLeft: bool)
    | Junk(toLeft: bool, cipher: bytes, aad: bytes)   // bytes that are not the next message arrive

  function SendOn(a: Aead, ch: Ends, lane: Lane, text: bytes, aad: bytes): (Ends, Lane) {
    var (r, next) := EncryptF(a, ch, text, aad);
    match r
    case Err(_) => (next, lane)
    case Ok(c) =>
      var s := Sealed(c, aad, Nonce(ch.encNonce));
      (next, lane.(sent := lane.sent + [text], wire := lane.wire + [s], issued := lane.issued + [s]))
  }

  function DeliverOn(a: Aead, ch: Ends, lane: Lane): (Ends, Lane)
    requires lane.wire != []
  {
    var (r, next) := DecryptF(a, ch, lane.wire[0].cipher, lane.wire[0].aad);
    match r
    case Err(_) => (next, lane.(wire := lane.wire[1..]))
    case Ok(text) => (next, lane.(wire := lane.wire[1..], received := lane.received + [text]))
  }

  /** One step; `None` when it cannot happen: nothing is in flight, or the junk is a forgery. */
  function Step(a: Aead, w: World, e: Event): Option<World> {
    match e
    case Send(true, text, aad) =>
      var (ch, lane) := SendOn(a, w.left, w.toRight, text, aad);
      Some(w.(left := ch, toRight := lane))
    case Send(false, text, aad) =>
      var (ch, lane) := SendOn(a, w.right, w.toLeft, text, aad);
      Some(w.(right := ch, toLeft := lane))
    case Deliver(true) =>
      if w.toLeft.wire == [] then None else
      var (ch, lane) := DeliverOn(a, w.left, w.toLeft); Some(w.(left := ch, toLeft := lane))
    case Deliver(false) =>
      if w.toRight.wire == [] then None else
      var (ch, lane) := DeliverOn(a, w.right, w.toRight); Some(w.(right := ch, toRight := lane))
    case Junk(true, c, aad) => var (r, ch) := DecryptF(a, w.left, c, aad); if r.Ok? then None else Some(w.(left := ch))
    case Junk(false, c, aad) =>
      var (r, ch) := DecryptF(a, w.right, c, aad);
      if r.Ok? then None else Some(w.(right := ch))
  }

  function Run(a: Aead, w: World, events: seq<Event>): Option<World>
    decreases |events|
  {
    if events == [] then Some(w)
    else match Step(a, w, events[0])
      case None => None
      case Some(next) => Run(a, next, events[1..])
  }

  const SILENT := Lane([], [], [], [])

  /** The k-th message is sealed under counter k; the receiver is at the first one in flight. */
  predicate LaneOk(a: Aead, encKey: bytes, encNonce: nat, decKey: bytes, decNonce: nat, lane: Lane) {
    && encKey == decKey
    && encNonce == |lane.sent| == |lane.issued| <= U64_MAX
    && decNonce == |lane.received|
    && |lane.sent| == |lane.received| + |lane.wire|
    && lane.received == lane.sent[..|lane.received|]
    && lane.wire == lane.issued[|lane.received|..]
    && forall k :: 0 <= k < |lane.issued| ==>
         lane.issued[k].nonce == Nonce(k)
           && lane.issued[k].cipher == a.seal(encKey, Nonce(k), lane.issued[k].aad, lane.sent[k])
  }

  predicate Inv(a: Aead, w: World) {
    && LaneOk(a, w.left.encKey, w.left.encNonce, w.right.decKey, w.right.decNonce, w.toRight)
    && LaneOk(a, w.right.encKey, w.right.encNonce, w.left.decKey, w.left.decNonce, w.toLeft)
  }

  lemma SendKeepsLane(a: Aead, ch: Ends, lane: Lane, decKey: bytes, decNonce: nat, text: bytes, aad: bytes)
    requires a.Lawful() && LaneOk(a, ch.encKey, ch.encNonce, decKey, decNonce, lane)
    ensures var (next, lane2) := SendOn(a, ch, lane, text, aad);
            && LaneOk(a, next.encKey, next.encNonce, decKey, decNonce, lane2)
            && next.decKey == ch.decKey && next.decNonce == ch.decNonce
  {
    var (next, lane2) := SendOn(a, ch, lane, text, aad);
    assert lane.sent <= lane2.sent && lane.issued <= lane2.issued;
    assert lane2.issued[|lane.received|..] == lane2.wire;
  }

  lemma DeliverKeepsLane(a: Aead, ch: Ends, lane: Lane, encKey: bytes, encNonce: nat)
    requires a.Lawful() && LaneOk(a, encKey, encNonce, ch.decKey, ch.decNonce, lane) && lane.wire != []
    ensures var (next, lane2) := DeliverOn(a, ch, lane);
            && LaneOk(a, encKey, encNonce, next.decKey, next.decNonce, lane2)
            && lane2.received == lane.received + [lane.sent[|lane.received|]]
            && next.encKey == ch.encKey && next.encNonce == ch.encNonce
  {
    var k := |lane.received|;
    assert lane.wire[0] == lane.issued[k];
    assert a.open(encKey, Nonce(k), lane.issued[k].aad, lane.issued[k].cipher) == Some(lane.sent[k]);
    assert lane.sent[..k + 1] == lane.sent[..k] + [lane.sent[k]];
    assert lane.wire[1..] == lane.issued[k + 1..];
  }

  /** Every step keeps the two ends in step. */
  lemma StepKeepsInv(a: Aead, w: World, e: Event)
    requires a.Lawful() && Inv(a, w) && Step(a, w, e).Some?
    ensures Inv(a, Step(a, w, e).value)
  {
    match e
    case Send(true, text, aad) => SendKeepsLane(a, w.left, w.toRight, w.right.decKey, w.right.decNonce, text, aad);
    case Send(false, text, aad) => SendKeepsLane(a, w.right, w.toLeft, w.left.decKey, w.left.decNonce, text, aad);
    case Deliver(true) => DeliverKeepsLane(a, w.left, w.toLeft, w.right.encKey, w.right.encNonce);
    case Deliver(false) => DeliverKeepsLane(a, w.right, w.toRight, w.left.encKey, w.left.encNonce);
    case Junk(_, _, _) =>
  }

  lemma {:induction false} RunKeepsInv(a: Aead, w: World, events: seq<Event>)
    requires a.Lawful() && Inv(a, w) && Run(a, w, events).Some?
    ensures Inv(a, Run(a, w, events).value)
    decreases |events|
  {
    if events != [] {
      StepKeepsInv(a, w, events[0]);
      RunKeepsInv(a, Step(a, w, events[0]).value, events[1..]);
    }
  }

  /** No two ciphertexts a lane ever issued share a nonce. */
  ghost predicate NoncesDistinct(lane: Lane) {
    forall i, j :: 0 <= i < j < |lane.issued| ==> lane.issued[i].nonce != lane.issued[j].nonce
  }

  /** Over every run of two mirrored channels, with both directions interleaved at will and junk arriving in
      between, each side has received a prefix of what the other sent, in order, and nothing else; whatever
      is not in flight has arrived; and no nonce was used twice, the last counter included. */
  lemma RunDelivers(a: Aead, k1: bytes, k2: bytes, events: seq<Event>)
    requires a.Lawful()
    requires Run(a, World(Ends(k1, k2, 0, 0), Ends(k2, k1, 0, 0), SILENT, SILENT), events).Some?
    ensures var w := Run(a, World(Ends(k1, k2, 0, 0), Ends(k2, k1, 0, 0), SILENT, SILENT), events).value;
            && w.toRight.received <= w.toRight.sent && w.toLeft.received <= w.toLeft.sent
            && |w.toRight.sent| == |w.toRight.received| + |w.toRight.wire|
            && |w.toLeft.sent| == |w.toLeft.received| + |w.toLeft.wire|
            && NoncesDistinct(w.toRight) && NoncesDistinct(w.toLeft)
  {
    var start := World(Ends(k1, k2, 0, 0), Ends(k2, k1, 0, 0), SILENT, SILENT);
    RunKeepsInv(a, start, events);
    var w := Run(a, start, events).value;
    IssuedDistinct(a, w.left.encKey, w.left.encNonce, w.right.decKey, w.right.decNonce, w.toRight);
    IssuedDistinct(a, w.right.encKey, w.right.encNonce, w.left.decKey, w.left.decNonce, w.toLeft);
  }

  lemma IssuedDistinct(a: Aead, encKey: bytes, encNonce: nat, decKey: bytes, decNonce: nat, lane: Lane)
    requires LaneOk(a, encKey, encNonce, decKey, decNonce, lane)
    ensures NoncesDistinct(lane)
  {
    forall i, j | 0 <= i < j < |lane.issued|
      ensures lane.issued[i].nonce != lane.issued[j].nonce
    {
      if Nonce(i) == Nonce(j) {
        NonceInjective(i, j);
      }
    }
  }
}

/** Key transfer over small writes: src/transfer.rs frames and reassembles, Transfer.swift frames alike. */
module Framing {
  import opened Bytes

  const PREFIX: nat := 2
  const HEADER: nat := 4

  datatype Error = FrameTooSmall | PayloadTooLarge | ShortFrame | WrongLength

  /** The length of the payload, then the payload. */
  function Stream(sealed: bytes): (r: bytes)
    ensures |r| == HEADER + |sealed|
  {
    Be(|sealed|, HEADER) + sealed
  }

  /** `chunks(n)`. */
  function Pieces(s: bytes, n: nat): (r: seq<bytes>)
    requires n > 0
    decreases |s|
  {
    if s == [] then [] else if |s| <= n then [s] else [s[..n]] + Pieces(s[n..], n)
  }

  /** A piece behind its length in two bytes; a longer length loses its high bits. */
  function Frame(piece: bytes): bytes {
    Be(|piece|, PREFIX) + piece
  }

  function Framed(pieces: seq<bytes>): (r: seq<bytes>)
    ensures |r| == |pieces| && forall i :: 0 <= i < |r| ==> r[i] == Frame(pieces[i])
  {
    seq(|pieces|, i requires 0 <= i < |pieces| => Frame(pieces[i]))
  }

  function Frames(sealed: bytes, maxFrame: nat): seq<bytes>
    requires maxFrame > PREFIX
  {
    Framed(Pieces(Stream(sealed), maxFrame - PREFIX))
  }

  /** `frame_payload`. */
  method FramePayload(sealed: bytes, maxFrame: nat) returns (r: Result<seq<bytes>, Error>)
    ensures maxFrame <= PREFIX ==> r == Err(FrameTooSmall)
    ensures maxFrame > PREFIX ==> r == if |sealed| > U32_MAX then Err(PayloadTooLarge) else Ok(Frames(sealed, maxFrame))
  {
    if maxFrame <= PREFIX {
      return Err(FrameTooSmall);
    }
    var length := maxFrame - PREFIX;
    if |sealed| > U32_MAX {
      return Err(PayloadTooLarge);
    }
    var stream := Be(|sealed|, HEADER) + sealed;
    var frames: seq<bytes> := [];
    var left := stream;
    while left != []
      invariant Framed(Pieces(stream, length)) == frames + Framed(Pieces(left, length))
      decreases |left|
    {
      var chunk := left[..Min(length, |left|)];
      FramedCons(left, length);
      frames := frames + [Be(|chunk|, PREFIX) + chunk];
      left := left[|chunk|..];
    }
    assert frames + Framed([]) == frames;
    r := Ok(frames);
  }

  lemma FramedCons(s: bytes, n: nat)
    requires n > 0 && s != []
    ensures var k := Min(n, |s|); Framed(Pieces(s, n)) == [Frame(s[..k])] + Framed(Pieces(s[k..], n))
  {
    if |s| <= n {
      assert s[..|s|] == s && s[|s|..] == [];
    }
  }

  /** `framePayload` of the Swift sender. It traps, `None` here, on a length that does not fit its field. */
  method SwiftFramePayload(sealed: bytes, maxFrame: nat) returns (r: Option<seq<bytes>>)
    ensures r.Some? <==>
              maxFrame > PREFIX && |sealed| <= U32_MAX && Min(maxFrame - PREFIX, HEADER + |sealed|) <= U16_MAX
    ensures r.Some? ==> r.value == Frames(sealed, maxFrame)
  {
    if maxFrame <= PREFIX || |sealed| > U32_MAX {
      return None;
    }
    var total := |sealed|;
    var stream: bytes := [Octet(total, 0x100_0000), Octet(total, 0x1_0000), Octet(total, 0x100), Octet(total, 1)];
    FourOctets(total);
    stream := stream + sealed;
    r := SwiftFrames(stream, maxFrame - PREFIX);
  }

  method SwiftFrames(stream: bytes, length: nat) returns (r: Option<seq<bytes>>)
    requires length > 0 && stream != []
    ensures r.Some? <==> Min(length, |stream|) <= U16_MAX
    ensures r.Some? ==> r.value == Framed(Pieces(stream, length))
  {
    hide Pieces, Framed, Frame;
    ghost var all := Framed(Pieces(stream, length));
    var frames: seq<bytes> := [];
    var i := 0;
    assert stream[i..] == stream;
    while i < |stream|
      invariant i <= |stream| && all == frames + Framed(Pieces(stream[i..], length))
      invariant i > 0 ==> Min(length, |stream|) <= U16_MAX
    {
      var end := if i + length <= |stream| then i + length else |stream|;
      var n := end - i;
      if n > U16_MAX {
        return None;
      }
      FramedAt(stream, i, end, length);
      var frame := SwiftFrame(stream[i..end]);
      frames := frames + [frame];
      i := end;
    }
    NoneLeft(stream, i, length);
    r := Some(frames);
  }

  method SwiftFrame(piece: bytes) returns (frame: bytes)
    requires |piece| <= U16_MAX
    ensures frame == Frame(piece)
  {
    hide Octet, Be;
    TwoOctets(|piece|);
    frame := [Octet(|piece|, 0x100), Octet(|piece|, 1)] + piece;
  }

  lemma FramedAt(s: bytes, i: nat, end: nat, n: nat)
    requires n > 0 && i < |s| && end == Min(i + n, |s|)
    ensures i < end && Framed(Pieces(s[i..], n)) == [Frame(s[i..end])] + Framed(Pieces(s[end..], n))
  {
    FramedCons(s[i..], n);
    assert s[i..][..end - i] == s[i..end] && s[i..][end - i..] == s[end..];
  }

  lemma NoneLeft(s: bytes, i: nat, n: nat)
    requires n > 0 && i == |s|
    ensures Framed(Pieces(s[i..], n)) == []
  {
  }

  /** The byte of `n` that counts in units of `unit`. */
  function Octet(n: nat, unit: nat): byte
    requires unit > 0
  {
    (n / unit % 256) as byte
  }

  lemma FourOctets(n: nat)
    requires n <= U32_MAX
    ensures [Octet(n, 0x100_0000), Octet(n, 0x1_0000), Octet(n, 0x100), Octet(n, 1)] == Be(n, HEADER)
  {
    assert Be(n, 4) == Be(n / 256, 3) + [Octet(n, 1)];
    assert Be(n / 256, 3) == Be(n / 256 / 256, 2) + [Octet(n, 0x100)];
    assert n / 256 / 256 == n / 0x1_0000 && n / 256 / 256 / 256 == n / 0x100_0000;
    assert Be(n / 256 / 256, 2) == Be(n / 256 / 256 / 256, 1) + [Octet(n, 0x1_0000)];
    assert Be(n / 256 / 256 / 256, 1) == Be(n / 256 / 256 / 256 / 256, 0) + [Octet(n, 0x100_0000)];
  }

  lemma TwoOctets(n: nat)
    requires n <= U16_MAX
    ensures [Octet(n, 0x100), Octet(n, 1)] == Be(n, PREFIX)
  {
    assert Be(n, 2) == Be(n / 256, 1) + [Octet(n, 1)];
    assert Be(n / 256, 1) == Be(n / 256 / 256, 0) + [Octet(n, 0x100)];
  }

  // ----- the receiver -----

  /** What the receiver knows of the payload's length after these bytes. */
  function Announced(stream: bytes): Option<nat> {
    if |stream| >= HEADER then Some(FromBe(stream[..HEADER])) else None
  }

  predicate Whole(stream: bytes) {
    Announced(stream).Some? && |stream| >= HEADER + Announced(stream).value
  }

  function Payload(stream: bytes): Option<bytes> {
    if Whole(stream) then Some(stream[HEADER..HEADER + Announced(stream).value]) else None
  }

  /** A frame is taken when its prefix is the length of the rest of it. */
  function Body(frame: bytes): Result<bytes, Error> {
    if |frame| < PREFIX then Err(ShortFrame)
    else if FromBe(frame[..PREFIX]) + PREFIX != |frame| then Err(WrongLength)
    else Ok(frame[PREFIX..])
  }

  class Reassembler {
    var stream: bytes
    var expected: Option<nat>

    constructor ()
      ensures Valid() && stream == []
    {
      stream, expected := [], None;
    }

    ghost predicate Valid()
      reads this
    {
      expected == Announced(stream)
    }

    /** `push_frame`. */
    method PushFrame(frame: bytes) returns (r: Result<(), Error>)
      requires Valid()
      modifies this
      ensures Valid()
      ensures r.Ok? <==> Body(frame).Ok?
      ensures r.Err? ==> Body(frame) == Err(r.error)
      ensures stream == if r.Ok? then old(stream) + Body(frame).value else old(stream)
    {
      if |frame| < PREFIX {
        return Err(ShortFrame);
      }
      var declared := FromBe(frame[..PREFIX]);
      if |frame| != declared + PREFIX {
        return Err(WrongLength);
      }
      ghost var was := stream;
      stream := stream + frame[PREFIX..];
      assert |was| >= HEADER ==> stream[..HEADER] == was[..HEADER];
      if expected.None? && |stream| >= HEADER {
        expected := Some(FromBe(stream[..HEADER]));
      }
      r := Ok(());
    }

    method IsComplete() returns (done: bool)
      requires Valid()
      ensures done <==> Whole(stream)
    {
      done := expected.Some? && |stream| >= HEADER + expected.value;
    }

    method TakePayload() returns (r: Option<bytes>)
      requires Valid()
      ensures r == Payload(stream)
    {
      if expected.None? || |stream| < HEADER + expected.value {
        return None;
      }
      r := Some(stream[HEADER..HEADER + expected.value]);
    }

    /** Frames pushed one after the other, up to the first that is refused. */
    method PushAll(frames: seq<bytes>) returns (r: Result<(), Error>)
      requires Valid()
      modifies this
      ensures Valid()
      ensures r.Ok? <==> Received(frames).Ok?
      ensures r.Ok? ==> stream == old(stream) + Received(frames).value
    {
      var k := 0;
      assert frames[0..] == frames;
      while k < |frames|
        invariant k <= |frames| && Valid()
        invariant Received(frames).Ok? <==> Received(frames[k..]).Ok?
        invariant Received(frames).Ok? ==> old(stream) + Received(frames).value == stream + Received(frames[k..]).value
      {
        var one := PushFrame(frames[k]);
        if one.Err? {
          return Err(one.error);
        }
        assert frames[k..][1..] == frames[k + 1..];
        k := k + 1;
      }
      r := Ok(());
    }
  }

  /** The bytes a list of frames carries, if all are accepted. */
  function Received(frames: seq<bytes>): Result<bytes, Error> {
    if frames == [] then Ok([])
    else match Body(frames[0])
      case Err(e) => Err(e)
      case Ok(b) =>
        match Received(frames[1..])
        case Err(e) => Err(e)
        case Ok(rest) => Ok(b + rest)
  }

  // ----- what both ends together promise -----

  /** Every piece has a length between 1 and `n`, and together they are the stream. */
  lemma {:induction false} PiecesCover(s: bytes, n: nat)
    requires n > 0
    ensures Concat(Pieces(s, n)) == s
    ensures forall p :: p in Pieces(s, n) ==> 0 < |p| <= Min(n, |s|)
    decreases |s|
  {
    hide Pieces, Concat;
    PiecesStep(s, n);
    if |s| > n {
      PiecesCover(s[n..], n);
      OneMore(s[..n], Pieces(s[n..], n), Min(n, |s|));
      assert s[..n] + s[n..] == s;
    } else if s != [] {
      OneMore(s, [], Min(n, |s|));
      assert [s] + [] == [s] && s + [] == s;
    }
  }

  lemma PiecesStep(s: bytes, n: nat)
    requires n > 0
    ensures Pieces(s, n) == if s == [] then [] else if |s| <= n then [s] else [s[..n]] + Pieces(s[n..], n)
    ensures Concat([]) == []
  {
  }

  lemma OneMore(piece: bytes, rest: seq<bytes>, most: nat)
    requires 0 < |piece| <= most && forall p :: p in rest ==> 0 < |p| <= most
    ensures Concat([piece] + rest) == piece + Concat(rest)
    ensures forall p :: p in [piece] + rest ==> 0 < |p| <= most
  {
    assert ([piece] + rest)[1..] == rest;
  }

  /** No frame is larger than one write. */
  lemma FramesFit(sealed: bytes, maxFrame: nat)
    requires maxFrame > PREFIX
    ensures forall f :: f in Frames(sealed, maxFrame) ==> PREFIX < |f| <= maxFrame
  {
    hide Pieces, Stream, Concat, Be;
    var pieces := Pieces(Stream(sealed), maxFrame - PREFIX);
    PiecesCover(Stream(sealed), maxFrame - PREFIX);
    forall f | f in Frames(sealed, maxFrame)
      ensures PREFIX < |f| <= maxFrame
    {
      var i :| 0 <= i < |pieces| && f == Frame(pieces[i]);
      assert pieces[i] in pieces;
    }
  }

  lemma FrameIsTaken(piece: bytes)
    ensures Body(Frame(piece)).Ok? <==> |piece| <= U16_MAX
    ensures |piece| <= U16_MAX ==> Body(Frame(piece)).value == piece
  {
    assert Frame(piece)[..PREFIX] == Be(|piece|, PREFIX) && Frame(piece)[PREFIX..] == piece;
    assert Pow256(2) == U16_MAX + 1;
    if |piece| <= U16_MAX {
      BeRoundTrip(|piece|, PREFIX);
    }
  }

  lemma {:induction false} FramedIsReceived(pieces: seq<bytes>)
    ensures Received(Framed(pieces)).Ok? <==> forall p :: p in pieces ==> |p| <= U16_MAX
    ensures Received(Framed(pieces)).Ok? ==> Received(Framed(pieces)).value == Concat(pieces)
  {
    if pieces != [] {
      assert Framed(pieces)[1..] == Framed(pieces[1..]);
      FrameIsTaken(pieces[0]);
      FramedIsReceived(pieces[1..]);
      assert forall p :: p in pieces ==> p == pieces[0] || p in pieces[1..];
    }
  }

  lemma StreamIsWhole(sealed: bytes)
    requires |sealed| <= U32_MAX
    ensures Announced(Stream(sealed)) == Some(|sealed|) && Payload(Stream(sealed)) == Some(sealed)
  {
    assert Pow256(4) == U32_MAX + 1;
    BeRoundTrip(|sealed|, HEADER);
    assert Stream(sealed)[..HEADER] == Be(|sealed|, HEADER);
    assert Stream(sealed)[HEADER..HEADER + |sealed|] == sealed;
  }

  /** The frames of a payload are all accepted exactly when the first piece's length fits its prefix, and then they
      carry the stream, which is whole and holds the payload. */
  lemma FramesAreReceived(sealed: bytes, maxFrame: nat)
    requires maxFrame > PREFIX && |sealed| <= U32_MAX
    ensures Received(Frames(sealed, maxFrame)).Ok? <==> Min(maxFrame - PREFIX, HEADER + |sealed|) <= U16_MAX
    ensures Received(Frames(sealed, maxFrame)).Ok? ==>
              Received(Frames(sealed, maxFrame)).value == Stream(sealed) && Payload(Stream(sealed)) == Some(sealed)
  {
    var n := maxFrame - PREFIX;
    var pieces := Pieces(Stream(sealed), n);
    assert pieces != [] && |pieces[0]| == Min(n, HEADER + |sealed|);
    hide Pieces, Received, Framed, Concat, Payload, Announced;
    PiecesCover(Stream(sealed), n);
    FramedIsReceived(pieces);
    StreamIsWhole(sealed);
    assert pieces[0] in pieces;
  }

  /** Until the last frame the payload is not complete. */
  lemma NotCompleteBefore(sealed: bytes, maxFrame: nat, k: nat)
    requires PREFIX < maxFrame <= PREFIX + U16_MAX && |sealed| <= U32_MAX && k < |Frames(sealed, maxFrame)|
    ensures Received(Frames(sealed, maxFrame)[..k]).Ok? && !Whole(Received(Frames(sealed, maxFrame)[..k]).value)
  {
    hide Pieces, Received, Concat, Whole;
    var n := maxFrame - PREFIX;
    var pieces := Pieces(Stream(sealed), n);
    PiecesCover(Stream(sealed), n);
    assert Frames(sealed, maxFrame)[..k] == Framed(pieces[..k]);
    FramedIsReceived(pieces[..k]);
    FewerPieces(pieces, k);
    PrefixIsNotWhole(sealed, Concat(pieces[..k]));
  }

  lemma FewerPieces(pieces: seq<bytes>, k: nat)
    requires k < |pieces| && forall p :: p in pieces ==> p != []
    ensures Concat(pieces[..k]) <= Concat(pieces) && |Concat(pieces[..k])| < |Concat(pieces)|
    ensures forall p :: p in pieces[..k] ==> p in pieces
  {
    assert pieces == pieces[..k] + pieces[k..];
    ConcatAppend(pieces[..k], pieces[k..]);
    assert pieces[k] in pieces && pieces[k..][0] == pieces[k];
  }

  lemma PrefixIsNotWhole(sealed: bytes, head: bytes)
    requires |sealed| <= U32_MAX && head <= Stream(sealed) && |head| < |Stream(sealed)|
    ensures !Whole(head)
  {
    StreamIsWhole(sealed);
    if |head| >= HEADER {
      assert head[..HEADER] == Stream(sealed)[..HEADER];
    }
  }

  /** Once complete, nothing that is accepted later changes the payload. */
  lemma CompleteIsFinal(stream: bytes, later: bytes)
    requires Whole(stream)
    ensures Whole(stream + later) && Payload(stream + later) == Payload(stream)
  {
    var all, n := stream + later, HEADER + Announced(stream).value;
    assert all[..HEADER] == stream[..HEADER];
    assert all[HEADER..n] == stream[HEADER..n];
  }

  lemma PayloadIsWhole(stream: bytes, sealed: bytes)
    requires Payload(stream) == Some(sealed)
    ensures Whole(stream)
  {
  }

  /** From either sender to the receiver, whatever frames come afterwards. */
  method Transferred(sealed: bytes, maxFrame: nat, later: seq<bytes>) returns (ok: bool, payload: Option<bytes>)
    requires PREFIX < maxFrame <= PREFIX + U16_MAX && |sealed| <= U32_MAX
    ensures ok && payload == Some(sealed)
  {
    hide Frames, Received, Stream, Body, Whole, Payload, Announced;
    var frames := FramePayload(sealed, maxFrame);
    var swift := SwiftFramePayload(sealed, maxFrame);
    FramesAreReceived(sealed, maxFrame);
    ok := frames.Ok? && swift == Some(frames.value);
    var receiver := new Reassembler();
    var pushed := receiver.PushAll(frames.value);
    ghost var whole := receiver.stream;
    assert whole == Received(frames.value).value;
    PayloadIsWhole(whole, sealed);
    var done := receiver.IsComplete();
    ok := ok && done && pushed.Ok?;
    var k := 0;
    while k < |later|
      invariant receiver.Valid() && whole <= receiver.stream
    {
      var _ := receiver.PushFrame(later[k]);
      k := k + 1;
    }
    CompleteIsFinal(whole, receiver.stream[|whole|..]);
    assert whole + receiver.stream[|whole|..] == receiver.stream;
    payload := receiver.TakePayload();
  }
}

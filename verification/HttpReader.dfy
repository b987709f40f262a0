/** The reader itself: it sees the stream only through a buffer that is filled by however much the peer's bytes
    happen to have arrived, and still reads what the unread bytes say, no more and no less. */
module HttpReader {
  import opened Bytes
  import opened HttpText
  import opened Http
  import Utf8
  import Grants = Sessions
  import AuthLog

  /** A buffered stream. `buffer` holds what was read ahead, `wire` what is still to arrive. */
  class Reader {
    var buffer: bytes
    var wire: bytes

    constructor (wire: bytes)
      ensures Unread() == wire
    {
      this.buffer := [];
      this.wire := wire;
    }

    /** What is not consumed yet. */
    ghost function Unread(): bytes
      reads this
    {
      buffer + wire
    }

    /** `fill_buf`: an empty buffer is filled with the next bytes, as many as there happen to be. */
    method FillBuf()
      modifies this
      ensures Unread() == old(Unread())
      ensures buffer == [] <==> Unread() == []
    {
      if buffer == [] && wire != [] {
        var n: nat :| 1 <= n <= |wire|;
        buffer, wire := wire[..n], wire[n..];
      }
    }

    method Consume(n: nat)
      requires n <= |buffer|
      modifies this
      ensures old(Unread())[n..] == Unread()
    {
      buffer := buffer[n..];
    }

    /** `read_exact`. */
    method ReadExact(n: nat) returns (r: Result<bytes, Error>)
      modifies this
      ensures r.Err? <==> |old(Unread())| < n
      ensures r.Err? ==> r.error == Closed
      ensures r.Ok? ==> |r.value| == n && old(Unread()) == r.value + Unread()
    {
      var got: bytes := [];
      while |got| < n
        invariant |got| <= n && old(Unread()) == got + Unread()
        decreases n - |got|
      {
        FillBuf();
        if buffer == [] {
          return Err(Closed);
        }
        var k := Min(n - |got|, |buffer|);
        MovePiece(got, buffer, wire, k);
        got := got + buffer[..k];
        Consume(k);
      }
      r := Ok(got);
    }

    /** The bytes up to and including the next line feed, at most 8192 of them. */
    method ReadToFeed() returns (r: Result<bytes, Error>)
      modifies this
      ensures r.Ok? ==> old(Unread()) == r.value + Unread() && IsLine(r.value)
      ensures r.Err? ==> LineOf(old(Unread())) == Err(r.error)
    {
      hide LineOf, LineFeed, IsLine;
      ghost var all := Unread();
      var b: bytes := [];
      while b == [] || b[|b| - 1] != LF
        invariant all == b + Unread() && |b| <= MAX_LINE
        invariant LF !in b || IsLine(b)
        decreases |Unread()|
      {
        LineEnds(b);
        FillBuf();
        if buffer == [] {
          NoLine(all);
          return Err(Closed);
        }
        var feed := LineFeed(buffer);
        var n := if feed.Some? then feed.value + 1 else |buffer|;
        FirstPiece(buffer, n);
        OneMorePiece(b, buffer[..n]);
        if |b| + n > MAX_LINE {
          LongLine(all, b + buffer[..n]);
          return Err(LineTooLong);
        }
        MovePiece(b, buffer, wire, n);
        b := b + buffer[..n];
        Consume(n);
      }
      r := Ok(b);
    }

    /** `line`. */
    method ReadLine() returns (r: Result<Line, Error>)
      modifies this
      ensures r == LineValue(old(Unread()))
      ensures r.Ok? ==> Unread() == LineOf(old(Unread())).value.rest
    {
      hide LineOf, Utf8.Decode;
      ghost var all := Unread();
      var taken := ReadToFeed();
      if taken.Err? {
        return Err(taken.error);
      }
      var b := taken.value;
      LineByFeed(all, b);
      if |b| == 1 || b[|b| - 2] != CR {
        return Err(BadEnding);
      }
      var text := Utf8.Decode(b[..|b| - 2]);
      if text.None? {
        return Err(NotText);
      }
      r := Ok(Line(text.value, |b| - 2));
    }

    method ReadHeaders() returns (r: Result<Headers, Error>)
      modifies this
      ensures r == ValueOf(HeadersOf(old(Unread()), 0, map[]))
      ensures r.Ok? ==> Unread() == HeadersOf(old(Unread()), 0, map[]).value.rest
    {
      hide LineOf, WithHeader;
      ghost var all := Unread();
      var headers: Headers, total: nat := map[], 0;
      while true
        invariant HeadersOf(all, 0, map[]) == HeadersOf(Unread(), total, headers)
        decreases |Unread()|
      {
        var line := ReadLine();
        if line.Err? {
          return Err(line.error);
        }
        total := total + line.value.size;
        if total > MAX_HEADERS {
          return Err(HeadersTooLarge);
        }
        if line.value.size == 0 {
          return Ok(headers);
        }
        var more := WithHeader(headers, line.value.text);
        if more.Err? {
          return Err(more.error);
        }
        headers := more.value;
      }
    }

    method ReadHead() returns (r: Result<Head, Error>)
      modifies this
      ensures r == ValueOf(HeadOf(old(Unread())))
      ensures r.Ok? ==> Unread() == HeadOf(old(Unread())).value.rest
    {
      hide LineOf, HeadersOf, RequestLine;
      var first := ReadLine();
      if first.Err? {
        return Err(first.error);
      }
      var path := RequestLine(first.value.text);
      if path.Err? {
        return Err(path.error);
      }
      var headers := ReadHeaders();
      if headers.Err? {
        return Err(headers.error);
      }
      r := Ok(Head(path.value, headers.value));
    }

    /** `copy_body`: the next `n` bytes, 64 KiB at a time, behind those already there. */
    method CopyBody(body: bytes, n: nat) returns (r: Result<bytes, Error>)
      modifies this
      ensures r.Err? <==> |old(Unread())| < n
      ensures r.Err? ==> r.error == Closed
      ensures r.Ok? ==> r.value == body + old(Unread())[..n] && Unread() == old(Unread())[n..]
    {
      ghost var all := Unread();
      var copied: bytes, left := [], n;
      while left > 0
        invariant 0 <= left <= n && |copied| == n - left && all == copied + Unread()
      {
        var piece := ReadExact(Min(left, PIECE));
        if piece.Err? {
          return Err(Closed);
        }
        copied := copied + piece.value;
        left := left - |piece.value|;
      }
      assert (copied + Unread())[..n] == copied && (copied + Unread())[n..] == Unread();
      r := Ok(body + copied);
    }

    method ReadTrailers() returns (r: Result<(), Error>)
      modifies this
      ensures r.Ok? <==> TrailersOf(old(Unread()), 0).Ok?
      ensures r.Ok? ==> Unread() == TrailersOf(old(Unread()), 0).value
      ensures r.Err? ==> TrailersOf(old(Unread()), 0) == Err(r.error)
    {
      hide LineOf;
      ghost var all := Unread();
      var total: nat := 0;
      while true
        invariant TrailersOf(all, 0) == TrailersOf(Unread(), total)
        decreases |Unread()|
      {
        var line := ReadLine();
        if line.Err? {
          return Err(line.error);
        }
        total := total + line.value.size;
        if total > MAX_TRAILERS {
          return Err(TrailersTooLarge);
        }
        if line.value.size == 0 {
          return Ok(());
        }
      }
    }

    /** One turn of the chunk loop: the body with the next chunk, or `None` after the last size line. */
    method ReadChunk(body: bytes, limit: nat) returns (r: Result<Option<bytes>, Error>)
      requires |body| <= limit
      modifies this
      ensures r.Err? ==> ChunkOf(old(Unread()), limit - |body|) == Err(r.error)
      ensures r.Ok? ==>
                ChunkOf(old(Unread()), limit - |body|).Ok?
                && Unread() == ChunkOf(old(Unread()), limit - |body|).value.rest
      ensures r.Ok? ==>
                r.value == match ChunkOf(old(Unread()), limit - |body|).value.value
                           case None => None
                           case Some(c) => Some(body + c)
    {
      hide LineOf, ChunkSize;
      var line := ReadLine();
      if line.Err? {
        return Err(line.error);
      }
      var n := ChunkSize(line.value.text);
      if n.None? {
        return Err(BadChunkSize);
      }
      if n.value == 0 {
        return Ok(None);
      }
      if n.value > limit - |body| {
        return Err(BodyTooLarge);
      }
      ghost var rest := Unread();
      var longer := CopyBody(body, n.value);
      if longer.Err? {
        return Err(longer.error);
      }
      var end := ReadExact(2);
      if end.Err? {
        return Err(end.error);
      }
      assert rest == rest[..n.value] + end.value + Unread();
      assert rest[n.value..n.value + 2] == end.value && rest[n.value + 2..] == Unread();
      if end.value != [CR, LF] {
        return Err(BadTerminator);
      }
      r := Ok(Some(longer.value));
    }

    method ReadChunks(limit: nat) returns (r: Result<bytes, Error>)
      modifies this
      ensures r == ValueOf(ChunksOf(old(Unread()), [], limit))
      ensures r.Ok? ==> Unread() == ChunksOf(old(Unread()), [], limit).value.rest
    {
      hide ChunkOf, TrailersOf;
      ghost var all := Unread();
      var body: bytes := [];
      while true
        invariant |body| <= limit
        invariant ChunksOf(all, [], limit) == ChunksOf(Unread(), body, limit)
        decreases |Unread()|
      {
        var next := ReadChunk(body, limit);
        if next.Err? {
          return Err(next.error);
        }
        if next.value.None? {
          var end := ReadTrailers();
          if end.Err? {
            return Err(end.error);
          }
          return Ok(body);
        }
        body := next.value.value;
      }
    }

    method ReadBody(headers: Headers, limit: nat) returns (r: Result<bytes, Error>)
      modifies this
      ensures r == ValueOf(BodyOf(old(Unread()), headers, limit))
      ensures r.Ok? ==> Unread() == BodyOf(old(Unread()), headers, limit).value.rest
    {
      hide ChunksOf, FramingOf;
      var framing := FramingOf(headers, limit);
      match framing
      case Err(e) => r := Err(e);
      case Ok(Chunked) => r := ReadChunks(limit);
      case Ok(Length(n)) =>
        assert [] + Unread()[..Min(n, |Unread()|)] == Unread()[..Min(n, |Unread()|)];
        r := CopyBody([], n);
    }

    /** `read_inner`. The gate is asked, and the peer's grant spent, only for an upload whose head is complete; a
        refused upload leaves every byte behind its head unread. */
    method Read(spool: bool, sessions: Grants.Sessions, peer: AuthLog.Address, now: nat)
      returns (r: Result<Request, Error>)
      modifies this, sessions
      ensures r == ValueOf(RequestOf(old(Unread()), spool, Grants.Authorized(old(sessions.approved), peer, now)))
      ensures r.Ok? ==>
                Unread()
                == RequestOf(old(Unread()), spool, Grants.Authorized(old(sessions.approved), peer, now)).value.rest
      ensures r == Err(Forbidden) ==> HeadOf(old(Unread())).Ok? && Unread() == HeadOf(old(Unread())).value.rest
      ensures sessions.approved == if HeadOf(old(Unread())).Ok? && HeadOf(old(Unread())).value.value.path == Upload
                                   then old(sessions.approved) - {peer} else old(sessions.approved)
    {
      hide HeadOf, BodyOf;
      var head := ReadHead();
      if head.Err? {
        HeadIsNotForbidden(old(Unread()));
        return Err(head.error);
      }
      if head.value.path == Upload {
        var ok := sessions.Authorize(peer, now);
        if !ok {
          return Err(Forbidden);
        }
      }
      var limit := Limit(head.value.path, spool);
      BodyIsNotForbidden(Unread(), head.value.headers, limit);
      var body := ReadBody(head.value.headers, limit);
      if body.Err? {
        return Err(body.error);
      }
      r := Ok(Assemble(head.value, body.value, spool));
    }
  }

  function ValueOf<T>(p: Result<Parsed<T>, Error>): Result<T, Error> {
    match p case Err(e) => Err(e) case Ok(x) => Ok(x.value)
  }

  // ----- only the gate forbids -----

  lemma LineIsNotForbidden(u: bytes)
    ensures LineOf(u) != Err(Forbidden)
  {
  }

  lemma {:induction false} HeadersAreNotForbidden(u: bytes, total: nat, headers: Headers)
    ensures HeadersOf(u, total, headers) != Err(Forbidden)
    decreases |u|
  {
    hide LineOf, WithHeader;
    LineIsNotForbidden(u);
    if LineOf(u).Ok? {
      var l := LineOf(u).value;
      var more := WithHeader(headers, l.value.text);
      HeaderIsNotForbidden(headers, l.value.text);
      if more.Ok? {
        HeadersAreNotForbidden(l.rest, total + l.value.size, more.value);
      }
    }
  }

  lemma HeaderIsNotForbidden(headers: Headers, t: Text)
    ensures WithHeader(headers, t) != Err(Forbidden)
  {
  }

  lemma HeadIsNotForbidden(u: bytes)
    ensures HeadOf(u) != Err(Forbidden)
  {
    hide LineOf, HeadersOf;
    LineIsNotForbidden(u);
    if LineOf(u).Ok? {
      HeadersAreNotForbidden(LineOf(u).value.rest, 0, map[]);
    }
  }

  lemma {:induction false} TrailersAreNotForbidden(u: bytes, total: nat)
    ensures TrailersOf(u, total) != Err(Forbidden)
    decreases |u|
  {
    hide LineOf;
    LineIsNotForbidden(u);
    if LineOf(u).Ok? {
      TrailersAreNotForbidden(LineOf(u).value.rest, total + LineOf(u).value.value.size);
    }
  }

  lemma {:induction false} ChunksAreNotForbidden(u: bytes, body: bytes, limit: nat)
    requires |body| <= limit
    ensures ChunksOf(u, body, limit) != Err(Forbidden)
    decreases |u|
  {
    hide LineOf;
    LineIsNotForbidden(u);
    var c := ChunkOf(u, limit - |body|);
    if c.Ok? {
      if c.value.value.None? {
        TrailersAreNotForbidden(c.value.rest, 0);
      } else {
        ChunksAreNotForbidden(c.value.rest, body + c.value.value.value, limit);
      }
    }
  }

  lemma BodyIsNotForbidden(u: bytes, headers: Headers, limit: nat)
    ensures BodyOf(u, headers, limit) != Err(Forbidden)
  {
    hide ChunksOf;
    ChunksAreNotForbidden(u, [], limit);
  }

  /** `LineOf` without what it leaves. */
  function LineValue(u: bytes): Result<Line, Error> {
    match LineOf(u) case Err(e) => Err(e) case Ok(l) => Ok(l.value)
  }

  lemma {:induction false} FeedIs(u: bytes, k: nat)
    requires k < |u| && u[k] == LF && LF !in u[..k]
    ensures LineFeed(u) == Some(k)
  {
    if k > 0 {
      assert u[0] in u[..k] && u[1..][..k - 1] == u[..k][1..];
      FeedIs(u[1..], k - 1);
    }
  }

  lemma NoLine(u: bytes)
    requires LF !in u && |u| <= MAX_LINE
    ensures LineOf(u) == Err(Closed)
  {
  }

  /** One line feed, at the end, and no more bytes than a line may have. */
  predicate IsLine(b: bytes) {
    b != [] && b[|b| - 1] == LF && LF !in b[..|b| - 1] && |b| <= MAX_LINE
  }

  lemma LineEnds(b: bytes)
    ensures IsLine(b) ==> b != [] && b[|b| - 1] == LF
  {
  }

  /** A buffer's bytes up to its first line feed. */
  lemma FirstPiece(buffer: bytes, n: nat)
    requires buffer != []
    requires n == if LineFeed(buffer).Some? then LineFeed(buffer).value + 1 else |buffer|
    ensures 0 < n <= |buffer| && LF !in buffer[..n][..n - 1]
  {
    assert buffer[..n][..n - 1] == buffer[..n - 1];
  }

  /** Such a piece behind bytes without a line feed. */
  lemma OneMorePiece(b: bytes, piece: bytes)
    requires LF !in b && piece != [] && LF !in piece[..|piece| - 1]
    ensures LF !in (b + piece)[..|b| + |piece| - 1]
    ensures |b| + |piece| <= MAX_LINE ==> LF !in b + piece || IsLine(b + piece)
  {
    var most, last := piece[..|piece| - 1], piece[|piece| - 1];
    assert b + piece == (b + most) + [last];
    assert (b + piece)[..|b| + |piece| - 1] == b + most;
  }

  lemma MovePiece(b: bytes, buffer: bytes, wire: bytes, n: nat)
    requires n <= |buffer|
    ensures b + (buffer + wire) == (b + buffer[..n]) + (buffer + wire)[n..]
  {
  }

  lemma LongLine(u: bytes, b: bytes)
    requires b <= u && |b| > MAX_LINE && LF !in b[..|b| - 1]
    ensures LineOf(u) == Err(LineTooLong)
  {
    forall i | 0 <= i < |b| - 1
      ensures u[i] != LF
    {
      assert b[..|b| - 1][i] == u[i];
    }
  }

  lemma LineByFeed(u: bytes, b: bytes)
    requires b <= u && IsLine(b)
    ensures LineOf(u) == if |b| == 1 || b[|b| - 2] != CR then Err(BadEnding)
                         else match Utf8.Decode(b[..|b| - 2])
                           case None => Err(NotText)
                           case Some(text) => Ok(Parsed(Line(text, |b| - 2), u[|b|..]))
  {
    assert u[..|b| - 1] == b[..|b| - 1];
    FeedIs(u, |b| - 1);
    if |b| > 1 {
      assert u[..|b| - 2] == b[..|b| - 2];
    }
  }
}

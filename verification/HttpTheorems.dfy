/** What the reader promises whoever writes to it: requests delimit themselves, however a body is cut into chunks,
    and a pipeline of requests is read as it was written. */
module HttpTheorems {
  import opened Bytes
  import opened HttpText
  import opened Http
  import opened HttpGrammar
  import opened HttpFraming
  import Radix

  /** The same thing, with `more` behind it. */
  function Behind<T>(p: Result<Parsed<T>, Error>, more: bytes): Result<Parsed<T>, Error> {
    match p case Err(e) => Err(e) case Ok(x) => Ok(Parsed(x.value, x.rest + more))
  }

  // ----- bytes behind a request change nothing in it -----

  lemma {:induction false} HeadersAppend(u: bytes, more: bytes, total: nat, headers: Headers)
    requires HeadersOf(u, total, headers).Ok?
    ensures HeadersOf(u + more, total, headers) == Behind(HeadersOf(u, total, headers), more)
    decreases |u|
  {
    hide LineOf, WithHeader;
    LineAppend(u, more);
    var l := LineOf(u).value;
    if l.value.size > 0 {
      HeadersAppend(l.rest, more, total + l.value.size, WithHeader(headers, l.value.text).value);
    }
  }

  lemma HeadAppend(u: bytes, more: bytes)
    requires HeadOf(u).Ok?
    ensures HeadOf(u + more) == Behind(HeadOf(u), more)
  {
    hide LineOf, RequestLine, HeadersOf;
    LineAppend(u, more);
    HeadersAppend(LineOf(u).value.rest, more, 0, map[]);
  }

  lemma {:induction false} TrailersAppend(u: bytes, more: bytes, total: nat)
    requires TrailersOf(u, total).Ok?
    ensures TrailersOf(u + more, total) == Ok(TrailersOf(u, total).value + more)
    decreases |u|
  {
    hide LineOf;
    LineAppend(u, more);
    var l := LineOf(u).value;
    if l.value.size > 0 {
      TrailersAppend(l.rest, more, total + l.value.size);
    }
  }

  lemma ChunkAppend(u: bytes, more: bytes, room: nat)
    requires ChunkOf(u, room).Ok?
    ensures ChunkOf(u + more, room) == Behind(ChunkOf(u, room), more)
  {
    hide LineOf, ChunkSize;
    LineAppend(u, more);
    var l := LineOf(u).value;
    var n := ChunkSize(l.value.text).value;
    if n > 0 {
      var all := l.rest + more;
      assert all[..n] == l.rest[..n] && all[n..n + 2] == l.rest[n..n + 2] && all[n + 2..] == l.rest[n + 2..] + more;
    }
  }

  lemma {:induction false} ChunksAppend(u: bytes, more: bytes, body: bytes, limit: nat)
    requires |body| <= limit && ChunksOf(u, body, limit).Ok?
    ensures ChunksOf(u + more, body, limit) == Behind(ChunksOf(u, body, limit), more)
    decreases |u|
  {
    hide ChunkOf, TrailersOf;
    ChunkAppend(u, more, limit - |body|);
    var c := ChunkOf(u, limit - |body|).value;
    if c.value.None? {
      TrailersAppend(c.rest, more, 0);
    } else {
      ChunksAppend(c.rest, more, body + c.value.value, limit);
    }
  }

  lemma BodyAppend(u: bytes, more: bytes, headers: Headers, limit: nat)
    requires BodyOf(u, headers, limit).Ok?
    ensures BodyOf(u + more, headers, limit) == Behind(BodyOf(u, headers, limit), more)
  {
    hide ChunksOf, FramingOf;
    match FramingOf(headers, limit).value
    case Chunked => ChunksAppend(u, more, [], limit);
    case Length(n) => assert (u + more)[..n] == u[..n] && (u + more)[n..] == u[n..] + more;
  }

  /** A request is read the same whatever follows it, and what follows is left as it is. */
  lemma RequestAppend(u: bytes, more: bytes, spool: bool, authorized: bool)
    requires RequestOf(u, spool, authorized).Ok?
    ensures RequestOf(u + more, spool, authorized) == Behind(RequestOf(u, spool, authorized), more)
  {
    hide HeadOf, BodyOf;
    HeadAppend(u, more);
    var h := HeadOf(u).value;
    BodyAppend(h.rest, more, h.value.headers, Limit(h.value.path, spool));
  }

  /** No proper prefix of a whole request is a request. */
  lemma RequestsArePrefixFree(u: bytes, k: nat, spool: bool, authorized: bool)
    requires RequestOf(u, spool, authorized).Ok? && RequestOf(u, spool, authorized).value.rest == []
    requires k < |u|
    ensures RequestOf(u[..k], spool, authorized).Err?
  {
    hide RequestOf;
    assert u[..k] + u[k..] == u;
    if RequestOf(u[..k], spool, authorized).Ok? {
      RequestAppend(u[..k], u[k..], spool, authorized);
    }
  }

  // ----- a body in chunks -----

  /** A chunk as it is sent; the size line may spell the size in any way and carry extensions. */
  datatype Chunk = Chunk(sizeLine: bytes, data: bytes)

  ghost predicate GoodChunk(c: Chunk) {
    c.data != [] && SizeLine(c.sizeLine, |c.data|)
  }

  function Wire(chunks: seq<Chunk>): bytes {
    if chunks == [] then [] else chunks[0].sizeLine + chunks[0].data + [CR, LF] + Wire(chunks[1..])
  }

  function Data(chunks: seq<Chunk>): bytes {
    if chunks == [] then [] else chunks[0].data + Data(chunks[1..])
  }

  lemma PartsOf(a: bytes, b: bytes, c: bytes)
    ensures (a + b + c)[..|a|] == a && (a + b + c)[|a|..|a| + |b|] == b && (a + b + c)[|a| + |b|..] == c
  {
  }

  lemma AnnouncedIsRead(line: bytes, n: nat, rest: bytes, room: nat)
    requires SizeLine(line, n)
    ensures ChunkOf(line + rest, room) == SizedChunk(rest, n, room)
  {
    hide LineOf, ChunkSize, SizedChunk, SizeLine;
    SizeLineIsRead(line, n);
    LineAppend(line, rest);
    assert [] + rest == rest;
  }

  /** One chunk is taken off the front, if there is room for it. */
  lemma ChunkIsRead(c: Chunk, more: bytes, room: nat)
    requires GoodChunk(c)
    ensures ChunkOf(c.sizeLine + c.data + [CR, LF] + more, room)
         == if |c.data| <= room then Ok(Parsed(Some(c.data), more)) else Err(BodyTooLarge)
  {
    hide ChunkOf, SizeLine;
    assert c.sizeLine + c.data + [CR, LF] + more == c.sizeLine + (c.data + [CR, LF] + more);
    AnnouncedIsRead(c.sizeLine, |c.data|, c.data + [CR, LF] + more, room);
    PartsOf(c.data, [CR, LF], more);
  }

  lemma LastChunkIsRead(last: bytes, more: bytes, room: nat)
    requires SizeLine(last, 0)
    ensures ChunkOf(last + more, room) == Ok(Parsed(None, more))
  {
    AnnouncedIsRead(last, 0, more, room);
  }

  /** However the body is cut into chunks, the chunks together are read, exactly to their end. */
  lemma {:induction false} ChunksAreRead(chunks: seq<Chunk>, last: bytes, trailers: bytes, more: bytes, body: bytes,
                                         limit: nat)
    requires forall c :: c in chunks ==> GoodChunk(c)
    requires SizeLine(last, 0) && Trailers(trailers)
    requires |body| + |Data(chunks)| <= limit
    ensures ChunksOf(Wire(chunks) + last + trailers + more, body, limit) == Ok(Parsed(body + Data(chunks), more))
    decreases |chunks|
  {
    hide ChunkOf, TrailersOf, GoodChunk, SizeLine, Trailers;
    var u := Wire(chunks) + last + trailers + more;
    if chunks == [] {
      assert u == last + (trailers + more);
      LastChunkIsRead(last, trailers + more, limit - |body|);
      TrailersAreRead(trailers, more);
      assert body + [] == body;
    } else {
      var c := chunks[0];
      var rest := Wire(chunks[1..]) + last + trailers + more;
      assert u == c.sizeLine + c.data + [CR, LF] + rest;
      ChunkIsRead(c, rest, limit - |body|);
      ChunksAreRead(chunks[1..], last, trailers, more, body + c.data, limit);
      assert body + c.data + Data(chunks[1..]) == body + Data(chunks);
    }
  }

  /** A body longer than the limit is refused, however it is cut. */
  lemma {:induction false} LongBodiesAreRefused(chunks: seq<Chunk>, more: bytes, body: bytes, limit: nat)
    requires forall c :: c in chunks ==> GoodChunk(c)
    requires |body| <= limit < |body| + |Data(chunks)|
    ensures ChunksOf(Wire(chunks) + more, body, limit) == Err(BodyTooLarge)
    decreases |chunks|
  {
    hide ChunkOf, TrailersOf, GoodChunk, SizeLine, Trailers;
    var u := Wire(chunks) + more;
    var c := chunks[0];
    var rest := Wire(chunks[1..]) + more;
    assert u == c.sizeLine + c.data + [CR, LF] + rest;
    ChunkIsRead(c, rest, limit - |body|);
    if |c.data| <= limit - |body| {
      LongBodiesAreRefused(chunks[1..], more, body + c.data, limit);
    }
  }

  /** The usual size line, plain lower-case hexadecimal. */
  lemma PlainChunkIsGood(data: bytes)
    requires 0 < |data| <= U64_MAX
    ensures GoodChunk(Chunk(Radix.Digits(|data|, 16) + [CR, LF], data))
  {
    PlainLine(|data|);
  }

  lemma SixteenDigits()
    ensures Radix.Pow(16, 16) == U64_MAX + 1
  {
    assert Radix.Pow(16, 2) == 0x100;
    assert Radix.Pow(16, 4) == 0x1_0000;
    assert Radix.Pow(16, 6) == 0x100_0000;
    assert Radix.Pow(16, 8) == 0x1_0000_0000;
    assert Radix.Pow(16, 10) == 0x100_0000_0000;
    assert Radix.Pow(16, 12) == 0x1_0000_0000_0000;
    assert Radix.Pow(16, 14) == 0x100_0000_0000_0000;
  }

  lemma PlainLine(n: nat)
    requires n <= U64_MAX
    ensures SizeLine(Radix.Digits(n, 16) + [CR, LF], n)
  {
    hide Radix.Digits, LineOf, ChunkSize, SizeLine;
    SixteenDigits();
    Radix.DigitsFit(n, 16, 16);
    PlainChunkLine(n);
    var line := SizeLineWasWritten(Radix.Digits(n, 16) + [CR, LF]);
    assert line + [] == line;
  }

  // ----- nothing else is a chunked body -----

  lemma ChunkWasWritten(u: bytes, room: nat) returns (c: Chunk)
    requires ChunkOf(u, room).Ok? && ChunkOf(u, room).value.value.Some?
    ensures GoodChunk(c) && c.data == ChunkOf(u, room).value.value.value && |c.data| <= room
    ensures u == c.sizeLine + c.data + [CR, LF] + ChunkOf(u, room).value.rest
  {
    hide LineOf, ChunkSize, SizeLine;
    var line := SizeLineWasWritten(u);
    var rest := LineOf(u).value.rest;
    var n := ChunkSize(LineOf(u).value.value.text).value;
    c := Chunk(line, rest[..n]);
    assert rest == rest[..n] + rest[n..n + 2] + rest[n + 2..];
    assert line + (rest[..n] + [CR, LF] + rest[n + 2..]) == line + rest[..n] + [CR, LF] + rest[n + 2..];
  }

  lemma LastWasWritten(u: bytes, room: nat) returns (last: bytes)
    requires ChunkOf(u, room).Ok? && ChunkOf(u, room).value.value.None?
    ensures SizeLine(last, 0) && u == last + ChunkOf(u, room).value.rest
  {
    hide LineOf, ChunkSize, SizeLine;
    last := SizeLineWasWritten(u);
  }

  /** Every chunked body that is read was such chunks, a last size line and trailers. */
  lemma {:induction false} ChunksWereWritten(u: bytes, body: bytes, limit: nat)
    returns (chunks: seq<Chunk>, last: bytes, trailers: bytes)
    requires |body| <= limit && ChunksOf(u, body, limit).Ok?
    ensures (forall c :: c in chunks ==> GoodChunk(c)) && SizeLine(last, 0) && Trailers(trailers)
    ensures u == Wire(chunks) + last + trailers + ChunksOf(u, body, limit).value.rest
    ensures ChunksOf(u, body, limit).value.value == body + Data(chunks)
    decreases |u|
  {
    hide ChunkOf, TrailersOf, GoodChunk, SizeLine, Trailers;
    var room := limit - |body|;
    var left := ChunksOf(u, body, limit).value.rest;
    if ChunkOf(u, room).value.value.None? {
      chunks := [];
      last := LastWasWritten(u, room);
      trailers := TrailersWereWritten(ChunkOf(u, room).value.rest);
      assert last + (trailers + left) == [] + last + trailers + left && body + [] == body;
    } else {
      var c := ChunkWasWritten(u, room);
      var others;
      others, last, trailers := ChunksWereWritten(ChunkOf(u, room).value.rest, body + c.data, limit);
      chunks := [c] + others;
      WireCons(c, others, last + trailers + left);
      assert Wire(others) + last + trailers + left == Wire(others) + (last + trailers + left);
      assert Wire(chunks) + last + trailers + left == Wire(chunks) + (last + trailers + left);
      assert body + c.data + Data(others) == body + Data(chunks);
    }
  }

  lemma WireCons(c: Chunk, others: seq<Chunk>, more: bytes)
    ensures Wire([c] + others) + more == c.sizeLine + c.data + [CR, LF] + (Wire(others) + more)
    ensures Data([c] + others) == c.data + Data(others)
  {
    assert ([c] + others)[1..] == others;
  }

  // ----- whole requests, and a pipeline of them -----

  datatype Message =
    | Sized(head: RawHead, content: bytes)
    | InChunks(head: RawHead, chunks: seq<Chunk>, last: bytes, trailers: bytes)

  function Content(m: Message): bytes {
    match m case Sized(_, content) => content case InChunks(_, chunks, _, _) => Data(chunks)
  }

  function AfterHead(m: Message): bytes {
    match m
    case Sized(_, content) => content
    case InChunks(_, chunks, last, trailers) => Wire(chunks) + last + trailers
  }

  function Encode(m: Message): bytes {
    HeadBytes(m.head) + AfterHead(m)
  }

  /** How long a body may be. */
  function Room(p: Path, spool: bool): nat {
    match p
    case Discover => 0x10_0000
    case Ask => 0x10_0000
    case Upload => if spool then 0x8_0000_0000 else 0x400_0000
  }

  /** The header fields announce the framing used: `transfer-encoding`, spelled "chunked" in any case, or the length of
      the content in decimal digits, or neither for no content. */
  ghost predicate Announced(headers: Headers, m: Message) {
    var te, cl := Word("transfer-encoding"), Word("content-length");
    match m
    case Sized(_, content) =>
      te !in headers && if cl in headers then Radix.Denotes(headers[cl], 10, |content|) else content == []
    case InChunks(_, chunks, last, trailers) =>
      && te in headers && cl !in headers && Spells(headers[te], "chunked")
      && (forall c :: c in chunks ==> GoodChunk(c)) && SizeLine(last, 0) && Trailers(trailers)
  }

  ghost predicate WellFormed(m: Message, spool: bool) {
    GoodHead(m.head) && |Content(m)| <= Room(m.head.first.path, spool) && Announced(HeadersIn(m.head), m)
  }

  /** The request a message stands for. */
  function Meaning(m: Message, spool: bool): Request {
    var path, headers := m.head.first.path, HeadersIn(m.head);
    if path == Upload && spool then Request(path, headers, [], Some(Content(m)))
    else Request(path, headers, Content(m), None)
  }

  lemma BodyIsRead(m: Message, more: bytes, headers: Headers, limit: nat)
    requires |Content(m)| <= limit && Announced(headers, m)
    ensures BodyOf(AfterHead(m) + more, headers, limit) == Ok(Parsed(Content(m), more))
  {
    hide BodyOf, ChunksOf, Trailers, SizeLine, GoodChunk, Spells, Radix.Denotes;
    FramingMeans(AfterHead(m) + more, headers, limit);
    match m
    case Sized(head, content) =>
      assert (content + more)[..|content|] == content && (content + more)[|content|..] == more;
    case InChunks(head, chunks, last, trailers) =>
      ChunksAreRead(chunks, last, trailers, more, [], limit);
      assert [] + Data(chunks) == Data(chunks);
  }

  /** A well-formed message is read as what it means, and nothing behind it is touched. */
  lemma MessageIsRead(m: Message, more: bytes, spool: bool)
    requires WellFormed(m, spool)
    ensures RequestOf(Encode(m) + more, spool, true) == Ok(Parsed(Meaning(m, spool), more))
  {
    hide HeadOf, BodyOf, GoodHead, HeadBytes, AfterHead, Content, Announced, HeadersIn;
    var rest := AfterHead(m) + more;
    assert Encode(m) + more == HeadBytes(m.head) + rest;
    HeadIsRead(m.head, rest);
    BodyIsRead(m, more, HeadersIn(m.head), Room(m.head.first.path, spool));
  }

  lemma BodyWasWritten(u: bytes, h: RawHead, limit: nat) returns (m: Message)
    requires BodyOf(u, HeadersIn(h), limit).Ok?
    ensures m.head == h && Announced(HeadersIn(h), m) && |Content(m)| <= limit
    ensures Content(m) == BodyOf(u, HeadersIn(h), limit).value.value
    ensures u == AfterHead(m) + BodyOf(u, HeadersIn(h), limit).value.rest
  {
    hide BodyOf, ChunksOf, Trailers, SizeLine, GoodChunk, Spells, Radix.Denotes, HeadersIn;
    var headers := HeadersIn(h);
    FramingMeans(u, headers, limit);
    if Word("transfer-encoding") in headers {
      var chunks, last, trailers := ChunksWereWritten(u, [], limit);
      m := InChunks(h, chunks, last, trailers);
      assert [] + Data(chunks) == Data(chunks);
    } else if Word("content-length") in headers {
      var n: nat :| Radix.Denotes(headers[Word("content-length")], 10, n);
      m := Sized(h, u[..n]);
    } else {
      m := Sized(h, []);
      assert [] + u == u;
    }
  }

  /** And every request that is read was such a message: the reader accepts these and no others. */
  lemma RequestWasWritten(u: bytes, spool: bool, authorized: bool) returns (m: Message)
    requires RequestOf(u, spool, authorized).Ok?
    ensures WellFormed(m, spool) && u == Encode(m) + RequestOf(u, spool, authorized).value.rest
    ensures RequestOf(u, spool, authorized).value.value == Meaning(m, spool)
  {
    hide HeadOf, BodyOf, GoodHead, HeadBytes, Announced, HeadersIn;
    var h := HeadWasWritten(u);
    m := BodyWasWritten(HeadOf(u).value.rest, h, Limit(h.first.path, spool));
    var left := RequestOf(u, spool, authorized).value.rest;
    assert HeadBytes(h) + (AfterHead(m) + left) == Encode(m) + left;
  }

  /** Requests read one after the other off the same stream. */
  function RequestsOf(u: bytes, count: nat, spool: bool): Result<Parsed<seq<Request>>, Error>
    decreases count
  {
    if count == 0 then Ok(Parsed([], u))
    else match RequestOf(u, spool, true)
      case Err(e) => Err(e)
      case Ok(first) =>
        match RequestsOf(first.rest, count - 1, spool)
        case Err(e) => Err(e)
        case Ok(others) => Ok(Parsed([first.value] + others.value, others.rest))
  }

  function Stream(ms: seq<Message>): bytes {
    if ms == [] then [] else Encode(ms[0]) + Stream(ms[1..])
  }

  ghost function Meanings(ms: seq<Message>, spool: bool): seq<Request>
    requires forall m :: m in ms ==> WellFormed(m, spool)
  {
    if ms == [] then []
    else
      assert WellFormed(ms[0], spool);
      [Meaning(ms[0], spool)] + Meanings(ms[1..], spool)
  }

  /** A pipeline is read as the same sequence, in order, to its end. */
  lemma {:induction false} PipelineIsRead(ms: seq<Message>, more: bytes, spool: bool)
    requires forall m :: m in ms ==> WellFormed(m, spool)
    ensures RequestsOf(Stream(ms) + more, |ms|, spool) == Ok(Parsed(Meanings(ms, spool), more))
    decreases |ms|
  {
    hide RequestOf, WellFormed, Meaning, Encode;
    if ms == [] {
      assert [] + more == more;
    } else {
      assert Stream(ms) + more == Encode(ms[0]) + (Stream(ms[1..]) + more);
      MessageIsRead(ms[0], Stream(ms[1..]) + more, spool);
      PipelineIsRead(ms[1..], more, spool);
    }
  }

  /** Chunked or sized, cut this way or that: the same head and content are the same request. */
  lemma CutsDoNotMatter(a: Message, b: Message, more: bytes, spool: bool)
    requires WellFormed(a, spool) && WellFormed(b, spool)
    requires a.head.first.path == b.head.first.path && HeadersIn(a.head) == HeadersIn(b.head)
    requires Content(a) == Content(b)
    ensures RequestOf(Encode(a) + more, spool, true) == RequestOf(Encode(b) + more, spool, true)
  {
    MessageIsRead(a, more, spool);
    MessageIsRead(b, more, spool);
  }
}

/** The receiver's HTTP/1.1 reader, src/airdrop/http.rs: what a request is, as a function of the unread bytes, and
    the reader that takes it off a buffered stream. */
module Http {
  import opened Bytes
  import opened HttpText
  import Cpio

  const MAX_HEADERS: nat := 32768
  const MAX_TRAILERS: nat := 8192
  const MAX_BODY: nat := 1024 * 1024
  const MAX_MEMORY_UPLOAD: nat := 64 * 1024 * 1024
  const PIECE: nat := 64 * 1024

  type Headers = map<Text, Text>

  datatype Path = Discover | Ask | Upload

  datatype Head = Head(path: Path, headers: Headers)

  /** A request; an upload is spooled to a file and then leaves the body empty. */
  datatype Request = Request(path: Path, headers: Headers, body: bytes, upload: Option<bytes>)

  // ----- the head -----

  function Ascii(s: string): (r: Text)
    ensures |r| == |s| && forall i :: 0 <= i < |s| ==> r[i] == s[i] as nat
  {
    seq(|s|, i requires 0 <= i < |s| => s[i] as nat)
  }

  const POST: Text := Ascii("POST")
  const VERSION: Text := Ascii("HTTP/1.1")
  const DISCOVER: Text := Ascii("/Discover")
  const ASK: Text := Ascii("/Ask")
  const UPLOAD: Text := Ascii("/Upload")
  const TRANSFER_ENCODING: Text := Ascii("transfer-encoding")
  const CONTENT_LENGTH: Text := Ascii("content-length")
  const CHUNKED: Text := Ascii("chunked")

  function PathOf(t: Text): Option<Path> {
    if t == DISCOVER then Some(Discover) else if t == ASK then Some(Ask) else if t == UPLOAD then Some(Upload) else None
  }

  function RequestLine(t: Text): Result<Path, Error> {
    var words := Words(t);
    if |words| != 3 || words[0] != POST || words[2] != VERSION then Err(NotHttp)
    else match PathOf(words[1])
      case None => Err(UnknownPath)
      case Some(path) => Ok(path)
  }

  /** One header line: the name up to the first colon in lower case, and the trimmed value. */
  function WithHeader(headers: Headers, t: Text): Result<Headers, Error> {
    match Find(t, COLON)
    case None => Err(MalformedHeader)
    case Some(k) =>
      if Lower(t[..k]) in headers then Err(DuplicateHeader)
      else Ok(headers[Lower(t[..k]) := Trim(t[k + 1..])])
  }

  function HeadersOf(u: bytes, total: nat, headers: Headers): (r: Result<Parsed<Headers>, Error>)
    ensures r.Ok? ==> |r.value.rest| < |u|
    decreases |u|
  {
    match LineOf(u)
    case Err(e) => Err(e)
    case Ok(l) =>
      if total + l.value.size > MAX_HEADERS then Err(HeadersTooLarge)
      else if l.value.size == 0 then Ok(Parsed(headers, l.rest))
      else match WithHeader(headers, l.value.text)
        case Err(e) => Err(e)
        case Ok(more) => HeadersOf(l.rest, total + l.value.size, more)
  }

  function HeadOf(u: bytes): (r: Result<Parsed<Head>, Error>)
    ensures r.Ok? ==> |r.value.rest| < |u|
  {
    match LineOf(u)
    case Err(e) => Err(e)
    case Ok(l) =>
      match RequestLine(l.value.text)
      case Err(e) => Err(e)
      case Ok(path) =>
        match HeadersOf(l.rest, 0, map[])
        case Err(e) => Err(e)
        case Ok(h) => Ok(Parsed(Head(path, h.value), h.rest))
  }

  // ----- the body -----

  datatype Framing = Chunked | Length(n: nat)

  function Limit(path: Path, spool: bool): nat {
    if path != Upload then MAX_BODY else if spool then Cpio.MAX_TRANSFER else MAX_MEMORY_UPLOAD
  }

  function FramingOf(headers: Headers, limit: nat): (r: Result<Framing, Error>)
    ensures r.Ok? && r.value.Length? ==> r.value.n <= limit
  {
    if TRANSFER_ENCODING in headers && CONTENT_LENGTH in headers then Err(AmbiguousFraming)
    else if TRANSFER_ENCODING in headers then
      if Lower(headers[TRANSFER_ENCODING]) == CHUNKED then Ok(Chunked) else Err(UnsupportedEncoding)
    else if CONTENT_LENGTH !in headers then Ok(Length(0))
    else match Number(headers[CONTENT_LENGTH], 10)
      case None => Err(BadLength)
      case Some(n) => if n <= limit then Ok(Length(n)) else Err(BodyTooLarge)
  }

  function TakeOf(u: bytes, n: nat): (r: Result<Parsed<bytes>, Error>)
    ensures r.Ok? ==> |r.value.rest| + n == |u| && |r.value.value| == n
  {
    if |u| < n then Err(Closed) else Ok(Parsed(u[..n], u[n..]))
  }

  function TrailersOf(u: bytes, total: nat): (r: Result<bytes, Error>)
    decreases |u|
  {
    match LineOf(u)
    case Err(e) => Err(e)
    case Ok(l) =>
      if total + l.value.size > MAX_TRAILERS then Err(TrailersTooLarge)
      else if l.value.size == 0 then Ok(l.rest)
      else TrailersOf(l.rest, total + l.value.size)
  }

  /** What follows the size line of a chunk: its bytes and a line ending; `None` after the last size line. */
  function SizedChunk(u: bytes, n: nat, room: nat): (r: Result<Parsed<Option<bytes>>, Error>)
    ensures r.Ok? ==> |r.value.rest| <= |u|
    ensures r.Ok? && r.value.value.Some? ==> 0 < |r.value.value.value| <= room
  {
    if n == 0 then Ok(Parsed(None, u))
    else if n > room then Err(BodyTooLarge)
    else if |u| < n + 2 then Err(Closed)
    else if u[n..n + 2] != [CR, LF] then Err(BadTerminator)
    else Ok(Parsed(Some(u[..n]), u[n + 2..]))
  }

  function ChunkOf(u: bytes, room: nat): (r: Result<Parsed<Option<bytes>>, Error>)
    ensures r.Ok? ==> |r.value.rest| < |u|
    ensures r.Ok? && r.value.value.Some? ==> 0 < |r.value.value.value| <= room
  {
    match LineOf(u)
    case Err(e) => Err(e)
    case Ok(l) =>
      match ChunkSize(l.value.text)
      case None => Err(BadChunkSize)
      case Some(n) => SizedChunk(l.rest, n, room)
  }

  /** All the chunks and the trailers; `body` is what came before. */
  function ChunksOf(u: bytes, body: bytes, limit: nat): (r: Result<Parsed<bytes>, Error>)
    requires |body| <= limit
    ensures r.Ok? ==> |r.value.value| <= limit && body <= r.value.value
    decreases |u|
  {
    match ChunkOf(u, limit - |body|)
    case Err(e) => Err(e)
    case Ok(c) =>
      if c.value.None? then
        match TrailersOf(c.rest, 0)
        case Err(e) => Err(e)
        case Ok(rest) => Ok(Parsed(body, rest))
      else ChunksOf(c.rest, body + c.value.value, limit)
  }

  function BodyOf(u: bytes, headers: Headers, limit: nat): (r: Result<Parsed<bytes>, Error>)
    ensures r.Ok? ==> |r.value.value| <= limit
  {
    match FramingOf(headers, limit)
    case Err(e) => Err(e)
    case Ok(Chunked) => ChunksOf(u, [], limit)
    case Ok(Length(n)) => TakeOf(u, n)
  }

  function Assemble(h: Head, body: bytes, spool: bool): Request {
    if spool && h.path == Upload
    then Request(h.path, h.headers, [], Some(body)) else Request(h.path, h.headers, body, None)
  }

  /** The request at the front of the unread bytes. `authorized` is what the gate says, if it is asked. */
  function RequestOf(u: bytes, spool: bool, authorized: bool): (r: Result<Parsed<Request>, Error>) {
    match HeadOf(u)
    case Err(e) => Err(e)
    case Ok(h) =>
      if h.value.path == Upload && !authorized then Err(Forbidden)
      else match BodyOf(h.rest, h.value.headers, Limit(h.value.path, spool))
        case Err(e) => Err(e)
        case Ok(b) => Ok(Parsed(Assemble(h.value, b.value, spool), b.rest))
  }
}

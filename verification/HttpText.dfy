/** The text of an HTTP/1.1 head: lines, tokens and numbers, as src/airdrop/http.rs takes them apart. */
module HttpText {
  import opened Bytes
  import Radix
  import Utf8
  import SafeNames

  type Text = seq<nat>

  const CR: byte := 0x0d
  const LF: byte := 0x0a
  const COLON: nat := 0x3a
  const SEMICOLON: nat := 0x3b
  const MAX_LINE: nat := 8192

  datatype Error =
    | Closed | LineTooLong | BadEnding | NotText
    | NotHttp | UnknownPath | HeadersTooLarge | MalformedHeader | DuplicateHeader
    | Forbidden
    | AmbiguousFraming | UnsupportedEncoding | BadLength | BodyTooLarge
    | BadChunkSize | TrailersTooLarge | BadTerminator

  /** Something read from the front of the unread bytes, and the bytes after it. */
  datatype Parsed<T> = Parsed(value: T, rest: bytes)

  /** A line without its ending, and how many bytes it takes. */
  datatype Line = Line(text: Text, size: nat)

  /** The first line feed. */
  function LineFeed(u: bytes): (r: Option<nat>)
    ensures r.Some? ==> r.value < |u| && u[r.value] == LF && LF !in u[..r.value]
    ensures r.None? ==> LF !in u
  {
    if u == [] then None
    else if u[0] == LF then Some(0)
    else match LineFeed(u[1..])
      case None => None
      case Some(k) => assert u[..k + 1] == [u[0]] + u[1..][..k]; Some(k + 1)
  }

  /** What taking a line from the unread bytes gives. */
  function LineOf(u: bytes): (r: Result<Parsed<Line>, Error>)
    ensures r.Ok? ==> |r.value.rest| < |u| && r.value.rest == u[|u| - |r.value.rest|..]
  {
    match LineFeed(u)
    case None => Err(if |u| > MAX_LINE then LineTooLong else Closed)
    case Some(k) =>
      if k + 1 > MAX_LINE then Err(LineTooLong)
      else if k == 0 || u[k - 1] != CR then Err(BadEnding)
      else match Utf8.Decode(u[..k - 1])
        case None => Err(NotText)
        case Some(text) => Ok(Parsed(Line(text, k - 1), u[k + 1..]))
  }

  // ----- tokens -----

  function WordLength(t: Text): (n: nat)
    ensures n <= |t| && (t != [] && !Utf8.IsWhitespace(t[0]) ==> n > 0)
  {
    if t == [] || Utf8.IsWhitespace(t[0]) then 0 else 1 + WordLength(t[1..])
  }

  /** `split_whitespace`. */
  function Words(t: Text): seq<Text> {
    if t == [] then []
    else if Utf8.IsWhitespace(t[0]) then Words(t[1..])
    else [t[..WordLength(t)]] + Words(t[WordLength(t)..])
  }

  function Trim(t: Text): Text {
    SafeNames.DropSpacesAfter(SafeNames.DropSpacesBefore(t))
  }

  function Find(t: Text, c: nat): (r: Option<nat>)
    ensures r.Some? ==> r.value < |t| && t[r.value] == c
  {
    if t == [] then None
    else if t[0] == c then Some(0)
    else match Find(t[1..], c)
      case None => None
      case Some(k) => Some(k + 1)
  }

  function LowerOne(c: nat): nat {
    if 0x41 <= c <= 0x5a then c + 32 else c
  }

  /** `to_ascii_lowercase`. */
  function Lower(t: Text): (r: Text)
    ensures |r| == |t|
  {
    seq(|t|, i requires 0 <= i < |t| => LowerOne(t[i]))
  }

  /** `str::parse::<usize>` and `usize::from_str_radix`. */
  function Number(t: Text, radix: nat): (r: Option<nat>) {
    if forall i :: 0 <= i < |t| ==> t[i] < 0x80
    then Radix.Parse(seq(|t|, i requires 0 <= i < |t| => t[i] as byte), radix)
    else None
  }

  /** The size a chunk line announces; extensions after a semicolon are ignored. */
  function ChunkSize(t: Text): Option<nat> {
    var k := Find(t, SEMICOLON);
    Number(Trim(if k.Some? then t[..k.value] else t), 16)
  }

  // ----- more bytes behind a line do not change it -----

  lemma {:induction false} LineFeedAppend(u: bytes, more: bytes)
    requires LineFeed(u).Some?
    ensures LineFeed(u + more) == LineFeed(u)
  {
    assert (u + more)[0] == u[0];
    if u[0] != LF {
      assert (u + more)[1..] == u[1..] + more;
      LineFeedAppend(u[1..], more);
    }
  }

  lemma LineAppend(u: bytes, more: bytes)
    requires LineOf(u).Ok?
    ensures LineOf(u + more) == Ok(Parsed(LineOf(u).value.value, LineOf(u).value.rest + more))
  {
    LineFeedAppend(u, more);
    var k := LineFeed(u).value;
    assert (u + more)[..k - 1] == u[..k - 1] && (u + more)[k + 1..] == u[k + 1..] + more;
  }

  // ----- a chunk line as senders write it -----

  lemma {:induction false} LineFeedAt(a: bytes)
    requires LF !in a
    ensures LineFeed(a + [CR, LF]) == Some(|a| + 1)
  {
    var u := a + [CR, LF];
    if a == [] {
      assert u[1..] == [LF];
    } else {
      assert u[1..] == a[1..] + [CR, LF];
      LineFeedAt(a[1..]);
    }
  }

  predicate IsHexDigit(c: byte) {
    0x30 <= c <= 0x39 || 0x61 <= c <= 0x66
  }

  lemma {:induction false} HexDigits(n: nat)
    ensures forall c :: c in Radix.Digits(n, 16) ==> IsHexDigit(c)
    decreases n
  {
    if n >= 16 {
      HexDigits(n / 16);
    }
  }

  lemma {:induction false} NotFound(t: Text, c: nat)
    requires c !in t
    ensures Find(t, c).None?
  {
    if t != [] {
      NotFound(t[1..], c);
    }
  }

  lemma TrimNothing(t: Text)
    requires t != [] && !Utf8.IsWhitespace(t[0]) && !Utf8.IsWhitespace(t[|t| - 1])
    ensures Trim(t) == t
  {
  }

  lemma HexDigitsAreANumber(d: bytes)
    requires forall c :: c in d ==> IsHexDigit(c)
    ensures Number(Utf8.Codes(d), 16) == Radix.Parse(d, 16)
  {
    hide Radix.Parse;
    var t := Utf8.Codes(d);
    HexIsAscii(d);
    assert seq(|t|, i requires 0 <= i < |t| => t[i] as byte) == d;
  }

  lemma HexIsNoSpace(c: byte)
    requires IsHexDigit(c)
    ensures c as nat != SEMICOLON && !Utf8.IsWhitespace(c as nat)
  {
  }

  lemma HexIsOneWord(d: bytes)
    requires d != [] && forall c :: c in d ==> IsHexDigit(c)
    ensures SEMICOLON !in Utf8.Codes(d) && Trim(Utf8.Codes(d)) == Utf8.Codes(d)
  {
    hide Trim, Utf8.Codes;
    var t := Utf8.Codes(d);
    forall i | 0 <= i < |t|
      ensures t[i] != SEMICOLON && !Utf8.IsWhitespace(t[i])
    {
      HexIsNoSpace(d[i]);
    }
    TrimNothing(t);
  }

  lemma DigitsAreASize(d: bytes)
    requires d != [] && forall c :: c in d ==> IsHexDigit(c)
    ensures ChunkSize(Utf8.Codes(d)) == Radix.Parse(d, 16)
  {
    hide Radix.Parse, Number, Trim, Find, Utf8.Codes, IsHexDigit;
    HexDigitsAreANumber(d);
    HexIsOneWord(d);
    NotFound(Utf8.Codes(d), SEMICOLON);
  }

  /** An ASCII line is read back. */
  lemma AsciiLine(l: bytes)
    requires |l| + 2 <= MAX_LINE && LF !in l && Utf8.Ascii(l)
    ensures LineOf(l + [CR, LF]) == Ok(Parsed(Line(Utf8.Codes(l), |l|), []))
  {
    hide LineFeed, Utf8.Decode, Utf8.Codes;
    var u, k := l + [CR, LF], |l| + 1;
    LineFeedAt(l);
    Utf8.AsciiDecodes(l);
    assert u[..k - 1] == l && u[k - 1] == CR && u[k + 1..] == [];
  }

  lemma HexIsAscii(d: bytes)
    requires forall c :: c in d ==> IsHexDigit(c)
    ensures LF !in d && Utf8.Ascii(d)
  {
    forall i | 0 <= i < |d|
      ensures d[i] < 0x80
    {
      assert d[i] in d;
    }
  }

  /** The size in lower-case hexadecimal is read back as it is. */
  lemma PlainChunkLine(n: nat)
    requires n <= U64_MAX && |Radix.Digits(n, 16)| + 2 <= MAX_LINE
    ensures var line := LineOf(Radix.Digits(n, 16) + [CR, LF]);
            line.Ok? && line.value.rest == [] && ChunkSize(line.value.value.text) == Some(n)
  {
    hide LineOf, ChunkSize, Radix.Parse, Radix.Digits;
    var d := Radix.Digits(n, 16);
    HexDigits(n);
    DigitsAreASize(d);
    HexIsAscii(d);
    AsciiLine(d);
    Radix.PaddedRoundTrip(n, 16, 0);
    assert Radix.Padded(n, 16, 0) == d;
  }
}

/** Strict UTF-8 (Unicode table 3-7), as `std::str::from_utf8` accepts it, and the character classes
    the repository tests. A string is kept as its bytes; its characters are code points. */
module Utf8 {
  import opened Bytes

  datatype Lead = Malformed | Char(code: nat, width: nat)

  predicate Tail(b: bytes, k: nat) {
    k < |b| && 0x80 <= b[k] <= 0xbf
  }

  function Six(b: bytes, k: nat): (n: int)
    requires Tail(b, k)
  {
    b[k] as int - 0x80
  }

  /** The first character of a nonempty byte string. */
  function First(b: bytes): (l: Lead)
    requires b != []
    ensures l.Char? ==> 1 <= l.width <= |b|
  {
    var x: int := b[0] as int;
    if x < 0x80 then Char(x, 1)
    else if 0xc2 <= x <= 0xdf && Tail(b, 1) then Char((x - 0xc0) * 64 + Six(b, 1), 2)
    else if 0xe0 <= x <= 0xef && Tail(b, 1) && Tail(b, 2) && (x == 0xe0 ==> b[1] >= 0xa0)
      && (x == 0xed ==> b[1] <= 0x9f) then
      Char((x - 0xe0) * 4096 + Six(b, 1) * 64 + Six(b, 2), 3)
    else if 0xf0 <= x <= 0xf4 && Tail(b, 1) && Tail(b, 2) && Tail(b, 3) && (x == 0xf0 ==> b[1] >= 0x90)
      && (x == 0xf4 ==> b[1] <= 0x8f) then
      Char((x - 0xf0) * 262144 + Six(b, 1) * 4096 + Six(b, 2) * 64 + Six(b, 3), 4)
    else Malformed
  }

  function Decode(b: bytes): Option<seq<nat>> {
    if b == [] then Some([])
    else match First(b)
      case Malformed => None
      case Char(code, width) =>
        match Decode(b[width..])
        case None => None
        case Some(rest) => Some([code] + rest)
  }

  predicate Valid(b: bytes) {
    Decode(b).Some?
  }

  /** The characters of a string; nothing for bytes that are not one. */
  function Chars(b: bytes): seq<nat> {
    match Decode(b) case None => [] case Some(c) => c
  }

  predicate Ascii(b: bytes) {
    forall k :: 0 <= k < |b| ==> b[k] < 0x80
  }

  /** `char::is_control`: the general category Cc. */
  predicate IsControl(c: nat) {
    c < 0x20 || 0x7f <= c <= 0x9f
  }

  /** The bidirectional formatting characters the receiver refuses. */
  predicate IsBidi(c: nat) {
    0x202a <= c <= 0x202e || 0x2066 <= c <= 0x2069
  }

  /** `char::is_whitespace`: the property White_Space. */
  predicate IsWhitespace(c: nat) {
    9 <= c <= 13 || c == 32 || c == 0x85 || c == 0xa0 || c == 0x1680 || 0x2000 <= c <= 0x200a || c == 0x2028
    || c == 0x2029 || c == 0x202f || c == 0x205f || c == 0x3000
  }

  /** Appending to a string neither changes nor hides the characters before it. */
  lemma {:induction false} DecodeAppend(a: bytes, b: bytes)
    requires Valid(a)
    ensures Valid(a + b) <==> Valid(b)
    ensures Valid(b) ==> Chars(a + b) == Chars(a) + Chars(b)
  {
    if a == [] {
      assert a + b == b;
    } else {
      var w := First(a).width;
      assert First(a + b) == First(a);
      assert (a + b)[w..] == a[w..] + b;
      DecodeAppend(a[w..], b);
    }
  }

  /** The bytes of an ASCII string are its characters. */
  function Codes(b: bytes): (r: seq<nat>)
    ensures |r| == |b| && forall k :: 0 <= k < |b| ==> r[k] == b[k] as int
  {
    if b == [] then [] else [b[0] as nat] + Codes(b[1..])
  }

  lemma {:induction false} AsciiDecodes(b: bytes)
    requires Ascii(b)
    ensures Decode(b) == Some(Codes(b))
  {
    if b != [] {
      AsciiDecodes(b[1..]);
    }
  }

  lemma AsciiIsValid(b: bytes)
    requires Ascii(b)
    ensures Valid(b)
  {
    AsciiDecodes(b);
  }

  // ----- the encoding, from the characters -----

  /** A Unicode scalar value. */
  predicate IsScalar(c: nat) {
    c < 0xd800 || 0xe000 <= c < 0x11_0000
  }

  function EncodeOne(c: nat): (r: bytes)
    requires IsScalar(c)
    ensures r != []
  {
    if c < 0x80 then [c as byte]
    else if c < 0x800 then [(0xc0 + c / 64) as byte, Low(c, 1)]
    else if c < 0x1_0000 then [(0xe0 + c / 4096) as byte, Low(c, 64), Low(c, 1)]
    else [(0xf0 + c / 262144) as byte, Low(c, 4096), Low(c, 64), Low(c, 1)]
  }

  /** Six bits of a character in a continuation byte. */
  function Low(c: nat, unit: nat): byte
    requires unit > 0
  {
    (0x80 + c / unit % 64) as byte
  }

  function Encode(t: seq<nat>): (r: bytes)
    requires forall c :: c in t ==> IsScalar(c)
  {
    if t == [] then [] else EncodeOne(t[0]) + Encode(t[1..])
  }

  lemma {:induction false} EncodeAppend(a: seq<nat>, b: seq<nat>)
    requires forall c :: c in a || c in b ==> IsScalar(c)
    ensures forall c :: c in a + b ==> IsScalar(c)
    ensures Encode(a + b) == Encode(a) + Encode(b)
  {
    hide EncodeOne;
    if a == [] {
      assert a + b == b;
    } else {
      assert (a + b)[1..] == a[1..] + b;
      EncodeAppend(a[1..], b);
    }
  }

  /** Sextets and the number they make. */
  lemma Sextets(a: nat, b: nat, d: nat, e: nat, c: nat)
    requires b < 64 && d < 64 && e < 64 && c == a * 262144 + b * 4096 + d * 64 + e
    ensures c / 262144 == a && c / 4096 % 64 == b && c / 64 % 64 == d && c % 64 == e
    ensures c / 64 == a * 4096 + b * 64 + d && c / 4096 == a * 64 + b
  {
    assert c / 64 == a * 4096 + b * 64 + d;
    assert c / 4096 == a * 64 + b;
  }

  lemma InSextets(c: nat)
    ensures c == c / 262144 * 262144 + c / 4096 % 64 * 4096 + c / 64 % 64 * 64 + c % 64
    ensures c / 4096 == c / 262144 * 64 + c / 4096 % 64 && c / 64 == c / 4096 * 64 + c / 64 % 64
  {
    assert c / 64 / 64 == c / 4096 && c / 4096 / 64 == c / 262144;
  }

  lemma FirstOfEncoded(c: nat, more: bytes)
    requires IsScalar(c)
    ensures First(EncodeOne(c) + more) == Char(c, |EncodeOne(c)|)
  {
    InSextets(c);
    var b := EncodeOne(c) + more;
    if c < 0x80 {
      assert b[0] as int == c;
    } else if c < 0x800 {
      assert b[0] as int == 0xc0 + c / 64 && b[1] as int == 0x80 + c % 64;
    } else if c < 0x1_0000 {
      Three(c, b);
    } else {
      Four(c, b);
    }
  }

  lemma Three(c: nat, b: bytes)
    requires IsScalar(c) && 0x800 <= c < 0x1_0000 && EncodeOne(c) <= b
    ensures First(b) == Char(c, 3)
  {
    InSextets(c);
    assert b[0] as int == 0xe0 + c / 4096 && b[1] as int == 0x80 + c / 64 % 64 && b[2] as int == 0x80 + c % 64;
  }

  lemma Four(c: nat, b: bytes)
    requires IsScalar(c) && 0x1_0000 <= c && EncodeOne(c) <= b
    ensures First(b) == Char(c, 4)
  {
    InSextets(c);
    assert b[0] as int == 0xf0 + c / 262144 && b[1] as int == 0x80 + c / 4096 % 64;
    assert b[2] as int == 0x80 + c / 64 % 64 && b[3] as int == 0x80 + c % 64;
  }

  lemma FirstIsEncoded(b: bytes)
    requires b != [] && First(b).Char?
    ensures var l := First(b); IsScalar(l.code) && b[..l.width] == EncodeOne(l.code)
  {
    var l := First(b);
    var x := b[0] as int;
    if l.width == 2 {
      Sextets(0, 0, x - 0xc0, Six(b, 1), l.code);
    } else if l.width == 3 {
      IsThree(b);
    } else if l.width == 4 {
      IsFour(b);
    }
  }

  lemma IsThree(b: bytes)
    requires b != [] && First(b).Char? && First(b).width == 3
    ensures var l := First(b); IsScalar(l.code) && b[..3] == EncodeOne(l.code)
  {
    var c := First(b).code;
    Sextets(0, b[0] as int - 0xe0, Six(b, 1), Six(b, 2), c);
    assert 0x800 <= c < 0x1_0000;
    assert EncodeOne(c)[0] == b[0] && EncodeOne(c)[1] == b[1] && EncodeOne(c)[2] == b[2];
  }

  lemma IsFour(b: bytes)
    requires b != [] && First(b).Char? && First(b).width == 4
    ensures var l := First(b); IsScalar(l.code) && b[..4] == EncodeOne(l.code)
  {
    var c := First(b).code;
    Sextets(b[0] as int - 0xf0, Six(b, 1), Six(b, 2), Six(b, 3), c);
    assert 0x1_0000 <= c < 0x11_0000;
    assert EncodeOne(c)[0] == b[0] && EncodeOne(c)[1] == b[1] && EncodeOne(c)[2] == b[2] && EncodeOne(c)[3] == b[3];
  }

  /** A byte string decodes to a text exactly if it is the encoding of that text, and that is made of scalar values. */
  lemma {:induction false} DecodeMeans(b: bytes, t: seq<nat>)
    ensures Decode(b) == Some(t) <==> (forall c :: c in t ==> IsScalar(c)) && b == Encode(t)
    decreases |b|
  {
    hide First, EncodeOne, IsScalar;
    if b != [] && First(b).Char? && t != [] && t[0] == First(b).code {
      var w := First(b).width;
      FirstIsEncoded(b);
      DecodeMeans(b[w..], t[1..]);
      assert b == b[..w] + b[w..];
      assert t == [t[0]] + t[1..];
    } else if (forall c :: c in t ==> IsScalar(c)) && t != [] && b == Encode(t) {
      FirstOfEncoded(t[0], Encode(t[1..]));
    }
  }
}

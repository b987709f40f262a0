/** Numbers in text: Rust's `from_str_radix` for `u64`, and its formatting of numbers. */
module Radix {
  import opened Bytes

  const PLUS: byte := 0x2b
  const ZERO: byte := 0x30

  /** The value of a digit below 36. */
  function DigitOf(c: byte): Option<nat> {
    if 0x30 <= c <= 0x39 then Some(c as int - 0x30)
    else if 0x61 <= c <= 0x7a then Some(c as int - 0x61 + 10)
    else if 0x41 <= c <= 0x5a then Some(c as int - 0x41 + 10)
    else None
  }

  function DigitChar(d: nat): (c: byte)
    requires d < 16
    ensures DigitOf(c) == Some(d)
  {
    if d < 10 then (0x30 + d) as byte else (0x61 + d - 10) as byte
  }

  /** The number a string of digits denotes. */
  function Value(b: bytes, radix: nat): (r: Option<nat>) {
    if b == [] then Some(0)
    else match (Value(b[..|b| - 1], radix), DigitOf(b[|b| - 1]))
      case (Some(n), Some(d)) => if d < radix then Some(n * radix + d) else None
      case _ => None
  }

  /** `u64::from_str_radix`: one leading plus sign is allowed, an empty number is not. */
  function Parse(b: bytes, radix: nat): (r: Option<nat>) {
    var digits := if b != [] && b[0] == PLUS then b[1..] else b;
    if digits == [] then None
    else match Value(digits, radix)
      case None => None
      case Some(n) => if n <= U64_MAX then Some(n) else None
  }

  /** The digits of `n` without leading zeros. */
  function Digits(n: nat, radix: nat): (r: bytes)
    requires 2 <= radix <= 16
    ensures r != [] && DigitOf(r[0]).Some?
  {
    if n < radix then [DigitChar(n)] else Digits(n / radix, radix) + [DigitChar(n % radix)]
  }

  function ZeroText(n: nat): (r: bytes)
    ensures |r| == n && forall i :: 0 <= i < n ==> r[i] == ZERO
  {
    if n == 0 then [] else ZeroText(n - 1) + [ZERO]
  }

  /** `{:0w o}`: at least `w` digits. */
  function Padded(n: nat, radix: nat, w: nat): (r: bytes)
    requires 2 <= radix <= 16
  {
    var d := Digits(n, radix);
    ZeroText(Max(0, w - |d|)) + d
  }

  function Pow(radix: nat, w: nat): nat {
    if w == 0 then 1 else radix * Pow(radix, w - 1)
  }

  /** One more digit. */
  lemma ValueSnoc(b: bytes, c: byte, radix: nat, n: nat, d: nat)
    requires Value(b, radix) == Some(n) && DigitOf(c) == Some(d) && d < radix
    ensures Value(b + [c], radix) == Some(n * radix + d)
  {
    assert (b + [c])[..|b|] == b;
  }

  lemma DivMod(n: nat, m: nat)
    requires m > 0
    ensures n / m * m + n % m == n && n % m < m
  {
  }

  lemma {:induction false} ValueOfDigits(n: nat, radix: nat)
    requires 2 <= radix <= 16
    ensures Value(Digits(n, radix), radix) == Some(n)
    decreases n
  {
    if n >= radix {
      ValueOfDigits(n / radix, radix);
      DivMod(n, radix);
      ValueSnoc(Digits(n / radix, radix), DigitChar(n % radix), radix, n / radix, n % radix);
    } else {
      ValueSnoc([], DigitChar(n), radix, 0, n);
      assert [] + [DigitChar(n)] == [DigitChar(n)];
    }
  }

  lemma ValueLast(front: bytes, c: byte, radix: nat)
    ensures Value(front + [c], radix)
         == if Value(front, radix).Some? && DigitOf(c).Some? && DigitOf(c).value < radix
            then Some(Value(front, radix).value * radix + DigitOf(c).value) else None
  {
    hide DigitOf;
    assert (front + [c])[..|front|] == front;
  }

  lemma {:induction false} Zeros(k: nat, radix: nat)
    requires radix >= 1
    ensures Value(ZeroText(k), radix) == Some(0)
  {
    if k > 0 {
      Zeros(k - 1, radix);
      ValueLast(ZeroText(k - 1), ZERO, radix);
    }
  }

  lemma {:induction false} LeadingZeros(k: nat, b: bytes, radix: nat)
    requires radix >= 1
    ensures Value(ZeroText(k) + b, radix) == Value(b, radix)
    decreases |b|
  {
    hide DigitOf, ZeroText;
    if b == [] {
      Zeros(k, radix);
      assert ZeroText(k) + b == ZeroText(k);
    } else {
      var front, c := b[..|b| - 1], b[|b| - 1];
      LeadingZeros(k, front, radix);
      ValueLast(ZeroText(k) + front, c, radix);
      ValueLast(front, c, radix);
      assert front + [c] == b && ZeroText(k) + b == (ZeroText(k) + front) + [c];
      hide Value;
    }
  }

  lemma {:induction false} DigitsFit(n: nat, radix: nat, w: nat)
    requires 2 <= radix <= 16 && w >= 1 && n < Pow(radix, w)
    ensures |Digits(n, radix)| <= w
    decreases w
  {
    if w == 1 {
      assert Pow(radix, w - 1) == 1;
    } else if n >= radix {
      DivBelow(n, radix, Pow(radix, w - 1));
      DigitsFit(n / radix, radix, w - 1);
    }
  }

  lemma MulMonotone(a: nat, b: nat, m: nat)
    requires a <= b
    ensures a * m <= b * m
  {
  }

  lemma DivBelow(n: nat, m: nat, p: nat)
    requires m > 0 && n < m * p
    ensures n / m < p
  {
    DivMod(n, m);
    if p <= n / m {
      MulMonotone(p, n / m, m);
    }
  }

  /** What is printed parses back, padded or not, in any radix. */
  lemma PaddedRoundTrip(n: nat, radix: nat, w: nat)
    requires 2 <= radix <= 16 && n <= U64_MAX
    ensures Parse(Padded(n, radix, w), radix) == Some(n)
  {
    hide Value, Digits, ZeroText, DigitOf, Parse;
    var d := Digits(n, radix);
    var k := Max(0, w - |d|);
    LeadingZeros(k, d, radix);
    ValueOfDigits(n, radix);
    ZeroIsDigit();
    assert Padded(n, radix, w)[0] == if k > 0 then ZERO else d[0];
    NoPlus(Padded(n, radix, w), radix, n);
  }

  lemma ZeroIsDigit()
    ensures DigitOf(ZERO).Some?
  {
  }

  lemma NoPlus(b: bytes, radix: nat, n: nat)
    requires b != [] && DigitOf(b[0]).Some? && Value(b, radix) == Some(n) && n <= U64_MAX
    ensures Parse(b, radix) == Some(n)
  {
    hide Value;
  }

  /** A number that fits its field is printed in exactly that many digits. */
  lemma PaddedWidth(n: nat, radix: nat, w: nat)
    requires 2 <= radix <= 16 && w >= 1 && n < Pow(radix, w)
    ensures |Padded(n, radix, w)| == w
  {
    DigitsFit(n, radix, w);
  }

  lemma DigitsInjective(m: nat, n: nat, radix: nat)
    requires 2 <= radix <= 16 && Digits(m, radix) == Digits(n, radix)
    ensures m == n
  {
    ValueOfDigits(m, radix);
    ValueOfDigits(n, radix);
  }

  // ----- what a text of digits says, place by place -----

  const LOWER: string := "0123456789abcdefghijklmnopqrstuvwxyz"
  const UPPER: string := "0123456789ABCDEFGHIJKLMNOPQRSTUVWXYZ"

  /** A character that stands for a digit, in either case. */
  predicate Shows(c: nat, d: nat) {
    d < 36 && (c == LOWER[d] as int || c == UPPER[d] as int)
  }

  /** The sum of the digits, each times its place. */
  function Positional(ds: seq<nat>, radix: nat): nat {
    if ds == [] then 0 else ds[0] * Pow(radix, |ds| - 1) + Positional(ds[1..], radix)
  }

  ghost predicate Spelled(t: seq<nat>, ds: seq<nat>, radix: nat) {
    |t| == |ds| && forall i :: 0 <= i < |t| ==> Shows(t[i], ds[i]) && ds[i] < radix
  }

  /** A nonempty text of digits of a radix, a plus sign before it or not, and its value, if 64 bits hold it. */
  ghost predicate Denotes(t: seq<nat>, radix: nat, n: nat) {
    && n <= U64_MAX
    && var digits := if t != [] && t[0] == PLUS as nat then t[1..] else t;
       digits != [] && exists ds :: Spelled(digits, ds, radix) && Positional(ds, radix) == n
  }

  lemma LettersInOrder(d: nat)
    requires d < 36
    ensures LOWER[d] as int == if d < 10 then 0x30 + d else 0x61 + d - 10
    ensures UPPER[d] as int == if d < 10 then 0x30 + d else 0x41 + d - 10
  {
  }

  lemma DigitMeans(c: byte, d: nat)
    ensures DigitOf(c) == Some(d) <==> Shows(c as nat, d)
  {
    if d < 36 {
      LettersInOrder(d);
    }
  }

  lemma {:induction false} PositionalSnoc(ds: seq<nat>, d: nat, radix: nat)
    ensures Positional(ds + [d], radix) == Positional(ds, radix) * radix + d
  {
    if ds == [] {
      assert [] + [d] == [d] && Positional([d][1..], radix) == 0 && Pow(radix, 0) == 1;
    } else {
      assert (ds + [d])[1..] == ds[1..] + [d];
      PositionalSnoc(ds[1..], d, radix);
      OnePlaceUp(ds[0], radix, |ds| - 1, Positional(ds[1..], radix));
    }
  }

  lemma EmptyIsZero(radix: nat)
    ensures Positional([], radix) == 0
  {
  }

  lemma OnePlaceUp(d: nat, radix: nat, place: nat, rest: nat)
    ensures d * Pow(radix, place + 1) + rest * radix == (d * Pow(radix, place) + rest) * radix
  {
    var p := Pow(radix, place);
    assert d * (radix * p) == (d * p) * radix;
  }

  lemma {:induction false} SpelledIsValue(b: bytes, t: seq<nat>, ds: seq<nat>, radix: nat)
    requires |b| == |t| && (forall i :: 0 <= i < |b| ==> b[i] as int == t[i]) && Spelled(t, ds, radix)
    ensures Value(b, radix) == Some(Positional(ds, radix))
    decreases |b|
  {
    hide Shows, DigitOf, Positional;
    if b == [] {
      EmptyIsZero(radix);
    } else {
      var k := |b| - 1;
      SpelledIsValue(b[..k], t[..k], ds[..k], radix);
      DigitMeans(b[k], ds[k]);
      PositionalSnoc(ds[..k], ds[k], radix);
      assert ds[..k] + [ds[k]] == ds;
    }
  }

  lemma {:induction false} ValueIsSpelled(b: bytes, t: seq<nat>, radix: nat) returns (ds: seq<nat>)
    requires |b| == |t| && (forall i :: 0 <= i < |b| ==> b[i] as int == t[i]) && Value(b, radix).Some?
    ensures Spelled(t, ds, radix)
    decreases |b|
  {
    hide Value, Spelled, Shows, DigitOf;
    ds := [];
    if b != [] {
      var k := |b| - 1;
      var d := LastDigit(b, radix);
      var before := ValueIsSpelled(b[..k], t[..k], radix);
      DigitMeans(b[k], d);
      ds := before + [d];
      SpelledSnoc(t, before, d, radix);
    } else {
      NoneIsSpelled(radix);
    }
  }

  lemma NoneIsSpelled(radix: nat)
    ensures Spelled([], [], radix)
  {
  }

  lemma LastDigit(b: bytes, radix: nat) returns (d: nat)
    requires b != [] && Value(b, radix).Some?
    ensures DigitOf(b[|b| - 1]) == Some(d) && d < radix && Value(b[..|b| - 1], radix).Some?
  {
    d := DigitOf(b[|b| - 1]).value;
  }

  lemma SpelledSnoc(t: seq<nat>, ds: seq<nat>, d: nat, radix: nat)
    requires t != [] && Spelled(t[..|t| - 1], ds, radix) && Shows(t[|t| - 1], d) && d < radix
    ensures Spelled(t, ds + [d], radix)
  {
    hide Shows;
    var k := |t| - 1;
    forall i | 0 <= i < |t|
      ensures Shows(t[i], (ds + [d])[i]) && (ds + [d])[i] < radix
    {
      assert i < k ==> t[i] == t[..k][i];
    }
  }

  /** `from_str_radix` takes exactly the texts that denote a number, and gives that number. */
  lemma ParseMeans(b: bytes, t: seq<nat>, radix: nat, n: nat)
    requires |b| == |t| && forall i :: 0 <= i < |b| ==> b[i] as int == t[i]
    ensures Parse(b, radix) == Some(n) <==> Denotes(t, radix, n)
  {
    hide Value, Positional, Spelled;
    var plus := b != [] && b[0] == PLUS;
    var digits, text := if plus then b[1..] else b, if plus then t[1..] else t;
    if Parse(b, radix) == Some(n) {
      var ds := ValueIsSpelled(digits, text, radix);
      SpelledIsValue(digits, text, ds, radix);
    }
    if Denotes(t, radix, n) {
      var ds :| Spelled(text, ds, radix) && Positional(ds, radix) == n;
      SpelledIsValue(digits, text, ds, radix);
    }
  }
}

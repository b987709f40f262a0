/** How long a body is, told from the header fields and the lines around it: the framing of a request, the size line of
    a chunk and the trailers. */
module HttpFraming {
  import opened Bytes
  import opened HttpText
  import opened Http
  import opened HttpGrammar
  import Names = SafeNames
  import Radix
  import Utf8

  /** A word of lower-case letters, each in either case. */
  predicate Spells(t: Text, word: string) {
    |t| == |word| && forall i :: 0 <= i < |t| ==>
      t[i] == word[i] as nat || ('a' <= word[i] <= 'z' && t[i] == word[i] as nat - 0x20)
  }

  lemma SpellsMeans(t: Text, word: string)
    requires forall i :: 0 <= i < |word| ==> !('A' <= word[i] <= 'Z')
    ensures Spells(t, word) <==> Lower(t) == Word(word)
  {
    var lower := Lower(t);
    if Spells(t, word) {
      assert forall i :: 0 <= i < |t| ==> lower[i] == word[i] as nat;
    }
    if lower == Word(word) {
      assert forall i :: 0 <= i < |t| ==> lower[i] == word[i] as nat;
    }
  }

  // ----- numbers -----

  /** A number in a header or a size line is one that the text denotes. */
  lemma NumberMeans(t: Text, radix: nat, n: nat)
    ensures Number(t, radix) == Some(n) <==> Radix.Denotes(t, radix, n)
  {
    hide Radix.Parse;
    if forall i :: 0 <= i < |t| ==> t[i] < 0x80 {
      var b: bytes := seq(|t|, i requires 0 <= i < |t| => t[i] as byte);
      Radix.ParseMeans(b, t, radix, n);
    } else if Radix.Denotes(t, radix, n) {
      DenotesIsAscii(t, radix, n);
    }
  }

  lemma DenotesIsAscii(t: Text, radix: nat, n: nat)
    requires Radix.Denotes(t, radix, n)
    ensures t != [] && forall i :: 0 <= i < |t| ==> Plain(t[i])
  {
    var digits := if t != [] && t[0] == Radix.PLUS as nat then t[1..] else t;
    var ds :| Radix.Spelled(digits, ds, radix) && Radix.Positional(ds, radix) == n;
    forall i | 0 <= i < |t|
      ensures Plain(t[i])
    {
      if |digits| == |t| {
        ShowsIsPlain(digits[i], ds[i]);
      } else if i > 0 {
        assert t[i] == digits[i - 1];
        ShowsIsPlain(digits[i - 1], ds[i - 1]);
      }
    }
  }

  /** A character of a number is neither white space nor a semicolon. */
  predicate Plain(c: nat) {
    c < 0x80 && c != 0x3b && !Utf8.IsWhitespace(c)
  }

  lemma ShowsIsPlain(c: nat, d: nat)
    requires Radix.Shows(c, d)
    ensures Plain(c)
  {
    Radix.LettersInOrder(d);
  }

  // ----- the framing -----

  /** The framing of a body: two announcements are refused; `transfer-encoding` must be "chunked", in any case;
      `content-length` must be a decimal number, and that many bytes are the body, up to the limit; and without either
      there is none. */
  lemma FramingMeans(u: bytes, headers: Headers, limit: nat)
    ensures var te, cl := Word("transfer-encoding"), Word("content-length");
            && (te in headers && cl in headers ==> BodyOf(u, headers, limit) == Err(AmbiguousFraming))
            && (te in headers && cl !in headers ==>
                  BodyOf(u, headers, limit)
                    == if Spells(headers[te], "chunked") then ChunksOf(u, [], limit) else Err(UnsupportedEncoding))
            && (te !in headers && cl in headers ==>
                  && (forall n: nat :: Radix.Denotes(headers[cl], 10, n) ==>
                        BodyOf(u, headers, limit) == if n > limit then Err(BodyTooLarge)
                                                     else if |u| < n then Err(Closed) else Ok(Parsed(u[..n], u[n..])))
                  && ((forall n: nat :: !Radix.Denotes(headers[cl], 10, n)) ==>
                        BodyOf(u, headers, limit) == Err(BadLength)))
            && (te !in headers && cl !in headers ==> BodyOf(u, headers, limit) == Ok(Parsed([], u)))
  {
    hide ChunksOf, Number, Lower, Radix.Denotes, Spells;
    var te, cl := Word("transfer-encoding"), Word("content-length");
    if te in headers {
      SpellsMeans(headers[te], "chunked");
    }
    if cl in headers {
      forall n: nat
        ensures Number(headers[cl], 10) == Some(n) <==> Radix.Denotes(headers[cl], 10, n)
      {
        NumberMeans(headers[cl], 10, n);
      }
    }
    assert u[..0] == [] && u[0..] == u;
  }

  // ----- size lines -----

  /** A size line in pieces: white space, the digits, white space, and an extension after a semicolon. */
  datatype SizeParts = SizeParts(before: Text, digits: Text, after: Text, extension: Text)

  function PartsText(p: SizeParts): Text {
    p.before + p.digits + p.after + p.extension
  }

  ghost predicate Announces(p: SizeParts, n: nat) {
    && Names.Spaces(p.before) && Names.Spaces(p.after) && Radix.Denotes(p.digits, 16, n)
    && (p.extension != [] ==> p.extension[0] == 0x3b)
  }

  lemma PlainIsBare(t: Text)
    requires forall i :: 0 <= i < |t| ==> Plain(t[i])
    ensures Names.Bare(t) && 0x3b !in t
  {
    hide Utf8.IsWhitespace;
  }

  lemma SpacesHaveNone(t: Text)
    requires Names.Spaces(t)
    ensures 0x3b !in t
  {
    forall i | 0 <= i < |t|
      ensures t[i] != 0x3b
    {
      assert Utf8.IsWhitespace(t[i]);
    }
  }

  lemma SizeIsRead(p: SizeParts, n: nat)
    requires Announces(p, n)
    ensures ChunkSize(PartsText(p)) == Some(n)
  {
    hide Number, Find, Names.DropSpacesBefore, Names.DropSpacesAfter, Radix.Denotes, Plain, Names.Spaces, Names.Bare;
    DenotesIsAscii(p.digits, 16, n);
    PlainIsBare(p.digits);
    SpacesHaveNone(p.before);
    SpacesHaveNone(p.after);
    var front := p.before + p.digits + p.after;
    if p.extension != [] {
      FoundAt(front, p.extension[1..], 0x3b);
      assert PartsText(p) == front + [0x3b] + p.extension[1..];
      assert PartsText(p)[..|front|] == front;
    } else {
      assert PartsText(p) == front;
      NotFound(front, 0x3b);
    }
    Names.TrimIs(p.before, p.digits, p.after);
    NumberMeans(p.digits, 16, n);
  }

  lemma SizeWasWritten(t: Text) returns (p: SizeParts)
    requires ChunkSize(t).Some?
    ensures Announces(p, ChunkSize(t).value) && PartsText(p) == t
  {
    hide Number, Find, Names.DropSpacesBefore, Names.DropSpacesAfter, Radix.Denotes, Names.Spaces, Names.Bare;
    var k := Find(t, SEMICOLON);
    var front := if k.Some? then t[..k.value] else t;
    var before, after := Names.TrimParts(front);
    p := SizeParts(before, Trim(front), after, t[|front|..]);
    NumberMeans(Trim(front), 16, ChunkSize(t).value);
    assert t == t[..|front|] + t[|front|..] && t[..|front|] == front;
  }

  /** A whole size line. */
  ghost predicate SizeLine(line: bytes, n: nat) {
    && |line| >= 2 && line[|line| - 2..] == END
    && exists p :: IsLine(line[..|line| - 2], PartsText(p)) && Announces(p, n)
  }

  lemma SizeLineIsRead(line: bytes, n: nat)
    requires SizeLine(line, n)
    ensures LineOf(line).Ok? && LineOf(line).value.rest == [] && ChunkSize(LineOf(line).value.value.text) == Some(n)
  {
    hide LineOf, ChunkSize, IsLine, Announces, PartsText;
    var l := line[..|line| - 2];
    var p :| IsLine(l, PartsText(p)) && Announces(p, n);
    LineIsRead(l, PartsText(p), []);
    assert l + END + [] == line;
    SizeIsRead(p, n);
  }

  lemma SizeLineWasWritten(u: bytes) returns (line: bytes)
    requires LineOf(u).Ok? && ChunkSize(LineOf(u).value.value.text).Some?
    ensures SizeLine(line, ChunkSize(LineOf(u).value.value.text).value) && u == line + LineOf(u).value.rest
  {
    hide LineOf, ChunkSize, IsLine, Announces, PartsText;
    var l := LineWasWritten(u);
    var p := SizeWasWritten(LineOf(u).value.value.text);
    line := l + END;
    assert line[..|line| - 2] == l && line[|line| - 2..] == END;
  }

  // ----- trailers -----

  ghost predicate GoodTrailer(l: bytes) {
    l != [] && exists t :: IsLine(l, t)
  }

  function TrailerBytes(lines: seq<bytes>): bytes {
    if lines == [] then END else lines[0] + END + TrailerBytes(lines[1..])
  }

  function TotalSize(lines: seq<bytes>): nat {
    if lines == [] then 0 else |lines[0]| + TotalSize(lines[1..])
  }

  /** Any lines, together at most 8192 bytes long, and an empty one. */
  ghost predicate Trailers(b: bytes) {
    exists lines :: b == TrailerBytes(lines) && TotalSize(lines) <= 8192 && forall l :: l in lines ==> GoodTrailer(l)
  }

  lemma {:induction false} TrailerLinesAreRead(lines: seq<bytes>, more: bytes, total: nat)
    requires (forall l :: l in lines ==> GoodTrailer(l)) && total + TotalSize(lines) <= MAX_TRAILERS
    ensures TrailersOf(TrailerBytes(lines) + more, total) == Ok(more)
    decreases |lines|
  {
    hide LineOf, IsLine;
    if lines == [] {
      EmptyLine();
      LineIsRead([], [], more);
      assert [] + END + more == END + more;
    } else {
      var l := lines[0];
      assert GoodTrailer(l);
      var t :| IsLine(l, t);
      LineIsRead(l, t, TrailerBytes(lines[1..]) + more);
      assert TrailerBytes(lines) + more == l + END + (TrailerBytes(lines[1..]) + more);
      TrailerLinesAreRead(lines[1..], more, total + |l|);
    }
  }

  lemma TrailersAreRead(b: bytes, more: bytes)
    requires Trailers(b)
    ensures TrailersOf(b + more, 0) == Ok(more)
  {
    hide TrailersOf, GoodTrailer;
    var lines :| b == TrailerBytes(lines) && TotalSize(lines) <= 8192 && forall l :: l in lines ==> GoodTrailer(l);
    TrailerLinesAreRead(lines, more, 0);
  }

  lemma {:induction false} TrailerLinesWereWritten(u: bytes, total: nat) returns (lines: seq<bytes>)
    requires TrailersOf(u, total).Ok?
    ensures (forall l :: l in lines ==> GoodTrailer(l)) && (lines != [] ==> total + TotalSize(lines) <= MAX_TRAILERS)
    ensures u == TrailerBytes(lines) + TrailersOf(u, total).value
    decreases |u|
  {
    hide LineOf, IsLine;
    var l := LineWasWritten(u);
    var line := LineOf(u).value;
    lines := [];
    if line.value.size > 0 {
      var rest := TrailerLinesWereWritten(line.rest, total + |l|);
      lines := [l] + rest;
      assert IsLine(l, line.value.text) && lines[1..] == rest;
      var left := TrailersOf(u, total).value;
      assert l + END + (TrailerBytes(rest) + left) == l + END + TrailerBytes(rest) + left;
    } else {
      assert l == [] && [] + END == END;
    }
  }

  lemma TrailersWereWritten(u: bytes) returns (b: bytes)
    requires TrailersOf(u, 0).Ok?
    ensures Trailers(b) && u == b + TrailersOf(u, 0).value
  {
    hide TrailersOf, GoodTrailer;
    var lines := TrailerLinesWereWritten(u, 0);
    b := TrailerBytes(lines);
    assert TotalSize(lines) <= 8192;
  }
}

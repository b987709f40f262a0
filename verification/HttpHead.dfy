/** Requests as senders usually write them, a plain ASCII head before the body, are read as what they say. */
module HttpHead {
  import opened Bytes
  import opened HttpText
  import opened Http
  import opened HttpGrammar
  import opened HttpFraming
  import opened HttpTheorems
  import Names = SafeNames
  import Radix
  import Utf8

  datatype Field = Field(name: bytes, value: bytes)


  function Narrow(s: string): (r: bytes)
    requires forall i :: 0 <= i < |s| ==> s[i] as int < 0x80
    ensures |r| == |s| && forall i :: 0 <= i < |s| ==> r[i] as int == s[i] as int < 0x80
  {
    seq(|s|, i requires 0 <= i < |s| => s[i] as byte)
  }

  lemma PathIsAscii(p: Path)
    ensures forall i :: 0 <= i < |PathWord(p)| ==> PathWord(p)[i] as int < 0x80
  {
  }

  function FirstLine(p: Path): bytes {
    PathIsAscii(p);
    Narrow("POST ") + Narrow(PathWord(p)) + Narrow(" HTTP/1.1")
  }

  function FieldLine(f: Field): bytes {
    f.name + Narrow(": ") + f.value
  }

  function FieldLines(fields: seq<Field>): bytes {
    if fields == [] then END else FieldLine(fields[0]) + END + FieldLines(fields[1..])
  }

  function Write(p: Path, fields: seq<Field>): bytes {
    FirstLine(p) + END + FieldLines(fields)
  }

  predicate Plain(b: bytes) {
    Utf8.Ascii(b) && LF !in b
  }

  /** ASCII, on one line that fits, no colon in the name, no space around the value. */
  ghost predicate GoodPlain(f: Field) {
    && Plain(f.name) && Plain(f.value) && |f.name| + |f.value| + 4 <= MAX_LINE
    && 0x3a !in f.name && Names.Bare(Utf8.Codes(f.value))
  }

  /** The name of a field, in any case. */
  ghost predicate Named(f: Field, word: string) {
    Spells(Utf8.Codes(f.name), word)
  }

  function LinesSize(fields: seq<Field>): nat {
    if fields == [] then 0 else |fields[0].name| + 2 + |fields[0].value| + LinesSize(fields[1..])
  }

  /** Fields that make a head: good, short enough together, and no name twice, whatever its case. */
  ghost predicate GoodFields(fields: seq<Field>) {
    && (forall i :: 0 <= i < |fields| ==> GoodPlain(fields[i])) && LinesSize(fields) <= 32768
    && forall i, j :: 0 <= i < j < |fields| ==> Lower(Utf8.Codes(fields[i].name)) != Lower(Utf8.Codes(fields[j].name))
  }

  // ----- the same head in the reader's terms -----

  function Raw(f: Field): RawField {
    RawField(FieldLine(f), Utf8.Codes(f.name), [32], Utf8.Codes(f.value), [])
  }

  function RawAll(fields: seq<Field>): (r: seq<RawField>)
    ensures |r| == |fields| && forall i :: 0 <= i < |r| ==> r[i] == Raw(fields[i])
  {
    seq(|fields|, i requires 0 <= i < |fields| => Raw(fields[i]))
  }

  function RawOf(p: Path, fields: seq<Field>): RawHead {
    RawHead(First(FirstLine(p), [], [32], [32], [], p), RawAll(fields))
  }

  lemma {:induction false} CodesAppend(a: bytes, b: bytes)
    ensures Utf8.Codes(a + b) == Utf8.Codes(a) + Utf8.Codes(b)
  {
    if a == [] {
      assert a + b == b;
    } else {
      assert (a + b)[0] == a[0] && (a + b)[1..] == a[1..] + b;
      CodesAppend(a[1..], b);
    }
  }

  lemma CodesOf(s: string)
    requires forall i :: 0 <= i < |s| ==> s[i] as int < 0x80
    ensures Utf8.Codes(Narrow(s)) == Word(s)
  {
  }

  lemma PlainLine(l: bytes)
    requires Plain(l) && |l| + 2 <= MAX_LINE
    ensures IsLine(l, Utf8.Codes(l))
  {
    Utf8.AsciiDecodes(l);
    hide Utf8.Codes, Utf8.Decode;
  }

  lemma Colon()
    ensures Narrow(": ") == [0x3a, 0x20] && Utf8.Codes(Narrow(": ")) == [0x3a, 32]
  {
  }

  lemma RawText(f: Field)
    ensures Utf8.Codes(FieldLine(f)) == FieldText(Raw(f))
  {
    hide Utf8.Codes, Narrow;
    Colon();
    CodesAppend(f.name, Narrow(": "));
    CodesAppend(f.name + Narrow(": "), f.value);
    var name, value := Utf8.Codes(f.name), Utf8.Codes(f.value);
    assert name + [0x3a, 32] + value == name + [0x3a] + ([32] + value + []);
  }

  lemma PlainAppend(a: bytes, b: bytes)
    requires Plain(a) && Plain(b)
    ensures Plain(a + b)
  {
  }

  lemma RawIsGood(f: Field)
    requires GoodPlain(f)
    ensures HttpGrammar.GoodField(Raw(f))
  {
    hide Names.Bare, IsLine, Plain, Narrow, FieldText;
    Colon();
    assert Plain([0x3a, 0x20]) by {
      ColonIsPlain();
    }
    PlainAppend(f.name, Narrow(": "));
    PlainAppend(f.name + Narrow(": "), f.value);
    RawText(f);
    PlainLine(FieldLine(f));
    assert Names.Spaces([32]) && Names.Spaces([]);
    forall i | 0 <= i < |f.name|
      ensures Utf8.Codes(f.name)[i] != 0x3a
    {
      assert f.name[i] in f.name;
    }
  }

  lemma ColonIsPlain()
    ensures Plain([0x3a, 0x20])
  {
  }

  lemma FirstIsGood(p: Path)
    ensures GoodFirst(First(FirstLine(p), [], [32], [32], [], p))
  {
    PathIsAscii(p);
    PathIsPlain(p);
    FixedArePlain();
    hide IsLine, Plain, Narrow, FirstText;
    var post, path, version := Narrow("POST "), Narrow(PathWord(p)), Narrow(" HTTP/1.1");
    PlainAppend(post, path);
    PlainAppend(post + path, version);
    FirstCodes(p);
    PlainLine(FirstLine(p));
    assert Names.Spaces([32]) && Names.Spaces([]);
  }

  lemma FirstCodes(p: Path)
    ensures Utf8.Codes(FirstLine(p)) == FirstText(First(FirstLine(p), [], [32], [32], [], p))
  {
    PathIsAscii(p);
    hide Utf8.Codes, Narrow, Ascii;
    var post, path, version := Narrow("POST "), Narrow(PathWord(p)), Narrow(" HTTP/1.1");
    CodesAppend(post, path);
    CodesAppend(post + path, version);
    CodesOf("POST ");
    CodesOf(" HTTP/1.1");
    CodesOf(PathWord(p));
    FixedTexts();
    var a, b, c := Word("POST"), Word(PathWord(p)), Word("HTTP/1.1");
    Regroup(a, b, c, [32], []);
  }

  lemma Regroup(a: Text, b: Text, c: Text, gap: Text, none: Text)
    requires none == []
    ensures none + a + (gap + b + (gap + c + none)) == (a + gap) + b + (gap + c)
  {
  }

  lemma FixedTexts()
    ensures Word("POST ") == Word("POST") + [32] && Word(" HTTP/1.1") == [32] + Word("HTTP/1.1")
  {
  }

  lemma PathIsPlain(p: Path)
    requires forall i :: 0 <= i < |PathWord(p)| ==> PathWord(p)[i] as int < 0x80
    ensures Plain(Narrow(PathWord(p))) && |PathWord(p)| <= 9
  {
    forall i | 0 <= i < |PathWord(p)|
      ensures PathWord(p)[i] as int != 0x0a
    {
    }
  }

  lemma FixedArePlain()
    ensures Plain(Narrow("POST ")) && Plain(Narrow(" HTTP/1.1"))
  {
  }

  lemma {:induction false} LinesAreBytes(fields: seq<Field>)
    ensures FieldLines(fields) == FieldBytes(RawAll(fields)) && Size(RawAll(fields)) == LinesSize(fields)
  {
    if fields != [] {
      LinesAreBytes(fields[1..]);
      assert RawAll(fields)[1..] == RawAll(fields[1..]);
    }
  }

  /** What is written is a head. */
  lemma WrittenIsGood(p: Path, fields: seq<Field>)
    requires GoodFields(fields)
    ensures GoodHead(RawOf(p, fields)) && Write(p, fields) == HeadBytes(RawOf(p, fields))
  {
    hide GoodFirst, HttpGrammar.GoodField, GoodPlain, FieldLine, FirstLine;
    FirstIsGood(p);
    LinesAreBytes(fields);
    forall i | 0 <= i < |fields|
      ensures HttpGrammar.GoodField(RawAll(fields)[i])
    {
      RawIsGood(fields[i]);
    }
  }

  lemma HeadIsRead(p: Path, fields: seq<Field>)
    requires GoodFields(fields)
    ensures HeadOf(Write(p, fields)) == Ok(Parsed(Head(p, HeadersIn(RawOf(p, fields))), []))
  {
    hide HeadOf, GoodHead, HeadBytes, Write;
    WrittenIsGood(p, fields);
    HttpGrammar.HeadIsRead(RawOf(p, fields), []);
    assert HeadBytes(RawOf(p, fields)) + [] == HeadBytes(RawOf(p, fields));
  }

  // ----- whole requests -----

  /** The headers hold each field under its name in lower case, and nothing else. */
  lemma HeldAs(p: Path, fields: seq<Field>, word: string)
    requires GoodFields(fields) && forall i :: 0 <= i < |word| ==> !('A' <= word[i] <= 'Z')
    ensures var headers := HeadersIn(RawOf(p, fields));
            && (forall i :: 0 <= i < |fields| && Named(fields[i], word) ==>
                  Word(word) in headers && headers[Word(word)] == Utf8.Codes(fields[i].value))
            && (Word(word) in headers ==> exists i :: 0 <= i < |fields| && Named(fields[i], word))
  {
    hide Lower, Spells, Utf8.Codes, Ascii, GoodPlain, Meant;
    var raw := RawAll(fields);
    MeantMeans(raw, map[]);
    forall i | 0 <= i < |fields|
      ensures Named(fields[i], word) <==> Key(raw[i]) == Word(word)
    {
      SpellsMeans(Utf8.Codes(fields[i].name), word);
    }
    if Word(word) in HeadersIn(RawOf(p, fields)) {
      var i :| 0 <= i < |raw| && Key(raw[i]) == Word(word);
      assert Named(fields[i], word);
    }
  }

  /** The request that a head and a content stand for. */
  function Stands(p: Path, fields: seq<Field>, content: bytes, spool: bool): Request {
    var headers := HeadersIn(RawOf(p, fields));
    if p == Upload && spool then Request(p, headers, [], Some(content)) else Request(p, headers, content, None)
  }

  /** A body in chunks, behind a head with one field `transfer-encoding`, its name and "chunked" in any case: the
      chunks together are the content, however it is cut. */
  lemma ChunkedIsRead(p: Path, fields: seq<Field>, te: nat, chunks: seq<Chunk>, last: bytes, trailers: bytes,
                      more: bytes, spool: bool)
    requires GoodFields(fields) && te < |fields| && Named(fields[te], "transfer-encoding")
    requires Spells(Utf8.Codes(fields[te].value), "chunked")
    requires forall i :: 0 <= i < |fields| ==> !Named(fields[i], "content-length")
    requires (forall c :: c in chunks ==> GoodChunk(c)) && SizeLine(last, 0) && Trailers(trailers)
    requires |Data(chunks)| <= Room(p, spool)
    ensures RequestOf(Write(p, fields) + (Wire(chunks) + last + trailers) + more, spool, true)
         == Ok(Parsed(Stands(p, fields, Data(chunks), spool), more))
  {
    hide RequestOf, GoodHead, HeadBytes, Write, Named, Spells, GoodFields, HeadersIn, Room, SizeLine, Trailers,
      GoodChunk;
    WrittenIsGood(p, fields);
    HeldAs(p, fields, "transfer-encoding");
    HeldAs(p, fields, "content-length");
    MessageIsRead(InChunks(RawOf(p, fields), chunks, last, trailers), more, spool);
  }

  /** A body behind a head with one field `content-length`, its length in decimal digits. */
  lemma SizedIsRead(p: Path, fields: seq<Field>, cl: nat, content: bytes, more: bytes, spool: bool)
    requires GoodFields(fields) && cl < |fields| && Named(fields[cl], "content-length")
    requires Radix.Denotes(Utf8.Codes(fields[cl].value), 10, |content|)
    requires forall i :: 0 <= i < |fields| ==> !Named(fields[i], "transfer-encoding")
    requires |content| <= Room(p, spool)
    ensures RequestOf(Write(p, fields) + content + more, spool, true)
         == Ok(Parsed(Stands(p, fields, content, spool), more))
  {
    hide RequestOf, GoodHead, HeadBytes, Write, Named, GoodFields, HeadersIn, Room, Radix.Denotes;
    WrittenIsGood(p, fields);
    HeldAs(p, fields, "transfer-encoding");
    HeldAs(p, fields, "content-length");
    MessageIsRead(Sized(RawOf(p, fields), content), more, spool);
  }

  /** And behind a head with neither there is no body. */
  lemma BareIsRead(p: Path, fields: seq<Field>, more: bytes, spool: bool)
    requires GoodFields(fields)
    requires forall i :: 0 <= i < |fields| ==>
               !Named(fields[i], "transfer-encoding") && !Named(fields[i], "content-length")
    ensures RequestOf(Write(p, fields) + more, spool, true) == Ok(Parsed(Stands(p, fields, [], spool), more))
  {
    hide RequestOf, GoodHead, HeadBytes, Write, Named, GoodFields, HeadersIn, Radix.Denotes;
    WrittenIsGood(p, fields);
    HeldAs(p, fields, "transfer-encoding");
    HeldAs(p, fields, "content-length");
    MessageIsRead(Sized(RawOf(p, fields), []), more, spool);
    assert HeadBytes(RawOf(p, fields)) + [] == Write(p, fields);
  }
}

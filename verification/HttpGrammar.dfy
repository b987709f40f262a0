/** The language the HTTP reader accepts, told from what a sender writes: lines, the request line, header fields, size
    lines and trailers. Each is read as what it says, and nothing else is accepted. */
module HttpGrammar {
  import opened Bytes
  import opened HttpText
  import opened Http
  import Names = SafeNames
  import Radix
  import Utf8

  const END: bytes := [0x0d, 0x0a]

  /** A text on a line, its ending aside. */
  predicate IsLine(l: bytes, t: Text) {
    0x0a !in l && |l| + 2 <= 8192 && Utf8.Decode(l) == Some(t)
  }

  lemma {:induction false} FeedAt(l: bytes, more: bytes)
    requires LF !in l
    ensures LineFeed(l + [CR, LF] + more) == Some(|l| + 1)
  {
    var u := l + [CR, LF] + more;
    if l == [] {
      assert u[0] == CR && u[1..][0] == LF;
    } else {
      assert u[1..] == l[1..] + [CR, LF] + more;
      FeedAt(l[1..], more);
    }
  }

  lemma LineIsRead(l: bytes, t: Text, more: bytes)
    requires IsLine(l, t)
    ensures LineOf(l + END + more) == Ok(Parsed(Line(t, |l|), more))
  {
    hide LineFeed, Utf8.Decode;
    var u := l + END + more;
    FeedAt(l, more);
    assert u[..|l|] == l && u[|l|] == CR && u[|l| + 2..] == more;
  }

  /** Every line that is read was one. */
  lemma LineWasWritten(u: bytes) returns (l: bytes)
    requires LineOf(u).Ok?
    ensures var line := LineOf(u).value;
            IsLine(l, line.value.text) && |l| == line.value.size && u == l + END + line.rest
  {
    hide LineFeed, Utf8.Decode;
    var k := LineFeed(u).value;
    l := u[..k - 1];
    assert forall c :: c in l ==> c in u[..k];
    assert u == u[..k - 1] + [u[k - 1], u[k]] + u[k + 1..];
  }

  // ----- words -----

  function Word(s: string): (t: Text)
    ensures |t| == |s| && forall i :: 0 <= i < |s| ==> t[i] == s[i] as nat
  {
    Ascii(s)
  }

  predicate OneWord(a: Text) {
    a != [] && forall i :: 0 <= i < |a| ==> !Utf8.IsWhitespace(a[i])
  }

  lemma {:induction false} GapBefore(gap: Text, t: Text)
    requires Names.Spaces(gap)
    ensures Words(gap + t) == Words(t)
    decreases |gap|
  {
    hide Utf8.IsWhitespace;
    if gap == [] {
      assert gap + t == t;
    } else {
      assert (gap + t)[0] == gap[0] && (gap + t)[1..] == gap[1..] + t;
      GapBefore(gap[1..], t);
    }
  }

  lemma {:induction false} WordEnds(a: Text, rest: Text)
    requires (forall i :: 0 <= i < |a| ==> !Utf8.IsWhitespace(a[i])) && (rest != [] ==> Utf8.IsWhitespace(rest[0]))
    ensures WordLength(a + rest) == |a|
  {
    hide Utf8.IsWhitespace;
    if a == [] {
      assert a + rest == rest;
    } else {
      assert (a + rest)[0] == a[0] && (a + rest)[1..] == a[1..] + rest;
      WordEnds(a[1..], rest);
    }
  }

  lemma WordFirst(a: Text, rest: Text)
    requires OneWord(a) && (rest != [] ==> Utf8.IsWhitespace(rest[0]))
    ensures Words(a + rest) == [a] + Words(rest)
  {
    hide Utf8.IsWhitespace, WordLength;
    WordEnds(a, rest);
    assert (a + rest)[0] == a[0] && (a + rest)[..|a|] == a && (a + rest)[|a|..] == rest;
  }

  /** The first word of a text, what stands before it and what follows. */
  lemma {:induction false} FirstWord(t: Text) returns (gap: Text, rest: Text)
    requires Words(t) != []
    ensures Names.Spaces(gap) && OneWord(Words(t)[0]) && (rest != [] ==> Utf8.IsWhitespace(rest[0]))
    ensures t == gap + Words(t)[0] + rest && Words(rest) == Words(t)[1..]
    decreases |t|
  {
    hide Utf8.IsWhitespace;
    if Utf8.IsWhitespace(t[0]) {
      var g, r := FirstWord(t[1..]);
      gap, rest := [t[0]] + g, r;
      assert t == [t[0]] + t[1..];
    } else {
      gap, rest := [], t[WordLength(t)..];
      WordIsOne(t);
      assert t == [] + t[..WordLength(t)] + rest;
    }
  }

  lemma {:induction false} WordIsOne(t: Text)
    ensures forall i :: 0 <= i < WordLength(t) ==> !Utf8.IsWhitespace(t[i])
    ensures WordLength(t) < |t| ==> Utf8.IsWhitespace(t[WordLength(t)])
  {
    hide Utf8.IsWhitespace;
    if t != [] && !Utf8.IsWhitespace(t[0]) {
      WordIsOne(t[1..]);
    }
  }

  lemma {:induction false} NoWords(t: Text)
    requires Words(t) == []
    ensures Names.Spaces(t)
    decreases |t|
  {
    hide Utf8.IsWhitespace;
    if t != [] {
      NoWords(t[1..]);
      assert forall i :: 0 < i < |t| ==> t[i] == t[1..][i - 1];
    }
  }

  // ----- the request line -----

  function PathWord(p: Path): string {
    match p case Discover => "/Discover" case Ask => "/Ask" case Upload => "/Upload"
  }

  /** A request line: the method, the path and the version, with white space before, between and after them. */
  datatype First = First(line: bytes, lead: Text, left: Text, right: Text, tail: Text, path: Path)

  function FirstText(f: First): Text {
    f.lead + Word("POST") + (f.left + Word(PathWord(f.path)) + (f.right + Word("HTTP/1.1") + f.tail))
  }

  predicate GoodFirst(f: First) {
    && IsLine(f.line, FirstText(f))
    && Names.Spaces(f.lead) && Names.Spaces(f.left) && Names.Spaces(f.right) && Names.Spaces(f.tail)
    && f.left != [] && f.right != []
  }

  lemma PathWordIsOne(p: Path)
    ensures OneWord(Word(PathWord(p))) && PathOf(Word(PathWord(p))) == Some(p)
  {
    match p
    case Discover =>
    case Ask => assert |DISCOVER| != |ASK|;
    case Upload => assert |DISCOVER| != |UPLOAD| && |ASK| != |UPLOAD|;
  }

  lemma FixedWordsAreOne()
    ensures OneWord(Word("POST")) && OneWord(Word("HTTP/1.1"))
  {
  }

  lemma FirstIsRead(f: First)
    requires GoodFirst(f)
    ensures RequestLine(FirstText(f)) == Ok(f.path)
  {
    hide Words, PathOf, Utf8.IsWhitespace, OneWord, Ascii;
    var post, path, version := Word("POST"), Word(PathWord(f.path)), Word("HTTP/1.1");
    FixedWordsAreOne();
    PathWordIsOne(f.path);
    var third := f.right + version + f.tail;
    var second := f.left + path + third;
    Around(f.lead, post, second);
    Around(f.left, path, third);
    Around(f.right, version, f.tail);
    NothingButSpaces(f.tail);
  }

  lemma NothingButSpaces(gap: Text)
    requires Names.Spaces(gap)
    ensures Words(gap) == []
  {
    GapBefore(gap, []);
    assert gap + [] == gap;
  }

  lemma Around(gap: Text, word: Text, rest: Text)
    requires Names.Spaces(gap) && OneWord(word) && (rest != [] ==> Utf8.IsWhitespace(rest[0]))
    ensures Words(gap + word + rest) == [word] + Words(rest)
  {
    hide Utf8.IsWhitespace, Words;
    assert gap + word + rest == gap + (word + rest);
    GapBefore(gap, word + rest);
    WordFirst(word, rest);
  }

  lemma FirstWasWritten(l: bytes, t: Text) returns (f: First)
    requires IsLine(l, t) && RequestLine(t).Ok?
    ensures GoodFirst(f) && f.line == l && FirstText(f) == t && f.path == RequestLine(t).value
  {
    hide Words, Utf8.IsWhitespace, Ascii;
    var words := Words(t);
    var lead, second := FirstWord(t);
    var left, third := FirstWord(second);
    var right, tail := FirstWord(third);
    NoWords(tail);
    PathTextIs(words[1]);
    f := First(l, lead, left, right, tail, RequestLine(t).value);
    FixedTextsAre();
    assert second == left + words[1] + third && third == right + words[2] + tail;
    GapIsThere(second, left, words[1], third);
    GapIsThere(third, right, words[2], tail);
  }

  lemma GapIsThere(t: Text, gap: Text, word: Text, rest: Text)
    requires t == gap + word + rest && OneWord(word) && Utf8.IsWhitespace(t[0])
    ensures gap != []
  {
    hide Utf8.IsWhitespace;
    assert gap == [] ==> gap + word + rest == word + rest;
    assert (word + rest)[0] == word[0];
  }

  lemma PathTextIs(t: Text)
    requires PathOf(t).Some?
    ensures t == Word(PathWord(PathOf(t).value))
  {
  }

  lemma FixedTextsAre()
    ensures POST == Word("POST") && VERSION == Word("HTTP/1.1")
  {
  }

  // ----- header fields -----

  /** A header line: the name up to the first colon, and the value between white space. */
  datatype RawField = RawField(line: bytes, name: Text, before: Text, value: Text, after: Text)

  function FieldText(f: RawField): Text {
    f.name + [0x3a] + (f.before + f.value + f.after)
  }

  predicate GoodField(f: RawField) {
    IsLine(f.line, FieldText(f)) && 0x3a !in f.name
    && Names.Spaces(f.before) && Names.Spaces(f.after) && Names.Bare(f.value)
  }

  function Key(f: RawField): Text {
    Lower(f.name)
  }

  /** Lower case is a matter of the letters A to Z. */
  lemma LowerMeans(t: Text, i: nat)
    requires i < |t|
    ensures Lower(t)[i] == if 'A' as int <= t[i] <= 'Z' as int then t[i] - 'A' as int + 'a' as int else t[i]
  {
  }

  lemma {:induction false} FoundAt(a: Text, b: Text, c: nat)
    requires c !in a
    ensures Find(a + [c] + b, c) == Some(|a|)
  {
    if a != [] {
      assert (a + [c] + b)[0] == a[0] && (a + [c] + b)[1..] == a[1..] + [c] + b;
      FoundAt(a[1..], b, c);
    }
  }

  lemma {:induction false} FoundFirst(t: Text, c: nat)
    ensures Find(t, c).Some? ==> c !in t[..Find(t, c).value]
    ensures Find(t, c).None? ==> c !in t
  {
    if t != [] && t[0] != c {
      FoundFirst(t[1..], c);
      if Find(t, c).Some? {
        assert t[..Find(t, c).value] == [t[0]] + t[1..][..Find(t, c).value - 1];
      }
    }
  }

  lemma FieldIsRead(f: RawField, headers: Headers)
    requires GoodField(f)
    ensures WithHeader(headers, FieldText(f))
         == if Key(f) in headers then Err(DuplicateHeader) else Ok(headers[Key(f) := f.value])
  {
    hide Find, Lower, Names.DropSpacesBefore, Names.DropSpacesAfter, Utf8.IsWhitespace, Names.Spaces, Names.Bare;
    var value := f.before + f.value + f.after;
    FoundAt(f.name, value, COLON);
    Names.TrimIs(f.before, f.value, f.after);
    assert FieldText(f)[..|f.name|] == f.name && FieldText(f)[|f.name| + 1..] == value;
  }

  lemma FieldWasWritten(l: bytes, t: Text, headers: Headers) returns (f: RawField)
    requires IsLine(l, t) && WithHeader(headers, t).Ok?
    ensures GoodField(f) && f.line == l && FieldText(f) == t && Key(f) !in headers
    ensures WithHeader(headers, t) == Ok(headers[Key(f) := f.value])
  {
    hide Find, Lower, Names.DropSpacesBefore, Names.DropSpacesAfter, Utf8.IsWhitespace, Names.Spaces, Names.Bare;
    FoundFirst(t, COLON);
    var k := Find(t, COLON).value;
    var before, after := Names.TrimParts(t[k + 1..]);
    f := RawField(l, t[..k], before, Trim(t[k + 1..]), after);
    assert t == t[..k] + [t[k]] + t[k + 1..];
  }

  function FieldBytes(fields: seq<RawField>): bytes {
    if fields == [] then END else fields[0].line + END + FieldBytes(fields[1..])
  }

  function Size(fields: seq<RawField>): nat {
    if fields == [] then 0 else |fields[0].line| + Size(fields[1..])
  }

  /** The headers the fields stand for, after those already there. */
  function Meant(fields: seq<RawField>, headers: Headers): Headers {
    if fields == [] then headers else Meant(fields[1..], headers[Key(fields[0]) := fields[0].value])
  }

  ghost predicate AllGood(fields: seq<RawField>) {
    forall i :: 0 <= i < |fields| ==> GoodField(fields[i])
  }

  /** No name twice, whatever its case, and none that is already there. */
  ghost predicate Distinct(fields: seq<RawField>, headers: Headers) {
    && (forall i, j :: 0 <= i < j < |fields| ==> Key(fields[i]) != Key(fields[j]))
    && (forall i :: 0 <= i < |fields| ==> Key(fields[i]) !in headers)
  }

  /** Each field stands under its key, and nothing else is added. */
  lemma {:induction false} MeantMeans(fields: seq<RawField>, headers: Headers)
    requires Distinct(fields, headers)
    ensures forall i :: 0 <= i < |fields| ==> Key(fields[i]) in Meant(fields, headers)
                                              && Meant(fields, headers)[Key(fields[i])] == fields[i].value
    ensures forall k :: k in headers ==> k in Meant(fields, headers) && Meant(fields, headers)[k] == headers[k]
    ensures forall k :: k in Meant(fields, headers) ==>
              k in headers || exists i :: 0 <= i < |fields| && Key(fields[i]) == k
    decreases |fields|
  {
    hide Key;
    if fields != [] {
      var rest, more := fields[1..], headers[Key(fields[0]) := fields[0].value];
      assert forall i :: 0 <= i < |rest| ==> rest[i] == fields[i + 1];
      MeantMeans(rest, more);
      forall i | 0 <= i < |fields|
        ensures Key(fields[i]) in Meant(fields, headers) && Meant(fields, headers)[Key(fields[i])] == fields[i].value
      {
        assert i > 0 ==> fields[i] == rest[i - 1];
      }
      forall k | k in Meant(fields, headers) && k !in headers
        ensures exists i :: 0 <= i < |fields| && Key(fields[i]) == k
      {
        if k != Key(fields[0]) {
          var i :| 0 <= i < |rest| && Key(rest[i]) == k;
          assert Key(fields[i + 1]) == k;
        }
      }
    }
  }

  lemma EmptyLine()
    ensures IsLine([], [])
  {
  }

  lemma FieldIsNotEmpty(f: RawField)
    requires GoodField(f)
    ensures f.line != []
  {
  }

  lemma {:induction false} FieldsAreRead(fields: seq<RawField>, more: bytes, total: nat, headers: Headers)
    requires AllGood(fields) && Distinct(fields, headers) && total + Size(fields) <= MAX_HEADERS
    ensures HeadersOf(FieldBytes(fields) + more, total, headers) == Ok(Parsed(Meant(fields, headers), more))
    decreases |fields|
  {
    hide LineOf, WithHeader, IsLine, FieldText, Key, GoodField;
    if fields == [] {
      EmptyLine();
      LineIsRead([], [], more);
      assert [] + END + more == END + more;
    } else {
      var f, rest := fields[0], fields[1..];
      FieldLineIsRead(f, FieldBytes(rest) + more);
      assert FieldBytes(fields) + more == f.line + END + (FieldBytes(rest) + more);
      FieldIsRead(f, headers);
      assert forall i :: 0 <= i < |rest| ==> rest[i] == fields[i + 1];
      FieldsAreRead(rest, more, total + |f.line|, headers[Key(f) := f.value]);
    }
  }

  lemma FieldLineIsRead(f: RawField, rest: bytes)
    requires GoodField(f)
    ensures LineOf(f.line + END + rest) == Ok(Parsed(Line(FieldText(f), |f.line|), rest)) && f.line != []
  {
    FieldIsNotEmpty(f);
    LineIsRead(f.line, FieldText(f), rest);
  }

  lemma {:induction false} FieldsWereWritten(u: bytes, total: nat, headers: Headers) returns (fields: seq<RawField>)
    requires HeadersOf(u, total, headers).Ok?
    ensures AllGood(fields) && Distinct(fields, headers) && (fields != [] ==> total + Size(fields) <= MAX_HEADERS)
    ensures u == FieldBytes(fields) + HeadersOf(u, total, headers).value.rest
    ensures HeadersOf(u, total, headers).value.value == Meant(fields, headers)
    decreases |u|
  {
    hide LineOf, WithHeader, IsLine, FieldText, Key, GoodField;
    var l := LineWasWritten(u);
    var line := LineOf(u).value;
    fields := [];
    if line.value.size > 0 {
      var f := FieldWasWritten(l, line.value.text, headers);
      var more := headers[Key(f) := f.value];
      var rest := FieldsWereWritten(line.rest, total + |l|, more);
      fields := [f] + rest;
      DistinctCons(f, rest, headers);
      assert fields[1..] == rest;
      var left := HeadersOf(u, total, headers).value.rest;
      assert l + END + (FieldBytes(rest) + left) == l + END + FieldBytes(rest) + left;
    } else {
      assert l == [] && [] + END == END;
    }
  }

  lemma DistinctCons(f: RawField, rest: seq<RawField>, headers: Headers)
    requires Key(f) !in headers && Distinct(rest, headers[Key(f) := f.value])
    ensures Distinct([f] + rest, headers)
  {
    hide Key;
  }

  // ----- the head -----

  datatype RawHead = RawHead(first: First, fields: seq<RawField>)

  function HeadBytes(h: RawHead): bytes {
    h.first.line + END + FieldBytes(h.fields)
  }

  ghost predicate GoodHead(h: RawHead) {
    GoodFirst(h.first) && AllGood(h.fields) && Distinct(h.fields, map[]) && Size(h.fields) <= 32768
  }

  function HeadersIn(h: RawHead): Headers {
    Meant(h.fields, map[])
  }

  lemma HeadIsRead(h: RawHead, more: bytes)
    requires GoodHead(h)
    ensures HeadOf(HeadBytes(h) + more) == Ok(Parsed(Head(h.first.path, HeadersIn(h)), more))
  {
    hide LineOf, RequestLine, HeadersOf, FirstText, FieldBytes, AllGood, Distinct, Meant;
    assert HeadBytes(h) + more == h.first.line + END + (FieldBytes(h.fields) + more);
    LineIsRead(h.first.line, FirstText(h.first), FieldBytes(h.fields) + more);
    FirstIsRead(h.first);
    FieldsAreRead(h.fields, more, 0, map[]);
  }

  /** Every head that is read was such a head. */
  lemma HeadWasWritten(u: bytes) returns (h: RawHead)
    requires HeadOf(u).Ok?
    ensures GoodHead(h) && u == HeadBytes(h) + HeadOf(u).value.rest
    ensures HeadOf(u).value.value == Head(h.first.path, HeadersIn(h))
  {
    hide LineOf, RequestLine, HeadersOf, FirstText, FieldBytes, AllGood, Distinct, Meant, IsLine;
    var l := LineWasWritten(u);
    var line := LineOf(u).value;
    var f := FirstWasWritten(l, line.value.text);
    var fields := FieldsWereWritten(line.rest, 0, map[]);
    h := RawHead(f, fields);
    NoFields();
    assert HeadBytes(h) + HeadOf(u).value.rest == l + END + (FieldBytes(fields) + HeadOf(u).value.rest);
  }

  lemma NoFields()
    ensures Size([]) == 0
  {
  }
}

/** CPIO entry headers: the odc headers the sender writes (src/airdrop/outgoing.rs, the cpio interchange format
    of the pax utility in POSIX.1) and the odc and newc headers the receivers read (src/airdrop/storage.rs). */
module Cpio {
  import opened Bytes
  import Radix
  import Utf8

  const MAX_TRANSFER: nat := 32 * 1024 * 1024 * 1024
  const MAX_ENTRIES: nat := 65536
  /** 0o77777777777 */
  const MAX_ODC_SIZE: nat := 0x1_ffff_ffff

  /** The magic of odc and of newc, 070707 and 070701. */
  const ODC: bytes := [0x30, 0x37, 0x30, 0x37, 0x30, 0x37]
  const NEWC: bytes := [0x30, 0x37, 0x30, 0x37, 0x30, 0x31]
  /** TRAILER!!! */
  const TRAILER: bytes := [0x54, 0x52, 0x41, 0x49, 0x4c, 0x45, 0x52, 0x21, 0x21, 0x21]

  datatype Error =
    | MissingTrailer | Truncated | BadFormat | BadNumber | NameLength | NotTerminated | NotUtf8 | BadTrailer
    | TooLarge | BadRoot | UnsafePath | DirectoryPayload | Special | Exists | NotADirectory | NoParent
    | TooManyEntries | NoFiles | EmptyName

  /** Where a header format keeps its fields. */
  datatype Layout = Layout(length: nat, radix: nat, mode: (nat, nat), size: (nat, nat), nameSize: (nat, nat),
                           align: nat)

  const ODC_LAYOUT := Layout(76, 8, (18, 24), (65, 76), (59, 65), 1)
  const NEWC_LAYOUT := Layout(110, 16, (14, 22), (54, 62), (94, 102), 4)

  /** A parsed header; the payload starts at `next`. */
  datatype Head = Head(mode: nat, size: nat, name: bytes, align: nat, next: nat)

  /** The two file types the receiver knows: `mode & 0o170000` is 0o040000 or 0o100000. */
  function TypeBits(mode: nat): nat {
    mode / 0x1000 % 0x10 * 0x1000
  }

  predicate IsDirectory(mode: nat) {
    TypeBits(mode) == 0x4000
  }

  predicate IsRegular(mode: nat) {
    TypeBits(mode) == 0x8000
  }

  /** `pad`: how many bytes to the next multiple. */
  function PadLength(offset: nat, align: nat): (n: nat)
    requires align == 1 || align == 4
    ensures n < align && (offset + n) % align == 0
  {
    (align - offset % align) % align
  }

  function Number(b: bytes, radix: nat): Option<nat> {
    if Utf8.Valid(b) then Radix.Parse(b, radix) else None
  }

  function Field(data: bytes, pos: nat, span: (nat, nat), radix: nat): Option<nat>
    requires span.0 <= span.1 && pos + span.1 <= |data|
  {
    Number(data[pos + span.0..pos + span.1], radix)
  }

  predicate IsLayout(l: Layout) {
    l == ODC_LAYOUT || l == NEWC_LAYOUT
  }

  function LayoutOf(magic: bytes): Option<Layout> {
    if magic == ODC then Some(ODC_LAYOUT) else if magic == NEWC then Some(NEWC_LAYOUT) else None
  }

  function HeadIn(data: bytes, pos: nat, l: Layout): (r: Result<Head, Error>)
    requires IsLayout(l) && pos <= |data|
    ensures r.Ok? ==> pos < r.value.next <= |data| && r.value.align == l.align
  {
    if pos + l.length > |data| then Err(Truncated)
    else match (Field(data, pos, l.mode, l.radix), Field(data, pos, l.size, l.radix),
                Field(data, pos, l.nameSize, l.radix))
      case (Some(mode), Some(size), Some(nameSize)) =>
        if !(1 <= nameSize <= 4096) then Err(NameLength)
        else
          var end := pos + l.length + nameSize;
          if end > |data| then Err(Truncated)
          else if data[end - 1] != 0 then Err(NotTerminated)
          else
            var name := data[pos + l.length..end - 1];
            if !Utf8.Valid(name) then Err(NotUtf8)
            else
              var next := end + PadLength(end, l.align);
              if next > |data| then Err(Truncated) else Ok(Head(mode, size, name, l.align, next))
      case _ => Err(BadNumber)
  }

  /** The header at `pos`. */
  function HeadF(data: bytes, pos: nat): (r: Result<Head, Error>)
    requires pos <= |data|
    ensures r.Ok? ==> pos < r.value.next <= |data| && (r.value.align == 1 || r.value.align == 4)
  {
    if pos + 6 > |data| then Err(MissingTrailer)
    else match LayoutOf(data[pos..pos + 6])
      case None => Err(BadFormat)
      case Some(l) => HeadIn(data, pos, l)
  }

  /** A header ends where its alignment wants. */
  lemma HeadIsAligned(data: bytes, pos: nat)
    requires pos <= |data| && HeadF(data, pos).Ok?
    ensures HeadF(data, pos).value.next % HeadF(data, pos).value.align == 0
  {
    hide Field, Utf8.Valid;
  }

  // ----- The sender's header -----

  function Octal(n: nat, w: nat): (r: bytes) {
    Radix.Padded(n, 8, w)
  }

  function Before(ino: nat): (r: bytes) {
    ODC + Octal(0, 6) + Octal(ino, 6)
  }

  function Middle(): (r: bytes) {
    Octal(0, 6) + Octal(0, 6) + Octal(1, 6) + Octal(0, 6) + Octal(0, 11)
  }

  /** Magic, device, inode, mode, owner, group, links, device, time, name length, size. */
  function Fixed(nameLength: nat, size: nat, mode: nat, ino: nat): (r: bytes) {
    Before(ino) + (Octal(mode, 6) + (Middle() + (Octal(nameLength + 1, 6) + Octal(size, 11))))
  }

  /** `header`: the fixed part, the name, a NUL. */
  function HeaderF(name: bytes, size: nat, mode: nat, ino: nat): (r: Result<bytes, Error>) {
    if size > MAX_ODC_SIZE then Err(TooLarge) else Ok(Fixed(|name|, size, mode, ino) + (name + [0]))
  }

  lemma OctalWidths()
    ensures Radix.Pow(8, 6) == 0x4_0000 && Radix.Pow(8, 11) == MAX_ODC_SIZE + 1
  {
    assert Radix.Pow(8, 6) == 0x4_0000;
    assert Radix.Pow(8, 11) == 8 * 8 * 8 * 8 * 8 * Radix.Pow(8, 6);
  }

  lemma OctalReads(n: nat, w: nat)
    requires w >= 1 && n < Radix.Pow(8, w) && n <= U64_MAX
    ensures |Octal(n, w)| == w && Number(Octal(n, w), 8) == Some(n)
  {
    Radix.PaddedRoundTrip(n, 8, w);
    Radix.PaddedWidth(n, 8, w);
    OctalIsAscii(n, w);
    Utf8.AsciiDecodes(Octal(n, w));
  }

  lemma OctalIsAscii(n: nat, w: nat)
    ensures Utf8.Ascii(Octal(n, w))
  {
    DigitsAscii(n);
  }

  lemma {:induction false} DigitsAscii(n: nat)
    ensures Utf8.Ascii(Radix.Digits(n, 8))
    decreases n
  {
    if n >= 8 {
      DigitsAscii(n / 8);
    }
  }

  /** Every field of the header stands where the odc layout looks for it, in its exact width. */
  lemma FieldsOfHeader(data: bytes, pos: nat, nameLength: nat, size: nat, mode: nat, ino: nat)
    requires size <= MAX_ODC_SIZE && mode < 0x4_0000 && ino < 0x4_0000 && nameLength < 0x3_ffff
    requires At(data, pos, Fixed(nameLength, size, mode, ino))
    ensures |Fixed(nameLength, size, mode, ino)| == 76 && At(data, pos, ODC)
    ensures Field(data, pos, ODC_LAYOUT.mode, 8) == Some(mode)
    ensures Field(data, pos, ODC_LAYOUT.size, 8) == Some(size)
    ensures Field(data, pos, ODC_LAYOUT.nameSize, 8) == Some(nameLength + 1)
  {
    OctalWidths();
    OctalReads(0, 6);
    OctalReads(1, 6);
    OctalReads(0, 11);
    OctalReads(ino, 6);
    OctalReads(mode, 6);
    OctalReads(nameLength + 1, 6);
    OctalReads(size, 11);
    hide Octal, Number;
    var last := Octal(nameLength + 1, 6) + Octal(size, 11);
    AtConcat(data, pos, Before(ino), Octal(mode, 6) + (Middle() + last));
    AtConcat(data, pos, ODC + Octal(0, 6), Octal(ino, 6));
    AtConcat(data, pos, ODC, Octal(0, 6));
    AtConcat(data, pos + 18, Octal(mode, 6), Middle() + last);
    AtConcat(data, pos + 24, Middle(), last);
    AtConcat(data, pos + 59, Octal(nameLength + 1, 6), Octal(size, 11));
  }

  /** An odc header whose fields and name are in place. */
  lemma OdcHead(data: bytes, pos: nat, mode: nat, size: nat, name: bytes)
    requires pos + 76 <= |data| && At(data, pos, ODC)
    requires Field(data, pos, ODC_LAYOUT.mode, 8) == Some(mode) && Field(data, pos, ODC_LAYOUT.size, 8) == Some(size)
    requires Field(data, pos, ODC_LAYOUT.nameSize, 8) == Some(|name| + 1) && |name| <= 4095 && Utf8.Valid(name)
    requires At(data, pos + 76, name) && At(data, pos + 76 + |name|, [0])
    ensures HeadF(data, pos) == Ok(Head(mode, size, name, 1, pos + 76 + |name| + 1))
  {
    AtIndex(data, pos + 76 + |name|, [0], 0);
    hide Field, Utf8.Valid;
    assert data[pos..pos + 6] == ODC;
    assert data[pos + 76..pos + 76 + |name|] == name;
  }

  /** The receiver reads back exactly the header the sender wrote, for every name, size and inode the sender
      lets through. */
  lemma HeadOfHeader(data: bytes, pos: nat, name: bytes, size: nat, mode: nat, ino: nat)
    requires HeaderF(name, size, mode, ino).Ok? && At(data, pos, HeaderF(name, size, mode, ino).value)
    requires mode < 0x4_0000 && ino < 0x4_0000 && |name| <= 4095 && Utf8.Valid(name)
    ensures |HeaderF(name, size, mode, ino).value| == 76 + |name| + 1
    ensures HeadF(data, pos) == Ok(Head(mode, size, name, 1, pos + 76 + |name| + 1))
  {
    hide Octal, Before, Middle, Field, HeadF, Utf8.Valid;
    var fixed := Fixed(|name|, size, mode, ino);
    AtConcat(data, pos, fixed, name + [0]);
    FieldsOfHeader(data, pos, |name|, size, mode, ino);
    AtConcat(data, pos + 76, name, [0]);
    OdcHead(data, pos, mode, size, name);
  }

  // ----- A newc header -----

  /** Eight hexadecimal digits. */
  function Hex(n: nat): (r: bytes) {
    Radix.Padded(n, 16, 8)
  }

  function HexAll(fields: seq<nat>): (r: bytes) {
    if fields == [] then [] else Hex(fields[0]) + HexAll(fields[1..])
  }

  /** The thirteen numbers of a newc header: inode, mode, owner, group, links, time, size, device (two), special device
      (two), length of the name with its NUL, checksum. */
  ghost predicate NewcFields(fields: seq<nat>, mode: nat, size: nat, name: bytes) {
    && |fields| == 13 && (forall i :: 0 <= i < 13 ==> fields[i] <= U32_MAX)
    && fields[1] == mode && fields[6] == size && fields[11] == |name| + 1
  }

  lemma HexReads(n: nat)
    requires n <= U32_MAX
    ensures |Hex(n)| == 8 && Number(Hex(n), 16) == Some(n)
  {
    var w := 8;
    HexWidth(w);
    Radix.PaddedRoundTrip(n, 16, w);
    Radix.PaddedWidth(n, 16, w);
    HexAscii(n);
    Utf8.AsciiDecodes(Radix.Padded(n, 16, w));
  }

  lemma HexWidth(w: nat)
    requires w == 8
    ensures Radix.Pow(16, w) == U32_MAX + 1
  {
    assert Radix.Pow(16, w) == 16 * 16 * 16 * 16 * Radix.Pow(16, w - 4);
    assert Radix.Pow(16, w - 4) == 16 * 16 * 16 * 16 * Radix.Pow(16, w - 8);
  }

  lemma {:induction false} HexAscii(n: nat)
    ensures Utf8.Ascii(Radix.Digits(n, 16))
    decreases n
  {
    if n >= 16 {
      HexAscii(n / 16);
    }
  }

  lemma {:induction false} HexAt(data: bytes, pos: nat, fields: seq<nat>, i: nat)
    requires At(data, pos, HexAll(fields)) && i < |fields| && forall j :: 0 <= j < |fields| ==> fields[j] <= U32_MAX
    ensures At(data, pos + 8 * i, Hex(fields[i]))
    decreases i
  {
    hide At, Hex;
    HexReads(fields[0]);
    AtConcat(data, pos, Hex(fields[0]), HexAll(fields[1..]));
    if i > 0 {
      HexAt(data, pos + 8, fields[1..], i - 1);
    }
  }

  lemma {:induction false} HexAllLength(fields: seq<nat>)
    requires forall j :: 0 <= j < |fields| ==> fields[j] <= U32_MAX
    ensures |HexAll(fields)| == 8 * |fields|
  {
    hide Hex;
    if fields != [] {
      HexReads(fields[0]);
      HexAllLength(fields[1..]);
    }
  }

  /** A newc header is read as the numbers and the name it holds, and the payload starts at the next multiple of four.
      */
  lemma NewcHead(data: bytes, pos: nat, fields: seq<nat>, mode: nat, size: nat, name: bytes)
    requires NewcFields(fields, mode, size, name) && |name| <= 4095 && Utf8.Valid(name)
    requires At(data, pos, NEWC + HexAll(fields) + (name + [0]))
    ensures var end := pos + 110 + |name| + 1;
            if end + PadLength(end, 4) <= |data|
            then HeadF(data, pos) == Ok(Head(mode, size, name, 4, end + PadLength(end, 4)))
            else HeadF(data, pos) == Err(Truncated)
  {
    hide Utf8.Valid, HexAll, Hex, Number, HeadF, PadLength;
    HexAllLength(fields);
    AtConcat(data, pos, NEWC + HexAll(fields), name + [0]);
    AtConcat(data, pos, NEWC, HexAll(fields));
    AtConcat(data, pos + 110, name, [0]);
    HexAt(data, pos + 6, fields, 1);
    HexAt(data, pos + 6, fields, 6);
    HexAt(data, pos + 6, fields, 11);
    HexReads(mode);
    HexReads(size);
    HexReads(|name| + 1);
    NewcInPlace(data, pos, mode, size, name);
  }

  lemma NewcInPlace(data: bytes, pos: nat, mode: nat, size: nat, name: bytes)
    requires |name| <= 4095 && Utf8.Valid(name) && mode <= U32_MAX && size <= U32_MAX && |name| + 1 <= U32_MAX
    requires At(data, pos, NEWC) && At(data, pos + 110, name) && At(data, pos + 110 + |name|, [0])
    requires |Hex(mode)| == |Hex(size)| == |Hex(|name| + 1)| == 8
    requires Number(Hex(mode), 16) == Some(mode) && Number(Hex(size), 16) == Some(size)
    requires Number(Hex(|name| + 1), 16) == Some(|name| + 1)
    requires At(data, pos + 14, Hex(mode)) && At(data, pos + 54, Hex(size)) && At(data, pos + 94, Hex(|name| + 1))
    ensures var end := pos + 110 + |name| + 1;
            if end + PadLength(end, 4) <= |data|
            then HeadF(data, pos) == Ok(Head(mode, size, name, 4, end + PadLength(end, 4)))
            else HeadF(data, pos) == Err(Truncated)
  {
    hide Utf8.Valid, Hex, Number, PadLength;
    AtIndex(data, pos + 110 + |name|, [0], 0);
    assert data[pos..pos + 6] == NEWC && NEWC != ODC;
    assert data[pos + 110..pos + 110 + |name|] == name;
  }
}

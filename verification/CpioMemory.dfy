/** The in-memory CPIO reader of src/airdrop/archive.rs, and its agreement with the streaming one. */
module CpioMemory {
  import opened Bytes
  import opened Cpio
  import opened Paths
  import opened Tree
  import opened Receiver
  import Bits
  import SafeNames
  import Utf8

  const MAX := 64 * 1024 * 1024
  const MAX_FILES := 4096

  /** An entry as it stands in the archive. */
  datatype Raw = Raw(mode: nat, name: bytes, payload: bytes)

  datatype Entry = Entry(name: SafeNames.Text, content: bytes)

  /** The entries from `pos` to the trailer, each with its whole payload and padding; at most `rounds` headers. */
  function RawF(data: bytes, pos: nat, rounds: nat): (r: Option<seq<Raw>>)
    requires pos <= |data|
    decreases rounds
  {
    if rounds == 0 then None
    else match HeadF(data, pos)
      case Err(_) => None
      case Ok(h) =>
        if h.name == TRAILER then if h.size == 0 then Some([]) else None
        else match Behind(data, h.next, h.size, h.align)
          case Err(_) => None
          case Ok(next) =>
            match RawF(data, next, rounds - 1)
            case None => None
            case Some(rest) => Some([Raw(h.mode, h.name, data[h.next..h.next + h.size])] + rest)
  }

  /** What the in-memory reader keeps of one entry: nothing, a file, or no archive at all. */
  function KeepOne(raw: Raw): Option<seq<Entry>> {
    var base := SafeNames.Base(Utf8.Chars(raw.name));
    if IsRegular(raw.mode) && !([SafeNames.DOT, SafeNames.UNDERSCORE] <= base) then
      match SafeNames.SafeName(base)
      case None => None
      case Some(name) => Some([Entry(name, raw.payload)])
    else Some([])
  }

  function KeepAll(raws: seq<Raw>): Option<seq<Entry>> {
    if raws == [] then Some([])
    else match (KeepOne(raws[0]), KeepAll(raws[1..]))
      case (Some(a), Some(b)) => Some(a + b)
      case _ => None
  }

  function CpioF(data: bytes): Option<seq<Entry>> {
    if |data| > MAX then None
    else match RawF(data, 0, MAX_FILES)
      case None => None
      case Some(raws) => KeepAll(raws)
  }

  /** `(off + align - 1) & !(align - 1)` on a 64-bit word. */
  function RoundUp(off: nat, align: nat): nat
    requires align == 1 || align == 4
  {
    Bits.And(off + align - 1, U64_MAX - (align - 1))
  }

  /** The mask formula and the streaming reader's skip reach the same offset. */
  lemma MaskIsPad(off: nat, align: nat)
    requires (align == 1 || align == 4) && off + 3 <= U64_MAX
    ensures RoundUp(off, align) == off + PadLength(off, align)
  {
    hide Bits.And, Bits.Pow2;
    var k := 62;
    Bits.Pow62(2);
    if align == 1 {
      Bits.Pow2Step(k);
      Bits.Pow2Step(k + 1);
      Bits.AndOnes(off, k + 2);
    } else {
      Bits.ClearLowTwo(off + 3, k);
    }
  }

  /** A header sliced out of the archive; `next` may lie behind its end. */
  method SliceHead(b: bytes, off: nat) returns (r: Option<Head>)
    requires off <= |b| <= MAX
    ensures HeadF(b, off).Ok? ==> r == Some(HeadF(b, off).value)
    ensures HeadF(b, off).Err? ==> r.None? || r.value.next > |b|
    ensures r.Some? ==>
              off < r.value.next && (r.value.align == 1 || r.value.align == 4) && r.value.next % r.value.align == 0
  {
    hide Field, Utf8.Valid;
    if off + 6 > |b| {
      return None;
    }
    var layout := LayoutOf(b[off..off + 6]);
    if layout.None? {
      return None;
    }
    var l := layout.value;
    if off + l.length > |b| {
      return None;
    }
    var mode, size, nameSize := Field(b, off, l.mode, l.radix), Field(b, off, l.size, l.radix),
      Field(b, off, l.nameSize, l.radix);
    if mode.None? || size.None? || nameSize.None? || !(1 <= nameSize.value <= 4096) {
      return None;
    }
    var start := off + l.length;
    var end := start + nameSize.value;
    if end > |b| || b[end - 1] != 0 || !Utf8.Valid(b[start..end - 1]) {
      return None;
    }
    MaskIsPad(end, l.align);
    r := Some(Head(mode.value, size.value, b[start..end - 1], l.align, RoundUp(end, l.align)));
  }

  /** The files kept so far and those of the entries still to come. */
  function Onto(out: seq<Entry>, raws: Option<seq<Raw>>): Option<seq<Entry>> {
    match raws
    case None => None
    case Some(l) => match KeepAll(l) case None => None case Some(rest) => Some(out + rest)
  }

  function Cons(raw: Raw, rest: Option<seq<Raw>>): Option<seq<Raw>> {
    match rest case None => None case Some(l) => Some([raw] + l)
  }

  lemma KeepAllCons(raw: Raw, rest: seq<Raw>)
    ensures KeepAll([raw] + rest)
              == match (KeepOne(raw), KeepAll(rest)) case (Some(a), Some(b)) => Some(a + b) case _ => None
  {
    hide KeepOne;
    assert ([raw] + rest)[1..] == rest;
  }

  lemma OntoCons(out: seq<Entry>, raw: Raw, rest: Option<seq<Raw>>)
    ensures Onto(out, Cons(raw, rest)) == match KeepOne(raw) case None => None case Some(k) => Onto(out + k, rest)
  {
    hide KeepOne, KeepAll;
    if rest.Some? {
      KeepAllCons(raw, rest.value);
      if KeepOne(raw).Some? && KeepAll(rest.value).Some? {
        assert out + KeepOne(raw).value + KeepAll(rest.value).value
                 == out + (KeepOne(raw).value + KeepAll(rest.value).value);
      }
    }
  }

  /** One turn of the loop on a header that is there. */
  lemma RawStep(b: bytes, off: nat, rounds: nat, h: Head)
    requires off <= |b| && rounds > 0 && HeadF(b, off) == Ok(h)
    ensures RawF(b, off, rounds) ==
            if h.name == TRAILER then if h.size == 0 then Some([]) else None
            else if Behind(b, h.next, h.size, h.align).Err? then None
            else Cons(Raw(h.mode, h.name, b[h.next..h.next + h.size]),
                      RawF(b, Behind(b, h.next, h.size, h.align).value, rounds - 1))
  {
    hide HeadF, Behind;
  }

  lemma RawNone(b: bytes, off: nat, rounds: nat)
    requires off <= |b|
    ensures rounds == 0 || HeadF(b, off).Err? ==> RawF(b, off, rounds).None?
  {
    hide HeadF;
  }

  lemma OntoStart(b: bytes)
    ensures |b| <= MAX ==> CpioF(b) == Onto([], RawF(b, 0, MAX_FILES))
    ensures Onto([], Some([])) == Some([])
  {
    assert forall rest: seq<Entry> :: [] + rest == rest;
  }

  lemma OntoNothing(out: seq<Entry>)
    ensures Onto(out, Some([])) == Some(out) && Onto(out, None).None?
  {
    assert out + [] == out;
  }

  /** Header and payload sliced out of the archive, and where the next header should be. */
  method SliceEntry(b: bytes, off: nat) returns (r: Option<(Head, bytes, nat)>)
    requires off <= |b| <= MAX
    ensures match r
            case None => HeadF(b, off).Ok? ==> HeadF(b, off).value.next + HeadF(b, off).value.size > |b|
            case Some((h, data, next)) =>
              && HeadF(b, off) == Ok(h)
              && h.next + h.size <= |b| && data == b[h.next..h.next + h.size]
              && next == h.next + h.size + PadLength(h.next + h.size, h.align)
  {
    hide HeadF, RoundUp;
    var head := SliceHead(b, off);
    if head.None? || head.value.next > |b| || head.value.next + head.value.size > |b| {
      return None;
    }
    var h := head.value;
    MaskIsPad(h.next + h.size, h.align);
    r := Some((h, b[h.next..h.next + h.size], RoundUp(h.next + h.size, h.align)));
  }

  /** What an entry that could be sliced means for the loop. */
  lemma RawTurn(b: bytes, off: nat, rounds: nat, out: seq<Entry>)
    requires off <= |b|
    ensures var head := HeadF(b, off);
            var all := Onto(out, RawF(b, off, rounds));
            if rounds == 0 || head.Err? || head.value.next + head.value.size > |b| then
              all.None?
            else
              var h := head.value;
              var next := h.next + h.size + PadLength(h.next + h.size, h.align);
              var raw := Raw(h.mode, h.name, b[h.next..h.next + h.size]);
              if h.name == TRAILER then all == (if h.size == 0 then Some(out) else None)
              else if next > |b| then all.None?
              else
                all == match KeepOne(raw)
                       case None => None
                       case Some(k) => Onto(out + k, RawF(b, next, rounds - 1))
  {
    hide HeadF, KeepOne, KeepAll, RawF, PadLength, Onto;
    RawNone(b, off, rounds);
    OntoNothing(out);
    if rounds > 0 && HeadF(b, off).Ok? {
      var h := HeadF(b, off).value;
      RawStep(b, off, rounds, h);
      if Behind(b, h.next, h.size, h.align).Ok? {
        OntoCons(out, Raw(h.mode, h.name, b[h.next..h.next + h.size]),
                 RawF(b, Behind(b, h.next, h.size, h.align).value, rounds - 1));
      }
    }
  }

  datatype Turn = Stop(result: Option<seq<Entry>>) | Next(off: nat, out: seq<Entry>)

  /** One turn of the loop, with `rounds` left. */
  method ReadTurn(b: bytes, off: nat, out: seq<Entry>, ghost rounds: nat) returns (t: Turn)
    requires off <= |b| <= MAX && rounds > 0
    ensures match t
            case Stop(r) => Onto(out, RawF(b, off, rounds)) == r
            case Next(off2, out2) =>
              off2 <= |b| && Onto(out, RawF(b, off, rounds)) == Onto(out2, RawF(b, off2, rounds - 1))
  {
    hide HeadF, KeepOne, RawF, PadLength, Onto;
    RawTurn(b, off, rounds, out);
    var entry := SliceEntry(b, off);
    if entry.None? {
      return Stop(None);
    }
    var (h, data, next) := entry.value;
    if h.name == TRAILER {
      return Stop(if h.size == 0 then Some(out) else None);
    }
    var kept := KeepOne(Raw(h.mode, h.name, data));
    if kept.None? || next > |b| {
      // Without its padding the next turn would find no header.
      return Stop(None);
    }
    t := Next(next, out + kept.value);
  }

  /** `archive::cpio`. */
  method ReadCpio(b: bytes) returns (r: Option<seq<Entry>>)
    ensures r == CpioF(b)
  {
    if |b| > MAX {
      return None;
    }
    hide CpioF, RawF, Onto;
    var off := 0;
    var out: seq<Entry> := [];
    var count := 0;
    OntoStart(b);
    while count < MAX_FILES
      invariant 0 <= off <= |b| && 0 <= count <= MAX_FILES
      invariant CpioF(b) == Onto(out, RawF(b, off, MAX_FILES - count))
    {
      var turn := ReadTurn(b, off, out, MAX_FILES - count);
      match turn
      case Stop(result) => return result;
      case Next(off2, out2) => off, out := off2, out2;
      count := count + 1;
    }
    RawNone(b, off, 0);
    OntoNothing(out);
    r := None;
  }

  // ----- Agreement with the streaming reader -----

  /** What the streaming reader has besides its position. */
  datatype Staged = Staged(total: nat, files: nat, staging: Directory)

  /** What the streaming reader does with one entry, its bytes once read. */
  function StageOne(raw: Raw, s: Staged): Result<Staged, Error>
    requires s.total <= MAX_TRANSFER
  {
    if |raw.payload| > MAX_TRANSFER - s.total then Err(TooLarge)
    else
      var t := s.(total := s.total + |raw.payload|);
      if IsRootName(raw.name) then
        if IsDirectory(raw.mode) && raw.payload == [] then Ok(t) else Err(BadRoot)
      else match Relative(raw.name)
        case None => Err(UnsafePath)
        case Some(path) =>
          if IsDirectory(raw.mode) then
            if raw.payload != [] then Err(DirectoryPayload)
            else match MakeDirs(t.staging, path)
              case Err(e) => Err(e)
              case Ok(d) => Ok(t.(staging := d))
          else if IsRegular(raw.mode) then
            if IsMetadata(path[|path| - 1]) then Ok(t)
            else match StageFile(t.staging, path, raw.payload)
              case Err(e) => Err(e)
              case Ok(d) => Ok(t.(files := t.files + 1, staging := d))
          else Err(Special)
  }

  function StageAll(raws: seq<Raw>, s: Staged): (r: Result<Staged, Error>)
    requires s.total <= MAX_TRANSFER
    decreases |raws|
  {
    if raws == [] then Ok(s)
    else match StageOne(raws[0], s)
      case Err(e) => Err(e)
      case Ok(next) => if next.total <= MAX_TRANSFER then StageAll(raws[1..], next) else Err(TooLarge)
  }

  function Besides(st: State): Staged {
    Staged(st.total, st.files, st.staging)
  }

  /** A root entry's missing tail padding loses no alignment: its payload is empty and starts aligned. */
  lemma RootNeedsNoPad(data: bytes, pos: nat)
    requires pos <= |data| && HeadF(data, pos).Ok? && HeadF(data, pos).value.size == 0
    ensures var h := HeadF(data, pos).value; Behind(data, h.next, 0, h.align) == Ok(h.next)
  {
    hide HeadF;
    HeadIsAligned(data, pos);
  }

  /** One round of the streaming reader is one raw entry staged. */
  lemma EntryIsRaw(data: bytes, st: State)
    requires st.pos <= |data| && st.total <= MAX_TRANSFER && HeadF(data, st.pos).Ok?
    requires HeadF(data, st.pos).value.name != TRAILER
    ensures var h := HeadF(data, st.pos).value;
            var next := Behind(data, h.next, h.size, h.align);
            if next.Err? then EntryF(data, st).Err?
            else match StageOne(Raw(h.mode, h.name, data[h.next..h.next + h.size]), Besides(st))
              case Err(e) => EntryF(data, st) == Err(e)
              case Ok(s) => EntryF(data, st) == Ok(More(State(next.value, s.total, s.files, s.staging)))
  {
    hide HeadF, Relative, MakeDirs, CreateNew, TypeBits;
    var h := HeadF(data, st.pos).value;
    if h.size == 0 {
      RootNeedsNoPad(data, st.pos);
    }
  }

  /** Whatever mix of odc and newc entries an archive holds: the streaming reader fails when the raw entries
      cannot be read, and otherwise does with that same sequence of names and payloads what staging them one
      by one does. */
  lemma {:induction false} StreamingSeesRaws(data: bytes, st: State, rounds: nat)
    requires st.pos <= |data| && st.total <= MAX_TRANSFER
    ensures match RawF(data, st.pos, rounds)
            case None => ExtractF(data, st, rounds).Err?
            case Some(raws) =>
              match StageAll(raws, Besides(st))
              case Err(e) => ExtractF(data, st, rounds) == Err(e)
              case Ok(s) => ExtractF(data, st, rounds).Ok? && Besides(ExtractF(data, st, rounds).value) == s
    decreases rounds
  {
    hide StageOne, HeadF, EntryF, Behind;
    if rounds > 0 {
      if HeadF(data, st.pos).Ok? && HeadF(data, st.pos).value.name != TRAILER {
        EntryIsRaw(data, st);
        var h := HeadF(data, st.pos).value;
        RawStep(data, st.pos, rounds, h);
        var e := EntryF(data, st);
        if e.Ok? {
          StreamingSeesRaws(data, e.value.next, rounds - 1);
        }
      } else {
        EndOrError(data, st);
      }
    }
  }

  lemma EndOrError(data: bytes, st: State)
    requires st.pos <= |data| && st.total <= MAX_TRANSFER
    requires HeadF(data, st.pos).Ok? ==> HeadF(data, st.pos).value.name == TRAILER
    ensures HeadF(data, st.pos).Err? ==> EntryF(data, st).Err?
    ensures HeadF(data, st.pos).Ok? ==>
              EntryF(data, st) == if HeadF(data, st.pos).value.size == 0 then Ok(Done) else Err(BadTrailer)
  {
    hide HeadF;
  }

  lemma {:induction false} MoreRounds(data: bytes, pos: nat, rounds: nat, more: nat)
    requires pos <= |data| && rounds <= more && RawF(data, pos, rounds).Some?
    ensures RawF(data, pos, more) == RawF(data, pos, rounds)
    decreases rounds
  {
    hide HeadF, Behind;
    var h := HeadF(data, pos).value;
    if h.name != TRAILER {
      MoreRounds(data, Behind(data, h.next, h.size, h.align).value, rounds - 1, more - 1);
    }
  }

  /** A regular file that is not AppleDouble metadata. */
  predicate IsKeptFile(raw: Raw) {
    IsRegular(raw.mode) && !([SafeNames.DOT, SafeNames.UNDERSCORE] <= SafeNames.Base(Utf8.Chars(raw.name)))
  }

  lemma OneKept(raw: Raw)
    requires IsKeptFile(raw) && KeepOne(raw).Some?
    ensures |KeepOne(raw).value| == 1 && KeepOne(raw).value[0].content == raw.payload
  {
  }

  /** On regular files the in-memory reader keeps every payload, in order. */
  lemma {:induction false} ContentsKept(raws: seq<Raw>)
    requires KeepAll(raws).Some? && forall i :: 0 <= i < |raws| ==> IsKeptFile(raws[i])
    ensures |KeepAll(raws).value| == |raws|
    ensures forall i :: 0 <= i < |raws| ==> KeepAll(raws).value[i].content == raws[i].payload
    decreases |raws|
  {
    hide KeepOne, IsKeptFile;
    if raws != [] {
      OneKept(raws[0]);
      ContentsKept(raws[1..]);
      assert KeepAll(raws).value == KeepOne(raws[0]).value + KeepAll(raws[1..]).value;
    }
  }

  /** Within both limits the two readers read one and the same sequence of entries, in order, in odc and newc
      alike: the streaming one stages it, the in-memory one keeps its files with their bytes. */
  lemma ReadersAgree(data: bytes)
    requires |data| <= MAX && RawF(data, 0, MAX_FILES).Some?
    ensures var raws := RawF(data, 0, MAX_FILES).value;
            && CpioF(data) == KeepAll(raws)
            && match StageAll(raws, Besides(EMPTY))
               case Err(e) => ExtractF(data, EMPTY, MAX_ENTRIES) == Err(e)
               case Ok(s) =>
                 ExtractF(data, EMPTY, MAX_ENTRIES).Ok? && Besides(ExtractF(data, EMPTY, MAX_ENTRIES).value) == s
  {
    hide RawF, KeepAll, StageAll, ExtractF;
    MoreRounds(data, 0, MAX_FILES, MAX_ENTRIES);
    StreamingSeesRaws(data, EMPTY, MAX_ENTRIES);
  }

  /** An archive neither can read to its trailer is refused by both. */
  lemma BothRefuse(data: bytes)
    requires |data| <= MAX && RawF(data, 0, MAX_ENTRIES).None?
    ensures CpioF(data).None? && ExtractF(data, EMPTY, MAX_ENTRIES).Err?
  {
    hide RawF, KeepAll, StageAll, ExtractF;
    StreamingSeesRaws(data, EMPTY, MAX_ENTRIES);
    if RawF(data, 0, MAX_FILES).Some? {
      MoreRounds(data, 0, MAX_FILES, MAX_ENTRIES);
    }
  }
}

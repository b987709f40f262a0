/** Unpacking a received CPIO stream into a staging directory (src/airdrop/storage.rs). */
module Receiver {
  import opened Bytes
  import opened Cpio
  import opened Paths
  import opened Tree
  import Utf8

  /** How far the stream is read and what it has put into the staging directory. */
  datatype State = State(pos: nat, total: nat, files: nat, staging: Directory)

  datatype Saved = Saved(staging: Directory, files: nat, bytes: nat)

  datatype Outcome = Done | More(next: State)

  const EMPTY := State(0, 0, 0, map[])

  predicate IsRootName(name: bytes) {
    name == DOT || name == DOT_SLASH
  }

  /** AppleDouble metadata, which is read but not kept. */
  predicate IsMetadata(part: bytes) {
    DOT_UNDERSCORE <= part
  }

  /** The staging directory after a regular file. */
  function StageFile(staging: Directory, path: Path, content: bytes): Result<Directory, Error>
    requires path != []
  {
    match MakeDirs(staging, path[..|path| - 1])
    case Err(e) => Err(e)
    case Ok(d) => CreateNew(d, path, content)
  }

  /** A payload of `size` bytes at `pos` and the padding behind it: where the next header starts. */
  function Behind(data: bytes, pos: nat, size: nat, align: nat): (r: Result<nat, Error>)
    requires pos <= |data| && (align == 1 || align == 4)
    ensures r.Ok? ==> pos + size <= r.value <= |data|
  {
    if pos + size > |data| then Err(Truncated)
    else
      var next := pos + size + PadLength(pos + size, align);
      if next > |data| then Err(Truncated) else Ok(next)
  }

  /** One round of the unpacking loop. */
  function EntryF(data: bytes, st: State): (r: Result<Outcome, Error>)
    requires st.pos <= |data| && st.total <= MAX_TRANSFER
    ensures r.Ok? && r.value.More? ==> st.pos < r.value.next.pos <= |data| && r.value.next.total <= MAX_TRANSFER
  {
    match HeadF(data, st.pos)
    case Err(e) => Err(e)
    case Ok(h) =>
      if h.name == TRAILER then
        if h.size != 0 then Err(BadTrailer) else Ok(Done)
      else if h.size > MAX_TRANSFER - st.total then Err(TooLarge)
      else
        var s := st.(pos := h.next, total := st.total + h.size);
        if IsRootName(h.name) then
          if IsDirectory(h.mode) && h.size == 0 then Ok(More(s)) else Err(BadRoot)
        else match Relative(h.name)
          case None => Err(UnsafePath)
          case Some(path) => EntryAt(data, s, h, path)
  }

  /** An entry at a safe path. */
  function EntryAt(data: bytes, s: State, h: Head, path: Path): (r: Result<Outcome, Error>)
    requires s.pos <= |data| && s.total <= MAX_TRANSFER && (h.align == 1 || h.align == 4) && path != []
    ensures r.Ok? && r.value.More? ==> s.pos <= r.value.next.pos <= |data| && r.value.next.total <= MAX_TRANSFER
  {
    if IsDirectory(h.mode) then
      if h.size != 0 then Err(DirectoryPayload)
      else match MakeDirs(s.staging, path)
        case Err(e) => Err(e)
        case Ok(d) =>
          match Behind(data, s.pos, 0, h.align)
          case Err(e) => Err(e)
          case Ok(next) => Ok(More(s.(pos := next, staging := d)))
    else if IsRegular(h.mode) then
      if IsMetadata(path[|path| - 1]) then
        match Behind(data, s.pos, h.size, h.align)
        case Err(e) => Err(e)
        case Ok(next) => Ok(More(s.(pos := next)))
      else
        var content := data[s.pos..Min(s.pos + h.size, |data|)];
        match StageFile(s.staging, path, content)
        case Err(e) => Err(e)
        case Ok(d) =>
          match Behind(data, s.pos, h.size, h.align)
          case Err(e) => Err(e)
          case Ok(next) => Ok(More(s.(pos := next, files := s.files + 1, staging := d)))
    else Err(Special)
  }

  /** The loop, with `rounds` left. */
  function ExtractF(data: bytes, st: State, rounds: nat): (r: Result<State, Error>)
    requires st.pos <= |data| && st.total <= MAX_TRANSFER
    decreases rounds
  {
    if rounds == 0 then Err(TooManyEntries)
    else match EntryF(data, st)
      case Err(e) => Err(e)
      case Ok(Done) => Ok(st)
      case Ok(More(next)) => ExtractF(data, next, rounds - 1)
  }

  /** `receive_cancel` up to publication: the staged tree and the totals. */
  function ReceiveF(data: bytes): (r: Result<Saved, Error>) {
    match ExtractF(data, EMPTY, MAX_ENTRIES)
    case Err(e) => Err(e)
    case Ok(st) => if st.files == 0 then Err(NoFiles) else Ok(Saved(st.staging, st.files, st.total))
  }

  /** The reader over the decoded archive and the staging directory it fills. */
  class Unpacker {
    const data: bytes
    var pos: nat
    var offset: nat
    var total: nat
    var files: nat
    var staging: Directory

    ghost predicate Valid()
      reads this
    {
      pos <= |data| && offset == pos && total <= MAX_TRANSFER
    }

    constructor (data: bytes)
      ensures Valid() && Now() == EMPTY && this.data == data
    {
      this.data := data;
      pos, offset, total, files, staging := 0, 0, 0, 0, map[];
    }

    function Now(): State
      reads this
    {
      State(pos, total, files, staging)
    }

    method ReadExact(n: nat) returns (r: Option<bytes>)
      requires pos <= |data|
      modifies this`pos
      ensures pos <= |data|
      ensures r == if old(pos) + n <= |data| then Some(data[old(pos)..old(pos) + n]) else None
      ensures r.Some? ==> pos == old(pos) + n
      ensures r.None? ==> pos == |data|
    {
      if n > |data| - pos {
        pos := |data|;
        return None;
      }
      r := Some(data[pos..pos + n]);
      pos := pos + n;
    }

    /** `io::copy` of at most `size` bytes. */
    method Copy(size: nat) returns (copied: bytes)
      requires pos <= |data|
      modifies this`pos
      ensures pos == Min(old(pos) + size, |data|) && copied == data[old(pos)..pos]
    {
      var end := Min(pos + size, |data|);
      copied := data[pos..end];
      pos := end;
    }

    /** `pad`: skip to the next multiple of `align`. */
    method Pad(align: nat) returns (ok: bool)
      requires Valid() && (align == 1 || align == 4)
      modifies this`pos, this`offset
      ensures ok <==> old(pos) + PadLength(old(pos), align) <= |data|
      ensures ok ==> Valid() && pos == old(pos) + PadLength(old(pos), align)
    {
      var n := (align - offset % align) % align;
      var skipped := ReadExact(n);
      offset := offset + n;
      ok := skipped.Some?;
    }

    /** The numbers of a header whose magic has been read. */
    method ReadFields(l: Layout) returns (r: Result<(nat, nat, nat), Error>)
      requires IsLayout(l) && 6 <= pos <= |data|
      modifies this`pos
      ensures pos <= |data|
      ensures r.Ok? ==>
                && pos == old(pos) - 6 + l.length
                && Field(data, old(pos) - 6, l.mode, l.radix) == Some(r.value.0)
                && Field(data, old(pos) - 6, l.size, l.radix) == Some(r.value.1)
                && Field(data, old(pos) - 6, l.nameSize, l.radix) == Some(r.value.2)
      ensures r.Err? ==> HeadIn(data, old(pos) - 6, l) == Err(r.error)
    {
      hide Number, Utf8.Valid;
      var start := pos - 6;
      var h := ReadExact(l.length - 6);
      if h.None? {
        return Err(Truncated);
      }
      FieldOffset(data, start, l.mode, l);
      FieldOffset(data, start, l.size, l);
      FieldOffset(data, start, l.nameSize, l);
      var mode := Number(h.value[l.mode.0 - 6..l.mode.1 - 6], l.radix);
      var size := Number(h.value[l.size.0 - 6..l.size.1 - 6], l.radix);
      var nameSize := Number(h.value[l.nameSize.0 - 6..l.nameSize.1 - 6], l.radix);
      if mode.None? || size.None? || nameSize.None? {
        return Err(BadNumber);
      }
      r := Ok((mode.value, size.value, nameSize.value));
    }

    /** Read one header with its name and padding. */
    method ReadHead() returns (r: Result<Head, Error>)
      requires Valid()
      modifies this`pos, this`offset
      ensures HeadF(data, old(pos)) == r
      ensures r.Ok? ==> Valid() && pos == r.value.next
    {
      hide HeadIn;
      var magic := ReadExact(6);
      if magic.None? {
        return Err(MissingTrailer);
      }
      var layout := LayoutOf(magic.value);
      if layout.None? {
        return Err(BadFormat);
      }
      r := ReadHeadIn(layout.value);
    }

    /** The header behind its magic. */
    method ReadHeadIn(l: Layout) returns (r: Result<Head, Error>)
      requires IsLayout(l) && 6 <= pos <= |data| && offset == pos - 6 && total <= MAX_TRANSFER
      modifies this`pos, this`offset
      ensures HeadIn(data, old(pos) - 6, l) == r
      ensures r.Ok? ==> Valid() && pos == r.value.next
    {
      hide Field, Utf8.Valid, PadLength;
      ghost var start := pos - 6;
      var fields := ReadFields(l);
      if fields.Err? {
        return Err(fields.error);
      }
      var (mode, size, nameSize) := fields.value;
      if !(1 <= nameSize <= 4096) {
        return Err(NameLength);
      }
      var raw := ReadExact(nameSize);
      if raw.None? {
        return Err(Truncated);
      }
      if raw.value[nameSize - 1] != 0 {
        return Err(NotTerminated);
      }
      var name := raw.value[..nameSize - 1];
      SliceOfSlice(data, start + l.length, start + l.length + nameSize, 0, nameSize - 1);
      assert name == data[start + l.length..start + l.length + nameSize - 1];
      if !Utf8.Valid(name) {
        return Err(NotUtf8);
      }
      offset := offset + (l.length + nameSize);
      var ok := Pad(l.align);
      if !ok {
        return Err(Truncated);
      }
      r := Ok(Head(mode, size, name, l.align, pos));
    }

    method ReadEntry() returns (r: Result<bool, Error>)
      requires Valid()
      modifies this
      ensures match r
              case Err(e) => EntryF(data, old(Now())) == Err(e)
              case Ok(done) => Valid() && EntryF(data, old(Now())) == Ok(if done then Done else More(Now()))
      ensures r == Ok(true) ==> (total, files, staging) == old((total, files, staging))
    {
      hide HeadF, EntryAt, Relative;
      var head := ReadHead();
      if head.Err? {
        return Err(head.error);
      }
      var h := head.value;
      if h.name == TRAILER {
        if h.size != 0 {
          return Err(BadTrailer);
        }
        return Ok(true);
      }
      if h.size > MAX_TRANSFER - total {
        return Err(TooLarge);
      }
      total := total + h.size;
      if IsRootName(h.name) {
        if !(IsDirectory(h.mode) && h.size == 0) {
          return Err(BadRoot);
        }
        return Ok(false);
      }
      var path := RelativeOf(h.name);
      if path.None? {
        return Err(UnsafePath);
      }
      var failed := StageEntry(h, path.value);
      r := match failed case None => Ok(false) case Some(e) => Err(e);
    }

    method StageEntry(h: Head, path: Path) returns (failed: Option<Error>)
      requires Valid() && (h.align == 1 || h.align == 4) && path != []
      modifies this
      ensures match failed
              case None => Valid() && EntryAt(data, old(Now()), h, path) == Ok(More(Now()))
              case Some(e) => EntryAt(data, old(Now()), h, path) == Err(e)
    {
      hide MakeDirs, CreateNew, PadLength;
      if IsDirectory(h.mode) {
        if h.size != 0 {
          return Some(DirectoryPayload);
        }
        var made := MakeDirs(staging, path);
        if made.Err? {
          return Some(made.error);
        }
        staging := made.value;
      } else if IsRegular(h.mode) {
        if IsMetadata(path[|path| - 1]) {
          var skipped := Copy(h.size);
          if |skipped| != h.size {
            return Some(Truncated);
          }
        } else {
          var made := MakeDirs(staging, path[..|path| - 1]);
          if made.Err? {
            return Some(made.error);
          }
          var content := Copy(h.size);
          var created := CreateNew(made.value, path, content);
          if created.Err? {
            return Some(created.error);
          }
          staging := created.value;
          if |content| != h.size {
            return Some(Truncated);
          }
          files := files + 1;
        }
      } else {
        return Some(Special);
      }
      offset := offset + h.size;
      var ok := Pad(h.align);
      failed := if ok then None else Some(Truncated);
    }
  }

  lemma FieldOffset(data: bytes, pos: nat, span: (nat, nat), l: Layout)
    requires IsLayout(l) && pos + l.length <= |data| && 6 <= span.0 <= span.1 <= l.length
    ensures data[pos + 6..pos + l.length][span.0 - 6..span.1 - 6] == data[pos + span.0..pos + span.1]
  {
    hide IsLayout;
    SliceOfSlice(data, pos + 6, pos + l.length, span.0 - 6, span.1 - 6);
  }

  /** The whole unpacking: exactly `MAX_ENTRIES` rounds, the trailer's included. */
  method Receive(data: bytes) returns (r: Result<Saved, Error>)
    ensures r == ReceiveF(data)
  {
    var u := new Unpacker(data);
    var trailer := false;
    var round := 0;
    while round < MAX_ENTRIES
      invariant u.data == data && fresh(u) && !trailer
      invariant 0 <= round <= MAX_ENTRIES && u.Valid()
      invariant ExtractF(data, EMPTY, MAX_ENTRIES) == ExtractF(data, u.Now(), MAX_ENTRIES - round)
    {
      ghost var before := u.Now();
      var step := u.ReadEntry();
      if step.Err? {
        return Err(step.error);
      }
      if step.value {
        if u.files == 0 {
          return Err(NoFiles);
        }
        assert ExtractF(data, EMPTY, MAX_ENTRIES) == Ok(before);
        return Ok(Saved(u.staging, u.files, u.total));
      }
      round := round + 1;
    }
    r := Err(TooManyEntries);
  }
}

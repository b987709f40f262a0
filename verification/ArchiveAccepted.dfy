/** What an archive the receiver accepts is made of, told from its headers. */
module ArchiveAccepted {
  import opened Bytes
  import opened Cpio
  import opened Paths
  import opened Receiver
  import opened Tree

  /** Headers one after the other from `pos` on, each with its payload and padding between it and the next. */
  ghost predicate Chain(data: bytes, pos: nat, heads: seq<Head>)
    requires pos <= |data|
    decreases |heads|
  {
    && heads != [] && HeadF(data, pos) == Ok(heads[0])
    && (|heads| == 1 || (Follows(data, heads[0]) && Chain(data, Next(heads[0]), heads[1..])))
  }

  /** Where the header behind an entry stands: after the payload, at the next multiple of the alignment. */
  function Next(h: Head): nat {
    h.next + h.size + if h.align == 4 then (4 - (h.next + h.size) % 4) % 4 else 0
  }

  predicate Follows(data: bytes, h: Head) {
    (h.align == 1 || h.align == 4) && Next(h) <= |data|
  }

  /** The file type in the mode. */
  predicate HasType(h: Head, t: nat) {
    h.mode / 0x1000 % 0x10 == t
  }

  predicate IsRoot(h: Head) {
    h.name == [0x2e] || h.name == [0x2e, 0x2f]
  }

  /** An entry before the trailer: the root, a directory without payload; or at a safe path a directory without payload
      or a regular file. */
  ghost predicate GoodEntry(h: Head) {
    && h.name != TRAILER
    && if IsRoot(h) then HasType(h, 4) && h.size == 0
       else Relative(h.name).Some? && ((HasType(h, 4) && h.size == 0) || HasType(h, 8))
  }

  /** A regular file is kept unless the last component of its path begins with a dot and an underscore. */
  ghost predicate IsKept(h: Head) {
    !IsRoot(h) && HasType(h, 8) && Relative(h.name).Some? && !([0x2e, 0x5f] <= LastPart(Relative(h.name).value))
  }

  function LastPart(path: Path): bytes {
    if path == [] then [] else path[|path| - 1]
  }

  function Sizes(heads: seq<Head>): nat {
    if heads == [] then 0 else heads[0].size + Sizes(heads[1..])
  }

  ghost function Kept(heads: seq<Head>): nat {
    if heads == [] then 0 else (if IsKept(heads[0]) then 1 else 0) + Kept(heads[1..])
  }

  lemma EntryWas(data: bytes, st: State)
    requires st.pos <= |data| && st.total <= MAX_TRANSFER && EntryF(data, st).Ok? && EntryF(data, st).value.More?
    ensures HeadF(data, st.pos).Ok?
    ensures var h := HeadF(data, st.pos).value; var s := EntryF(data, st).value.next;
            && GoodEntry(h) && Follows(data, h) && s.pos == Next(h) && s.total == st.total + h.size
            && s.files == st.files + if IsKept(h) then 1 else 0
  {
    hide HeadF, Relative, MakeDirs, StageFile;
    var h := HeadF(data, st.pos).value;
    if IsRoot(h) {
      HeadIsAligned(data, st.pos);
    }
  }

  lemma {:induction false} ExtractWas(data: bytes, st: State, rounds: nat) returns (heads: seq<Head>)
    requires st.pos <= |data| && st.total <= MAX_TRANSFER && ExtractF(data, st, rounds).Ok?
    ensures Chain(data, st.pos, heads) && |heads| <= rounds
    ensures var last := heads[|heads| - 1]; last.name == TRAILER && last.size == 0
    ensures forall i :: 0 <= i < |heads| - 1 ==> GoodEntry(heads[i])
    ensures var s := ExtractF(data, st, rounds).value;
            s.total == st.total + Sizes(heads) <= MAX_TRANSFER && s.files == st.files + Kept(heads[..|heads| - 1])
    decreases rounds
  {
    hide HeadF, EntryF, GoodEntry, IsKept, Follows;
    if EntryF(data, st).value.Done? {
      var last := TrailerWas(data, st);
      heads := [last];
      assert Sizes(heads) == heads[0].size + Sizes([]) && heads[..0] == [];
    } else {
      EntryWas(data, st);
      var h, next := HeadF(data, st.pos).value, EntryF(data, st).value.next;
      var rest := ExtractWas(data, next, rounds - 1);
      heads := [h] + rest;
      assert heads[1..] == rest && heads[..|heads| - 1] == [h] + rest[..|rest| - 1];
      KeptCons(h, rest[..|rest| - 1]);
    }
  }

  lemma KeptCons(h: Head, rest: seq<Head>)
    ensures Kept([h] + rest) == (if IsKept(h) then 1 else 0) + Kept(rest)
  {
    hide IsKept;
    var heads := [h] + rest;
    assert heads[0] == h && heads[1..] == rest;
  }

  lemma TrailerWas(data: bytes, st: State) returns (h: Head)
    requires st.pos <= |data| && st.total <= MAX_TRANSFER && EntryF(data, st) == Ok(Done)
    ensures HeadF(data, st.pos) == Ok(h) && h.name == TRAILER && h.size == 0
  {
    hide HeadF, Relative, MakeDirs, StageFile, Behind;
    h := HeadF(data, st.pos).value;
  }

  /** An accepted archive: at most 65536 headers, the last the trailer's without payload, the others those of good
      entries;
      their payloads are the bytes counted, at most 32 GiB, and the files counted are those kept, at least one. */
  lemma AcceptedIs(data: bytes) returns (heads: seq<Head>)
    requires ReceiveF(data).Ok?
    ensures Chain(data, 0, heads) && |heads| <= 65536
    ensures var last := heads[|heads| - 1]; last.name == TRAILER && last.size == 0
    ensures forall i :: 0 <= i < |heads| - 1 ==> GoodEntry(heads[i])
    ensures ReceiveF(data).value.bytes == Sizes(heads) <= 0x8_0000_0000
    ensures ReceiveF(data).value.files == Kept(heads[..|heads| - 1]) > 0
  {
    hide ExtractF, Chain, GoodEntry;
    heads := ExtractWas(data, EMPTY, MAX_ENTRIES);
  }
}

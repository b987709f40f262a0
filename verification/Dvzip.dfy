/** DVZip: the sender's compressed block stream (src/airdrop/outgoing.rs), the streaming decoder that undoes it
    (src/airdrop/storage.rs) and the in-memory decoder it must agree with (src/airdrop/archive.rs). */
module Dvzip {
  import opened Bytes
  import opened Cpio

  const BLOCK := 128 * 1024
  const STORED := 0x8000_0000
  const MAX_BLOCK := 0x7fff_ffff

  /** zlib and gzip as functions: a decompressor fails on corrupt or cut-off input and ignores what follows
      the end of its stream. */
  datatype Zlib = Zlib(deflate: bytes -> bytes, inflate: bytes -> Option<bytes>, gunzip: bytes -> Option<bytes>) {
    ghost predicate Lawful() {
      && (forall b {:trigger deflate(b)} :: inflate(deflate(b)) == Some(b))
      && (forall b {:trigger deflate(b)} :: 0 < |deflate(b)| <= 2 * |b| + 64)
    }
  }

  /** The laws contradict nothing: a container that compresses nothing meets them. */
  lemma LawsAreConsistent() returns (z: Zlib)
    ensures z.Lawful()
  {
    var wrap := (b: bytes) => [0] + b;
    var unwrap := (b: bytes) => if b == [] then None else Some(b[1..]);
    z := Zlib(wrap, unwrap, unwrap);
    forall b: bytes
      ensures z.inflate(z.deflate(b)) == Some(b)
    {
      assert ([0] + b)[1..] == b;
    }
  }

  datatype Media = DvzipType | CpioType | OtherType

  datatype Failure = ShortBlock | EmptyBlock | OverLimit | Corrupt | Unsupported

  /** What a block decodes to, if at most `room` bytes. */
  function BlockF(z: Zlib, stored: bool, block: bytes, room: int): Option<bytes> {
    match if stored then Some(block) else z.inflate(block)
    case None => None
    case Some(b) => if |b| <= room then Some(b) else None
  }

  /** The blocks from `pos` on, behind `out`. */
  function BlocksF(z: Zlib, data: bytes, pos: nat, out: bytes, limit: nat): (r: Option<bytes>)
    requires pos <= |data|
    ensures r.Some? && |out| <= limit ==> out <= r.value && |r.value| <= limit
    decreases |data| - pos
  {
    if pos == |data| then Some(out)
    else if pos + 4 > |data| then None
    else
      var header := FromBe(data[pos..pos + 4]);
      var size := header % STORED;
      var end := pos + 4 + size;
      if size == 0 || end > |data| then None
      else match BlockF(z, header >= STORED, data[pos + 4..end], limit - |out|)
        case None => None
        case Some(b) => BlocksF(z, data, end, out + b, limit)
  }

  predicate IsGzip(data: bytes) {
    |data| >= 2 && data[0] == 31 && data[1] == 139
  }

  function GzipF(z: Zlib, data: bytes, limit: nat): Option<bytes> {
    match z.gunzip(data)
    case None => None
    case Some(b) => if |b| <= limit then Some(b) else None
  }

  /** The decoded archive of at most `limit` bytes. */
  function DecodedF(z: Zlib, data: bytes, ty: Media, limit: nat): Option<bytes> {
    if IsGzip(data) then GzipF(z, data, limit)
    else match ty
      case DvzipType => BlocksF(z, data, 0, [], limit)
      case CpioType => if |data| <= limit then Some(data) else None
      case OtherType => None
  }

  /** An open file: bytes and a position. */
  class Input {
    const data: bytes
    var pos: nat

    constructor (data: bytes)
      ensures this.data == data && pos == 0
    {
      this.data, pos := data, 0;
    }

    /** `read_exact`. */
    method ReadExact(n: nat) returns (r: Option<bytes>)
      requires pos <= |data|
      modifies this
      ensures pos == Min(old(pos) + n, |data|)
      ensures r == if old(pos) + n <= |data| then Some(data[old(pos)..old(pos) + n]) else None
    {
      var end := Min(pos + n, |data|);
      r := if pos + n <= |data| then Some(data[pos..end]) else None;
      pos := end;
    }

    /** Everything `take(n)` yields. */
    method Take(n: nat) returns (b: bytes)
      requires pos <= |data|
      modifies this
      ensures pos == Min(old(pos) + n, |data|) && b == data[old(pos)..pos]
    {
      var end := Min(pos + n, |data|);
      b := data[pos..end];
      pos := end;
    }

    /** One `read` into a buffer with room for `n`: any number of bytes, zero only at the end. */
    method Read(n: nat) returns (b: bytes)
      requires pos <= |data| && n > 0
      modifies this
      ensures old(pos) <= pos <= |data| && pos <= old(pos) + n && b == data[old(pos)..pos]
      ensures b == [] <==> old(pos) == |data|
    {
      if pos == |data| {
        return [];
      }
      var most := Min(n, |data| - pos);
      var k: nat :| 1 <= k <= most;
      b := data[pos..pos + k];
      pos := pos + k;
    }
  }

  /** `bounded_copy`: append what fits; the whole fails when there is more. */
  method BoundedCopy(source: Option<bytes>, out: bytes, limit: int) returns (r: Result<bytes, Failure>)
    ensures r.Ok? <==> source.Some? && |source.value| <= limit
    ensures r.Ok? ==> r.value == out + source.value
  {
    if source.None? {
      return Err(Corrupt);
    }
    if |source.value| > limit {
      return Err(OverLimit);
    }
    r := Ok(out + source.value);
  }

  /** `decoded`: the streaming decoder. It copies a block before it knows whether the block is complete. */
  method Decoded(z: Zlib, data: bytes, ty: Media, limit: nat) returns (r: Result<bytes, Failure>)
    ensures DecodedF(z, data, ty, limit) == match r case Ok(b) => Some(b) case Err(_) => None
  {
    var file := new Input(data);
    var prefix := file.Take(2);
    var count := |prefix|;
    file.pos := 0;
    if count == 2 && prefix == [31, 139] {
      r := BoundedCopy(z.gunzip(data), [], limit);
      assert forall b: bytes :: [] + b == b;
      return;
    }
    assert !IsGzip(data);
    if ty == CpioType {
      r := BoundedCopy(Some(data), [], limit);
      assert [] + data == data;
      return;
    }
    if ty != DvzipType {
      return Err(Unsupported);
    }
    r := StreamBlocks(z, file, limit);
  }

  /** The rest of a block header whose first byte has been read. */
  method ReadHeader(file: Input, first: bytes) returns (r: Option<nat>)
    requires 1 <= file.pos <= |file.data| && first == file.data[file.pos - 1..file.pos]
    modifies file
    ensures old(file.pos) <= file.pos <= |file.data|
    ensures r == if old(file.pos) + 3 <= |file.data|
                 then Some(FromBe(file.data[old(file.pos) - 1..old(file.pos) + 3])) else None
    ensures r.Some? ==> file.pos == old(file.pos) + 3
  {
    var start := file.pos - 1;
    var rest := file.ReadExact(3);
    if rest.None? {
      return None;
    }
    assert first + rest.value == file.data[start..start + 4];
    r := Some(FromBe(first + rest.value));
  }

  lemma BlocksStep(z: Zlib, data: bytes, pos: nat, out: bytes, limit: nat)
    requires pos <= |data|
    ensures pos == |data| ==> BlocksF(z, data, pos, out, limit) == Some(out)
    ensures pos < |data| < pos + 4 ==> BlocksF(z, data, pos, out, limit).None?
    ensures pos + 4 <= |data| ==>
              var header := FromBe(data[pos..pos + 4]);
              var end := pos + 4 + header % STORED;
              BlocksF(z, data, pos, out, limit)
                == if header % STORED == 0 || end > |data| then None
                   else match BlockF(z, header >= STORED, data[pos + 4..end], limit - |out|)
                        case None => None
                        case Some(b) => BlocksF(z, data, end, out + b, limit)
  {
    hide FromBe;
  }

  method StreamBlocks(z: Zlib, file: Input, limit: nat) returns (r: Result<bytes, Failure>)
    requires file.pos == 0
    modifies file
    ensures BlocksF(z, file.data, 0, [], limit) == match r case Ok(b) => Some(b) case Err(_) => None
  {
    hide FromBe, BlocksF;
    var out: bytes := [];
    var written := 0;
    while true
      invariant file.pos <= |file.data| && written == |out| <= limit
      invariant BlocksF(z, file.data, 0, [], limit) == BlocksF(z, file.data, file.pos, out, limit)
      decreases |file.data| - file.pos
    {
      var start := file.pos;
      BlocksStep(z, file.data, start, out, limit);
      var first := file.Take(1);
      if first == [] {
        break;
      }
      var header := ReadHeader(file, first);
      if header.None? {
        return Err(ShortBlock);
      }
      var size := header.value % STORED;
      if size == 0 {
        return Err(EmptyBlock);
      }
      var block := file.Take(size);
      var piece := if header.value >= STORED then Some(block) else z.inflate(block);
      var copied := BoundedCopy(piece, out, limit - written);
      if copied.Err? {
        assert |block| == size ==> block == file.data[start + 4..start + 4 + size];
        return Err(copied.error);
      }
      if |block| != size {
        return Err(ShortBlock);
      }
      assert block == file.data[start + 4..start + 4 + size];
      out := copied.value;
      written := |out|;
    }
    r := Ok(out);
  }

  /** `archive::dvzip`: the in-memory decoder. It slices a whole block before decoding it. */
  method DecodedInMemory(z: Zlib, b: bytes, limit: nat) returns (r: Result<bytes, Failure>)
    ensures DecodedF(z, b, DvzipType, limit) == match r case Ok(o) => Some(o) case Err(_) => None
  {
    if IsGzip(b) {
      r := BoundedCopy(z.gunzip(b), [], limit);
      assert forall o: bytes :: [] + o == o;
      return;
    }
    var off := 0;
    var out: bytes := [];
    while off < |b|
      invariant off <= |b| && |out| <= limit
      invariant BlocksF(z, b, 0, [], limit) == BlocksF(z, b, off, out, limit)
      decreases |b| - off
    {
      if off + 4 > |b| {
        return Err(ShortBlock);
      }
      var header := FromBe(b[off..off + 4]);
      off := off + 4;
      var n := header % STORED;
      if n == 0 {
        return Err(EmptyBlock);
      }
      if off + n > |b| {
        return Err(ShortBlock);
      }
      var block := b[off..off + n];
      off := off + n;
      if header >= STORED {
        if |block| > limit - |out| {
          return Err(OverLimit);
        }
        out := out + block;
      } else {
        var inflated := z.inflate(block);
        if inflated.None? {
          return Err(Corrupt);
        }
        if |inflated.value| > limit - |out| {
          return Err(OverLimit);
        }
        out := out + inflated.value;
      }
    }
    r := Ok(out);
  }

  /** The two limits differ; below the smaller one that does not matter. */
  lemma {:induction false} LimitOnlyCuts(z: Zlib, data: bytes, pos: nat, out: bytes, small: nat, large: nat)
    requires pos <= |data| && |out| <= small <= large
    ensures var r := BlocksF(z, data, pos, out, large);
            BlocksF(z, data, pos, out, small) == if r.Some? && |r.value| <= small then r else None
    decreases |data| - pos
  {
    if pos + 4 <= |data| {
      var header := FromBe(data[pos..pos + 4]);
      var end := pos + 4 + header % STORED;
      if header % STORED != 0 && end <= |data| {
        var block := data[pos + 4..end];
        var b := BlockF(z, header >= STORED, block, large - |out|);
        if b.Some? && |out + b.value| <= small {
          LimitOnlyCuts(z, data, end, out + b.value, small, large);
        }
      }
    }
  }

  /** The streaming decoder under its limit and the in-memory one under its own accept the same inputs with the
      same output, as far as the smaller limit allows. */
  lemma DecodersAgree(z: Zlib, data: bytes, small: nat, large: nat)
    requires small <= large
    ensures var r := DecodedF(z, data, DvzipType, large);
            DecodedF(z, data, DvzipType, small) == if r.Some? && |r.value| <= small then r else None
  {
    if !IsGzip(data) {
      LimitOnlyCuts(z, data, 0, [], small, large);
    }
  }

  // ----- The sender's blocks -----

  function BlockOf(z: Zlib, chunk: bytes): (r: bytes) {
    Be(|z.deflate(chunk)|, 4) + z.deflate(chunk)
  }

  /** The archive of a CPIO stream: 128 KiB at a time. `None` when a block outgrows its header. */
  function PackF(z: Zlib, cpio: bytes): (r: Option<bytes>)
    decreases |cpio|
  {
    if cpio == [] then Some([])
    else
      var n := Min(BLOCK, |cpio|);
      if |z.deflate(cpio[..n])| > MAX_BLOCK then None
      else match PackF(z, cpio[n..])
        case None => None
        case Some(rest) => Some(BlockOf(z, cpio[..n]) + rest)
  }

  /** What `prepare_cancel` returns for a CPIO stream. */
  function ArchiveF(z: Zlib, cpio: bytes): (r: Option<bytes>) {
    match PackF(z, cpio)
    case None => None
    case Some(b) => if |b| <= MAX_TRANSFER then Some(b) else None
  }

  /** Fill the block buffer from the stream, in as many reads as it takes. */
  method Fill(cpio: Input, block: array<byte>) returns (used: nat)
    requires cpio.pos <= |cpio.data| && block.Length > 0
    modifies cpio, block
    ensures used == Min(block.Length, |cpio.data| - old(cpio.pos)) && cpio.pos == old(cpio.pos) + used
    ensures block[..used] == cpio.data[old(cpio.pos)..cpio.pos]
  {
    used := 0;
    while used < block.Length
      invariant used <= block.Length && old(cpio.pos) + used == cpio.pos <= |cpio.data|
      invariant block[..used] == cpio.data[old(cpio.pos)..cpio.pos]
      decreases block.Length - used
    {
      var got := cpio.Read(block.Length - used);
      if got == [] {
        break;
      }
      ghost var before := block[..used];
      forall i | 0 <= i < |got| {
        block[used + i] := got[i];
      }
      assert block[..used] == before;
      assert block[..used + |got|] == before + got;
      assert before + got == cpio.data[old(cpio.pos)..cpio.pos];
      used := used + |got|;
    }
  }

  method Pack(z: Zlib, stream: bytes) returns (r: Option<bytes>)
    ensures r == ArchiveF(z, stream)
  {
    var cpio := new Input(stream);
    var block := new byte[BLOCK];
    var archive: bytes := [];
    assert stream[0..] == stream;
    assert forall rest: bytes :: archive + rest == rest;
    while true
      invariant fresh(cpio) && fresh(block) && block.Length == BLOCK && cpio.data == stream && cpio.pos <= |stream|
      invariant PackF(z, stream)
                  == match PackF(z, stream[cpio.pos..]) case None => None case Some(rest) => Some(archive + rest)
      decreases |stream| - cpio.pos
    {
      ghost var start := cpio.pos;
      ghost var left := stream[start..];
      var used := Fill(cpio, block);
      if used == 0 {
        break;
      }
      var compressed := z.deflate(block[..used]);
      assert block[..used] == left[..used] && left[used..] == stream[cpio.pos..];
      if |compressed| > MAX_BLOCK {
        return None;
      }
      ghost var before := archive;
      archive := archive + Be(|compressed|, 4);
      archive := archive + compressed;
      assert forall rest: bytes :: archive + rest == before + (BlockOf(z, left[..used]) + rest);
    }
    assert archive + [] == archive;
    if |archive| > MAX_TRANSFER {
      return None;
    }
    r := Some(archive);
  }

  /** One block read back. */
  lemma BlockDecodes(z: Zlib, data: bytes, pos: nat, chunk: bytes, out: bytes, limit: nat)
    requires z.Lawful() && |z.deflate(chunk)| <= MAX_BLOCK && At(data, pos, BlockOf(z, chunk))
    ensures BlocksF(z, data, pos, out, limit) ==
            if |out| + |chunk| <= limit then BlocksF(z, data, pos + |BlockOf(z, chunk)|, out + chunk, limit) else None
  {
    var c := z.deflate(chunk);
    var w := 4;
    AtConcat(data, pos, Be(|c|, w), c);
    assert Pow256(w) == 0x1_0000_0000;
    BeRoundTrip(|c|, w);
    assert data[pos..pos + 4] == Be(|c|, w);
  }

  /** The first block of an archive, and the archive of the rest. */
  lemma PackCons(z: Zlib, cpio: bytes)
    requires PackF(z, cpio).Some? && cpio != []
    ensures var n := Min(BLOCK, |cpio|);
            && |z.deflate(cpio[..n])| <= MAX_BLOCK && PackF(z, cpio[n..]).Some?
            && PackF(z, cpio).value == BlockOf(z, cpio[..n]) + PackF(z, cpio[n..]).value
  {
    hide BlockOf;
  }

  lemma Rejoined(out: bytes, cpio: bytes, n: nat)
    requires n <= |cpio|
    ensures out + cpio[..n] + cpio[n..] == out + cpio && |cpio[..n]| == n
  {
  }

  lemma {:induction false} PackDecodes(z: Zlib, data: bytes, pos: nat, cpio: bytes, out: bytes, limit: nat)
    requires z.Lawful() && PackF(z, cpio).Some? && At(data, pos, PackF(z, cpio).value)
    requires pos + |PackF(z, cpio).value| == |data| && |out| <= limit
    ensures BlocksF(z, data, pos, out, limit) == if |out| + |cpio| <= limit then Some(out + cpio) else None
    decreases |cpio|
  {
    if cpio == [] {
      assert out + cpio == out;
    } else {
      hide BlocksF, BlockOf, PackF;
      var n := Min(BLOCK, |cpio|);
      var chunk, rest := cpio[..n], cpio[n..];
      PackCons(z, cpio);
      var block, tail := BlockOf(z, chunk), PackF(z, rest).value;
      AtConcat(data, pos, block, tail);
      BlockDecodes(z, data, pos, chunk, out, limit);
      Rejoined(out, cpio, n);
      if |out| + n <= limit {
        PackDecodes(z, data, pos + |block|, rest, out + chunk, limit);
      }
    }
  }

  /** The sender's archive never looks like gzip: its first block is far too short. */
  lemma NeverSniffed(z: Zlib, cpio: bytes)
    requires z.Lawful() && PackF(z, cpio).Some?
    ensures !IsGzip(PackF(z, cpio).value)
  {
    if cpio != [] {
      var n := Min(BLOCK, |cpio|);
      var c := z.deflate(cpio[..n]);
      var w := 4;
      assert |c| <= 2 * BLOCK + 64;
      FirstByte(|c|, w);
      assert PackF(z, cpio).value[0] == Be(|c|, w)[0];
    }
  }

  /** The length of a block never reaches the first byte of its header. */
  lemma FirstByte(n: nat, w: nat)
    requires n < 0x100_0000 && w == 4
    ensures Be(n, w)[0] == 0
  {
    assert Be(n, w)[0] == Be(n / 256, w - 1)[0] == Be(n / 256 / 256, w - 2)[0] == Be(n / 256 / 256 / 256, w - 3)[0];
    assert n / 256 / 256 / 256 == 0;
  }

  /** No block of the sender outgrows its header, and decoding its archive gives the CPIO stream back, exactly
      when the stream fits the limit. */
  lemma PackedIsDecoded(z: Zlib, cpio: bytes, limit: nat)
    requires z.Lawful()
    ensures PackF(z, cpio).Some?
    ensures DecodedF(z, PackF(z, cpio).value, DvzipType, limit) == if |cpio| <= limit then Some(cpio) else None
  {
    PackSucceeds(z, cpio);
    var b := PackF(z, cpio).value;
    NeverSniffed(z, cpio);
    assert At(b, 0, b);
    PackDecodes(z, b, 0, cpio, [], limit);
    assert [] + cpio == cpio;
  }

  /** Packing never gives up for a block. */
  lemma {:induction false} PackSucceeds(z: Zlib, cpio: bytes)
    requires z.Lawful()
    ensures PackF(z, cpio).Some?
    decreases |cpio|
  {
    if cpio != [] {
      var n := Min(BLOCK, |cpio|);
      assert |z.deflate(cpio[..n])| <= 2 * n + 64;
      PackSucceeds(z, cpio[n..]);
    }
  }

  // ----- every block stream, from its blocks -----

  /** A block as any sender may write it: stored, or compressed. */
  datatype Block = Block(stored: bool, raw: bytes, content: bytes)

  ghost predicate GoodBlock(z: Zlib, b: Block) {
    0 < |b.raw| <= 0x7fff_ffff && (if b.stored then b.content == b.raw else z.inflate(b.raw) == Some(b.content))
  }

  /** Its length in four bytes, the top bit telling that it is stored, and its bytes. */
  function BlockBytes(b: Block): bytes {
    Announced(b) + b.raw
  }

  function Announced(b: Block): (r: bytes)
    ensures |r| == 4
  {
    Be(|b.raw| + (if b.stored then 0x8000_0000 else 0), 4)
  }

  function StreamBytes(blocks: seq<Block>): bytes {
    if blocks == [] then [] else BlockBytes(blocks[0]) + StreamBytes(blocks[1..])
  }

  function Contents(blocks: seq<Block>): bytes {
    if blocks == [] then [] else blocks[0].content + Contents(blocks[1..])
  }

  lemma OneBlockRead(z: Zlib, data: bytes, pos: nat, b: Block, out: bytes, limit: nat)
    requires GoodBlock(z, b) && At(data, pos, BlockBytes(b))
    ensures BlocksF(z, data, pos, out, limit) ==
            if |out| + |b.content| <= limit
            then BlocksF(z, data, pos + |BlockBytes(b)|, out + b.content, limit) else None
  {
    hide Announced, FromBe;
    AtConcat(data, pos, Announced(b), b.raw);
    AnnouncedIsRead(z, b);
    assert data[pos..pos + 4] == Announced(b);
  }

  lemma AnnouncedIsRead(z: Zlib, b: Block)
    requires GoodBlock(z, b)
    ensures FromBe(Announced(b)) % STORED == |b.raw| && (FromBe(Announced(b)) >= STORED <==> b.stored)
  {
    hide Be, FromBe;
    FourBytes(|b.raw| + (if b.stored then 0x8000_0000 else 0));
  }

  lemma FourBytes(n: nat)
    requires n <= U32_MAX
    ensures FromBe(Be(n, 4)) == n
  {
    var w := 4;
    assert Pow256(w) == 0x1_0000_0000;
    BeRoundTrip(n, w);
  }

  /** Whatever list of stored and compressed blocks: their contents in order, if that is within the limit. */
  lemma {:induction false} BlocksAreRead(z: Zlib, data: bytes, pos: nat, blocks: seq<Block>, out: bytes, limit: nat)
    requires forall b :: b in blocks ==> GoodBlock(z, b)
    requires At(data, pos, StreamBytes(blocks)) && pos + |StreamBytes(blocks)| == |data| && |out| <= limit
    ensures BlocksF(z, data, pos, out, limit)
         == if |out| + |Contents(blocks)| <= limit then Some(out + Contents(blocks)) else None
    decreases |blocks|
  {
    hide BlocksF, BlockBytes, GoodBlock;
    if blocks == [] {
      NoMoreBlocks(z, data, out, limit);
      assert out + [] == out;
    } else {
      var b := blocks[0];
      assert GoodBlock(z, b);
      AtConcat(data, pos, BlockBytes(b), StreamBytes(blocks[1..]));
      OneBlockRead(z, data, pos, b, out, limit);
      assert out + b.content + Contents(blocks[1..]) == out + Contents(blocks);
      if |out| + |b.content| <= limit {
        BlocksAreRead(z, data, pos + |BlockBytes(b)|, blocks[1..], out + b.content, limit);
      }
    }
  }

  lemma NoMoreBlocks(z: Zlib, data: bytes, out: bytes, limit: nat)
    ensures BlocksF(z, data, |data|, out, limit) == Some(out)
  {
  }

  /** And nothing else is accepted: every stream that decodes is such a list. */
  lemma {:induction false} BlocksAreWritten(z: Zlib, data: bytes, pos: nat, out: bytes, limit: nat)
    returns (blocks: seq<Block>)
    requires pos <= |data| && BlocksF(z, data, pos, out, limit).Some?
    ensures forall b :: b in blocks ==> GoodBlock(z, b)
    ensures At(data, pos, StreamBytes(blocks)) && pos + |StreamBytes(blocks)| == |data|
    ensures BlocksF(z, data, pos, out, limit) == Some(out + Contents(blocks))
    decreases |data| - pos
  {
    if pos == |data| {
      blocks := [];
      assert out + [] == out;
    } else {
      var b := FirstBlock(z, data, pos, out, limit);
      hide BlocksF, BlockBytes, GoodBlock, At;
      var end := pos + |BlockBytes(b)|;
      var rest := BlocksAreWritten(z, data, end, out + b.content, limit);
      blocks := [b] + rest;
      hide StreamBytes, Contents;
      BlocksCons(out, b, rest);
      AtJoin(data, pos, BlockBytes(b), StreamBytes(rest));
    }
  }

  lemma BlocksCons(out: bytes, b: Block, rest: seq<Block>)
    ensures StreamBytes([b] + rest) == BlockBytes(b) + StreamBytes(rest)
    ensures (out + b.content) + Contents(rest) == out + Contents([b] + rest)
  {
    hide BlockBytes;
    assert ([b] + rest)[1..] == rest;
  }

  lemma FirstBlock(z: Zlib, data: bytes, pos: nat, out: bytes, limit: nat) returns (b: Block)
    requires pos < |data| && BlocksF(z, data, pos, out, limit).Some?
    ensures GoodBlock(z, b)
    ensures At(data, pos, BlockBytes(b)) && pos < pos + |BlockBytes(b)| <= |data|
    ensures BlocksF(z, data, pos, out, limit) == BlocksF(z, data, pos + |BlockBytes(b)|, out + b.content, limit)
  {
    hide FromBe, Announced;
    var header := FromBe(data[pos..pos + 4]);
    var raw := data[pos + 4..pos + 4 + header % STORED];
    b := Block(header >= STORED, raw, if header >= STORED then raw else z.inflate(raw).value);
    HeaderAnnounces(data[pos..pos + 4], b);
    AtJoin(data, pos, Announced(b), raw);
  }

  lemma HeaderAnnounces(head: bytes, b: Block)
    requires |head| == 4 && FromBe(head) % STORED == |b.raw| && (FromBe(head) >= STORED <==> b.stored)
    ensures Announced(b) == head
  {
    hide FromBe, Be;
    FourBytesFit(head);
    BeOfFromBe(head);
    TopBit(FromBe(head));
  }

  lemma TopBit(n: nat)
    requires n <= U32_MAX
    ensures n == n % STORED + if n >= STORED then STORED else 0
  {
  }

  lemma FourBytesFit(b: bytes)
    requires |b| == 4
    ensures FromBe(b) <= U32_MAX
  {
    hide FromBe;
    var w := |b|;
    assert Pow256(w) == 0x1_0000_0000;
  }
}

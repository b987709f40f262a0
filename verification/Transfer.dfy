/** A whole file transfer: `prepare_cancel` (src/airdrop/outgoing.rs) into `receive_cancel`
    (src/airdrop/storage.rs). */
module Transfer {
  import opened Bytes
  import opened Cpio
  import opened Tree
  import opened Receiver
  import opened ArchiveRoundTrip
  import Sender
  import SenderLimits
  import Dvzip
  import Publish

  datatype Failure = CannotDecode(d: Dvzip.Failure) | BadArchive(c: Cpio.Error) | CannotPublish(p: Publish.Error)

  /** `prepare_cancel`: the archive of a selection. */
  function PrepareF(z: Dvzip.Zlib, items: seq<Sender.Item>): Option<bytes> {
    match Sender.CpioF(items)
    case Err(_) => None
    case Ok(cpio) => Dvzip.ArchiveF(z, cpio)
  }

  method Prepare(z: Dvzip.Zlib, items: seq<Sender.Item>) returns (r: Option<bytes>)
    ensures r == PrepareF(z, items)
  {
    var cpio := Sender.PrepareCpio(items);
    if cpio.Err? {
      return None;
    }
    r := Dvzip.Pack(z, cpio.value);
  }

  /** The selections that are sent: those the limits admit and whose archive is within them, too. */
  lemma PrepareSucceeds(z: Dvzip.Zlib, items: seq<Sender.Item>)
    requires z.Lawful()
    ensures PrepareF(z, items).Some? <==>
              && 1 <= |items| <= 4096 && SenderLimits.Selectable(items, {})
              && SenderLimits.EntriesIn(items) < 65536 && SenderLimits.ContentIn(items) <= 0x8_0000_0000
              && Sender.CpioF(items).Ok? && Dvzip.PackF(z, Sender.CpioF(items).value).Some?
              && |Dvzip.PackF(z, Sender.CpioF(items).value).value| <= 0x8_0000_0000
  {
    hide Sender.CpioF, Dvzip.PackF, SenderLimits.Selectable;
    SenderLimits.SelectionAccepted(items);
    if Sender.CpioF(items).Ok? {
      Dvzip.PackSucceeds(z, Sender.CpioF(items).value);
    }
  }

  /** What a received archive unpacks to; `None` when it is refused. */
  function UnpackF(z: Dvzip.Zlib, archive: bytes, ty: Dvzip.Media): Option<Saved> {
    match Dvzip.DecodedF(z, archive, ty, MAX_TRANSFER)
    case None => None
    case Some(cpio) => match ReceiveF(cpio) case Err(_) => None case Ok(s) => Some(s)
  }

  /** Publish what was staged, the staging directory `temp` being in the way meanwhile. */
  method PublishStaged(disk: Publish.Disk, staged: Directory, temp: bytes, faulty: set<bytes>)
    returns (failed: Option<Publish.Error>)
    requires temp !in disk.dest
    modifies disk
    ensures Publish.Grew(old(disk.dest), disk.dest)
    ensures faulty == {} && |old(disk.dest)| + 1 + |staged| < U64_MAX ==> failed.None?
    ensures failed.None? && old(disk.dest).Keys !! staged.Keys && temp !in staged ==>
              disk.dest == old(disk.dest) + staged
  {
    hide Publish.Conserved, Publish.Grew;
    ghost var before := disk.dest;
    disk.staging := staged;
    disk.dest := disk.dest[temp := Dir(map[])];
    ghost var during := disk.dest;
    assert |during| == |before| + 1;
    ghost var landed;
    failed, landed := disk.PublishAll(faulty);
    ConservedGrows(during, staged, disk.dest, disk.staging, landed);
    GrewAround(before, temp, disk.dest);
    if failed.None? && before.Keys !! staged.Keys && temp !in staged {
      WithoutTemp(before, temp, staged);
    }
    disk.dest := disk.dest - {temp};
  }

  /** `receive_cancel`. The staging directory is itself an entry `temp` of the destination while items are
      published, and is gone afterwards. */
  method ReceiveCancel(z: Dvzip.Zlib, archive: bytes, ty: Dvzip.Media, disk: Publish.Disk, temp: bytes,
                       faulty: set<bytes>)
    returns (r: Result<Saved, Failure>)
    requires temp !in disk.dest
    modifies disk
    ensures UnpackF(z, archive, ty).None? ==> r.Err? && disk.dest == old(disk.dest)
    ensures r.Ok? ==> UnpackF(z, archive, ty) == Some(r.value)
    ensures Publish.Grew(old(disk.dest), disk.dest)
    ensures UnpackF(z, archive, ty).Some? ==>
              var staged := UnpackF(z, archive, ty).value.staging;
              && (faulty == {} && |old(disk.dest)| + 1 + |staged| < U64_MAX ==> r.Ok?)
              && (r.Ok? && old(disk.dest).Keys !! staged.Keys && temp !in staged ==>
                  disk.dest == old(disk.dest) + staged)
  {
    var decoded := Dvzip.Decoded(z, archive, ty, MAX_TRANSFER);
    if decoded.Err? {
      return Err(CannotDecode(decoded.error));
    }
    var saved := Receive(decoded.value);
    if saved.Err? {
      return Err(BadArchive(saved.error));
    }
    assert UnpackF(z, archive, ty) == Some(saved.value);
    hide UnpackF;
    var failed := PublishStaged(disk, saved.value.staging, temp, faulty);
    r := if failed.None? then Ok(saved.value) else Err(CannotPublish(failed.value));
  }

  lemma ConservedGrows(dest0: Directory, first: Directory, dest: Directory, staging: Directory,
                       landed: map<bytes, bytes>)
    requires Publish.Conserved(dest0, first, dest, staging, landed)
    ensures Publish.Grew(dest0, dest)
  {
  }

  lemma GrewAround(before: Directory, temp: bytes, dest: Directory)
    requires temp !in before && Publish.Grew(before[temp := Dir(map[])], dest)
    ensures Publish.Grew(before, dest - {temp})
  {
    assert forall k :: k in before ==> k in before[temp := Dir(map[])];
  }

  lemma WithoutTemp(before: Directory, temp: bytes, staged: Directory)
    requires temp !in before && temp !in staged && before.Keys !! staged.Keys
    ensures before[temp := Dir(map[])].Keys !! staged.Keys
    ensures before[temp := Dir(map[])] + staged - {temp} == before + staged
  {
  }

  /** Sending and then receiving, for every selection the sender accepts whose CPIO stream fits the receiver's
      limit: the archive is accepted, and unpacks to exactly the forest that was sent minus AppleDouble files,
      if and only if no name has a bidirectional formatting character and a kept file is there. */
  lemma SendThenReceive(z: Dvzip.Zlib, items: seq<Sender.Item>)
    requires z.Lawful() && PrepareF(z, items).Some? && forall i :: 0 <= i < |items| ==> WellNamedItem(items[i])
    ensures var fits := |Sender.CpioF(items).value| <= MAX_TRANSFER;
            var unpacked := UnpackF(z, PrepareF(z, items).value, Dvzip.DvzipType);
            && (unpacked.Some? <==> fits && !AnyBidi(items) && FilesIn(items) > 0)
            && (unpacked.Some? ==>
                unpacked.value.staging == TreeOnto(map[], items) && unpacked.value.files == FilesIn(items))
  {
    hide ReceiveF, Sender.CpioF, Dvzip.DecodedF, Dvzip.PackF, AnyBidi, FilesIn, TreeOnto;
    var cpio := Sender.CpioF(items).value;
    Dvzip.PackedIsDecoded(z, cpio, MAX_TRANSFER);
    SentIsReceived(items);
  }

  /** A directory gains at most one entry an item. */
  lemma {:induction false} TreeIsSmall(d: Directory, items: seq<Sender.Item>)
    ensures |TreeOnto(d, items)| <= |d| + |items|
    decreases |items|
  {
    if items != [] {
      var next := AddItem(d, items[0]);
      assert next.Keys == d.Keys || next.Keys == d.Keys + {items[0].name};
      TreeIsSmall(next, items[1..]);
    }
  }

  /** The whole way, into an empty directory, where no rename fails: it succeeds exactly if the stream fits, no name
      has a bidirectional formatting character and a kept file is there, and then the directory holds exactly the
      forest that was sent; otherwise it stays empty. */
  method SendAndReceive(z: Dvzip.Zlib, items: seq<Sender.Item>, disk: Publish.Disk, temp: bytes)
    returns (r: Result<Saved, Failure>)
    requires z.Lawful() && PrepareF(z, items).Some? && forall i :: 0 <= i < |items| ==> WellNamedItem(items[i])
    requires disk.dest == map[]
    modifies disk
    ensures r.Ok? <==> |Sender.CpioF(items).value| <= MAX_TRANSFER && !AnyBidi(items) && FilesIn(items) > 0
    ensures r.Ok? ==> r.value.files == FilesIn(items)
    ensures r.Ok? && temp !in TreeOnto(map[], items) ==> disk.dest == TreeOnto(map[], items)
    ensures r.Err? ==> disk.dest == map[]
  {
    var archive := Prepare(z, items);
    hide Sender.CpioF, AnyBidi, FilesIn, TreeOnto, PrepareF, UnpackF, Publish.Grew;
    SendThenReceive(z, items);
    SelectionIsSmall(z, items);
    r := ReceiveCancel(z, archive.value, Dvzip.DvzipType, disk, temp, {});
    assert map[] + TreeOnto(map[], items) == TreeOnto(map[], items);
  }

  lemma SelectionIsSmall(z: Dvzip.Zlib, items: seq<Sender.Item>)
    requires PrepareF(z, items).Some?
    ensures |TreeOnto(map[], items)| <= |items| <= 4096
  {
    hide TreeOnto;
    TreeIsSmall(map[], items);
  }
}

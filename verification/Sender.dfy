/** Writing the selected files and folders as a CPIO stream (src/airdrop/outgoing.rs). */
module Sender {
  import opened Bytes
  import opened Cpio
  import opened Paths

  /** What the sender finds on disk; a directory's items in the order it visits them. */
  datatype Source = FileSource(content: bytes) | DirSource(items: seq<Item>) | OtherSource

  datatype Item = Item(name: bytes, node: Source)

  datatype Refusal = Nesting | PathTooLong | TooManyFiles | SpecialFile | TransferTooLarge | FileTooLarge | BadFilename
      | Selection | Duplicate

  const MAX_NESTING := 64
  /** 0o040700 and 0o100600 */
  const DIR_MODE := 0x41c0
  const FILE_MODE := 0x8180

  /** What has been written so far. */
  datatype Progress = Progress(out: bytes, count: nat, total: nat)

  const NOTHING := Progress([], 0, 0)

  /** `add`. */
  function AddF(node: Source, name: bytes, st: Progress, depth: nat): (r: Result<Progress, Refusal>)
    ensures r.Ok? && st.total <= MAX_TRANSFER ==> r.value.total <= MAX_TRANSFER
    ensures r.Ok? ==> st.count < r.value.count < MAX_ENTRIES && st.out <= r.value.out
    decreases node, 0
  {
    var count := st.count + 1;
    if depth > MAX_NESTING then Err(Nesting)
    else if |name| > 4095 then Err(PathTooLong)
    else if count >= MAX_ENTRIES then Err(TooManyFiles)
    else match node
      case OtherSource => Err(SpecialFile)
      case DirSource(items) => AddAllF(items, name, Progress(st.out + DirHeader(name, count), count, st.total), depth)
      case FileSource(content) =>
        if |content| + st.total > MAX_TRANSFER then Err(TransferTooLarge)
        else match HeaderF(name, |content|, FILE_MODE, count)
          case Err(_) => Err(FileTooLarge)
          case Ok(h) => Ok(Progress(st.out + h + content, count, st.total + |content|))
  }

  function DirHeader(name: bytes, ino: nat): (r: bytes) {
    HeaderF(name, 0, DIR_MODE, ino).value
  }

  /** The items of a directory, in order. */
  function AddAllF(items: seq<Item>, name: bytes, st: Progress, depth: nat): (r: Result<Progress, Refusal>)
    ensures r.Ok? && st.total <= MAX_TRANSFER ==> r.value.total <= MAX_TRANSFER
    ensures r.Ok? && st.count < MAX_ENTRIES ==> st.count <= r.value.count < MAX_ENTRIES
    ensures r.Ok? ==> st.out <= r.value.out
    decreases items, 2
  {
    if items == [] then Ok(st)
    else match AddItemF(items[0], name, st, depth)
      case Err(e) => Err(e)
      case Ok(next) => AddAllF(items[1..], name, next, depth)
  }

  function AddItemF(item: Item, name: bytes, st: Progress, depth: nat): (r: Result<Progress, Refusal>)
    ensures r.Ok? && st.total <= MAX_TRANSFER ==> r.value.total <= MAX_TRANSFER
    ensures r.Ok? ==> st.count < r.value.count < MAX_ENTRIES && st.out <= r.value.out
    decreases item, 1
  {
    if !Sendable(item.name) then Err(BadFilename)
    else AddF(item.node, name + [SLASH] + item.name, st, depth + 1)
  }

  /** The selected items, each under `./`; no name twice. */
  function AddSelectedF(items: seq<Item>, names: set<bytes>, st: Progress): (r: Result<Progress, Refusal>)
    ensures r.Ok? && st.total <= MAX_TRANSFER ==> r.value.total <= MAX_TRANSFER
    ensures r.Ok? && st.count < MAX_ENTRIES ==> st.count <= r.value.count < MAX_ENTRIES
    ensures r.Ok? ==> st.out <= r.value.out
    decreases |items|
  {
    if items == [] then Ok(st)
    else
      var name := items[0].name;
      if !Sendable(name) then Err(BadFilename)
      else if name in names then Err(Duplicate)
      else match AddF(items[0].node, NameOf([name]), st, 0)
        case Err(e) => Err(e)
        case Ok(next) => AddSelectedF(items[1..], names + {name}, next)
  }

  function Trailer(): (r: bytes) {
    HeaderF(TRAILER, 0, 0, 0).value
  }

  /** The CPIO stream `prepare_cancel` makes of the selection. */
  function CpioF(items: seq<Item>): (r: Result<bytes, Refusal>) {
    if !(1 <= |items| <= 4096) then Err(Selection)
    else match AddSelectedF(items, {}, NOTHING)
      case Err(e) => Err(e)
      case Ok(st) => Ok(st.out + Trailer())
  }

  class Writer {
    var out: bytes
    var count: nat
    var total: nat

    constructor ()
      ensures Now() == NOTHING
    {
      out, count, total := [], 0, 0;
    }

    function Now(): Progress
      reads this
    {
      Progress(out, count, total)
    }

    method Header(name: bytes, size: nat, mode: nat, ino: nat) returns (ok: bool)
      modifies this`out
      ensures ok <==> HeaderF(name, size, mode, ino).Ok?
      ensures out == old(out) + (if ok then HeaderF(name, size, mode, ino).value else [])
    {
      hide Fixed;
      if size > MAX_ODC_SIZE {
        return false;
      }
      out := out + Fixed(|name|, size, mode, ino);
      out := out + name;
      out := out + [0];
      ok := true;
    }

    method Add(node: Source, name: bytes, depth: nat) returns (failed: Option<Refusal>)
      requires total <= MAX_TRANSFER
      modifies this
      ensures match failed
              case None => AddF(node, name, old(Now()), depth) == Ok(Now())
              case Some(e) => AddF(node, name, old(Now()), depth) == Err(e)
      decreases node, 0
    {
      hide Fixed;
      if depth > MAX_NESTING {
        return Some(Nesting);
      }
      if |name| > 4095 {
        return Some(PathTooLong);
      }
      count := count + 1;
      if count >= MAX_ENTRIES {
        return Some(TooManyFiles);
      }
      match node {
        case OtherSource => failed := Some(SpecialFile);
        case DirSource(items) =>
          var written := Header(name, 0, DIR_MODE, count);
          failed := AddItems(items, name, depth);
        case FileSource(content) =>
          if |content| > MAX_TRANSFER - total {
            return Some(TransferTooLarge);
          }
          total := total + |content|;
          var written := Header(name, |content|, FILE_MODE, count);
          if !written {
            return Some(FileTooLarge);
          }
          out := out + content;
          failed := None;
      }
    }

    method AddItems(items: seq<Item>, name: bytes, depth: nat) returns (failed: Option<Refusal>)
      requires total <= MAX_TRANSFER
      modifies this
      ensures match failed
              case None => AddAllF(items, name, old(Now()), depth) == Ok(Now())
              case Some(e) => AddAllF(items, name, old(Now()), depth) == Err(e)
      decreases items, 2
    {
      assert items[0..] == items;
      for i := 0 to |items|
        invariant total <= MAX_TRANSFER
        invariant AddAllF(items, name, old(Now()), depth) == AddAllF(items[i..], name, Now(), depth)
      {
        assert items[i..][0] == items[i] && items[i..][1..] == items[i + 1..];
        failed := AddItem(items[i], name, depth);
        if failed.Some? {
          return;
        }
      }
      failed := None;
    }

    method AddItem(item: Item, name: bytes, depth: nat) returns (failed: Option<Refusal>)
      requires total <= MAX_TRANSFER
      modifies this
      ensures match failed
              case None => AddItemF(item, name, old(Now()), depth) == Ok(Now())
              case Some(e) => AddItemF(item, name, old(Now()), depth) == Err(e)
      decreases item, 1
    {
      if !Sendable(item.name) {
        return Some(BadFilename);
      }
      failed := Add(item.node, name + [SLASH] + item.name, depth + 1);
    }
  }

  method PrepareCpio(items: seq<Item>) returns (r: Result<bytes, Refusal>)
    ensures r == CpioF(items)
  {
    if !(1 <= |items| <= 4096) {
      return Err(Selection);
    }
    var w := new Writer();
    var names: set<bytes> := {};
    assert items[0..] == items;
    for i := 0 to |items|
      invariant fresh(w) && w.total <= MAX_TRANSFER
      invariant AddSelectedF(items, {}, NOTHING) == AddSelectedF(items[i..], names, w.Now())
    {
      assert items[i..][0] == items[i] && items[i..][1..] == items[i + 1..];
      var name := items[i].name;
      if !Sendable(name) {
        return Err(BadFilename);
      }
      if name in names {
        return Err(Duplicate);
      }
      names := names + {name};
      var failed := w.Add(items[i].node, NameOf([name]), 0);
      if failed.Some? {
        return Err(failed.value);
      }
    }
    var written := w.Header(TRAILER, 0, 0, 0);
    r := Ok(w.out);
  }
}

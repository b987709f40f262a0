/** What is sent is what arrives: the receiver rebuilds the sender's forest. */
module ArchiveRoundTrip {
  import opened Bytes
  import opened Cpio
  import opened Paths
  import opened Tree
  import opened Sender
  import opened Receiver
  import Utf8

  /** AppleDouble files are read but not kept; links and devices are never sent. */
  predicate Dropped(item: Item) {
    item.node.OtherSource? || (item.node.FileSource? && IsMetadata(item.name))
  }

  /** The directory a list of items describes, on top of `d`. */
  function TreeOnto(d: Directory, items: seq<Item>): (r: Directory)
    decreases items, 1
  {
    if items == [] then d else TreeOnto(AddItem(d, items[0]), items[1..])
  }

  function AddItem(d: Directory, item: Item): (r: Directory)
    decreases item, 0
  {
    if Dropped(item) then d
    else match item.node
      case FileSource(content) => d[item.name := File(content)]
      case DirSource(items) => d[item.name := Dir(TreeOnto(map[], items))]
  }

  /** How many files of the forest are kept. */
  function FilesIn(items: seq<Item>): (n: nat)
    decreases items, 1
  {
    if items == [] then 0 else FilesAt(items[0]) + FilesIn(items[1..])
  }

  function FilesAt(item: Item): (n: nat)
    decreases item, 0
  {
    match item.node
    case OtherSource => 0
    case FileSource(_) => if IsMetadata(item.name) then 0 else 1
    case DirSource(items) => FilesIn(items)
  }

  /** Facts about any directory tree: names are nonempty, hold no slash, and differ among siblings. */
  ghost predicate WellNamed(items: seq<Item>)
    decreases items, 1
  {
    && Distinct(items)
    && forall i :: 0 <= i < |items| ==> WellNamedItem(items[i])
  }

  ghost predicate Distinct(items: seq<Item>) {
    forall i, j :: 0 <= i < j < |items| ==> items[i].name != items[j].name
  }

  ghost predicate WellNamedItem(item: Item)
    decreases item, 0
  {
    && IsFileName(item.name)
    && (item.node.DirSource? ==> WellNamed(item.node.items))
  }

  /** Some name in the forest has a bidirectional formatting character. */
  predicate AnyBidi(items: seq<Item>)
    decreases items, 1
  {
    items != [] && (BidiItem(items[0]) || AnyBidi(items[1..]))
  }

  predicate BidiItem(item: Item)
    decreases item, 0
  {
    HasBidi(item.name) || (item.node.DirSource? && AnyBidi(item.node.items))
  }

  /** The staging directory after an item at `path`. */
  function Place(d: Directory, path: Path, node: Source): (r: Directory)
    requires Free(d, path)
  {
    match node
    case OtherSource => d
    case FileSource(content) => if IsMetadata(path[|path| - 1]) then d else Put(d, path, File(content))
    case DirSource(items) => Put(d, path, Dir(TreeOnto(map[], items)))
  }

  function FilesOf(path: Path, node: Source): nat
    requires path != []
  {
    FilesAt(Item(path[|path| - 1], node))
  }

  /** The receiver after reading what the sender had written at `w`. */
  function At2(w: Progress, d: Directory, files: nat): State {
    State(|w.out|, w.total, files, d)
  }

  /** From sender state `w` to `w2`, the receiver's loop goes from `d` to `d2` and counts `files` files; or,
      if a name in between has a bidirectional formatting character, it refuses the archive. */
  predicate Follows(data: bytes, w: Progress, d: Directory, w2: Progress, d2: Directory, before: nat, files: nat,
                    bidi: bool) {
    && w.count <= w2.count < MAX_ENTRIES
    && |w.out| <= |data| && w.total <= MAX_TRANSFER && |w2.out| <= |data| && w2.total <= MAX_TRANSFER
    && ExtractF(data, At2(w, d, before), MAX_ENTRIES - w.count)
         == if bidi then Err(UnsafePath) else ExtractF(data, At2(w2, d2, before + files), MAX_ENTRIES - w2.count)
  }

  /** `data` starts with what the sender had written at `w`. */
  predicate Written(data: bytes, w: Progress) {
    w.out <= data && w.total <= MAX_TRANSFER
  }

  lemma PieceAt(data: bytes, w: bytes, piece: bytes)
    requires w + piece <= data
    ensures At(data, |w|, piece)
  {
    assert data[|w|..|w| + |piece|] == (w + piece)[|w|..];
  }

  /** The name in a header is neither the trailer nor the root. */
  lemma NotSpecial(path: Path)
    requires path != [] && PlainPath(path) && |NameOf(path)| <= MAX_NAME
    ensures NameOf(path) != TRAILER && !IsRootName(NameOf(path))
  {
    RelativeOfName(path);
    assert NameOf(path)[0] == 0x2e;
  }

  /** The receiver's step on a directory entry. */
  lemma DirStep(data: bytes, st: State, path: Path, ino: nat)
    requires st.pos <= |data| && st.total <= MAX_TRANSFER
    requires path != [] && PlainPath(path) && |NameOf(path)| <= 4095 && ino < MAX_ENTRIES
    requires At(data, st.pos, DirHeader(NameOf(path), ino)) && Free(st.staging, path)
    ensures EntryF(data, st) ==
            if BidiFree(path)
            then Ok(More(st.(pos := st.pos + |DirHeader(NameOf(path), ino)|,
                             staging := Put(st.staging, path, Dir(map[])))))
            else Err(UnsafePath)
  {
    hide Fixed, HeadF, Relative, MakeDirs, TypeBits;
    RelativeOfName(path);
    NotSpecial(path);
    HeadOfHeader(data, st.pos, NameOf(path), 0, DIR_MODE, ino);
    MakeDirsFresh(st.staging, path);
    ModeBits();
  }

  lemma ModeBits()
    ensures IsDirectory(DIR_MODE) && !IsRegular(DIR_MODE) && IsRegular(FILE_MODE) && !IsDirectory(FILE_MODE)
  {
  }

  /** The receiver after a file entry. */
  function AfterFile(st: State, path: Path, content: bytes, ino: nat): State
    requires Free(st.staging, path)
  {
    State(st.pos + |Fixed(|NameOf(path)|, |content|, FILE_MODE, ino) + (NameOf(path) + [0])| + |content|,
          st.total + |content|, st.files + FilesOf(path, FileSource(content)),
            Place(st.staging, path, FileSource(content)))
  }

  /** A file at a path both sides take. */
  lemma FileAt(data: bytes, s: State, path: Path, content: bytes, h: Head)
    requires s.pos <= |data| && s.total <= MAX_TRANSFER && path != [] && Free(s.staging, path)
    requires h.align == 1 && h.mode == FILE_MODE && h.size == |content| && At(data, s.pos, content)
    ensures EntryAt(data, s, h, path) ==
            Ok(More(State(s.pos + |content|, s.total, s.files + FilesOf(path, FileSource(content)),
                          Place(s.staging, path, FileSource(content)))))
  {
    hide MakeDirs, CreateNew, TypeBits, Put, Free;
    ParentOfFree(s.staging, path);
    MakeDirsThere(s.staging, path[..|path| - 1]);
    CreateNewFresh(s.staging, path, content);
    ModeBits();
  }

  /** The receiver's step on a file entry. */
  lemma FileStep(data: bytes, st: State, path: Path, content: bytes, ino: nat)
    requires st.pos <= |data| && st.total + |content| <= MAX_TRANSFER
    requires path != [] && PlainPath(path) && |NameOf(path)| <= 4095 && ino < MAX_ENTRIES
    requires HeaderF(NameOf(path), |content|, FILE_MODE, ino).Ok?
    requires At(data, st.pos, HeaderF(NameOf(path), |content|, FILE_MODE, ino).value + content)
             && Free(st.staging, path)
    ensures EntryF(data, st) == if BidiFree(path) then Ok(More(AfterFile(st, path, content, ino))) else Err(UnsafePath)
  {
    hide Fixed, HeadF, Relative, EntryAt, Free, BidiFree, PlainPath, NameOf, Place, FilesOf, At;
    var h := HeaderF(NameOf(path), |content|, FILE_MODE, ino).value;
    AtConcat(data, st.pos, h, content);
    RelativeOfName(path);
    NotSpecial(path);
    HeadOfHeader(data, st.pos, NameOf(path), |content|, FILE_MODE, ino);
    var head := HeadF(data, st.pos).value;
    FileAt(data, st.(pos := head.next, total := st.total + |content|), path, content, head);
  }

  lemma ParentOfFree(d: Directory, path: Path)
    requires Free(d, path)
    ensures path != [] && Lookup(d, path[..|path| - 1]).Some? && Lookup(d, path[..|path| - 1]).value.Dir?
  {
  }

  predicate BidiNode(node: Source) {
    node.DirSource? && AnyBidi(node.items)
  }

  lemma FileFollows(data: bytes, content: bytes, path: Path, w: Progress, depth: nat, d: Directory, before: nat)
    requires path != [] && PlainPath(path)
    requires var r := AddF(FileSource(content), NameOf(path), w, depth); r.Ok? && Written(data, r.value)
    requires w.total <= MAX_TRANSFER && Free(d, path)
    ensures Follows(data, w, d, AddF(FileSource(content), NameOf(path), w, depth).value,
                    Place(d, path, FileSource(content)), before,
                    FilesOf(path, FileSource(content)), !BidiFree(path))
  {
    hide EntryF, HeaderF, Put, Lookup, Free, BidiFree, PlainPath, NameOf, FilesOf, Place;
    var h := HeaderF(NameOf(path), |content|, FILE_MODE, w.count + 1).value;
    assert w.out + h + content == w.out + (h + content);
    PieceAt(data, w.out, h + content);
    HeaderIs(NameOf(path), |content|, FILE_MODE, w.count + 1);
    FileStep(data, At2(w, d, before), path, content, w.count + 1);
  }

  /** One node, with everything below it. */
  lemma {:induction false} AddFollows(data: bytes, node: Source, path: Path, w: Progress, depth: nat, d: Directory,
                                      before: nat)
    requires path != [] && PlainPath(path) && (node.DirSource? ==> WellNamed(node.items))
    requires AddF(node, NameOf(path), w, depth).Ok? && Written(data, AddF(node, NameOf(path), w, depth).value)
    requires w.total <= MAX_TRANSFER && Free(d, path)
    ensures Follows(data, w, d, AddF(node, NameOf(path), w, depth).value, Place(d, path, node), before,
                    FilesOf(path, node),
                    !BidiFree(path) || BidiNode(node))
    decreases node, 0
  {
    hide EntryF, HeaderF, Put, Lookup, Free, BidiFree, PlainPath;
    var st := At2(w, d, before);
    var w2 := AddF(node, NameOf(path), w, depth).value;
    match node {
      case FileSource(content) =>
        FileFollows(data, content, path, w, depth, d, before);
      case DirSource(items) =>
        var h := DirHeader(NameOf(path), w.count + 1);
        PieceAt(data, w.out, h);
        DirStep(data, st, path, w.count + 1);
        if BidiFree(path) {
          DirFollows(data, items, path, Progress(w.out + h, w.count + 1, w.total), depth, d, map[], before);
        }
    }
  }

  lemma HeaderIs(name: bytes, size: nat, mode: nat, ino: nat)
    requires HeaderF(name, size, mode, ino).Ok?
    ensures HeaderF(name, size, mode, ino).value == Fixed(|name|, size, mode, ino) + (name + [0])
  {
  }

  /** The items of a directory placed at `path`, onto the entries `m` it holds already. */
  lemma {:induction false} DirFollows(data: bytes, items: seq<Item>, path: Path, w: Progress, depth: nat, d: Directory,
                                      m: Directory, before: nat)
    requires path != [] && PlainPath(path) && BidiFree(path) && WellNamed(items) && Free(d, path)
    requires forall i :: 0 <= i < |items| ==> items[i].name !in m
    requires AddAllF(items, NameOf(path), w, depth).Ok? && Written(data, AddAllF(items, NameOf(path), w, depth).value)
    requires w.total <= MAX_TRANSFER && w.count < MAX_ENTRIES
    ensures Follows(data, w, Put(d, path, Dir(m)), AddAllF(items, NameOf(path), w, depth).value,
                    Put(d, path, Dir(TreeOnto(m, items))), before, FilesIn(items), AnyBidi(items))
    decreases items, 2
  {
    hide ExtractF, Put, Lookup, AddF, WellNamedItem, BidiItem;
    if items != [] {
      var item := items[0];
      var w2 := AddItemF(item, NameOf(path), w, depth).value;
      ItemFollows(data, item, path, w, depth, d, m, before);
      RestNamed(items, m);
      DirFollows(data, items[1..], path, w2, depth, d, AddItem(m, item), before + FilesAt(item));
    }
  }

  lemma RestNamed(items: seq<Item>, m: Directory)
    requires WellNamed(items) && items != [] && forall i :: 0 <= i < |items| ==> items[i].name !in m
    ensures WellNamed(items[1..]) && WellNamedItem(items[0])
    ensures forall i :: 0 <= i < |items[1..]| ==> items[1..][i].name !in AddItem(m, items[0])
  {
  }

  /** One item of the directory at `path`. */
  lemma {:induction false} ItemFollows(data: bytes, item: Item, path: Path, w: Progress, depth: nat, d: Directory,
                                       m: Directory, before: nat)
    requires path != [] && PlainPath(path) && BidiFree(path) && WellNamedItem(item) && Free(d, path) && item.name !in m
    requires AddItemF(item, NameOf(path), w, depth).Ok? && Written(data, AddItemF(item, NameOf(path), w, depth).value)
    requires w.total <= MAX_TRANSFER
    ensures Follows(data, w, Put(d, path, Dir(m)), AddItemF(item, NameOf(path), w, depth).value,
                    Put(d, path, Dir(AddItem(m, item))), before, FilesAt(item), BidiItem(item))
    decreases item, 1
  {
    hide ExtractF, AddF, Put, NameOf;
    var child := path + [item.name];
    NameOfChild(path, item.name);
    assert child[|child| - 1] == item.name && child[..|child| - 1] == path;
    BidiChild(path, item.name);
    LookupPut(d, path, Dir(m));
    var dm := Put(d, path, Dir(m));
    assert Free(dm, child);
    AddFollows(data, item.node, child, w, depth + 1, dm, before);
    assert item == Item(item.name, item.node);
    PlaceBelow(d, path, m, item);
  }

  lemma BidiChild(path: Path, name: bytes)
    requires BidiFree(path)
    ensures BidiFree(path + [name]) <==> !HasBidi(name)
  {
    assert (path + [name])[|path|] == name;
    assert forall i :: 0 <= i < |path| ==> (path + [name])[i] == path[i];
  }

  lemma PlaceBelow(d: Directory, path: Path, m: Directory, item: Item)
    requires Free(d, path) && item.name !in m && Free(Put(d, path, Dir(m)), path + [item.name])
    ensures Place(Put(d, path, Dir(m)), path + [item.name], item.node) == Put(d, path, Dir(AddItem(m, item)))
  {
    hide Put, Lookup;
    ParentOfFree(d, path);
    var dm := Put(d, path, Dir(m));
    var child := path + [item.name];
    assert child[|child| - 1] == item.name;
    LookupPutParent(d, path, Dir(m));
    match item.node {
      case OtherSource =>
      case FileSource(content) =>
        PutBelow(dm, path, item.name, File(content));
        PutPut(d, path, Dir(m), Dir(m[item.name := File(content)]));
      case DirSource(items) =>
        var sub := Dir(TreeOnto(map[], items));
        PutBelow(dm, path, item.name, sub);
        PutPut(d, path, Dir(m), Dir(m[item.name := sub]));
    }
  }

  lemma LookupPutParent(d: Directory, path: Path, node: Node)
    requires Free(d, path)
    ensures Lookup(Put(d, path, node), path) == Some(node)
    ensures Lookup(Put(d, path, node), path[..|path| - 1]).Some?
            && Lookup(Put(d, path, node), path[..|path| - 1]).value.Dir?
  {
    LookupPut(d, path, node);
  }

  // ----- The selection as a whole -----

  lemma TopFree(d: Directory, name: bytes, node: Node)
    requires name !in d
    ensures Free(d, [name]) && Put(d, [name], node) == d[name := node]
  {
    assert [name][..0] == [];
  }

  lemma {:induction false} SelectedFollows(data: bytes, items: seq<Item>, names: set<bytes>, w: Progress, d: Directory,
                                           before: nat)
    requires forall i :: 0 <= i < |items| ==> WellNamedItem(items[i])
    requires AddSelectedF(items, names, w).Ok? && Written(data, AddSelectedF(items, names, w).value)
    requires w.total <= MAX_TRANSFER && w.count < MAX_ENTRIES && d.Keys <= names
    ensures Follows(data, w, d, AddSelectedF(items, names, w).value, TreeOnto(d, items), before, FilesIn(items),
                    AnyBidi(items))
    decreases |items|
  {
    hide ExtractF, AddF, Put, Free, NameOf;
    if items != [] {
      var item := items[0];
      var w2 := AddF(item.node, NameOf([item.name]), w, 0).value;
      TopFree(d, item.name, File([]));
      AddFollows(data, item.node, [item.name], w, 0, d, before);
      TopPlace(d, item);
      assert item == Item(item.name, item.node);
      SelectedFollows(data, items[1..], names + {item.name}, w2, AddItem(d, item), before + FilesAt(item));
    }
  }

  lemma TopPlace(d: Directory, item: Item)
    requires item.name !in d
    ensures Free(d, [item.name]) && Place(d, [item.name], item.node) == AddItem(d, item)
  {
    TopFree(d, item.name, File([]));
    match item.node {
      case OtherSource =>
      case FileSource(content) => TopFree(d, item.name, File(content));
      case DirSource(items) => TopFree(d, item.name, Dir(TreeOnto(map[], items)));
    }
  }

  /** An entry of this name and size ends the loop. */
  lemma EndsAt(data: bytes, st: State, name: bytes, size: nat)
    requires st.pos <= |data| && st.total <= MAX_TRANSFER && name == TRAILER && size == 0
    requires HeaderF(name, size, 0, 0).Ok? && At(data, st.pos, HeaderF(name, size, 0, 0).value)
    ensures EntryF(data, st) == Ok(Done)
  {
    hide HeaderF, HeadF, Utf8.Valid, EntryAt, Relative, IsRootName;
    TrailerIsShort(name);
    HeadOfHeader(data, st.pos, name, size, 0, 0);
    hide MakeDirs;
  }

  lemma TrailerIsShort(name: bytes)
    requires name == TRAILER
    ensures |name| <= 4095 && Utf8.Valid(name)
  {
    Utf8.AsciiIsValid(name);
    hide Utf8.Valid;
  }

  lemma TrailerEnds(data: bytes, st: State)
    requires st.pos <= |data| && st.total <= MAX_TRANSFER && At(data, st.pos, Trailer())
    ensures EntryF(data, st) == Ok(Done)
  {
    hide EntryF, Fixed;
    EndsAt(data, st, TRAILER, 0);
  }

  /** For every selection the sender accepts, the receiver rebuilds exactly the forest that was sent, minus
      AppleDouble files, and counts its files, exactly when no name has a bidirectional formatting character
      and at least one kept file is there; and it refuses the archive otherwise. Sender and receiver agree on
      every limit: the largest selection still leaves room for the trailer's round. */
  lemma SentIsReceived(items: seq<Item>)
    requires CpioF(items).Ok? && forall i :: 0 <= i < |items| ==> WellNamedItem(items[i])
    ensures var r := ReceiveF(CpioF(items).value);
            if AnyBidi(items) then r == Err(UnsafePath)
            else if FilesIn(items) == 0 then r == Err(NoFiles)
            else r == Ok(Saved(TreeOnto(map[], items), FilesIn(items), AddSelectedF(items, {}, NOTHING).value.total))
  {
    hide EntryF, AddSelectedF, Trailer;
    var data := CpioF(items).value;
    var w := AddSelectedF(items, {}, NOTHING).value;
    SelectedFollows(data, items, {}, NOTHING, map[], 0);
    PieceAt(data, w.out, Trailer());
    TrailerEnds(data, At2(w, TreeOnto(map[], items), FilesIn(items)));
  }

  // ----- The rebuilt tree, path by path -----

  /** The item a path leads to in the forest. */
  function Find(items: seq<Item>, path: Path): (r: Option<Item>)
    requires path != []
    decreases |path|, |items|
  {
    if items == [] then None
    else if items[0].name != path[0] then Find(items[1..], path)
    else if |path| == 1 then Some(items[0])
    else if items[0].node.DirSource? then Find(items[0].node.items, path[1..])
    else None
  }

  /** What the receiver has where the sender has an item. */
  function Image(item: Item): (r: Option<Node>) {
    if Dropped(item) then None
    else match item.node
      case FileSource(content) => Some(File(content))
      case DirSource(items) => Some(Dir(TreeOnto(map[], items)))
  }

  function FindImage(items: seq<Item>, path: Path): (r: Option<Node>)
    requires path != []
  {
    match Find(items, path) case None => None case Some(item) => Image(item)
  }

  lemma {:induction false} TreeKeeps(d: Directory, items: seq<Item>, name: bytes)
    requires forall i :: 0 <= i < |items| ==> items[i].name != name
    ensures name in TreeOnto(d, items) <==> name in d
    ensures name in d ==> TreeOnto(d, items)[name] == d[name]
    decreases |items|
  {
    if items != [] {
      TreeKeeps(AddItem(d, items[0]), items[1..], name);
    }
  }

  lemma TreeHead(d: Directory, items: seq<Item>)
    requires items != [] && Distinct(items) && items[0].name !in d
    ensures var t := TreeOnto(d, items);
            match Image(items[0])
            case None => items[0].name !in t
            case Some(node) => items[0].name in t && t[items[0].name] == node
  {
    TreeKeeps(AddItem(d, items[0]), items[1..], items[0].name);
  }

  lemma LookupStep(d: Directory, path: Path, name: bytes, node: Option<Node>)
    requires path != [] && path[0] == name
    requires match node case None => name !in d case Some(n) => name in d && d[name] == n
    ensures Lookup(d, path) ==
            if node.None? then None
            else if |path| == 1 then node
            else match node.value case File(_) => None case Dir(sub) => Lookup(sub, path[1..])
  {
  }

  /** Every path of the rebuilt tree leads to the image of what the same path leads to in the forest sent:
      nothing is added, nothing kept is lost or moved, and every file has its bytes. */
  lemma {:induction false} TreeIsForest(d: Directory, items: seq<Item>, path: Path)
    requires WellNamed(items) && path != [] && path[0] !in d
    requires forall i :: 0 <= i < |items| ==> items[i].name !in d
    ensures Lookup(TreeOnto(d, items), path) == FindImage(items, path)
    decreases |path|, |items|
  {
    if items == [] {
    } else if items[0].name == path[0] {
      TreeHead(d, items);
      LookupStep(TreeOnto(d, items), path, path[0], Image(items[0]));
      if |path| > 1 && items[0].node.DirSource? {
        assert WellNamedItem(items[0]);
        TreeIsForest(map[], items[0].node.items, path[1..]);
      }
    } else {
      RestNamed(items, d);
      TreeIsForest(AddItem(d, items[0]), items[1..], path);
    }
  }
}

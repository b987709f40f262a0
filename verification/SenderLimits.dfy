/** Which selections the sender takes, told from the forest itself. */
module SenderLimits {
  import opened Bytes
  import opened Cpio
  import opened Paths
  import opened Sender
  import Utf8

  /** A name the sender takes: UTF-8 of at most 255 bytes, no control character, no backslash, not a dot or two. */
  predicate GoodName(name: bytes) {
    && Utf8.Valid(name) && |name| <= 255 && 0x5c !in name && name != [0x2e] && name != [0x2e, 0x2e]
    && forall i :: 0 <= i < |Utf8.Chars(name)| ==> !Utf8.IsControl(Utf8.Chars(name)[i])
  }

  /** How many entries a node becomes, and how many bytes of content it has. */
  function Entries(node: Source): (n: nat)
    ensures n >= 1
    decreases node, 0
  {
    match node case DirSource(items) => 1 + EntriesIn(items) case _ => 1
  }

  function EntriesIn(items: seq<Item>): nat
    decreases items, 1
  {
    if items == [] then 0 else EntriesOf(items[0]) + EntriesIn(items[1..])
  }

  function EntriesOf(item: Item): nat
    decreases item, 0
  {
    Entries(item.node)
  }

  function Content(node: Source): nat
    decreases node, 0
  {
    match node case FileSource(content) => |content| case DirSource(items) => ContentIn(items) case OtherSource => 0
  }

  function ContentIn(items: seq<Item>): nat
    decreases items, 1
  {
    if items == [] then 0 else ContentOf(items[0]) + ContentIn(items[1..])
  }

  function ContentOf(item: Item): nat
    decreases item, 0
  {
    Content(item.node)
  }

  /** Only files and directories, at most 64 levels down; no written name longer than 4095 bytes, no file of 8 GiB. */
  ghost predicate Admissible(node: Source, length: nat, depth: nat)
    decreases node, 0
  {
    && depth <= 64 && length <= 4095
    && match node
       case OtherSource => false
       case FileSource(content) => |content| < 0x2_0000_0000
       case DirSource(items) => AdmissibleIn(items, length, depth)
  }

  ghost predicate AdmissibleIn(items: seq<Item>, length: nat, depth: nat)
    decreases items, 1
  {
    items != [] ==> AdmissibleItem(items[0], length, depth) && AdmissibleIn(items[1..], length, depth)
  }

  ghost predicate AdmissibleItem(item: Item, length: nat, depth: nat)
    decreases item, 0
  {
    GoodName(item.name) && Admissible(item.node, length + 1 + |item.name|, depth + 1)
  }

  /** What the limits on entries and bytes say of a walk that has come to `st`. */
  predicate HasRoom(st: Progress, entries: nat, size: nat) {
    st.count + entries < 65536 && st.total + size <= 0x8_0000_0000
  }

  lemma SendableMeans(name: bytes)
    ensures Sendable(name) <==> GoodName(name)
  {
  }

  lemma {:induction false} AddAccepts(node: Source, name: bytes, st: Progress, depth: nat)
    requires st.total <= MAX_TRANSFER
    ensures AddF(node, name, st, depth).Ok? <==>
              Admissible(node, |name|, depth) && HasRoom(st, Entries(node), Content(node))
    ensures AddF(node, name, st, depth).Ok? ==>
              && AddF(node, name, st, depth).value.count == st.count + Entries(node)
              && AddF(node, name, st, depth).value.total == st.total + Content(node)
    decreases node, 0
  {
    hide DirHeader, HeaderF;
    match node
    case OtherSource =>
    case FileSource(content) => HeaderTakes(name, |content|, st.count + 1);
    case DirSource(items) =>
      if st.count + 1 < MAX_ENTRIES {
        AddAllAccepts(items, name, Progress(st.out + DirHeader(name, st.count + 1), st.count + 1, st.total), depth);
      }
  }

  lemma HeaderTakes(name: bytes, size: nat, ino: nat)
    ensures HeaderF(name, size, FILE_MODE, ino).Ok? <==> size < 0x2_0000_0000
  {
  }

  lemma {:induction false} AddAllAccepts(items: seq<Item>, name: bytes, st: Progress, depth: nat)
    requires st.total <= MAX_TRANSFER && st.count < MAX_ENTRIES
    ensures AddAllF(items, name, st, depth).Ok? <==>
              AdmissibleIn(items, |name|, depth) && HasRoom(st, EntriesIn(items), ContentIn(items))
    ensures AddAllF(items, name, st, depth).Ok? ==>
              && AddAllF(items, name, st, depth).value.count == st.count + EntriesIn(items)
              && AddAllF(items, name, st, depth).value.total == st.total + ContentIn(items)
    decreases items, 2
  {
    hide AddItemF, AdmissibleItem, EntriesOf, ContentOf;
    if items != [] {
      AddItemAccepts(items[0], name, st, depth);
      if AddItemF(items[0], name, st, depth).Ok? {
        AddAllAccepts(items[1..], name, AddItemF(items[0], name, st, depth).value, depth);
      }
    }
  }

  lemma {:induction false} AddItemAccepts(item: Item, name: bytes, st: Progress, depth: nat)
    requires st.total <= MAX_TRANSFER
    ensures AddItemF(item, name, st, depth).Ok? <==>
              AdmissibleItem(item, |name|, depth) && HasRoom(st, EntriesOf(item), ContentOf(item))
    ensures AddItemF(item, name, st, depth).Ok? ==>
              && AddItemF(item, name, st, depth).value.count == st.count + EntriesOf(item)
              && AddItemF(item, name, st, depth).value.total == st.total + ContentOf(item)
    decreases item, 1
  {
    hide AddF, Admissible, Entries, Content, GoodName, Sendable;
    SendableMeans(item.name);
    AddAccepts(item.node, name + [SLASH] + item.name, st, depth + 1);
  }

  ghost predicate Selectable(items: seq<Item>, names: set<bytes>) {
    && (forall i :: 0 <= i < |items| ==>
          && GoodName(items[i].name) && items[i].name !in names
          && Admissible(items[i].node, 2 + |items[i].name|, 0))
    && forall i, j :: 0 <= i < j < |items| ==> items[i].name != items[j].name
  }

  lemma {:induction false} AddSelectedAccepts(items: seq<Item>, names: set<bytes>, st: Progress)
    requires st.total <= MAX_TRANSFER && st.count < MAX_ENTRIES
    ensures AddSelectedF(items, names, st).Ok? <==>
              Selectable(items, names) && HasRoom(st, EntriesIn(items), ContentIn(items))
    decreases |items|
  {
    hide AddF, Admissible, Entries, Content, GoodName, Sendable;
    if items != [] {
      var item := items[0];
      SendableMeans(item.name);
      TopName(item.name);
      AddAccepts(item.node, NameOf([item.name]), st, 0);
      SelectableCons(items, names);
      assert EntriesOf(item) == Entries(item.node) && ContentOf(item) == Content(item.node);
      if AddF(item.node, NameOf([item.name]), st, 0).Ok? {
        AddSelectedAccepts(items[1..], names + {item.name}, AddF(item.node, NameOf([item.name]), st, 0).value);
      }
    }
  }

  lemma TopName(name: bytes)
    ensures |NameOf([name])| == 2 + |name|
  {
    assert Tail([name]) == [SLASH] + name + Tail([name][1..]) && [name][1..] == [];
  }

  lemma SelectableCons(items: seq<Item>, names: set<bytes>)
    requires items != []
    ensures Selectable(items, names) <==>
              && GoodName(items[0].name) && items[0].name !in names
              && Admissible(items[0].node, 2 + |items[0].name|, 0)
              && Selectable(items[1..], names + {items[0].name})
  {
    hide GoodName, Admissible;
    var rest := items[1..];
    assert forall i :: 0 <= i < |rest| ==> rest[i] == items[i + 1];
    if Selectable(rest, names + {items[0].name}) {
      forall i | 0 < i < |items|
        ensures items[i] == rest[i - 1]
      {
      }
    }
  }

  /** The sender takes a selection exactly if it has 1 to 4096 items with good and different names, everything in it is
      admissible, and it comes to fewer than 65536 entries and at most 32 GiB. */
  lemma SelectionAccepted(items: seq<Item>)
    ensures CpioF(items).Ok? <==>
              1 <= |items| <= 4096 && Selectable(items, {}) && EntriesIn(items) < 65536
                && ContentIn(items) <= 0x8_0000_0000
  {
    hide AddSelectedF, Selectable, EntriesIn, ContentIn;
    AddSelectedAccepts(items, {}, NOTHING);
  }
}

/** The Universal Clipboard exchange over an established session (src/companion_client.rs): system information out
    and back, then the pasteboard. */
module Pasteboards {
  import opened Bytes
  import opened Crypto
  import opened ContentChannel
  import opened OpackValue
  import opened Continuity
  import OpackEncode
  import OpackDecode
  import OpackLimits
  import PairVerify
  import Utf8

  const K_TYPE: bytes := [0x5f, 0x74]                              // _t
  const K_ID: bytes := [0x5f, 0x69]                                // _i
  const K_XID: bytes := [0x5f, 0x78]                               // _x
  const K_NAME: bytes := [0x6e, 0x61, 0x6d, 0x65]                  // name
  const K_MODEL: bytes := [0x6d, 0x6f, 0x64, 0x65, 0x6c]           // model
  const K_OS: bytes := [0x6f, 0x73]                                // os
  const K_ITEMS: bytes := [0x69, 0x74, 0x65, 0x6d, 0x73]           // items
  const K_UTI: bytes := [0x74, 0x79, 0x70, 0x65]                   // type
  const K_DATA: bytes := [0x64, 0x61, 0x74, 0x61]                  // data
  const SEL_SYSTEM_INFO: bytes := [0x53, 0x79, 0x73, 0x74, 0x65, 0x6d, 0x49, 0x6e, 0x66, 0x6f]
  const SEL_FETCH: bytes := [0x46, 0x65, 0x74, 0x63, 0x68, 0x50, 0x61, 0x73, 0x74, 0x65, 0x62, 0x6f, 0x61, 0x72, 0x64]
  const MSG_REQUEST: nat := 1
  const MSG_RESPONSE: nat := 2

  datatype SystemInfo = SystemInfo(name: bytes, model: bytes, os: bytes)

  datatype Item = Item(uti: bytes, data: bytes)

  datatype Fault = Wire(e: Continuity.Error) | NoItems | NotAList | BadItem(index: nat)

  function InfoValue(info: SystemInfo, kind: nat): Value {
    Dict([
      Entry(Str(K_TYPE), Int(kind)), Entry(Str(K_ID), Str(SEL_SYSTEM_INFO)),
      Entry(Str(K_NAME), Str(info.name)), Entry(Str(K_MODEL), Str(info.model)), Entry(Str(K_OS), Str(info.os))])
  }

  function Text(v: Value, key: bytes): bytes {
    var x := PairVerify.Get(v, key);
    if x.Some? && x.value.Str? then x.value.s else []
  }

  /** A missing or mistyped field reads as empty. */
  function InfoOf(v: Value): SystemInfo {
    SystemInfo(Text(v, K_NAME), Text(v, K_MODEL), Text(v, K_OS))
  }

  function Request(xid: nat): Value {
    Dict([Entry(Str(K_TYPE), Int(MSG_REQUEST)), Entry(Str(K_ID), Str(SEL_FETCH)), Entry(Str(K_XID), Int(xid))])
  }

  function ItemValue(it: Item): Value {
    Dict([Entry(Str(K_UTI), Str(it.uti)), Entry(Str(K_DATA), Data(it.data))])
  }

  function ItemValues(board: seq<Item>): (r: seq<Value>)
    ensures |r| == |board| && forall i :: 0 <= i < |r| ==> r[i] == ItemValue(board[i])
  {
    if board == [] then [] else [ItemValue(board[0])] + ItemValues(board[1..])
  }

  function Response(xid: nat, board: seq<Item>): Value {
    Dict([Entry(Str(K_TYPE), Int(MSG_RESPONSE)), Entry(Str(K_XID), Int(xid)),
          Entry(Str(K_ITEMS), Array(ItemValues(board)))])
  }

  function ItemOf(v: Value): Option<Item> {
    var uti, data := PairVerify.Get(v, K_UTI), PairVerify.Get(v, K_DATA);
    if uti.Some? && uti.value.Str? && data.Some? && data.value.Data?
    then Some(Item(uti.value.s, data.value.b)) else None
  }

  /** The first item that is not one, or all of them, read. */
  function ItemsOf(items: seq<Value>): Result<seq<Item>, Fault> {
    if items == [] then Ok([])
    else match ItemsOf(items[..|items| - 1])
      case Err(e) => Err(e)
      case Ok(done) =>
        match ItemOf(items[|items| - 1])
        case None => Err(BadItem(|items| - 1))
        case Some(it) => Ok(done + [it])
  }

  function BoardOf(v: Value): Result<seq<Item>, Fault> {
    match PairVerify.Get(v, K_ITEMS)
    case None => Err(NoItems)
    case Some(list) => if list.Array? then ItemsOf(list.items) else Err(NotAList)
  }

  /** `parse_pasteboard_response`. */
  method ParseResponse(v: Value) returns (r: Result<seq<Item>, Fault>)
    ensures r == BoardOf(v)
  {
    var list := PairVerify.Get(v, K_ITEMS);
    if list.None? {
      return Err(NoItems);
    }
    if !list.value.Array? {
      return Err(NotAList);
    }
    var values := list.value.items;
    var items: seq<Item> := [];
    for i := 0 to |values|
      invariant ItemsOf(values[..i]) == Ok(items)
    {
      TakeOneMore(values, i);
      assert values[..i + 1][..i] == values[..i];
      var it := ItemOf(values[i]);
      if it.None? {
        FirstBadItem(values, i);
        return Err(BadItem(i));
      }
      items := items + [it.value];
    }
    TakeAll(values);
    r := Ok(items);
  }

  lemma {:induction false} FirstBadItem(values: seq<Value>, i: nat)
    requires i < |values| && ItemsOf(values[..i]).Ok? && ItemOf(values[i]).None?
    ensures ItemsOf(values) == Err(BadItem(i))
    decreases |values|
  {
    if i == |values| - 1 {
    } else {
      var shorter := values[..|values| - 1];
      assert shorter[..i] == values[..i];
      FirstBadItem(shorter, i);
    }
  }

  // ----- the client and the peer -----

  class Session {
    const stream: Stream
    const channel: Channel
    var xid: nat

    constructor (stream: Stream, channel: Channel)
      ensures this.stream == stream && this.channel == channel && xid == 1
    {
      this.stream, this.channel, this.xid := stream, channel, 1;
    }

    /** `system_info_exchange`. */
    method ExchangeInfo(ours: SystemInfo) returns (r: Result<SystemInfo, Fault>)
      requires stream.Valid()
      modifies stream, channel
      ensures stream.Valid()
      ensures var q := AskF(channel.aead, old(channel.Now()), InfoValue(ours, MSG_REQUEST), stream.input,
                            old(stream.pos));
              && channel.Now() == q.channel && stream.output == old(stream.output) + q.sent
              && match q.answer
                 case Err(e) => r == Err(e)
                 case Ok((v, end)) => r == Ok(InfoOf(v)) && stream.pos == end
    {
      var answer := Ask(InfoValue(ours, MSG_REQUEST));
      if answer.Err? {
        return Err(answer.error);
      }
      r := Ok(InfoOf(answer.value));
    }

    /** `fetch_pasteboard`. */
    method Fetch() returns (r: Result<seq<Item>, Fault>)
      requires stream.Valid()
      modifies this, stream, channel
      ensures stream.Valid() && xid == old(xid) + 1
      ensures var q := AskF(channel.aead, old(channel.Now()), Request(old(xid)), stream.input, old(stream.pos));
              && channel.Now() == q.channel && stream.output == old(stream.output) + q.sent
              && match q.answer case Err(e) => r == Err(e) case Ok((v, end)) => r == BoardOf(v) && stream.pos == end
    {
      var x := xid;
      xid := xid + 1;
      var answer := Ask(Request(x));
      if answer.Err? {
        return Err(answer.error);
      }
      r := ParseResponse(answer.value);
    }

    method Ask(v: Value) returns (r: Result<Value, Fault>)
      requires stream.Valid()
      modifies stream, channel
      ensures stream.Valid()
      ensures var q := AskF(channel.aead, old(channel.Now()), v, stream.input, old(stream.pos));
              && channel.Now() == q.channel && stream.output == old(stream.output) + q.sent
              && match r case Err(e) => q.answer == Err(e) case Ok(x) => q.answer == Ok((x, stream.pos))
    {
      hide SendF, RecvF;
      var sent := stream.SendOpack(channel, v);
      if sent.Err? {
        return Err(Wire(sent.error));
      }
      var answer := stream.RecvOpack(channel);
      r := match answer case Err(e) => Err(Wire(e)) case Ok(x) => Ok(x);
    }
  }

  datatype Asked = Asked(sent: bytes, answer: Result<(Value, nat), Fault>, channel: Ends)

  /** Send a value, then read the answer from `pos` on. */
  function AskF(a: Aead, ch: Ends, v: Value, input: bytes, pos: nat): Asked
    requires pos <= |input|
  {
    var (w, next) := SendF(a, ch, v);
    match w
    case Err(e) => Asked([], Err(Wire(e)), next)
    case Ok(sent) =>
      var (x, last) := RecvF(a, next, input, pos);
      Asked(sent, match x case Err(e) => Err(Wire(e)) case Ok(y) => Ok(y), last)
  }

  /** What the peer answers to a pasteboard request. */
  function Answer(request: Value, board: seq<Item>): Value {
    var x := PairVerify.Get(request, K_XID);
    Response(if x.Some? && x.value.Int? then x.value.n else 0, board)
  }

  /** What the peer's side comes to: its outcome, all it wrote, on failure too, and its channel afterwards. */
  datatype Served = Served(outcome: Result<(), Fault>, sent: bytes, channel: Ends)

  /** The peer's side of the session: read P1, write P2, read P3, write P4. */
  method Serve(stream: Stream, ch: Channel, info: SystemInfo, board: seq<Item>) returns (r: Result<(), Fault>)
    requires stream.Valid()
    modifies stream, ch
    ensures stream.Valid()
    ensures var q := ServeF(ch.aead, old(ch.Now()), info, board, stream.input, old(stream.pos));
            && r == q.outcome && stream.output == old(stream.output) + q.sent && ch.Now() == q.channel
  {
    hide SendF, RecvF, InfoValue, Answer;
    var p1 := stream.RecvOpack(ch);
    if p1.Err? {
      return Err(Wire(p1.error));
    }
    ghost var c1 := ch.Now();
    var p2 := stream.SendOpack(ch, InfoValue(info, MSG_RESPONSE));
    assert p2.Err? ==> SendF(ch.aead, c1, InfoValue(info, MSG_RESPONSE)).0 == Err(p2.error);
    if p2.Err? {
      return Err(Wire(p2.error));
    }
    var p3 := stream.RecvOpack(ch);
    if p3.Err? {
      return Err(Wire(p3.error));
    }
    ghost var c3 := ch.Now();
    var p4 := stream.SendOpack(ch, Answer(p3.value, board));
    assert p4.Err? ==> SendF(ch.aead, c3, Answer(p3.value, board)).0 == Err(p4.error);
    r := match p4 case Err(e) => Err(Wire(e)) case Ok(_) => Ok(());
  }

  function ServeF(a: Aead, ch: Ends, info: SystemInfo, board: seq<Item>, input: bytes, pos: nat): Served
    requires pos <= |input|
  {
    var (p1, c1) := RecvF(a, ch, input, pos);
    if p1.Err? then Served(Err(Wire(p1.error)), [], c1) else
    var (p2, c2) := SendF(a, c1, InfoValue(info, MSG_RESPONSE));
    if p2.Err? then Served(Err(Wire(p2.error)), [], c2) else
    var (p3, c3) := RecvF(a, c2, input, p1.value.1);
    if p3.Err? then Served(Err(Wire(p3.error)), p2.value, c3) else
    var (p4, c4) := SendF(a, c3, Answer(p3.value.0, board));
    if p4.Err? then Served(Err(Wire(p4.error)), p2.value, c4) else Served(Ok(()), p2.value + p4.value, c4)
  }

  // ----- what is written is what is read -----

  lemma Skip(pairs: seq<Entry>, key: bytes)
    requires pairs != [] && pairs[0].key != Str(key)
    ensures PairVerify.GetPair(pairs, key) == PairVerify.GetPair(pairs[1..], key)
  {
  }

  lemma KeysDiffer()
    ensures K_TYPE != K_ID && K_TYPE != K_XID && K_ID != K_XID && K_OS != K_TYPE && K_OS != K_ID
  {
    assert K_TYPE[1] != K_ID[1] && K_TYPE[1] != K_XID[1] && K_ID[1] != K_XID[1] && K_OS[0] != K_TYPE[0]
           && K_OS[0] != K_ID[0];
  }

  /** The value at the first pair with the key. */
  lemma {:induction false} GetAt(pairs: seq<Entry>, key: bytes, k: nat)
    requires k < |pairs| && pairs[k].key == Str(key) && forall i :: 0 <= i < k ==> pairs[i].key != Str(key)
    ensures PairVerify.GetPair(pairs, key) == Some(pairs[k].value)
    decreases k
  {
    if k > 0 {
      Skip(pairs, key);
      GetAt(pairs[1..], key, k - 1);
    }
  }

  lemma InfoIsRead(info: SystemInfo, kind: nat)
    ensures InfoOf(InfoValue(info, kind)) == info
  {
    var v := InfoValue(info, kind);
    KeysDiffer();
    assert |K_NAME| != |K_MODEL| && |K_NAME| != |K_OS| && |K_MODEL| != |K_OS| && |K_TYPE| == |K_ID| == |K_OS| == 2;
    hide PairVerify.GetPair;
    GetAt(v.pairs, K_NAME, 2);
    GetAt(v.pairs, K_MODEL, 3);
    GetAt(v.pairs, K_OS, 4);
  }

  lemma ItemIsRead(it: Item)
    ensures ItemOf(ItemValue(it)) == Some(it)
  {
    var pairs := ItemValue(it).pairs;
    assert K_UTI[0] != K_DATA[0];
    hide PairVerify.GetPair;
    GetAt(pairs, K_UTI, 0);
    GetAt(pairs, K_DATA, 1);
  }

  lemma PrefixValues(board: seq<Item>, n: nat)
    requires n <= |board|
    ensures ItemValues(board)[..n] == ItemValues(board[..n])
  {
    hide ItemValue;
  }

  lemma {:induction false} ItemsAreRead(board: seq<Item>)
    ensures ItemsOf(ItemValues(board)) == Ok(board)
    decreases |board|
  {
    if board != [] {
      hide ItemOf, ItemValue, ItemValues;
      var n := |board| - 1;
      ItemIsRead(board[n]);
      ItemsAreRead(board[..n]);
      PrefixValues(board, n);
      assert board[..n] + [board[n]] == board;
    }
  }

  lemma BoardIsRead(xid: nat, board: seq<Item>)
    ensures BoardOf(Response(xid, board)) == Ok(board)
  {
    hide PairVerify.GetPair;
    assert |K_ITEMS| != |K_TYPE| && |K_ITEMS| != |K_XID|;
    GetAt(Response(xid, board).pairs, K_ITEMS, 2);
    ItemsAreRead(board);
  }

  lemma RequestIsAnswered(xid: nat, board: seq<Item>)
    ensures Answer(Request(xid), board) == Response(xid, board)
  {
    hide PairVerify.GetPair;
    KeysDiffer();
    GetAt(Request(xid).pairs, K_XID, 2);
  }

  // ----- the sizes -----

  lemma PairsOf(pairs: seq<Entry>)
    requires pairs != []
    ensures NodesPairs(pairs) == NodesEntry(pairs[0]) + NodesPairs(pairs[1..])
    ensures NestPairs(pairs) == Max(NestEntry(pairs[0]), NestPairs(pairs[1..]))
    ensures NodesPairs([]) == 0 && NestPairs([]) == 0
  {
  }

  predicate EntryOk(e: Entry) {
    WellFormed(e.key) && WellFormed(e.value)
  }

  lemma TwoEntries(a: Entry, b: Entry)
    requires EntryOk(a) && EntryOk(b)
    ensures WellFormed(Dict([a, b])) && Nodes(Dict([a, b])) == 1 + NodesEntry(a) + NodesEntry(b)
    ensures Nest(Dict([a, b])) == 1 + Max(NestEntry(a), NestEntry(b))
  {
    PairsOf([a, b]);
    PairsOf([b]);
    assert [a, b][1..] == [b] && [b][1..] == [];
  }

  lemma ThreeEntries(a: Entry, b: Entry, c: Entry)
    requires EntryOk(a) && EntryOk(b) && EntryOk(c)
    ensures WellFormed(Dict([a, b, c])) && Nodes(Dict([a, b, c])) == 1 + NodesEntry(a) + NodesEntry(b) + NodesEntry(c)
    ensures Nest(Dict([a, b, c])) == 1 + Max(NestEntry(a), Max(NestEntry(b), NestEntry(c)))
  {
    PairsOf([a, b, c]);
    TwoEntries(b, c);
    assert [a, b, c][1..] == [b, c];
  }

  lemma FiveEntries(a: Entry, b: Entry, c: Entry, d: Entry, e: Entry)
    requires EntryOk(a) && EntryOk(b) && EntryOk(c) && EntryOk(d) && EntryOk(e)
    ensures WellFormed(Dict([a, b, c, d, e]))
    ensures Nodes(Dict([a, b, c, d, e]))
              == 1 + NodesEntry(a) + NodesEntry(b) + NodesEntry(c) + NodesEntry(d) + NodesEntry(e)
    ensures Nest(Dict([a, b, c, d, e]))
              == 1 + Max(NestEntry(a), Max(NestEntry(b), Max(NestEntry(c), Max(NestEntry(d), NestEntry(e)))))
  {
    ThreeEntries(c, d, e);
    OneMoreEntry(b, [c, d, e]);
    OneMoreEntry(a, [b] + [c, d, e]);
    assert [a, b, c, d, e] == [a] + ([b] + [c, d, e]);
    hide WellFormed, Nodes, Nest, EntryOk;
  }

  lemma OneMoreEntry(e: Entry, rest: seq<Entry>)
    requires EntryOk(e) && WellFormed(Dict(rest))
    ensures WellFormed(Dict([e] + rest)) && Nodes(Dict([e] + rest)) == NodesEntry(e) + Nodes(Dict(rest))
    ensures Nest(Dict([e] + rest)) == 1 + Max(NestEntry(e), Nest(Dict(rest)) - 1)
  {
    PairsOf([e] + rest);
    assert ([e] + rest)[1..] == rest;
  }

  lemma IntEntry(key: bytes, n: nat)
    requires Utf8.Valid(key) && n <= U64_MAX
    ensures EntryOk(Entry(Str(key), Int(n))) && NodesEntry(Entry(Str(key), Int(n))) == 2
              && NestEntry(Entry(Str(key), Int(n))) == 0
  {
  }

  lemma TextEntry(key: bytes, t: bytes)
    requires Utf8.Valid(key) && Utf8.Valid(t)
    ensures EntryOk(Entry(Str(key), Str(t))) && NodesEntry(Entry(Str(key), Str(t))) == 2
              && NestEntry(Entry(Str(key), Str(t))) == 0
  {
  }

  lemma DataEntry(key: bytes, b: bytes)
    requires Utf8.Valid(key)
    ensures EntryOk(Entry(Str(key), Data(b))) && NodesEntry(Entry(Str(key), Data(b))) == 2
              && NestEntry(Entry(Str(key), Data(b))) == 0
  {
  }

  lemma KeysAreText()
    ensures Utf8.Valid(K_TYPE) && Utf8.Valid(K_ID) && Utf8.Valid(K_XID) && Utf8.Valid(K_ITEMS) && Utf8.Valid(K_UTI)
            && Utf8.Valid(K_DATA)
    ensures Utf8.Valid(K_NAME) && Utf8.Valid(K_MODEL) && Utf8.Valid(K_OS)
    ensures Utf8.Valid(SEL_SYSTEM_INFO) && Utf8.Valid(SEL_FETCH)
  {
    hide Utf8.Decode;
    Utf8.AsciiIsValid(K_TYPE);
    Utf8.AsciiIsValid(K_ID);
    Utf8.AsciiIsValid(K_XID);
    Utf8.AsciiIsValid(K_ITEMS);
    Utf8.AsciiIsValid(K_UTI);
    Utf8.AsciiIsValid(K_DATA);
    Utf8.AsciiIsValid(K_NAME);
    Utf8.AsciiIsValid(K_MODEL);
    Utf8.AsciiIsValid(K_OS);
    Utf8.AsciiIsValid(SEL_SYSTEM_INFO);
    Utf8.AsciiIsValid(SEL_FETCH);
  }

  lemma ItemMeasures(it: Item)
    requires Utf8.Valid(it.uti)
    ensures WellFormed(ItemValue(it)) && Nodes(ItemValue(it)) == 5 && Nest(ItemValue(it)) == 1
  {
    hide WellFormed, Nodes, Nest, EntryOk, NodesEntry, NestEntry, Utf8.Valid;
    KeysAreText();
    TextEntry(K_UTI, it.uti);
    DataEntry(K_DATA, it.data);
    TwoEntries(Entry(Str(K_UTI), Str(it.uti)), Entry(Str(K_DATA), Data(it.data)));
  }

  lemma {:induction false} ItemsMeasures(board: seq<Item>)
    requires forall it :: it in board ==> Utf8.Valid(it.uti)
    ensures forall i :: 0 <= i < |board| ==> WellFormed(ItemValues(board)[i])
    ensures NodesAll(ItemValues(board)) == 5 * |board| && NestAll(ItemValues(board)) <= 1
  {
    if board != [] {
      hide Utf8.Valid, Nodes, Nest, WellFormed;
      ItemMeasures(board[0]);
      ItemsMeasures(board[1..]);
      assert ItemValues(board)[1..] == ItemValues(board[1..]);
    }
  }

  lemma ResponseMeasures(xid: nat, board: seq<Item>)
    requires xid <= U64_MAX && forall it :: it in board ==> Utf8.Valid(it.uti)
    ensures WellFormed(Response(xid, board)) && Nest(Response(xid, board)) <= 3
    ensures Nodes(Response(xid, board)) == 7 + 5 * |board|
  {
    hide WellFormed, Nodes, Nest, EntryOk, NodesEntry, NestEntry, Utf8.Valid;
    KeysAreText();
    IntEntry(K_TYPE, MSG_RESPONSE);
    IntEntry(K_XID, xid);
    ItemsMeasures(board);
    ListEntry(K_ITEMS, ItemValues(board));
    ThreeEntries(Entry(Str(K_TYPE), Int(MSG_RESPONSE)), Entry(Str(K_XID), Int(xid)),
                 Entry(Str(K_ITEMS), Array(ItemValues(board))));
  }

  lemma ListEntry(key: bytes, items: seq<Value>)
    requires Utf8.Valid(key) && forall i :: 0 <= i < |items| ==> WellFormed(items[i])
    ensures EntryOk(Entry(Str(key), Array(items)))
    ensures NodesEntry(Entry(Str(key), Array(items))) == 2 + NodesAll(items)
    ensures NestEntry(Entry(Str(key), Array(items))) <= 1 + NestAll(items)
  {
  }

  lemma RequestMeasures(xid: nat)
    requires xid <= U64_MAX
    ensures Decodable(Request(xid))
  {
    hide WellFormed, Nodes, Nest, EntryOk, NodesEntry, NestEntry, Utf8.Valid;
    KeysAreText();
    IntEntry(K_TYPE, MSG_REQUEST);
    TextEntry(K_ID, SEL_FETCH);
    IntEntry(K_XID, xid);
    ThreeEntries(Entry(Str(K_TYPE), Int(MSG_REQUEST)), Entry(Str(K_ID), Str(SEL_FETCH)), Entry(Str(K_XID), Int(xid)));
  }

  lemma InfoMeasures(info: SystemInfo, kind: nat)
    requires kind <= U64_MAX && Utf8.Valid(info.name) && Utf8.Valid(info.model) && Utf8.Valid(info.os)
    ensures Decodable(InfoValue(info, kind))
  {
    hide WellFormed, Nodes, Nest, EntryOk, NodesEntry, NestEntry, Utf8.Valid;
    KeysAreText();
    IntEntry(K_TYPE, kind);
    TextEntry(K_ID, SEL_SYSTEM_INFO);
    TextEntry(K_NAME, info.name);
    TextEntry(K_MODEL, info.model);
    TextEntry(K_OS, info.os);
    FiveEntries(Entry(Str(K_TYPE), Int(kind)), Entry(Str(K_ID), Str(SEL_SYSTEM_INFO)),
                Entry(Str(K_NAME), Str(info.name)),
                Entry(Str(K_MODEL), Str(info.model)), Entry(Str(K_OS), Str(info.os)));
  }

  // ----- what reaches the other side -----

  const MAX_ITEMS: nat := 13105

  /** The response to a fetch arrives, intact, exactly when the pasteboard has at most 13105 items and its encoding
      leaves room for the tag under the reader's cap of 4 MiB. */
  lemma ResponseArrives(a: Aead, peer: Ends, client: Ends, xid: nat, board: seq<Item>, data: bytes, pos: nat)
    requires a.Lawful() && InStep(peer, client) && xid <= U64_MAX && forall it :: it in board ==> Utf8.Valid(it.uti)
    requires SendF(a, peer, Response(xid, board)).0.Ok? && At(data, pos, SendF(a, peer, Response(xid, board)).0.value)
    ensures var v := Response(xid, board); var got := RecvF(a, client, data, pos).0;
            && (got.Ok? && got.value.0 == v <==> |board| <= MAX_ITEMS && |OpackEncode.Enc(v)| <= MAX_PACKET_BODY - TAG)
            && (got.Ok? && got.value.0 == v ==>
                  (BoardOf(got.value.0) == Ok(board) && got.value.1 == pos + |SendF(a, peer, v).0.value|
                   && InStep(SendF(a, peer, v).1, RecvF(a, client, data, pos).1)))
  {
    var v := Response(xid, board);
    ResponseMeasures(xid, board);
    BoardIsRead(xid, board);
    if |board| <= MAX_ITEMS {
      OneMessage(a, peer, client, v, data, pos);
    } else {
      ReceivedIsSmall(a, client, data, pos);
    }
  }

  lemma ReceivedIsSmall(a: Aead, client: Ends, data: bytes, pos: nat)
    requires pos <= |data|
    ensures RecvF(a, client, data, pos).0.Ok? ==> Nodes(RecvF(a, client, data, pos).0.value.0) <= OpackDecode.MAX_NODES
  {
    hide OpackDecode.DecodeF, ReadF;
    if RecvF(a, client, data, pos).0.Ok? {
      var p := ReadF(data, pos).value.0;
      var h := Header(p.ptype, |p.body|).value;
      OpackLimits.AcceptedWithinLimits(DecryptF(a, client, p.body, h).0.value);
    }
  }

  /** The value is accepted by the decoder and its encoding fits a packet. */
  ghost predicate Fits(v: Value) {
    Decodable(v) && |OpackEncode.Enc(v)| <= MAX_PACKET_BODY - TAG
  }

  // ----- sizes for which everything fits -----

  /** What the fixed parts of a message take at most. */
  const OVERHEAD: nat := 100

  lemma EncPairsOf(pairs: seq<Entry>)
    requires pairs != []
    ensures |OpackEncode.EncPairs(pairs)| == |OpackEncode.EncEntry(pairs[0])| + |OpackEncode.EncPairs(pairs[1..])|
    ensures OpackEncode.EncPairs([]) == []
  {
  }

  lemma EncTwo(a: Entry, b: Entry)
    ensures |OpackEncode.Enc(Dict([a, b]))| == 1 + |OpackEncode.EncEntry(a)| + |OpackEncode.EncEntry(b)|
  {
    EncPairsOf([a, b]);
    EncPairsOf([b]);
    assert [a, b][1..] == [b] && [b][1..] == [];
  }

  lemma EncThree(a: Entry, b: Entry, c: Entry)
    ensures |OpackEncode.Enc(Dict([a, b, c]))|
              == 1 + |OpackEncode.EncEntry(a)| + |OpackEncode.EncEntry(b)| + |OpackEncode.EncEntry(c)|
  {
    EncPairsOf([a, b, c]);
    EncTwo(b, c);
    assert [a, b, c][1..] == [b, c];
  }

  lemma EncFive(a: Entry, b: Entry, c: Entry, d: Entry, e: Entry)
    ensures |OpackEncode.Enc(Dict([a, b, c, d, e]))| == 1 + |OpackEncode.EncEntry(a)| + |OpackEncode.EncEntry(b)|
              + |OpackEncode.EncEntry(c)| + |OpackEncode.EncEntry(d)| + |OpackEncode.EncEntry(e)|
  {
    EncPairsOf([a, b, c, d, e]);
    EncPairsOf([b, c, d, e]);
    EncThree(c, d, e);
    assert [a, b, c, d, e][1..] == [b, c, d, e] && [b, c, d, e][1..] == [c, d, e];
  }

  lemma TextSize(key: bytes, t: bytes)
    requires |key| <= 32
    ensures |OpackEncode.EncEntry(Entry(Str(key), Str(t)))| <= 1 + |key| + 5 + |t|
  {
  }

  lemma IntSize(key: bytes, n: nat)
    requires |key| <= 32
    ensures |OpackEncode.EncEntry(Entry(Str(key), Int(n)))| <= 1 + |key| + 9
  {
  }

  lemma DataSize(key: bytes, b: bytes)
    requires |key| <= 32
    ensures |OpackEncode.EncEntry(Entry(Str(key), Data(b)))| <= 1 + |key| + 9 + |b|
  {
  }

  /** What a pasteboard's items take at most. */
  function Volume(board: seq<Item>): nat {
    if board == [] then 0 else 25 + |board[0].uti| + |board[0].data| + Volume(board[1..])
  }

  lemma ItemSize(it: Item)
    ensures |OpackEncode.Enc(ItemValue(it))| <= 25 + |it.uti| + |it.data|
  {
    hide OpackEncode.Enc, OpackEncode.EncEntry;
    EncTwo(Entry(Str(K_UTI), Str(it.uti)), Entry(Str(K_DATA), Data(it.data)));
    TextSize(K_UTI, it.uti);
    DataSize(K_DATA, it.data);
  }

  lemma {:induction false} ItemsSize(board: seq<Item>)
    ensures |OpackEncode.EncAll(ItemValues(board))| <= Volume(board)
  {
    if board != [] {
      hide OpackEncode.Enc;
      ItemSize(board[0]);
      ItemsSize(board[1..]);
      assert ItemValues(board)[1..] == ItemValues(board[1..]);
    }
  }

  lemma ListSize(key: bytes, items: seq<Value>)
    requires |key| <= 32
    ensures |OpackEncode.EncEntry(Entry(Str(key), Array(items)))| <= 1 + |key| + 2 + |OpackEncode.EncAll(items)|
  {
  }

  /** A fetch request always fits. */
  lemma RequestFits(xid: nat)
    requires xid <= U64_MAX
    ensures Fits(Request(xid))
  {
    hide Decodable, OpackEncode.Enc, OpackEncode.EncEntry;
    RequestMeasures(xid);
    EncThree(Entry(Str(K_TYPE), Int(MSG_REQUEST)), Entry(Str(K_ID), Str(SEL_FETCH)), Entry(Str(K_XID), Int(xid)));
    IntSize(K_TYPE, MSG_REQUEST);
    TextSize(K_ID, SEL_FETCH);
    IntSize(K_XID, xid);
  }

  lemma InfoFits(info: SystemInfo, kind: nat)
    requires kind <= U64_MAX && Utf8.Valid(info.name) && Utf8.Valid(info.model) && Utf8.Valid(info.os)
    requires OVERHEAD + |info.name| + |info.model| + |info.os| <= MAX_PACKET_BODY - TAG
    ensures Fits(InfoValue(info, kind))
  {
    hide Decodable, OpackEncode.Enc, OpackEncode.EncEntry;
    InfoMeasures(info, kind);
    EncFive(Entry(Str(K_TYPE), Int(kind)), Entry(Str(K_ID), Str(SEL_SYSTEM_INFO)), Entry(Str(K_NAME), Str(info.name)),
            Entry(Str(K_MODEL), Str(info.model)), Entry(Str(K_OS), Str(info.os)));
    IntSize(K_TYPE, kind);
    TextSize(K_ID, SEL_SYSTEM_INFO);
    TextSize(K_NAME, info.name);
    TextSize(K_MODEL, info.model);
    TextSize(K_OS, info.os);
  }

  lemma ResponseSize(xid: nat, board: seq<Item>)
    ensures |OpackEncode.Enc(Response(xid, board))| <= OVERHEAD + Volume(board)
  {
    hide OpackEncode.Enc, OpackEncode.EncEntry, OpackEncode.EncAll, Volume;
    var values := ItemValues(board);
    ItemsSize(board);
    hide ItemValues;
    EncThree(Entry(Str(K_TYPE), Int(MSG_RESPONSE)), Entry(Str(K_XID), Int(xid)), Entry(Str(K_ITEMS), Array(values)));
    IntSize(K_TYPE, MSG_RESPONSE);
    IntSize(K_XID, xid);
    ListSize(K_ITEMS, values);
  }

  lemma ResponseFits(xid: nat, board: seq<Item>)
    requires xid <= U64_MAX && |board| <= MAX_ITEMS && forall it :: it in board ==> Utf8.Valid(it.uti)
    requires OVERHEAD + Volume(board) <= MAX_PACKET_BODY - TAG
    ensures Fits(Response(xid, board))
  {
    hide OpackEncode.Enc, WellFormed, Nest, Nodes, Utf8.Valid, Volume, Response, ItemValues;
    ResponseMeasures(xid, board);
    ResponseSize(xid, board);
  }

  lemma SendSucceeds(a: Aead, ch: Ends, v: Value)
    requires a.Lawful() && Fits(v) && ch.encNonce < U64_MAX
    ensures SendF(a, ch, v).0.Ok? && SendF(a, ch, v).1 == ch.(encNonce := ch.encNonce + 1)
  {
    hide OpackEncode.Enc;
    var h := Header(EncryptedData, |OpackEncode.Enc(v)| + TAG).value;
    assert |a.seal(ch.encKey, Nonce(ch.encNonce), h, OpackEncode.Enc(v))| == |OpackEncode.Enc(v)| + TAG;
  }

  lemma RecvAdvances(a: Aead, ch: Ends, data: bytes, pos: nat)
    requires pos <= |data| && RecvF(a, ch, data, pos).0.Ok?
    ensures RecvF(a, ch, data, pos).1 == ch.(decNonce := ch.decNonce + 1)
  {
  }

  /** What crosses in a session: four packets, each side's two behind what that side had written before. */
  ghost predicate Exchanged(a: Aead, c: Ends, s: Ends, ours: SystemInfo, theirs: SystemInfo, board: seq<Item>, xid: nat,
                            toPeer: bytes, toClient: bytes, p1: bytes, p2: bytes, p3: bytes, p4: bytes) {
    && ServeF(a, s, theirs, board, toPeer + (p1 + p3), |toPeer|).outcome.Ok?
    && ServeF(a, s, theirs, board, toPeer + (p1 + p3), |toPeer|).sent == p2 + p4
    && var info := AskF(a, c, InfoValue(ours, MSG_REQUEST), toClient + (p2 + p4), |toClient|);
       && info.sent == p1 && info.answer.Ok? && info.answer.value.1 <= |toClient + (p2 + p4)|
         && InfoOf(info.answer.value.0) == theirs
       && var fetch := AskF(a, info.channel, Request(xid), toClient + (p2 + p4), info.answer.value.1);
          fetch.sent == p3 && fetch.answer.Ok? && BoardOf(fetch.answer.value.0) == Ok(board)
  }

  /** A whole session between a client and its peer on mirrored fresh channels: the peer reads what the client
      writes, the client reads what the peer writes, and ends up with the peer's information and its pasteboard. */
  lemma SessionDelivers(a: Aead, c: Ends, s: Ends, ours: SystemInfo, theirs: SystemInfo, board: seq<Item>, xid: nat,
                        toPeer: bytes, toClient: bytes)
    requires a.Lawful() && xid <= U64_MAX && InStep(c, s) && InStep(s, c) && c.encNonce == 0 && s.encNonce == 0
    requires Fits(InfoValue(ours, MSG_REQUEST)) && Fits(InfoValue(theirs, MSG_RESPONSE))
    requires Fits(Request(xid)) && Fits(Response(xid, board))
    ensures exists p1: bytes, p2: bytes, p3: bytes, p4: bytes ::
              Exchanged(a, c, s, ours, theirs, board, xid, toPeer, toClient, p1, p2, p3, p4)
  {
    hide SendF, RecvF, Fits, InfoValue, Request, Response, InfoOf, BoardOf, Answer;
    var v1, v2, v3, v4 := InfoValue(ours, MSG_REQUEST), InfoValue(theirs, MSG_RESPONSE), Request(xid),
      Response(xid, board);
    var c1, s1 := c.(encNonce := 1), s.(decNonce := 1);
    var s2, c2 := s1.(encNonce := 1), c1.(decNonce := 1);
    var c3, s3 := c2.(encNonce := 2), s2.(decNonce := 2);
    SendSucceeds(a, c, v1);
    SendSucceeds(a, s1, v2);
    SendSucceeds(a, c2, v3);
    SendSucceeds(a, s3, v4);
    var p1, p2, p3, p4 := SendF(a, c, v1).0.value, SendF(a, s1, v2).0.value, SendF(a, c2, v3).0.value,
      SendF(a, s3, v4).0.value;
    Lanes(toPeer, p1, p3);
    Lanes(toClient, p2, p4);
    Crosses(a, c, s, v1, toPeer + (p1 + p3), |toPeer|);
    Crosses(a, s1, c1, v2, toClient + (p2 + p4), |toClient|);
    Crosses(a, c2, s2, v3, toPeer + (p1 + p3), |toPeer| + |p1|);
    Crosses(a, s3, c3, v4, toClient + (p2 + p4), |toClient| + |p2|);
    RequestIsAnswered(xid, board);
    InfoIsRead(theirs, MSG_RESPONSE);
    BoardIsRead(xid, board);
    assert ServeF(a, s, theirs, board, toPeer + (p1 + p3), |toPeer|).outcome.Ok?;
    assert Exchanged(a, c, s, ours, theirs, board, xid, toPeer, toClient, p1, p2, p3, p4);
  }

  lemma Lanes(before: bytes, a: bytes, b: bytes)
    ensures At(before + (a + b), |before|, a) && At(before + (a + b), |before| + |a|, b)
  {
    var all := before + (a + b);
    assert all[|before|..|before| + |a|] == a && all[|before| + |a|..|before| + |a| + |b|] == b;
  }

  /** One value that fits, sent and received. */
  lemma Crosses(a: Aead, sender: Ends, receiver: Ends, v: Value, data: bytes, pos: nat)
    requires a.Lawful() && InStep(sender, receiver) && Fits(v)
    requires SendF(a, sender, v).0.Ok? && At(data, pos, SendF(a, sender, v).0.value)
    ensures RecvF(a, receiver, data, pos).0 == Ok((v, pos + |SendF(a, sender, v).0.value|))
    ensures RecvF(a, receiver, data, pos).1 == receiver.(decNonce := receiver.decNonce + 1)
  {
    hide SendF, OpackEncode.Enc;
    OneMessage(a, sender, receiver, v, data, pos);
    RecvAdvances(a, receiver, data, pos);
  }
}

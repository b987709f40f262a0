/** The layers together: a pasteboard pulled from an honest peer, and a selection uploaded over HTTP. */
module EndToEnd {
  import opened Bytes
  import opened Continuity
  import opened Crypto
  import PairVerify
  import Pasteboards
  import AuthLog
  import Sessions
  import Http
  import HttpGrammar
  import HttpReader
  import HttpText
  import HttpTheorems
  import Transfer
  import Dvzip
  import Publish
  import Sender
  import Receiver
  import Cpio
  import ArchiveRoundTrip
  import Utf8

  // ----- the companion link -----

  /** A packet that was delivered once is read wherever it stands. */
  lemma ReadWhere(p: Packet, data: bytes, pos: nat)
    requires PairVerify.Delivered(p) && At(data, pos, Serialize(p).value)
    ensures ReadF(data, pos) == Ok((p, pos + |Serialize(p).value|))
  {
    hide ReadF, Serialize;
    assert At(Serialize(p).value, 0, Serialize(p).value) by {
      assert Serialize(p).value[0..|Serialize(p).value|] == Serialize(p).value;
    }
    ReadSerialized(p, Serialize(p).value, 0);
    ReadSerialized(p, data, pos);
  }

  /** The bytes of the two handshake packets one side writes. */
  function Wires(a: Packet, b: Packet): bytes
    requires Serialize(a).Ok? && Serialize(b).Ok?
  {
    Serialize(a).value + Serialize(b).value
  }

  lemma BothStand(a: bytes, b: bytes, more: bytes)
    ensures At(a + b + more, 0, a) && At(a + b + more, |a|, b)
  {
    var all := a + b + more;
    assert all[0..|a|] == a && all[|a|..|a| + |b|] == b;
  }

  /** Strings, together under 4 MiB less what the message around them takes. */
  predicate InfoIsSmall(info: Pasteboards.SystemInfo) {
    && Utf8.Valid(info.name) && Utf8.Valid(info.model) && Utf8.Valid(info.os)
    && Pasteboards.OVERHEAD + |info.name| + |info.model| + |info.os| <= MAX_PACKET_BODY - TAG
  }

  predicate BoardIsSmall(board: seq<Pasteboards.Item>) {
    && |board| <= Pasteboards.MAX_ITEMS && (forall it :: it in board ==> Utf8.Valid(it.uti))
    && Pasteboards.OVERHEAD + Pasteboards.Volume(board) <= MAX_PACKET_BODY - TAG
  }

  /** What one side writes after the handshake, in two packets. */
  datatype Talk = Talk(first: bytes, second: bytes)

  /** Both drivers complete the handshake, each on what the other writes. */
  ghost predicate Connected(s: Suite, clientSecret: bytes, serverSecret: bytes, ci: PairVerify.Identity,
                            si: PairVerify.Identity, t: PairVerify.Transcript, toPeer: bytes, toClient: bytes,
                            morePeer: bytes, moreClient: bytes) {
    var c := PairVerify.ClientState(Some(clientSecret), s.publicOf(clientSecret), ci, None);
    var v := PairVerify.ServerState(Some(serverSecret), s.publicOf(serverSecret), si, None, None);
    && PairVerify.HandshakeF(s, c, toClient + moreClient) == PairVerify.Driven(Ok((t.client, |toClient|)), toPeer)
    && PairVerify.AnswerF(s, v, toPeer + morePeer) == PairVerify.Driven(Ok((t.server, |toPeer|)), toClient)
  }

  /** Whatever follows on the two streams, the messages of a completed exchange take both drivers through. */
  lemma DriversConnect(s: Suite, clientSecret: bytes, serverSecret: bytes, ci: PairVerify.Identity,
                       si: PairVerify.Identity, t: PairVerify.Transcript, morePeer: bytes, moreClient: bytes)
    requires PairVerify.Completes(s, clientSecret, serverSecret, ci, si, t)
    requires PairVerify.Delivered(t.m1) && PairVerify.Delivered(t.m2)
    requires PairVerify.Delivered(t.m3) && PairVerify.Delivered(t.m4)
    ensures Connected(s, clientSecret, serverSecret, ci, si, t, Wires(t.m1, t.m3), Wires(t.m2, t.m4), morePeer,
                      moreClient)
  {
    hide ReadF, Serialize, PairVerify.ProcessM1F, PairVerify.ProcessM2F, PairVerify.ProcessM3F, PairVerify.CheckM4F,
      PairVerify.Wrap, PairVerify.M1Items;
    var w1, w2 := Serialize(t.m1).value, Serialize(t.m2).value;
    var w3, w4 := Serialize(t.m3).value, Serialize(t.m4).value;
    BothStand(w1, w3, morePeer);
    BothStand(w2, w4, moreClient);
    ReadWhere(t.m1, w1 + w3 + morePeer, 0);
    ReadWhere(t.m3, w1 + w3 + morePeer, |w1|);
    ReadWhere(t.m2, w2 + w4 + moreClient, 0);
    ReadWhere(t.m4, w2 + w4 + moreClient, |w2|);
  }

  /** From two unconnected ends to the pasteboard: with an honest peer that lists the client's key as the client lists
      the peer's, and a pasteboard within the limits, the handshakes of both ends complete, each on the bytes the other
      writes, and the session behind them on the same streams returns the peer's information and its pasteboard. */
  lemma PullDelivers(s: Suite, clientSecret: bytes, serverSecret: bytes, ci: PairVerify.Identity,
                     si: PairVerify.Identity,
                     ours: Pasteboards.SystemInfo, theirs: Pasteboards.SystemInfo, board: seq<Pasteboards.Item>)
    returns (t: PairVerify.Transcript, toPeer: bytes, toClient: bytes, said: Talk, answered: Talk)
    requires s.Lawful()
    requires PairVerify.Lists(s, ci, si.signing) && PairVerify.Lists(s, si, ci.signing)
    requires !PairVerify.AllZero(s.agree(clientSecret, s.publicOf(serverSecret)))
    requires InfoIsSmall(ours) && InfoIsSmall(theirs) && BoardIsSmall(board)
    ensures PairVerify.Completes(s, clientSecret, serverSecret, ci, si, t)
    ensures Connected(s, clientSecret, serverSecret, ci, si, t, toPeer, toClient, said.first + said.second,
                      answered.first + answered.second)
    ensures Pasteboards.Exchanged(s.aead, t.client, t.server, ours, theirs, board, 1, toPeer, toClient,
                                  said.first, answered.first, said.second, answered.second)
  {
    hide Serialize, PairVerify.Completes, PairVerify.Delivered, Pasteboards.Exchanged, Pasteboards.Fits,
      Pasteboards.InfoValue, Pasteboards.Request, Pasteboards.Response, Connected;
    Pasteboards.InfoFits(ours, Pasteboards.MSG_REQUEST);
    Pasteboards.InfoFits(theirs, Pasteboards.MSG_RESPONSE);
    Pasteboards.RequestFits(1);
    Pasteboards.ResponseFits(1, board);
    t := PairVerify.HonestHandshake(s, clientSecret, serverSecret, ci, si);
    DeliveredIsSerialized(t);
    toPeer, toClient := Wires(t.m1, t.m3), Wires(t.m2, t.m4);
    Pasteboards.SessionDelivers(s.aead, t.client, t.server, ours, theirs, board, 1, toPeer, toClient);
    var p1, p2, p3, p4 :|
      Pasteboards.Exchanged(s.aead, t.client, t.server, ours, theirs, board, 1, toPeer, toClient, p1, p2, p3, p4);
    said, answered := Talk(p1, p3), Talk(p2, p4);
    DriversConnect(s, clientSecret, serverSecret, ci, si, t, p1 + p3, p2 + p4);
  }

  lemma DeliveredIsSerialized(t: PairVerify.Transcript)
    requires PairVerify.Delivered(t.m1) && PairVerify.Delivered(t.m2)
    requires PairVerify.Delivered(t.m3) && PairVerify.Delivered(t.m4)
    ensures Serialize(t.m1).Ok? && Serialize(t.m2).Ok? && Serialize(t.m3).Ok? && Serialize(t.m4).Ok?
  {
  }

  // ----- an upload -----

  /** A selection, packed, uploaded in any framing the reader takes, and unpacked: the receiver holds exactly the forest
      that was sent, and what follows the upload on the stream is left to be read. */
  lemma UploadDelivers(z: Dvzip.Zlib, items: seq<Sender.Item>, m: HttpTheorems.Message, more: bytes)
    requires z.Lawful() && Transfer.PrepareF(z, items).Some?
    requires forall i :: 0 <= i < |items| ==> ArchiveRoundTrip.WellNamedItem(items[i])
    requires HttpTheorems.WellFormed(m, true) && m.head.first.path == Http.Upload
    requires HttpTheorems.Content(m) == Transfer.PrepareF(z, items).value
    ensures var r := Http.RequestOf(HttpTheorems.Encode(m) + more, true, true);
            && r.Ok? && r.value.rest == more && r.value.value.body == [] && r.value.value.upload.Some?
            && var unpacked := Transfer.UnpackF(z, r.value.value.upload.value, Dvzip.DvzipType);
               && (unpacked.Some? <==> |Sender.CpioF(items).value| <= Cpio.MAX_TRANSFER
                                       && !ArchiveRoundTrip.AnyBidi(items) && ArchiveRoundTrip.FilesIn(items) > 0)
               && (unpacked.Some? ==> unpacked.value.staging == ArchiveRoundTrip.TreeOnto(map[], items))
  {
    hide Http.RequestOf, Http.HeadOf, HttpTheorems.WellFormed, Transfer.UnpackF, Transfer.PrepareF,
      ArchiveRoundTrip.AnyBidi,
      ArchiveRoundTrip.FilesIn, ArchiveRoundTrip.TreeOnto, Sender.CpioF;
    HttpTheorems.MessageIsRead(m, more, true);
    Transfer.SendThenReceive(z, items);
  }

  const CONTENT_TYPE: HttpText.Text := Http.Ascii("content-type")
  const CPIO: HttpText.Text := Http.Ascii("application/x-cpio")
  const DVZIP: HttpText.Text := Http.Ascii("application/x-dvzip")
  const SEMICOLON: nat := 0x3b

  /** The media type, up to its parameters; the handler takes two. */
  function MediaOf(headers: Http.Headers): Option<Dvzip.Media> {
    var value := if CONTENT_TYPE in headers then headers[CONTENT_TYPE] else [];
    var end := HttpText.Find(value, SEMICOLON);
    var ty := if end.Some? then value[..end.value] else value;
    if ty == CPIO then Some(Dvzip.CpioType) else if ty == DVZIP then Some(Dvzip.DvzipType) else None
  }

  /** The media type of a DVZip archive, parameters behind it or not. */
  ghost predicate DvzipAnnounced(headers: Http.Headers) {
    var key := HttpGrammar.Word("content-type");
    key in headers && exists more :: headers[key] == HttpGrammar.Word("application/x-dvzip") + more && Parameters(more)
  }

  predicate Parameters(more: HttpText.Text) {
    more != [] ==> more[0] == 0x3b
  }

  lemma DvzipIsTaken(headers: Http.Headers)
    requires DvzipAnnounced(headers)
    ensures MediaOf(headers) == Some(Dvzip.DvzipType)
  {
    hide HttpText.Find;
    var ty := HttpGrammar.Word("application/x-dvzip");
    var more :| headers[CONTENT_TYPE] == ty + more && Parameters(more);
    assert SEMICOLON !in ty && |ty| == 19 && |CPIO| == 18;
    if more == [] {
      assert ty + more == ty;
      HttpText.NotFound(ty, SEMICOLON);
    } else {
      assert ty + more == ty + [SEMICOLON] + more[1..];
      HttpGrammar.FoundAt(ty, more[1..], SEMICOLON);
      assert (ty + more)[..|ty|] == ty;
    }
  }

  datatype Failure = Refused(e: HttpText.Error) | UnsupportedMedia | NotReceived(f: Transfer.Failure)

  /** A selection as an upload: in any framing the reader takes, as a DVZip archive. */
  ghost predicate Carries(m: HttpTheorems.Message, z: Dvzip.Zlib, items: seq<Sender.Item>) {
    && HttpTheorems.WellFormed(m, true) && m.head.first.path == Http.Upload
    && DvzipAnnounced(HttpGrammar.HeadersIn(m.head))
    && Transfer.PrepareF(z, items) == Some(HttpTheorems.Content(m))
    && forall i :: 0 <= i < |items| ==> ArchiveRoundTrip.WellNamedItem(items[i])
  }

  /** `/Upload`, from the bytes on the connection to the files in an empty directory. Where the peer holds a fresh
      grant, the upload is read to its end, and succeeds exactly if the selection's stream fits, no name has a
      bidirectional formatting character and a kept file is there; the directory then holds exactly the forest.
      Where it holds none, the body is left unread. Either way the grant is gone. */
  method ReceiveUpload(z: Dvzip.Zlib, reader: HttpReader.Reader, sessions: Sessions.Sessions, peer: AuthLog.Address,
                       now: nat,
                       disk: Publish.Disk, temp: bytes,
                       ghost items: seq<Sender.Item>, ghost m: HttpTheorems.Message, ghost more: bytes)
    returns (r: Result<Receiver.Saved, Failure>)
    requires z.Lawful() && Carries(m, z, items)
    requires reader.Unread() == HttpTheorems.Encode(m) + more && disk.dest == map[]
    modifies reader, sessions, disk
    ensures sessions.approved == old(sessions.approved) - {peer}
    ensures Sessions.Authorized(old(sessions.approved), peer, now) ==>
              && reader.Unread() == more
              && (r.Ok? <==> |Sender.CpioF(items).value| <= Cpio.MAX_TRANSFER
                             && !ArchiveRoundTrip.AnyBidi(items) && ArchiveRoundTrip.FilesIn(items) > 0)
    ensures !Sessions.Authorized(old(sessions.approved), peer, now) ==>
              r == Err(Refused(HttpText.Forbidden)) && reader.Unread() == HttpTheorems.AfterHead(m) + more
    ensures r.Ok? && temp !in ArchiveRoundTrip.TreeOnto(map[], items) ==>
              disk.dest == ArchiveRoundTrip.TreeOnto(map[], items)
    ensures r.Err? ==> disk.dest == map[]
  {
    hide Http.RequestOf, Http.HeadOf, HttpTheorems.WellFormed, HttpTheorems.AfterHead, HttpTheorems.Content, MediaOf,
      Transfer.UnpackF, Transfer.PrepareF, ArchiveRoundTrip.AnyBidi, ArchiveRoundTrip.FilesIn,
      ArchiveRoundTrip.TreeOnto, Sender.CpioF, Publish.Grew;
    HeadIsRead(m, more);
    DvzipIsTaken(HttpGrammar.HeadersIn(m.head));
    UngrantedUploadIsRefused(m, more);
    HttpTheorems.MessageIsRead(m, more, true);
    Transfer.SendThenReceive(z, items);
    Transfer.SelectionIsSmall(z, items);
    var request := reader.Read(true, sessions, peer, now);
    if request.Err? {
      return Err(Refused(request.error));
    }
    var ty := MediaOf(request.value.headers);
    if ty.None? || request.value.upload.None? {
      return Err(UnsupportedMedia);
    }
    var received := Transfer.ReceiveCancel(z, request.value.upload.value, ty.value, disk, temp, {});
    assert map[] + ArchiveRoundTrip.TreeOnto(map[], items) == ArchiveRoundTrip.TreeOnto(map[], items);
    r := if received.Ok? then Ok(received.value) else Err(NotReceived(received.error));
  }

  lemma HeadIsRead(m: HttpTheorems.Message, more: bytes)
    requires HttpTheorems.WellFormed(m, true)
    ensures Http.HeadOf(HttpTheorems.Encode(m) + more)
         == Ok(HttpText.Parsed(Http.Head(m.head.first.path, HttpGrammar.HeadersIn(m.head)),
                               HttpTheorems.AfterHead(m) + more))
  {
    hide Http.HeadOf, HttpTheorems.AfterHead, HttpTheorems.Announced, HttpGrammar.GoodHead, HttpGrammar.HeadBytes,
      HttpGrammar.HeadersIn;
    var rest := HttpTheorems.AfterHead(m) + more;
    assert HttpTheorems.Encode(m) + more == HttpGrammar.HeadBytes(m.head) + rest;
    HttpGrammar.HeadIsRead(m.head, rest);
  }

  /** And one that the gate does not let through stores nothing, whatever it carries. */
  lemma UngrantedUploadIsRefused(m: HttpTheorems.Message, more: bytes)
    requires HttpTheorems.WellFormed(m, true) && m.head.first.path == Http.Upload
    ensures Http.RequestOf(HttpTheorems.Encode(m) + more, true, false) == Err(HttpText.Forbidden)
  {
    hide Http.HeadOf, HttpTheorems.WellFormed, HttpTheorems.AfterHead, Http.BodyOf;
    HeadIsRead(m, more);
  }
}

# A model of the ac-dc protocols in Dafny

ac-dc speaks several byte-level protocols of Apple devices from Linux: AirDrop transfers (an HTTP/1.1 subset, DVZip
blocks, CPIO archives, publication into a folder), the companion link (OPACK, TLV8, Pair-Verify, an encrypted
channel), Handoff advertisements (GCM with a short vector and a truncated tag), and a framing for key transfer over
small writes. Both ends of most of them are in the repository. This project models those ends and proves what they
promise together.

Code that changes state step by step is modelled as classes and methods, each tied by its contract to a function of
what it was given; the theorems are about those functions. `dafny verify dfyconfig.toml` (Dafny 4.11) checks the whole
project.

## The files

- **AirDrop archives.** `Paths`, `Cpio`, `Tree` (names, headers, directory trees), `Sender`, `Receiver`,
  `ArchiveRoundTrip`, `SenderLimits` (what the sender takes), `StagedTree` and `ArchiveAccepted` (what unpacking does
  on any archive, and what it accepts), `Dvzip`, `CpioMemory` (the in-memory reader the streaming one must agree
  with), `Publish` (one receiver), `Publishers` (any number of them, interleaved), `SafeNames`, `FileNames`, `Store`,
  and `Transfer`, which puts sender and receiver together.
- **Companion link.** `OpackValue`, `OpackEncode`, `OpackDecode`, `OpackTheorems`, `OpackLimits`, `OpackDrafts`,
  `OpackReferences` and `OpackAccepted` (the inputs with back references, exactly), `Tlv8`, `Crypto` (the laws of the
  primitives), `ContentChannel`, `Continuity`, `PairVerify`, `Pasteboards`.
- **Receive authorisation.** `Sessions` (the grant table), `Daemon` (the control state), `Authorization` (the whole
  service as interleaved steps with a clock), `AuthLog` (what a history of it says), `AuthSafety` (the invariant and
  the theorems over all runs).
- **HTTP.** `HttpText`, `Http` (a request as a function of the unread bytes), `HttpReader` (the reader over a buffered
  stream), `HttpGrammar` and `HttpFraming` (the language it accepts), `HttpTheorems`, `HttpHead`.
- **GCM and framing.** `GcmSpec` (NIST SP 800-38D), `Gcm`, `Framing`.
- **Together.** `EndToEnd`: a pull over the companion link from the first message of the handshake to the pasteboard,
  and an upload from the selection through HTTP to the received forest.
- **Common.** `Bytes`, `Bits`, `Radix`, `Utf8`.

## Assumptions

- The primitives are functions with the laws stated in `Crypto`, `Dvzip` and `GcmSpec` and no others: key agreement
  commutes; opening undoes sealing, and sealing adds 16 bytes (section 2.8 of RFC 8439); verification accepts what was
  signed; inflating undoes deflating, whose output is nonempty and bounded; the block cipher and the multiplication of
  GHASH give blocks. The lemmas `LawsAreConsistent` show that they can be met. No law says that a forged tag or
  signature is refused, so no theorem rests on the strength of a primitive: what is proved of
  `SessionImpliesVerifiedPeer` is that a listed key's verification accepted, and of `RunDelivers` that junk is junk
  when it does not open.
- A directory is a map from names to nodes, a stream a byte string read in pieces of any size, a clock a number that
  does not go back.
- An aborted job or connection takes no further step, and none panics.

## Where the code and its description differ

- Every condition in the table that is not simply "always" is what the code does: the sender takes names with
  bidirectional formatting characters which only the receiver refuses (`SentIsReceived`); the companion link's sender
  takes up to 2^24 - 1 bytes where the reader's cap is 4 MiB (`OneMessage`); a pasteboard of more than 13105 items is
  written but not decodable (`ResponseArrives`); `max_frame` above 65537 makes the frames of a long payload unreadable
  (`FramesAreReceived`).
- `src/companion_client.rs` speaks (lines 18 to 22 and 550) of a convention by which an encrypted packet advertises
  the length of its body plus 16. The code has none: the body already holds the tag, and its own length is advertised.
- The comment on `j0_short_iv` speaks of vectors that are not 96 bits long; the code takes the same path for 12-byte
  vectors, where the standard does not (`J0IsStandard`: equal under every cipher and key exactly for other lengths).
- The daemon does not clear a pending Ask when a window ends by itself. It then still takes an approval of it, which
  reaches nobody: a closed window is silent (`EndedIsSilent`), and an approval reaches a connection exactly if that
  still waits for it (`ApprovalReaches`).

## Model

| member | source | states |
|---|---|---|
| Transfer.SendAndReceive | src/airdrop/storage.rs:101-280 | the whole way into an empty directory, where no rename fails: it succeeds if and only if the CPIO stream fits the receiver's limit, no name has a bidirectional formatting character and at least one kept regular file is there; the directory then holds exactly the forest sent minus `._*` files, and otherwise stays empty |
| Transfer.SendThenReceive | src/airdrop/outgoing.rs:120-216 | for every selection the sender accepts, the archive is accepted and stages exactly the forest sent, under that same exact condition |
| Transfer.ReceiveCancel | src/airdrop/storage.rs:101-280 | decode, unpack and publish: on a refused archive the destination is untouched; no existing entry ever changes; without faulty renames it succeeds whenever the archive unpacks, and with disjoint names the destination gains exactly the staged forest |
| Transfer.PublishStaged | src/airdrop/storage.rs:225-272 | publication while the staging directory itself is an entry of the destination: nothing existing changes and, with disjoint names and no fault, exactly the staged items are added |
| Transfer.Prepare | src/airdrop/outgoing.rs:120-216 | the sender as a whole: CPIO stream, DVZip blocks and the bound on the archive, equal to the function `SendThenReceive` speaks of |
| Transfer.PrepareSucceeds | src/airdrop/outgoing.rs:120-216 | a selection is sent if and only if the sender's limits admit it and its archive is at most 32 GiB |
| SenderLimits.SelectionAccepted | src/airdrop/outgoing.rs:38-175 | told from the forest itself: 1 to 4096 items with good and different names, only files and directories, at most 64 levels, no written name over 4095 bytes, no file of 8 GiB, fewer than 65536 entries, at most 32 GiB; exactly such selections become a CPIO stream |
| ArchiveRoundTrip.SentIsReceived | src/airdrop/storage.rs:115-223 | the receiver's loop on the sender's CPIO stream: rebuilt forest, file count and byte total exactly when no name has a bidirectional character and a kept file exists, and otherwise which of the two errors; the sender's `count < MAX_ENTRIES` and the trailer exactly fit the receiver's rounds |
| ArchiveRoundTrip.TreeIsForest | src/airdrop/storage.rs:165-214 | at every path the rebuilt tree holds what the forest sent holds there: nothing added, lost or moved, every file with its bytes, `._*` files gone |
| ArchiveRoundTrip.AddFollows | src/airdrop/outgoing.rs:38-101 | pre-order traversal against tree building: what the sender writes for one node, the receiver reads back as that node placed at its path, in as many rounds as the sender counted entries |
| ArchiveRoundTrip.TrailerEnds | src/airdrop/storage.rs:158-162 | the trailer header the sender writes ends the receiver's loop |
| ArchiveRoundTrip.NotSpecial | src/airdrop/outgoing.rs:164-171 | `./` keeps every sent name, `TRAILER!!!` and `.` included, from ending the archive or passing for its root |
| Cpio.HeadOfHeader | src/airdrop/outgoing.rs:15-37 | the receiver reads back mode, size and name of every header the sender writes, across fixed-width octal printing and parsing |
| Cpio.NewcHead | src/airdrop/storage.rs:138-157 | a newc header, thirteen numbers of eight hexadecimal digits, is read as the mode, size and name it holds, its payload at the next multiple of four |
| Cpio.PadLength | src/airdrop/storage.rs:281-287 | the padding is less than the alignment and reaches a multiple of it |
| Radix.PaddedRoundTrip | src/airdrop/storage.rs:16-18 | a number printed in any radix up to 16, padded or not, parses back to itself |
| Radix.PaddedWidth | src/airdrop/outgoing.rs:20-33 | a number that fits its field is printed in exactly the field's width |
| Radix.ParseMeans | src/airdrop/storage.rs:16-18 | a text is a number if and only if it is digits of the radix in either case, a plus sign before them or not, and the number is the sum of the digits by place, if 64 bits hold it |
| Utf8.DecodeMeans | src/airdrop/storage.rs:155 | bytes are a text if and only if they are the UTF-8 encoding of its characters, all of them Unicode scalar values |
| Paths.RelativeOf | src/airdrop/storage.rs:19-40 | the receiver's reading of a name as a path, with every refusal, against the function `RelativeMeans` characterises |
| Paths.RelativeMeans | src/airdrop/storage.rs:19-40 | for every byte string, told from the segments between its slashes: refused if and only if it is absolute, has a backslash, is over 4096 bytes, has a segment `..`, over 255 bytes or with a control or bidirectional character, or has no segment but empty ones and dots; otherwise the path is its other segments in order |
| Paths.RelativeIsSafe | src/airdrop/storage.rs:28-36 | every component of an accepted path is nonempty, neither a dot nor two, without slash, backslash, control or bidirectional character, at most 255 bytes |
| Paths.RelativeOfName | src/airdrop/storage.rs:19-40 | the name the sender writes for a path is read as that path exactly when no component has a bidirectional formatting character, and refused otherwise |
| Receiver.Receive | src/airdrop/storage.rs:101-224 | the unpacking: at most 65536 rounds, a trailer required, at least one file required; staging tree, count and total as the function of the bytes |
| Receiver.Unpacker.ReadHead | src/airdrop/storage.rs:121-157 | one odc or newc header with its name and alignment, and `offset` equal to the bytes consumed |
| Receiver.Unpacker.ReadEntry | src/airdrop/storage.rs:121-221 | one round of the loop: trailer, limit, root entry, unsafe path, directory, file, special file, each with its error |
| Receiver.Unpacker.StageEntry | src/airdrop/storage.rs:173-220 | a directory or file entry placed in the staging tree, AppleDouble payloads skipped, the file counted, and the tail padding consumed |
| Receiver.Unpacker.Pad | src/airdrop/storage.rs:281-287 | padding skips to the next multiple and fails exactly when the stream ends before it |
| StagedTree.StagedNamesAreSafe | src/airdrop/storage.rs:101-224 | after any accepted archive every name at every depth of the staging tree is such a component, so nothing is staged outside the directory |
| StagedTree.MakeDirsMeans | src/airdrop/storage.rs:175-190 | `create_dir_all` fails if and only if a file is in the way; afterwards the whole path are directories and everything beside it is as it was |
| StagedTree.CreateNewMeans | src/airdrop/storage.rs:190-195 | a file is created if and only if nothing is there and its directory is; then it is there and everything beside its path is as it was |
| StagedTree.ExtractGrows | src/airdrop/storage.rs:121-221 | over a whole archive no staged file is ever replaced or removed, and no directory disappears |
| ArchiveAccepted.AcceptedIs | src/airdrop/storage.rs:121-224 | what an accepted archive is made of: at most 65536 headers in a row, the last the trailer's without payload; each other a directory without payload, the root or at a safe path, or a regular file; together at most 32 GiB, the bytes reported; and the files reported are those whose last component does not begin with `._`, at least one |
| Sender.Writer.Header | src/airdrop/outgoing.rs:15-37 | a header is appended, or refused above the 8 GiB odc limit |
| Sender.Writer.Add | src/airdrop/outgoing.rs:38-101 | the recursive walk: output, count and total after it, and each refusal (depth, path length, entry count, size limits) |
| Sender.PrepareCpio | src/airdrop/outgoing.rs:121-175 | the CPIO stream of a selection: between 1 and 4096 items, unique names, headers, contents and trailer |
| Dvzip.Decoded | src/airdrop/storage.rs:41-90 | the streaming decoder for its three media types, gzip sniff included, against the block-by-block function |
| Dvzip.DecodedInMemory | src/airdrop/archive.rs:21-52 | the in-memory decoder computes the same function of the bytes and its own limit, although it slices a block before decoding it |
| Dvzip.BoundedCopy | src/airdrop/storage.rs:11-15 | appends the whole source or fails, exactly when it is longer than the limit |
| Dvzip.DecodersAgree | src/airdrop/storage.rs:41-90 | streaming and in-memory decoder accept the same inputs with the same output as far as the smaller limit allows, truncated and padded blocks included |
| Dvzip.LimitOnlyCuts | src/airdrop/archive.rs:38-49 | the decoded-size limit decides only whether a stream is refused, never what it decodes to |
| Dvzip.Pack | src/airdrop/outgoing.rs:177-204 | the block loop over a 128 KiB buffer filled by reads of any size, as a function of the CPIO stream |
| Dvzip.Fill | src/airdrop/outgoing.rs:181-188 | the buffer ends up with the next bytes of the stream, full unless the stream ended, however the reads fell |
| Dvzip.PackedIsDecoded | src/airdrop/outgoing.rs:177-204 | no block outgrows its header and decoding the archive gives the CPIO stream back, exactly when it fits the limit |
| Dvzip.BlocksAreRead | src/airdrop/storage.rs:61-90 | any list of stored and compressed blocks decodes to their contents in order, if that is within the limit |
| Dvzip.BlocksAreWritten | src/airdrop/storage.rs:61-90 | and nothing else decodes: every stream that does is such a list, with nonempty blocks and their lengths in four bytes, the top bit telling that one is stored |
| Dvzip.NeverSniffed | src/airdrop/storage.rs:52-60 | an archive of the sender is never taken for gzip |
| CpioMemory.ReadCpio | src/airdrop/archive.rs:63-116 | the in-memory reader as a function of the archive |
| CpioMemory.ReadersAgree | src/airdrop/archive.rs:63-116 | for every mix of odc and newc entries within both limits, both readers see the same sequence of raw names and payloads: one keeps its files with their bytes, the other stages the very same entries |
| CpioMemory.StreamingSeesRaws | src/airdrop/storage.rs:121-221 | the streaming loop fails when the raw entries cannot be read and otherwise does what staging them one by one does |
| CpioMemory.ContentsKept | src/airdrop/archive.rs:107-113 | on regular files the in-memory reader keeps every payload, in order |
| CpioMemory.BothRefuse | src/airdrop/archive.rs:63-116 | an archive that cannot be read to its trailer is refused by both readers |
| CpioMemory.MaskIsPad | src/airdrop/archive.rs:100-102 | the mask formula for alignment 1 and 4 is the streaming reader's skip, within the machine width |
| CpioMemory.RootNeedsNoPad | src/airdrop/storage.rs:165-171 | skipping the tail padding of a root entry loses no alignment |
| Publish.Disk.PublishOne | src/airdrop/storage.rs:229-271 | a lone publisher takes the least free number, within one more try than the destination has entries; on any error nothing changed |
| Publish.Disk.PublishAll | src/airdrop/storage.rs:225-272 | whatever the outcome, no existing entry changes, every item is still staged or lies under exactly one new name made from its own, and nothing else appears; without faults everything is published |
| Publish.CandidateInjective | src/airdrop/storage.rs:236-248 | candidates for different numbers are different names, extension or not |
| Publish.CandidateShape | src/airdrop/storage.rs:232-248 | what the candidates are: the name itself, then a space and the number before the extension, which follows the last dot, or at the end of a name that has none but perhaps a leading one |
| Publish.NameShape | src/airdrop/storage.rs:232-248 | every name is of one of these two kinds |
| Publish.Pigeonhole | src/airdrop/storage.rs:236-270 | the number of failed tries never exceeds the number of entries in the destination |
| Publishers.PublishersNeverCollide | src/airdrop/storage.rs:225-272 | any number of receivers interleaving at each no-replace rename, with other programs adding entries: no existing entry changes, every staged item is still staged or lies under exactly one new name made from its own, no two landings share a name, every other entry was created by another program, and a search never fails more often than there are entries |
| Publishers.PublishersAlwaysPlace | src/airdrop/storage.rs:225-272 | and every staged item does land, interleaved as well: a run has gone on until no receiver can take a step if and only if every item of every receiver lies in the destination under its own candidate, and no run has more steps of the receivers than their potential at the start |
| Publishers.StepsAreBounded | src/airdrop/storage.rs:236-270 | every pick, failed try and landing lowers one sum over all receivers, whatever the others and other programs do in between |
| Publishers.LeftAloneTheyFinish | src/airdrop/storage.rs:225-272 | from every moment of every run the receivers, left alone, reach the state where everything is placed |
| SafeNames.SafeNameOf | src/airdrop/archive.rs:117-131 | the stored name, against the function `SafeNameMeans` characterises |
| SafeNames.SafeNameMeans | src/airdrop/archive.rs:117-131 | for every name: the longest prefix of at most 200 bytes of what is left of the base name when the forbidden characters are taken out, in order, then outer white space, then leading dots; none if and only if nothing is left |
| SafeNames.NameHasPieces | src/airdrop/archive.rs:117-131 | and every name is made of such pieces |
| SafeNames.SafeNameKeeps | src/airdrop/archive.rs:117-131 | a safe name without white space around it is kept as it is |
| SafeNames.SafeNameIsStable | src/airdrop/archive.rs:117-131 | the name of a stored file is its own safe name, if it has no white space around it |
| SafeNames.ByteLengthMeans | src/airdrop/archive.rs:127-129 | the length that is limited is that of the UTF-8 encoding |
| SafeNames.SafeNameIsSafe | src/airdrop/archive.rs:117-131 | whatever the sender called it, the name is nonempty, at most 200 bytes, has no separator, no control or bidirectional character and no leading dot |
| Store.Folder.StoreOne | src/airdrop/archive.rs:137-167 | one entry lands where `Place` says, under a new plain name, or nothing changes and the error is the one `PlaceMeans` characterises |
| Store.PlaceMeans | src/airdrop/archive.rs:137-167 | the four outcomes, each if and only if: an empty safe name; all 1000 candidates taken and writable; the first candidate not both taken and writable cannot be written; it is free and can be written |
| Store.Folder.StoreAll | src/airdrop/archive.rs:132-177 | all or nothing: the outcome is `PlaceAll`'s; on success one new distinct plain-named file per entry, in order, with its bytes, and every earlier file as it was; on any error the folder is as before |
| Store.StoringSucceeds | src/airdrop/archive.rs:132-177 | storing succeeds if and only if every entry finds a free name among what was there and what the entries before it took |
| Store.StoringSmallFolders | src/airdrop/archive.rs:132-177 | so where no write fails, every name has a safe form and the files there and the entries together are at most 1000, everything is stored |
| Store.Folder.Rollback | src/airdrop/archive.rs:170-175 | removing what was written restores the folder of before |
| Store.CandidatePlain | src/airdrop/archive.rs:143-153 | every numbered candidate of a safe name is again nonempty, separator-free and without a leading dot |
| Store.CandidateShape | src/airdrop/archive.rs:143-153 | what the candidates are: the name itself, then a hyphen and the number before the extension, or at the end of a name that has none |
| OpackEncode.Encode | src/opack.rs:70-74 | the encoder appends exactly the encoding function of the value |
| OpackEncode.Output.EncodeInto | src/opack.rs:76-128 | every kind of value, containers included, pushed behind what is there |
| OpackEncode.Output.EncodeInt | src/opack.rs:129-145 | the narrowest of the integer forms |
| OpackEncode.Output.EncodeStr | src/opack.rs:146-165 | short and long string heads, lengths little endian |
| OpackEncode.Output.EncodeBytes | src/opack.rs:166-184 | short and long data heads |
| OpackDecode.Decode | src/opack.rs:186-198 | the decoder's result as a function of the input: size limit, one value, nothing behind it |
| OpackDecode.Decoder.ParseValue | src/opack.rs:225-333 | one value with its limits on depth, count and memory, its back references and the object table, in step with the parsing function; terminates |
| OpackTheorems.RoundTrip | src/opack.rs:186-333 | for every value nested at most 64 deep with at most 65536 nodes and an encoding of at most 4 MiB, decoding undoes encoding |
| OpackTheorems.ParseEnc | src/opack.rs:225-333 | parsing where an encoding stands yields its value and consumes exactly it, whatever follows and whatever was remembered before |
| OpackTheorems.SelfDelimiting | src/opack.rs:225-333 | an encoding followed by anything is consumed exactly |
| OpackTheorems.PrefixFree | src/opack.rs:70-184 | no encoding is a proper prefix of another, and two encodings with tails that are equal have equal values and tails |
| OpackTheorems.NeverStartsWithTerminator | src/opack.rs:70-184 | no encoding begins with the terminator of open-ended containers |
| OpackReferences.DraftIsRead | src/opack.rs:186-333 | every input an encoder may write, with any width of a number or a length, counted or terminated containers, and a back reference wherever a scalar was written before, is decoded as what it says: a reference is the distinct remembered scalar of its number, in order of appearance |
| OpackAccepted.AcceptedIsDraft | src/opack.rs:186-333 | the decoder accepts an input with a value if and only if it is such a writing of that value within the limits on size, nesting, count and memory |
| OpackDrafts.SameMeans | src/opack.rs:328-330 | scalars are the same to the table as numbers are: both zeros are, no NaN is |
| OpackValue.WidenMeans | src/opack.rs:254 | a single read as a double is the same number, infinity or NaN, with the same sign |
| OpackLimits.AcceptedWithinLimits | src/opack.rs:206-333 | on every accepted input, back references included: at most 65536 nodes and the decoder's count equals them, nesting at most 64, 32 times the nodes plus all payload at most 16 MiB |
| OpackLimits.ParseProgress | src/opack.rs:225-333 | every parse only grows the object table, which holds scalars only, and pays for nodes and payload out of the budget |
| OpackLimits.Reencode | src/opack.rs:70-198 | writing an accepted value again without references decodes to the same value |
| OpackLimits.BudgetNeverRefusesPlainInput | src/opack.rs:218-224 | on reference-free input the 16 MiB budget is never what refuses |
| Tlv8.Tlv.Encode | src/tlv8.rs:35-50 | the fragmenting loop, as a function of the items |
| Tlv8.Tlv.Decode | src/tlv8.rs:53-68 | the merging loop, truncated input included, as a function of the bytes |
| Tlv8.Tlv.Get | src/tlv8.rs:71-76 | the first value of a type |
| Tlv8.RoundTrip | src/tlv8.rs:35-68 | for every item list, values at multiples of 255 and empty ones included, decoding gives it back with adjacent items of one type merged |
| Tlv8.MergedRoundTrip | src/tlv8.rs:35-68 | a list without such neighbours comes back as it was |
| Tlv8.Normalizes | src/tlv8.rs:35-68 | for every byte string, decoding, encoding and decoding is decoding |
| ContentChannel.Channel.Encrypt | src/companion.rs:98-114 | ciphertext and next counter; an exhausted counter refuses and stays |
| ContentChannel.Channel.Decrypt | src/companion.rs:116-133 | a failed decryption leaves the counter unchanged |
| ContentChannel.NonceInjective | src/companion.rs:91-96 | different 64-bit counters give different nonces |
| ContentChannel.RunDelivers | src/companion.rs:71-133 | over every interleaving of both directions of two mirrored channels, with junk arriving in between, each side has received exactly a prefix of what was sent, in order, and no two ciphertexts a channel returned share a nonce, the last counter included |
| Continuity.Stream.ReadPacket | src/companion_client.rs:80-101 | one packet off the stream, with each refusal, at its position |
| Continuity.Stream.WritePacket | src/companion_client.rs:55-69 | the packet's bytes are appended, or nothing is when the body is too long |
| Continuity.Stream.SendOpack | src/companion_client.rs:265-278 | encode, seal under the header of plaintext length plus 16, write |
| Continuity.Stream.RecvOpack | src/companion_client.rs:280-294 | read, rebuild the header from the wire body, open, decode; each error, and the channel afterwards |
| Continuity.ReadSerialized | src/companion.rs:170-184 | a packet is read back, and exactly its bytes consumed, exactly when its body fits the reader's cap and, if encrypted, can hold a tag |
| Continuity.ReadWasSerialized | src/companion_client.rs:80-101 | and every packet that is read stands on the stream as it is serialised, within the cap |
| Continuity.ReceivedWasSealed | src/companion_client.rs:280-294 | a value is received only out of an encrypted packet that opens under the next nonce with the packet's own header, as it stands on the wire, as associated data; the counter moves by one |
| Continuity.ParseSerialized | src/companion.rs:179-202 | parsing undoes serialising for every 24-bit body length |
| Continuity.OneMessage | src/companion_client.rs:265-294 | through OPACK, channel and framing: whatever the sender accepts is received as the same value exactly when its encoding is at most 4 MiB minus 16 bytes |
| Continuity.StreamDelivered | src/companion_client.rs:265-294 | any sequence of such values is delivered intact and in order |
| PairVerify.Client.ProcessM2 | src/companion.rs:347-414 | every step of M2 with its error, and the state left behind, the shared secret set before the signature is checked |
| PairVerify.Client.CheckM4 | src/companion.rs:417-426 | a channel in the client's role exactly when M4 reports state 4 and a secret is there |
| PairVerify.Server.ProcessM1 | src/companion.rs:467-506 | every step of M1 with its error, and the state left behind |
| PairVerify.Server.ProcessM3 | src/companion.rs:510-554 | every step of M3 with its error; a channel in the server's role only behind a verified signature |
| PairVerify.Handshake | src/companion_client.rs:313-338 | the client's driver over a stream: its outcome, the position it reads up to, and all it writes, on failure too, as a function of what arrives |
| PairVerify.AnswerHandshake | src/companion_client.rs:427-439 | the peer's half of the handshake, in the same terms |
| PairVerify.HonestHandshake | src/companion_client.rs:313-338 | a client and a server that list each other's keys, with a contributory secret, run M1 to M4 through framing, OPACK, TLV8 and the sealed signatures without error and end with mirrored channels at counter zero |
| PairVerify.SessionImpliesVerifiedPeer | src/companion_client.rs:313-338 | whatever arrives, a session is returned only if a listed key verified a signature over peer key and own key and an M4 then reported state 4, and its keys come from the secret agreed with that very peer key, which is not all zero |
| PairVerify.AnswerImpliesVerifiedPeer | src/companion_client.rs:427-439 | the peer's half completes only behind a 32-byte key in M1 and, in M3, a signature over both keys, sealed under the secret agreed with it, that a listed key verifies |
| PairVerify.CheckM4AloneIsNotEnough | src/companion.rs:356-426 | this rests on the driver's order: after a refused M2 the secret is still set, and checking M4 alone would hand out a channel |
| PairVerify.Unwrap | src/companion.rs:203-216 | a short item list survives TLV8 inside OPACK and back |
| Pasteboards.Session.ExchangeInfo | src/companion_client.rs:341-353 | one request and one answer over the channel, read as system information |
| Pasteboards.Session.Fetch | src/companion_client.rs:362-381 | one pasteboard request under the next transaction number, and the parsed answer |
| Pasteboards.Serve | src/companion_client.rs:441-465 | the peer's side: P1 read, P2 written, P3 read, P4 written with P3's transaction number; its outcome, all it wrote, on failure too, and its channel afterwards |
| Pasteboards.ParseResponse | src/companion_client.rs:229-252 | the items in order, or the first fault: no items, no list, which item is none |
| Pasteboards.BoardIsRead | src/companion_client.rs:207-252 | the parsed response is the pasteboard it was built from |
| Pasteboards.InfoIsRead | src/companion_client.rs:165-187 | system information is read as it was written |
| Pasteboards.ResponseArrives | src/companion_client.rs:362-375 | the response to a fetch arrives intact exactly when the pasteboard has at most 13105 items and its encoding is at most 4 MiB minus 16 bytes |
| Pasteboards.RequestFits | src/companion_client.rs:195-201 | a fetch request is always within every limit |
| Pasteboards.InfoFits | src/companion_client.rs:165-173 | system information is, when its strings leave 100 bytes of a packet free |
| Pasteboards.ResponseFits | src/companion_client.rs:207-223 | a response is, with at most 13105 items whose strings and data, 25 bytes an item added, leave 100 bytes of a packet free |
| Pasteboards.SessionDelivers | src/companion_client.rs:421-465 | a whole session on mirrored fresh channels: the peer reads what the client wrote, and the client ends up with the peer's information and its pasteboard |
| EndToEnd.PullDelivers | src/companion_client.rs:389-465 | from two unconnected ends to the pasteboard: with an honest peer, each listing the other's key, both drivers complete the handshake, each reading exactly the bytes the other writes, and the session behind it on the same streams returns the peer's information and its pasteboard |
| EndToEnd.ReceiveUpload | src/airdrop/mod.rs:249-382 | an upload from the bytes on the connection to the files in an empty directory: with a fresh grant it succeeds under exactly the condition of `Transfer.SendAndReceive` and the directory holds exactly the forest sent; without one it is refused with the body unread and the directory empty; either way the grant is gone |
| EndToEnd.UploadDelivers | src/airdrop/mod.rs:360-382 | a selection packed by the sender, uploaded in any framing the reader takes and unpacked, is exactly the forest sent, under the exact condition of `Transfer.SendThenReceive`, and what follows on the stream is left to be read |
| EndToEnd.UngrantedUploadIsRefused | src/airdrop/http.rs:77-80 | whatever a well-formed upload carries, without a grant it is refused |
| AuthSafety.UploadsAreAuthorized | src/airdrop/mod.rs:237-363 | in every reachable state of the interleaved service: an Upload let through rests on a file Ask of the same address in the same window accepted less than 120 s before, in an asking window on the user's approval of that very Ask, and no two Uploads share an Ask |
| AuthSafety.AcceptancesAreApproved | src/airdrop/mod.rs:314-331 | in an asking window every accepted Ask maps to one approval sent on its own channel, and no Ask is accepted twice |
| AuthSafety.OverwrittenIsNeverAccepted | src/daemon.rs:242-249 | an Ask overwritten by a later one before it was decided is never accepted, in any run from there, whoever approves what |
| AuthSafety.StoppedIsNeverAccepted | src/daemon.rs:270-283 | nor is an Ask pending, in the channel or in the job's hand when the window is stopped |
| AuthSafety.RejectedIsNeverAccepted | src/daemon.rs:285-307 | in every reachable state, an Ask the user rejected has no acceptance in the history, before or after |
| AuthSafety.EndedIsSilent | src/airdrop/mod.rs:547-548 | from the moment a window is stopped or its job leaves it, nothing of that window is accepted, granted or let through in any run |
| AuthSafety.EndsMeansCloses | src/airdrop/mod.rs:525-549 | an open window closes exactly by a stop of its job, its job leaving it, or the end of a window served without a daemon |
| AuthSafety.ApprovalReaches | src/airdrop/mod.rs:314-331 | approving the pending Ask can lead to its acceptance, in some run, if and only if its connection still waits for it |
| AuthSafety.OneJobAndBounds | src/daemon.rs:194-283 | at most one job is live, it is the one stored in `task`, the phase is starting, receiving or sending exactly when `task` is set; at most 128 grants, 4 connections and 8 waiting Asks per window |
| AuthSafety.RequestsAreFew | src/airdrop/mod.rs:249-263 | no connection serves more than 32 requests |
| AuthSafety.WaitingEnds | src/airdrop/mod.rs:314-335 | a connection whose Ask is not approved goes on if and only if the Ask was rejected or its channel dropped or 90 seconds are over, and nothing is accepted then |
| AuthSafety.ApprovalLetsThrough | src/airdrop/mod.rs:314-359 | and the service serves: approving the pending file Ask of a waiting connection lets its Upload through at any time within 120 s, the history showing that Ask's decision, acceptance and grant, as long as the table has room |
| AuthSafety.RunKeeps | src/daemon.rs:194-307 | the invariant over all runs: decision channels, connections, grants and history agree after every sequence of steps |
| AuthLog.UploadRestsOnAsk | src/airdrop/mod.rs:237-363 | in a history where each event is justified by the ones before it, the chain from an Upload to its grant, its accepted Ask less than 120 s older and the user's decision |
| AuthLog.UploadsUseDifferentAsks | src/airdrop/mod.rs:258-265 | a grant is spent by the Upload it lets through, so two Uploads rest on different Asks |
| Sessions.Sessions.Authorize | src/airdrop/mod.rs:258-265 | the peer's grant is taken out whether fresh or not, and lets through exactly when it is younger than 120 s |
| Sessions.Sessions.Grant | src/airdrop/mod.rs:352-357 | expired grants are dropped, the peer's is entered unless 128 are left, and the table never exceeds 128 |
| Sessions.GrantServesOnce | src/airdrop/mod.rs:258-265 | one grant serves one Upload, from its own address, within its life |
| Daemon.State.StartReceive | src/daemon.rs:194-268 | out-of-range windows are refused before anything else, a live job is left alone, otherwise exactly one new job is stored and the phase is starting |
| Daemon.State.StartSend | src/daemon.rs:349-402 | no host and a live job are refused, otherwise exactly one new job is stored and the phase is sending |
| Daemon.State.Stop | src/daemon.rs:270-283 | the stored job is aborted, nothing is pending, the phase is idle |
| Daemon.State.Decide | src/daemon.rs:285-307 | the decision goes to the Ask that was pending, which is taken out; none pending is refused |
| Daemon.State.Show | src/daemon.rs:245-248 | a new Ask takes the pending place and the one it overwrites loses its decision channel |
| Daemon.State.Finish | src/daemon.rs:255-257 | a job's end clears `task` and leaves idle or error; a pending Ask stays |
| HttpReader.Reader.ReadToFeed | src/airdrop/http.rs:11-28 | the bytes up to the next line feed whatever pieces the buffer is filled in, or the very error the unread bytes call for |
| HttpReader.Reader.ReadLine | src/airdrop/http.rs:11-33 | a line, as a function of the unread bytes alone |
| HttpReader.Reader.ReadHead | src/airdrop/http.rs:49-77 | request line and headers with every refusal |
| HttpReader.Reader.CopyBody | src/airdrop/http.rs:197-220 | the next bytes of the stream, 64 KiB at a time, exactly so many consumed |
| HttpReader.Reader.ReadChunks | src/airdrop/http.rs:122-147 | the chunk loop and its trailers, as a function of the unread bytes and the limit |
| HttpReader.Reader.ReadBody | src/airdrop/http.rs:90-150 | framing, limit and body |
| HttpReader.Reader.Read | src/airdrop/http.rs:44-160 | the whole reader under any buffering: result and bytes left are a function of the unread bytes; the gate is asked and the grant spent only for an upload with a complete head; a refused upload leaves its body unread |
| Http.BodyOf | src/airdrop/http.rs:81-150 | no accepted body is longer than the limit of its endpoint |
| HttpTheorems.RequestAppend | src/airdrop/http.rs:44-160 | a request is read the same whatever follows it, and what follows is left |
| HttpTheorems.RequestsArePrefixFree | src/airdrop/http.rs:44-160 | no proper prefix of a whole request is a request |
| HttpTheorems.ChunksAreRead | src/airdrop/http.rs:122-147 | for any split of a body into chunks, with any spelling of the sizes, extensions and trailers the reader takes, the concatenated body is returned and exactly its bytes consumed |
| HttpTheorems.LongBodiesAreRefused | src/airdrop/http.rs:141-143 | a body longer than the limit is refused however it is cut; what was consumed never passes the limit |
| HttpTheorems.MessageIsRead | src/airdrop/http.rs:44-160 | a message whose header fields announce the framing used, within the limit of its path, is read as what it means, and nothing behind it is touched |
| HttpTheorems.PipelineIsRead | src/airdrop/http.rs:44-160 | a pipelined sequence is read as the same sequence, in order, to its end |
| HttpTheorems.CutsDoNotMatter | src/airdrop/http.rs:107-150 | the same head meaning and content give the same request whichever way the body was framed and cut |
| HttpTheorems.PlainChunkIsGood | src/airdrop/http.rs:126-128 | a size line in plain hexadecimal is such a spelling |
| HttpHead.HeadIsRead | src/airdrop/http.rs:49-77 | a head written from a path and header fields is read as that path and those fields, names in lower case |
| HttpHead.ChunkedIsRead | src/airdrop/http.rs:90-147 | behind a written head whose field `transfer-encoding` says chunked, both in any case, the chunks together are read as the content, however it is cut, up to 1 MiB, or 32 GiB for a spooled upload |
| HttpHead.SizedIsRead | src/airdrop/http.rs:90-150 | behind one whose field `content-length` is the length of the content in decimal digits, the content is read |
| HttpHead.BareIsRead | src/airdrop/http.rs:90-150 | behind one with neither field there is no body |
| HttpGrammar.HeadIsRead | src/airdrop/http.rs:49-77 | a request line of three words between white space, header lines with a name up to the first colon and a value between white space, no name twice in any case, at most 32768 bytes: read as the path and the fields, and nothing behind is touched |
| HttpGrammar.HeadWasWritten | src/airdrop/http.rs:49-77 | and no other head is accepted |
| HttpGrammar.LineWasWritten | src/airdrop/http.rs:11-33 | a line that is read ended in CR LF, was valid UTF-8 without a line feed and at most 8192 bytes long |
| HttpGrammar.LowerMeans | src/airdrop/http.rs:70-75 | names are lower-cased in the letters A to Z and nowhere else |
| HttpFraming.FramingMeans | src/airdrop/http.rs:90-107 | told from the fields: both `transfer-encoding` and `content-length` are refused; the first must say chunked in any case; the second must be a decimal number, and that many bytes are the body, up to the limit; without either there is none |
| HttpTheorems.RequestWasWritten | src/airdrop/http.rs:44-160 | every request that is read was a well-formed message: the reader accepts the messages of `MessageIsRead` and no others |
| HttpTheorems.ChunksWereWritten | src/airdrop/http.rs:122-147 | every chunked body that is read was size lines with their data, a last size line and trailers of at most 8192 bytes |
| Gcm.XorInto | src/gcm.rs:90-94 | the masked prefix and the untouched rest, in place |
| Gcm.PadBlocks | src/gcm.rs:106-112 | the blocks hold the data and zeros up to a whole block, behind those already there |
| Gcm.GhashOf | src/gcm.rs:97-103 | the block loop is GHASH of section 6.4 of SP 800-38D |
| Gcm.J0ShortIv | src/gcm.rs:116-124 | the pre-counter block is GHASH of vector, padding and length |
| Gcm.J0IsStandard | src/gcm.rs:116-124 | the pre-counter block is the standard's (section 7.1) under every lawful cipher and key if and only if the vector is not 12 bytes long |
| Gcm.Inc32 | src/gcm.rs:126-131 | the last 32 bits count with wrap-around, the others stay: section 6.2 |
| Gcm.CounterMode | src/gcm.rs:181-190 | the loop is GCTR of section 6.5 from the block after the pre-counter block, last partial block included |
| Gcm.SealTruncated | src/gcm.rs:201-239 | ciphertext and truncated tag, or the error for the tag length before the one for the key length |
| Gcm.OpenTruncated | src/gcm.rs:145-192 | plaintext, refusal or error as a function of the inputs |
| Gcm.OpensWhatWasSealed | src/gcm.rs:145-239 | opening gives a plaintext if and only if sealing that plaintext gives this ciphertext and tag |
| Gcm.SealedOpens | src/gcm.rs:145-239 | for every key of 16, 24 or 32 bytes, vector, associated data, plaintext and tag length 1 to 16 the sealed message opens to its plaintext |
| Gcm.ShorterTagsOpenToo | src/gcm.rs:173-191 | accepting a tag means accepting its nonempty prefixes with the same plaintext |
| Gcm.CountersRepeat | src/gcm.rs:126-131 | counter blocks are equal exactly when their distance is a multiple of 2^32 |
| Gcm.MasksAreFresh | src/gcm.rs:173-190 | within 2^32 blocks no counter block is used twice, the one of the tag included |
| Framing.FramePayload | src/transfer.rs:202-223 | the frames of a payload, or the error; a length above 65535 loses its high bits as the code's cast does |
| Framing.SwiftFramePayload | macos/ac-dc-send/Sources/ac-dc/Transfer.swift:98-125 | the Swift sender yields the identical frame list, or traps exactly when a length does not fit its field |
| Framing.Reassembler.PushFrame | src/transfer.rs:241-263 | a frame is taken exactly when its prefix is right, and the announced length is known from the fourth byte on |
| Framing.Reassembler.IsComplete | src/transfer.rs:266-271 | complete exactly when all announced bytes are there |
| Framing.Reassembler.TakePayload | src/transfer.rs:275-282 | the payload, once complete |
| Framing.FramesFit | src/transfer.rs:202-223 | every frame carries something and is at most `max_frame` long |
| Framing.FramesAreReceived | src/transfer.rs:202-263 | all frames are accepted exactly when the first piece's length fits two bytes, and then they carry the payload |
| Framing.NotCompleteBefore | src/transfer.rs:266-271 | after every strict prefix of the frames the payload is not complete |
| Framing.CompleteIsFinal | src/transfer.rs:266-282 | once complete, no accepted frame changes completion or payload |
| Framing.Transferred | src/transfer.rs:202-282 | from either sender to the receiver, whatever frames are pushed afterwards, the payload arrives |

## Left out

- Primitives: AES, GHASH field arithmetic, ChaCha20-Poly1305, X25519, Ed25519, HKDF, SHA-512, zlib and gzip, beyond
  the laws above; that sealing itself can fail is not modelled.
- TLS sessions, property lists and JSON: an Ask is taken as already decoded, with its kind (links or files).
- The metadata dictionaries `prepare_cancel` returns beside the archive, and the clipboard copies `receive_cancel`
  collects.
- Faults of the disk and the network other than the ones named (a stream that ends, a rename or a file that fails): a
  write error while unpacking, time limits on reads, a file that changes while it is sent, cancellation.
- Removal of the staging directory is taken to succeed; what lands where when its random name is the name of a
  received item is not said (`Transfer.SendAndReceive`, `EndToEnd.ReceiveUpload`).
- `store` removes what it wrote on an error; that a removal itself fails is not modelled.
- The order in which a directory lists its entries: the sender's forest is taken in the order it is written,
  `PublishAll` takes any order.
- File names longer than the file system allows count among the faulty ones.
- Floats are compared by their bits; a single-precision NaN comes out quiet when widened.
- The responses the HTTP reader writes itself (100 Continue, the 403 of a refused upload), and the body of a response.
- `connection`, `run` and the jobs of the daemon are cut at their waits into the steps of `Authorization` instead of
  being written as methods; the steps use the functions the methods of `Sessions` and `Daemon` are proved against.
- The content of an upload after the gate is not part of `Authorization`; `EndToEnd.ReceiveUpload` and `Transfer` have
  it.
- A publication that gives up after 2^64 - 1 tries is in `Publishers`; the theorems on placing assume fewer entries
  than that. Renames that fail for another reason than a taken name are in `Publish`, for one receiver.
- Radio ownership, discovery, BLE advertising, user interfaces, key export and the command line.
- Authorization.Next: an aborted job is not given the step it might still take while the lock changes hands, nor a
  connection of a stopped window the rest of the step it is in.
- Daemon.State.Ready: the radio and the window's own checks are a step that succeeds or fails.
- Pasteboards.Session.Fetch: the transaction number is a number without bound, and the client does not compare the one
  in the answer, as in the code.

# Roar, verified

A Dafny model of the hard parts of Roar: the 9P2000.L file-sharing stack in `jetstream` and several
algorithms of `libcrosvm`. `dafny verify dfyconfig.toml` checks everything.

**The 9P stack.** `WireFormat` is the codec of integers, strings, vectors, data blocks and structs, as
functions and as a writer and a reader that move a stream. `Messages` lists every T and R message with its
field types and puts them into size-delimited frames. `ReadDirs` is the kernel's packed directory records and
the iterator over a 256-byte buffer. `Ufs` is the file server as a function of its state (the fid table and the
negotiated message size), a request and the kernel's answers; `UfsServer` is the same server as an object
updated in place, with its loops in `UfsWalk`. `UfsRuns` states what every run keeps, `UfsReplies` what
each reply says and what reading and writing in turns amounts to, `UfsSizes` that every
reply can be sent, how long it is and when it can be decoded, `Paging` what a client gets by reading a directory
page by page. `Actor`
is the queue with one-shot reply slots that lets many streams share one service, `UfsActor` that queue in front
of the file server, and `Proxy` the lockstep proxy; both run over byte streams (`Streams`) that carry T and R
frames (`FrameWires`).

**The algorithms.** `Aml` emits ACPI machine language and `AmlParser` reads it back by the grammar in sections
20.2.2 to 20.2.5 of the ACPI Specification 6.4. `Sdt` is the self-checksumming table of section 5.2.6.
`PciTopology` allocates resources over a tree of buses, `Intx` assigns interrupt lines, `CpuSets` prints and
parses CPU ranges, `BitFields` is the generated bit-field code and `Syslog` the line splitter of the log writer.

**The outside world.** The kernel is a `Ufs.World`: a record of answers that are fixed while one request is
served and arbitrary from one request to the next. `Lawful` says only that reads and links fit the caller's
buffer. A directory (`ReadDirs.Dir`) is a list of entries with the kernel's choice of how many to return at a
time and where to fail. Resource allocators, the interrupt pool and the server behind the proxy are parameters.

**What the code does that its documentation does not say.**
- A string's length may exceed what is left of its frame; decoding then accepts the shorter string, so a frame
  that decodes need not be what re-encoding it gives (`ReencodeT` says exactly when it is, `CutVersionLoses` gives
  a family that is not).
- Data of more than 32 MiB is encoded but never decoded again (`ReadsBackIff`). A server configured with messages
  of more than 32 MiB and 11 bytes can therefore send an Rread or Rreaddir that no client can decode
  (`ReplyDecodesIff`, `AlwaysDecodesIff`, `ReadDecodesIff`, `ReaddirDecodesIff`, `RreadUndecodable`), and the proxy
  in front of it panics on one (`ReturnKeeps`, `LargeReadPanics`).
- An Rwalk can be longer than the negotiated message size (`WalkKeepsIff`, `RwalkOutgrows`), and so can an
  Rreadlink (`ReadlinkKeepsIff`, `RreadlinkOutgrows`) and, where requests are not limited to it either, an Rgetlock
  (`GetLockKeepsIff`, `RgetlockOutgrows`).
- A Tlcreate answered with an error may have changed its fid (`ReplyMatches`, `LcreateKeepsIff`, `LcreateHalfDone`).
- A directory entry too large for a page ends paging silently, with an empty page (`Handed`, `BigEntryEnds`).
- A directory entry whose record exceeds the 256-byte buffer, whose `stat` fails or whose name is not UTF-8 makes
  the page that reaches it an error, and the client is never handed the entries before it in that page, of which
  there is always one unless it is the first (`TroubleCosts`, `LongRecordLoses`).
- A line fixed for a PCI device may already have been drawn for another (`ClashIff`, `FixedClashes`).
- A CPU set in which the largest index is followed by zero does not read back when arithmetic wraps
  (`Lossless`, `WrapLoses`); with overflow checks any zero after the first place is a panic (`Serialize`).
- A table created shorter than its header has a wrong length field (`NewTableStarts`).
- A package of more than 255 elements or a method of more than seven arguments is emitted with a wrong count.
- A field of 63 bits, and five longer ones, has its length in one byte more than needed (`FieldLengthShortest`).

## Model

| member | source | states |
|---|---|---|
| WireFormat.IntRoundTrip | jetstream/src/coding/wire_format.rs:37-81 | an unsigned integer is read back from its little-endian bytes, whatever follows |
| Bytes.LeByte | jetstream/src/coding/wire_format.rs:37-81 | byte i of an encoded integer is its i-th digit to base 256, the least significant first |
| WireFormat.RoundTrip | jetstream/src/coding/wire_format.rs:83-142 | every value whose strings and vectors have at most 65535 elements and whose data at most 32 MiB is written in `byte_size` bytes and read back with exactly the following bytes left |
| WireFormat.ItemsRoundTrip | jetstream/src/coding/wire_format.rs:110-142 | the same for the elements of a vector, one after the other |
| WireFormat.ScalarRoundTrip | jetstream/src/coding/wire_format.rs:200-242 | the same for strings, data blocks and integers |
| WireFormat.EncodeWritable | jetstream/src/coding/wire_format.rs:83-224 | every value whose counts fit 16 bits and whose data lengths fit 32 is written in full, in `byte_size` bytes |
| WireFormat.ReadsBackIff | jetstream/src/coding/wire_format.rs:200-242 | such a value is read back exactly if no data in it is longer than 32 MiB; otherwise the decoder fails |
| WireFormat.DecodeCanonical | jetstream/src/coding/wire_format.rs:100-142 | on arbitrary bytes a decoder leaves a suffix, and what it accepts is well typed, can be encoded and takes as many bytes as were consumed |
| WireFormat.ReencodeIdentity | jetstream/src/coding/wire_format.rs:100-105 | encoding a decoded value gives back the consumed bytes exactly if no string was cut short by the end of the input |
| WireFormat.UntupleTyped | jetstream/src/coding/wire_format.rs:669-850 | a struct is its fields in declaration order, and nothing else |
| WireFormat.Writer.Write | jetstream/src/coding/wire_format.rs:44-142 | the encoder that moves a writer appends exactly the encoding, and reports the same failure |
| WireFormat.Writer.WriteItems | jetstream/src/coding/wire_format.rs:116-130 | the element loop of a vector stops at the first failure with what was written so far |
| WireFormat.Reader.Read | jetstream/src/coding/wire_format.rs:48-142 | the decoder that moves a reader yields the decoded value or error and leaves exactly its remainder |
| WireFormat.Reader.ReadItems | jetstream/src/coding/wire_format.rs:132-142 | the same for the counted loop over elements |
| Messages.RoundTripT | jetstream/src/coding/messages.rs:127-316 | a T frame within the limits is written in `byte_size` bytes and decoding it, followed by anything, gives the frame and leaves what follows |
| Messages.RoundTripR | jetstream/src/coding/messages.rs:361-523 | the same for an R frame |
| Messages.ReadsBackR | jetstream/src/coding/messages.rs:361-523 | an R frame the encoder accepts is written in `byte_size` bytes and read back exactly if its data is at most 32 MiB; otherwise it cannot be decoded |
| Messages.ReadsBackT | jetstream/src/coding/messages.rs:127-316 | the same for a T frame, whose tag is decoded in either case |
| Messages.FrameLayout | jetstream/src/coding/messages.rs:170-248 | a frame is its size, type and tag, and then its fields in the order of their declaration |
| Messages.ValueLayout | jetstream/src/coding/wire_format.rs:83-224 | strings and lists follow their count in two bytes, data theirs in four, and a list holds its items in order |
| Messages.TreadLayout | jetstream/src/coding/messages.rs:170-248 | the bytes of a Tread: 23, type 116, tag, fid, offset, count |
| Messages.RreadLayout | jetstream/src/coding/messages.rs:401-470 | the bytes of an Rread: size, type 117, tag, and the data after their length |
| Messages.RlerrorLayout | jetstream/src/coding/messages.rs:401-470 | the bytes of an Rlerror: 11, type 7, tag, code |
| Messages.DecodeTCanonical | jetstream/src/coding/messages.rs:251-316 | from arbitrary bytes decoding consumes at most the declared size, and an accepted message can be sent in exactly the bytes consumed |
| Messages.DecodeTStable | jetstream/src/coding/messages.rs:170-316 | decoding, encoding and decoding again gives the same frame |
| Messages.ReencodeT | jetstream/src/coding/messages.rs:170-316 | re-encoding a decoded frame gives the bytes read exactly if the size field is the number of bytes consumed and no string was cut short |
| Messages.CutVersionLoses | jetstream/src/coding/wire_format.rs:100-105 | a Tversion that ends after its string's length is decoded with an empty version, and is not what re-encoding gives unless that length was zero |
| ReadDirs.StripPadded | jetstream/src/ufs/read_dir.rs:130-140 | the name before the first NUL of a padded record is the entry's name |
| ReadDirs.RecordRoundTrip | jetstream/src/ufs/read_dir.rs:76-109 | a packed record is read back as the entry it was made from, with its length |
| ReadDirs.EntriesExact | jetstream/src/ufs/read_dir.rs:58-113 | however the kernel cuts its answers, iteration yields the entries in order up to the first whose record exceeds 256 bytes and stops there with EINVAL, else at the end |
| ReadDirs.EntriesComplete | jetstream/src/ufs/read_dir.rs:58-113 | a directory whose records all fit is listed in full from any position |
| ReadDirs.ReadDir.constructor | jetstream/src/ufs/read_dir.rs:116-126 | a new iterator is to yield what the directory holds from the position sought |
| ReadDirs.ReadDir.Refill | jetstream/src/ufs/read_dir.rs:59-74 | a system call leaves what is still to be yielded unchanged, and its error or empty answer comes only at the end |
| ReadDirs.ReadDir.Next | jetstream/src/ufs/read_dir.rs:58-113 | each call yields the next entry of the listing, and then its error or end |
| UfsWalk.ResolveLongest | jetstream/src/ufs/mod.rs:319-352 | the walk collects metadata along the longest prefix of names that resolves, and succeeds exactly if all do |
| UfsWalk.WalkRefines | jetstream/src/ufs/mod.rs:747-797 | the reply lists, in order, the qid of what has been reached with each name of the longest resolvable prefix; newfid is bound, unopened, where the names lead exactly if all resolve, and an error is returned only if the first does not; without names the fid is cloned unless its path cannot be duplicated or looked at |
| UfsWalk.FoldPolicy | jetstream/src/ufs/mod.rs:288-352 | an exact match and any failure but ENOENT win; else folding takes the first entry in directory order that agrees up to ASCII case; without one the error that ended the listing is returned, or ENOENT |
| UfsWalk.FoldShows | jetstream/src/ufs/mod.rs:288-303 | names agree up to case exactly if they have the same length and their bytes are equal or the same ASCII letter |
| UfsWalk.AsciiCasefoldLookup | jetstream/src/ufs/mod.rs:288-303 | the loop over directory entries computes the folded lookup, its errors included |
| UfsWalk.DoWalk | jetstream/src/ufs/mod.rs:319-352 | the loop over names computes the recursive resolution, and duplicates the start when there are none |
| UfsRuns.ResolveComplete | jetstream/src/ufs/mod.rs:765-784 | a walk ends well exactly when every name gave a qid |
| UfsRuns.ReplyMatches | jetstream/src/ufs/mod.rs:483-575 | a reply keeps the tag, its type is the request's plus one or RLERROR, and an error leaves the state unchanged unless a Tlcreate had already stored its file |
| UfsRuns.LcreateChanges | jetstream/src/ufs/mod.rs:896-943 | a Tlcreate changes the state exactly if it got as far as storing the new file |
| UfsRuns.LcreateKeepsIff | jetstream/src/ufs/mod.rs:896-943 | an error is sure to leave the state alone exactly if the fid is unbound, not a directory, or the name holds a NUL |
| UfsRuns.LcreateHalfDone | jetstream/src/ufs/mod.rs:896-943 | a file is created and its lookup fails: the client is told ENOENT and its fid holds the open file |
| UfsRuns.UnboundRefused | jetstream/src/ufs/mod.rs:747-1330 | no request works on a fid that is not bound, nor one that needs a file on a fid that is not open: EBADF, and nothing changes |
| UfsRuns.StepFid | jetstream/src/ufs/mod.rs:685-943 | one request's effect on one fid, bound and open, in terms of request and reply |
| UfsRuns.StepMsize | jetstream/src/ufs/mod.rs:722-739 | only an accepted Tversion changes the message size, to the smaller of the two |
| UfsRuns.FidsOverRun | jetstream/src/ufs/mod.rs:685-943 | after any run a fid is bound iff an attach or complete walk bound it and no later Tversion or Tclunk removed it, and open iff since then a Tlopen succeeded or a Tlcreate stored its file |
| UfsRuns.MsizeOverRun | jetstream/src/ufs/mod.rs:722-739 | over every run the message size never grows and never drops below 256 |
| UfsReplies.QidIs | jetstream/src/ufs/mod.rs:161-177 | a qid's path is the inode, its version the time of change modulo 2^32, its type 0x80 for a directory, 2 for a link and 0 otherwise |
| UfsReplies.TypeIs | jetstream/src/ufs/mod.rs:140-148 | a fid remembers a directory or a regular file as such exactly if the mode says so |
| UfsReplies.DirentIs | jetstream/src/ufs/mod.rs:1166-1178 | a directory entry carries its own name, type and cookie and the qid of what it names |
| UfsReplies.ErrorShows | jetstream/src/ufs/mod.rs:215-246 | an error reply carries the code of what failed |
| UfsReplies.VersionShows | jetstream/src/ufs/mod.rs:722-739 | the smaller message size, the one dialect known or none, and no fids; EINVAL below 256 |
| UfsReplies.AttachShows | jetstream/src/ufs/mod.rs:685-720 | a free fid is bound to the root, unopened and with its type, and no other fid changes; a fid in use is EBADF, and a failure of the kernel comes back as it is |
| UfsReplies.LopenShows | jetstream/src/ufs/mod.rs:883-894 | the fid's own path is opened with the flags asked for, path and type stay; an unbound fid is EBADF, and a failure of the kernel comes back as it is |
| UfsReplies.LcreateShows | jetstream/src/ufs/mod.rs:896-943 | once made and looked at, the fid becomes the open new file, with its old path and an error if the name cannot be looked up |
| UfsReplies.LcreateFails | jetstream/src/ufs/mod.rs:896-927 | before that nothing changes: EBADF, ENOTDIR, EINVAL and the kernel's errors, in this order |
| UfsReplies.GetAttrShows | jetstream/src/ufs/mod.rs:983-1010 | the attributes of the fid's path, ids translated, in the order of the protocol, or the error |
| UfsReplies.StatfsShows | jetstream/src/ufs/mod.rs:857-881 | the file system's numbers in the order of the protocol, or the error |
| UfsReplies.ReadlinkShows | jetstream/src/ufs/mod.rs:962-980 | the link's target as it is, EINVAL if it is not UTF-8, or the error |
| UfsReplies.MkdirShows | jetstream/src/ufs/mod.rs:1291-1302 | the qid of the name just made under the fid's own path; EBADF, EINVAL and the kernel's errors, in this order |
| UfsReplies.LockShows | jetstream/src/ufs/mod.rs:1221-1243 | a lock on an open file is granted exactly if the file can be looked at |
| UfsReplies.LinkShows | jetstream/src/ufs/mod.rs:1270-1289 | a link needs both fids and then a name without NUL; then the kernel decides |
| UfsReplies.RenameShows | jetstream/src/ufs/mod.rs:1304-1322 | a rename checks the old fid and name before the new ones; then the kernel decides |
| UfsReplies.UnlinkShows | jetstream/src/ufs/mod.rs:1324-1337 | an unlink needs its fid and then a name without NUL; then the kernel decides |
| UfsReplies.NeverGranted | jetstream/src/ufs/mod.rs:945-960 | symbolic links and nodes are always EACCES; authentication, remove, rename and extended attributes always EOPNOTSUPP |
| UfsReplies.ReadShows | jetstream/src/ufs/mod.rs:799-823 | the kernel is asked for the fid's own file at the offset, as far as count and message size allow, and its answer comes back |
| UfsReplies.ReadsInOrder | jetstream/src/ufs/mod.rs:799-823 | over any run of reads that each resume where the last ended, even if some fall short or fail, the replies are the file from its start on, once and in order |
| UfsReplies.ReadsEnd | jetstream/src/ufs/mod.rs:799-823 | and one that is no error is empty exactly if nothing was asked for or the whole file has been returned |
| UfsReplies.WriteShows | jetstream/src/ufs/mod.rs:825-836 | the kernel is handed the data at the offset for the fid's own file, and its answer comes back |
| UfsReplies.WritesInOrder | jetstream/src/ufs/mod.rs:825-836 | over any run of writes that each resume where the last ended, the file has taken exactly the part of the data the replies account for, and nothing else has changed |
| UfsSizes.ReadSent | jetstream/src/ufs/mod.rs:799-823 | an Rread is encoded in no more bytes than the message size, whatever that is |
| UfsSizes.PageFine | jetstream/src/ufs/mod.rs:1142-1192 | a directory page holds well-formed entries in no more bytes than there is room for |
| UfsSizes.ReaddirSent | jetstream/src/ufs/mod.rs:1142-1192 | an Rreaddir is encoded in no more bytes than the message size, and its data in no more than were asked for |
| UfsSizes.GetLockSize | jetstream/src/ufs/mod.rs:1246-1268 | an Rgetlock takes 30 bytes and the client id of the request |
| UfsSizes.GetLockSent | jetstream/src/ufs/mod.rs:1246-1268 | an Rgetlock is no longer than its request |
| UfsSizes.GetLockEchoes | jetstream/src/ufs/mod.rs:1246-1268 | an Rgetlock reports no lock and repeats the range, process and client of the request |
| UfsSizes.GetAttrSent | jetstream/src/ufs/mod.rs:983-1010 | an Rgetattr is well typed and at most 172 bytes |
| UfsSizes.StatfsSent | jetstream/src/ufs/mod.rs:857-881 | an Rstatfs is well typed and at most 79 bytes |
| UfsSizes.ReadlinkSent | jetstream/src/ufs/mod.rs:962-980 | an Rreadlink takes 9 bytes and its target |
| UfsSizes.WalkSent | jetstream/src/ufs/mod.rs:747-797 | an Rwalk takes 9 bytes and 13 for each qid |
| UfsSizes.ReplyFits | jetstream/src/ufs/mod.rs:578-677 | from 256 bytes on, every reply to a request of at most `msize` bytes can be encoded and, Rwalk and Rreadlink apart, is at most the message size then in force |
| UfsSizes.ReplyBound | jetstream/src/ufs/mod.rs:483-575 | where requests are not limited to the message size, the same size rule holds, save that an Rgetlock is limited by its own request |
| UfsSizes.ReplyEncodable | jetstream/src/ufs/mod.rs:483-575 | every reply can be encoded there too, and only its data can keep it from being decoded |
| UfsSizes.ReplyDecodesIff | jetstream/src/ufs/mod.rs:483-575 | a reply is read back by the client exactly if it carries at most 32 MiB of data |
| UfsSizes.AlwaysDecodesIff | jetstream/src/ufs/mod.rs:483-575 | where a file is open, every reply to every request is sure to be decoded exactly if messages are at most 32 MiB and 11 bytes |
| UfsSizes.ReadDecodesIff | jetstream/src/ufs/mod.rs:799-823 | a Tread is sure of a reply that can be decoded exactly if count or message size keep it to 32 MiB of data |
| UfsSizes.RreadUndecodable | jetstream/src/ufs/mod.rs:799-823 | with messages of 64 MiB a read of 32 MiB and a byte can be answered by an Rread that cannot be decoded |
| UfsSizes.GetLockKeepsIff | jetstream/src/ufs/mod.rs:1246-1268 | a Tgetlock on an open file is sure of a reply within the message size exactly if 30 bytes and its client id fit |
| UfsSizes.RgetlockOutgrows | jetstream/src/ufs/mod.rs:1246-1268 | a client id of 227 letters makes a reply too long for messages of 256 bytes |
| UfsSizes.ReadlinkKeepsIff | jetstream/src/ufs/mod.rs:962-980 | a Treadlink on a bound fid is sure of a reply within the message size exactly if 9 bytes and the longest path fit |
| UfsSizes.RreadlinkOutgrows | jetstream/src/ufs/mod.rs:962-980 | a target of 248 to 4095 letters makes a reply too long for messages of 256 bytes |
| UfsSizes.WalkKeepsIff | jetstream/src/ufs/mod.rs:747-797 | a walk is sure of a reply within the message size exactly if it may not start, or 9 + 13 bytes for each name before the first with a NUL fit |
| UfsSizes.RwalkOutgrows | jetstream/src/ufs/mod.rs:747-797 | twenty one-letter names fit a request of 256 bytes but their reply does not |
| UfsServer.PageEncoded | jetstream/src/ufs/mod.rs:1161-1191 | the bytes written entry by entry are the encoding of the page |
| UfsServer.FillPage | jetstream/src/ufs/mod.rs:1161-1191 | the loop over directory entries fills exactly the page, or fails as it does |
| UfsServer.Fill | jetstream/src/ufs/mod.rs:1163-1187 | the same, over an iterator already positioned |
| UfsServer.Server.New | jetstream/src/ufs/mod.rs:442-454 | a new server has no fids, no case folding and the largest message size |
| UfsServer.Server.constructor | jetstream/src/ufs/mod.rs:456-477 | a configured server starts with no fids |
| UfsServer.Server.DoVersion | jetstream/src/ufs/mod.rs:722-739 | the new state and answer of a Tversion |
| UfsServer.Server.DoAttach | jetstream/src/ufs/mod.rs:685-720 | the new state and answer of a Tattach |
| UfsServer.Server.DoClunk | jetstream/src/ufs/mod.rs:838-848 | the new state and answer of a Tclunk |
| UfsServer.Server.DoWalkRequest | jetstream/src/ufs/mod.rs:747-797 | the new state and answer of a Twalk |
| UfsServer.Server.DoLopen | jetstream/src/ufs/mod.rs:883-894 | the new state and answer of a Tlopen |
| UfsServer.Server.DoLcreate | jetstream/src/ufs/mod.rs:896-943 | the new state and answer of a Tlcreate, half changed when the last lookup fails |
| UfsServer.Server.DoReaddir | jetstream/src/ufs/mod.rs:1142-1192 | the answer of a Treaddir; nothing changes |
| UfsServer.Server.Answer | jetstream/src/ufs/mod.rs:488-566 | the table of `handle`, case by case, is the specified dispatch |
| UfsServer.Server.AnswerMessage | jetstream/src/ufs/mod.rs:586-666 | the table of `handle_message`, written out a second time, is the same dispatch |
| UfsServer.Server.HandleFrame | jetstream/src/ufs/mod.rs:483-575 | `handle`: the specified new state and reply, errors turned into Rlerror |
| UfsServer.Server.HandleMessage | jetstream/src/ufs/mod.rs:578-677 | `handle_message`: a frame from the first `msize` bytes, the encoding of the reply `handle` would give it, and the input left unread; or no change |
| UfsServer.ExchangeSound | jetstream/src/ufs/mod.rs:578-677 | for every input and every message size from 256 on, what is written is the encoding of what `handle` returns on the decoded frame, keeps to the size rule, and reads back as that reply exactly if its data is at most 32 MiB |
| UfsServer.ExchangeReads | jetstream/src/ufs/mod.rs:578-586 | no more than the message size is read, and of a well-formed frame exactly the bytes its encoding has |
| UfsServer.SessionSound | jetstream/src/ufs/mod.rs:578-677 | over any series of inputs, every frame is answered with the encoding of what `handle` returns in the state then reached, by the size rule for the message size then in force, which never grows |
| Paging.PageExact | jetstream/src/ufs/mod.rs:1142-1192 | a page holds the longest run of entries that fits, and is an error exactly if that run reaches an entry whose `stat` fails or whose name is not UTF-8, or the end of a listing that stops with an error |
| Paging.PageResumed | jetstream/src/ufs/mod.rs:1142-1192 | the page at the cookie of the last entry received starts with the next entry, dropped from the page before or not, or is the error of the first entry that cannot be reported |
| Paging.PageProgress | jetstream/src/ufs/mod.rs:1163-1187 | a page is empty exactly at the first entry too large for any page, and none reaches past it |
| Paging.DecodeOne | jetstream/src/ufs/tests.rs:378-382 | the client decodes the next entry and resumes at its offset |
| Paging.Fetch | jetstream/src/ufs/tests.rs:361-376 | a request at the client's offset returns the next page, and an error or an empty page exactly where what the client is handed ends |
| Paging.NextEntry | jetstream/src/ufs/tests.rs:360-385 | the iterator's step: the next entry, the end, or the error at which the client gives up |
| Paging.ReadAll | jetstream/src/ufs/tests.rs:357-385 | on an unchanging directory, whatever is in it, the client is handed its entries once and in order, each with its own name, type, cookie and qid, as many as `Handed` says, and then an empty page or the error |
| Paging.PagingComplete | jetstream/src/ufs/tests.rs:357-385 | that is the whole directory, without an error, exactly if every entry has a record of at most 256 bytes, a `stat` and a UTF-8 name, and fits a page on its own |
| Paging.TroubleCosts | jetstream/src/ufs/mod.rs:1163-1187 | otherwise an entry that cannot be reported costs the client the one before it, and all that would have shared their page |
| Paging.RoomyPages | jetstream/src/ufs/mod.rs:1155-1185 | with 260 bytes to a page no entry is too large |
| Paging.BigEntryEnds | jetstream/src/ufs/mod.rs:1177-1182 | with messages of 256 bytes, paging ends silently at a name of 224 letters |
| Paging.LongRecordLoses | jetstream/src/ufs/read_dir.rs:58-74 | a name of 240 letters after a short one leaves the client with EINVAL and neither entry |
| Paging.ReaddirDecodesIff | jetstream/src/ufs/mod.rs:1142-1192 | over all directories with distinct names and a cookie for each place, a Treaddir is sure of a page that can be decoded exactly if count or message size keep it to 32 MiB |
| Streams.DecodeEncoded | jetstream/src/wire_format_extensions.rs:22-71 | values encoded one after the other on a stream are decoded one after the other |
| Streams.ParseUnique | jetstream/src/wire_format_extensions.rs:22-71 | the same for any format whose values are read back with what follows left over |
| FrameWires.FramesChecked | jetstream/src/coding/messages.rs:170-316 | every T frame that decodes is read back from its encoding, unless its body is malformed: then the encoder fails before writing |
| FrameWires.ReplyFaithful | jetstream/src/coding/messages.rs:401-523 | every R frame that can be sent is read back on any stream |
| FrameWires.ReplySettled | jetstream/src/coding/messages.rs:361-523 | an R frame the encoder accepts is read back before any bytes if its data is at most 32 MiB, and else before none |
| FrameWires.RequestsUnique | jetstream/src/coding/messages.rs:127-316 | concatenated T frames parse in one way only: of two parses of the same bytes one extends the other |
| FrameWires.RepliesUnique | jetstream/src/coding/messages.rs:361-523 | the same for R frames |
| Actor.TurnsLinked | jetstream/src/server/ufs.rs:42-51 | serving requests one at a time: each starts where the one before it ended |
| Actor.ReadKeeps | jetstream/src/server/quic_server.rs:60-82 | reading a request from any stream keeps the system invariant |
| Actor.ServeKeeps | jetstream/src/server/ufs.rs:42-51 | serving the oldest request keeps it |
| Actor.DeliverKeeps | jetstream/src/server/quic_server.rs:83-93 | writing a reply out keeps it |
| Actor.RunKeeps | jetstream/src/server/quic_server.rs:60-96 | it holds in every state of every interleaving |
| Actor.Linearizable | jetstream/src/server/ufs.rs:41-85 | in every interleaving replies are those of serving all requests one at a time in enqueue order, each stream makes each of its requests once and in order, and has written the replies to its own calls in the order of the calls |
| Actor.NoDeadlock | jetstream/src/server/ufs.rs:41-85 | while a stream is not closed some task can move |
| Actor.Complete | jetstream/src/server/ufs.rs:41-85 | when none can, every call has been answered and every stream has all its replies |
| Actor.RunsEnd | jetstream/src/server/quic_server.rs:60-96 | no run goes on for ever: its length is bounded by the input |
| UfsActor.SerialIsRun | jetstream/src/server/ufs.rs:41-51 | serving the queue is a run of the file server, request by request |
| UfsActor.ConcurrentIsSequential | jetstream/src/server/ufs.rs:41-85 | every state of a concurrent run is reached by a sequential run of the server with the same replies |
| UfsActor.SharedSizes | jetstream/src/server/quic_server.rs:60-96 | in every state of every concurrent run, each reply keeps to the size rule for the message size in force when it was made, an Rgetlock to its own request |
| UfsActor.StreamsComplete | jetstream/src/server/quic_server.rs:60-96 | once nothing can move, every stream has read all frames of its input and been sent the replies to all of them, in order, at every message size from 256 on |
| UfsActor.SharedComplete | jetstream/src/server/quic_server.rs:60-96 | the same for the server itself over the T and R formats, and a client that decodes its stream gets exactly those replies as long as none carries more than 32 MiB |
| UfsActor.Queue.constructor | jetstream/src/server/ufs.rs:20-33 | a new queue is empty |
| UfsActor.Queue.Call | jetstream/src/server/ufs.rs:62-84 | a call appends its request with a fresh slot |
| UfsActor.Queue.ServeNext | jetstream/src/server/ufs.rs:43-48 | one turn serves the oldest request and fills its slot with the reply |
| UfsActor.Queue.Drain | jetstream/src/server/ufs.rs:42-51 | serving until the queue is empty is the sequential specification, fills every slot with its own reply and touches no other |
| Proxy.ForwardKeeps | jetstream/src/server/proxy.rs:163-179 | forwarding a request keeps the connection invariant, for any client bytes |
| Proxy.ReturnKeeps | jetstream/src/server/proxy.rs:180-186 | so does returning a reply, which crashes exactly if the reply cannot be decoded |
| Proxy.RunKeeps | jetstream/src/server/proxy.rs:163-187 | it holds in every reachable state, whatever the server manages to send |
| Proxy.Transparent | jetstream/src/server/proxy.rs:163-187 | for a stream of well-formed requests what went upstream is a prefix of the client's bytes, at most one request is unanswered, and the replies delivered are the server's to the first requests, in order |
| Proxy.CrashCause | jetstream/src/server/proxy.rs:163-187 | on such a stream the proxy unwraps an error only where the answer to the last request cannot be decoded |
| Proxy.UnreadablePanics | jetstream/src/server/proxy.rs:180-186 | one request answered with a reply that cannot be decoded is a run that ends in the crash |
| Proxy.Relay | jetstream/src/server/proxy.rs:163-187 | the loop, for any client bytes: forwards the requests they hold and returns the answers, until bytes that are no request, a request the encoder refuses, or a request forwarded whose answer cannot be decoded |
| ProxyFrames.FramesTransparent | jetstream/src/server/proxy.rs:163-187 | transparency for every client stream of T frames within the limits, over anything that is the two frame formats, and the one cause of a crash |
| ProxyFrames.ProxyTransparent | jetstream/src/server/proxy.rs:163-187 | the same at the two frame formats themselves; no answer within the limits makes the proxy crash |
| ProxyFrames.LargeReadPanics | jetstream/src/server/proxy.rs:180-186 | in front of a file server with messages of 64 MiB, one Tread makes the proxy crash |
| Aml.ByteVec.InsertFront | libcrosvm/acpi_tables/src/aml.rs:728-733 | inserting a length's bytes at the front, last first, puts them there in order |
| Aml.IntegerToAmlBytes | libcrosvm/acpi_tables/src/aml.rs:175-226 | pushing an integer's prefix and bytes appends its emitted form |
| Aml.PathToAmlBytes | libcrosvm/acpi_tables/src/aml.rs:126-148 | pushing the root, the count and then part by part appends a path of at least one part |
| Aml.EntriesToAmlBytes | libcrosvm/acpi_tables/src/aml.rs:905-916 | the loop over fields appends the field list |
| Aml.FieldToAmlBytes | libcrosvm/acpi_tables/src/aml.rs:896-928 | a field declaration is built in a vector of its own and its length and opcode inserted in front |
| Aml.BufferToAmlBytes | libcrosvm/acpi_tables/src/aml.rs:1478-1494 | so is a buffer, its data preceded by their length |
| Aml.ToAmlBytes | libcrosvm/acpi_tables/src/aml.rs:721-1298 | the emitter that grows a vector in place appends exactly the term's encoding, unless a path has no segment |
| Aml.ValidSegmented | libcrosvm/acpi_tables/src/aml.rs:126-148 | what the grammar admits never makes the emitter panic for want of a segment |
| Aml.OperandsToAmlBytes | libcrosvm/acpi_tables/src/aml.rs:1040-1076 | the same for operands, in order |
| Aml.ChildrenToAmlBytes | libcrosvm/acpi_tables/src/aml.rs:754-772 | the same for a list of children |
| AmlParser.IntegerParse | libcrosvm/acpi_tables/src/aml.rs:176-226 | an integer is read back from the form emitted |
| AmlParser.IntegerShortest | libcrosvm/acpi_tables/src/aml.rs:176-226 | no shorter bytes read as the integer: the form is the narrowest that holds it |
| AmlParser.TextParse | libcrosvm/acpi_tables/src/aml.rs:423-447 | a string without NUL is read back |
| AmlParser.PathParse | libcrosvm/acpi_tables/src/aml.rs:126-172 | a path of 1 to 255 segments, with or without root, is read back |
| AmlParser.PathShortest | libcrosvm/acpi_tables/src/aml.rs:126-148 | no shorter bytes read as the path |
| AmlParser.PkgLengthParse | libcrosvm/acpi_tables/src/aml.rs:338-374 | a package length, its own bytes counted or not, is read back exactly below 2^28 |
| AmlParser.PkgLengthShortest | libcrosvm/acpi_tables/src/aml.rs:338-374 | no shorter package length counts itself and the same data |
| AmlParser.FieldLengthShortest | libcrosvm/acpi_tables/src/aml.rs:905-916 | a field's length, which does not count itself, is the shortest exactly if it is not 63, 4094 to 4095 or 1048573 to 1048575 |
| AmlParser.EntriesParse | libcrosvm/acpi_tables/src/aml.rs:896-944 | a field list is read back entry by entry |
| AmlParser.ParseEmit | libcrosvm/acpi_tables/src/aml.rs:721-1298 | a parser for the grammar recovers every valid term and stops exactly at the bytes that follow |
| AmlParser.EmitPrefixFree | libcrosvm/acpi_tables/src/aml.rs:721-1298 | no term's encoding is a prefix of another's |
| AmlParser.PackageReadsBack | libcrosvm/acpi_tables/src/aml.rs:266-292 | a package reads back with its elements, and their count is right exactly up to 255 |
| AmlParser.MethodReadsBack | libcrosvm/acpi_tables/src/aml.rs:814-833 | a method reads back with its flags, whose argument count is right exactly up to seven |
| AmlParser.NumberExamples | libcrosvm/acpi_tables/src/aml.rs:1957-2056 | the bytes of numbers of one, two and four bytes |
| AmlParser.PathExamples | libcrosvm/acpi_tables/src/aml.rs:1938-1954 | the bytes of paths of one, two and three segments |
| AmlParser.PackageExample | libcrosvm/acpi_tables/src/aml.rs:1913-1926 | the bytes of a package of one element |
| AmlParser.MethodExample | libcrosvm/acpi_tables/src/aml.rs:2088-2095 | the bytes of a method that returns a number |
| Sdt.ChecksumUnique | libcrosvm/acpi_tables/src/lib.rs:14-16 | of all checksum bytes exactly the one stored makes the table sum to zero |
| Sdt.ChecksumZero | libcrosvm/acpi_tables/src/lib.rs:14-16 | a checksum of zero says that the table sums to zero |
| Sdt.RunBalanced | libcrosvm/acpi_tables/src/sdt.rs:82-121 | every sequence of appends and writes keeps the sum zero |
| Sdt.RunFrame | libcrosvm/acpi_tables/src/sdt.rs:92-121 | no operation changes a byte it does not name, the checksum aside |
| Sdt.LastWriteWins | libcrosvm/acpi_tables/src/sdt.rs:102-121 | a read returns the last value written there unless it covers the checksum byte |
| Sdt.WriteOverChecksum | libcrosvm/acpi_tables/src/sdt.rs:113-121 | a value over the checksum byte reads back exactly if it balances the table |
| Sdt.AppendSetsLength | libcrosvm/acpi_tables/src/sdt.rs:92-100 | an append makes the length field right whatever was there |
| Sdt.RunLength | libcrosvm/acpi_tables/src/sdt.rs:92-121 | the length field tracks the table through every run in which no write has touched it since the last append |
| Sdt.NewTableStarts | libcrosvm/acpi_tables/src/sdt.rs:30-63 | a new table sums to zero, and its length field is right exactly from 36 bytes on |
| Sdt.NewTableLayout | libcrosvm/acpi_tables/src/sdt.rs:30-63 | the header fields lie where section 5.2.6 of the ACPI Specification has them |
| Sdt.TableInvariant | libcrosvm/acpi_tables/src/sdt.rs:30-121 | from a new table of at least 36 bytes every run keeps both promises |
| Sdt.SavedLoads | libcrosvm/acpi_tables/src/sdt.rs:65-76 | what any run makes of a new table is accepted again from a file |
| Sdt.Checksum | libcrosvm/acpi_tables/src/lib.rs:14-16 | the wrapping loop computes the checksum byte |
| Sdt.Table.constructor | libcrosvm/acpi_tables/src/sdt.rs:30-63 | building the header piece by piece gives the specified table |
| Sdt.Table.UpdateChecksum | libcrosvm/acpi_tables/src/sdt.rs:82-86 | only the checksum byte changes, and the table balances |
| Sdt.Table.Append | libcrosvm/acpi_tables/src/sdt.rs:92-100 | the specified append |
| Sdt.Table.WriteAt | libcrosvm/acpi_tables/src/sdt.rs:113-121 | the specified write, ignored when out of range |
| Sdt.Table.ReadAt | libcrosvm/acpi_tables/src/sdt.rs:102-111 | the bytes at an offset, or zero when out of range |
| Sdt.FromFile | libcrosvm/acpi_tables/src/sdt.rs:65-76 | exactly the files that sum to zero are accepted, and taken as they are |
| PciTopology.VisitOnce | libcrosvm/arch/src/lib.rs:881-955 | in a tree of buses every device on a reachable bus gets each of its calls exactly once and no other device gets any |
| PciTopology.WindowLast | libcrosvm/arch/src/lib.rs:894-936 | a bridge window is configured only after every call on every device behind it |
| PciTopology.VisitBlocks | libcrosvm/arch/src/lib.rs:905-947 | the calls on one device follow each other: for a bridge its window first and its subordinate number last, and I/O ranges right before the others |
| PciTopology.VisitOrder | libcrosvm/arch/src/lib.rs:892-953 | on one bus the ranges of bridges are claimed before those of other devices, and either in the order of the list |
| PciTopology.HighestIsMax | libcrosvm/arch/src/lib.rs:890-936 | the subordinate number is the greatest reachable bus number |
| PciTopology.Siblings | libcrosvm/arch/src/lib.rs:892-936 | what lies behind two bridges of one bus has nothing in common |
| PciTopology.Topology.constructor | libcrosvm/arch/src/lib.rs:1017-1030 | nothing is recorded at the start |
| PciTopology.Topology.AllocateBars | libcrosvm/arch/src/lib.rs:917-929 | both kinds of range of one device are claimed, in order, and what is recorded and returned is what the calls yielded |
| PciTopology.Topology.FinishBridge | libcrosvm/arch/src/lib.rs:905-933 | a bridge's window is given what is behind and recorded as it was yielded, then come its own ranges and its subordinate number |
| PciTopology.Topology.GenerateBehind | libcrosvm/arch/src/lib.rs:896-934 | one bridge: everything behind it first |
| PciTopology.Topology.GenerateBridges | libcrosvm/arch/src/lib.rs:892-936 | the first pass over the devices of a bus |
| PciTopology.Topology.GenerateLeaves | libcrosvm/arch/src/lib.rs:938-953 | the second pass over the devices that are not bridges |
| PciTopology.Topology.Generate | libcrosvm/arch/src/lib.rs:881-955 | the recursion ends and makes exactly the specified calls in order, or stops in the middle on a failure; every record is complete and is what its call, made then, yielded, every window is given the ranges of the bus behind it, and only devices below change |
| Intx.AssignPool | libcrosvm/arch/src/lib.rs:1044-1100 | every step keeps the drawn numbers distinct, fresh and at most `max_irqs`; the remainder by zero is reached exactly if no number may be drawn and a device asks for one |
| Intx.AssignTable | libcrosvm/arch/src/lib.rs:1050-1124 | every device gets its fixed line, the line of its key, or none, as it asked |
| Intx.Sharing | libcrosvm/arch/src/lib.rs:1044-1124 | devices with equal bus, device and pin share a line, at most `max_irqs` are drawn, and none was reserved before |
| Intx.LineGiven | libcrosvm/arch/src/lib.rs:1062-1100 | the first device of a key gets the pin of its function and the line then drawn or, once `max_irqs` are, the one its place in the list falls on |
| Intx.FixedClash | libcrosvm/arch/src/lib.rs:1054-1100 | the line fixed for a device is also drawn for others exactly if it was drawn before that device was served; none fixed earlier is ever drawn |
| Intx.ClashIff | libcrosvm/arch/src/lib.rs:1054-1100 | whatever the pool draws, a fixed line is drawn for no other device exactly if none may be drawn, no earlier device asks for any, or the line is reserved before the first that does |
| Intx.FixedClashes | libcrosvm/arch/src/lib.rs:1054-1100 | a device that draws line 5 and a later one for which it is fixed share it |
| Intx.NoSharingIff | libcrosvm/arch/src/lib.rs:1075-1100 | distinct keys get distinct lines exactly while there are no more keys than `max_irqs` |
| Intx.AssignIrqs | libcrosvm/arch/src/lib.rs:1044-1124 | the loop computes the specified assignment, its failure or its panic |
| CpuSets.ParseRangeText | libcrosvm/arch/src/lib.rs:165-197 | a printed range reads back as its bounds exactly when they are in order |
| CpuSets.Lossless | libcrosvm/arch/src/lib.rs:243-312 | expanding the serialized form gives the same sequence, order and duplicates kept, exactly if the largest index is never followed by zero |
| CpuSets.Shortest | libcrosvm/arch/src/lib.rs:273-312 | no shorter list of elements expands to the same sequence |
| CpuSets.RangesAreLong | libcrosvm/arch/src/lib.rs:281-289 | a range is printed only where it spans more than one CPU |
| CpuSets.TextExample | libcrosvm/arch/src/lib.rs:281-289 | the range from 8 to 12 is printed as `8-12` |
| CpuSets.LosslessChecked | libcrosvm/arch/src/lib.rs:273-312 | so it does whenever no zero comes after the first place |
| CpuSets.WrapLoses | libcrosvm/arch/src/lib.rs:295-305 | the smallest sequence that does not read back |
| CpuSets.Serialize | libcrosvm/arch/src/lib.rs:273-312 | the loop with a current range computes the serialized form, and with overflow checks panics exactly on a later zero |
| CpuSets.Deserialize | libcrosvm/arch/src/lib.rs:243-265 | the loop over elements computes their expansion or the first error |
| BitFields.StoreIsRecordUpdate | libcrosvm/bit_field/bit_field_derive/bit_field_derive.rs:478-522 | storing a field is a record update: the value modulo 2^width there, every other field as before |
| BitFields.RecordDetermines | libcrosvm/bit_field/bit_field_derive/bit_field_derive.rs:444-475 | the fields, at offsets that are prefix sums, cover every bit: equal records are equal bytes |
| BitFields.ByteNumber | libcrosvm/bit_field/bit_field_derive/bit_field_derive.rs:558-600 | eight bits from a byte boundary are that byte |
| BitFields.BitStruct.constructor | libcrosvm/bit_field/bit_field_derive/bit_field_derive.rs:444-475 | a new struct has the bytes its widths need, all zero |
| BitFields.BitStruct.GetBit | libcrosvm/bit_field/bit_field_derive/bit_field_derive.rs:558-569 | one bit of the byte array |
| BitFields.BitStruct.SetBit | libcrosvm/bit_field/bit_field_derive/bit_field_derive.rs:571-587 | that bit changes and no other |
| BitFields.BitStruct.Get | libcrosvm/bit_field/bit_field_derive/bit_field_derive.rs:588-600 | the bit loop computes the number held there |
| BitFields.BitStruct.Set | libcrosvm/bit_field/bit_field_derive/bit_field_derive.rs:602-612 | the bit loop stores the low bits of the value and leaves all others alone |
| BitFields.BitStruct.GetField | libcrosvm/bit_field/bit_field_derive/bit_field_derive.rs:502-508 | a field's getter returns the record's entry |
| BitFields.BitStruct.SetField | libcrosvm/bit_field/bit_field_derive/bit_field_derive.rs:510-516 | a field's setter updates the record's entry and no other |
| Syslog.SplitUnique | libcrosvm/base/src/syslog.rs:471-499 | there is only one way to cut a stream at its newlines |
| Syslog.LinesAppend | libcrosvm/base/src/syslog.rs:471-499 | lines already split off do not matter to what follows |
| Syslog.SplitIsLines | libcrosvm/base/src/syslog.rs:476-477 | splitting up to the last newline gives the stream's lines |
| Syslog.TrimIs | libcrosvm/base/src/syslog.rs:478-482 | one carriage return right before the newline is dropped, and nothing else |
| Syslog.LastLf | libcrosvm/base/src/syslog.rs:476-476 | the position of the last newline, if there is one |
| Syslog.Syslogger.constructor | libcrosvm/base/src/syslog.rs:452-458 | nothing is held back at the start |
| Syslog.Syslogger.Write | libcrosvm/base/src/syslog.rs:471-502 | one write sends the lines that are complete, one carriage return trimmed, and keeps the rest |
| Syslog.Syslogger.WriteAll | libcrosvm/base/src/syslog.rs:471-502 | however a stream is cut into writes, the log gets its lines and the buffer its unfinished rest |

## Left out

- System calls, reopening through `/proc/self/fd` and the mapping of open flags: only the answers of a `World`, which do not change while one request is served.
- The bodies of `set_attr`, `link`, `rename_at`, `unlink_at` and `fsync`: only their checks and their outcome; they change no fid.
- Frames are encoded and decoded on values: the reader's and writer's positions are the bytes that remain.
- UfsServer.Server.HandleMessage: does not model a writer that fails.
- UfsActor.Queue.Drain: does not model a caller that abandons its reply slot, on which the source panics.
- Actor.Linearizable: does not model tokio's scheduler, QUIC or TLS, only ordered byte streams, a FIFO queue and one-shot slots.
- Proxy.Relay: takes the server's reply to each request from a parameter; a connection that breaks is not modelled.
- The codecs of `Option`, `()`, `io::Result` and `i32`: they have no useful round trip.
- Machines that are not little-endian, on which integers would be written in another order than they are read.
- AML `MethodCall`, raw field names, `BufferTerm`, resource descriptors, `Uuid` and EISA names: arity is contextual, or bytes are raw.
- Aml.ToAmlBytes: requires a segment in every path, as the source does; its panic is not modelled.
- Sdt.Table.constructor: requires a length of at least 10, as the source does; its panic on a shorter one is not modelled, nor in `NewTableStarts`.
- UfsReplies.ReadsInOrder: takes the contents of the file not to change between reads; each may fall short or fail.
- UfsReplies.WritesInOrder: takes the kernel to write a first part of what it is given, or to fail and write nothing.
- Paging.ReadAll: takes the directory and the answers about it not to change between pages, and no `getdents64` to fail.
- PciTopology.Topology.Generate: takes the buses to form a tree, and each child bus to name the bus of its bridge as its parent; `add_child_bus`, which checks both and may fail, is not modelled.
- Intx.AssignIrqs: does not model event creation and registration, which may fail between two devices.
- CpuSets.Deserialize: serde's choice between integer and string elements is given; `FromStr` on comma-separated lists is not modelled.
- BitFields.BitStruct.Set: models release builds, without the debug assertions on values and offsets; enum specifiers are not modelled.
- Syslog.Syslogger.Write: records a line's bytes before their lossy conversion to text; filters and log levels are not modelled.
- `SDT::is_signature` and `SDT::len`, which read a field, and the reading of the file in `SDT::from_file`.
- The client library, the file-system trait, virtual machine assembly, device trees, command lines and build scripts.

# 9pfs: a model of the 9P client and proofs about it

9pfs is a translator for the GNU Hurd that makes a 9P file server available as a file system. This
project models its core in Dafny and proves what that core promises. `dafny verify dfyconfig.toml`
checks all of it.

| files | what they model |
|---|---|
| `Demux`, `DemuxMonitor`, `DemuxSafety`, `DemuxTheorems`, `DemuxProgress` | the reply demultiplexer of `9p-rpc.c`: many threads, one input stream, a token that is taken, handed over and released |
| `DemuxReceive` | the demultiplexer joined to the receiver: what a call returns, end to end |
| `Bytes`, `Wire`, `Senders`, `Recv`, `RecvLaws`, `ReplyLaws` | the format-driven codec of `9p-rpc.c`: size counter, writer, framed send under the write mutex, receiver with its error replies and its draining of unread bytes |
| `Stat`, `StatLaws` | the second, hand-written codec of `9p.c`: stat records, directory entries, the wstat message |
| `Listing`, `Readdir` | `dir-readdir.c`: the buffered directory cursor and the packed output |
| `Server`, `Ledger`, `Fids` | a 9P server as its clients see it (live fids over a tree of files) and the operations that create and destroy fids |
| `Paths`, `Lookup`, `LookupLaws` | `dir-lookup.c` without O_CREAT: the path scan fused with walks of at most sixteen names |
| `Io`, `Runs` | reading and writing through a protid, and runs of any operations |

The demultiplexer is a transition system: each critical section of the mutex is one action, calls
interleave freely, there are any number of them, wakeups may be spurious and replies come in any
order. `DemuxMonitor` has the critical sections as they are written, on the program's own
variables. What runs step by step in the source is a method with loops here; the stream, the cursor,
the server and the client are classes. Each method is tied to a specification function, or to the
codec it duplicates, about which the lemmas speak.

## What the proofs assume

- Demultiplexer: the server answers each request once, after it was sent, in a frame of at least 7
  and less than 2^32 bytes. The input stream does not fail and condition waits do not fail. The
  runs considered are those in which no call is registered under a tag that is still in use and no
  read of a body goes on into the next frame. The program enforces neither; `StepKeepsInv` shows
  that nothing else is needed, and `EndToEnd` that the second holds if no field of a reply straddles
  the end of its frame.
- Receiver: the end of the stream is modelled as no more bytes to be had; the program then reports
  success, because the end of a file is not an error of the stream.
- The host is little-endian and memory allocation succeeds. A fid is never numbered 2^32 - 1.
- `O_ACCMODE` is `O_READ` and `O_WRITE`, as in the GNU C library for the Hurd, so that
  `p9_ensure_open` is never asked to open for execution. (It is modelled for that case as well.)
- Directory: it does not change, its records are canonical, names have no NUL, `nentries` is at
  least -1 and `entry` at least 0, and the local `err` starts out as 0, which the source leaves to
  chance. In 9P2000.L the offset in an entry identifies the position after it; in the older
  protocols `bufsize` is 0 or has room for the next record, since otherwise the program reads at an
  offset for which read(5) promises nothing (`SmallBufferAstray`).
- Server: a walk whose first name fails is an error, no reply to a walk has more qids than names
  (what the program does with one that has is in `Judge`), a read returns nothing only at the end of
  the file, a write that is not empty and is accepted writes at least one byte and never more than
  was sent, the parent of the root is the root, and a reported iounit is 0 or at least 24. Apart
  from that any request may fail at any time, and a clunk or remove ends its fid even then. How many
  requests were refused, clunks apart, is recorded, so that failures can be traced to the server.
  Which names lead where does not change: the changes that mkdir, rmdir and unlink ask for are recorded,
  not carried out.

## What was found not to hold

Each has its exact condition or a concrete case among the members below.

- Registering a call under a tag that is still in use breaks delivery: of 65537 calls the last
  receives the reply to the first (`TagReuseBreaksDelivery`; `TagReuse` for the table). So does
  reading a body beyond its frame, for the call whose reply comes next (`StraddleBreaksDelivery`).
  The invariant is kept by every step but these two (`StepKeepsInv`).
- A call whose request could not be sent stays registered, and a wakeup given to it is lost
  (`FailedSendLosesWakeup`, `LostWakeupRun`, `ReleaseWakes`).
- A field that straddles the end of its frame is read past that end (`Resynchronised`,
  `StraddleExample`).
- The length of a wstat message's stat is kept in 16 bits (`WstatParsesBack`); a directory record's
  length likewise (`RecLenFits`).
- A rewind that fails to reopen the directory leaves the old buffer, renumbered from 0
  (`Cursor.ReadDir`, `StaleBufferMisnumbers`); an I/O fid that could be cloned but not opened is
  used by every later call (`Cursor.ReadDir`).
- A non-zero `bufsize` too small for the record at `entry` does not stop the reading. In 9P2000.L
  records that do not fit are skipped without being counted, so that the next one is taken for
  `entry` (`Cursor.ReadDir`) and a whole listing lacks exactly these (`ListAll`); in the older
  protocols the next read is at a wrong offset (`SmallBufferAstray`).
- A step out of the root goes unnoticed after a leading "." and where a later walk begins
  (`ReauthIff`, `DotHidesEscape`, `BoundaryHidesEscape`); the check for a directory is skipped when
  the last walk has no names (`DirectoryChecked`). The exit for something that is not a directory
  leaks a fid, always (`LeakIff`; `FileWithSlash` is such a lookup).
- When the last walk has no names, as in a lookup of "", "." or "/", the new node's qid path stays 0
  (`FindName`). From there ".." at the root is not noticed (`UnrecordedRoot`), and if the root's own
  path is 0, ".." elsewhere is taken for a step out of it (`FalseEscape`); `RootEscape` says exactly
  when this matters.
- At the least permitted message size nothing can be transferred, which reads like the end of the
  file (`IoRead`). An iounit between 1 and 23 makes a limit too small (`LimitStaysWorkable`).

## Model

| member | source | states |
|---|---|---|
| Bytes.LeWidths | 9p-rpc.c:235-272 | an integer stored in 1, 2, 4 or 8 bytes and loaded again is the same integer if it fits that width |
| Bytes.LittleEndian | 9p-rpc.c:235-272 | the least significant byte comes first |
| Wire.SerializedSize | 9p-rpc.c:150-207 | the size counter returns, modulo 2^32, the length of exactly the bytes the writer produces, for every list of format characters |
| Wire.CountNames | 9p-rpc.c:192-200 | so it does for string arrays cut at '/' |
| Wire.SendItem | 9p-rpc.c:232-324 | one argument writes its own encoding, or the prefix of it that the stream takes, and fails exactly in that case; for a string array, each string's 16-bit length and then its text (`WalkRoundTrip`, `TwalkBytes`) |
| Wire.DoSend | 9p-rpc.c:223-327 | the body writer offers the stream the concatenated encodings, in order, and succeeds exactly if all of it was taken |
| Wire.Send | 9p-rpc.c:330-380 | a framed send offers header and body, with the size the counter gave |
| Wire.DeclaredSizeIsLength | 9p-rpc.c:340-366 | the size in the header is the frame's length exactly if that is below 2^32 |
| Wire.FrameLayout | 9p-rpc.c:347-366 | a frame has its size modulo 2^32 in bytes 0 to 4, its type at 4, its tag in 5 to 7, and then the body |
| Wire.TwalkBytes | 9p-rpc.c:303-320 | a Twalk of one name, byte by byte |
| Senders.RunKeepsInv | 9p-rpc.c:350-369 | in every interleaving of senders the stream is whole frames and a prefix of the frame of the sender that has the write mutex |
| Senders.CanSend | 9p-rpc.c:350-369 | a sender that finds the mutex free can send its whole frame, in any two pieces, and is done only then |
| Senders.StreamDeframes | 9p-rpc.c:347-369 | that stream, cut by its size prefixes, yields exactly the messages completed, in the order of the mutex, and the unfinished rest |
| Recv.InStream.ReadSlot | 9p-rpc.c:464-619 | reading one field from the stream is the parse of that field at the stream's position |
| Recv.InStream.ReadBody | 9p-rpc.c:464-619 | the receive loop reads what parsing the bytes of the stream gives, and advances by what the parse consumes |
| Recv.InStream.DoRecv | 9p-rpc.c:403-650 | receiving, with Rlerror, the recursive Rerror and a wrong type, is the specified outcome at the specified position, and releases the token once, after all of the frame has been read |
| Recv.InStream.Drain | 9p-rpc.c:621-631 | what a frame has left is read and dropped |
| RecvLaws.Resynchronised | 9p-rpc.c:422-631 | a receive ends at its frame's end, and depends on nothing beyond, if no field it reaches straddles that end; and once a next frame has begun, only if |
| RecvLaws.StraddleExample | 9p-rpc.c:466-473 | a concrete frame in which a field straddles the end, and a receive that eats into the next frame |
| RecvLaws.ParseAdvances | 9p-rpc.c:464-619 | parsing never moves back, whatever the bytes |
| RecvLaws.RoundTrip | 9p-rpc.c:232-324 | what was sent is received with the same values from anywhere in a stream, ending at the frame's end; a string array as its strings, each cut at the slash |
| RecvLaws.WalkRoundTrip | 9p-rpc.c:303-320 | a Twalk's arguments are read as two fids, the number of names and every name up to its slash, in order |
| RecvLaws.EncodingInjective | 9p-rpc.c:232-324 | two argument lists of one format with the same encoding have the same values, string arrays included |
| RecvLaws.OptionalTail | 9p-rpc.h:43-66 | '?' yields 0 exactly if the body ended at that boundary, and then the receive succeeds with what came before |
| ReplyLaws.NumberedError | 9p-rpc.c:426-434 | an Rlerror, type 7, fails the call with the number that it carries, and ends at its frame's end |
| ReplyLaws.TextError | 9p-rpc.c:435-451 | an Rerror, type 107, with the number of the .u dialect or without, fails the call with its text |
| ReplyLaws.UnexpectedType | 9p-rpc.c:452-458 | a reply of any other type is skipped and fails the call with EIEIO |
| ReplyLaws.MissingField | 9p-rpc.c:466-474 | a frame that ends where a field should begin fails the call with EIO, after the fields it has |
| ReplyLaws.TooMuchData | 9p-rpc.c:528-548 | more data than the caller has room for fails the call with EOVERFLOW, and is skipped |
| ReplyLaws.StreamEnds | 9p-rpc.c:487-547 | a stream that ends within a field gives the fields before it, and no error |
| ReplyLaws.QidPlaces | 9p-rpc.c:589-612 | the i-th qid of an array is the 13 bytes at its place: type, version, path |
| ReplyLaws.Reencodes | 9p-rpc.c:464-619 | whatever bytes a format is met by, they are the encoding of the values received |
| DemuxMonitor.Monitor.RegisterInterest | 9p-rpc.c:45-55 | registering is the Register action, with the 16-bit tag counter |
| DemuxMonitor.Monitor.Recheck | 9p-rpc.c:70-98 | the code from the label `again` is the model's Again, and its assertion holds |
| DemuxMonitor.Monitor.Enter | 9p-rpc.c:68-98 | taking the mutex to wait, at first or after a wakeup, is the Enter action |
| DemuxMonitor.Monitor.GotHeader | 9p-rpc.c:116-139 | having read a header is the Dispatch action: its own, or filled in and handed to the call that waits for it |
| DemuxMonitor.Monitor.ReleaseToken | 9p-rpc.c:636-645 | giving up the token and signalling whichever table entry comes first is a Release action |
| DemuxSafety.HeaderFindsOwner | 9p-rpc.c:119-133 | a header read in any state that keeps the invariant is that of the current frame, and it is dispatched to the call that the frame answers |
| DemuxSafety.StepKeepsInv | 9p-rpc.c:44-146 | a step keeps the invariant (tables, token, stream, matching, calls) if and only if it neither registers under a tag in use nor reads a body beyond its frame |
| DemuxSafety.TagReuse | 9p-rpc.c:50-51 | registering under a tag in use leaves an earlier call that is no longer in the table |
| DemuxSafety.RunKeepsInv | 9p-rpc.c:44-146 | every run without these two steps, called a run below, keeps the invariant |
| DemuxTheorems.Delivery | 9p-rpc.c:57-139 | in every run a completed call has exactly the body and type of the frame that carries its tag and answers it |
| DemuxTheorems.TokenExclusive | 9p-rpc.c:70-98 | in every run the token is set if and only if exactly one call reads a header, was handed one, or reads a body |
| DemuxTheorems.AssertionsHold | 9p-rpc.c:76-133 | in every run none of the program's assertions can fail |
| DemuxTheorems.ReadsTileStream | 9p-rpc.c:102-114 | in every run each byte of each received frame was read once, its body by the call it answers, its header by one call |
| DemuxTheorems.NoLostWakeup | 9p-rpc.c:83-139 | in every run without failed sends, if the token is free and a call is registered, some call is not asleep |
| DemuxTheorems.ReleaseWakes | 9p-rpc.c:636-645 | a release leaves some registered call awake if and only if the entry it signals can take the wakeup or another is awake already |
| DemuxTheorems.FailedSendLosesWakeup | 9p-rpc.c:715-718 | a release that signals a call whose send failed leaves everyone asleep |
| DemuxTheorems.LostWakeupRun | 9p-rpc.c:715-718 | a concrete run that ends with the token free and a call asleep for ever |
| DemuxReceive.OwnBodyAlone | 9p-rpc.c:464-619 | a body received from within a stream straddles its end exactly if it does on its own, and if not gives the same values and error and ends at its own end |
| DemuxReceive.EndToEnd | 9p-rpc.c:667-681 | in every run a call about to read its body is at the body of the frame that answers it, and if no field straddles that frame's end it receives up to the next frame and returns what the format makes of that body alone |
| DemuxReceive.AnswerArrives | 9p-rpc.c:667-681 | in every run a call about to read its body gets the values that the server encoded in its reply, and ends at the next frame |
| DemuxReceive.RefusalArrives | 9p-rpc.c:426-434 | in every run a call that the server answers by an Rlerror fails with the number given |
| DemuxReceive.StraddleBreaksDelivery | 9p-rpc.c:466-473 | a concrete run in which a straddling field takes another call's reply, after which all replies are in, that call is not finished, and no thread can do anything |
| DemuxReceive.TagReuseBreaksDelivery | 9p-rpc.c:44-146 | a concrete run: after 65536 calls one more is registered under the tag of the first, whose reply it then takes as its own; the first is left without a reply or an entry in the table |
| DemuxProgress.NoDeadlock | 9p-rpc.c:70-139 | in every run without failed sends, an unfinished state has a step; one of the client's own if all replies are there |
| DemuxProgress.StepLowersMeasure | 9p-rpc.c:70-139 | every step of the client's own lowers a measure over frames left, signals and phases |
| DemuxProgress.SpuriousMeasure | 9p-rpc.c:86-93 | a spurious wakeup raises it by a fixed amount, which the sleep it causes takes back |
| DemuxProgress.RunIsBounded | 9p-rpc.c:70-139 | with all replies there, a run is no longer than the measure and twice its spurious wakeups |
| DemuxProgress.MaximalRunFinishes | 9p-rpc.c:621-645 | with all replies there, a run that cannot go on has finished every call |
| Stat.StatDeserialize | 9p.c:80-207 | the stat parser agrees with the format-driven codec on all bytes, in core and .u, success and failure |
| Stat.DirentDeserialize | 9p.c:210-251 | so does the directory entry parser |
| Stat.StatDontTouch | 9p.c:39-67 | every field of the "don't touch" stat, bit for bit |
| StatLaws.DontTouchSize | 9p.c:39-67 | its size field is its real encoded size less two |
| StatLaws.StatBounds | 9p.c:89-206 | a successful parse consumes at least the minimum and at most the record that its size declares, within the buffer |
| StatLaws.StatLocal | 9p.c:89-206 | bytes after the declared record have no influence |
| StatLaws.EncodedStatParses | 9p.c:79-207 | an encoded stat followed by anything is parsed to the same fields, consuming its length |
| StatLaws.StatLayout | 9p.c:80-207 | every field of an encoded stat stands at its place, the extension and the three numbers from 9P2000.u on |
| StatLaws.Wstat | 9p.c:254-298 | the arguments of the wstat request, with the 16-bit length and the length less two |
| StatLaws.WstatParsesBack | 9p.c:253-298 | the stat inside a wstat message parses back to the same fields, size and length if and only if the length less two fits 16 bits; the outer count is right if and only if the length does; the fid stands in front |
| StatLaws.EncodedDirentParses | 9p.c:218-250 | an encoded directory entry followed by anything parses to its fields and length |
| StatLaws.DirentLayout | 9p.c:210-251 | qid, offset, type and name of an encoded entry stand at their places |
| StatLaws.DirentBounds | 9p.c:218-250 | a successful parse consumes at least 24 bytes and stays within the buffer |
| Listing.FlatLength | dir-readdir.c:255-258 | before 9P2000.L the offset of an entry is the length of the records before it |
| Listing.RecLen | dir-readdir.c:29-33 | a record's length has room for header, name and NUL and is aligned |
| Listing.RecordPlaces | dir-readdir.c:119-135 | d_ino, d_reclen, d_type, d_namlen and the name stand at 0, 8, 10, 11 and 12, and the record is as short as the alignment lets it be |
| Listing.PackLenAligned | dir-readdir.c:123-125 | every record starts at a multiple of the alignment, whether that is 4 or 8 |
| Listing.Unpacks | dir-readdir.c:119-135 | following d_reclen through the output gives exactly the entries, in order, with their names |
| Listing.EntrySeen | dir-readdir.c:123-186 | what the caller sees of an entry: the path of its qid, its type and its name |
| Listing.TypeBits | 9p.c:357-376 | which mode bit gives which d_type, one at a time, and that the core protocol knows directories only |
| Listing.TypeOrder | 9p.c:360-375 | which of several mode bits decides |
| Listing.BlockDevices | 9p.c:378-399 | an extension of 'b' and two numbers is a block device's, and none that begins otherwise is |
| Listing.RecLenFits | dir-readdir.c:127-127 | the d_reclen that is stored is the record's length if and only if that fits 16 bits |
| Readdir.MakeSpace | dir-readdir.c:67-94 | room is refused exactly if a non-zero bufsize forbids it, and a grown buffer keeps what was written |
| Readdir.WriteRecord | dir-readdir.c:178-186 | the fields of one record at its place, and nothing before it changed |
| Readdir.Emit | dir-readdir.c:163-190 | one more record of the right length, earlier ones kept |
| Readdir.DirServer.Read | dir-readdir.c:255-258 | the server's side: its precondition is the offset rule of read(5), so every refill keeps it |
| Readdir.Cursor.ParseNext | dir-readdir.c:101-154 | the first buffered record is parsed by its version's parser to the entry next_entry |
| Readdir.Cursor.TakeBuffered | dir-readdir.c:96-200 | skipping and taking from the buffer return a slice of the listing and leave the encoding of the rest |
| Readdir.Cursor.Refill | dir-readdir.c:213-282 | a refill continues where the buffer ended, or behind the records skipped, or from 0 on a new fid; at most one rewind; it fails exactly if the server refuses a request, or has an entry longer than the bytes asked for |
| Readdir.Cursor.ReadDir | dir-readdir.c:36-295 | a call returns exactly the entries from `entry` on, none only at the end or if none were asked for, and as many as the buffer has, are asked for and fit; it fails exactly if the server refuses a request or an entry does not fit in two pages or one message; exactly when the cursor survives; termination. In 9P2000.L with a bufsize too small for the first record: which records are skipped, and that the rest is returned in their place, now and later |
| Readdir.Cursor.TakeOrSkip | dir-readdir.c:96-258 | one pass over the buffer that returns nothing leaves the offset at the next record to read, past one for which there was no room |
| Readdir.StaleBufferMisnumbers | dir-readdir.c:228-236 | after a failed rewind a call for entry 0 is answered with a later entry |
| Readdir.SmallBufferAstray | dir-readdir.c:121-258 | before 9P2000.L a bufsize without room for the first record makes the next read ask at an offset other than the one allowed |
| Readdir.ReturnedUnpacks | dir-readdir.c:117-134 | what a call returned, read by d_reclen, is the slice of the listing |
| Readdir.ListAll | dir-readdir.c:96-282 | advancing `entry` by what was returned enumerates the directory exactly once, from any cursor; in 9P2000.L for every bufsize, without exactly the records that do not fit in it. It succeeds if the server refuses nothing and every entry fits in two pages and one message |
| Ledger.ModeCovers | 9pfs.c:148-166 | taken on its own: the mode of an open provides what its flags ask for, execution aside, if and only if they do not combine execution and writing in an older protocol |
| Ledger.ModeProvides | 9pfs.c:148-166 | exactly which access an open asks for: reading and executing, or what is wanted or was there before, of reading and writing |
| Ledger.Conservation | 9pfs.c:169-194 | the live fids are those the protids own and the leaked ones; without protids only the leaked ones |
| Fids.LimitStaysWorkable | 9pfs.c:210-213 | the message limit becomes the least of itself and the iounit; it stays at least 24 and does not grow if and only if the iounit is 0 or at least 24 |
| Fids.Client.AllocFid | fid-alloc.c:27-30 | each fid is the next of a counter |
| Fids.Client.CloseIo | 9pfs.c:174-183 | the old I/O fid is gone, even if the server complains |
| Fids.Client.OpenIo | 9pfs.c:187-216 | a new I/O fid for the walk fid's file, open in the mode asked for, or unopened, or none; the node's limit is the least of its own and the iounit reported, no other changes; it fails exactly if the server refuses a request |
| Fids.Client.EnsureOpen | 9pfs.c:133-217 | afterwards the I/O fid is open for the flags, and replaced only if it is not recorded as open for them, with exactly the access that the mode stands for; exactly which live fids, flags and limits change, in success and in each failure; it fails exactly if the server refuses a request |
| Fids.Client.Rewind | dir-readdir.c:224-237 | forgetting the open flags makes the I/O fid a new one, open for reading, or ends in an error of the server |
| Fids.Client.Release | release-protid.c:32-46 | both fids of a protid are clunked once, and no other |
| Fids.Client.Attach | fsys-getroot.c:52-108 | an attach makes one fid for the root, with rollback leaving no trace; it fails exactly if the server refuses it |
| Ledger.MaskedMeets | fsys-getroot.c:112-112 | with flags masked as all callers mask them, an I/O fid is open for everything its flags say |
| Fids.MaskedNeverAborts | 9pfs.c:148-164 | with flags so masked the assertion against bad flags cannot fail |
| Fids.Client.GetRoot | fsys-getroot.c:29-130 | a protid for the root, with an I/O fid open for exactly what is asked of reading and writing, and none if neither is; any failure restores the protids and the live fids, and is the read-only mode's or a refusal of the server |
| Fids.Client.Reauthenticate | io-reauthenticate.c:29-104 | a second protid of the same description with a clone of the walk fid, or no change; it fails exactly if the user is not authenticated or the server refuses the clone |
| Fids.Client.Mkdir | dir-mkdir.c:29-67 | it asks for that directory only, and succeeds if and only if the server made it; the temporary fid ends with the operation: the live fids are the same after it, whatever failed; it fails only in read-only mode, by a refusal, or if the request is not supported |
| Fids.Client.RemoveName | dir-rmdir.c:28-64 | which changes it asks the server for: by name, or, if that is unsupported, the removal of exactly the file that the name leads to; it succeeds if and only if the last was done, and otherwise the mode is read-only or the server refused a request; the live fids are the same after it. dir-unlink.c differs in the flag for directories only |
| Paths.ScanFinds | dir-lookup.c:84-103 | the positions the scan collects are those of the path's components, empty and "." ones dropped, and it knows whether the path ends in one of those |
| Paths.PieceFirst | dir-lookup.c:84-103 | a piece before a slash is the first component, unless it is empty or "." |
| Paths.StripSlashes | dir-lookup.c:33-39 | leading slashes are skipped |
| Paths.OnlySlashesGone | dir-lookup.c:33-39 | all slashes in front are gone, and nothing else |
| Paths.PartIsDotDot | dir-lookup.c:73-74 | the test of two dots and a slash or the end finds exactly the component ".." |
| Lookup.WalkOn | dir-lookup.c:112-131 | one walk of at most sixteen names from the fid reached; that fid is given up, and a new one is held exactly if the walk was complete |
| Lookup.Judge | dir-lookup.c:133-179 | what the replies to one walk mean, in terms of resolving the whole path one component at a time; EIO exactly if there are more of them than names |
| Lookup.Round | dir-lookup.c:107-183 | a round that ends the lookup leaves no fid behind |
| Lookup.WalkPath | dir-lookup.c:84-286 | the scan terminates; the names walked are the components, in order; the node reached is the one that resolving them one at a time gives |
| Lookup.Settle | dir-lookup.c:283-368 | the fid held becomes a new protid's walk fid, opened as asked, or is clunked, exactly if the server refuses a request; except the exit for something not a directory |
| Lookup.FindName | dir-lookup.c:67-368 | the outcome is one that stepwise resolution allows; what is found, what is left behind, in every case: the fid of the last walk is leaked if and only if the whole path resolves and the answer is that it is not a directory |
| Lookup.Find | dir-lookup.c:42-369 | the same for the whole operation, with its first checks: read-only mode against O_WRITE and O_EXCL, and a step out of the root at once; what is found has an I/O fid open for exactly what is asked of reading and writing, and none if neither is; the server is blamed exactly if it refused a request |
| LookupLaws.ReauthIff | dir-lookup.c:72-161 | for all paths, starts and servers, the answer is to retry outside only if the path begins with ".." where the start is recorded to be the root, or stepwise resolution takes ".." at the root past the first component of a walk; and if so, always, unless the server refuses a request first |
| LookupLaws.RootEscape | dir-lookup.c:72-161 | for up to sixteen components not preceded by a dot, the answer is right (to retry outside if and only if stepwise resolution takes ".." at the root) if and only if the path does not begin with "..", or takes a later one at the root, or the start is recorded to be the root exactly if it is |
| LookupLaws.RetryRemains | dir-lookup.c:80-155 | for all starts and servers, the name to retry with has exactly the components after the first step out that is noticed |
| LookupLaws.MissingTells | dir-lookup.c:162-180 | for all paths, starts and servers, if resolution stops at a component and no step out is noticed: the error is that there is no such file in a directory, that something is no directory, or the server's own where a walk begins |
| LookupLaws.UnrecordedRoot | dir-lookup.c:320-321 | from a root recorded with path 0, ".." is not noticed |
| LookupLaws.FalseEscape | dir-lookup.c:320-321 | if the root's path is 0, ".." from another node recorded with path 0 is answered by retrying outside, though no step is taken at the root |
| LookupLaws.WalkCarriesComponents | dir-lookup.c:121-123 | the request, made from pointers into the path, carries the components |
| LookupLaws.WalkDelivers | dir-lookup.c:121-123 | the server reads from that request the fids, the number of components, and each of them |
| LookupLaws.DotHidesEscape | dir-lookup.c:72-82 | "./.." at the root is not noticed |
| LookupLaws.BoundaryHidesEscape | dir-lookup.c:143-147 | neither is ".." that begins a later walk |
| LookupLaws.DirectoryChecked | dir-lookup.c:283-288 | for all servers, something other than the directory asked for is found only if the last walk had no names, and the error for it is given only if it had some; exactly then, if no request is refused and no step out is noticed |
| LookupLaws.LeakIff | dir-lookup.c:283-288 | for all paths, starts and servers, a lookup leaks a fid only if the path resolves, without a noticed step out, to something other than the directory asked for by a last walk with names; and if so, always, unless the server refuses a request first |
| LookupLaws.FileWithSlash | dir-lookup.c:283-288 | looking up "a/" where a is a file leaks one fid: it stays live and no protid owns it |
| Io.IoRead | io-read.c:30-108 | a part of the file that the walk fid stands for is read, at the offset or at the file pointer, which moves by what was read; as much is asked for as fits in one message; nothing exactly at the end, for no bytes asked, or at the least limit; EBADF exactly if the description is not for reading, and otherwise it fails exactly if the server refuses a request |
| Io.IoWrite | io-write.c:30-86 | the file has the bytes written at that place and is otherwise the same; as much is sent as fits in one message, to a fid open for writing; EBADF and EROFS exactly where the source gives them, and otherwise it fails exactly if the server refuses a request |
| Io.ReadTwice | io-read.c:80-90 | two reads at the file pointer return the bytes that follow it, the second where the first ended, and move it by both lengths |
| Io.WriteTwice | io-write.c:65-80 | two writes at the file pointer are one write of both parts there, and move it by both lengths |
| Io.ExplicitOffset | io-read.c:80-90 | a transfer at an offset begins there and leaves the file pointer alone |
| Io.MessagesFit | io-read.c:52-54 | 24 bytes are enough for the headings of a Twrite and of an Rread |
| Io.WritesCompose | io-write.c:65-80 | writes at the moving file pointer add up to one write |
| Runs.Perform | 9pfs.c:132-217 | what each operation does to protids, open files, live fids, files and the tree, in success and in failure, and with which errors; none fails an assertion of p9_ensure_open |
| Runs.NothingRefused | 9pfs.c:185-216 | in a run in which the server refuses nothing no operation fails on its account, but the making of a directory that it does not support |
| Runs.EffectLimits | 9pfs.c:210-213 | no operation lets a message limit grow, or changes anything else of an open file but its file pointer |
| Runs.EffectLeaks | dir-lookup.c:283-288 | an operation leaks one fid if it is a lookup that resolved to something other than the directory asked for and said so, and otherwise none |
| Runs.Run | release-protid.c:27-46 | every run performs all its operations, each with its effect; afterwards the live fids are the disjoint union of what the protids own and what was leaked: exactly one more for each lookup of the history that resolved and ended for want of a directory; I/O fids are open for what their flags say; limits never grew and are workable; when the protids are gone nothing else is left |

## Left out

- Lookup.Find: does not model O_CREAT, whose path can walk from a fid already clunked.
- Wire.DoSend: after a failed write the stream is left as it is; no recovery is modelled because the program has none.
- Runs.Run: one operation runs at a time. The requests of operations on different protids, which the program lets interleave, are not interleaved here; those on one open file are kept apart by its node lock.
- Readdir.Cursor.ReadDir: the server's directory is seen through one protid and stays the same; the I/O fid is the class DirServer, not the ledger's. After a call that skipped records and then failed, what later calls return is not stated.
- Wrap-around of the 32-bit fid counter, and file pointers beyond 64 bits.
- The parts array of a lookup is a sequence with a proven bound of sixteen, and protids, open files and nodes are values in tables indexed by number: pointers shared between them are not modelled as such.
- Errors of the input stream and of condition waits, after which the token is freed without a wakeup.
- Which error number a failed request maps to, except where a branch depends on it; the tables of `9p-err.c`.
- Mach ports, message stubs, reference counts, `pthread` and hash table internals, memory allocation and its failures.
- `main.c` (connection setup, options, users), `netfs.c` (not compiled), debug dumps.
- `pager.c` and `io-map.c`, which their authors mark as unfinished; renaming, chmod, truncation, times and syncing; stat caching and `io-stat.c`; stubs that only return an error.
- Conversions of modes and flags other than the record type in `dir-readdir.c` and the open mode in `9pfs.c`.

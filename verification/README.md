# A verified model of the remote adapter

The remote adapter lets a program that runs on one host, the *brain host*, use files and subprocesses of another, the
*executor*. Its interceptors speak a small framed RPC to an adapter, the adapter serves each request locally or relays
it, and subprocesses run remotely behind a proxy that streams their input and output. This project models those parts
in Dafny and proves what they promise, over every input, every history and every interleaving of their steps.

Run `dafny verify dfyconfig.toml` to check everything.

| module | of the system |
|---|---|
| `Bytes`, `Streams` | machine words, byte strings, the two ends of a stream |
| `Fields`, `Protocol`, `Responses` | the IO-RPC wire format: builder, sticky-error parser, thirteen ops, framing |
| `FileService`, `FileLaws`, `FileServer` | one host's files and the file service on them; what each request does for its client; the request loop on a stream |
| `Paths`, `Routing` | lexical path cleaning; local or remote by prefix, in Go and in C |
| `Session` | the adapter's session over two file services, and the single service it stands for |
| `RpcPairing` | serialised RPC clients against failing connections, as a state machine |
| `ExecProto`, `ExecControl` | tagged frames and the sequential loops at the two ends of a subprocess stream |
| `ExecLink`, `ExecDownlink`, `ExecUplink` | the two directions of that stream as state machines over all interleavings |
| `ExecRewrite` | the Linux tracer's rewrite of a pending execve in tracee memory |
| `StopTheWorld` | collector, workers and tracer loop in a signal handshake, as a state machine |
| `CCodec`, `VirtualFile`, `Dirents`, `SlotTable` | the macOS library: its codec, read and write descriptors, directory records, slot table |
| `PairCode`, `RunArgs` | pairing codes; the run-mode command line |

Concurrent parts are state machines: a `Step` datatype, `Enabled`, `Apply`, and `IsRun` for a whole run. Sequential
parts that change state are classes and methods, each proved against a function on values; the lemmas are about that
function. Machine widths, truncation and wrap-around are written out.

Eight things here are worth knowing as a user of the system:

- A session behaves exactly like one file service on the merged files, down to the handle numbers, except that a rename
  across the routing boundary is refused (`Session.RunRefines`, `Session.RenameIsSingleIffNotCrossing`).
- The tracer cuts an argument vector at 1024 entries without a word: the rewritten command is the original one exactly
  when it has no more (`ExecRewrite.RewriteWrapsCommand`).
- A read on a virtual descriptor equals a local read exactly when what it asks for fits one frame
  (`VirtualFile.StepIsLocalIff`). A file written through one is silently left alone when it does not fit, and cut when
  its length is 4 GiB and a little more (`VirtualFile.Edit`, `VirtualFile.FirstOfFlush`).
- The native interceptors decide as the adapter does on every clean path exactly when nothing is remote by default and
  the cleaned prefixes and the tokens of their colon-joined list cover each other, which can be checked on the list
  (`Routing.NativeVerdictIff`); a prefix that contains a colon can break that (`Routing.ColonBreaksAgreement`).
- The interceptors compare a path as it comes, the adapter cleans it first. On paths that are not clean the two differ
  somewhere as soon as any prefix is configured (`Routing.RawVerdictIff`): with "/w", the interceptors forward "/w/../e",
  which is "/e", and keep a spelling of "/w" local that leads through a long-named directory and "..".
- A child that does not read its stdin holds up its signals. Everything is delivered exactly when the input is no longer
  than what the child has read and its pipe holds (`ExecUplink.QuietMeansDeliveredIff`); beyond that, no further signal
  arrives until the child reads on or closes its end (`ExecUplink.SignalStuckBehindStdin`, `ExecUplink.ParkedTakesNothing`).
- A spawn proxy whose stream is cut between two frames, or right behind a frame's header, reports success; cut anywhere
  else, it reports 127 (`ExecProto.CutStreamStatus`).
- A session whose remote connection failed once answers EIO to every later remote request
  (`RpcPairing.AfterFailure`, `RpcPairing.LossIsForGood`).

Where comments and code differ, the model follows the code: `splice` waits for both copy directions although its
comment says that either side's close ends it (internal/adapter/execbridge.go:57-80); CREATE opens an existing file
unless the exclusive flag is set, although its comment says that it never meets one
(internal/executor/fs.go:81-85); and a prefix "/" routes only "/" itself (internal/routing/routing.go:82-92).

## Model

| member | source | states |
|---|---|---|
| Session.StepRefines | internal/adapter/adapter.go:136-208 | one request through a session has the effect on the merged files and open handles, and the reply with its handle number, that a single service would give; a crossing rename gets EXDEV and changes nothing |
| Session.RunRefines | internal/adapter/adapter.go:61-80 | the same over every run of any number of connections that open, call and end in any order; every reachable state keeps the two stores apart and the handles in bijection |
| Session.RenameIsSingleIffNotCrossing | internal/adapter/adapter.go:152-161 | a session's rename is the single service's exactly when both paths route to the same side |
| Session.EventKeepsValid | internal/adapter/adapter.go:118-134 | after every event, adapter handles and live side handles of each connection are in bijection, counters are ahead of all handles, and no handle's file has vanished |
| Session.HandlesNeverReissued | internal/adapter/adapter.go:183-189 | over a run, the handles given to one connection are strictly increasing |
| Session.CloseRetires | internal/adapter/adapter.go:193-208 | closing a live handle succeeds and retires its number |
| Session.ClosedHandleIsDead | internal/adapter/adapter.go:200-202 | however the run goes on, using a retired number answers EBADF and leaves both sides and the connection as they are |
| FileService.RelayedRequest | internal/adapter/adapter.go:227-236 | a service does the same with a request reduced to the fields its op carries on the wire |
| FileService.RelayedReply | internal/executor/executor.go:92-93 | and loses nothing of its reply on the way back |
| Session.FindInMerge | internal/routing/routing.go:65-79 | a path names in the merged files what it names on the side it routes to |
| Session.ApplyInMerge | internal/adapter/adapter.go:164-169 | a change of names or contents on the side it routes to is the same change of the merged files |
| Session.Adapter.Handle | internal/adapter/adapter.go:136-150 | the dispatcher: new files on both sides, new handles and reply are those of the specification |
| Session.Adapter.Rename | internal/adapter/adapter.go:156-161 | refuses a crossing rename, otherwise forwards by the old path |
| Session.Adapter.ForwardByPath | internal/adapter/adapter.go:164-169 | serves on exactly the routed side |
| Session.Adapter.Open | internal/adapter/adapter.go:172-190 | numbers a side handle only when the open succeeded |
| Session.Adapter.ForwardByHandle | internal/adapter/adapter.go:193-208 | forgets the number first on a close, translates the handle, serves on its side |
| Session.Adapter.Close | internal/adapter/adapter.go:239-247 | leaves no handle open on either side |
| FileService.FSService.Handle | internal/executor/fs.go:35-66 | serves each file op with the new files, handles and reply of the specification |
| FileService.FSService.OpenWithMode | internal/executor/fs.go:87-104 | a successful open takes the next number; a failed one takes none |
| FileService.FSService.HandleByHandle | internal/executor/fs.go:182-219 | PREAD, PWRITE and CLOSE by handle, EBADF for an unknown one |
| FileService.FSService.Setattr | internal/executor/fs.go:154-180 | mode, size and times in order, stopping at the first error |
| FileService.FSService.CloseAll | internal/executor/fs.go:253-260 | no handle stays open; the counter keeps its value |
| FileService.WriteThenRead | internal/executor/fs.go:106-119 | bytes written through one handle are read back through any readable handle on the same file |
| FileService.OverwriteBytes | internal/executor/fs.go:113-113 | a positioned write changes the bytes it covers, zero-fills a gap and keeps every other byte |
| FileService.OtherFilesKeepTheirBytes | internal/executor/fs.go:121-204 | a request changes no file but the one its path or handle names; an unlinked file keeps its bytes for open handles |
| FileService.RenameMoves | internal/executor/fs.go:146-152 | after a rename the new name finds the file with its bytes and the old one nothing, handles are untouched |
| FileLaws.StatLaw | internal/executor/fs.go:68-75 | STAT answers the size of what the path finds, or ENOENT, and changes nothing |
| FileLaws.OpenLaw | internal/executor/fs.go:77-104 | OPEN and CREATE: an absent file is made, empty, exactly if the flags or the op ask for it; a present one is refused if it was to be exclusive, emptied if it was to be truncated, and else left alone; the new handle reads and writes by the low two flag bits and appends by O_APPEND; every other path and handle keeps what it had |
| FileLaws.PreadLaw | internal/executor/fs.go:182-196 | PREAD answers the bytes there are in the range asked for, through readable handles only |
| FileLaws.PwriteLaw | internal/executor/fs.go:106-119 | PWRITE puts its bytes where it says, zero-fills a gap, answers their number, and needs a writable handle that does not append |
| FileLaws.CloseLaw | internal/executor/fs.go:206-219 | CLOSE forgets that handle and no other |
| FileLaws.WriteFileLaw | internal/executor/fs.go:198-204 | WRITEFILE leaves the file with exactly the data, in place if there was one |
| FileLaws.UnlinkLaw | internal/executor/fs.go:124-136 | UNLINK takes the name away and nothing else: not the bytes of open handles, not what other paths find; as rmdir it refuses a file |
| FileLaws.RenameLaw | internal/executor/fs.go:146-152 | RENAME moves the file over whatever had the new name, and every third path finds what it found |
| FileLaws.SetattrLaw | internal/executor/fs.go:154-180 | SETATTR needs the file for anything it sets; a new size cuts it or fills it with zeros |
| FileLaws.UnknownOpLaw | internal/executor/fs.go:63-65 | any other op is EINVAL and changes nothing |
| FileServer.ServeFS | internal/executor/executor.go:82-97 | the loop answers request after request until the stream ends, breaks or a reply fits no frame, and leaves no handle open |
| FileServer.RemoteServiceIsLocal | internal/executor/executor.go:86-96 | requests encoded onto the stream and replies decoded off it are exactly what the service would have answered directly, with the same files and handles at the end |
| RpcPairing.RepliesAnswerTheirCalls | internal/linuxfuse/fs_linux.go:43-74 | in every run of either client, every reply returned is the server's answer to that very call, over the connection that call was sent on |
| RpcPairing.CallsExecuteAtMostOnce | internal/executor/executor.go:87-96 | each execution belongs to a call of its own, in the order sent on its connection |
| RpcPairing.AbandonedStaysUnread | internal/linuxfuse/fs_linux.go:69-74 | once a connection is not the one in use, nothing is read from it ever again, and it is never used again |
| RpcPairing.FailureHasACause | internal/adapter/adapter.go:212-237 | a call fails only on a failed dial, an oversized request or a broken connection |
| RpcPairing.NoFaultNoFailure | internal/linuxfuse/fs_linux.go:43-74 | in every run of either client in which dials succeed, no path breaks and requests and replies fit a frame, no call fails |
| RpcPairing.NothingIsGarbled | internal/executor/executor.go:87-90 | in every reachable state, whatever whole frame has reached a server decodes |
| RpcPairing.CallsMove | internal/linuxfuse/fs_linux.go:43-74 | in every reachable state with a call on, the client or a server has a step to take |
| RpcPairing.OwnStepsFinishCalls | internal/adapter/adapter.go:212-237 | and each such step leaves strictly less to do and keeps the call on or finishes it, so every call finishes |
| RpcPairing.EveryCallCanBeAnswered | internal/linuxfuse/fs_linux.go:43-74 | from every reachable idle state with sound connections, every request that fits a frame can be called, over the connection there is or a new one, and comes back with a reply |
| RpcPairing.AfterFailure | internal/linuxfuse/fs_linux.go:69-74 | a failed call leaves the FUSE client without a connection, to dial anew; it leaves the adapter with a lost one, unless there was none or the request fitted no frame |
| RpcPairing.LossIsForGood | internal/adapter/adapter.go:212-237 | in every run of the adapter, from the first failed read or write on, the connection is never replaced and every call that finishes fails |
| RpcPairing.RunKeepsInv | internal/linuxfuse/fs_linux.go:69-74 | in every reachable state, what is on its way up is the unexecuted calls and what is on its way down the unread replies, or prefixes of them after a failure |
| RpcPairing.FrameInPrefix | internal/protocol/protocol.go:175-189 | a frame read off part of a stream is the stream's first frame |
| Protocol.FrameRoundTrip | internal/protocol/protocol.go:162-189 | a framed body within the limit reads back, whatever follows |
| Protocol.FrameTruncated | internal/protocol/protocol.go:175-189 | a strict prefix of a frame is no frame: a clean end when nothing or just the length has come, a short read otherwise |
| Protocol.FrameTooLarge | internal/protocol/protocol.go:181-183 | a length above 64 MiB is refused before anything behind it is read |
| Protocol.RequestLayout | internal/protocol/protocol.go:272-320 | the bytes of every request, op by op and field by field; no other op has any |
| Protocol.DecodedOp | internal/protocol/protocol.go:323-378 | only the thirteen ops are decoded, and each as itself |
| Protocol.WriteFrame | internal/protocol/protocol.go:162-173 | writes a frame, or nothing at all for an oversized body |
| Protocol.ReadFrame | internal/protocol/protocol.go:175-189 | reads one frame and leaves the stream behind it |
| Protocol.WriteRequest | internal/protocol/protocol.go:272-320 | one frame with the op's own field layout, or nothing for an unknown op or an oversized body |
| Protocol.ReadRequestBody | internal/protocol/protocol.go:323-378 | decodes a body of any op, and rejects unknown ops and short bodies |
| Protocol.ReadRequest | internal/protocol/protocol.go:323-328 | takes exactly one frame off the stream |
| Protocol.RequestRoundTrip | internal/protocol/protocol.go:272-378 | an encoded request decodes to its op's fields, extra trailing bytes or not |
| Protocol.RequestTruncated | internal/protocol/protocol.go:209-267 | no strict prefix of an encoded request decodes |
| Protocol.RequestStreamRoundTrip | internal/protocol/protocol.go:323-378 | a stream of framed requests decodes to exactly that list with nothing left over |
| Responses.WriteResponse | internal/protocol/protocol.go:384-420 | one frame with the op's response layout, errors as the errno alone, or nothing when too large |
| Responses.ReadResponseBody | internal/protocol/protocol.go:423-464 | decodes a response for the op it answers, the trailing time optional |
| Responses.ReadResponse | internal/protocol/protocol.go:423-428 | takes exactly one frame off the stream and decodes it for the op asked |
| Responses.ReadStatFields | internal/protocol/protocol.go:432-444 | the STAT, OPEN and CREATE layouts, with time 0 when fewer than 8 bytes are left |
| Responses.ReadEntries | internal/protocol/protocol.go:449-458 | the READDIR loop yields every name with its type or fails as a whole |
| Responses.ResponseLayout | internal/protocol/protocol.go:384-420 | the bytes of every response, op by op and field by field, and of every errno |
| Responses.DeliveredListing | internal/protocol/protocol.go:405-413 | a listing arrives with all its names and a type for each, its own or 0 where it had none |
| Responses.ResponseRoundTrip | internal/protocol/protocol.go:384-464 | an encoded response decodes to its op's fields, a missing READDIR type as unknown |
| Responses.ResponseTruncated | internal/protocol/protocol.go:423-464 | a strict prefix of an encoded response is rejected, unless the cut lies in the final time of STAT, OPEN or CREATE: then it decodes with time 0 |
| Responses.StatWithoutMtime | internal/protocol/protocol.go:249-256 | an old peer's response without the time decodes with time 0 |
| Responses.ResponseStreamRoundTrip | internal/protocol/protocol.go:423-464 | a stream of framed responses decodes to exactly that list for the ops asked |
| Fields.FieldsRoundTrip | internal/protocol/protocol.go:193-267 | fields built one after another parse back in order and leave what follows |
| Fields.FieldsTruncated | internal/protocol/protocol.go:209-267 | a strict prefix of built fields makes the sticky-error parser fail |
| Fields.Builder.Blob | internal/protocol/protocol.go:200-203 | appends a length and the bytes |
| Fields.Parser.U32 | internal/protocol/protocol.go:228-236 | reads a word, or sets the error for good and yields 0 |
| Fields.Parser.Blob | internal/protocol/protocol.go:257-266 | reads a length-prefixed blob, or sets the error for good |
| CCodec.CBuf.Put | native/macos/rcc_interpose.c:126-129 | appends bytes under doubling growth without losing any |
| CCodec.PathBody | native/macos/rcc_interpose.c:232-253 | the C encoder's STAT and READDIR bodies are the wire format's |
| CCodec.OpenBody | native/macos/rcc_interpose.c:310-310 | the same for OPEN |
| CCodec.PreadBody | native/macos/rcc_interpose.c:326-326 | the same for PREAD |
| CCodec.CloseBody | native/macos/rcc_interpose.c:439-439 | the same for CLOSE |
| CCodec.WriteFileBody | native/macos/rcc_interpose.c:337-341 | the same for WRITEFILE with the buffer's contents |
| CCodec.BodiesDecode | native/macos/rcc_interpose.c:232-341 | what the other side decodes of each of these bodies: the op and exactly the arguments given |
| CCodec.ReadStatReply | native/macos/rcc_interpose.c:233-239 | on every body the Go reader accepts, the same errno, mode and size, the time ignored |
| CCodec.ReadOpenReply | native/macos/rcc_interpose.c:311-315 | the same for the errno, size and handle of an open |
| CCodec.ReadPreadReply | native/macos/rcc_interpose.c:327-334 | the same for the data of a read, cut to what was asked for |
| CCodec.ReadReaddirReply | native/macos/rcc_interpose.c:256-271 | the same for all names and types of a listing |
| CCodec.Cursor.U64 | native/macos/rcc_interpose.c:157-163 | two words make a quad, and running off the end is remembered |
| VirtualFile.PreadIsLocalIff | native/macos/rcc_interpose.c:321-335 | a slice read equals the file's own slice exactly when what it asks for fits a frame |
| VirtualFile.StepIsLocalIff | native/macos/rcc_interpose.c:392-432 | a read, pread or lseek gives a local file's result and cursor exactly when the slice fits a frame, the offset is not negative and the whence is known |
| VirtualFile.HistoryIsLocal | native/macos/rcc_interpose.c:392-432 | any history of such calls returns what a local file would |
| VirtualFile.OpenedForReading | native/macos/rcc_interpose.c:308-318 | a read-only open leaves a readable handle with the file's size |
| VirtualFile.ReadFile.RpcRead | native/macos/rcc_interpose.c:322-335 | the clamp and the exchange, changing nothing on the remote side |
| VirtualFile.ReadFile.Read | native/macos/rcc_interpose.c:392-399 | advances the cursor by what was read |
| VirtualFile.ReadFile.Seek | native/macos/rcc_interpose.c:425-432 | moves the cursor from the start, itself or the known size |
| VirtualFile.WriteFile.Grow | native/macos/rcc_interpose.c:409-411 | makes room by doubling and keeps the contents |
| VirtualFile.WriteFile.Write | native/macos/rcc_interpose.c:412-416 | appends, wherever the cursor stands |
| VirtualFile.WriteFile.Pwrite | native/macos/rcc_interpose.c:418-423 | a plain overwrite when it starts within the contents; otherwise the old bytes and the new ones with arbitrary bytes between |
| VirtualFile.WriteFile.Slurp | native/macos/rcc_interpose.c:280-304 | loads exactly the file's bytes in 64 KiB slices, ends, and leaves files and handles as they were |
| VirtualFile.WriteFile.Close | native/macos/rcc_interpose.c:434-441 | the request served is a WRITEFILE of the contents, cut to what their 32-bit length covers, when that fits a frame, and none otherwise |
| VirtualFile.FirstOfFlush | native/macos/rcc_interpose.c:137-145 | of the bytes a flush sends, both lengths in 32 bits and unchecked, the other side first reads that WRITEFILE, with the rest of the buffer still to come, exactly when the covered part and its path stay 9 bytes below the frame limit |
| VirtualFile.FlushServed | native/macos/rcc_interpose.c:337-341 | what a server's loop makes of a whole flush: nothing, or that WRITEFILE and then the uncovered rest read as requests; below 4 GiB there is no rest |
| VirtualFile.WriteFileFits | native/macos/rcc_interpose.c:337-341 | a WRITEFILE fits a frame exactly when path and data stay 9 bytes below the limit |
| VirtualFile.AppendsKeepTheStart | native/macos/rcc_interpose.c:276-304 | a file opened without truncation and only appended to keeps its bytes in front, with exactly the writes behind them; a truncated or new one holds the writes alone |
| VirtualFile.Edit | native/macos/rcc_interpose.c:276-306 | open, any gap-free writes, close: the file then holds what the writes make of what it held, cut to what 32 bits hold of its length, or nothing has changed when that fits no frame |
| Dirents.DirFile.Gde64 | native/macos/rcc_interpose.c:451-471 | packs the records of the next entries, as many as fit, stays inside the buffer and leaves the rest of it alone |
| Dirents.PackedParses | native/macos/rcc_interpose.c:456-468 | packed records parse back to their names and types by their length fields |
| Dirents.PackedAt | native/macos/rcc_interpose.c:462-468 | where a packed record lies, it carries its entry's number plus one as inode and seek offset, and a NUL behind its name |
| Dirents.PackedSize | native/macos/rcc_interpose.c:458-467 | packed records fill a multiple of four bytes |
| Dirents.EmptyIff | native/macos/rcc_interpose.c:455-459 | a call writes nothing exactly when the listing is exhausted or the next record does not fit |
| Dirents.SeriesIsListing | native/macos/rcc_interpose.c:451-471 | over any series of calls a reader collects every entry passed exactly once and in order |
| Dirents.SeriesProgress | native/macos/rcc_interpose.c:455-470 | with buffers that hold the largest record, a call returns nothing only at the end, and one call per entry is enough |
| SlotTable.SlotsAreDistinctAndOpen | native/macos/rcc_interpose.c:201-210 | in every run of opens and closes by any threads, no two slots hold one descriptor and every one held is open in the kernel |
| SlotTable.LookupIsRight | native/macos/rcc_interpose.c:218-218 | the unlocked scan of a closing thread finds the descriptor's slot when it is virtual and nothing otherwise |
| SlotTable.NothingLeaks | native/macos/rcc_interpose.c:201-210 | in every run, each open descriptor is a standard stream, the program's, or in the hands of a thread that opens or closes it |
| SlotTable.ThreadsFinish | native/macos/rcc_interpose.c:434-445 | in every reachable state, a thread in the middle of an open or a close can go on and is nearer to its end then |
| SlotTable.ClosedIsGone | native/macos/rcc_interpose.c:443-444 | a finished close leaves its descriptor closed and in no slot |
| SlotTable.OpenedIsThereOrFull | native/macos/rcc_interpose.c:201-210 | a finished open has its descriptor in a slot, or all 256 were taken and the descriptor is closed again |
| SlotTable.ReversedOrderMisroutes | native/macos/rcc_interpose.c:443-444 | with the real close before the clearing of the slot, an ordinary file can get a number the table still claims |
| SlotTable.RunKeepsInv | native/macos/rcc_interpose.c:434-445 | in every reachable state the table is the map it stands for |
| SlotTable.Table.NewSlot | native/macos/rcc_interpose.c:204-209 | takes the first empty slot, or reports that there is none |
| SlotTable.Table.Slot | native/macos/rcc_interpose.c:218-218 | finds a descriptor's first slot; never one for descriptor 0 or below |
| Routing.RemoteMeansAncestor | internal/routing/routing.go:63-92 | in remote-allowlist mode a path is remote exactly when some configured prefix names it or an ancestor of it, component by component |
| Routing.LocalMeansAncestor | internal/routing/routing.go:71-74 | in local-allowlist mode a path is remote exactly when no local prefix names it or an ancestor of it |
| Routing.EmptyPathIsDefault | internal/routing/routing.go:65-69 | the empty path is local in the one mode and remote in the other |
| Routing.UnderIsAncestor | internal/routing/routing.go:82-92 | on clean paths the string test is the component test |
| Routing.NativeMatchersAgree | native/linux/rcc_seccomp.c:139-152 | matching a colon-joined list token by token is matching the list, when no prefix holds a colon |
| Routing.NativeVerdictIsTheAdapters | native/macos/rcc_interpose.c:170-183 | both C matchers give the adapter's verdict on every clean path |
| Routing.MatchersAgreeIff | native/linux/rcc_seccomp.c:139-152 | for any clean prefixes, colons or not: both matches agree on every clean path exactly when every prefix hits the joined list and every clean token of it lies under some prefix |
| Routing.NativeVerdictIff | internal/adapter/launch.go:63-63 | for any configured prefixes and either mode: the interceptors' verdict on the joined remote prefixes is the adapter's on every clean path exactly in remote-allowlist mode with prefixes and tokens that cover each other |
| Routing.DefaultRemoteDiffers | internal/routing/routing.go:71-74 | where paths are remote by default, some clean path is remote to the adapter and local to the interceptors |
| Routing.RawVerdictIff | native/linux/rcc_seccomp.c:139-152 | on paths as they come, which the interceptors compare uncleaned, the verdicts agree everywhere exactly in remote-allowlist mode with blank prefixes only |
| Routing.DetourDiffers | native/macos/rcc_interpose.c:170-183 | every configured prefix has a spelling by way of a long-named directory and ".." that the adapter forwards and the interceptors keep local |
| Routing.DotsBreakAgreement | native/linux/rcc_seccomp.c:149-149 | and the other way round: with "/w" configured the interceptors forward "/w/../e", which the adapter keeps local as "/e" |
| Routing.ColonBreaksAgreement | internal/adapter/launch.go:63-63 | it can fail: with "/a:b" configured the adapter keeps "/a" local and the interceptors forward it |
| Routing.PrefixHit | native/linux/rcc_seccomp.c:139-152 | the strtok loop is a hit exactly when some token is the path or an ancestor of it |
| Routing.CleanPrefixList | internal/routing/routing.go:51-61 | keeps the non-blank prefixes, trimmed and cleaned, in order |
| Routing.MatchesAny | internal/routing/routing.go:82-92 | true exactly when some prefix equals the path or ends at a separator of it |
| Routing.NewTable | internal/routing/routing.go:43-49 | a table holds the cleaned prefixes of both lists |
| Paths.CleanKeepsPlace | internal/routing/routing.go:70-70 | a cleaned path leads from every directory to the same place as the path |
| Paths.CleanIsIdempotent | internal/routing/routing.go:70-70 | cleaning a clean path changes nothing and keeps its components |
| ExecDownlink.OutputIsFaithful | internal/executor/exec.go:171-250 | in every run, the proxy's stdout and stderr are prefixes of the child's; once the exit frame is read they are complete, that frame was the last, and the status is the exit code modulo 256 |
| ExecDownlink.EofMeansCut | cmd/rca/spawnproxy.go:106-114 | a proxy whose stream ends without an exit frame had its path cut |
| ExecDownlink.OwnStepsReduceWork | internal/adapter/execbridge.go:58-81 | every step of executor, bridge or proxy leaves strictly less work |
| ExecDownlink.NeverStuck | internal/executor/exec.go:215-222 | once the child is gone and its pipes are closed, a proxy without a status always has a step coming, unless it is parked in a write to an output of its own that nobody reads |
| ExecDownlink.QuietMeansEndedIff | cmd/rca/spawnproxy.go:104-123 | once the child is gone and its pipes are closed, and while the path lasts: when no step is left, the proxy has ended exactly if the rest of both streams fits what its own stdout and stderr still take |
| ExecDownlink.OutputCanArrive | internal/executor/exec.go:171-250 | whatever a child writes and whatever code it leaves, over buffers of any size: some run ends with the proxy having put out exactly that, with that code modulo 256 |
| ExecDownlink.EofStatusIff | cmd/rca/spawnproxy.go:106-114 | a proxy whose stream ends reports success exactly if the part of a frame it has is nothing or no more than a header, and 127 otherwise |
| ExecDownlink.BuffersAreBounded | internal/executor/exec.go:238-250 | in every reachable state no buffer of executor or path is over its size, and a pump reads nothing while its own frame is being written |
| ExecDownlink.ParkedReadsNothing | cmd/rca/spawnproxy.go:116-119 | in every run, a proxy parked in a write to its own output takes nothing off the path until that output is drained |
| ExecDownlink.RunKeepsInv | internal/executor/exec.go:173-178 | in every reachable state, frames begun and not yet read are byte for byte what is in buffers, on the path and in the mutex holder's hands |
| ExecDownlink.KeepsPumpOnAcquire | internal/executor/exec.go:238-250 | a pump's buffer never exceeds a chunk, so nothing is cut off in WriteChunk |
| ExecLink.BridgeInConserves | internal/adapter/execbridge.go:60-70 | copying into the bridge neither loses, adds nor reorders a byte |
| ExecLink.BridgeOutConserves | internal/adapter/execbridge.go:71-79 | nor does copying out of it |
| ExecUplink.InputIsFaithful | cmd/rca/spawnproxy.go:65-102 | in every run, the request served is the one sent, the child is fed a prefix of stdin, a stdin closed by a frame was complete and ended, and signals arrive once each and in order |
| ExecUplink.RaisedIsAccepted | cmd/rca/spawnproxy.go:65-80 | as long as none is raised while four are waiting, all signals raised are accepted, in order |
| ExecUplink.QuietMeansDeliveredIff | internal/executor/exec.go:185-213 | when no step is left and proxy and path last, the child has had all of stdin and all accepted signals exactly if it closed its stdin or that is no longer than what it has read and its pipe holds; otherwise the executor is parked in a write to that pipe |
| ExecUplink.ComesToRest | internal/executor/exec.go:185-213 | from every reachable state the system, left to itself, reaches a quiet one; a parked executor is still parked there |
| ExecUplink.SignalStuckBehindStdin | internal/executor/exec.go:195-211 | for any request, any buffer sizes, any input longer than the pipe and any signal raised once the pipe is full, a quiet state is reachable in which the signal was accepted and not delivered |
| ExecUplink.InputCanArrive | internal/executor/exec.go:188-213 | for any request, any input, any list of signals and buffers of any size, a state is reachable in which the child has had all of the input, closed at its end, and every signal in order |
| ExecUplink.EndTakesAll | internal/executor/exec.go:190-193 | when the executor takes the control stream for ended on a path that lasts, with no frame half written, it has taken every frame sent and closes the child's stdin |
| ExecUplink.QuietMeansClosed | internal/executor/exec.go:189-193 | once the proxy has left or the path is cut, a system at rest has closed the child's stdin, unless the executor is parked in a write to it |
| ExecUplink.BuffersAreBounded | cmd/rca/spawnproxy.go:70-102 | in every reachable state no buffer is over its size, at most four signals wait, and pump and forwarder take nothing new while a frame of theirs is being written |
| ExecUplink.ParkedTakesNothing | internal/executor/exec.go:195-211 | in every run, while the child neither reads nor closes its stdin, a parked executor takes no byte off the path, no frame, and delivers no signal |
| ExecUplink.OwnStepsReduceWork | internal/executor/exec.go:185-213 | every step of proxy, bridge or executor leaves strictly less work, so quiet states are reached |
| ExecUplink.KeepsWireOnKind | internal/executor/executor.go:63-78 | the unbuffered read of the stream kind takes that byte and no more |
| ExecUplink.KeepsWireOnRequest | internal/execproto/execproto.go:67-85 | the buffered reads after it start at the spawn header and leave the buffer at the first control frame |
| ExecUplink.RunKeepsInv | cmd/rca/spawnproxy.go:86-102 | in every reachable state no byte between the proxy and the executor is lost, and an empty stdin frame stands only at the end of input |
| ExecProto.Pump | internal/executor/exec.go:238-250 | sends all that is read, in order, in frames that are neither empty nor too large |
| ExecProto.RunProxy | cmd/rca/spawnproxy.go:104-123 | separates the stream into stdout, stderr and a status |
| ExecProto.DemuxOfFrames | internal/execproto/execproto.go:129-143 | output frames and an exit frame demultiplex to the frames' payloads and the code modulo 256 |
| ExecProto.CutStreamStatus | cmd/rca/spawnproxy.go:106-114 | a stream cut before its exit frame is through: all whole frames are put out, and the status is 0 exactly when the cut lies between frames or right behind a header, 127 otherwise |
| ExecProto.OversizedStatus | internal/execproto/execproto.go:134-137 | a header that announces more than 1 MiB ends the proxy with 127 |
| ExecProto.ParseArrived | internal/execproto/execproto.go:129-143 | a frame read off part of a stream is the stream's first frame |
| ExecProto.ExitStatusIsModulo256 | internal/execproto/execproto.go:146-151 | an exit code sent in 32 bits and masked is the code modulo 256, negative codes too |
| ExecProto.SignumRoundTrip | internal/execproto/execproto.go:154-159 | a signal number reads back |
| ExecProto.WriteChunk | internal/execproto/execproto.go:88-100 | writes one frame with at most 1 MiB of the data |
| ExecProto.WriteExit | internal/execproto/execproto.go:103-110 | writes one exit frame that carries the code |
| ExecProto.WriteSignal | internal/execproto/execproto.go:113-120 | writes one signal frame that carries the number |
| ExecProto.ReadFrame | internal/execproto/execproto.go:129-143 | reads one frame, or tells a clean end from a short read and an oversized frame |
| ExecControl.ControlLoop | internal/executor/exec.go:188-213 | feeds stdin frames and collects signals until the stream ends, and then stdin is closed |
| ExecControl.ControlOfFrames | internal/executor/exec.go:195-211 | the child gets the stdin bytes up to the first empty frame and every signal in order, even if the stream is cut inside a later frame |
| ExecControl.PumpStdin | cmd/rca/spawnproxy.go:86-102 | sends all of stdin in non-empty frames and one empty frame at the end |
| ExecControl.PumpedStdinArrives | cmd/rca/spawnproxy.go:82-102 | pumped and looped, stdin reaches the child whole and is closed |
| ExecControl.TakeIsControl | internal/executor/exec.go:195-211 | the sequential loop and the state machine treat a frame alike |
| ExecControl.HeaderRoundTripIff | internal/execproto/execproto.go:52-85 | a spawn header reads back exactly when its body is within 16 MiB |
| ExecControl.ReadSpawnRequest | internal/execproto/execproto.go:67-85 | takes exactly the header and its body off the stream |
| ExecControl.WriteSpawnRequest | internal/execproto/execproto.go:52-64 | writes a length and the body |
| ExecRewrite.ArgvAfterRewrite | native/linux/rcc_seccomp.c:324-366 | walking memory from the new rsi yields the proxy, "_spawn-proxy", the path and the arguments read, NULL-terminated, 8-aligned, all below the red zone; every other byte and register is unchanged |
| ExecRewrite.RewriteWrapsCommand | native/linux/rcc_seccomp.c:281-367 | read as strings, the new argument vector is the proxy, "_spawn-proxy", the path and the whole original vector exactly when that has at most 1024 entries |
| ExecRewrite.ArgvKeptIffShort | native/linux/rcc_seccomp.c:298-306 | the tracer's copy of the pointers is complete exactly up to 1024 of them |
| ExecRewrite.BelowRedZone | native/linux/rcc_seccomp.c:330-349 | with a proxy path below 4096 bytes the scratch region ends below the 128 bytes under rsp |
| ExecRewrite.StringsSurvive | native/linux/rcc_seccomp.c:274-280 | path and argument strings outside the scratch region are unchanged |
| ExecRewrite.Tracee.RewriteExecve | native/linux/rcc_seccomp.c:281-367 | rewrites only a plain execve that routes remote with a proxy configured; a failed write leaves the registers alone; memory outside the region and all other registers are unchanged |
| ExecRewrite.Tracee.ReadArgv | native/linux/rcc_seccomp.c:298-306 | copies pointers up to NULL, an unreadable word or 1024 |
| ExecRewrite.Tracee.Assemble | native/linux/rcc_seccomp.c:348-354 | the buffer is both strings, zero padding and the pointer array |
| StopTheWorld.SignalsAreConserved | native/linux/stoptheworld_probe.c:39-46 | in every run, for every worker, signals sent are handler entries plus signals in flight, and at most one is in flight |
| StopTheWorld.OtherSignalsAreConserved | native/linux/rcc_seccomp.c:431-441 | in every run, number by number: of every other signal, those that became pending are those handled plus those on their way, except for the five numbers the tracer keeps, which never reach a handler |
| StopTheWorld.OtherSignalGetsThrough | native/linux/rcc_seccomp.c:422-442 | any other signal sent to a running worker that has none of that number pending stops it on its way and is then handed to it by the tracer, except for the five numbers |
| StopTheWorld.InjectedIff | native/linux/rcc_seccomp.c:422-442 | a stopped tracee is resumed with exactly the signal it was stopped with, or with none for the four events and the five numbers |
| StopTheWorld.WorldIsStopped | native/linux/stoptheworld_probe.c:89-94 | once every ack of a round is taken, each worker not yet resumed is parked in its handler |
| StopTheWorld.NothingInFlightAtSuspend | native/linux/stoptheworld_probe.c:84-88 | a worker about to be signalled has no earlier signal on its way that could swallow the new one |
| StopTheWorld.StepsReduceWork | native/linux/rcc_seccomp.c:404-443 | every step leaves strictly less work |
| StopTheWorld.RunLengthIsBounded | native/linux/stoptheworld_probe.c:84-99 | a run is no longer than the work there was at its start |
| StopTheWorld.NeverDeadlocks | native/linux/rcc_seccomp.c:404-443 | in every reachable state that is not done, some step can be taken |
| StopTheWorld.DoneMeansAllRounds | native/linux/stoptheworld_probe.c:84-100 | a finished run has stopped every worker exactly once per round |
| StopTheWorld.DroppingTracerNeverStopsTheWorld | native/linux/rcc_seccomp.c:435-441 | a tracer that resumes without the signal leaves the collector waiting for its first ack in every run |
| PairCode.CodeRoundTrip | internal/paircode/paircode.go:32-90 | decoding inverts encoding for every peer and address list, white space around the code or not |
| PairCode.CutOrExtendedCodeFails | internal/paircode/paircode.go:70-89 | codes of strict prefixes and of strict extensions of a payload are refused |
| PairCode.MangledCodeFails | internal/paircode/paircode.go:49-90 | a code that has lost any number of characters at its end, or has more base64url digits behind it, is refused |
| PairCode.EncodedIsACode | internal/paircode/paircode.go:32-46 | a code is made for every record with a valid peer ID and for no other: "rca1." and digits |
| PairCode.AcceptedIsACode | internal/paircode/paircode.go:49-90 | a text is accepted only if, trimmed, it is "rca1." and base64url digits, line breaks aside, and its peer ID and all its addresses are valid |
| PairCode.PayloadRoundTrip | internal/paircode/paircode.go:60-89 | a payload reads back, and with anything behind it does not |
| PairCode.PayloadTruncated | internal/paircode/paircode.go:93-103 | no strict prefix of a payload is accepted |
| PairCode.DigitsRoundTrip | internal/paircode/paircode.go:45-58 | unpadded base64url decodes to what was encoded |
| PairCode.BreakInDigits | internal/paircode/paircode.go:55-55 | a line feed or carriage return anywhere in the digits changes nothing |
| PairCode.SpareBitsAreZero | internal/paircode/paircode.go:45-45 | the bits a last digit has too many are encoded as zero |
| PairCode.UvarintIsWord | internal/paircode/paircode.go:93-98 | whatever is read as a varint is below 2^64 and at most ten bytes long |
| PairCode.UvarintRoundTrip | internal/paircode/paircode.go:93-98 | a varint below 2^64 reads back within its ten bytes |
| PairCode.Encode | internal/paircode/paircode.go:32-46 | the loop builds the prefix and the encoded payload |
| PairCode.Decode | internal/paircode/paircode.go:49-90 | the loop accepts exactly the codes whose payload is valid and complete |
| RunArgs.ParseRunArgs | cmd/rca/run.go:91-205 | the token loop yields the record or the first error of the specification |
| RunArgs.AcceptedIff | cmd/rca/run.go:197-203 | a line that reads without error is accepted exactly if it names a command or has serve-fs-only on, and exactly one of code, peer, sock and via is given; a missing command is reported first, otherwise the number of transports |
| RunArgs.RenderRoundTrip | cmd/rca/run.go:141-204 | a record with a command and exactly one transport, written as name=value tokens, parses back to itself |
| RunArgs.InsertedFlagIsHarmless | cmd/rca/run.go:151-182 | one more owned flag that names no transport, at any token boundary before "--", changes neither the command nor its arguments |
| RunArgs.InsertedServeFSOnly | cmd/rca/run.go:194-203 | the serve-fs-only switch put into a line that names no command: accepted exactly when it, or its last occurrence behind that place, is on and there is one transport |
| RunArgs.ValuePositionIff | cmd/rca/run.go:169-176 | whatever token is put between a flag and its value: if the line parses with it or without it, command and arguments stay the same exactly when the old value is skippable: an owned flag that parses and, if it takes a value, is followed by a skippable token; an empty token before the command; or a "--" with nothing of rca's behind it |
| RunArgs.ValueBecomesWord | cmd/rca/run.go:169-193 | an old value that is a word becomes the command, or one more argument of the command before it, and everything else stays |
| RunArgs.SkippableIff | cmd/rca/run.go:141-193 | reading on from a token or from the one behind it gives the same command and arguments exactly when the first is skippable |
| RunArgs.SettingsParse | cmd/rca/run.go:151-182 | any list of name=value tokens sets its values in order |
| RunArgs.ShortestLine | cmd/rca/run.go:91-96 | a line with only a pairing code and a command gives every other field as it stands without a flag |
| RunArgs.NamedTransports | cmd/rca/run.go:97-106 | code, peer, sock and via, each by its name, set their own field and no other |
| RunArgs.NamedEngine | cmd/rca/run.go:107-110 | so do workdir and profile |
| RunArgs.NamedAdapter | cmd/rca/run.go:115-118 | so do adapter-sock and spawn-sentinel |
| RunArgs.NamedPrograms | cmd/rca/run.go:119-124 | so do dylib, supervisor and spawn-proxy |
| RunArgs.NamedPrefixes | cmd/rca/run.go:111-114 | a remote or local prefix goes behind those given before |
| RunArgs.NamedServing | cmd/rca/run.go:128-137 | default-remote and serve-fs-only are turned on by their names, off with =false |
| RunArgs.NamedStarting | cmd/rca/run.go:128-137 | so are resign and print-cmd |
| RunArgs.StrangeFlagsAre | cmd/rca/run.go:183-189 | a dashed token whose name is none of rca's, with any number of dashes and any value, is an error before the command and an argument behind it |
| RunArgs.DashesDoNotMatter | cmd/rca/run.go:151-156 | any number of dashes before one of rca's flags reads like two |
| RunArgs.VerbatimAre | cmd/rca/run.go:143-149 | behind "--" the first token is the command if there is none yet, and everything else is an argument as it stands |
| RunArgs.WordsAre | cmd/rca/run.go:191-195 | an empty token, "-" and a token without a leading dash are the command if there is none yet, otherwise an argument |
| RunArgs.FlagErrors | cmd/rca/run.go:163-174 | a value flag at the end of the line needs a value, and a switch refuses what is no boolean |

## Left out

- Session.StepRefines: files only. Directories, MKDIR, READDIR, symbolic links, permissions and times are not in the merged files; a file is known by its cleaned path, its parent always exists, and sizes and the handle counter stay below 2^63 and 2^64.
- Session.Adapter.RemoteRPC: the executor's service is called directly with what the wire carries of the request; dialing, lost connections, frames that do not fit and a session's later requests after such a failure are in RpcPairing.
- Session.RunRefines: a request is served in one step, also SETATTR and WRITEFILE, for which the service makes several calls that another session's could come between.
- FileService.FSService.Handle: open flags have their Linux values; flags other than create, exclusive, truncate and append are ignored, and disk-full or size-limit errors do not occur. SERVERINFO, which the service answers, is not modelled; through a session it is EINVAL, as in the code.
- RpcPairing.RepliesAnswerTheirCalls: a stream on which a read failed delivers nothing afterwards, and peers respect the frame limit.
- CCodec.ReadPreadReply: a malformed reply shorter than its own length field makes the C code read past its buffer; the model yields no data there, and claims nothing.
- VirtualFile.WriteFile.Pwrite: negative offsets, and sizes that overflow size_t, are not modelled.
- VirtualFile.HistoryIsLocal: the file does not change between the open and the reads, and cursor arithmetic stays within 64 bits.
- VirtualFile.Edit: a failing RPC while the buffer is being filled leaves it short in the code; only runs without such failures are modelled.
- VirtualFile.WriteFile.Close: of a buffer of 4 GiB or more the model serves the first request its bytes make; the requests that a loop reads from the rest are in FlushServed only. An operating system that refuses a single write of that size, which would end the connection instead, is not modelled. Paths are shorter than 4 GiB less 9 bytes.
- ExecRewrite.Tracee.RewriteExecve: the routing verdict is a parameter, and mapped memory is readable and writable alike; execveat and other architectures run locally and are not modelled.
- ExecDownlink.OutputIsFaithful: what a proxy returns when the stream ends without an exit frame is modelled but promises nothing about the child.
- ExecUplink.InputIsFaithful: the runtime drops signals beyond the forwarder's queue of four; the claim is about those accepted. The JSON inside the spawn header is taken as bytes.
- StopTheWorld.OtherSignalsAreConserved: handlers of other signals are over at once, and default actions, such as termination, are not modelled; SIGPWR reaches a worker only in its sleep loop.
- StopTheWorld.NeverDeadlocks: thread creation and process exit are outside the machine, which starts with all workers asleep.
- SlotTable.LookupIsRight: scans for reads and writes on a descriptor another thread is closing are not modelled, since the caller must not do that; the standard streams stay open.
- Routing.RemoteMeansAncestor: the prefix "/" names nothing but itself, in the code as in the model. Trimming of prefixes and pairing codes knows ASCII white space only.
- Routing.NativeVerdictIff: paths and prefixes hold no NUL byte, where a C string would end.
- PairCode.CodeRoundTrip: which byte strings are peer IDs and addresses is a parameter; their own libraries' conversions are taken as inverse. The decoder also accepts varints that are not minimal and stray line breaks, and nothing is claimed about those.
- libp2p, yamux and relay transport, unix sockets, FUSE and mount handling, seccomp filter installation, code signing, artifact extraction, logging and the engine profiles are foreign calls or plumbing.
- Spawn routing by binary name, argument marks and sentinel, environment scrubbing and binary lookup would add easy members only.

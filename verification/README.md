# A Dafny model of an HTTP/1.x server core

The repository is an HTTP server in Go on top of an event-driven network library. This project models
the parts with the most state and proves what they keep.

- **The parser** (`internal/parser`). A one-shot reference parser; a resumable machine that takes a
  request in any pieces; whole-buffer fast paths in front of both; an accumulating path for parsers
  that take requests and responses; and the dispatch that chooses between them call by call.
- **The response writer** (`adaptor/adaptor.go`), which decides late between Content-Length and chunked
  framing.
- **The stream reader** (`internal/parser/request.go`) and the keep-alive loop of `engine/engine.go`.
- **The connection protocols** of `engine/engine.go` and `server/server.go`: admission, reference
  counting, the processing flag and the pooled buffers, each as a transition system over all
  interleavings of any number of activations.

Code that updates fields in place is modelled by classes and loops (`Cursors.Cursor`, `Parsing.Parser`,
`Pending.BothParser`, `ResponseWriters.ResponseWriter`, `StreamReaders.StreamReader`, the header map in
`HeaderMap`), each method proved against a function. What the source promises is proved about these
functions.

| modules | about |
|---|---|
| `Bytes`, `Numerals`, `Grammar`, `StartLines`, `Reference`, `Cursors`, `UniqueFraming`, `MessageShape` | lines, numerals, framing, the one-shot parser and the grammar of what it accepts |
| `Events`, `Consumers` | callbacks, and what a consumer makes of them |
| `Machine`, `Split`, `SplitEvents`, `Incremental`, `MessageEvents`, `StartEvents`, `ValueCuts`, `Completion`, `Counts`, `Failures`, `Parsing` | the resumable request machine, its callbacks, what it completes, refuses and returns, its code |
| `FastPaths`, `FastTrace` | the whole-buffer paths |
| `RequestDispatch`, `ChunkedHeads`, `RequestRuns`, `RequestExecution`, `EventOrder`, `HttpRequests` | Execute of a request parser |
| `Pending`, `PendingRuns`, `BothDispatch` | Execute of a parser of both kinds |
| `LostRequest`, `Samples`, `Witnesses` | concrete inputs at which expected properties fail |
| `Wire`, `Writing`, `WriterWire`, `ResponseText`, `WriterHeads`, `WriterRoundTrip`, `WriterLimits`, `WriterCases`, `ResponseWriters` | the response writer: its functions, what it puts on the wire by the handler's operations, how that is read, its code |
| `KeepAlive`, `StreamReaders`, `Refusals`, `HeaderMap`, `RequestFacts` | reading requests from a connection |
| `Admission`, `References`, `Processing`, `Buffers` | the connection protocols |

Results about framing, splitting and resuming hold for every line grammar (`Grammar.LineGrammar`);
`HTTP` is that of the repository. `Setting` says which callbacks are present. `Alike(Stream, …)` compares
callbacks in their order, with fragments that follow each other joined; `Alike(Totals, …)` only by what
they amount to: the names in order, all value bytes, all body bytes, how often HeadersComplete and
MessageComplete fire. Begin and URL callbacks are looked at separately.

## Model

| member | source | states |
|---|---|---|
| `Cursors.ParseMessageDetailed` | internal/parser/engine.go:1464-1564 | the cursor loop computes the reference outcome for every buffer and kind: accepted message, incomplete, error, or the slice panic on a negative length |
| `Cursors.ScanHeaders` | internal/parser/engine.go:1498-1520 | the header loop gives the head the recursive definition gives, and leaves the cursor behind it |
| `Cursors.ScanChunks` | internal/parser/chunked.go:3-57 | the chunk loop gives the concatenated chunks, or nothing exactly when the definition has none |
| `MessageShape.AcceptedExactly` | internal/parser/engine.go:1464-1564 | the one-shot parser accepts exactly the texts made of a start line, header lines, an empty line and the body the headers ask for (chunks if any header asks for them, else the bytes of the one Content-Length, else nothing), and says of them their start line, headers, framing and body |
| `MessageShape.RejectedExactly` | internal/parser/engine.go:1575-1602 | it rejects exactly the texts that are good up to a Content-Length line that repeats one or is no numeral, with the error of that, whatever follows |
| `StartLines.RequestLineExactly` | internal/parser/startline.go:28-54 | a line is read as a request line if and only if it is a method name in any case, a space, a target without spaces, a space, "HTTP/" and two digits with a dot: major, then minor |
| `StartLines.ResponseLineExactly` | internal/parser/startline.go:65-94 | a line is read as a status line if and only if it is "HTTP/", major, dot, minor, a space, three digits, and nothing or a byte and the reason |
| `StartLines.HeaderLineExactly` | internal/parser/headers.go:17-30 | a line is read as a header if and only if it is a name without a colon, a colon, spaces or tabs, and a value that begins with neither |
| `StartLines.MethodExactly` | internal/parser/scan.go:72-145 | a token is matched as method n if and only if it is spelt, in any case, as Method.String of n |
| `StartLines.FlagsSay` | internal/parser/engine.go:779-792 | the connection flags are set exactly by a Connection header that says close or upgrade, and by an Upgrade header |
| `Bytes.LowerForms` | internal/parser/scan.go:54-70 | folding takes each capital to the small letter in the same place of the alphabet and leaves every other byte |
| `UniqueFraming.AcceptedIsMaximal` | internal/parser/engine.go:1464-1564 | any byte behind an accepted message makes the buffer incomplete |
| `UniqueFraming.PrefixIncomplete` | internal/parser/engine.go:1464-1564 | every proper prefix of an accepted message is incomplete: never accepted, never rejected |
| `UniqueFraming.PrefixFree` | internal/parser/engine.go:1464-1564 | no accepted message is a proper prefix of another |
| `UniqueFraming.UniqueSplit` | internal/parser/engine.go:1464-1564 | a byte stream splits into accepted messages in at most one way |
| `Numerals.ParseDecimalInt32` | internal/parser/scan.go:38-52 | the loop, wrapping at every digit, returns the denoted number reduced to an int32, or nothing exactly for empty or foreign input |
| `Numerals.ParseExact` | internal/parser/scan.go:38-52 | the parsed value is the denoted one if and only if that is below 2^31 |
| `Numerals.InitUnhex` | internal/parser/unhex.go:5-20 | the table holds every byte's hexadecimal digit value, or -1; what that is, `DigitBytes` and `NoDigit` say |
| `Numerals.DigitBytes` | internal/parser/unhex.go:5-20 | the bytes with digit value d are the d-th characters of "0123456789abcdef" and of "0123456789ABCDEF" |
| `Numerals.NoDigit` | internal/parser/unhex.go:5-20 | all other bytes, and only they, have the value -1 |
| `Numerals.ReadsExactly` | internal/parser/scan.go:38-52 | a string is read as n if and only if it is, with digits in either case, zeros and the printed form of a number that wraps to n |
| `Numerals.SizeLineExactly` | internal/parser/chunked.go:18-36 | a chunk-size line is a hexadecimal numeral and nothing, or a semicolon and anything |
| `Numerals.ParseChunkSizeLineBytes` | internal/parser/chunked.go:18-37 | the table-driven loop computes the chunk size of the line up to a semicolon |
| `Numerals.ChunkSizeRoundTrip` | adaptor/adaptor.go:203-213 | a printed chunk size is read back by the chunk-size parser exactly |
| `Split.SplitInvariance` | internal/parser/engine.go:458-599 | after a call that ended cleanly inside a message, the second call ends in the state, the error and the position in which one call on the whole input ends |
| `Split.CutShows` | internal/parser/engine.go:868-944 | a call that ended behind a CR or inside a chunk's terminator has a continuation on which two calls and one call differ |
| `Split.HarmlessExactlyWhenClean` | internal/parser/engine.go:458-599 | a cut changes nothing for any continuation if and only if the call ended cleanly |
| `Split.PiecesAsOne` | internal/parser/engine.go:458-599 | after every one of any number of pieces, the state is the one a single call reaches |
| `Split.RunReady` | internal/parser/engine.go:458-599 | every call that does not fail leaves the machine ready for the next one |
| `SplitEvents.EventSplitInvariance` | internal/parser/engine.go:458-599 | the callbacks of two calls amount to those of one call on the whole input; and unless the first call ended inside a header value with names and values told, they are the same stream |
| `SplitEvents.PiecesTellAsOne` | internal/parser/engine.go:458-599 | the same for any number of pieces |
| `Incremental.PrefixRun` | internal/parser/engine.go:458-599 | on every prefix of an accepted request the machine is inside the message, its seam clean exactly at the safe cuts, and on all of it complete with the reference facts |
| `Incremental.IncrementalRefinesOneShot` | internal/parser/engine.go:458-599 | an accepted request in any safe pieces completes exactly on the last piece, without error, each call taking its whole piece, with the facts of the one-shot parser |
| `MessageEvents.MessageTale` | internal/parser/engine.go:1422-1457 | one machine call on an accepted request makes the callbacks of emitParsedMessage, in their order with fragments joined |
| `MessageEvents.PiecesTellTheMessage` | internal/parser/engine.go:458-599 | in any safe pieces the callbacks amount to those of emitParsedMessage, and are the same stream if every call ended smoothly |
| `MessageEvents.HeaderValueReassembled` | internal/parser/engine.go:845-862 | however a header line is cut outside its CRLF, the value fragments join to the value, the name is told once, and the offset is zero again; the fragments of all but the last piece come before the name |
| `ValueCuts.CutStands` | internal/parser/engine.go:498-513 | a call on a safe part of a request has told a part of a value exactly when the part ends behind the first value byte of a header line and not behind the line |
| `ValueCuts.StreamExactly` | internal/parser/engine.go:458-599 | the machine tells a request in safe pieces as emitParsedMessage does, callback by callback with adjacent fragments joined, if and only if no piece ends inside a header value, or names and values are not both told |
| `ValueCuts.HeardExactly` | internal/parser/engine.go:498-586 | what a consumer collects that adds every value to the header named last is the message's headers if and only if no piece ends inside a value |
| `Consumers.OvertoldShows` | internal/parser/engine.go:845-862 | value bytes told beyond the names told so far are heard behind another name, whatever follows |
| `Consumers.StreamHeard` | internal/parser/engine.go:1422-1457 | callbacks that are the same stream are heard alike |
| `Completion.CompletesExactly` | internal/parser/engine.go:458-599 | one call from a fresh parser completes a buffer if and only if a request line, a header section as the machine reads it, and the body are there; and the count it returns then |
| `Completion.CompletesExactlyWhenAccepted` | internal/parser/engine.go:458-599 | that happens with no header line beginning with a CR and no negative length if and only if the one-shot parser accepts a beginning of the buffer |
| `Completion.CountExactly` | internal/parser/engine.go:522-560 | for a request with more behind it, the count returned is the end of the request if and only if the request has a body; without one, everything is reported as taken |
| `Counts.OpenCount` | internal/parser/engine.go:845-862 | a call that leaves a message unfinished returns the length of its input, unless there is a HeaderValue callback and the input ends in a header line behind the colon: then what earlier calls had of the line is added and what there is of the value taken off |
| `Counts.OpenCountExactly` | internal/parser/engine.go:845-862 | so the count is what was taken if and only if that does not apply, or both are equally long |
| `Counts.ExecuteCount` | internal/parser/engine.go:18-33 | the same of Execute for requests without chunks: bytes behind a request without a body are reported as taken and never parsed |
| `Counts.CountPastEnd` | internal/parser/engine.go:845-862 | a request cut twice inside a value: a call that is given one byte returns three |
| `Failures.FailsExactly` | internal/parser/engine.go:458-599 | one call from a fresh parser fails exactly on the first mistake of the buffer, with its error: a bad request line, a line that is no header, a repeated or wrong Content-Length, a bad chunk, a line beyond 4096 bytes |
| `Failures.RejectsAlike` | internal/parser/engine.go:759-793 | where no header line begins with a CR, the machine and the one-shot parser refuse the same buffers for their Content-Length, with the same error |
| `Completion.PanicsExactly` | internal/parser/engine.go:1523-1530 | the one-shot parser panics if and only if the head is finished and not chunked and its Content-Length, modulo 2^32, is at least 2^31 |
| `Completion.MachineTakesNoBody` | internal/parser/engine.go:536-560 | on the same bytes the machine completes the request without a body |
| `StartEvents.CallCompletes` | internal/parser/engine.go:458-599 | a call makes one MessageComplete callback if it completes the message, and none otherwise |
| `StartEvents.CompleteOnLastPiece` | internal/parser/engine.go:458-599 | of the calls for an accepted request, the last makes the MessageComplete callback, and no other |
| `StartEvents.StartOfPieces` | internal/parser/engine.go:822-843 | MessageBegin fires once if the first piece holds the request line and twice otherwise; URL fragments join to the target if and only if no cut falls between the end of the target and the end of the line |
| `Parsing.Parser.SplitRequest` | internal/parser/engine.go:458-599 | tryFastSplitRequest on its fields and its scratch array leaves the state, count, error and callbacks of the machine function |
| `Parsing.Parser.HeadTurn` | internal/parser/engine.go:476-596 | one turn of the line loop continues the machine's run and its callbacks |
| `Parsing.Parser.ConsumeFastChunked` | internal/parser/engine.go:868-944 | the chunk loop does what the machine does from the same state |
| `Parsing.Parser.ConsumeFastBody` | internal/parser/engine.go:799-820 | body bytes are consumed and told up to the length, and completion happens exactly at its end |
| `Parsing.Parser.AppendScratch` | internal/parser/engine.go:729-736 | the bytes are appended to the scratch array, or refused without change beyond its 4096 bytes |
| `Parsing.Parser.Reset` | internal/parser/parser.go:110-133 | the fields become those of a fresh parser |
| `FastPaths.AnalyzeFastRequest` | internal/parser/engine.go:997-1116 | the fast path accepts exactly what the one-shot parser accepts, with the same line, framing, flags and body; the capture holds the headers or says that they do not fit; its error is `FastErr` |
| `FastPaths.FastErrIs` | internal/parser/engine.go:1037-1064 | that error is set if and only if the one-shot parser rejects the input, with the same error, or a wrong CRLF follows the zero chunk, which is ErrChunkSize here and incomplete input there |
| `MessageShape.BadEndExactly` | internal/parser/engine.go:1037-1064 | that wrong end is: good chunks, a size line that says zero, and two bytes behind it that are no CRLF |
| `FastPaths.PrefixFastErr` | internal/parser/engine.go:997-1116 | the fast path never fails on a part of an accepted request |
| `FastPaths.AnalyzeFastResponse` | internal/parser/engine.go:390-456 | it takes exactly the accepted responses without a body or with a length, says what the one-shot parser says, and fails exactly where that one rejects |
| `FastTrace.RescanSame` | internal/parser/engine.go:1181-1198 | scanning the header bytes a second time, with or without the CR of the empty line, finds the headers of the first scan |
| `FastTrace.EmitFastRequest` | internal/parser/engine.go:1148-1238 | captured or scanned again, the callbacks are those of the reference message in order |
| `FastTrace.FastTellsTheMessage` | internal/parser/engine.go:1148-1238 | behind MessageBegin and URL, fast callbacks are the stream of emitParsedMessage |
| `FastTrace.FastKnowsTheSame` | internal/parser/engine.go:1377-1420 | both paths leave the parser with the same facts, the length of a chunked body aside, if and only if the connection flags it had are among the request's own |
| `RequestExecution.ExecuteRequest` | internal/parser/engine.go:18-33 | the paths over one parser object do what `RequestDispatch.Execute` says: state, count, error and callbacks, with and without callbacks set |
| `RequestExecution.TryFastChunkedRequest` | internal/parser/engine.go:601-727 | the chunked path's loops apply and tell the head and the leading chunks, and then complete, fail or decline |
| `RequestDispatch.FeedMarks` | internal/parser/engine.go:738-749 | with a MessageBegin callback, a machine call that does not fail leaves messageStarted set, so that later calls skip the fast paths |
| `ChunkedHeads.AppliedRunsAsFresh` | internal/parser/engine.go:601-727 | after the chunked path has told a head and declined, the machine tells and does what it would from a fresh parser, the target left out |
| `RequestRuns.RunNear` | internal/parser/engine.go:18-33 | a run in which the whole-buffer path does not step in is the machine's run, but for a chunked head told in front |
| `RequestRuns.IntruderStrikes` | internal/parser/engine.go:965-995 | without MessageBegin, the first piece that is a request of its own fails its call or completes a message while the machine is inside another |
| `RequestRuns.ToldOnceExactly` | internal/parser/engine.go:18-33 | through Execute, whichever callbacks are set, a request in safe pieces is told once and as it is if it comes in one piece or its pieces suit (request line, target and values uncut, no chunked head told in front, no later piece a request of its own); with MessageBegin or MessageComplete set, only then |
| `RequestRuns.OnTimeExactly` | internal/parser/engine.go:18-33 | whichever callbacks are set, the message is completed with the last piece and by no earlier call if and only if it comes in one piece, no later piece is taken or failed as a request of its own, or that is not tried |
| `EventOrder.PiecesInOrder` | internal/parser/engine.go:458-599 | in any safe pieces the machine makes all MessageBegin and URL callbacks before any other |
| `EventOrder.ToldInOrder` | internal/parser/engine.go:18-33 | so does Execute, for a request in one piece and for pieces of which no other path tells |
| `RequestRuns.FeedKeepsUpgrade` | internal/parser/engine.go:458-599 | the machine never touches Upgrade |
| `RequestRuns.UpgradeExactly` | internal/parser/engine.go:1136-1140 | through Execute, Upgrade says what the whole message says if and only if that is nothing, or the request comes in one piece or with a whole chunked head in the first |
| `HttpRequests.UpgradeMeans` | internal/parser/engine.go:1136-1140 | what the message says is: its method is CONNECT, or it has a Connection header that says upgrade and an Upgrade header |
| `HttpRequests.HttpToldOnceExactly` | internal/parser/engine.go:18-33 | the same at the repository's line grammar, without assumptions on lines |
| `HttpRequests.HttpCutsHarmless` | internal/parser/engine.go:458-599 | the exact condition on cuts at the repository's line grammar |
| `HttpRequests.HttpHeardExactly` | internal/parser/engine.go:498-586 | what a consumer collects, at the repository's line grammar |
| `HttpRequests.RestsExactlyAtSafeCuts` | internal/parser/engine.go:458-599 | inside an accepted request the machine rests, so that the next call goes on as one call would, exactly at the safe cuts of the message |
| `HttpRequests.TornRequestLineFails` | internal/parser/engine.go:738-749 | a cut between the CR and the LF of the request line makes the next call fail |
| `Witnesses.ValueGoesAstray` | internal/parser/engine.go:498-513 | a request with the headers A: x and B: yz, cut inside yz: a consumer does not collect these headers |
| `Witnesses.NestedRequestLost` | internal/parser/engine.go:965-995 | a request whose body is a request, cut in front of the body, is not completed in time and not told once without MessageBegin |
| `Witnesses.UpgradeMissed` | internal/parser/engine.go:1136-1140 | a request that asks for an upgrade, cut behind its request line, leaves Upgrade unset |
| `Witnesses.LengthWraps` | internal/parser/engine.go:1523-1530 | Content-Length: 2147483648 makes the one-shot parser panic and the machine complete without a body; 4294967298 is read as 2 |
| `Witnesses.LastChunkSpoiled` | internal/parser/engine.go:1037-1064 | a zero chunk followed by "XX" is ErrChunkSize on the fast path and incomplete for the one-shot parser |
| `Pending.BothParser.ExecutePending` | internal/parser/engine.go:55-93 | the accumulating path on its fields does what `GatherWith` says: state, error and callbacks |
| `PendingRuns.BothModeDelivers` | internal/parser/engine.go:55-93 | on that path, with the kind shown by the first piece: before the last piece only MessageBegin, parts of the target and value bytes are told; with it the message is whole, MessageBegin has fired once, and the callbacks are the message's with those value bytes in front and missing from the first value |
| `PendingRuns.EarlyNone` | internal/parser/engine.go:1326-1354 | no value byte is passed on early if and only if at no cut, and not at the end, the text behind the last CRLF shows a value |
| `PendingRuns.ToldExactly` | internal/parser/engine.go:1422-1457 | such a message is told as it is if and only if nothing was passed on early, or no names are told and it begins the first value |
| `PendingRuns.UnknownKindNeverCompletes` | internal/parser/engine.go:1254-1271 | with the kind not shown by the first piece, that path never completes a message, whatever follows |
| `PendingRuns.InferIsRight` | internal/parser/engine.go:1254-1271 | a first part of an accepted message shows the right kind, or none, and none if and only if it begins with an H and has fewer than five bytes |
| `PendingRuns.DeliversExactlyWhenKindShows` | internal/parser/engine.go:55-93 | on that path a message is delivered and told as it is if and only if its first piece does not begin with an H or has five bytes, and what was passed on early does no harm |
| `BothDispatch.ExecuteBoth` | internal/parser/engine.go:34-93 | the response path, the request path and the accumulating path over one object do what `Dispatch` says |
| `BothDispatch.EmitFastResponse` | internal/parser/engine.go:340-374 | the callbacks of the fast response path are those of the reference message in order |
| `BothDispatch.IntruderCall` | internal/parser/engine.go:300-338 | a piece that is a response by itself is taken as one, or failed as one, whatever the parser was collecting |
| `BothDispatch.DeliversExactlyWhenUndisturbed` | internal/parser/engine.go:34-93 | through Execute, a message gets through, told once and as it is, if its first piece shows the kind, no later piece is taken or failed by analyzeFastResponse, and value bytes passed on early do no harm; with a MessageBegin callback, only then |
| `LostRequest.RequestIsLost` | internal/parser/engine.go:300-338 | a concrete request, cut between head and body, is lost because its body is a response |
| `Wire.ChunkedBodyRoundTrip` | adaptor/adaptor.go:203-222 | a chunked body as the writer prints it is decoded to the parts it was printed from |
| `WriterWire.WireIs` | adaptor/adaptor.go:224-693 | for every series of operations whatever, the wire is what the operations say: which of them sends the head, the status, headers, content type and trailers set by then, the pieces framed, what Write held back, and the end |
| `WriterRoundTrip.ResponseRoundTrip` | adaptor/adaptor.go:224-693 | after every suitable series of handler operations the parser accepts the wire with the status set last before the head was sent, its text, the framing, the handler's headers and the sniffed content type as the header map lists them, the date, and a body equal to all that was written |
| `WriterLimits.RoundTripsExactly` | adaptor/adaptor.go:224-693 | the response is read back so if and only if the operations suit: no trailers when the head is sent; with a Content-Length set by then, that of the body, and held-back bytes that may change places with the rest; without one, nothing held back when anything but Write or Flush sends the head, and no trailers listed at the end; and if they do not suit, not even the body is read back |
| `WriterLimits.HeadersKeptExactly` | adaptor/adaptor.go:406-450 | the handler's headers are sent as the header map lists them if and only if the head is not the short one of a 200 response with nothing but a length and a type, or it has at most one content type and cleaning does not change it |
| `WriterLimits.TrailersFollow` | adaptor/adaptor.go:661-692 | trailers set behind the head of a streamed response stand behind the zero line, where the header parser reads them as listed |
| `WriterHeads.ListedInOrder` | adaptor/adaptor.go:478-480 | the header lines are those of the listed keys in their order, every key with all its values in order, cleaned |
| `WriterCases.LengthLetsOthersPass` | adaptor/adaptor.go:243-277 | "a" written, a Content-Length of 2 set, "b" written: the response is not read back, "b" being sent first |
| `WriterCases.SecondTypeDropped` | adaptor/adaptor.go:406-450 | of two content types on a plain 200 response one is sent |
| `ResponseWriters.ResponseWriter.EnsureHeaderSent` | adaptor/adaptor.go:396-504 | the head goes out once, by the direct or the general path, with the framing the fields decide |
| `ResponseWriters.ResponseWriter.Write` | adaptor/adaptor.go:224-289 | the first write is held back, later ones are framed; refused after a hijack |
| `ResponseWriters.ResponseWriter.WriteString` | adaptor/adaptor.go:767-813 | the string is framed at once, past anything held back |
| `ResponseWriters.ResponseWriter.ReadFrom` | adaptor/adaptor.go:295-371 | the head goes out and every non-empty read is framed, past anything held back |
| `ResponseWriters.ResponseWriter.Flush` | adaptor/adaptor.go:510-540 | head and held-back bytes go out |
| `ResponseWriters.ResponseWriter.EndResponse` | adaptor/adaptor.go:639-693 | a missing head is sized by the held-back bytes; chunks and trailers are closed |
| `KeepAlive.ReadsExactlyWhenReadable` | internal/parser/request.go:14-125 | a delivered request without chunks is read from the stream if and only if its head lines are at most 4096 bytes and without a bare LF and its target is accepted; what is read is the reference message, its body ending where the message ends |
| `KeepAlive.DrainAligns` | engine/engine.go:329-345 | the connection stays open exactly when the handler succeeds, nothing asks to close and the unread body is within the drain limit, and then the reader stands at the end of the body |
| `KeepAlive.KeepAliveAligned` | engine/engine.go:263-374 | over a stream of requests handlers see, for every behaviour and limit, exactly the script of the stream |
| `KeepAlive.SeenInOrder` | engine/engine.go:263-374 | the i-th handler call sees the i-th request, read where the first i requests end |
| `KeepAlive.SeenCount` | engine/engine.go:263-374 | more than k requests are seen if and only if k were readable and left the connection open and the next is readable |
| `StreamReaders.StreamReader.ReadSlice` | internal/parser/request.go:127-148 | the buffered reader gives the bytes up to the next LF, a full buffer without one, or the end, for every size and every delivery |
| `StreamReaders.StreamReader.ReadCrlfLine` | internal/parser/request.go:127-158 | joined over any buffer fills, the line is the one the stream holds |
| `StreamReaders.StreamReader.ReadRequestHead` | internal/parser/request.go:14-76 | the head read is the one the stream function gives, for every buffer size |
| `HeaderMap.CanonicalHeaderKeyBytes` | internal/parser/request.go:251-266 | the in-place loop computes the canonical key |
| `HeaderMap.CanonicalHeaderKey` | internal/parser/request.go:268-293 | every key of the lookup is the canonical key of the name |
| `HeaderMap.CanonicalAt` | internal/parser/request.go:251-266 | each letter of the key is upper case exactly at the start or behind a dash |
| `HeaderMap.Append` | internal/parser/request.go:84-91 | append adds one value, in place within the slice's room or in a new array |
| `HeaderMap.Group` | internal/parser/request.go:78-93 | the map over one shared array of first values holds what the fold gives, and no key's slice shares room with another's |
| `HeaderMap.FoldGroups` | internal/parser/request.go:229-249 | the fold keeps, for every key, its values in order and with multiplicity |
| `HeaderMap.GroupingIsTheFold` | internal/parser/request.go:78-93 | for every key the map of the two passes, and addParsedHeader over all headers but Host, hold the values, in order, of the headers whose canonical name is that key, and no other keys |
| `HeaderMap.UpperForms` | internal/parser/request.go:251-266 | each small letter goes to the capital in the same place of the alphabet |
| `RequestFacts.HeaderValueHasToken` | internal/parser/request.go:207-227 | the nested loops find the token if and only if an element of the comma-separated list, without the spaces around it, is the token up to case |
| `RequestFacts.FirstPass` | internal/parser/request.go:42-77 | the pass over the headers collects for every key the headers that belong under it, the host, and whether a Connection header lists close or keep-alive |
| `RequestFacts.FirstHostIs` | internal/parser/request.go:57-62 | without a host in the URL, the host is the first Host value that is not empty |
| `RequestFacts.Describe` | internal/parser/request.go:78-107 | both passes together: the header map, the host and Close of the request |
| `RequestFacts.ConnectionStaysExactly` | internal/parser/request.go:200-205 | with that rule the serve loop goes on behind the body if and only if the handler did not fail, the rest of the body was within the limit, and a 1.0 request asked for keep-alive or another did not ask to close |
| `Refusals.RefusesAlike` | internal/parser/request.go:14-76 | what ReadRequest refuses for its request line or Content-Length the machine refuses with the same error; where it returns a request the machine finds no mistake in the head; its URL error means a good request line with a refused target |
| `Admission.AdmissionBound` | server/server.go:128-154 | in every interleaving the admitted connections are within the limit, and the counter is the number of increments less that of decrements in the run |
| `Admission.TurnedAwayExactly` | server/server.go:128-135 | in every interleaving a connection is turned away if and only if there is a limit and, at its increment, at least that many were counted and neither turned away nor disconnected; otherwise it is admitted |
| `Admission.RoomAdmits` | server/server.go:128-135 | with fewer than the limit counted, a connection that arrives is admitted, whatever happens between its increment and its test |
| `Admission.LeavesTheCounter` | server/server.go:132-154 | whoever is turned away or disconnected leaves the counter and may come again |
| `Admission.CounterAtRest` | server/server.go:137-141 | at rest the counter is the number admitted if and only if no connection was closed after a failed read timeout |
| `References.CountIsExact` | engine/engine.go:174-187 | in every interleaving the count is the connection's reference plus the activations inside; a state out of use was freed once and its Done closed once |
| `References.FreedOnlyWhenUnused` | engine/engine.go:174-200 | a state is never freed while an activation is inside or the connection holds it, and exactly one leaver frees it |
| `References.UnusedIsFreed` | engine/engine.go:181-187 | a state that nobody uses any more can be freed by the one who left last, and then serves another connection |
| `References.EverybodyLeaves` | engine/engine.go:174-187 | until then nobody is stuck: activations can release, and the connection can cancel and drop |
| `Processing.FlagIsExclusive` | engine/engine.go:221-223 | in every run at most one activation owns the flag, and it is set exactly while one does |
| `Processing.AwakeExactly` | engine/engine.go:272-296 | through a run unread input, or a whole head, is always going to be noticed if and only if every early exit clears the flag with nothing of it waiting, or with somebody still to look |
| `Processing.NoLostWakeup` | engine/engine.go:351-366 | with the keep-alive exit alone, unread input is always going to be noticed |
| `Processing.NoticedIsServed` | engine/engine.go:351-366 | input that is going to be noticed can be served next: an activation can win the flag with all the input still there |
| `Processing.NobodyStuck` | engine/engine.go:221-372 | every activation can always take its next step |
| `Processing.EarlyExitLosesWakeup` | engine/engine.go:279-286 | a run in which an early exit leaves unread input, even a whole head, unnoticed |
| `Buffers.SeparateExactly` | engine/engine.go:189-200 | through a run every buffer is in one place, never pooled while in use or with unread bytes of an open connection, if and only if no activation pools a buffer with which another works |
| `Buffers.BuffersHaveOnePlace` | engine/engine.go:225-232 | with activations serialised to their return, that always holds |
| `Buffers.NoneLost` | engine/engine.go:189-200 | in every run each buffer ever made is in the pool or with a connection |
| `Buffers.StopGivesBack` | engine/engine.go:189-200 | an activation that stops leaves its connection without a buffer and the pool with it |
| `Buffers.UnserialisedShares` | engine/engine.go:351-372 | a run in which the keep-alive exit pools the buffer the next owner of the flag works with |

## Findings

Properties one would expect that the code does not have, each with the exact condition under which it
does, and an input.

- **Values told before their names.** A call that ends inside a header value tells the part it has before
  the name (engine.go:504, 575-586), so a consumer that adds values to the header named last hears it
  behind the header before: `ValueCuts.HeardExactly`, `Witnesses.ValueGoesAstray`.
- **Requests cut in the request line, or behind a chunked head.** `consumeFastRequestLine` clears
  messageStarted (engine.go:746), so a request line in two pieces makes MessageBegin fire twice; a cut
  behind the target also spoils the URL (`StartEvents.StartOfPieces`). `tryFastChunkedRequest` tells the
  head before it declines (engine.go:601), and the machine then tells it again.
- **A body taken for a request.** Without a MessageBegin callback messageStarted stays false, and
  `tryFastRequest` does not look at the phase (engine.go:965), so a piece of a body that is a request is
  taken as one: `RequestRuns.OnTimeExactly`, `Witnesses.NestedRequestLost`. All causes together:
  `RequestRuns.ToldOnceExactly`.
- **Upgrade** is set by the whole-buffer paths and never by the machine: `RequestRuns.UpgradeExactly`,
  `Witnesses.UpgradeMissed`.
- **Cuts inside a chunk's terminator or between CR and LF** are not resumed as one call would go on:
  `Split.HarmlessExactlyWhenClean`, and for a given message `HttpRequests.RestsExactlyAtSafeCuts`.
- **What the machine completes beyond the one-shot parser**: buffers with more behind the message, header
  lines that begin with a CR, negative lengths: `Completion.CompletesExactlyWhenAccepted`.
- **Content-Length of 2^31 or more** wraps to an int32; where that is negative, the one-shot parser slices
  out of range and the machine reads no body: `Completion.PanicsExactly`, `Completion.MachineTakesNoBody`,
  `Witnesses.LengthWraps`.
- **A wrong CRLF behind the zero chunk** is ErrChunkSize on the fast path and incomplete input for the
  one-shot parser: `FastPaths.FastErrIs`, `Witnesses.LastChunkSpoiled`.
- **A parser of both kinds** completes nothing if the first piece does not show the kind ("H" of HEAD),
  and loses a message whose later piece is a response by itself, because `tryFastResponse` does not look
  at what is pending: `BothDispatch.DeliversExactlyWhenUndisturbed`, `LostRequest.RequestIsLost`. It also
  passes on whatever follows a colon in the last line, be it a header or a body, as a value before any
  name: `PendingRuns.EarlyNone`, `PendingRuns.ToldExactly`.
- **The response writer** puts WriteString and ReadFrom before bytes that Write holds back, and also Write
  itself if a Content-Length is set in between, and writes trailers the repository's own parser does not
  read: `WriterLimits.RoundTripsExactly`, `WriterCases.LengthLetsOthersPass`. The head it writes directly
  for a plain 200 response has one content type, uncleaned, however many are set:
  `WriterLimits.HeadersKeptExactly`, `WriterCases.SecondTypeDropped`.
- **Counts.** Execute returns the length of the buffer for a request without a body, whatever stands behind
  it, so that a second request in the buffer is taken and never parsed: `Counts.ExecuteCount`. With a
  HeaderValue callback, a call that ends inside a header value returns neither what it took nor always at
  most what it was given: `Counts.OpenCountExactly`, `Counts.CountPastEnd`.
- **Lost wake-ups.** The early exits of serveHTTP clear the flag without looking again:
  `Processing.AwakeExactly`, `Processing.EarlyExitLosesWakeup`.
- **Pooled buffers in use.** The keep-alive exit pools reader and writer after it has cleared the flag:
  `Buffers.SeparateExactly`, `Buffers.UnserialisedShares`.
- **Admission.** A connection closed because its read timeout cannot be set stays counted:
  `Admission.CounterAtRest`.
- **Facts left over.** applyParsedMessage does not clear connection flags of earlier messages:
  `FastTrace.FastKnowsTheSame`. The fast request path leaves urlOffset at the length of the target.

## Left out

- The resumable response machine (engine.go:183-298), which mirrors the request machine.
- Status callbacks, the positions passed to callbacks, and the phase string.
- Parsing.Parser.ConsumeFastChunked: a chunk size of 2^31 or more ends in `Fault`; the program's own behaviour there is not modelled. Buffers are shorter than 2 GiB.
- Parsing.Parser.Reset: statusOffset, which only the response paths use, is not a field of the model.
- Split.HarmlessExactlyWhenClean: the condition is a result of the call, for every state and input; for an accepted request `RestsExactlyAtSafeCuts` gives it as a position in the message.
- BothDispatch.DeliversExactlyWhenUndisturbed: the "only then" half needs a MessageBegin callback, because without one a consumer may not be able to tell two messages from one.
- RequestRuns.ToldOnceExactly: the "only then" half needs a MessageBegin or a MessageComplete callback, because with neither a body told as a request may not differ for the consumer; `OnTimeExactly` has no such condition.
- RequestRuns.UpgradeExactly: runs from a fresh parser in which the whole-buffer path does not step in at a later piece.
- FastTrace.FastKnowsTheSame: applyParsedMessage puts the size of a decoded chunked body into contentLength and the fast path does not.
- KeepAlive.KeepAliveAligned: requests with a chunked body, which net/http decodes, and the 500 ms drain deadline are left out; bodies are delivered.
- WriterRoundTrip.ResponseRoundTrip: handlers leave Transfer-Encoding to the writer, set a Content-Length only as strconv prints it, and set three-digit statuses; header order and cleaning, status texts, the date and content sniffing are parameters with stated assumptions (`Sane`). `WriterWire.WireIs` has no such condition but that content sniffing has an answer.
- RequestFacts.HeaderValueHasToken: the token is not empty, as in both calls of the source.
- ResponseWriters.ResponseWriter.ReadFrom: a reader is the list of what its reads return; the sendfile branch, which writes the same bytes, and write errors are left out.
- HeaderMap.Group: the growth of append is a parameter; the keys' order in a Go map has no meaning and is left out.
- Admission.AdmissionBound: the network library calls OnDisconnect once for every connection whose OnPrepare returned a context, and for no other.
- Buffers.SeparateExactly: hijacked connections and panics are left out.
- URL parsing, hijacking, deadlines, I/O errors, panics, and the request context (`appcontext`).

# Verification of the video box's core in Dafny

The program relays live video from network cameras: it finds a device, probes it over RTSP, reads
its stream and sends the frames to the clients that asked for them. This project models the parts
of it whose behaviour is decided by its own code and proves what they promise. To check it, use
`dafny verify dfyconfig.toml`.

| files | what they model |
|---|---|
| `Bytes.dfy`, `Seqs.dfy` | bytes, C strings, `atoi`, `%d`, hexadecimal digits; operations on sequences |
| `RtspModel.dfy`, `RtspRun.dfy`, `RtspSplit.dfy`, `RtspSettled.dfy`, `RtspChunked.dfy`, `RtspRender.dfy`, `RtspRoundTrip.dfy`, `RtspRequest.dfy`, `RtspRefused.dfy`, `RtspFolded.dfy`, `RtspParser.dfy` | the incremental RTSP message parser |
| `SimcList.dfy`, `SimcSort.dfy`, `SimcRepOk.dfy` | the doubly linked list with its middle pointer and its store of spare nodes, its sort, and its check of itself |
| `CJson.dfy`, `CJsonRoundTrip.dfy`, `CJsonFits.dfy`, `CJsonStrings.dfy`, `CJsonTree.dfy`, `CJsonReader.dfy`, `CJsonParsed.dfy`, `CJsonSpelling.dfy`, `CJsonTexts.dfy`, `CJsonErrors.dfy`, `CJsonLayout.dfy`, `Bits.dfy` | the JSON parser and printer |
| `Dispatch.dfy`, `DispatchFrames.dfy` | the dispatch of frames to clients |
| `Md5.dfy` | MD5 over a message that arrives in pieces |
| `UrlCode.dfy` | percent-encoding |
| `DeviceOpening.dfy` | the opening of devices, with one probe for all requests |

## How it is built

Where the program changes state step by step, the model does so too: the parser, the list, the MD5
context, the dispatcher and the device list are classes whose methods follow the C functions, and
JSON items are linked nodes. Each such method is proved against a function on values, and what the
code promises is proved about that function for all inputs, all runs or all reachable states.

**RTSP.** `RtspModel.Parser` is the parser's state as a value, `Step` one iteration of its loops and
`Run` the work of one call. The class `RtspParser` is proved to do exactly `Run`. A failed assertion
and a negative return are one outcome, `Reject`. The main results: every iteration keeps the
representation invariant and makes progress although the cursor is stepped back; splitting the input
does not matter; the chunked body that is decoded over its own input equals a pure decoder of
section 3.6.1 of RFC 2616; a rendered response or request, with a body of the announced length or a
chunked one, is read back from any pieces, with what its headers say to the parser itself: whether the
connection is to be closed, and where the last content encoding, cookie and location stand. The chunks
may have sizes in any digits and extensions, and the last one a trailer.

Five things the code does are kept as they are and stated exactly.

- The version is read with `sscanf` from the buffer, not from the version token, so it can read past
  the end of the line. `LineSettled` says when the line alone decides; `SplitExactly` proves that
  exactly then a call that ends with the start line and one that goes on come to the same.
  `OpenLineUnsettled` shows a line for which they do not: a server that is fed the 12 bytes
  `A * RTSP/01.` and a line feed rejects them, and accepts them with the right bytes behind.
- A message whose end is found by its Content-Length is rejected when surplus bytes come in the same
  call, but accepted when they come later. `DoneLater` says what happens to every complete prefix.
- The assertion behind the allocation wants one byte more than the allocation provides, so some
  appends fail in it (`RefusedExactly`), a first one of 8191 bytes or more among them
  (`FirstInputExactly`).
- A comment in the source says that Content-Length is ignored in chunked mode; the code's assertion
  refuses it. `HeadExactly` proves for all headers, whose codings are chunked, that a client rejects
  them if and only if a name is no token, a length is negative or there are both a length and a
  coding, in whatever order; `BothRefused` is a response with both.
- A continuation line is to be joined to the value of the header before it, but the loop that blanks
  the line break starts at the length of the old value instead of its end. `FoldedValue` says what is
  read afterwards; the old value is still its beginning if and only if it is empty (`FoldedKeeps`), and
  the header can still be found under its name if and only if the name ends in front of the blanks
  (`FoldedName`).

**SimCList.** The list class carries a ghost chain of nodes. Every operation is proved to refine an
operation on the sequence of data and to keep `list_repOk` and what that does not look at: at most
five spare nodes, all different and outside the chain. `WalkExactly` treats the 32-bit arithmetic of
`list_delete_range`: the middle pointer arrives if and only if something remains. The sort is proved
for every pivot that may be drawn: the data are permuted for any comparator, and sorted in the
direction asked for if the comparator is a total preorder; links, middle pointer and length are
outside the frame of the method. `RepOk` is the check the code carries for debug builds: on any heap,
also one whose links run in a circle, it ends and accepts a list if and only if the fields describe
a chain, which `ChainUnique` shows to be the only one.

**cJSON.** `PrintValue` and `ParseText` are printer and parser on bytes, `ParseText` with the error
pointer. `RoundTrip` holds for every tree of null, booleans, 32-bit integers, NUL-free strings,
arrays and objects, formatted or not, at any depth, and the whole text is consumed. Every tree that
is parsed is such a tree (`ParsedWellFormed`), so printing it and parsing it again changes nothing
(`PrintParsed`). Not only the printer's texts are read: `WholeTextRead` holds for every text of such a
tree that section 2 of RFC 8259 allows, with white space anywhere and strings in any spelling, and
`LiteralRead` and `LiteralSpelled` say which literals there are and what each of them means, halves of
surrogate pairs included. `TextBroken` says where the error pointer stands in a text that breaks off,
and the lemmas of `CJsonLayout` what the printer writes between the values. The methods of
`CJsonStrings`, `CJsonTree` and `CJsonReader` fill buffers of exactly the lengths the code computes and
link items as the code does; every write is in bounds. The buffer of an object without members is
one byte short when it is formatted at depth 0 and long enough otherwise (`EmptyFits`), so
`PrintValueOf` excludes that one case.

**Dispatch.** The pass over the clients removes some of them while it walks the list; it is proved
to visit each once and to keep the order of the others. Over all runs of the transition system, made
of the thread's packets, the connection callbacks and the network taking bytes, no output buffer
exceeds its limit, which is also what makes the comparison of a signed difference with an unsigned
size mean what it should (`FullExactly`); nothing is sent before the first key frame with a positive
pts; and a frame that is no key frame is written only when every frame since the last key frame, or
since the client was connected, was written and not drained. A client is served as well as it can be:
every frame that is dispatched while it is connected and not marked comes to it, and is written if and
only if there is room for it and it is a key frame or a key frame was written since the last frame
without room (`WrittenExactly`); what its buffer holds is the sum over the frames written since then,
less what was taken (`OutputExactly`).

**MD5.** The transformation of one block is a parameter. Whatever the pieces, the digest is that of
the joined message, padded as in sections 3.1 and 3.2 of RFC 1321. The loop test `i + 63 < inputLen`
is modelled in 32-bit arithmetic: it works if and only if the buffered bytes and the new ones are
fewer than 2 to the 32 (`GoesExactly`, `NeverStops`). The words of the initial state, the padding and
the digest are stated byte by byte (`InitialBytes`, `PaddedBytes`, `OutputBytes`).

**Device opening.** Callbacks are atomic steps. In every reachable state each request is answered
once, or waits in exactly one device that is being connected, or was abandoned by a failed lookup or
probe, or was lost with its device, and which of these is said exactly, from the events and the
devices (`AnsweredExactly`, `AbandonedExactly`, `LostWhich`). A device is connected if and only if a
probe for it succeeded (`ConnectedExactly`), and a probe is read with digest authentication if and only
if it was challenged (`DigestExactly`). Devices are removed while requests wait for them in two ways: a
push command starts the reading thread of any listed device, and the end of that thread deletes the
device; and so does the connection of its last client, when it fails before the thread is marked as
started. Both are one step of the model, `Removed`, which may come at any time. No request is lost if
and only if no device is removed while requests wait for it (`LostExactly`); every probe is for a
listed device that is being connected if and only if no device is removed while it is being probed
(`ProbedExactly`). `RemovedEarly` is a run that does both, and in which the same device is probed
twice at a time.

That no key has two probes in flight holds in all states of a run if and only if no known key is
opened that is not listed but has a probe in flight (`AloneExactly`); for a device that has just been
removed, that is if and only if it was being probed (`OpenAfterRemoval`). A device is looked for by
the decoded id but stored under the raw one, so a second request finds the first one's device if and
only if its id holds neither a percent nor a plus sign (`SecondOpen`). With such ids keys are unique,
and as long as no device is removed while it is being probed, no key has two probes in flight
(`OneProbe`).

Inputs that the program gets from outside are parameters or events: bytes from a socket, the reply
of the data base, the reply of a device, the random pivot, connection callbacks.

## Model

| member | source | states |
|---|---|---|
| RtspRun.StepValid | src/common/rtsp-parser.c:262-680 | Every loop iteration keeps the spans inside the consumed bytes, each header's name before its value and each header before the next, and the decoded bytes before the byte read next |
| RtspRun.StepProgress | src/common/rtsp-parser.c:285-376 | Every iteration uses a byte, or stays at its byte in a later state of the line, although the cursor is stepped back |
| RtspRun.AppendValid | src/common/rtsp-parser.c:109-132 | Appended bytes keep the invariant and change neither spans nor framing |
| RtspRun.ChunkedNotMade | src/common/rtsp-parser.c:104-107 | The terminators and blanks the parser writes cannot make a body chunked |
| RtspRun.HeaderEndValid | src/common/rtsp-parser.c:625-676 | Storing or joining a header line and handling it keeps the header table in order |
| RtspModel.TerminatedValue | src/common/rtsp-parser.c:210-219 | The terminator written behind the word chunked lies inside the value, so inside the buffer |
| RtspModel.FindHeader | src/common/rtsp-parser.c:1092-1104 | The index of the first header with the name in any case, none if no header has it |
| RtspSplit.SplitAnywhere | src/common/rtsp-parser.c:961-1018 | Fed in any pieces or whole, the result, state, cursor, header table and every buffer byte are the same, unless a proper prefix already completes the message |
| RtspSplit.RunLater | src/common/rtsp-parser.c:961-1018 | A run that needs more goes on with new bytes as if they had been there before |
| RtspSplit.RejectLater | src/common/rtsp-parser.c:961-1018 | What is rejected stays rejected whatever follows |
| RtspSplit.DoneLater | src/common/rtsp-parser.c:987-1005 | A complete message stays complete with surplus bytes, unless its end came from a Content-Length, when the same call rejects it |
| RtspSettled.SettledExactly | src/common/rtsp-parser.c:462-487 | A start line is decided alike for all continuations if and only if its own bytes settle the version scan |
| RtspSettled.SplitExactly | src/common/rtsp-parser.c:961-1018 | Bytes that end with the start line, and any bytes after them in a call of their own, come to the same as both in one call, if and only if the line is settled |
| RtspSettled.UnsettledCall | src/common/rtsp-parser.c:961-1018 | A call that ends with an unsettled start line rejects it; some bytes in the same call make the parser accept it and wait for more |
| RtspSettled.OpenLineUnsettled | src/common/rtsp-parser.c:344-372 | Such a line exists: a new server parser rejects it on its own and accepts it with the right bytes behind it |
| RtspSettled.UnsettledDiffers | src/common/rtsp-parser.c:344-372 | For an unsettled line there are bytes that make the parser accept what it refuses without them |
| RtspSplit.StepLater | src/common/rtsp-parser.c:403-676 | A step that does not wait does the same when more bytes stand behind |
| RtspSplit.SettledAtPause | src/common/rtsp-parser.c:961-1018 | A settled start line is settled wherever the run pauses |
| RtspChunked.InPlaceDecoding | src/common/rtsp-parser.c:696-905 | The decoder that overwrites its own input completes, waits and rejects exactly as the pure decoder on the original bytes, and leaves the data in place, all else before and behind unchanged |
| RtspChunked.ChunkedBody | src/common/rtsp-parser.c:982-990 | The same from the end of the headers on |
| RtspChunked.DecodeEncoded | src/common/rtsp-parser.c:696-905 | Decoding an encoded body gives the data of its chunks, joined, whatever the digits and extensions of the sizes, the lines of the trailer and the bytes around it are |
| RtspChunked.SizeLineRun | src/common/rtsp-parser.c:718-805 | A size line with extensions is read as the coding says |
| RtspChunked.DataRun | src/common/rtsp-parser.c:807-838 | A chunk is moved only when it is complete and followed by its line end |
| RtspChunked.TrailerRun | src/common/rtsp-parser.c:840-895 | The trailer ends at its empty line |
| RtspRender.ResponseRoundTrip | src/common/rtsp-parser.c:961-1104 | A rendered response completes in one call; status line, headers in order, lookup by name, body and what the headers say to the parser are those of the response |
| RtspRoundTrip.PiecesRoundTrip | src/common/rtsp-parser.c:961-1104 | The same for a response that is fed in any non-empty pieces |
| RtspRoundTrip.ChunkedRoundTrip | src/common/rtsp-parser.c:961-1104 | A rendered response with Transfer-Encoding: chunked anywhere among its headers and an encoded body, with extensions and trailer, is read back, the content being the data of the chunks joined |
| RtspRoundTrip.ChunkedPieces | src/common/rtsp-parser.c:961-1104 | The same in any non-empty pieces |
| RtspRoundTrip.NotBefore | src/common/rtsp-parser.c:987-1005 | A message that uses all of its bytes is not complete before the last one |
| RtspRoundTrip.BodyKeeps | src/common/rtsp-parser.c:975-990 | Reading the body changes neither start line nor header table |
| RtspRoundTrip.VersionSettled | src/common/rtsp-parser.c:462-487 | A status line whose version is followed by a space is settled |
| RtspRender.FoundByName | src/common/rtsp-parser.c:1092-1104 | Lookup by name gives the first field of that name in any case, or none |
| RtspRender.FieldsRun | src/common/rtsp-parser.c:500-680 | Rendered header lines fill the table with their names and values in order and take over the last Content-Length, or the chunked coding |
| RtspRender.StatusRun | src/common/rtsp-parser.c:380-491 | A rendered status line is accepted with its version, code and reason |
| RtspRender.StatusRefused | src/common/rtsp-parser.c:466-487 | A rendered status line of any other version with single digits is rejected |
| RtspRender.FieldHandled | src/common/rtsp-parser.c:187-231 | A header named Connection, in any case, sets the flag to whether its value is close in any case; Content-Encoding, Set-Cookie and Location record where the value stands; Content-Length and Transfer-Encoding set the framing; any other name changes nothing |
| RtspRender.NotesJoin | src/common/rtsp-parser.c:187-231 | Over all headers what is recorded is that of the last one with the name in any case, and what it was before if there is none |
| RtspRender.NotedText | src/common/rtsp-parser.c:187-231 | The C string at the place recorded is the value of that header |
| RtspRequest.RequestRoundTrip | src/common/rtsp-parser.c:961-1104 | A rendered request completes in one call of a server's parser; method, URI, version, headers, lookup by name, body and what the headers say to the parser are those of the request |
| RtspRequest.ChunkedRequest | src/common/rtsp-parser.c:961-1104 | The same for a request with an encoded body |
| RtspRequest.RequestPieces | src/common/rtsp-parser.c:961-1018 | Such a request, fed in any non-empty pieces, comes to what one call makes of it |
| RtspRequest.RequestScanned | src/common/rtsp-parser.c:262-344 | Method, URI and version are the three tokens of the line |
| RtspRequest.RequestAccepted | src/common/rtsp-parser.c:344-372 | A rendered request line is accepted if and only if its version is 1.0, 1.1, 2.0 or 2.1 |
| RtspRequest.RequestRefused | src/common/rtsp-parser.c:344-372 | Of any other version with single digits the whole input is rejected |
| RtspFolded.ContinuationRun | src/common/rtsp-parser.c:500-640 | A line that begins with a blank is scanned as a continuation |
| RtspFolded.FoldedValue | src/common/rtsp-parser.c:640-656 | The joined value is what stays of the old one, blanks up to the new line's text, and that text; what stays are the bytes whose index is less than the length of the old value |
| RtspFolded.FoldedKeeps | src/common/rtsp-parser.c:647-653 | The old value is still the beginning of the joined one if and only if it is empty |
| RtspFolded.FoldedName | src/common/rtsp-parser.c:647-650 | The header can still be found under its name if and only if the name and its terminator stand in front of the blanked bytes |
| RtspRefused.HeadExactly | src/common/rtsp-parser.c:187-257 | A new client that is fed a status line and headers, whose codings are chunked, rejects them if and only if a name is no token, a length is negative or there are both a length and a coding, in either order |
| RtspRefused.LinesExactly | src/common/rtsp-parser.c:500-680 | The same from any header line on, given what the headers before it said |
| RtspRefused.FieldRefused | src/common/rtsp-parser.c:187-257 | A header line is rejected that has a name that is no token, a negative length, a length behind a chunked coding, or that coding behind a length |
| RtspRefused.FieldsExactly | src/common/rtsp-parser.c:192-219 | The conditions met header by header come to this: all names are tokens, no negative length, and not both a length and a coding anywhere |
| RtspRefused.ResponseRefused | src/common/rtsp-parser.c:961-1018 | A response with such headers is rejected in one call whatever its body is |
| RtspRefused.BothRefused | src/common/rtsp-parser.c:192-219 | A response with Content-Length: 5 and Transfer-Encoding: chunked is rejected in either order |
| RtspRefused.TokenChars | src/common/rtsp-parser.c:86-97 | The characters of a token are the letters, the digits and fifteen marks |
| RtspParser.RefusedExactly | src/common/rtsp-parser.c:114-127 | An append fails the assertion if and only if data and terminator fill the buffer exactly, or a full buffer would grow by no more than them; it is too big if and only if the buffer has to grow beyond 64 MB |
| RtspParser.FirstInputExactly | src/common/rtsp-parser.c:114-127 | A parser without a buffer takes a first input if and only if it is shorter than 8191 bytes |
| RtspParser.RtspParser.constructor | src/common/rtsp-parser.c:907-918 | A new parser is at the start line of an empty buffer |
| RtspParser.RtspParser.RawData | src/common/rtsp-parser.c:109-132 | The buffer holds the old bytes, the new ones and a terminator, or is refused without a change to the state |
| RtspParser.RtspParser.ParseStartLine | src/common/rtsp-parser.c:262-491 | The loop is a stretch of the specified run |
| RtspParser.RtspParser.HeaderHandler | src/common/rtsp-parser.c:187-231 | The state afterwards is what the specification makes of the header, about which RtspRender.FieldHandled speaks; false where an assertion fails |
| RtspParser.RtspParser.HeaderAdd | src/common/rtsp-parser.c:233-257 | The header is in the table and terminated, or refused |
| RtspParser.RtspParser.ParseHeaderLine | src/common/rtsp-parser.c:500-680 | The loop is a stretch of the specified run |
| RtspParser.RtspParser.ParseChunked | src/common/rtsp-parser.c:696-905 | The loop is a stretch of the specified run |
| RtspParser.RtspParser.Input | src/common/rtsp-parser.c:961-1018 | Exactly the run on the appended bytes: 1, 0 or negative as it needs more, is done or rejects, and the state of that run |
| RtspParser.RtspParser.GetHeader | src/common/rtsp-parser.c:1080-1090 | Name and value of the header at the index as C strings, none outside the table |
| RtspParser.RtspParser.GetHeaderByName | src/common/rtsp-parser.c:1092-1104 | The value of the first header with the name |
| RtspParser.RtspParser.Clear | src/common/rtsp-parser.c:944-959 | The parser is as new but for the version and the spans of the header line |
| Bytes.ScanIntStable | src/common/rtsp-parser.c:480 | A number that ends inside the bytes at hand reads the same whatever follows |
| Bytes.CStringPrefix | src/common/rtsp-parser.c:1087-1088 | A terminated string does not depend on what comes behind it |
| SimcList.List.constructor | src/common/simclist.c:237-271 | An empty list without spare nodes |
| SimcList.List.Init | src/common/simclist.c:237-271 | The same on a list that was in use |
| SimcList.List.FindPos | src/common/simclist.c:458-482 | The node at the position from whichever end or the middle the walk starts, null outside the list |
| SimcList.List.InsertAt | src/common/simclist.c:502-549 | 1 and the datum inserted at the position, or -1 and nothing changed; the invariant is kept |
| SimcList.List.TakeNode | src/common/simclist.c:507-515 | The last spare node, or a new one when there is none |
| SimcList.List.ExtractAt | src/common/simclist.c:484-500 | The datum at the position is returned and gone from the list |
| SimcList.List.DeleteAt | src/common/simclist.c:567-583 | The element at the position is gone, or -1 and nothing changed |
| SimcList.List.DropElem | src/common/simclist.c:1397-1423 | The node is unlinked and kept as a spare one if there is room; the middle pointer is moved to the new middle |
| SimcList.List.DeleteRange | src/common/simclist.c:585-645 | A strict sub-range is gone, its nodes are offered to the spare store in order, the middle pointer is in the middle of the rest |
| SimcList.List.MoveMid | src/common/simclist.c:593-603 | The signed walk ends at the middle of what will remain, before anything is unlinked |
| SimcList.WalkExactly | src/common/simclist.c:594-598 | In 32-bit arithmetic the walk ends at the middle of the rest if and only if anything remains |
| SimcList.List.Clear | src/common/simclist.c:647-687 | The list is empty, its first nodes fill the spare store |
| SimcList.List.Locate | src/common/simclist.c:697-715 | The index of the first match by the comparator or by reference, -1 without one |
| SimcList.IndexOf | src/common/simclist.c:701-712 | No element before the result matches, the element there does; none matches if it is -1 |
| SimcList.List.Delete | src/common/simclist.c:551-565 | The first matching element is gone, or -1 |
| SimcList.List.Concat | src/common/simclist.c:733-784 | The destination has the elements of both sources, which may be one list and are unchanged; -1 and no change if a list is missing or a source is the destination |
| SimcList.List.CentreMid | src/common/simclist.c:770-779 | The truncating corrections move the pointer from the end of the first list to the middle of both |
| SimcList.InsertedLinked | src/common/simclist.c:529-536 | Four assignments link a node in and keep links mutually inverse |
| SimcList.InsertedData | src/common/simclist.c:529-536 | Inserting a node in the chain inserts its datum in the data |
| SimcList.CutLinked | src/common/simclist.c:637-640 | Two assignments skip a stretch of nodes and keep links mutually inverse |
| SimcList.CutData | src/common/simclist.c:637-640 | Skipping nodes cuts their data out of the data |
| SimcList.CutMiddle | src/common/simclist.c:594-597 | The element at the middle of what a cut leaves, counted in the uncut list |
| SimcList.KeptGood | src/common/simclist.c:625-634 | Nodes that were cut out and offered to the store are different from each other, from the spare ones and from the chain |
| SimcRepOk.RepOk | src/common/simclist.c:1494-1524 | Ends on any heap, and accepts if and only if the fields of the list describe a chain with the middle pointer on its middle and the spare count is at most five |
| SimcRepOk.WalkGrows | src/common/simclist.c:1512-1519 | Over mutually inverse links, from a node without predecessor, the loops never come back to a node they passed |
| SimcRepOk.WalkIsPrefix | src/common/simclist.c:1512-1519 | Every such walk from the head of a chain is a prefix of the chain |
| SimcRepOk.MiddleReached | src/common/simclist.c:1512-1516 | In a list that describes a chain the first loop stops at the middle pointer |
| SimcRepOk.EndReached | src/common/simclist.c:1517-1520 | Where the second loop stops tells whether the nodes passed are the chain or there is none |
| SimcRepOk.ChainUnique | src/common/simclist.c:1494-1524 | The fields of a list determine its chain |
| SimcRepOk.ValidAccepted | src/common/simclist.c:1494-1524 | The invariant that every operation keeps is accepted |
| SimcSort.Sort | src/common/simclist.c:786-795 | -1 while iterated or without comparator; else the data are permuted, and sorted in the direction of versus if the comparator is a total preorder; only data change |
| SimcSort.QuickSort | src/common/simclist.c:835-956 | For every pivot and comparator the range is permuted and nothing else, and sorted if the comparator is lawful |
| SimcSort.SelectionSort | src/common/simclist.c:814-833 | The range is permuted, and sorted if the comparator is lawful |
| SimcSort.FindForemost | src/common/simclist.c:824-826 | The node found belongs before all that remain |
| SimcSort.Divide | src/common/simclist.c:860-922 | A pivot with nothing before it that belongs behind it and nothing behind it that belongs before it |
| SimcSort.FindPivot | src/common/simclist.c:860-868 | Any position may be drawn, and the walk from either end arrives there |
| SimcSort.Partition | src/common/simclist.c:870-890 | One iterator arrives at the pivot and what both passed lies on its side |
| SimcSort.TailLeft | src/common/simclist.c:892-906 | The pivot moves left past all that belongs behind it |
| SimcSort.TailRight | src/common/simclist.c:907-922 | The pivot moves right past all that belongs before it |
| SimcSort.SortParts | src/common/simclist.c:952-954 | The two recursive calls sort both sides of the pivot and leave it in place |
| SimcSort.SortedJoin | src/common/simclist.c:952-954 | Two sorted parts around an element that splits them are sorted as a whole |
| SimcSort.SplitKept | src/common/simclist.c:952-954 | Sorting one side keeps the split |
| SimcSort.PreorderLawful | src/common/simclist.c:875-877 | A total preorder stays one when multiplied by any direction |
| CJsonRoundTrip.RoundTrip | src/common/cJSON.c:256-309 | Parsing what was printed gives the same tree and consumes the whole text, at any depth, formatted or not, with or without the check for a terminator |
| CJsonRoundTrip.ValueRead | src/common/cJSON.c:279-309 | parse_value undoes print_value wherever the text stands, unless a number could go on behind it |
| CJsonRoundTrip.ArrayRead | src/common/cJSON.c:312-337 | parse_array undoes print_array |
| CJsonRoundTrip.ObjectRead | src/common/cJSON.c:398-431 | parse_object undoes print_object, members in order |
| CJsonRoundTrip.NumberRead | src/common/cJSON.c:96-124 | parse_number undoes print_number on every 32-bit integer |
| CJsonRoundTrip.StringRead | src/common/cJSON.c:143-240 | parse_string undoes print_string_ptr on every NUL-free string |
| CJsonRoundTrip.EscapedRead | src/common/cJSON.c:220-236 | The escape of one byte is decoded in one step to that byte |
| CJsonParsed.NumberParsed | src/common/cJSON.c:96-116 | The number is what atoi reads from the bytes gone through; a digit stays unread only behind a single zero, where it is a zero |
| CJsonParsed.ParsedWellFormed | src/common/cJSON.c:256-291 | Every tree that is parsed has 32-bit integers and NUL-free strings only |
| CJsonParsed.PrintParsed | src/common/cJSON.c:256-309 | A parsed tree, printed in either form and at any depth, is parsed to the same tree again |
| CJsonFits.PrintNulFree | src/common/cJSON.c:294-309 | A printed value is a C string |
| CJsonFits.ArrayFits | src/common/cJSON.c:344-371 | The length that print_array adds up holds the text and its terminator |
| CJsonFits.ObjectFits | src/common/cJSON.c:437-468 | The length that print_object adds up holds the text and its terminator |
| CJsonFits.EmptyFits | src/common/cJSON.c:443-452 | The buffer of an object without members is long enough if and only if it is not formatted at depth 0 |
| CJsonFits.NumberFits | src/common/cJSON.c:123-124 | The text of any 32-bit integer and its terminator fit 21 bytes |
| CJsonStrings.PrintStringPtr | src/common/cJSON.c:207-240 | The buffer is filled exactly: the escaped text in quotes and a terminator |
| CJsonStrings.CountEscaped | src/common/cJSON.c:212 | The counting loop finds the length of the escaped text |
| CJsonStrings.ParseStringPtr | src/common/cJSON.c:143-204 | The decoded C string in a buffer of the counted length and one byte, and the index behind the literal; null and the error pointer if there is no literal |
| CJsonStrings.RawFits | src/common/cJSON.c:148-150 | The counting loop stays inside a well-formed literal and counts at least as many bytes as are decoded, which hold no zero |
| CJsonStrings.DecodeUnicode | src/common/cJSON.c:168-197 | The bytes and the cursor after a \u escape or a pair of them, valid or not |
| CJsonStrings.PutUtf8 | src/common/cJSON.c:183-195 | The switch that falls through backwards writes the UTF-8 form of the code point |
| CJsonSpelling.SpellingRead | src/common/cJSON.c:153-201 | One turn reads a byte as itself, a backslash and any byte other than b, f, n, r, t and u as that byte, the short escapes, and the escapes of code points, in digits of either case, as their UTF-8 form; zero and half of a surrogate pair as nothing |
| CJsonSpelling.LiteralRead | src/common/cJSON.c:143-204 | A literal of any such spellings in any mixture is read as what they mean |
| CJsonSpelling.LiteralSpelled | src/common/cJSON.c:143-204 | There are no other literals |
| CJsonSpelling.SolidusRead | src/common/cJSON.c:196 | An escaped solidus is a solidus |
| CJsonTexts.TextRead | src/common/cJSON.c:279-431 | A value is read from any of its texts, with white space wherever it may stand and strings in any spelling, wherever the text stands |
| CJsonTexts.WholeTextRead | src/common/cJSON.c:256-272 | The same for a whole text; the parse ends behind the value, or at the end if all of the text is to be used |
| CJsonTexts.NumberTextRead | src/common/cJSON.c:96-116 | An integer with or without a minus sign, minus zero included |
| CJsonErrors.BreakFound | src/common/cJSON.c:279-431 | A value fails where its text breaks off: where a value, a name, a colon, a comma or a closing bracket is missing behind complete elements, at any depth |
| CJsonErrors.TextBroken | src/common/cJSON.c:256-272 | For a whole text the error pointer stands there |
| CJsonErrors.SurplusFound | src/common/cJSON.c:267 | If all of the text is to be used, it stands at the first byte behind the value that is no white space |
| CJsonLayout.ArrayLayout | src/common/cJSON.c:380-394 | An array is its values with commas between them, and a space behind each comma if formatted |
| CJsonLayout.ObjectLayout | src/common/cJSON.c:483-498 | A formatted object has a line for each member, one tabulator further in than its closing line |
| CJsonLayout.PlainObjectLayout | src/common/cJSON.c:483-498 | An unformatted object is its members with commas between them and nothing else |
| CJsonLayout.EmptyLayout | src/common/cJSON.c:443-452 | A formatted object without members |
| CJsonStrings.ContinuationByte | src/common/cJSON.c:187-192 | (uc or 0x80) and 0xBF is 0x80 and the six low bits |
| CJsonStrings.SurrogatePair | src/common/cJSON.c:180 | The masks and the shift put two times ten bits together |
| CJsonTree.PrintValueOf | src/common/cJSON.c:294-309 | For items linked as a tree, a new C string with the text of the tree |
| CJsonTree.PrintArrayOf | src/common/cJSON.c:340-395 | The same for an array, in a buffer of the computed length |
| CJsonTree.PrintObjectOf | src/common/cJSON.c:434-499 | The same for an object |
| CJsonTree.CollectItems | src/common/cJSON.c:360-369 | The printed items in order and the sum of their budgets |
| CJsonTree.CollectMembers | src/common/cJSON.c:461-468 | The printed names and values in order and the sum of their budgets |
| CJsonTree.PrintNumberOf | src/common/cJSON.c:119-124 | A new C string with the decimal text |
| CJsonReader.ParseWithOpts | src/common/cJSON.c:256-272 | The linked items of the parsed tree and where its text ends, or null and the error pointer |
| CJsonReader.ParseValueInto | src/common/cJSON.c:279-291 | The item stands for the tree that the text holds at that index, or null and the error pointer |
| CJsonReader.ParseArrayInto | src/common/cJSON.c:312-337 | The same for an array, children linked both ways in order |
| CJsonReader.ParseObjectInto | src/common/cJSON.c:398-431 | The same for an object, children with their names |
| CJsonReader.ParseNumberInto | src/common/cJSON.c:96-116 | The item stands for the number, the index is behind it |
| CJsonReader.ParseStringInto | src/common/cJSON.c:143-204 | The item stands for the decoded string |
| CJsonReader.AddItem | src/common/cJSON.c:321-332 | A new item linked behind the last one, with the value that is parsed; the earlier items still stand for their trees |
| CJsonReader.AddMember | src/common/cJSON.c:407-426 | The same with a name |
| Dispatch.Client.Serve | src/dev_opt.c:766-796 | Drain and mark, skip, or write header and frame, as specified |
| Dispatch.Dispatcher.Pass | src/dev_opt.c:748-799 | Every client is visited once although clients are removed under way; those that stay keep their order and are each served as on their own |
| Dispatch.Dispatcher.OnPacket | src/dev_opt.c:679-735 | What the gate does with a packet, and the pass if it is let through |
| Dispatch.KeptExactly | src/dev_opt.c:751-765 | Exactly the clients stay that are not both marked and connected |
| Dispatch.KeptOrder | src/dev_opt.c:751-765 | Two clients that stay are in the order they were in |
| Dispatch.FullExactly | src/dev_opt.c:769-770 | The mixed comparison finds a frame too large exactly when it is, if and only if the buffer is within its limit |
| Dispatch.QueueBound | src/dev_opt.c:766-796 | In every run no output buffer exceeds its limit |
| Dispatch.GroupsOfPictures | src/dev_opt.c:766-796 | In every run a written frame that is no key frame continues all frames since the last key frame, or since the connection, written and not drained first |
| Dispatch.GateExactly | src/dev_opt.c:679-734 | In every run exactly the video from the first key frame with a positive pts on is dispatched |
| Dispatch.StepOk | src/dev_opt.c:672-809 | Every atomic step keeps queue bounds and group continuity of every client |
| Dispatch.DeliverOk | src/dev_opt.c:766-796 | The dispatch of one frame to one client keeps them |
| Dispatch.FanOutPlain | src/dev_opt.c:751-799 | The histories do not change what the pass does |
| DispatchFrames.WrittenExactly | src/dev_opt.c:766-796 | In every run a frame that came to a client was written if and only if there was room for it then, and it is a key frame or a key frame was written since the last frame for which there was none |
| DispatchFrames.OutputExactly | src/dev_opt.c:766-796 | In every run a client's buffer holds header and size of the frames written since the last overflow, less what was taken |
| DispatchFrames.EveryFrameCame | src/dev_opt.c:748-766 | In every run all frames dispatched since a client was connected came to it, as long as it is not marked, and no other is written for it |
| DispatchFrames.StepLogs | src/dev_opt.c:672-809 | Every atomic step keeps what holds of every client's history |
| Md5.Context.constructor | src/common/md5.c:141-150 | A context that has absorbed the empty message |
| Md5.InitialBytes | src/common/md5.c:145-148 | Section 3.3 of RFC 1321: the bytes of the four words of the initial state |
| Md5.OutputBytes | src/common/md5.c:194 | Byte 4i + j of the output is word i of the state, in the order a, b, c, d, divided by 256 to the j, modulo 256 |
| Md5.PaddedBytes | src/common/md5.c:188-192 | Behind the message the byte 0x80, zeros, and the bit length in the last eight bytes, the low byte first |
| Md5.Context.Update | src/common/md5.c:153-180 | The context has absorbed the message with the input behind it |
| Md5.Context.Count | src/common/md5.c:159-163 | The two words hold the bit length modulo 2 to the 64, carry included |
| Md5.Context.Absorb | src/common/md5.c:167-175 | All whole blocks are transformed in order and the index of the rest is returned |
| Md5.Context.Final | src/common/md5.c:183-197 | The digest of the message, byte by byte the four words of the final state, and the context wiped |
| Md5.MDString | src/common/md5.c:199-208 | The digest of a string |
| Md5.DigestInParts | src/common/md5.c:141-197 | However a message is cut, its digest is that of the joined message |
| Md5.GoesExactly | src/common/md5.c:171 | The test does not wrap before the loop is past its end, when buffered and new bytes are fewer than 2 to the 32 |
| Md5.NeverStops | src/common/md5.c:171 | Otherwise it never fails, whatever the index has become |
| Md5.CountAdd | src/common/md5.c:159-163 | Adding to the words adds to the bit length |
| Md5.CountIndex | src/common/md5.c:157 | The index computed from the low word is the number of buffered bytes |
| Md5.PaddingIs | src/common/md5.c:188-192 | What is appended is the padding of RFC 1321 |
| Md5.PaddedBlocks | src/common/md5.c:188-192 | Padding fills the last block with 9 to 72 bytes |
| Md5.PaddedInjective | src/common/md5.c:188-192 | Different messages of less than 2 to the 61 bytes are padded differently |
| UrlCode.UrlEncode | src/common/url_code.c:18-51 | The encoding of the longest prefix that fits, never a part of an escape, terminated if there is room; -1 if an escape did not fit in the room left |
| UrlCode.FitLongest | src/common/url_code.c:24-45 | A prefix is encoded if and only if its encoding fits |
| UrlCode.EncodedAs | src/common/url_code.c:26-45 | A byte stands for itself if section 2.3 of RFC 3986 calls it unreserved, a space becomes a plus sign, any other byte a percent sign and two digits with capital letters |
| UrlCode.UrlDecode | src/common/url_code.c:53-85 | The decoded bytes, and -1 at the first escape that is malformed or cut off |
| UrlCode.DecodedTokens | src/common/url_code.c:59-80 | A text is decoded token by token, as many as there is room for; -1 if a malformed escape is met with room left |
| UrlCode.Tokenized | src/common/url_code.c:59-80 | Any text consists of tokens up to its end or its first malformed escape |
| UrlCode.EscapeSeen | src/common/url_code.c:67 | The three tests find exactly the escapes inside the source |
| UrlCode.RoundTrip | src/common/url_code.c:18-85 | Decoding what was encoded returns 0 and exactly the prefix that had room |
| UrlCode.DecodedSame | src/common/url_code.c:53-85 | Decoding changes nothing if and only if there is neither a percent nor a plus sign |
| Bytes.HexDigit | src/common/url_code.c:13-16 | The value that ToHex gives a digit undoes the table of digits, in either letter case |
| DeviceOpening.Server.OpenVideo | src/libevent_server.c:468-573 | The device list and the requests after the command are those of the specified step |
| DeviceOpening.Server.ProbeFails | src/dev_opt.c:286-305 | The device and its waiting list are gone |
| DeviceOpening.Server.Succeed | src/dev_opt.c:337-350 | All that wait are answered once, in order, and the device is connected |
| DeviceOpening.Server.ReadBasic | src/dev_opt.c:364-482 | Early returns leave the device without a probe, a digest challenge keeps its probe, a description answers |
| DeviceOpening.Server.ReadDigest | src/dev_opt.c:311-352 | A description answers |
| DeviceOpening.Server.Unlist | src/dev_opt.c:811-820 | The node is off the list whatever its status is, with the requests that wait there; src/libevent_server.c:161-182 does the same for a last client |
| DeviceOpening.Server.Seek | src/libevent_server.c:438-458 | The first device with the key, or none |
| DeviceOpening.Ledger | src/libevent_server.c:468-573 | In every run every request is accounted for exactly once: answered, waiting, abandoned, or lost with its device |
| DeviceOpening.LostExactly | src/dev_opt.c:811-820 | In every run no request is lost if and only if no device is removed while requests wait for it |
| DeviceOpening.LostWhich | src/dev_opt.c:811-820 | In every run the requests that are lost are exactly those that waited for a device when it was removed |
| DeviceOpening.AnsweredExactly | src/libevent_server.c:541-559 | In every run the requests that are answered are exactly those that came while the first device with their key was connected, or waited at a device when a probe for it succeeded |
| DeviceOpening.AbandonedExactly | src/libevent_server.c:486-529 | In every run the requests that are abandoned are exactly those that asked for an unlisted device that the data base does not have, or waited at a device when a probe for it failed |
| DeviceOpening.ConnectedExactly | src/dev_opt.c:337-350 | In every run a listed device is connected if and only if a probe for it succeeded |
| DeviceOpening.DigestExactly | src/dev_opt.c:364-482 | In every run the digest callback reads from a probe if and only if the probe was challenged |
| DeviceOpening.ProbedExactly | src/dev_opt.c:811-820 | In all states of a run every probe is for a listed device that is being connected, if and only if no step removes a device that is being probed |
| DeviceOpening.RemovedEarly | src/dev_opt.c:811-820 | A run in which the request of a device that is removed is lost, and a second request starts a second probe for its key |
| DeviceOpening.WaitsForOne | src/libevent_server.c:560-570 | A request that is neither answered nor abandoned nor lost waits in exactly one device, which is being connected |
| DeviceOpening.TotalStep | src/libevent_server.c:486-573 | A request is accounted for when it comes and by no other step |
| DeviceOpening.OrderlyStep | src/dev_opt.c:286-305 | Devices are connected with nobody waiting, or being connected, and each probe has a node of its own, that of a device being connected or one that was removed; a step makes a probe one of the second kind if and only if it removes a device that is being probed |
| DeviceOpening.RunKeys | src/libevent_server.c:484-529 | With plain ids no two devices have the same key |
| DeviceOpening.AloneExactly | src/libevent_server.c:484-536 | In all states of a run no key has two probes in flight, if and only if no known key is opened that is not listed but has a probe in flight |
| DeviceOpening.OpenAfterRemoval | src/libevent_server.c:484-536 | A request for a device that has just been removed enters it again and starts a probe; two are in flight for its key if and only if one was when it was removed |
| DeviceOpening.OneProbe | src/libevent_server.c:484-536 | With plain ids, and as long as no device is removed while it is being probed, no key has two probes in flight, and all of them are for devices that are being connected |
| DeviceOpening.SeekIdExactly | src/libevent_server.c:479 | The id looked for is the id sent if and only if it holds neither a percent nor a plus sign |
| DeviceOpening.SecondOpen | src/libevent_server.c:479-536 | A second request finds the device of the first if and only if the id is plain; otherwise the device is entered and probed a second time |

## Left out

- Sockets, bufferevents, threads, SQLite and FFmpeg: callbacks are atomic steps, an output buffer is a byte count that the network takes from, the reply of the data base is a parameter.
- RtspParser.RtspParser.Input: makes no claim about the count of remaining bytes after a chunked message, because the code does not subtract the framing of the chunks there.
- RtspRender.FieldsRun: takes no folded lines; `RtspFolded` says what one makes of the header it continues, but not what its blanks do to the headers and the start line before it.
- The size cap of the parser (its default 0 switches it off), allocation failure, and integer overflow in `atoi`, `%d` and chunk sizes.
- The address of the parser's buffer after `realloc` and the growth of its header table.
- SimcList.List.DeleteRange: the whole list is excluded, because there the unsigned subtraction wraps; `SimcList.WalkExactly` gives the exact condition.
- SimcList.List.FindPos: uses the exact quotient; the rounding of the float above 2 to the 24 elements is not modelled.
- Element counts beyond `INT_MAX`, lists that copy their data, iteration, dumping, restoring and hashing of lists, the ready-made comparators and meters, the sort with threads.
- SimcRepOk.RepOk: lengths are unbounded, where the code casts them to `int`; the pointers that can never be null in a list are not compared with null.
- SimcSort.Sort: the product of the comparator's result and the direction is unbounded.
- CJson.ParseNumber: fractions, exponents and numbers outside 32 bits are an outcome of their own about which nothing is claimed; so are escapes cut off by the terminator or without four hexadecimal digits.
- CJsonReader.ParseWithOpts: takes texts without such numbers and escapes, like the methods below it.
- CJsonReader.ParseValueInto: the same.
- CJsonReader.ParseArrayInto: the same.
- CJsonReader.ParseObjectInto: the same.
- CJsonReader.ParseNumberInto: the same for numbers.
- CJsonReader.ParseStringInto: the same for escapes.
- CJsonReader.AddItem: the same for one item.
- CJsonReader.AddMember: the same for one member.
- CJsonStrings.DecodeUnicode: takes escapes with four hexadecimal digits.
- CJsonTree.PrintNumberOf: prints integers; the branches for other numbers are left out.
- CJsonTree.PrintObjectOf: excludes the formatted empty object at depth 0, like `CJsonTree.PrintValueOf`.
- CJsonTree.PrintValueOf: excludes the formatted empty object at depth 0, whose buffer is one byte short.
- The helpers of cJSON that build, detach, replace and duplicate items, and the limit of the call stack.
- CJsonStrings.ParseStringPtr: takes literals without malformed escapes; the text is a sequence that a zero byte follows.
- Dispatch.Dispatcher.Pass: takes the number of clients at its start; the code reads it just before it takes the lock.
- In the dispatch, a connection that fails before the thread has been marked as started, and with it a last client that takes the device off the list; device opening has this as its step `Removed`.
- In the dispatch, the end of the thread, which destroys the list of clients; in device opening it is the same step.
- Header lines with a coding other than chunked: what the parser makes of them is in its steps, but no render of them is claimed to be read back or refused.
- Md5.Context.Update: takes calls whose buffered and new bytes are fewer than 2 to the 32, because otherwise the loop never ends (`Md5.NeverStops`).
- Md5.Context.Absorb: the same.
- The 64 steps of the MD5 transformation, hosts that store the high byte first, and the callers of MD5.
- The contents of the header that is written before a frame: only its size is modelled.
- Liveness of device opening: early returns leave a device being connected with no probe.
- Push commands, but for the thread they start, whose end is a step `Removed` that may come at any time. Devices that a push command enters itself have neither of the two statuses and are not modelled.
- What a probe's callback does with the memory of a device that was deleted under way: the model does nothing there.
- SDP text, digest strings, the dispatch of JSON commands, MAC and serial lookup, tracing, the other source files and all third-party code.

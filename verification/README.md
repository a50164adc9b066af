# libevmvc, modelled and proved in Dafny

libevmvc is an HTTP/MVC server library in C++ on top of libevent. This project models the part of it
that decides something, and proves what that part is for. Sockets are replaced by byte sequences
(characters stand for bytes), foreign code by parameters.

`dafny verify dfyconfig.toml` checks everything.

| files | what they model |
|---|---|
| `Text.dfy` | search, split, trim, case folding, the strict CRLF line cut |
| `MultipartMachine.dfy`, `MultipartParts.dfy`, `MultipartSplit.dfy`, `MultipartFiles.dfy`, `MultipartRoundTrip.dfy`, `MultipartLimits.dfy`, `MultipartParser.dfy` | `multipart/form-data` bodies (section 5.1.1 of RFC 2046, section 4 of RFC 7578): the machine as a function, its invariant, independence of chunk cuts, byte conservation, round trips, and the parser as an object proved against it |
| `HeaderMaps.dfy`, `HeadLines.dfy`, `HeadCalls.dfy`, `PassedHeads.dfy`, `RequestHead.dfy`, `RequestGrammar.dfy`, `RequestBody.dfy`, `RequestArrives.dfy` | request line, headers, the returned byte count, fixed-length bodies, raw or urlencoded, whole requests over several calls |
| `Regex.dfy`, `Routes.dfy`, `RouteText.dfy`, `RouterTree.dfy`, `Policies.dfy` | route compilation, dispatch down the tree of routers, the chain of access policies |
| `Base64.dfy`, `Jwt.dfy` | base64 and base64url (RFC 4648), the compact token form (section 7.1 of RFC 7515) |
| `Url.dfy`, `UrlForms.dfy` | the URL parser and printer (section 3 of RFC 3986) |
| `Views.dfy`, `ChunkedSender.dfy`, `Commands.dfy`, `Workers.dfy` | the view buffer stacks, the chunked file sender (section 4.1 of RFC 7230), the command serializer, the round-robin worker picker |

`HttpParser` takes the grammar of its lines as functions, so that its theorems hold for any grammar;
`RequestGrammar` holds the source's own grammar, computed by the source's loops.

Where the code does not do what one would expect of it, the code is modelled as it is and the exact
condition is proved:

- 10238 bytes is the largest line length up to which no multipart body whatever shows where it was cut into
  calls (`SplitBoundIsTight`); a longer line of a file, cut between CR and LF, can lose the boundary behind
  it. Lines outside files may be of any length (`SplitInvariance`).
- A multipart field comes back exactly when its name has no `;` and no `=` and its value no CRLF, no NUL
  and is not itself a boundary (`FieldRoundTripIff`); a nested multipart part never completes
  (`NestedNeverCompletes`).
- The call that completes the request line, or the line passed over before it, must complete the head
  (`CallsShowIff`, `PassedShowsIff`; with two such lines a cut can be harmless, `TwoPassedHide`), and the returned count
  is exact only when no line was passed over before the request line (`HeadAccounting`).
- The last pair of a urlencoded form is lost exactly when it is empty (`FormRoundTripIff`).
- A multipart request without a boundary is refused, except that one of length zero is executed
  (`NextMeaning`).
- A body announced without a content type breaks the parser as soon as a byte of it arrives
  (`CallIsExact`).
- A URL with a fragment, with a leading slash in its path, or without userinfo or port but with a later `@`
  or `:`, is not parsed back from its printed text (`FragmentIff`, `PathIff`, `DelimitedIff`).
- A URL that starts with two slashes, with `?` or with `#` keeps that mark: as part of the path, the query
  or the fragment (`TwoSlashes`, `QueryAndFragmentForms`).
- Registering a router breaks the agreement of list and map exactly when a sibling has its path
  (`RegisterKeepsForest`).
- The worker scan never ends when it starts at an http worker and none is eligible (`ScanEndsIff`).
- `doc-evmvc/README.md` lets `*` match nothing; the compiled pattern requires one non-empty part, and the
  model follows the pattern (`MandatoryNeedsPart`).

## Model

| member | source | states |
|---|---|---|
| `MultipartSplit.EveryRunKeepsInv` | include/evmvc/parser.h:711-859 | In every state any sequence of chunks can reach, mode `content` has a form or a file open, mode `headers` an unset or nested part, and a failure is a 400: the branch "Invalid multipart content type!" (500) is dead. |
| `MultipartSplit.OnLineInv` | include/evmvc/parser.h:1002-1117 | One complete line keeps that invariant, in every mode. |
| `MultipartSplit.WorkRests` | include/evmvc/parser.h:1000-1120 | The work loop ends with a stopped machine or with no complete line left and nothing to flush; it terminates because each turn removes a line. |
| `MultipartSplit.NestedNeverCompletes` | include/evmvc/parser.h:722-751 | Once a part announces `multipart/mixed`, `alternative` or `digest`, no further input completes the request: its inner boundary lines are read as headers. |
| `MultipartSplit.WorkSplit` | include/evmvc/parser.h:1000-1120 | Working on a prefix of the buffer first and on the rest later is working on it at once, while the lines of open files stay below the flush limit. |
| `MultipartSplit.SplitInvariance` | include/evmvc/parser.h:980-1146 | Any way of cutting a body into calls, also between CR and LF, ends in the same mode, parts, contents, completion or failure as one call, as long as no line read while a file is open is longer than 10238 bytes; header lines and form values may be of any length. |
| `MultipartLimits.SplitBoundIsTight` | include/evmvc/parser.h:920-945 | Cuts never show for bodies with lines of at most n bytes if and only if n <= 10238: one byte more and a flush takes a CR to disk. |
| `MultipartLimits.LongLineShowsCut` | include/evmvc/parser.h:920-945 | For every upload whose content is one line of 10239 bytes or more, the printed body cut between CR and LF leaves the request open; uncut it completes with the file, unless the line is a boundary. |
| `MultipartFiles.FileConservation` | include/evmvc/parser.h:891-970 | At every step of every run inside a file part, bytes on disk, then the owed CRLF, then the buffer are exactly the bytes received for that part, through line reads and overflow flushes. |
| `MultipartFiles.ClosedFileIsExact` | include/evmvc/parser.h:891-970 | When the part is left it was by a boundary line, and the received bytes are the file, the CRLF if one was owed, the boundary line and the rest. |
| `MultipartFiles.WorkIsTurns` | include/evmvc/parser.h:1000-1120 | The work loop is a run of such steps, so the two statements above are about it. |
| `MultipartRoundTrip.RoundTrip` | include/evmvc/parser.h:683-1146 | Every non-empty list of printed fields and files, each with or without a content type, is parsed back: a part is a file exactly when it was printed with a file name, fields and files come each in order and each once, file contents byte for byte, and the type is `text/plain` where none was sent. |
| `MultipartRoundTrip.RoundTripInChunks` | include/evmvc/parser.h:980-1146 | The same for every way of cutting the printed body into calls, with the same bound on the lines of files. |
| `MultipartRoundTrip.KeptIsText` | include/evmvc/parser.h:881-885 | What a field keeps of its text is all of it exactly when the text has no CRLF and no NUL. |
| `MultipartRoundTrip.KeptJoins` | include/evmvc/parser.h:881-885 | Without a NUL a field keeps the texts of its lines one behind the other: the line ends vanish and nothing else. |
| `MultipartRoundTrip.KeptStopsAtNul` | include/evmvc/parser.h:881-885 | A NUL hides the rest of its own line; the next line is kept again. |
| `MultipartLimits.FieldRoundTripIff` | include/evmvc/parser.h:861-889 | For any name without CRLF and NUL, with or without a content type, and any value: a field comes back unchanged if and only if its name holds no `;` and no `=` and its value no CRLF, no NUL and is not itself a boundary line. |
| `MultipartLimits.FileRoundTripIff` | include/evmvc/parser.h:891-970 | A file, with or without a content type, comes back unchanged if and only if no line of its content, as a C string, equals one of the two boundaries. |
| `MultipartRoundTrip.NoPartsIsRejected` | include/evmvc/parser.h:1012-1025 | A printed body without parts is refused with 400: it starts with the end boundary. |
| `MultipartRoundTrip.LoadedParts` | include/evmvc/request_impl.h:89-127 | The tree walk splits the parts into parameters and files, keeping order and count. |
| `MultipartRoundTrip.FieldNameIff` | include/evmvc/multipart_utils.h:259-286 | A name is found again in its printed disposition header if and only if it holds no `;` and no `=`. |
| `MultipartRoundTrip.FileNamesIff` | include/evmvc/multipart_utils.h:259-286 | The same for a file: for its name whatever the file name is, and for the file name behind such a name. |
| `MultipartRoundTrip.AttributeLacks` | include/evmvc/multipart_utils.h:259-286 | From no header is an attribute read that holds a `;` or a `=`. |
| `MultipartRoundTrip.BareAttribute` | include/evmvc/multipart_utils.h:259-286 | A value that stands without quotes is read as it stands. |
| `MultipartRoundTrip.UnquoteMeaning` | include/evmvc/multipart_utils.h:259-286 | One quote is dropped at each end where there is one, also when only one end has it. |
| `MultipartParts.PartMeaning` | include/evmvc/parser.h:711-800 | The blank line decides by two headers: a part with one of the three nesting types gets parts of its own, any other is a file if and only if its disposition has a non-empty file name and a form field otherwise, whatever its content type; the type is `text/plain` where none was sent. |
| `MultipartParts.NestedMeaning` | include/evmvc/parser.h:722-751 | Which of the three nesting types it is, and that its boundary is the enclosing one where it names none. |
| `MultipartParts.HeaderLineIff` | include/evmvc/parser.h:683-709 | A header line of a part fails with 400 if and only if it has no colon before its first NUL; otherwise it is filed as the text before the first colon and the text behind it. |
| `MultipartParts.LeavesIff` | include/evmvc/request_impl.h:89-127 | The parts the request is loaded from are exactly those without parts of their own, at any depth. |
| `MultipartParts.LeavesInOrder` | include/evmvc/request_impl.h:89-127 | They are visited from left to right. |
| `MultipartParser.Parser.ParseBoundaryHeader` | include/evmvc/parser.h:683-709 | A header line is filed under its case-folded name after those already there; a line without a colon fails and changes nothing else. |
| `MultipartParser.Parser.AssignContentType` | include/evmvc/parser.h:711-800 | The object does on the blank line what the machine does, which `PartMeaning` and the round trips characterise: subcontent, form or file, filed under the root, mode set, an opened file with nothing written. |
| `MultipartParser.Parser.ParseEndOfSection` | include/evmvc/parser.h:802-859 | Ends the part exactly on one of the two boundary lines; the end boundary completes the body. |
| `MultipartParser.Parser.OnReadFormData` | include/evmvc/parser.h:861-889 | One line of a form part does what the machine does on that line; without a complete line nothing changes. |
| `MultipartParser.Parser.OnReadFileData` | include/evmvc/parser.h:891-970 | One line, or the overflow flush, of a file part does what the machine does and conserves the bytes received. |
| `MultipartParser.Parser.TurnOnce` | include/evmvc/parser.h:1000-1120 | One turn of the work loop takes exactly one line and has the machine's effect, for every mode. |
| `MultipartParser.Parser.ParseFormMultip` | include/evmvc/parser.h:980-1146 | One call with a chunk takes all of it and leaves the object in the state the machine computes for it. |
| `MultipartParser.Parser.WorkLoop` | include/evmvc/parser.h:1000-1120 | The loop does what the machine's work does, and conserves the bytes of an open file. |
| `MultipartParser.Parser.Cleanup` | include/evmvc/parser.h:1122-1146 | A failure is kept and its status sent to the response exactly once; a completed body is handed to the request and the multipart state is reset. |
| `MultipartParser.Parser.LoadMultipartParams` | include/evmvc/request_impl.h:89-127 | Appends the form leaves to the parameters and the file leaves to the files, left to right. |
| `MultipartParser.Parser.Parse` | include/evmvc/parser.h:214-298 | A chunk of a multipart body: nothing for an empty chunk or a ready request, else one parsing call. |
| `HeadLines.PartialHead` | include/evmvc/parser.h:238-276 | After the request line and any colon lines the count is the offset of the next line minus two; an incomplete line is not counted. |
| `HeadLines.WholeHead` | include/evmvc/parser.h:303-473 | At the blank line the count lacks the four bytes that line adds, and two more for every line passed over before the request line; the header map and the rest are exact. |
| `HeadLines.BlankFails` | include/evmvc/parser.h:303-311 | A blank line where a request line is looked for fails the call, behind any lines passed over. |
| `HeadLines.BadFieldFails` | include/evmvc/parser.h:430-440 | So does a line without a colon behind a request line and any header lines. |
| `HeadLines.HeaderMapMeaning` | include/evmvc/parser.h:430-464 | The header map holds, under each case-folded name and no other, the values of the lines with that name in arrival order. |
| `HeadCalls.CutEndsHead` | include/evmvc/parser.h:303-473 | A head cut after its request line: the second call sees the two owed bytes as a blank line, ends the head with the header lines complete at the cut and hands the others to the body. |
| `HeadCalls.CutShowsIff` | include/evmvc/parser.h:214-276 | A head that arrives in two calls is read as in one if and only if the first call does not complete the request line. |
| `HeadCalls.CallsShowIff` | include/evmvc/connection_impl.h:226-250 | A head that arrives in any number of calls, each dropping what the last one counted, is read as in one if and only if the call that completes the request line also completes the head. |
| `PassedHeads.PassedShowsIff` | include/evmvc/connection_impl.h:226-250 | Behind one line that is passed over: if and only if the call that completes that line also completes the head. A call that ends in between fails the next one or adds a field that was not sent. |
| `PassedHeads.UnbrokenArrives` | include/evmvc/connection_impl.h:226-250 | Behind any number of such lines: if the call that completes the first line also completes the head, it is read as in one call. |
| `PassedHeads.TwoPassedHide` | include/evmvc/parser.h:330-360 | Behind two such lines the converse fails: a call may end behind both, when the last two characters of the second are passed over again. |
| `PassedHeads.FieldsArrive` | include/evmvc/parser.h:419-473 | Among the header lines, with no bytes owed, cuts never show. |
| `RequestHead.HeadAccounting` | include/evmvc/parser.h:214-298 | The returned count is the length of the head if and only if no line was passed over before the request line; each such line makes it two short. |
| `RequestHead.CallIsExact` | include/evmvc/parser.h:214-298 | One call with the whole head that is not refused: the state it ends in and its count, for every kind of body. With access granted it reports the head plus nothing without a body, up to the content length of a plain one, all bytes at hand of a multipart one; without, the head alone. It breaks exactly when a body announced without a content type has a byte at hand. |
| `RequestHead.CallStops` | include/evmvc/parser.h:214-298 | A rejected head, or a multipart type without a boundary, fails the call, which reports nothing, and the next call starts over; a length that is no number starts over at once, the head counted two short. |
| `RequestHead.BadLineFails` | include/evmvc/parser.h:303-473 | So does a line that does not belong where it stands. |
| `RequestHead.FinishedTakesNothing` | include/evmvc/parser.h:214-298 | An empty call changes nothing, and a request whose body is read, ready or refused, takes nothing more. |
| `RequestHead.HttpParser.ParseReqLine` | include/evmvc/parser.h:303-417 | An empty line fails; any other is counted without its CRLF and starts the headers when it is a request line. |
| `RequestHead.HttpParser.ParseField` | include/evmvc/parser.h:419-473 | A line without a colon fails; any other is added to the map and counted with its CRLF. |
| `RequestHead.HttpParser.EndHead` | include/evmvc/parser.h:422-428 | The blank line: rejected, started over, or on to the announced body, prepared by `init_body` or `init_multip`. |
| `RequestHead.HttpParser.FindEol` | include/evmvc/utils.h:211-217 | The first CRLF at or after a position, or none. |
| `RequestHead.HttpParser.ParseBody` | include/evmvc/parser.h:280-292 | A call once the head has ended goes to the plain or the multipart body, and the request is ready exactly when that is. |
| `RequestHead.HttpParser.ParseBlank` | include/evmvc/parser.h:250-267 | The blank line and, with access granted, the body bytes behind it in the same call. |
| `RequestHead.HttpParser.Parse` | include/evmvc/parser.h:214-298 | A call on any bytes in any state ends in the state, and returns the count, of the line-by-line and byte-by-byte reading of them; a failed parser starts over. |
| `RequestGrammar.ReqLineReads` | include/evmvc/parser.h:323-400 | A written request line gives back verb, uri and version, whatever ends before the verb with another kind of character. |
| `RequestGrammar.ReqLineIff` | include/evmvc/parser.h:323-400 | A line `verb uri version` is a request line if and only if the version, trimmed, is `HTTP/1.0` or `HTTP/1.1` with letters of either case and the url constructor takes the uri; it gives back the three parts. The verb is made of letters, digits, `-` and `_`, each spelled out. |
| `RequestGrammar.VersionIff` | include/evmvc/parser.h:329-337 | The version test character by character. |
| `RequestGrammar.VerbAlphabet` | include/evmvc/parser.h:356-366 | The characters of a verb, spelled out. |
| `RequestGrammar.TooFewSpaces` | include/evmvc/parser.h:323-344 | A line with no or with one space is passed over. |
| `RequestGrammar.FieldIff` | include/evmvc/parser.h:430-440 | A line is a header line if and only if it holds a colon. |
| `RequestGrammar.FieldReads` | include/evmvc/parser.h:430-455 | A written header line gives back name and value, however many blanks follow the colon. |
| `RequestGrammar.WrittenHeadArrives` | include/evmvc/parser.h:214-473 | A written head and whatever follows: request, header map and count are exact and the rest is left. |
| `RequestArrives.FormTypeReads` | include/evmvc/multipart_utils.h:224-257 | A written multipart content type is recognised and gives its boundary back. |
| `RequestArrives.MultipartRequestArrives` | include/evmvc/parser.h:214-1146 | A written head and a printed multipart form, cut into calls anywhere after the head: the request ends ready with the head, the fields and the files as sent, and the calls together take exactly the head and the form; the content length plays no part. |
| `RequestArrives.UrlencodedRequestArrives` | include/evmvc/parser.h:214-651 | The same for a urlencoded form of the announced length: the pairs arrive, and the calls together take exactly the head and the form. |
| `RequestArrives.RawRequestArrives` | include/evmvc/parser.h:214-592 | The same for a raw body of the announced length: it arrives as the one parameter without a name, byte for byte. |
| `RequestArrives.PlainRequestArrives` | include/evmvc/parser.h:214-665 | The same for a raw or a `text/plain` body of any announced length; the latter, and an empty one, deliver no parameter. |
| `RequestArrives.BodilessRequestArrives` | include/evmvc/parser.h:214-544 | A request without a content length is ready with its head and takes nothing of what follows. |
| `HeaderMaps.CollectMeaning` | include/evmvc/stable_headers.h:148-174 | Under each case-folded name a header map holds what it held, then the values of the fields with that name in arrival order, and it gains no other name. |
| `HeaderMaps.FirstFieldWins` | include/evmvc/multipart_utils.h:87-93 | Of several fields with one name, in any case, the first answers; without one the answer is empty. |
| `RequestGrammar.ReadReqLine` | include/evmvc/parser.h:311-400 | The search from the end of the line computes the request line that `ReqLineIff` characterises, or passes the line over. |
| `RequestGrammar.ReadVerb` | include/evmvc/parser.h:352-372 | The verb is the longest run of verb characters before the second-last space. |
| `RequestGrammar.ReadField` | include/evmvc/parser.h:430-455 | Name before the first colon, value after the blanks that follow it; no colon, no field. |
| `RequestGrammar.FindMedia` | include/evmvc/parser.h:498-525 | The first piece between semicolons that names a form encoding decides, in any case. |
| `RequestGrammar.MediaIff` | include/evmvc/parser.h:498-525 | A body is of a kind if and only if the first piece of the content type that names a form encoding names that one; raw if and only if none does. |
| `RequestGrammar.NextMeaning` | include/evmvc/parser.h:477-544 | For each kind of body, the exact condition on the header map under which it is announced, that under which the parser starts over (a length that is no number), and that under which the request is refused: a multipart type without boundary, and a length other than zero. |
| `RequestGrammar.ReadNext` | include/evmvc/parser.h:477-532 | Computes what `NextMeaning` characterises. |
| `RequestBody.BodyIsConserved` | include/evmvc/parser.h:534-598 | Over any chunks the bytes taken are the smaller of those offered and the content length, and the request is ready exactly when that many arrived. A raw body is then the one parameter without a name that holds the first content-length bytes, a urlencoded one the pairs of its pieces, and a `text/plain` one no parameter. |
| `RequestBody.ReadyTakesNothing` | include/evmvc/parser.h:293-295 | A ready request takes nothing more. |
| `RequestBody.ScanIsPieces` | include/evmvc/parser.h:610-646 | The character loop reports the pairs of the pieces between ampersands, in order; later `=` are dropped and an empty last piece is not reported. |
| `RequestBody.FormRoundTripIff` | include/evmvc/parser.h:600-651 | However keys and values are escaped, a form arrives as sent if and only if it is empty or its last pair is not the empty one. |
| `RequestBody.FormArrives` | include/evmvc/parser.h:554-651 | A printed form cut into any chunks arrives, and what follows it is left. |
| `RequestBody.SpellingUnescapes` | include/evmvc/utils.h:226-232 | Unescaping undoes every way of escaping a NUL-free text. |
| `RequestBody.PlainStays` | include/evmvc/utils.h:226-232 | A percent sign that two hexadecimal digits do not follow stands for itself. |
| `RequestBody.NulEndsText` | include/evmvc/utils.h:226-232 | An escaped NUL ends the decoded text. |
| `RequestBody.LaterEqualsVanish` | include/evmvc/parser.h:610-646 | In a piece the key ends at the first `=`, and any later `=` vanishes from the value. |
| `RequestBody.BodyReader.constructor` | include/evmvc/parser.h:534-544 | A body of length zero is ready at once, with no parameters. |
| `RequestBody.BodyReader.ReadBody` | include/evmvc/parser.h:554-576 | Takes no more than is missing, appends exactly that, and completes exactly when nothing is missing. |
| `RequestBody.BodyReader.ReadPairs` | include/evmvc/parser.h:610-646 | The loop computes the pairs of the form. |
| `RequestBody.BodyReader.Parse` | include/evmvc/parser.h:578-665 | One call with a chunk, for raw, urlencoded and text bodies, does what `BodyIsConserved` sums up over calls. |
| `Routes.CompiledPatternAgrees` | include/evmvc/router.h:390-410 | For every segment list and every path the compiled pattern matches with given captures exactly when the segment-wise matcher does, one trailing slash allowed. |
| `Routes.RouteMeaning` | include/evmvc/router.h:140-160 | The same for one route and one path. |
| `Routes.MatchIsUnique` | include/evmvc/router.h:169-216 | With `**` last a match is unique: the captures are the path parts at the parameters' positions. |
| `Routes.ParameterMeaning` | include/evmvc/router.h:189-214 | A parameter is bound exactly when the path has a non-empty part at its position, and to that part; an absent optional yields none. |
| `Routes.BindingPositions` | include/evmvc/router.h:189-214 | The same on the list of parts. |
| `Routes.MandatoryNeedsPart` | include/evmvc/router.h:347-354 | Every leading mandatory segment, `*` included, needs a non-empty part of its own. |
| `Routes.SegmentThenRest` | include/evmvc/router.h:402-409 | An optional segment may be missing only together with everything after it. |
| `RouteText.Tokenize` | include/evmvc/router.h:276-323 | The tokenising loop cuts the route at its slashes and drops empty pieces. |
| `RouteText.CompileRoute` | include/evmvc/router.h:276-410 | Pattern text and parameter names of a route, as `RouteTextCompiles` and `RouteNames` characterise them. |
| `RouteText.Segments` | include/evmvc/router.h:325-355 | The loop that gives each piece its pattern. |
| `RouteText.PieceCompiles` | include/evmvc/router.h:296-355 | Each segment as written in a route compiles to the pattern of its meaning, name and optional mark included. |
| `RouteText.RouteTextCompiles` | include/evmvc/router.h:276-410 | The text handed to the regex compiler for a written route is the text of the regex that `Routes` gives a meaning to. |
| `RouteText.RouteNames` | include/evmvc/router.h:325-355 | The names kept for a written route are those of its parameters, in order. |
| `RouteText.OwnPattern` | include/evmvc/router.h:331-342 | A parameter's own pattern is what stands between its first opening and its last closing parenthesis, whatever that is. |
| `RouteText.MissingParen` | include/evmvc/router.h:331-342 | Without a closing parenthesis the parameter takes any one part. |
| `RouteText.StrayParen` | include/evmvc/router.h:331-342 | With the only closing parenthesis before the opening one, the pattern is all that follows the latter. |
| `RouteText.EmptyBrackets` | include/evmvc/router.h:296-355 | Empty brackets are an optional segment of no text, or an optional parameter without a name. |
| `RouterTree.RegisterKeepsForest` | include/evmvc/router.h:674-713 | A registration keeps lists and maps in agreement and every link two-sided if and only if no other child has the same path. |
| `RouterTree.RunsKeepForest` | include/evmvc/router.h:674-713 | Any sequence of registrations and moves with distinct sibling paths keeps every path list length-sorted and equal to the map keys. |
| `RouterTree.RegistrationMeaning` | include/evmvc/router.h:674-713 | What a registration with room changes: the child leaves its old list, is filed under its path at the new parent and points there; every other child, path, index and route stays. The root path is refused and nothing changes. |
| `RouterTree.FirstIsLongest` | include/evmvc/router.h:556-569 | In a length-sorted list the first covering path is the longest registered proper prefix, and the only one. |
| `RouterTree.TargetIsLongestPrefix` | include/evmvc/router.h:549-569 | The descent takes the longest proper prefix at every router, stops where there is none, and does not depend on the verb. |
| `RouterTree.LocalResolveMeaning` | include/evmvc/router.h:571-588 | A router answers exactly when a route with callbacks accepts under the verb or under `ALL`; the answer is the first such route, the verb's own before the others. |
| `RouterTree.ResolveMeaning` | include/evmvc/router.h:549-589 | A URL resolves if and only if such a route exists where the descent ends. Its routes are asked for the text of the URL from the last character of the router's path on, or for the router's index where the URL is no longer than that path. |
| `RouterTree.ResolveBySegments` | include/evmvc/router.h:549-589 | With compiled routes: if and only if the segments of some such route match a slash and what the URL holds behind the router's path, or the index where it holds nothing; the route returned is one of them. The slash is there for every URL that starts with the first router's path, since mount paths end in one. |
| `RouterTree.RoutesAreAskedFor` | include/evmvc/router.h:571-573 | For a URL `path + rest` at a router mounted at `path`, which ends in a slash, the routes are asked for `/` and `rest`, and for the index when `rest` is empty. |
| `RouterTree.RootIsAskedFor` | include/evmvc/router.h:549-589 | At a root router without children, `/` and any rest is asked for as it stands, the bare `/` as the index. |
| `RouterTree.TargetIsSuffix` | include/evmvc/router.h:549-569 | Where the descent ends the rest of the URL still starts with the router's path and is the end of the URL that came in. |
| `RouterTree.Routers.RegisterRouter` | include/evmvc/router.h:674-713 | Refuses the root path and changes nothing; else moves the router, and keeps the tree well linked exactly when there is room. |
| `RouterTree.Routers.DetachFromParent` | include/evmvc/router.h:686-699 | Takes the router out of its parent's list and map. |
| `RouterTree.Routers.FileUnder` | include/evmvc/router.h:701-711 | Files the router under the new parent and sorts the list; a taken path keeps its old router in the map. |
| `RouterTree.Routers.FindChild` | include/evmvc/router.h:556-569 | The scan returns the first covering path. |
| `RouterTree.Routers.FindRoute` | include/evmvc/router.h:575-583 | The scan returns the first route with callbacks that matches. |
| `RouterTree.Routers.ResolveUrl` | include/evmvc/router.h:549-589 | Throws exactly on a URL shorter than the router's own path; otherwise returns what the descent and the local answer determine, and ends. |
| `Policies.ChainRefinesFold` | include/evmvc/router.h:800-822 | For any tree depth and any answers, the rules invoked and the one verdict are those of a left fold over one list: access rules from the root router down, then the route's. |
| `Policies.FoldIsPrefix` | include/evmvc/filter_policies.h:161-179 | That fold invokes exactly the prefix up to the first error, and its verdict is that error or none. |
| `Policies.ResumeFails` | include/evmvc/router.h:264-272 | An error goes through every waiting continuation straight to the caller. |
| `Policies.RulesAsk` | include/evmvc/filter_policies.h:161-179 | Validation of a policy asks its rules of the given type, in order, then continues. |
| `Policies.PoliciesAsk` | include/evmvc/router.h:964-985 | A router or route asks its policies in order, then continues. |
| `Policies.RouterAsks` | include/evmvc/router.h:800-822 | A router asks its ancestors' policies first, root downwards. |
| `Policies.AllRulesIff` | include/evmvc/router.h:800-822 | The rules of that list are exactly the access rules of the chain's routers and of the route. |
| `Policies.FilterPolicy.AddRule` | include/evmvc/filter_policies.h:138-141 | Appends the rule. |
| `Policies.FilterPolicy.RemoveRule` | include/evmvc/filter_policies.h:143-150 | Removes the first rule with that id and no other. |
| `Policies.RemoveUndoesAdd` | include/evmvc/filter_policies.h:138-150 | Removing what was added last, under a fresh id, gives the policy back. |
| `Policies.RemoveMeaning` | include/evmvc/filter_policies.h:143-150 | Removal takes out the first rule with the id and leaves every other in its place; without one nothing changes. |
| `Base64.RoundTrip` | include/evmvc/jwt.h:122-245 | Decoding an encoding gives the bytes back, for every byte string, alphabet and fill, the three-character `%3d` included. |
| `Base64.DecodeAcceptsIff` | include/evmvc/jwt.h:175-245 | Decoding succeeds exactly on letters followed by at most two fills with letters plus fills divisible by four. |
| `Base64.DecodeEqualIff` | include/evmvc/jwt.h:175-245 | Two accepted texts decode equally if and only if they have as many fills and agree but for the 2 or 4 unused low bits of the last letter (section 3.5 of RFC 4648). |
| `Base64.DecodedMeaning` | include/evmvc/jwt.h:179-193 | Letters and fill count of an accepted text are unique, and the bytes are those of the letters. |
| `Base64.UnpackPack` | include/evmvc/jwt.h:122-173 | 24-bit unpacking undoes 24-bit packing, incomplete last block included. |
| `Base64.PackMeaning` | include/evmvc/jwt.h:122-173 | Four sextets, most significant first, are the 24 bits of the three bytes they come from; two last bytes are followed by two zero bits and a single one by four. |
| `Base64.UnpackEqualIff` | include/evmvc/jwt.h:208-242 | Sextets unpack to the same bytes exactly when they agree up to the unused bits. |
| `Base64.FitsIsMod` | include/evmvc/jwt.h:192-193 | The recursive size test is the source's test modulo four. |
| `Base64.AlphabetsAreValid` | include/evmvc/jwt.h:60-105 | Both alphabets are the capitals, the small letters, the digits and `+/` or `-_`, in that order, with the fills `=` and `%3d`; their 64 characters are distinct and no letter can start a fill. |
| `Base64.Encode` | include/evmvc/jwt.h:122-173 | The encoding loop computes the encoding. |
| `Base64.EncodeTail` | include/evmvc/jwt.h:144-172 | The incomplete block: two or three letters and the fills. |
| `Base64.GetSextet` | include/evmvc/jwt.h:199-205 | The position of a letter in the alphabet, or failure. |
| `Base64.CountFills` | include/evmvc/jwt.h:181-190 | Takes fills off the end and fails on the third. |
| `Base64.Decode` | include/evmvc/jwt.h:175-245 | The decoding loop computes the decoding, every index in bounds. |
| `Base64.DecodeTail` | include/evmvc/jwt.h:225-244 | The incomplete block of a decoding. |
| `Jwt.UnpaddedRoundTrip` | include/evmvc/jwt.h:1541-1570 | Cutting an encoding at its first fill and padding it again by length modulo four loses nothing. |
| `Jwt.LengthOneIsRejected` | include/evmvc/jwt.h:1541-1574 | A text of length 1 modulo 4 is always refused after re-padding. |
| `Jwt.FrameIsExact` | include/evmvc/jwt.h:1530-1538 | The three parts are exactly the token's text around its first two dots. |
| `Jwt.FrameOf` | include/evmvc/jwt.h:1530-1538 | Three parts joined by dots, the first two dot-free, are framed back. |
| `Jwt.FrameIff` | include/evmvc/jwt.h:1530-1538 | There is a frame if and only if there are two dots. |
| `Jwt.VerifyIff` | include/evmvc/jwt.h:1893-1899 | Any token, whoever made it, is read if and only if its three parts decode and the first two are JSON, and accepted if and only if its header names a known algorithm that signs the text before the second dot with what stands behind it; the other outcomes likewise. |
| `Jwt.PartText` | include/evmvc/jwt.h:1758-1763 | A part is the url letters of its sextets without a fill. |
| `Jwt.TokenRoundTrip` | include/evmvc/jwt.h:1735-1777 | Given a faithful JSON printer, for any claims and signing function the signed token decodes to both claim maps, the verifier rebuilds the very text that was signed, and the signature check passes. |
| `Jwt.VerifiedTextIsPrefix` | include/evmvc/jwt.h:1893-1899 | For any token that decodes, the text checked against the signature is the token's own text before its second dot. |
| `Jwt.VerifyHmac` | include/evmvc/jwt.h:376-396 | The comparison accepts exactly the signature that signing would produce. |
| `Jwt.Builder.Sign` | include/evmvc/jwt.h:1735-1777 | Sets the algorithm in the header and returns the framed token. |
| `Url.PrintThenParse` | include/evmvc/url.h:230-269 | Every well-formed fragment-free record with a relative path is parsed back from its printed text. |
| `Url.FragmentIff` | include/evmvc/url.h:262-266 | Of the records that differ from such a one at most in the fragment, exactly those without a fragment come back: the printer writes `?` before it. |
| `Url.PathIff` | include/evmvc/url.h:255-260 | Of the records that differ from such a one at most in a leading slash of the path, exactly those without it come back. |
| `Url.DelimitedIff` | include/evmvc/url.h:331-407 | A record that is otherwise well-formed comes back if and only if no later `@` stands in for a missing userinfo and no later `:` for a missing port. |
| `Url.AbsolutePathLosesSlash` | include/evmvc/url.h:255-260 | A path with a leading slash comes back without it and everything else as it was. |
| `Url.StepAdvances` | include/evmvc/url.h:293-546 | On any input every turn of the section loop strictly advances and stays in the text, so parsing ends. |
| `Url.ParseUrl` | include/evmvc/url.h:272-546 | The section loop computes the record that the laws on printed records and on `UrlForms` characterise. |
| `Url.HostToTail` | include/evmvc/url.h:361-407 | A host without port ends at the path, the query or the end, and the next section starts there. |
| `Url.UserToHost` | include/evmvc/url.h:331-360 | User and password are split at the first colon before the `@`. |
| `UrlForms.MarkIsRead` | include/evmvc/url.h:293-546 | Behind any text without `#`, refused or read, `#x` sets the fragment to x and changes nothing else; so does `?x` with the query behind any text without `?` and `#`. Where the text may hold an authority it does not end in a colon, and x holds no colon and no at sign. |
| `UrlForms.PathForms` | include/evmvc/url.h:280-285 | For every path that starts with one slash, any query and any fragment: path, path and query, path and fragment, and all three are read as exactly those. |
| `UrlForms.QueryAndFragmentForms` | include/evmvc/url.h:285-289 | A text that starts with `?` or `#` is all query or fragment, the mark included; a fragment may follow the query. |
| `UrlForms.TwoSlashes` | include/evmvc/url.h:281-282 | Two slashes without a scheme are not skipped: without an at sign and a colon the host stays empty and the path starts with the second slash. |
| `UrlForms.TwoSlashForms` | include/evmvc/url.h:281-282 | The same with a query or a fragment behind. |
| `UrlForms.NeedsScheme` | include/evmvc/url.h:297-299 | A text that starts with neither a slash nor a mark is refused unless it holds a colon. |
| `UrlForms.SchemeMeaning` | include/evmvc/url.h:297-330 | The scheme is case-folded and classified, and what follows its colon decides what is read next: two slashes an authority, otherwise a query, a fragment or a path. |
| `UrlForms.OpaqueRoundTrip` | include/evmvc/url.h:230-330 | A record with scheme, path and query but no authority is printed without slashes and read back. |
| `UrlForms.UserAloneBecomesHost` | include/evmvc/url.h:230-269 | A record with a user and no host is printed without an at sign, so the user is read back as the host. |
| `UrlForms.BadPortIsRefused` | include/evmvc/url.h:408-470 | A port that is no number refuses the text. |
| `UrlForms.PrintedThenFragment` | include/evmvc/url.h:507-546 | A fragment written with `#` behind a printed URL is read, and nothing else changes. |
| `Views.TraceDraws` | include/evmvc/view_base_impl.h:66-98 | The calls of any block trees, with any per-language transform, append exactly their recursive rendering to the enclosing buffer or the page, record their sections in order and restore both stacks. |
| `Views.LastCommitStays` | include/evmvc/view_base.h:281-288 | A section holds the last text committed to it. |
| `Views.HeightsAgree` | include/evmvc/view_base.h:349-360 | Any calls keep the two stacks equally high. |
| `Views.RunsIffNested` | include/evmvc/view_base.h:87-94 | Calls on a fresh view succeed and close every block if and only if they are the trace of block trees. |
| `Views.View.BeginWrite` | include/evmvc/view_base.h:354-358 | Pushes an empty buffer and its language. |
| `Views.View.WriteRaw` | include/evmvc/view_base.h:349-352 | Appends to the innermost open buffer. |
| `Views.View.CommitWrite` | include/evmvc/view_base_impl.h:66-98 | Closes the top block, or refuses another language and changes nothing. |
| `ChunkedSender.FileArrives` | include/evmvc/connection_impl.h:77-103 | A decoder after section 4.1 of RFC 7230 turns the stream of any file back into exactly the file and stops right after the one terminating chunk. |
| `ChunkedSender.BlocksCover` | include/evmvc/connection_impl.h:105-174 | The blocks read are the file, none of them empty or longer than 10240 bytes. |
| `ChunkedSender.ParseHexOfHex` | include/evmvc/connection_impl.h:77-92 | The printed chunk size is read back. |
| `ChunkedSender.Sender.SendChunk` | include/evmvc/connection_impl.h:77-92 | An empty chunk is not sent; any other is framed by its size. |
| `ChunkedSender.Sender.SendFileChunk` | include/evmvc/connection_impl.h:105-174 | One write event: what was sent and what is to come stay the framed file; the terminating chunk goes out exactly with the short read. |
| `ChunkedSender.Sender.SendFile` | include/evmvc/connection_impl.h:105-174 | All write events of a file emit its framing in floor(size / 10240) + 1 events. |
| `Commands.CommandIsQueue` | include/evmvc/cmd.h:118-158 | Any interleaving of writes, typed reads and drains returns what a queue of the written values would: every integer, string and list once, in write order. |
| `Commands.DrainsNeverShow` | include/evmvc/cmd.h:185-194 | Draining at any points of any run, on any bytes, changes nothing that is read. |
| `Commands.OnlyUnreadMatters` | include/evmvc/cmd.h:226-239 | Later reads depend on the unread bytes alone. |
| `Commands.TakeBack` | include/evmvc/cmd.h:118-158 | A value is read back by its type, and nothing of what follows it. |
| `Commands.LengthComesFirst` | include/evmvc/cmd.h:118-141 | A text is preceded by its length and a list by its count, in eight bytes. |
| `Commands.LastIsHighest` | include/evmvc/cmd.h:118-125 | In the bytes of an integer the last one is the most significant. |
| `Commands.Command.WriteInt` | include/evmvc/cmd.h:118-125 | Appends the bytes of an integer. |
| `Commands.Command.WriteStr` | include/evmvc/cmd.h:127-132 | Appends length and text. |
| `Commands.Command.WriteIntList` | include/evmvc/cmd.h:134-141 | Appends count and integers. |
| `Commands.Command.WriteStrList` | include/evmvc/cmd.h:134-141 | Appends count and strings. |
| `Commands.Command.ReadInt` | include/evmvc/cmd.h:143-150 | Takes an integer off the unread bytes; throws on an empty buffer. |
| `Commands.Command.ReadStr` | include/evmvc/cmd.h:259-266 | Takes a string off the unread bytes. |
| `Commands.Command.ReadIntList` | include/evmvc/cmd.h:152-158 | Takes a list of integers off the unread bytes. |
| `Commands.Command.ReadStrList` | include/evmvc/cmd.h:152-158 | Takes a list of strings off the unread bytes. |
| `Commands.Command.DropRead` | include/evmvc/cmd.h:185-194 | Drops what was read and puts the cursor at the start. |
| `Workers.ScanEndsIff` | include/evmvc/master_server_impl.h:99-120 | The scan ends if and only if a worker is eligible or the one it starts at is not an http worker, and then within n probes, at the cyclically first eligible worker or with none; otherwise it never ends. |
| `Workers.EachOnceBetween` | include/evmvc/master_server_impl.h:99-120 | Between two successive picks of one worker every other eligible worker is picked exactly once. |
| `Workers.PickedAgain` | include/evmvc/master_server_impl.h:99-120 | A picked worker is picked again within n connections. |
| `Workers.CountIsRounds` | include/evmvc/master_server_impl.h:99-120 | After any run each eligible worker was picked once per completed round, and once more when the current round has passed it. |
| `Workers.LoadsAreBalanced` | include/evmvc/master_server_impl.h:99-120 | No eligible worker is ever ahead of another by more than one connection. |
| `Workers.Master.Select` | include/evmvc/master_server_impl.h:53-120 | One connection: none without workers or without an eligible one, else the cyclically first eligible worker after the last pick, where the index then stands. |

## Left out

- Sockets, bufferevents, TLS, processes, signals, timers, logging: foreign calls with no property of their own.
- Failures of opening, writing or closing a temporary file: every write succeeds; the file on disk is the text written so far.
- Weak pointers to parents and sharing of header maps between a part and its copy: parts are values, and every part hangs under the root, as the code builds them.
- Nested multipart bodies beyond the fact that they never complete.
- The `size` of an uploaded file, which the code never sets, and the name of its temporary file.
- Reads of the first or last character of an empty attribute value: taken as not being a quote.
- RequestHead.HttpParser.Parse: requires that no byte of a body announced without a content type is handed over; the code would write to a buffer it never made.
- RequestHead.HttpParser.ParseBody: the same.
- RequestHead.HttpParser.ParseBlank: the same.
- RequestGrammar.ReadReqLine: takes a missing space to be reported as -1; the code's backward search (`include/evmvc/utils.h:195-205`) never ends at the start of the line but reads on before it, so what it does with a line without two spaces depends on the bytes there.
- A request line that starts with a space: the code reads the byte before the line; the model takes the verb to be empty.
- The guard of `read_body` on a failed multipart state, which a plain body never has.
- The canonical spelling of known verbs, and the merge of the request uri with the host header.
- `validate_headers` itself: its outcome (rejected, paused, resumed) is a parameter.
- `md::` helpers, `evhttp_decode_uri`, number conversions: modelled by their plain contracts or as parameters.
- The regular expression engine: `ResolveBySegments` assumes that it answers for the compiled pattern as `Regex` defines it; only the constructs the route compiler emits have a meaning here; a literal segment holds no regex character, a parameter's own pattern is `[^/]+` or `\d+`, paths hold no newline.
- Routes.CompiledPatternAgrees: does not model `PCRE_UTF8`, with which a path that is not valid UTF-8 never matches and non-ASCII letters match in either case.
- Routes.RouteMeaning: the same.
- RouteText.RouteTextCompiles: does not model that the regex compiler refuses a parameter name that starts with a digit or occurs twice.
- Percent-decoding of route parameters, and the order in which the engine lists them.
- The order of paths of equal length after `std::sort`: the model puts the newer one last; nothing proved depends on it.
- Routers are names in a table instead of shared pointers: sharing and lifetime are not modelled.
- Pre and post handlers, and changes to policies while a chain runs.
- HMAC, RSA, ECDSA and PSS: signing is any function; only algorithms that verify by signing again are covered.
- JSON: `TokenRoundTrip` assumes that parsing undoes dumping.
- Claim checks of the token verifier after the signature.
- URL constructors that merge a base, and the conversion of the port text, which is a parameter.
- Views.View.WriteRaw: requires an open block; without one the code touches the top of an empty stack.
- Views.View.CommitWrite: the same.
- Commands.Command.ReadInt: requires the bytes to be there (or an empty buffer, on which it throws); the code copies past the end unchecked. The same holds for the other reads.
- Commands.Command.ReadStr: as `ReadInt`.
- Commands.Command.ReadIntList: as `ReadInt`.
- Commands.Command.ReadStrList: as `ReadInt`.
- Workers.Master.Select: requires that the scan ends, by the exact condition of `ScanEndsIff`.
- Compressed sending, and what the connection does between write events.
- `peak` and `peak_list` of `command`; integers are little-endian.
- Query strings, cookies, Accept-Encoding, tables of statuses, fields and mime types, configuration, the file router and the view precompiler: easier members only.

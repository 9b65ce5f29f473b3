# Verification model of the SignalWire AI Agents SDK for C++

This Dafny project models the stateful and parsing cores of the SDK and proves what they are for.
`dafny verify dfyconfig.toml` checks it.

* **Prompt Object Model** (`Yaml*.dfy`, `Pom*.dfy`, `TextLines.dfy`, `Utf8.dfy`). The line splitter, scalar rules,
  recursive-descent reader and emitter of the YAML subset, the JSON reader with its validation, the
  check for UTF-8, the two renderers and their section numbers. Main results: the YAML and JSON
  round trips over all models with their exact conditions; when section numbers are distinct, in
  order, and kept by a round trip; and what a reader finds in every line of the printed YAML,
  Markdown and XML.
* **RELAY client** (`Relay*.dfy`, `WebSocket.dfy`, `Bytes.dfy`). Requests, dials, the call registry
  and the actions on calls as step machines over histories of events, with the client object proved
  to take exactly those steps; RFC 6455 framing below it. Main results hold for every run:
  correlation of requests and dials, safety of the registry, what every event leaves in an action,
  which actions the end of a call completes, callbacks that run once, the bytes of every frame, and
  the stream refinement of the read loop.
* **Bundled HTTP library** (`Http.dfy`, `Multipart*.dfy`, `UrlDecoding.dfy`, `Chunked*.dfy`,
  `Ranges*.dfy`). The streaming multipart parser, percent-decoding, the chunked transfer coding and
  byte ranges. Main results: which cuts of a form read back, exactly; the chunked round trip under
  every cut; and the range check decides exactly the acceptable ranges.
* **Codecs and small machines** (`Base64*.dfy`, `BasicAuth.dfy`, `Query*.dfy`, `Pagination.dfy`,
  `Contexts.dfy`), with `Text.dfy`, `Json.dfy`, `Lists.dfy`, `Numerals.dfy` and `Division.dfy` below
  all of them.

## How the model is built

A function with a noun for a name says on values what a piece of code computes; the method with the
verb works as the source does, with its loops and its state, and is proved to compute that. Classes
stand for the source's objects with the same fields; their abstract value is the function `View`,
`State`, `Line` or `Contents`. The handlers of `RelayClient` are each proved equal to one step of
the machines in `RelayRpc` and `RelayCalls`, so the theorems about runs are theorems about the
handlers.

What stands in a text that is sent or printed is stated a second time, by readers and tables that
share no function with the writers: the `...Format` and `...Outline` modules, `PomMarkdown`, `PomXml`
and `PomForm`.

Strings are sequences of bytes, written as characters. Short reads and writes, failing writes, times
of loss, random masks and the server's answers are arbitrary. JSON values are integers, strings,
booleans, null, arrays and objects with ordered members. In a run, request ids, dial tags, control
ids and callback names are fresh where a theorem says so, and each handler is one atomic step.

Where the code falls short of its own documentation the model follows the code and says so with a
theorem: `#` after a space in an unquoted string, the empty model, a progress event consuming a
dial, a collect action whose callback runs twice, a control id started twice at a time, a first
chunk that is shorter than the boundary line, a header line of the maximal length cut inside its
line break, a range with neither position, a suffix longer than the content, a long ping, and a
configured user name with a colon.

## Model

| member | source | states |
|---|---|---|
| YamlText.Trim | src/pom/pom.cpp:624-630 | trimming leaves exactly the text between its first and last non-blank characters |
| YamlText.SplitLines | src/pom/pom.cpp:566-621 | splitting, dropping comments and measuring indentation give the lines `LinesOf` describes |
| YamlText.ReadLine | src/pom/pom.cpp:577-619 | one raw line gives one cleaned line, or none when it is blank or only a comment |
| YamlText.FindColon | src/pom/pom.cpp:745-759 | finds the first colon outside quotes that ends the text or precedes a space |
| YamlScalar.ParseScalar | src/pom/pom.cpp:634-700 | a trimmed text reads as null, a quoted string, a boolean, an integer or a plain string |
| YamlScalar.TestInteger | src/pom/pom.cpp:942-949 | a text passes exactly when it is an optional sign and at least one digit |
| YamlScalar.TestNeedsQuoting | src/pom/pom.cpp:924-950 | a string is quoted exactly when one of the listed rules asks for it |
| YamlScalar.QuoteString | src/pom/pom.cpp:952-962 | single quotes around the string, with every single quote inside doubled |
| YamlReader.ParseSequence | src/pom/pom.cpp:708-839 | the loop over a block sequence computes the recursive reading and stops at the line where it ends |
| YamlReader.ParseItem | src/pom/pom.cpp:724-836 | one item: nested block, inline mapping or scalar |
| YamlReader.ParseContinuation | src/pom/pom.cpp:791-829 | the further entries of a mapping that began on an item's line |
| YamlReader.ParseMapping | src/pom/pom.cpp:846-906 | the loop over a block mapping, including sequences at the key's own indentation |
| YamlReader.ParseBlock | src/pom/pom.cpp:908-920 | chooses sequence, mapping or nothing by the next line |
| YamlReader.YamlParse | src/pom/pom.cpp:1110-1119 | a whole document, or the error that is thrown |
| YamlWriter.EmitScalar | src/pom/pom.cpp:1037-1062 | prints a scalar, quoting strings that need it |
| YamlWriter.EmitEntry | src/pom/pom.cpp:973-1013 | prints a key with its scalar, empty container or nested block |
| YamlWriter.EmitMapping | src/pom/pom.cpp:973-1013 | prints all entries, the first one on the line that is already begun if asked to |
| YamlWriter.EmitSequence | src/pom/pom.cpp:1015-1035 | prints all items, each with its dash at the right indentation |
| YamlWriter.YamlDump | src/pom/pom.cpp:1087-1106 | the printed document of a value |
| YamlLineProofs.LinesOfPrinted | src/pom/pom.cpp:566-621 | line layer: splitting the printed text gives back the printed lines, with only comments cut |
| YamlScalarProofs.StringReadsBack | src/pom/pom.cpp:634-700 | a printed string, as a mapping value, reads back as itself exactly when it survives: it gets quoted, or nothing in it looks like a comment or is trimmed |
| YamlScalarProofs.ItemReadsBack | src/pom/pom.cpp:708-839 | the same for a string printed as a sequence item, where a colon could be taken for a key |
| YamlScalarProofs.ScalarReadsBack | src/pom/pom.cpp:634-700 | null, booleans and 64-bit integers read back as themselves |
| YamlRoundTrip.MappingParses | src/pom/pom.cpp:846-906 | structure layer: the printed lines of a mapping, followed by anything that ends it, parse to its fields |
| YamlRoundTrip.SequenceParses | src/pom/pom.cpp:708-839 | structure layer: the same for a sequence |
| YamlRoundTrip.ReadsBack | src/pom/pom.cpp:566-1119 | parsing what was printed gives the value with only its non-surviving strings changed |
| YamlBreaks.ReadsLighter | src/pom/pom.cpp:566-1119 | parsing what was printed, line breaks included, gives only strings that survive on a single line, or weigh less than some string that was printed |
| YamlBreaks.RoundTripExactly | src/pom/pom.cpp:566-1119 | parsing what was printed gives the value itself exactly when every string in it is a single line that survives and no array or object in it is empty |
| YamlOutline.DocumentReads | src/pom/pom.cpp:973-1106 | reading a printed document line by line, without the parser, gives every key and every value, nested by indentation and dashes |
| YamlOutline.ScalarReads | src/pom/pom.cpp:1037-1062 | a printed scalar stands for its value: a word, decimal digits with a minus sign, or a text, quoted with doubled quotes or plain |
| YamlFormat.DoubleQuotedReads | src/pom/pom.cpp:641-662 | every text whatsoever can be read from a double-quoted scalar with its escapes |
| YamlFormat.UnescapedSays | src/pom/pom.cpp:641-662 | what each escape in a double-quoted scalar stands for |
| YamlFormat.DigitsRead | src/pom/pom.cpp:680-699 | digits behind an optional sign are a number exactly when it fits into 64 bits, and a string otherwise |
| YamlFormat.CommentIsCut | src/pom/pom.cpp:596-618 | outside quotes a comment begins at a `#` behind a blank and is cut off with the blanks before it |
| YamlFormat.QuotesHide | src/pom/pom.cpp:596-759 | inside quotes of either kind neither a colon nor a comment counts |
| YamlFormat.QuotedExactly | src/pom/pom.cpp:924-950 | the writer leaves a string plain exactly when it is not empty, begins with no indicator, has no blank at an end, no colon before a blank or at its end and no line break, and is no word or number |
| YamlNesting.DeeperReads | src/pom/pom.cpp:846-920 | a list or mapping below its key may be indented by any number of blanks |
| YamlNesting.NothingBelow | src/pom/pom.cpp:846-906 | a key with nothing on its line and nothing below has no value |
| YamlNesting.Faults | src/pom/pom.cpp:708-906 | a line indented more than its block, and a line of a mapping without a key, are errors |
| YamlNesting.TopReads | src/pom/pom.cpp:1110-1119 | a document is a list or a mapping by its first line, however deep that is indented, and an empty list when it has no lines |
| YamlNesting.LastValueWins | src/pom/pom.cpp:846-906 | a key given again keeps its place and gets the new value |
| Pom.SectionToOrdered | src/pom/pom.cpp:63-88 | the members of a section in insertion order, `numbered` only when it is true |
| Pom.ReadJson | src/pom/pom.cpp:340-357 | reading a model: the top-level check, the default title, and the first error met |
| Pom.BuildSection | src/pom/pom.cpp:270-333 | reading one section: every type check in the source's order, the content and title rules, and its subsections |
| PomRoundTrip.FormReadsBack | src/pom/pom.cpp:63-357 | the ordered form of `p` reads back as `p` with `numbered=false` forgotten exactly when `p` is valid |
| PomRoundTrip.JsonRoundTrip | src/pom/pom.cpp:90-418 | `from_json(to_dict(p))`, where `to_dict` prints and parses each section, is `p` with `numbered=false` forgotten exactly when `p` is valid and all its texts are UTF-8 |
| Utf8.CheckText | deps/json.hpp:18399-18613 | the loop that prints a text meets no rejecting state and ends in the accepting one exactly when the text is UTF-8 |
| Utf8.AcceptsUtf8 | deps/json.hpp:18908-18941 | the table-driven automaton accepts exactly the grammar of RFC 3629 |
| Utf8.CharactersAreScalars | deps/json.hpp:18908-18941 | that grammar has exactly the shortest spellings of the Unicode scalar values, read by their bits |
| PomRoundTrip.ForgetTwice | src/pom/pom.cpp:63-88 | a second round trip changes nothing more, and the JSON form does not tell the two apart |
| PomYaml.YamlRoundTripExactly | src/pom/pom.cpp:359-442 | for every model whatsoever, `from_yaml(to_yaml(p))` is `p` with `numbered=false` forgotten exactly when `p` is not empty, is valid, and each of its texts is a single line that survives |
| PomYaml.TripLightens | src/pom/pom.cpp:359-442 | a trip through YAML makes every text lighter that does not survive on a single line, so that a model with such a text never comes back |
| PomRoundTrip.EmptyModelFails | src/pom/pom.cpp:434-442 | the empty model is printed as `[]`, which is not read back |
| PomRoundTrip.CommentInBodyIsLost | src/pom/pom.cpp:566-621 | a concrete valid model with ` #` in a body that does not read back |
| PomForm.DocumentSays | src/pom/pom.cpp:63-88 | the ordered form of a model is the list of its sections' dictionaries, each with exactly the members it has, in their order and with their values, at every depth |
| PomForm.DocumentReads | src/pom/pom.cpp:270-357 | a document is read exactly when it is a list of dictionaries with members of the right types, some content, and titles in subsections, and then as sections with those members, untitled ones after the first being called "Untitled Section" |
| PomForm.ModelYamlReads | src/pom/pom.cpp:434-442 | the YAML of a model on single lines has, line by line, the members of its sections |
| PomRender.RenderMarkdown | src/pom/pom.cpp:115-191 | the Markdown renderer prints the numbered tree, level by level |
| PomRender.RenderXml | src/pom/pom.cpp:193-264 | the XML renderer prints the same numbered tree |
| PomRender.RenderModelMarkdown | src/pom/pom.cpp:444-474 | the whole model as Markdown: the text of which `PomMarkdown.ModelMarkdownReads` says what stands in every line |
| PomRender.RenderModelXml | src/pom/pom.cpp:476-510 | the whole model as XML: the text of which `PomXml.ModelXmlReads` says what stands in every line |
| PomMarkdown.MarkdownReads | src/pom/pom.cpp:115-191 | reading the Markdown of a section line by line gives its title as a heading of its level with its number, the lines of its body, its bullets with dashes or positions, each followed by an empty line, and then its subsections, one level deeper below a title or a number |
| PomMarkdown.ModelMarkdownReads | src/pom/pom.cpp:444-474 | the same for a whole model: every section once, in document order, the top ones at level 2, with the numbers that `NumberBelow` and `NumberAtTop` give from the wishes to be numbered |
| PomXml.XmlReads | src/pom/pom.cpp:193-264 | reading the XML of a section line by line gives its elements, properly nested and indented by two blanks, the title with its number, the body, the bullets with their positions, and its subsections |
| PomXml.ModelXmlReads | src/pom/pom.cpp:476-510 | the same for a whole model, between the declaration and the end of the prompt |
| PomOutline.NumberReadsBack | src/pom/pom.cpp:104-111 | decimal numbers with dots between them, a dot and a blank before a title read back as the section number, whatever the title |
| PomOutline.TopIs | src/pom/pom.cpp:444-474 | the number of a section at the top counts the titled sections up to it, if the model is numbered and it does not opt out |
| PomNumbers.NumbersDistinct | src/pom/pom.cpp:142-180 | the numbers in a section are pairwise distinct exactly when everything below it is numbered, and then they increase in document order |
| PomNumbers.DocumentInOrder | src/pom/pom.cpp:444-474 | in a model where everything is titled and numbered, all numbers of the document increase lexicographically and are distinct |
| PomDocument.DocumentDistinct | src/pom/pom.cpp:444-474 | the numbers of a whole document are distinct exactly when everything below the top level is numbered, at most one top-level section has no number, and the others' numbers are behind those of its subsections |
| PomDocument.DocumentIncreases | src/pom/pom.cpp:444-474 | the numbers of a whole document increase in document order exactly when they are distinct and only the first top-level section may be without a number |
| PomNumbers.ForgetKeepsNumbers | src/pom/pom.cpp:142-180 | dropping `numbered=false` leaves the numbers of a section unchanged exactly when no numbered group has a member that opts out |
| PomNumbers.RoundTripKeepsNumbers | src/pom/pom.cpp:340-510 | after a trip through JSON a valid model renders as the same numbered tree exactly under that condition |
| RelayRpc.RunCorrelates | src/relay/client.cpp:222-318 | in every run with fresh ids, a finished request has the first reply to its id or loss after it began, or it timed out while waiting and before any answer, or its own sending failed |
| RelayRpc.LossAnswersAll | src/relay/client.cpp:836-865 | after a connection loss nothing is pending and every unfinished request has its answer |
| RelayRpc.FaultExactly | src/relay/client.cpp:305-316 | a promise is set twice exactly when some reply arrives for a request that is still listed but already answered |
| RelayRpc.OneReplyNoFault | src/relay/client.cpp:305-316 | with fresh ids and one reply per id that never happens |
| RelayRpc.AnswerSays | src/relay/client.cpp:222-318 | the value a caller gets is the server's result, or an object with the error's code in decimal and its message, 503 and "Connection lost" for a loss |
| RelayAction.Action.OnCompleted | src/relay/action.cpp:77-89 | registering a callback runs it at once exactly when the action has completed |
| RelayAction.Action.UpdateState | src/relay/action.cpp:91-113 | the new state and result, completion on a terminal state, and the callback run |
| RelayAction.Action.Resolve | src/relay/action.cpp:115-134 | forced completion, and the callback run |
| RelayAction.Action.EventTypeMatches | include/signalwire/relay/action.hpp:59-65 | an event passes exactly when there is no filter or the filter lists its type |
| RelaySafety.RegistryAlwaysSafe | src/relay/client.cpp:781-795 | in every reachable state each registered call is owned, has the id it is registered under, and has not ended |
| RelayCompletion.EndedClosesCall | src/relay/client.cpp:496-531 | an ended event removes the call, empties its registry and completes what was registered there; an action of the call is completed afterwards exactly when it was before or no event had taken its control id, and other actions stay as they are; when control ids are fresh all its actions are completed |
| RelayCompletion.RegisteredExactly | src/relay/call.cpp:76-136 | in every run an action that has not completed is in the registry of its call exactly when no event took its control id: neither the start of another action under it nor the failing start of another action of that name |
| RelayCompletion.OpenIsRegistered | src/relay/call.cpp:380-404 | so with fresh control ids every action that has not completed is in the registry, and no two of a call have the same name |
| RelayCompletion.ReusedControlStaysOpen | src/relay/call.cpp:76-84 | a run in which a second play takes the control id of one that is still open: after the call has ended no call is left, and the first play is still open |
| RelayCompletion.ResultsRunOnce | src/relay/client.cpp:560-569 | in every run in which terminal states carry a result, no callback of an action of any kind runs twice |
| RelayResults.ReachedIsTold | src/relay/client.cpp:533-577 | in every run a component event under the control id of an action leaves there the event's state and parameters, or finishes a detect or collect action with them, as its kind and the event's members say, touches no other action, and keeps the control id exactly until the action is over |
| RelayResults.NobodyIsTold | src/relay/client.cpp:533-548 | an event for no call or no control id of it changes nothing |
| RelayResults.CompletionCause | src/relay/client.cpp:496-577 | whatever completes an action is the end of its call, a component event, or the failure of its start call, and it then has the state and result of that |
| RelayResults.ResultIsOfItsEvent | src/relay/client.cpp:533-577 | a play-type or detect action that a component event completed after its start call returned has that event's parameters for its result at the end of every run |
| RelayResults.StartIsAnswered | src/relay/call.cpp:110-136 | the reply to a start call finishes the action for the codes 404 and 410, is its error for another failure, and leaves it open otherwise; a failure takes its control id off the call |
| RelayResults.StepFollows | src/relay/client.cpp:413-531 | calls keep what they are, only news of a call changes its state, and a new call is the one its event makes |
| RelayResults.CallsHaveOrigins | src/relay/client.cpp:413-531 | in every run each call comes from an inbound event, the early news of a pending dial, or an answered dial, with their id, node, tag and direction |
| RelaySafety.CallbackRunsOnce | src/relay/client.cpp:533-577 | no callback of an action runs twice exactly when no event with a result or a terminal state reaches it while it is completed but still registered |
| RelaySafety.PlayAndDetectRunOnce | src/relay/client.cpp:533-577 | in every interleaving no callback of a play-type or detect action runs twice |
| RelaySafety.CompletionIsFinal | src/relay/action.cpp:91-134 | no further events un-complete an action |
| RelaySafety.CompletedMeansRan | src/relay/action.cpp:77-134 | the registered callback has run exactly when the action has completed, registered before or after |
| RelaySafety.OnlyCollectFiresAgain | src/relay/call.cpp:238-274 | in reachable states only a collect action can be reached again once completed |
| RelaySafety.CollectRunsTwice | src/relay/client.cpp:560-569 | a run in which a collect action, completed by a terminal state, runs its callback again on its result |
| RelayDial.DialCorrelates | src/relay/client.cpp:636-682 | in every run with fresh tags, a dial ends as its first dial event, or a loss before it, says; or its RPC failed while it was out, or it timed out before anything settled it |
| RelayDial.DialReturnsExactly | src/relay/client.cpp:636-682 | in every run with fresh tags, a finished dial returned a call exactly when its first dial event settled it with that call and the dial had not given up |
| RelayDial.GaveUpReturnsNone | src/relay/client.cpp:655-674 | a dial that gave up returned no call, whatever arrives later |
| RelayDial.DialReturnsItsLeg | src/relay/client.cpp:459-494 | a returned call is the one registered under the id of the first event for the tag, or the one created for it, and that event said answered |
| RelayDial.ProgressEventConsumesDial | src/relay/client.cpp:465-469 | after any event that settles nothing, an answered event no longer reaches the dial |
| RelayDial.AnswerIsLost | src/relay/client.cpp:465-469 | so a run in which the dialled party rings and then answers leaves the caller waiting |
| RelayClient.RelayClient.BeginRequest | src/relay/client.cpp:222-236 | a request becomes pending under its id before it is sent |
| RelayClient.RelayClient.FinishSend | src/relay/client.cpp:222-259 | the request goes on waiting, or is taken back when sending fails |
| RelayClient.RelayClient.FinishWait | src/relay/client.cpp:247-258 | the waiting request times out or takes its answer, as the JSON value of the reply, the error or the 503 |
| RelayClient.RelayClient.HandleReply | src/relay/client.cpp:292-318 | a reply fulfils the request with its id and no other |
| RelayClient.RelayClient.RejectAllPending | src/relay/client.cpp:836-865 | every pending request gets a 503 and every pending dial no call |
| RelayClient.RelayClient.BeginDial | src/relay/client.cpp:636-650 | a dial becomes pending under its tag |
| RelayClient.RelayClient.FinishDialRpc | src/relay/client.cpp:655-662 | the dial goes on waiting, or is taken back without a call when its RPC fails |
| RelayClient.RelayClient.FinishDialWait | src/relay/client.cpp:660-682 | the dialling caller takes the call or gives up |
| RelayClient.RelayClient.HandleDialEvent | src/relay/client.cpp:459-494 | the dial event does what the machine's step says |
| RelayClient.RelayClient.HandleInboundCall | src/relay/client.cpp:413-457 | an inbound call with an id becomes owned and registered |
| RelayClient.RelayClient.HandleCallState | src/relay/client.cpp:496-531 | the call-state event does what the machine's step says, with the early leg of a dial |
| RelayClient.RelayClient.UpdateCallState | src/relay/call.cpp:359-368 | the new state; an ended call finishes its actions |
| RelayClient.RelayClient.ResolveAllActions | src/relay/call.cpp:396-404 | every open action of the call is finished, completed ones are left alone, and the registry is emptied |
| RelayClient.RelayClient.UnregisterAction | src/relay/call.cpp:385-388 | exactly one control id leaves the registry |
| RelayClient.RelayClient.HandleComponentEvent | src/relay/client.cpp:533-582 | the component event reaches at most one action, as the machine's step says |
| RelayClient.RelayClient.StartAction | src/relay/call.cpp:89-110 | a new action is registered under its control id before the call is made |
| RelayClient.RelayClient.FinishStart | src/relay/call.cpp:110-136 | a gone call finishes the action, another failure errors it, success leaves it open |
| RelayClient.RelayClient.ConfigureAction | src/relay/call.cpp:238-274 | a returned action gets the filters of its kind before it is handed out |
| RelayClient.RelayClient.OnCompleted | src/relay/action.cpp:77-89 | a callback is set on an action that was handed out, and runs at once when the action has completed |
| WebSocket.WebSocketClient.EncodeFrame | src/relay/websocket.cpp:300-332 | the frame of a text message byte by byte: the final bit and the opcode, the length in 7, 16 or 64 bits in network order, the mask, and the payload under it |
| WebSocket.WebSocketClient.Send | src/relay/websocket.cpp:210-215 | true exactly when the connection is live and the whole text frame went out; otherwise nothing, or the frame up to the write that failed |
| WebSocket.WebSocketClient.ReadFrameFrom | src/relay/websocket.cpp:334-371 | however the reads are cut, one frame is read and exactly its bytes are consumed, or the stream ended inside it |
| WebSocket.WebSocketClient.RawRead | src/relay/websocket.cpp:432-446 | short reads add up to exactly the bytes asked for |
| WebSocket.WebSocketClient.RawWrite | src/relay/websocket.cpp:448-462 | short writes add up to exactly the bytes offered, or to the first of them when a write fails, and the result tells which |
| WebSocket.WebSocketClient.ReadLoop | src/relay/websocket.cpp:373-430 | delivers the messages that the stream says, answers every ping as far as its write succeeds, and reports one close, or none when the client was closing and the stream is lost |
| WebSocket.FrameReadsBack | src/relay/websocket.cpp:334-371 | any frame in any length form, masked or not, reads back, whatever follows |
| WebSocket.TextFrameBytes | src/relay/websocket.cpp:300-332 | a text frame begins with 0x81 and has its length, most significant byte first, in the shortest of three forms |
| WebSocket.PongFrameBytes | src/relay/websocket.cpp:402-423 | a pong begins with 0x8A and has its length in 7 or 16 bits, where longer ones lose their high bits |
| WebSocket.CloseReads | src/relay/websocket.cpp:390-401 | the code of a close frame is its first two bytes in network order and the rest its reason; without two bytes it is 1000 |
| WebSocket.LossIsReported | src/relay/websocket.cpp:378-384 | a close is always reported, a lost stream as 1006 with "Connection lost" unless the client is closing |
| WebSocket.TextFrameReadsBack | src/relay/websocket.cpp:300-371 | reading inverts `encode_frame` across the three length forms |
| WebSocket.ListenHears | src/relay/websocket.cpp:373-430 | for any list of frames the loop reports the text payloads before the first close frame in order, the pings before it, and that frame's code and reason, or the loss |
| WebSocket.PongReadsBack | src/relay/websocket.cpp:402-423 | a pong echoes its ping exactly when the payload fits 16 bits of length |
| WebSocket.PongsReadBack | src/relay/websocket.cpp:402-423 | when no write fails the peer reads one pong for each ping, in order and with its payload |
| Bytes.XorTwice | src/relay/websocket.cpp:363-367 | unmasking undoes masking |
| Bytes.XorBitByBit | src/relay/websocket.cpp:326-329 | masking is exclusive-or bit by bit |
| Bytes.BigValueOfEight | src/relay/websocket.cpp:345-352 | eight bytes of length weigh most significant first |
| MultipartHeaders.NamesReadArePlain | deps/httplib.h:4329-4351 | whatever the header line, the name it sets holds no `;`, `=`, CR or LF, and neither does the file name unless the line has a `filename*` |
| MultipartHeaders.DispositionReadsBack | deps/httplib.h:4715-4729 | a printed disposition line gives back name and file name exactly when they hold none of these, whatever extended parameter they imitate |
| MultipartHeaders.ExtendedReadsBack | deps/httplib.h:4476-4490 | a line with `filename*` gives back any percent-encoded file name exactly when the name is plain and the file name is not empty |
| MultipartHeaders.TypeReadsBack | deps/httplib.h:4450-4454 | a printed content-type line gives back the type exactly when that has no blanks at its ends |
| MultipartFormat.FormText | deps/httplib.h:4715-4729 | a form is, part by part, a boundary line, the field lines, an empty line and the content, and a closing boundary |
| MultipartFormat.FieldLinesRead | deps/httplib.h:4450-4490 | what the parser takes from these field lines and from one with `filename*=UTF-8''` |
| Multipart.Serialize | deps/httplib.h:4715-4729 | the printed form of a list of parts |
| Multipart.MultipartFormDataParser.BufAppend | deps/httplib.h:4613-4629 | what was buffered, shifted to the front, followed by the new bytes |
| Multipart.MultipartFormDataParser.BufFind | deps/httplib.h:4590-4611 | the first position of a text in the buffer, or its size |
| Multipart.MultipartFormDataParser.ParseRound | deps/httplib.h:4412-4539 | one turn of the loop does to the object what the step does to its view |
| Multipart.MultipartFormDataParser.Parse | deps/httplib.h:4407-4542 | one chunk drives the parser as far as the steps go |
| MultipartProofs.FormReadsBack | deps/httplib.h:4407-4729 | if the first chunk holds the opening boundary line, every cut of a printed form gives the same parts with the same contents and ends valid |
| MultipartCuts.FormReadsBackExactly | deps/httplib.h:4407-4729 | under any cut at all a printed form reads back if and only if the first bytes that arrive hold the whole opening boundary line |
| MultipartCuts.LateFeed | deps/httplib.h:4412-4542 | a parser that missed the beginning of a form never reports that form, whatever boundaries its contents imitate |
| MultipartLimits.EveryCutReadsBack | deps/httplib.h:4427-4429 | a form reads back under every cut that keeps the opening boundary line whole if and only if all its header lines are shorter than the limit |
| MultipartProofs.ShortFirstChunkIsForgotten | deps/httplib.h:4414-4416 | a first chunk shorter than the boundary line is dropped |
| MultipartProofs.HeaderAtLimit | deps/httplib.h:4427-4429 | a header line of exactly the maximal length is refused when a chunk ends inside its line break, and passes otherwise |
| MultipartLimits.EmptyFormIsInvalid | deps/httplib.h:4414-4416 | under no cut does a form without parts become valid |
| Chunked.HexDigits | deps/httplib.h:2321-2329 | the hexadecimal numeral of a size |
| Chunked.SizeReadsBack | deps/httplib.h:3910-3913 | parsing a printed size line gives the size |
| Chunked.StreamLineReader.Append | deps/httplib.h:2659-2670 | one more character, moving to the growable buffer when the fixed one is full |
| Chunked.StreamLineReader.ReadLine | deps/httplib.h:2633-2657 | a line of any length, read byte by byte |
| Chunked.ReadContentWithLength | deps/httplib.h:3848-3868 | exactly the bytes asked for, in whatever pieces they come |
| Chunked.ReadContentChunked | deps/httplib.h:3896-3949 | however the reads are cut, the receiver gets what the bytes spell and nothing more is consumed |
| Chunked.DataSink.Write | deps/httplib.h:4151-4178 | a write becomes one chunk, an empty write none; when the stream refuses or a write fails only its beginning goes out, and nothing after that |
| Chunked.DataSink.Done | deps/httplib.h:4180-4228 | the last chunk, the trailer and the final line break, each as far as its write succeeds, unless a write has failed before |
| Chunked.WriteContentChunked | deps/httplib.h:4142-4245 | the provider is called while data is available and what it writes goes out in order; without a fault the run succeeds or is canceled as its calls say, and after a fault there is on the stream what came before it and a part of the failing call, and the run ends as a write error, or canceled when that turn also returned false |
| Chunked.BodyReadsBack | deps/httplib.h:3896-3949 | for any non-empty writes and any continuation the reader gets their concatenation; it succeeds exactly when the trailer fits, and then stops right after the final line break |
| Chunked.TransferReadsBack | deps/httplib.h:4142-4245 | the same from the provider's calls to the receiver, however they are spread over turns |
| ChunkedFormat.ChunkBytes | deps/httplib.h:4151-4178 | a write is its length in hexadecimal without leading zeros, a line break, the data and a line break |
| ChunkedFormat.LastChunkBytes | deps/httplib.h:4180-4228 | a body ends with a zero, a line for each trailer field and an empty line |
| ChunkedFormat.SizeLineSays | deps/httplib.h:3910-3913 | digits of either case up to the first other character are the size, at most the largest 64-bit number |
| ChunkedFormat.ExtensionIsIgnored | deps/httplib.h:3896-3949 | a chunk with an extension behind its size is read like one without |
| UrlDecoding.FromHexToI | deps/httplib.h:2304-2319 | exactly the given number of hexadecimal digits, and their value |
| UrlDecoding.DecodeUrl | deps/httplib.h:2502-2536 | decoding with two-digit and four-digit escapes, those that are incomplete left as they are |
| UrlDecoding.DecodedEncoded | include/signalwire/common.hpp:55-67 | what the REST client encodes the bundled server decodes, for all byte strings |
| UrlDecoding.EncodingIsUtf8 | deps/httplib.h:2331-2361 | a four-digit escape stands for well-formed UTF-8, surrogates for nothing |
| QueryFormat.EncodingSpells | deps/httplib.h:2331-2361 | a four-digit escape spells the character of exactly that number |
| QueryFormat.FourDigits | deps/httplib.h:2502-2536 | `%u` and four digits, most significant first, are that escape |
| QueryFormat.ServerReads | deps/httplib.h:2502-2536 | in the server's decoder `%` and two digits are a byte, a plus sign is a blank if asked for, and everything else stands for itself |
| Ranges.RangeError | deps/httplib.h:4731-4784 | refuses exactly the ranges that are not acceptable and leaves accepted ones resolved in place |
| Ranges.CheckRanges | deps/httplib.h:4742-4781 | the loop decides the count, bounds, order and overlap rules, stated over all ranges at once |
| Ranges.AcceptedUsable | deps/httplib.h:4786-4794 | accepted ranges meet every assertion of `get_range_offset_and_length`, start in increasing order, and stay as they are when resolved again |
| Ranges.BareDashRefused | deps/httplib.h:4751-4754 | a range with neither position is always refused |
| Ranges.SuffixAccepted | deps/httplib.h:4756-4759 | a suffix is accepted exactly when it is not empty and not longer than the content |
| Ranges.GetRangeOffsetAndLength | deps/httplib.h:4786-4794 | offset and length name exactly the positions of the range, inside the content |
| Ranges.MakeMultipartRangesData | deps/httplib.h:4846-4861 | the multipart body holds for each range its header and exactly its bytes |
| Ranges.GetMultipartRangesDataLength | deps/httplib.h:4863-4879 | the announced length is the size of that body, for every content of the given length |
| RangesFormat.SingleRanges | deps/httplib.h:4742-4781 | a range is accepted exactly within the content, reaches to the end without a last position, and is a suffix without a first one |
| RangesFormat.CountIsLimited | deps/httplib.h:4742-4746 | as many single bytes as one likes are accepted exactly up to 1024 |
| RangesFormat.OverlapsAreLimited | deps/httplib.h:4768-4775 | of ranges that all overlap three are accepted and no more |
| RangesFormat.ContentRangeSays | deps/httplib.h:4796-4806 | the field names first and last position and the size in decimal |
| RangesFormat.BodyGrows | deps/httplib.h:4808-4861 | each further range adds its boundary line, its fields, an empty line and exactly its bytes before the closing boundary |
| Base64.Encode | include/signalwire/common.hpp:97-112 | the rolling encoder computes the text of RFC 4648 although its accumulator wraps |
| Base64.Decode | include/signalwire/common.hpp:115-146 | the rolling decoder computes the octets of the sextets up to the first foreign character |
| Base64.EncodeGroups | src/relay/websocket.cpp:54-68 | the encoder by groups of three bytes computes the same text as the rolling one |
| Base64.DecodedEncoded | include/signalwire/common.hpp:97-146 | decoding inverts encoding on all byte strings |
| Base64.LowBits | include/signalwire/common.hpp:100-105 | wrapping in 32 bits keeps the bits that are still needed |
| Base64Format.DigitIsTable | include/signalwire/common.hpp:98 | the digits are those of the alphabet of RFC 4648, in its order |
| Base64Format.DigitValueIsPosition | include/signalwire/common.hpp:117-133 | the decoder's table gives the position in that alphabet, and nothing for any other character |
| Base64Format.EncodedExactly | include/signalwire/common.hpp:97-112 | every three bytes are the four base-64 digits of their 24-bit number, with padding for one or two bytes at the end |
| Base64Format.DecodedGroup | include/signalwire/common.hpp:115-146 | four characters of the alphabet are the three bytes of their number |
| Base64Format.DecodedEnd | include/signalwire/common.hpp:115-146 | one, two or three characters at the end are none, one or two bytes |
| Base64Format.DecodingStops | include/signalwire/common.hpp:115-146 | decoding ends at the first character outside the alphabet |
| BasicAuth.TimingSafeCompare | include/signalwire/common.hpp:87-94 | the comparison that does not stop early is equality |
| BasicAuth.AuthHeader | src/rest/http_client.cpp:14 | "Basic " and a text that decodes to user and password with a colon between them |
| BasicAuth.Agent.ValidateAuth | src/agent/agent_base.cpp:1228-1263 | accepts exactly what decodes to the configured pair around its first colon and leaves the response alone, or refuses with 401, the reason and its headers |
| BasicAuth.HeaderChecked | src/agent/agent_base.cpp:1228-1263 | for every user and password on both sides, the client's header is accepted exactly when the two pairs, joined by a colon, are equal and the configured user has no colon |
| BasicAuth.AcceptedExactly | src/rest/http_client.cpp:14 | for a user without a colon, exactly when user and password are the configured ones |
| BasicAuth.ColonLocksOut | src/agent/agent_base.cpp:1246-1253 | a configured user with a colon is never accepted |
| Query.UrlEncode | include/signalwire/common.hpp:55-67 | percent-encoding, character by character |
| Query.DecodeOne | src/rest/http_client.cpp:202-222 | decoding with `+`, and with escapes that are incomplete or no numbers left as they are |
| Query.BuildQueryString | src/rest/http_client.cpp:27-37 | the query string of the parameters, in their order |
| Query.ParseQueryString | src/rest/http_client.cpp:192-240 | the pairs between the question mark and the fragment, the last value of a key winning |
| Query.DecodedEncoded | src/rest/http_client.cpp:202-222 | decoding inverts encoding for all byte strings |
| Query.QueryReadsBack | src/rest/http_client.cpp:192-240 | parsing a path without a question mark and a built query gives exactly the parameters |
| Query.MapReadsBack | src/rest/http_client.cpp:27-240 | a map comes back as itself, whatever the order it is listed in |
| QueryFormat.EncodedOne | include/signalwire/common.hpp:55-67 | the 66 unreserved characters stand for themselves, every other byte is a percent sign and its two digits in upper case |
| QueryFormat.QueryStringGrows | src/rest/http_client.cpp:27-37 | a query string is a question mark and `key=value` pairs with `&` between them |
| QueryFormat.ParsedGrows | src/rest/http_client.cpp:192-240 | the pairs are what stands between the `&`, a later one overriding an earlier one |
| QueryFormat.FragmentIsIgnored | src/rest/http_client.cpp:192-200 | without a question mark there are no parameters, and a fragment is none |
| QueryFormat.DecodedReads | src/rest/http_client.cpp:202-222 | a plus sign is a blank, a percent sign with two digits of either case a byte, and everything else stands for itself |
| Numerals.NumeralSnoc | deps/httplib.h:2321-2329 | positional notation: the numeral of the quotient, and then the digit of the remainder |
| Numerals.IntegerSays | src/relay/client.cpp:222-318 | a printed integer is its decimal digits, with a minus sign if it is negative |
| Pagination.PaginatedIterator.FetchNext | src/rest/http_client.cpp:266-289 | exactly the items under the key are appended; the iterator goes on to what the query of `links.next` says when that is a non-empty string and there were items, and is done otherwise |
| Pagination.PaginatedIterator.HasNext | src/rest/http_client.cpp:250-256 | at most one request, none when an item is at hand or the end is known, so that repeating it changes nothing |
| Pagination.PaginatedIterator.Next | src/rest/http_client.cpp:258-264 | the next item of the flat list, or the exception exactly at its end |
| Pagination.PaginatedIterator.Take | src/rest/http_client.cpp:250-289 | any number of steps over any listing, endless ones too, yields the next items of the flat list with at most one request each |
| Pagination.PaginatedIterator.Drain | src/rest/http_client.cpp:250-289 | over a server whose pages end, iterating yields the pages' items in order, up to and including the last page |
| Pagination.NextIsLinked | src/rest/http_client.cpp:266-289 | on the response itself: an array with items and a non-empty string `next` in its `links` lead to the parameters of that link, and without any of these there is no next page |
| Pagination.ListingOfPages | src/rest/http_client.cpp:266-289 | a server that serves a list of pages, each linking to the next by its percent-encoded parameters in any order, is listed as exactly those pages |
| Pagination.ListAll | src/rest/http_client.cpp:250-289 | iterating over such a server yields the items of all its pages, in order |
| Contexts.OrderNamesSteps | src/contexts/contexts.cpp:221-265 | under any changes the order names exactly the steps, at most 100 of them, and without duplicates when added names are fresh |
| Contexts.DuplicatesExactly | src/contexts/contexts.cpp:221-265 | the order is free of duplicates exactly when no name was added twice since its last remove |
| Contexts.MovedPlaces | src/contexts/contexts.cpp:254-265 | moving permutes the names, takes the step from its first mention to the given position, or to the end when there is none such, and keeps all others in order |
| Contexts.WithoutOfTwo | src/contexts/contexts.cpp:248-252 | taking a name out of an order takes it out of each part and keeps the rest in order |
| Contexts.Context.AddStep | src/contexts/contexts.cpp:221-242 | a new step, last in the order, unless the context is full |
| Contexts.Context.RemoveStep | src/contexts/contexts.cpp:248-252 | the step and every mention of it in the order are gone |
| Contexts.Context.MoveStep | src/contexts/contexts.cpp:254-265 | only the order changes, as the specification of moving says |
| Contexts.ContextBuilder.AddContext | src/contexts/contexts.cpp:404-411 | a new context unless there are 50, an existing one is kept but listed again |
| Contexts.ContextBuilder.Validate | src/contexts/contexts.cpp:424-552 | succeeds exactly on sound contexts and names the first kind of defect |
| Contexts.CheckCompletions | src/contexts/contexts.cpp:465-510 | whether every completion action of a context resolves |
| Contexts.OneContext | src/contexts/contexts.cpp:424-552 | a single context is sound exactly when it is the default one, has steps, its initial step and its completion actions exist, `next_step` has a step to go to, and no tool has one of the three reserved names |

## Left out

- Sockets, TLS, DNS, timers and threads: reads are arbitrary pieces of a byte sequence, timeouts and
  losses are events, and handlers do not interleave within themselves.
- Errors of a socket when reading are its end: what a failing read would have delivered later does not
  count as sent.
- C++ lifetimes and pointers: calls and actions are named by their position among all that were made;
  a registered action is its shared state block.
- Callbacks that call back into the client, and callbacks that refuse content or headers.
- `execute_simple`, actions on a call without a client, and messages, whose latch is a smaller copy of
  the action's.
- Reconnecting, authentication of the RELAY connection, acknowledgements and event parsing.
- The close frame that the client itself sends and the HTTP upgrade of the WebSocket.
- YamlBreaks.RoundTripExactly: keys are of letters, digits and underscores, as all keys of the model are,
  and no non-empty array stands directly in an array, as none does there. Floating-point numbers are not
  modelled.
- YamlRoundTrip.ReadsBack: the same keys and nested arrays; strings are single lines, and
  `YamlBreaks.ReadsLighter` covers the others.
- YamlRoundTrip.MappingParses: the same keys, nested arrays and strings.
- YamlRoundTrip.SequenceParses: the same keys, nested arrays and strings.
- PomMarkdown.ModelMarkdownReads: titles and bullets fill one line each, and a title without a number
  does not look numbered itself: Markdown does not tell these apart.
- PomXml.ModelXmlReads: the same, and bodies fill one line each. The source escapes no text.
- YamlOutline.DocumentReads: strings fill one line each, keys hold no colon and begin with no blank, dash
  or quote.
- RelayResults.ResultIsOfItsEvent: collect actions stay registered and may be told again, and a start call
  that fails later overwrites the result; `RelayResults.CompletionCause` covers both up to then.
- Line numbers in YAML error messages, and the text of error messages everywhere.
- The splitting and trimming loops of multipart headers, and `std::regex`, are functions on header
  lines rather than loops.
- MultipartCuts.FormReadsBackExactly: forms whose names cannot be carried, as
  `MultipartHeaders.DispositionReadsBack` decides, whose types have blanks at their ends, or whose
  contents contain the boundary, for which the format has no meaning.
- Splitting chunked trailer lines into names and values: the model keeps the lines.
- Compression of chunked content.
- Parsing the Range header and choosing between one range and several.
- Pagination.PaginatedIterator.Drain: listings without a last page, on which iterating never ends;
  `Take` covers them.
- HTTP errors while iterating over pages, which leave the iterator unchanged.
- References into a `ContextBuilder`: it holds the state of each context as a value; the JSON form of
  contexts is left out.
- SWML assembly, tools, skills, prefabs, the REST namespaces, the C API, logging, `find_section` and
  the other setters: plumbing with only easy claims.

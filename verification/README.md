# Flow classification: a verified model

This project models the two engines of the flow forwarder and the two small structures they rest on, and proves
what they are for. Everything is in Dafny; `dafny verify dfyconfig.toml` checks all of it.

**The string matcher** (`flow_core_ahocorasick.c`, `flow_core_node.c`; modules `Ac*`). Trie nodes are heap
objects; their edge and match vectors are fields that hold sequences and are replaced as a whole, with a counter for
the capacity. Patterns are added, `Finalize` sets
failure links by brute force and merges match lists along them, both depth first over the heap graph, and a
resumable cursor scans texts. The specification (`AcSpec`) has no automaton in it: a naive scan that lists, for
every end position, the patterns that end there. The automaton is proved to compute exactly that, for every
pattern set and every text, from any cursor and over any cutting of the text into chunks, with at most two edge
lookups per letter plus the depth it starts in. `FlowConfig` is its client: the build from the configuration and
the search that picks a port, joined in one end-to-end method; `FlowKeys` says in terms of the keys, items and
entries of the configuration alone which port that is.

**The HTTP parser** (`flow_http_parser.c` in strict mode; modules `Http*`). `HttpSpec` is the simple form: one
byte at a time, no buffers and no marks. `HttpParser.Parser` is the form of the source: a buffer with an index,
five marks, bulk skips over names, values and bodies, bytes that are looked at again, the 32-bit header size
counter and callbacks. What the source asserts is an assertion here, or the precondition of a helper. `Execute` refines the simple form,
and what a call adds to it (`HttpCall`: what was delivered, what waits, what was counted);
about the simple form and through it about the parser are then proved: split invariance, the grammar of events,
exact recognisers for methods, versions, URLs, header names, Connection lists and the chunked encoding, exact length
arithmetic and body conservation. They come together in two theorems. `HttpRoundTrip`: requests written down one
after the other and received in any pieces are reported as the messages they were written from, up to a last one
that closes the connection or hands it over. `HttpExact`: nothing else is accepted; the language of the request
parser is exactly the text of such requests. `HttpResponse` is the round trip of responses. `HttpUrl` is the URL
parser; `HttpUrlText` and `HttpUrlParts` say which texts it accepts and what it returns for them, without an automaton.

**The list and the pool** (`flow_core_list.h`, `flow_core_mpool.c`; modules `FlowList`, `FlowMpool`). The
intrusive circular list is an operation on sequences for each function; the pool hands out pieces that never
overlap and frees every block once.

Where the code and its documentation disagree the model follows the code:

- `ac_trie_search` with `keep` 0 resets the cursor after it has read the state (`StaleStart`), and
  `ac_trie_findnext` called again after its empty answer reads the end of the text a second time (`NothingAgain`
  says when that finds something, `FindNextInstance` is a case).
- A parser error drops the data that was read and not delivered yet, so the callbacks before an error depend on
  how the stream was cut: exactly if the parser was in the middle of data (`SameForAllCuts`; `LostBytes` says which
  bytes, `ErrorCut` is a case). Fields, error and bytes consumed do not depend on it (`CutAnywhere`).
- The header size counter counts one more where a buffer ends within a name or value, and a value again before a
  bare LF (`ValueCount`), so the limit depends on the cuts (`OverflowByCut`, `OverflowInstance`). No cut exceeds it exactly if the
  one into single bytes does not (`WorstCut`). There a byte that goes on with a name or value counts two and any
  other look at a header byte one (`BytePrice`). The counter restarts when the headers are complete and around
  chunk sizes (`RestartExact`), but not after trailers (`TrailersKeepCount`), which count together with the next head. 27306 header
  bytes between two restarts never exceed it (`HeadsNoCut`); trailers and a next head of that length each may.
- The Connection header is a list, but behind a comma and a blank nothing is recognised any more (`BehindBlank`):
  "keep-alive, close" does not close. A comma behind the beginning of a word separates nothing (`BehindBeginning`;
  `OddLists` has both cases).
- A header value that goes on in a further line is reported whole, but what was being recognised in it, "chunked" or
  the last word of a Connection list, is forgotten (`FoldsSkipped`); only behind a comma the list goes on (`ListFolds`).
- The URL parser accepts the empty text, with no components (`AcceptsExact`).
- Every line end before a response begins a message (`StatusLineRead`).
- The table of hexadecimal digits is filled in for 128 bytes only; the other 128 count as digits of value 0
  (`SizeExact`, `OddSize`).
- `strtoul` reads past the end of a URL if a digit stands there (`NumberOfRun`, `PortReadsOn`).
- A CONNECT target is more than host and port if an at sign stands before the host, or a question mark and any
  number of number signs behind the port (`ConnectExact`, `ConnectInstances`); it is nothing else exactly if it
  holds neither a question mark nor an at sign (`AcceptedOnly`).
- A size within 15 of the largest wraps around in the pool, which then hands out a piece of no bytes
  (`RoundedUp`).
- The end of the stream may be signalled twice in a response body without a length, and completes its message
  twice (`EndTwice`, `EndInstance`). A request parser, the only type this program uses, never reads such a body.

A trace is the list of callbacks with adjacent data callbacks of one kind joined. Ghost state (words of nodes,
the dictionary, the callbacks made, what a pool handed out) exists for the statements only.

## Model

| member | source | states |
|---|---|---|
| AcNode.Node.constructor | flow_core/flow_core_node.c:20-48 | A new node is blank: not final, no failure node, no edges, no patterns. |
| AcNode.Node.FindNext | flow_core/flow_core_node.c:56-66 | Linear lookup: null exactly if no edge has the letter, else the node of such an edge; whatever the order of the edges. |
| AcNode.Node.FindNextBs | flow_core/flow_core_node.c:68-89 | Binary search gives the same answer on edges sorted by signed letters. |
| AcNode.Node.HasPattern | flow_core/flow_core_node.c:91-116 | True exactly if a stored pattern has the same text, letter by letter. |
| AcNode.Node.CreateNext | flow_core/flow_core_node.c:118-130 | Null and no change if the edge is taken, else one more edge to a fresh blank node one letter further. |
| AcNode.Node.AcceptPattern | flow_core/flow_core_node.c:132-156 | Appends the pattern unless one with the same text is there; nothing else of the list changes. |
| AcNode.Node.AcceptAll | flow_core/flow_core_node.c:301-303 | Accepting a list keeps exactly the patterns whose text was not there yet, in order. |
| AcNode.Node.AddEdge | flow_core/flow_core_node.c:188-199 | The new edge is appended; the vector grows when it is full. |
| AcNode.Node.GrowOutgoingVector | flow_core/flow_core_node.c:252-275 | The capacity of the edge vector grows by 8/(depth+1)+1: by nine at the root, by one from depth 8 on. |
| AcNode.GrowthFalls | flow_core/flow_core_node.c:252-275 | Deeper nodes never grow faster. |
| AcNode.Node.GrowMatchedVector | flow_core/flow_core_node.c:277-292 | The capacity of the match vector becomes 1, then grows by 2. |
| AcNode.Node.SortOutgoing | flow_core/flow_core_node.c:207-223 | Afterwards the same edges are sorted by signed letter. |
| AcNode.SortEdgesSorts | flow_core/flow_core_node.c:219-223 | Sorting edges with different letters sorts them strictly. |
| AcNode.SortEdgesKeeps | flow_core/flow_core_node.c:219-223 | Sorting neither loses nor adds an edge. |
| AcNode.SortedUnique | flow_core/flow_core_node.c:207-217 | Two sorted vectors of the same edges are equal, so the algorithm behind qsort does not matter. |
| AcTrie.Trie.constructor | flow_core/flow_core_ahocorasick.c:32-49 | An empty open trie with the cursor at the root. |
| AcTrie.Trie.Walk | flow_core/flow_core_ahocorasick.c:79-93 | Adding letters creates exactly the missing nodes of the path and keeps the heap graph a tree. |
| AcTrie.Trie.MarkFinal | flow_core/flow_core_ahocorasick.c:95-102 | The pattern is entered under its text; every other node keeps its pattern. |
| AcTrie.Trie.Add | flow_core/flow_core_ahocorasick.c:63-103 | Each status exactly under its condition, in the order closed, empty, longer than 1023, known; on success exactly this pattern is added, otherwise none, and every invariant of the trie holds. |
| AcTrie.Trie.Lookup | flow_core/flow_core_ahocorasick.c:326-328 | The walk from the root along part of the prefix buffer finds the node of that word, or null exactly if the trie has none. |
| AcTrie.Trie.SetFailure | flow_core/flow_core_ahocorasick.c:314-338 | The brute force search sets the failure node to the longest proper suffix in the trie. |
| AcTrie.Trie.TraverseSetFailure | flow_core/flow_core_ahocorasick.c:351-366 | Depth first over the heap graph: all nodes below get their failure node, and the shared prefix buffer of 1024 letters spells the path of the node and is never indexed outside. |
| AcTrie.Trie.MergeNode | flow_core/flow_core_node.c:299-307 | Merging one failure node brings the match list one step closer to complete, whether or not that node was merged before. |
| AcTrie.CollectStep | flow_core/flow_core_node.c:299-307 | The invariant behind it: the list is the naive answer down to the length of the next failure node. |
| AcTrie.Trie.MergeFailures | flow_core/flow_core_node.c:294-307 | After the chain the list is the naive list of all patterns the path ends with. |
| AcTrie.Trie.CollectMatches | flow_core/flow_core_node.c:294-311 | Merging and sorting complete the node and spoil no completed one. |
| AcTrie.Trie.TraverseCollect | flow_core/flow_core_ahocorasick.c:378-392 | Top down over the heap graph, every node below is completed, whatever the order of the edges. |
| AcTrie.Trie.Finalize | flow_core/flow_core_ahocorasick.c:115-126 | Afterwards the trie is closed and the automaton complete: failure links, match lists and sorted edges. |
| AcTheorems.FailureLinks | flow_core/flow_core_ahocorasick.c:314-366 | Every non-root node fails to the node of the longest proper suffix of its path in the trie, which is strictly less deep. |
| AcTheorems.MatchList | flow_core/flow_core_node.c:294-311 | A node lists exactly the accepted patterns that are suffixes of its path, in strictly decreasing length, and is final exactly if there is one. |
| AcSpec.SuffixedExact | flow_core/flow_core_node.c:294-311 | The naive list holds exactly the accepted patterns a word ends with. |
| AcSpec.SuffixedDecreasing | flow_core/flow_core_node.c:294-311 | The naive list is strictly decreasing in length. |
| AcSpec.LongestIsMax | flow_core/flow_core_ahocorasick.c:324-334 | No state that is a suffix is longer than the longest one. |
| AcSpec.LongestStep | flow_core/flow_core_ahocorasick.c:170-183 | The state after one more letter depends on the state only, not on the text before. |
| AcSpec.FailStep | flow_core/flow_core_ahocorasick.c:174-175 | A failure transition does not change where a letter leads. |
| AcSpec.SuffixedOfState | flow_core/flow_core_ahocorasick.c:185-193 | The state loses no match: the patterns that end in a text are those that end in its state. |
| AcSpec.HitsSound | flow_core/flow_core_ahocorasick.c:185-193 | The naive scan reports increasing positions, each with exactly the patterns that end there. |
| AcSpec.HitsComplete | flow_core/flow_core_ahocorasick.c:185-193 | The naive scan misses no end of a pattern. |
| AcSpec.HitsFromState | flow_core/flow_core_ahocorasick.c:146-212 | A scan that goes on from a history reports what a scan from the state of that history reports, at the same absolute positions. |
| AcTrie.Trie.Scan | flow_core/flow_core_ahocorasick.c:162-211 | The search loop reports the naive scan up to the first stop, ends in the right state, and makes at most two edge lookups per letter plus the depth it starts in. |
| AcTrie.Trie.Search | flow_core/flow_core_ahocorasick.c:146-212 | What the callback is given is a prefix of the naive answer ahead of the cursor, all of it if nobody stops; the result and the cursor say where it ended. |
| AcTheorems.ExactMatching | flow_core/flow_core_ahocorasick.c:146-212 | From the root: one report for each position where an accepted pattern ends, in increasing order, with exactly those patterns. |
| AcTheorems.StaleStart | flow_core/flow_core_ahocorasick.c:162-165 | With keep 0 the state left over is still used: the answer is that of a fresh search for every text if and only if no pattern is pending in that state. |
| AcTheorems.StaleStartInstance | flow_core/flow_core_ahocorasick.c:162-165 | For instance "ab" is reported in the text "b" after a text that ended in "a". |
| AcTrie.Trie.SetText | flow_core/flow_core_ahocorasick.c:224-231 | Without keep the cursor returns to the root, with keep the state and the base stay. |
| AcTrie.Trie.FindNext | flow_core/flow_core_ahocorasick.c:239-253 | The first pending match, and the rest is still pending; nothing pending gives the empty match. |
| AcTrie.AheadSplit | flow_core/flow_core_ahocorasick.c:195-203 | Stopping at a match splits what lies ahead into what was reported and what lies ahead of the saved cursor. |
| AcTheorems.FindNextAfterEnd | flow_core/flow_core_ahocorasick.c:207-211 | After its empty answer find-next reads again what follows the last match, as a continuation of the text. |
| AcTheorems.NothingAgain | flow_core/flow_core_ahocorasick.c:207-211 | ... and finds nothing exactly if no accepted pattern ends in what is read again, after all that was read before. |
| AcTheorems.FindNextTwice | flow_core/flow_core_ahocorasick.c:207-211 | The same of two calls of find-next, the first of which finds nothing. |
| AcTheorems.FindNextInstance | flow_core/flow_core_ahocorasick.c:207-211 | An instance: a pattern that is not in the text is found when find-next is asked twice. |
| AcClient.FindAll | flow_core/flow_core_ahocorasick.c:239-253 | The loop until the empty match enumerates exactly what was pending. |
| AcClient.FindInChunks | flow_core/flow_core_ahocorasick.c:224-253 | A text in chunks, with keep from the second on: the matches are those of one naive scan of the whole text, with absolute positions. |
| AcClient.ChunkAhead | flow_core/flow_core_ahocorasick.c:207-211 | What lies ahead in the next chunk is the part of the scan of the whole text after the chunks before. |
| FlowConfig.Router.FindItem | flow_config/flow_config_parser.c:300-318 | The first item with the id in the hash slot of the id. |
| FlowConfig.Router.FindIdx | flow_config/flow_config_parser.c:353-363 | The first bound transmit index of the item, else the default device. |
| FlowConfig.Router.AddKey | flow_config/flow_config_parser.c:333-375 | One key adds its pattern to every trie, or nothing if it is empty, unknown or of a receiving item (which keys these are, and what they add, is PatternsExact). |
| FlowConfig.Router.AddSlot | flow_config/flow_config_parser.c:329-376 | All keys of a slot, in the order of the list. |
| FlowConfig.Router.Build | flow_config/flow_config_parser.c:320-381 | After the build every trie is closed and holds the patterns of the configuration. |
| FlowKeys.PatternsExact | flow_config/flow_config_parser.c:329-376 | The patterns that are added stand one to one, in order, for the keys in use: with a text that is not empty and an item, the first with the id in its slot, that is not a receiving one; each has the text of its key and the port of the first bound entry with the id, or 0 if there is none. |
| FlowKeys.DictExact | flow_config/flow_config_parser.c:371-374 | A text is in the trie exactly if it is that of a key in use short enough to be added, and the first of these keys decides its port. |
| FlowKeys.RoutesExact | flow_config/flow_config_parser.c:329-403 | What the keys say is what the patterns say: a text routes to a port by the keys exactly if it does by the dictionary. |
| FlowKeys.RouteUnique | flow_config/flow_config_parser.c:396-403 | The keys give every text exactly one port, or none. |
| FlowKeys.AddAllExact | flow_config/flow_config_parser.c:371-374 | Of several patterns with one text the first added is the one that counts. |
| FlowConfig.Router.StrLen | flow_config/flow_config_parser.c:394 | The length up to the terminator. |
| FlowConfig.Router.Search | flow_config/flow_config_parser.c:384-405 | -1 exactly if no key occurs, else the index of the longest key at the earliest position where a key ends. |
| FlowKeys.WinnerUnique | flow_config/flow_config_parser.c:396-403 | There is one winning key and one position. |
| FlowKeys.FirstHitRoutes | flow_config/flow_config_parser.c:396-403 | The first pattern of the first match is the winner. |
| FlowConfig.Route | flow_config/flow_config_parser.c:320-405 | From configuration to port, in terms of keys, items and entries alone: the port of the longest key in use at the earliest end of one, the first such in slot and list order, or -1 exactly if no key in use occurs. |
| HttpSpec.RankDescends | flow_ua/flow_http_parser.c:44-46 | Whenever a byte is looked at again a rank on states descends strictly. |
| HttpSpec.Dispatches | flow_ua/flow_http_parser.c:674-2027 | A byte is dispatched at most four times. |
| HttpSpec.FourDispatches | flow_ua/flow_http_parser.c:1687-1845 | Four times is reached: the line feed that ends the headers after a value. |
| HttpInv.InvStep | flow_ua/flow_http_parser.c:674-2027 | Every byte keeps the invariant or ends in an error: counters are small, chunk states are chunked, body lengths are positive and below the sentinel, each phase sees only its header states, a request parser stays in request states. |
| HttpRun.RunLength | flow_ua/flow_http_parser.c:674-2050 | A run that does not stop reads everything; an error is no exit. |
| HttpRun.RunAppend | flow_ua/flow_http_parser.c:674-2050 | Running is a fold: a stream may be cut anywhere. |
| HttpRun.RunBegins | flow_ua/flow_http_parser.c:674-2050 | What was reported stays a beginning of everything reported later. |
| HttpFollow.SkipValue | flow_ua/flow_http_parser.c:1525-1548 | The memchr skip over a general value is the fold of the one-byte machine. |
| HttpFollow.SkipBody | flow_ua/flow_http_parser.c:1847-1888 | A bulk advance within a body is the fold of the one-byte machine. |
| HttpFollow.WholeBody | flow_ua/flow_http_parser.c:1863-1879 | ... and so is one that completes the declared length. |
| HttpParser.Parser.constructor | flow_ua/flow_http_parser.c:2103-2111 | The fields http_parser_init leaves, and the invariant. |
| HttpParser.Parser.CountHeaderSize | flow_ua/flow_http_parser.c:133-140 | The counter wraps at 32 bits; the call fails exactly if it then exceeds the limit. |
| HttpParser.Parser.Deliver | flow_ua/flow_http_parser.c:84-112 | What is marked is delivered and the mark cleared; without a mark nothing happens. |
| HttpParser.Parser.MessageNeedsEof | flow_ua/flow_http_parser.c:2054-2074 | Responses with neither length nor chunks, but for 1xx, 204 and 304. |
| HttpParser.Parser.ShouldKeepAlive | flow_ua/flow_http_parser.c:2077-2093 | By version and connection flags. |
| HttpParser.Parser.OnReqMethod | flow_ua/flow_http_parser.c:963-1046 | One letter of the method as the one-byte machine takes it. |
| HttpParser.Parser.OtherMethod | flow_ua/flow_http_parser.c:977-1042 | The method switches of a letter that does not fit. |
| HttpParser.Parser.OnUrl | flow_ua/flow_http_parser.c:1066-1119 | URL bytes under their mark, delivered at the end of the URL. |
| HttpParser.Parser.OnHeaderFieldStart | flow_ua/flow_http_parser.c:1243-1291 | The first byte of a header or of the end of the headers. |
| HttpParser.Parser.ScanName | flow_ua/flow_http_parser.c:1293-1397 | The loop over the letters of a name is the fold of the one-byte machine. |
| HttpParser.Parser.OnHeaderField | flow_ua/flow_http_parser.c:1293-1415 | A run of name bytes, the count and what ends it. |
| HttpParser.Parser.OnHeaderValueStart | flow_ua/flow_http_parser.c:1437-1493 | The first byte of a value decides what is looked for in it. |
| HttpParser.Parser.ValueLetter | flow_ua/flow_http_parser.c:1519-1662 | One letter of a value, with the overflow check of Content-Length. |
| HttpParser.Parser.FindLineEnd | flow_ua/flow_http_parser.c:1525-1546 | Where the skip stops: the next CR or LF within the limit, or the end of the buffer. |
| HttpParser.Parser.ScanValue | flow_ua/flow_http_parser.c:1499-1669 | The loop over a value is the fold of the one-byte machine, or longer than the header limit. |
| HttpParser.Parser.OnHeaderValue | flow_ua/flow_http_parser.c:1495-1677 | A run of value bytes, both counts, delivery at CR, and a bare LF that is looked at again. |
| HttpParser.Parser.OnHeadersAlmostDone | flow_ua/flow_http_parser.c:1754-1802 | End of the trailers, or the headers are complete and the upgrade is decided. |
| HttpParser.Parser.OnHeadersDone | flow_ua/flow_http_parser.c:1804-1845 | How the body is framed. |
| HttpParser.Parser.OnBodyIdentity | flow_ua/flow_http_parser.c:1847-1881 | Bytes up to the declared length; the last one is looked at again and delivered. |
| HttpParser.Parser.OnBodyEof | flow_ua/flow_http_parser.c:1883-1888 | Everything up to the end of the buffer. |
| HttpParser.Parser.OnChunkSizeLine | flow_ua/flow_http_parser.c:1895-1973 | Size, extension and end of a size line; the size does not wrap around. |
| HttpParser.Parser.OnChunkData | flow_ua/flow_http_parser.c:1975-1996 | Bytes up to the size of the chunk. |
| HttpParser.Parser.OnChunkDataAlmostDone | flow_ua/flow_http_parser.c:1998-2004 | The end of the data delivers what is marked. |
| HttpMarks.OneMark | flow_ua/flow_http_parser.c:2030-2034 | In every state at most one mark is set, and which one. |
| HttpParser.Parser.Flush | flow_ua/flow_http_parser.c:2020-2040 | At the end of a buffer exactly what is marked is delivered. |
| HttpContract.StepWent | flow_ua/flow_http_parser.c:666-2018 | One execution of the switch on one byte does what the one-byte machine does; on an error the marks fit the state the byte was looked at in. |
| HttpContract.StepTold | flow_ua/flow_http_parser.c:666-2018 | ... and delivers and counts what a look adds to the call. |
| HttpContract.CrDone | flow_ua/flow_http_parser.c:1502-1508 | The end of a value at a CR, with its count: within the limit or not. |
| HttpContract.LfDone | flow_ua/flow_http_parser.c:1509-1515 | The end of a value at a bare LF, with both counts: within the limit or not. |
| HttpContract.NameDone | flow_ua/flow_http_parser.c:1398-1415 | The end of a name: its delivery at a colon, or an error that leaves it undelivered. |
| HttpContract.SkipRead | flow_ua/flow_http_parser.c:1525-1548 | The skip over a general value keeps the parser in step with the one-byte machine, or the header limit is exceeded. |
| HttpContract.ValueEndWent | flow_ua/flow_http_parser.c:1502-1515 | The end of a value: delivery of what is marked, and which byte is looked at next. |
| HttpContract.IdentityWent | flow_ua/flow_http_parser.c:1863-1878 | The end of a body of declared length within a buffer. |
| HttpContract.ChunkEndWent | flow_ua/flow_http_parser.c:1998-2004 | The end of the data of a chunk, marked in this buffer or not. |
| HttpParser.Parser.Dispatch | flow_ua/flow_http_parser.c:666-2018 | Every execution of the switch follows the one-byte machine, keeps the invariants and the marks, and makes progress. |
| HttpParser.Parser.ExecuteBytes | flow_ua/flow_http_parser.c:605-2050 | A whole buffer: same fields, same number of bytes, same trace as the one-byte machine; on an error the trace but for what the marks say; a header overflow exactly if the count that is due exceeds the limit, but for an invalid length found before its bytes are counted, and then callbacks that begin the trace; at most four executions of the switch for a byte. |
| HttpParser.Parser.Execute | flow_ua/flow_http_parser.c:605-2050 | The same, with the end of the stream and calls after an error. |
| HttpParser.Parser.EndOfFile | flow_ua/flow_http_parser.c:621-644 | A call without data is an error but between messages and in a body without a length; it completes a message exactly in such a body, which no request parser reads; no state changes. |
| HttpParser.Parser.EndTwice | flow_ua/flow_http_parser.c:621-644 | So a second one in such a body completes the same message again; never for a request parser. |
| HttpEnd.EndTwiceBehind | flow_ua/flow_http_parser.c:621-644 | The parser itself: any response without a length, its head and body received in any pieces, is reported as written, and the end signalled twice completes it twice. |
| HttpEnd.EndInstance | flow_ua/flow_http_parser.c:621-644 | An instance: a new response parser that reads a status line and no headers, and is told of the end twice. |
| HttpLost.StepWaits | flow_ua/flow_http_parser.c:666-2018 | Which bytes are data of a report that goes on, and that a state without data leaves nothing waiting. |
| HttpLost.FoldInStep | flow_ua/flow_http_parser.c:84-112 | Between any two bytes of a call: what was delivered and what waits make up the trace. |
| HttpLost.FoldBegins | flow_ua/flow_http_parser.c:48-112 | What waits begins with the first of the bytes that are data up to here. |
| HttpLost.LostIffMidData | flow_ua/flow_http_parser.c:2044-2050 | Data is lost exactly if some was read and not finished before the error byte. |
| HttpLost.ErrorAccount | flow_ua/flow_http_parser.c:2044-2050 | What a call that ends with an error has delivered, and what not. |
| HttpLost.ErrorLater | flow_ua/flow_http_parser.c:2044-2050 | The last call loses what of the unfinished data was read in it; what was read before is delivered. |
| HttpLimit.LookCharges | flow_ua/flow_http_parser.c:133-140 | What a look at a byte adds to the header size counter. |
| HttpLimit.CallFits | flow_ua/flow_http_parser.c:133-140 | A call does not exceed the limit if the header bytes between two restarts of the counter are at most a third of it, however the bytes before were cut. |
| HttpLimit.TrailersKeepCount | flow_ua/flow_http_parser.c:1754-1763 | The end of the trailers completes the message and does not restart the counter: they and the next head are counted together. |
| HttpCuts.BytePrice | flow_ua/flow_http_parser.c:133-140 | What a byte costs in a call of its own: one for every look at it in the head, two if it goes on with a name or value. |
| HttpCuts.CallWithin | flow_ua/flow_http_parser.c:133-140 | A call never counts more than calls of one byte each over the same bytes. |
| HttpCuts.CutWithin | flow_ua/flow_http_parser.c:133-140 | No cut counts more than the one into single bytes. |
| HttpCuts.WorstCut | flow_ua/flow_http_parser.c:133-140 | Exact condition, for every stream and any count to start with: no cut exceeds the header limit if and only if the one into single bytes does not. |
| HttpCuts.HeadsNoCut | flow_ua/flow_http_parser.c:133-140 | A bound that suffices: no cut exceeds it if the header bytes between two restarts are at most a third of it. |
| HttpOverflow.NameCount | flow_ua/flow_http_parser.c:1293-1405 | A name counts one for every byte, and one more where the buffer ends in it. |
| HttpOverflow.ValueCount | flow_ua/flow_http_parser.c:1495-1515 | A value that is not interpreted counts one for every byte, and before a bare LF all of them once again. |
| HttpOverflow.OverflowByCut | flow_ua/flow_http_parser.c:1399-1405 | The limit depends on the cuts: the same bytes are within it in two buffers and exceed it in three. |
| HttpOverflow.OverflowInstance | flow_ua/flow_http_parser.c:1399-1405 | The same of two new parsers that are given these buffers. |
| HttpHeadCount.RestartExact | flow_ua/flow_http_parser.c:1815-1845 | The counter restarts exactly with the line feeds that end headers, a size line or the data of a chunk. |
| HttpHeadCount.HeadCounted | flow_ua/flow_http_parser.c:133-140 | Every byte of the head of a request, from its line ends on, counts as one of a header up to the line feed that ends it, and behind that the counter starts anew. |
| HttpSplit.UpgradeRun | flow_ua/flow_http_parser.c:1802-1815 | A run exits exactly if it ends with an upgrade. |
| HttpSplit.ExecuteChunks | flow_ua/flow_http_parser.c:605-2050 | Any list of buffers: fields, bytes consumed and trace are those of one run over the concatenation; after an error the callbacks are those the run makes but for the data lost in the last buffer; a header overflow exactly if these cuts exceed the limit, which they never do if calls of one byte do not, and then the callbacks begin those of the run. |
| HttpSplit.CutAnywhere | flow_ua/flow_http_parser.c:605-2050 | Split invariance: the same bytes cut differently lead to the same fields and the same total, and to the same trace if no error occurs; after an error, to the same trace exactly if the same bytes were lost; which of the two cuts exceeds the header limit, and that neither does if calls of one byte do not. |
| HttpSplit.ErrorTrace | flow_ua/flow_http_parser.c:2044-2050 | For every error but an overflow: what one call reports, which bytes are lost, and that none are exactly if the machine was in the middle of no data or had read nothing. |
| HttpSplit.LostBytes | flow_ua/flow_http_parser.c:2044-2050 | The lost bytes, appended to what was reported, give the trace of the run. |
| HttpSplit.SameForAllCuts | flow_ua/flow_http_parser.c:2044-2050 | Exact condition: a stream that ends in an error reports the same for all cuts exactly if the machine is in the middle of no data before the error byte, or that byte is the first. |
| HttpSplit.ErrorCut | flow_ua/flow_http_parser.c:2044-2050 | An instance: one parser is given two bytes at once, another one after the other; they report differently before the same error. |
| HttpGrammar.PhaseIffMessages | flow_ua/flow_http_parser.c:922-961 | The phases accept exactly the reports of lists of messages. |
| HttpGrammar.GrammarRun | flow_ua/flow_http_parser.c:922-961 | Every byte leads from phase to phase. |
| HttpGrammar.EventGrammar | flow_ua/flow_http_parser.c:1243-1893 | Every trace of a request parser is the beginning of the reports of well-formed messages, whole messages between messages; trailers only after a chunked body. |
| HttpGrammar.EndExact | flow_ua/flow_http_parser.c:621-644 | The end of the stream is no error exactly if what was reported are whole messages. |
| HttpGrammar.Connection | flow_ua/flow_http_parser.c:605-2050 | The same of the callbacks of a parser that is fed buffer by buffer, also after an error or an overflow. |
| HttpNames.SwitchSound | flow_ua/flow_http_parser.c:977-1042 | A switch of the guessed method keeps the letters read. |
| HttpNames.SwitchComplete | flow_ua/flow_http_parser.c:977-1042 | No method is missed by the switches. |
| HttpNames.MethodsExact | flow_ua/flow_http_parser.c:922-1046 | The method phase accepts exactly the 27 methods and knows which it was. |
| HttpRequestLine.UrlLineExact | flow_ua/flow_http_parser.c:1048-1119 | The text between the method and the next space or line end is accepted exactly if it is a URL of the language, also for CONNECT; otherwise the error is InvalidUrl. |
| HttpVersion.VersionExact | flow_ua/flow_http_parser.c:1121-1241 | Behind the URL, the text up to the line end is accepted exactly if it is spaces, "HTTP/", a number that begins with no 0, a dot and a number, both at most 999; these numbers are kept. |
| HttpNames.NamesExact | flow_ua/flow_http_parser.c:1243-1415 | At the colon the header state is one of the four that matter exactly if the folded name is that header (or proxy-connection). |
| HttpNames.EncodingExact | flow_ua/flow_http_parser.c:1576-1584 | A transfer encoding is taken as chunked exactly if it is that word in any case, followed by spaces. |
| HttpTokens.OneToken | flow_ua/flow_http_parser.c:1586-1662 | In a Connection value without a comma there is one token: it names a word exactly if it is that word in any case, and spaces. |
| HttpTokens.ListNames | flow_ua/flow_http_parser.c:1437-1662 | A list of tokens, none of which is the beginning of a word, names exactly the words that are among them. |
| HttpTokens.BehindBlank | flow_ua/flow_http_parser.c:1593-1604 | Behind a comma and a blank, or any other byte that begins no token, nothing is recognised: only the first token counts. |
| HttpTokens.BehindBeginning | flow_ua/flow_http_parser.c:1606-1639 | A comma behind the beginning of a word separates nothing. |
| HttpTokens.OddLists | flow_ua/flow_http_parser.c:1593-1639 | Instances: "keep-alive, close" does not say close, and neither does "c,close". |
| HttpTokens.NamesGoOn | flow_ua/flow_http_parser.c:1646-1658 | Behind a comma that ends a token the list goes on, on the same line or the next. |
| HttpTokens.ValueOfTokens | flow_ua/flow_http_parser.c:1437-1711 | Any Connection value is reported as it is written, and at the end of the line exactly the words it names have set their flags. |
| HttpLength.LengthExact | flow_ua/flow_http_parser.c:1549-1574 | A Content-Length is accepted exactly if it is digits and spaces of value at most 18446744073709551609, and is then exact. |
| HttpLength.BodyConserved | flow_ua/flow_http_parser.c:1847-1864 | Delivered bytes plus the remaining length stay equal to the declared length. |
| HttpLength.BodyEnds | flow_ua/flow_http_parser.c:1863-1893 | A whole body is delivered, then the message is complete, once. |
| HttpLength.LengthFraming | flow_ua/flow_http_parser.c:1754-1893 | From the end of the headers: exactly the declared bytes are the body, then the message is complete. |
| HttpChunked.UnhexExact | flow_ua/flow_http_parser.c:203-212 | The digit table: hexadecimal digits have their value, bytes from 128 on are digits of value 0, and nothing else is a digit. |
| HttpChunked.SizeExact | flow_ua/flow_http_parser.c:1895-1946 | A chunk size is accepted exactly if it is made of hexadecimal digits and bytes from 128 on and its value is at most 18446744073709551599; it does not wrap around; a hexadecimal number is accepted exactly up to that value and declares it. |
| HttpChunked.OddSize | flow_ua/flow_http_parser.c:203-212 | An instance: a size that is no hexadecimal number and declares 16 bytes. |
| HttpChunked.SizeLine | flow_ua/flow_http_parser.c:1895-1973 | Size, extension and line end lead to the data, or to the trailers after a size of 0. |
| HttpChunked.ChunkedRoundTrip | flow_ua/flow_http_parser.c:1895-2011 | Encoded chunks, whatever their extensions, are delivered as the concatenation of their data, then one message completion in the state of a new message. |
| HttpChunked.PlainRoundTrip | flow_ua/flow_http_parser.c:1895-2011 | The same with sizes written in plain hexadecimal. |
| HttpRequestLine.RequestLineRead | flow_ua/flow_http_parser.c:922-1241 | Any request line is read as written: line ends before it, each of the 27 methods, spaces, any URL of its language (for CONNECT its own), a version of at most three digits that count or none, and either line end; the URL is reported once, whole. |
| HttpHeaders.BetweenLeads | flow_ua/flow_http_parser.c:1687-1752 | A byte that does not continue the last value is read as the start of the next header, or of the end of the headers. |
| HttpHeaders.NameReported | flow_ua/flow_http_parser.c:1243-1415 | A name is reported as it is written, in any case of its letters, and nothing but the state of the recogniser changes. |
| HttpHeaders.ValueReported | flow_ua/flow_http_parser.c:1437-1677 | A value that is accepted is reported as it is written; only a length changes the declared length. |
| HttpHeaders.FoldsSkipped | flow_ua/flow_http_parser.c:1687-1711 | A value that goes on in further lines is reported whole, without the line ends, and what was being recognised in it is forgotten. |
| HttpHeaders.ListFolds | flow_ua/flow_http_parser.c:1437-1711 | ... but a Connection list goes on in the next line behind a comma that ends a token. |
| HttpHeaders.ConnectionExact | flow_ua/flow_http_parser.c:1586-1711 | A Connection header without a comma newly sets close, keepAlive or connUpgrade exactly if its value is close, keep-alive or upgrade, in any case and followed by spaces; it changes no other flag. |
| HttpHeaders.LineRead | flow_ua/flow_http_parser.c:1243-1752 | Any legal header line, whatever its name, gaps, folds and line end, is reported as written and changes exactly what it says: the length, the chunked encoding, the upgrade or the words of a Connection list. |
| HttpHeaders.EffectsMean | flow_ua/flow_http_parser.c:1549-1711 | Of any lines: a flag is set exactly if some line says so, and the last length that is declared counts. |
| HttpHeaders.LinesRead | flow_ua/flow_http_parser.c:1243-1752 | The same reading for any lines one after the other. |
| HttpRequest.HeadRead | flow_ua/flow_http_parser.c:922-1752 | The whole head: method, URL, version, all headers in order, and what they say of the body and the connection. |
| HttpRequest.TrailersRead | flow_ua/flow_http_parser.c:1754-1973 | After the last chunk any trailers are reported as written, then the message is complete; what they say of the connection counts as well. |
| HttpRequest.BodyRead | flow_ua/flow_http_parser.c:1754-2011 | Chunks if some header says so, whatever length is declared; else the last length, else nothing: each is delivered as written, then the message is complete, once, and the parser waits for a next one exactly if the connection stays open. |
| HttpRequest.RequestRead | flow_ua/flow_http_parser.c:674-2018 | Round trip: any request that is written down is reported as exactly the message it was written from; then the state is that of a new message exactly if the version is at least 1.1 and nothing says close, or it is lower and something says keep-alive, and dead otherwise. |
| HttpRequest.Handover | flow_ua/flow_http_parser.c:1768-1815 | The run over a head, whatever follows it, ends right behind its last line feed exactly if the method is CONNECT, or some header is a non-empty Upgrade and some Connection header names upgrade; the message is then complete and upgrade is set. |
| HttpRoundTrip.RequestsRead | flow_ua/flow_http_parser.c:674-2018 | The same for any list of requests on one connection. |
| HttpRoundTrip.DeadRun | flow_ua/flow_http_parser.c:680-688 | Behind the last message of a connection only line ends are read, and any other byte is the error of a closed connection. |
| HttpRoundTrip.ConnectionRead | flow_ua/flow_http_parser.c:674-2050 | All of a connection: requests that go on, a last one that may close it or hand it over, and what follows: what is reported, how many bytes are read, the error and the state. |
| HttpRoundTrip.SizedIsContent | flow_ua/flow_http_parser.c:1549-1574 | Every body can be sent with its length in decimal digits. |
| HttpRoundTrip.ChunkedIsContent | flow_ua/flow_http_parser.c:1895-2011 | Every body can be sent in chunks, cut anywhere. |
| HttpRoundTrip.ReadRequests | flow_ua/flow_http_parser.c:605-2050 | The parser itself: a written connection, received in any pieces, is reported by the callbacks as the messages it was written from; nothing is read behind a handover, only line ends behind a close; a header overflow happens only to streams that exceed the limit byte by byte and leaves a beginning of these reports. |
| HttpReadBack.RequestLineSplit | flow_ua/flow_http_parser.c:922-1241 | The converse: what is accepted begins with a request line as it is written. |
| HttpReadBack.LineSplit | flow_ua/flow_http_parser.c:1243-1752 | ... any header line that is accepted is a legal one. |
| HttpReadBack.LinesSplit | flow_ua/flow_http_parser.c:1243-1802 | ... and so are all of them, up to the line end that ends the head. |
| HttpExact.ChunksSplit | flow_ua/flow_http_parser.c:1895-2011 | ... what is accepted behind the head of a chunked request are chunks up to one of size 0. |
| HttpExact.ContentSplit | flow_ua/flow_http_parser.c:1804-2011 | ... and a body is framed as the headers say. |
| HttpExact.RequestSplit | flow_ua/flow_http_parser.c:674-2018 | A whole request can be read back from what is accepted. |
| HttpExact.StreamExact | flow_ua/flow_http_parser.c:674-2050 | The language of a request parser, exactly: it reads a stream to its end between messages, or up to a handover, if and only if the stream is the text of requests that go on, a last one, and what may follow it; and then it reports the messages of these requests. |
| HttpExact.ReadStream | flow_ua/flow_http_parser.c:605-2050 | The parser itself, fed in any pieces, accepts exactly these streams, unless a header is too long. |
| HttpStatusLine.StatusExact | flow_ua/flow_http_parser.c:749-921 | A status line is accepted exactly if it is "HTTP/", two numbers around a dot, spaces and a code, all at most 999, and perhaps a space and a reason. |
| HttpStatusLine.StatusLineRead | flow_ua/flow_http_parser.c:727-921 | It is read as written, its numbers are kept and a reason is reported; every line end before it begins a message, too. |
| HttpResponse.NextResponse | flow_ua/flow_http_parser.c:2054-2093 | Behind a response: the next one exactly if version and flags keep the connection open and its end was known without the end of the stream. |
| HttpResponse.ResponseRead | flow_ua/flow_http_parser.c:727-2018 | Round trip of responses: reported as written, with the body framed by chunks, by the last length, or not at all for 1xx, 204 and 304. |
| HttpResponse.ToEndRead | flow_ua/flow_http_parser.c:1804-1888 | A response whose headers say nothing of its body and whose code allows one takes all that follows as its body. |
| HttpResponse.ResponseHandover | flow_ua/flow_http_parser.c:1768-1815 | A run over the head of a response ends behind it exactly if the headers ask for another protocol in two places. |
| HttpClasses.EitherExact | flow_ua/flow_http_parser.c:690-725 | A parser that takes both reads "HT" as a response parser, "HE" and any other first letter as a request parser, and rejects any other letter behind an H. |
| HttpClasses.ErrorIs | flow_ua/flow_http_parser.c:674-2018 | Which error a byte is, by the state it is found in. |
| HttpClasses.TokenTable | flow_ua/flow_http_parser.c:168-200 | The token table: the visible characters but the separators of section 2.2 of RFC 2616. |
| HttpClasses.TokenLetter | flow_ua/flow_http_parser.c:168-200 | It makes letters small and keeps all else. |
| HttpClasses.UrlTable | flow_ua/flow_http_parser.c:222-254 | The URL table: the token characters but the number sign, and the separators but the question mark. |
| HttpClasses.UserinfoTable | flow_ua/flow_http_parser.c:394-399 | The characters of an authority, from those of a URL. |
| HttpClasses.HostTable | flow_ua/flow_http_parser.c:406-406 | The characters of a host name, from those of an authority. |
| HttpClasses.LetterTable | flow_ua/flow_http_parser.c:389-393 | What the test of one bit makes of letters and hexadecimal digits. |
| HttpUrl.NextUrlState | flow_ua/flow_http_parser.c:457-603 | Where the URL automaton goes and which bytes are delimiters. |
| HttpUrl.MarkedNext | flow_ua/flow_http_parser.c:2275-2331 | One byte of the URL keeps the components laid out in order. |
| HttpUrl.HostMarkedNext | flow_ua/flow_http_parser.c:2203-2244 | One byte of the authority keeps user information, host and port laid out in order. |
| HttpUrl.ScanUrl | flow_ua/flow_http_parser.c:2275-2331 | The loop over the URL: succeeds exactly if no state is dead; the components are those the states name; the host run is the authority. |
| HttpUrl.ParseHost | flow_ua/flow_http_parser.c:2191-2262 | Succeeds exactly if the authority is well-formed; where its port is, and whether it has user information. |
| HttpUrl.LaidMerge | flow_ua/flow_http_parser.c:2333-2339 | Replacing the host run by its parts keeps the layout of the whole URL. |
| HttpUrl.StrToUl | flow_ua/flow_http_parser.c:2348 | The value of the digits as far as they go, or the largest number. |
| HttpUrl.ParseUrl | flow_ua/flow_http_parser.c:2265-2361 | Succeeds exactly for the acceptable URLs, which are defined on the buffer alone; then the components are those of the URL, non-empty, in bounds, in order and disjoint, everything else is a delimiter, a schema has a host, and the port is the number that begins there: its own digits exactly if no digit stands behind the URL or all are 0. |
| HttpUrlText.UrlExact | flow_ua/flow_http_parser.c:457-603 | The language of URLs, exactly: an optional schema with a colon and two slashes, an authority, a path that begins with a slash (or, without an authority, an asterisk), a question mark and a query, number signs and a fragment, each of its characters; with the authority first for CONNECT. The automaton reads a text to its end if and only if it has this form. |
| HttpUrlParts.SiteExact | flow_ua/flow_http_parser.c:2191-2262 | The authority, exactly: user information and an at sign or not, a host name or an address in brackets, and a colon with digits or not. |
| HttpUrlParts.AcceptsExact | flow_ua/flow_http_parser.c:2265-2361 | Outside CONNECT the URL parser accepts exactly the empty text and the URLs of this form whose authority has this form and whose port fits. |
| HttpUrlParts.RunsExact | flow_ua/flow_http_parser.c:2275-2339 | And what it returns for them: which components there are, and that each run holds exactly the text of its part. |
| HttpUrlParts.ParseWhole | flow_ua/flow_http_parser.c:2265-2361 | The same of the parser itself, for any URL written from its parts. |
| HttpUrl.NeedsHost | flow_ua/flow_http_parser.c:2333-2339 | An empty authority after a schema fails. |
| HttpUrl.NumberOfRun | flow_ua/flow_http_parser.c:2348 | The number that begins with some digits is their value exactly if they end there, or all are 0. |
| HttpUrl.PortAccepted | flow_ua/flow_http_parser.c:2346-2357 | A schema, a host name and a port are accepted exactly if the number that begins with the port fits, whatever stands behind them. |
| HttpUrl.PortReadsOn | flow_ua/flow_http_parser.c:2346-2357 | An instance: one URL with port 80 at the end of a buffer, port 801 before a digit, and rejected before three. |
| HttpConnect.ConnectExact | flow_ua/flow_http_parser.c:2265-2361 | CONNECT: accepted are exactly an at sign or nothing, a host name or an IPv6 address in brackets, a colon and digits, and behind them nothing or a question mark and any number of number signs, if the number that begins with the port fits. |
| HttpConnect.AcceptedOnly | flow_ua/flow_http_parser.c:2341-2344 | An accepted target is nothing but host and port, as the comment there says, exactly if it holds neither a question mark nor an at sign. |
| HttpConnect.ConnectInstances | flow_ua/flow_http_parser.c:2341-2344 | Two calls of the URL parser that accept more than host and port. |
| HttpUrl.UrlAccepted | flow_ua/flow_http_parser.c:457-603 | A schema, a host name and a path are accepted, with the host as the authority. |
| HttpUrl.ParseAccepted | flow_ua/flow_http_parser.c:2265-2361 | Every such URL is parsed, with these three components. |
| FlowList.ListIsUnique | flow_core/flow_core_list.h:7-10 | The links determine the entries and their order. |
| FlowList.InitListHead | flow_core/flow_core_list.h:40-44 | An empty list. |
| FlowList.AddBetween | flow_core/flow_core_list.h:53-61 | A new entry between two neighbours. |
| FlowList.ListAdd | flow_core/flow_core_list.h:75-78 | A new first entry. |
| FlowList.ListAddTail | flow_core/flow_core_list.h:89-92 | A new last entry. |
| FlowList.DeleteBetween | flow_core/flow_core_list.h:101-105 | The neighbours of an entry are linked to each other. |
| FlowList.ListDel | flow_core/flow_core_list.h:119-124 | The entry is gone and its links are null. |
| FlowList.ListDelInit | flow_core/flow_core_list.h:158-162 | The entry is gone and is an empty list. |
| FlowList.ListReplace | flow_core/flow_core_list.h:137-144 | The new one takes the place of an entry, or of a head, even of a lone one. |
| FlowList.ListReplaceInit | flow_core/flow_core_list.h:146-151 | ... and the old one is an empty list. |
| FlowList.ListMove | flow_core/flow_core_list.h:169-173 | The entry becomes the first of its own or of another list. |
| FlowList.ListMoveTail | flow_core/flow_core_list.h:180-185 | The entry becomes the last of its own or of another list. |
| FlowList.ListIsLast | flow_core/flow_core_list.h:192-196 | True exactly for the last entry. |
| FlowList.ListEmpty | flow_core/flow_core_list.h:202-205 | True exactly for the empty list. |
| FlowList.ListEmptyCareful | flow_core/flow_core_list.h:220-224 | The same by both links. |
| FlowList.ListRotateLeft | flow_core/flow_core_list.h:230-238 | The first entry becomes the last. |
| FlowList.ListIsSingular | flow_core/flow_core_list.h:244-247 | True exactly for one entry. |
| FlowList.CutAt | flow_core/flow_core_list.h:249-259 | The list falls into the entries up to one and the rest. |
| FlowList.ListCutPosition | flow_core/flow_core_list.h:275-287 | The same with its special cases: nothing to cut, a single other entry, the head itself. |
| FlowList.SpliceBetween | flow_core/flow_core_list.h:289-301 | All entries of a list between two neighbours of another. |
| FlowList.ListSplice | flow_core/flow_core_list.h:308-313 | They go to the front. |
| FlowList.ListSpliceTail | flow_core/flow_core_list.h:320-325 | They go to the end. |
| FlowList.ListSpliceInit | flow_core/flow_core_list.h:334-341 | To the front, and the list they came from is empty. |
| FlowList.ListSpliceTailInit | flow_core/flow_core_list.h:351-358 | To the end, and the list they came from is empty. |
| FlowList.CutThenSplice | flow_core/flow_core_list.h:275-341 | Cutting and splicing back restores the list. |
| FlowMpool.Block.constructor | flow_core/flow_core_mpool.c:28-42 | A block of the given size, or of the default for 0. |
| FlowMpool.Mpool.constructor | flow_core/flow_core_mpool.c:44-52 | A pool of one block. |
| FlowMpool.RoundedUp | flow_core/flow_core_mpool.c:86-87 | Sizes are rounded up to a multiple of 16, exactly if the sum with 15 does not wrap around; else to 0. |
| FlowMpool.Mpool.Grow | flow_core/flow_core_mpool.c:92-99 | A new block, at least as large as the others, in front; nothing that was handed out moves. |
| FlowMpool.Mpool.NoOverlap | flow_core/flow_core_mpool.c:102-104 | What lies behind the used part was not handed out. |
| FlowMpool.Mpool.Malloc | flow_core/flow_core_mpool.c:78-107 | For every size: pieces lie in their block at multiples of 16 and never overlap, over any run of calls; a piece has its size exactly if rounding does not wrap around, else it has no bytes; the newest block is the largest; 0 gives nothing. |
| FlowMpool.Mpool.PlacedFits | flow_core/flow_core_mpool.c:102-104 | What was handed out lies within the memory of its block. |
| FlowMpool.Mpool.Strndup | flow_core/flow_core_mpool.c:109-123 | A terminated copy, and no other byte of the pool is written. |
| FlowMpool.Mpool.Strdup | flow_core/flow_core_mpool.c:125-134 | The same for a whole string. |
| FlowMpool.Mpool.TwoStrings | flow_core/flow_core_mpool.c:109-134 | A string that was duplicated stays intact when another one is. |
| FlowMpool.Mpool.Free | flow_core/flow_core_mpool.c:54-76 | Every block, its memory and the pool are freed, each once. |

## Left out

- HttpParser.Parser.Execute: says which bytes were parsed only for buffers shorter than 2^32 - 81920 bytes, where the 32-bit header size counter cannot wrap around within one call; of a call that exceeds the header limit it says that the callbacks are a beginning of those of the run, not how far was read.
- HttpParser.Parser.ExecuteBytes: the same; and an InvalidContentLength found after more bytes of the value than the limit allows is reported as that, because the loop is left before its bytes are counted.
- HttpExact.StreamExact: is about request parsers; for responses the round trip is proved, and the converse for the status line only (`StatusExact`).
- HttpExact.ReadStream: says nothing of a stream with a head that exceeds the header limit in these pieces.
- HttpSplit.CutAnywhere: of a call that exceeds the header limit it says the same: which cuts do, and that the callbacks are a beginning of those of the run.
- HttpGrammar.EventGrammar: is about request parsers, the type this program uses; a response parser also reports a beginning on blank lines.
- HttpUrl.ParseUrl: takes a zeroed result, as its callers provide it, and URLs of at most 65535 bytes, whose offsets fit the 16-bit fields.
- FlowMpool.Mpool.Strndup: takes lengths up to SIZE_MAX - 16; beyond them the size of the copy wraps around, the piece handed out has no bytes, and the copy would be written outside of it.
- FlowList.ListMove: the head moved to and the list moved from are the same list or have nothing in common.
- Callbacks that fail, pausing, http_parser_pause and on_headers_complete returning 1: no callback of this program does any of it, and F_SKIPBODY does not fit the 6-bit field.
- Non-strict mode, the tables of error names, version and size accessors.
- The comma-separated lists of the Connection header are modelled as the code reads them; which lists the standard allows beyond them is not part of this model.
- Adding patterns with `copy` set, replacement texts, node ids, names of patterns, displaying and releasing a trie.
- Memory: allocation never fails; that the nodes of a trie come from a pool is not part of the model of the trie.
- Positions and sizes of the string matcher are unbounded integers; size_t wrap-around of positions is not modelled.
- Reading the configuration from XML and the table of devices: the configuration is a value with lists of keys, items and indices.
- Packet input and output, threads, rings, the DDoS window, log files and the callbacks of flow_ua, which are foreign calls or glue.
- Iteration macros of the list header and list_sort, which is declared only.

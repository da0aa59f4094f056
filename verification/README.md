# A verified model of the tile-streaming client, its HPACK table generator and its push server

The repository holds an HTTP/2 client that downloads tiled, layered video, the server that pushes segments to it,
and the generator scripts of the client's HTTP/2 library. This project models the parts whose correctness is not
visible in one function body, and proves them for all inputs and for every run.

| file | part of the system |
|---|---|
| `HuffmanTree.dfy` | the binary code tree: insertion, independence of the order, completeness |
| `HuffmanTable.dfy` | numbering the tree and compiling it to a table that reads four bits at a time |
| `HuffmanCodec.dfy` | the table run against the bit-by-bit decoder, and encoding against decoding (section 5.2 of RFC 7541) |
| `HuffmanDecoder.dfy` | the library's decoder, which runs the table on strings that arrive in blocks |
| `HuffmanEncoder.dfy` | the library's encoder, which packs code words into octets with shifts on 32-bit words |
| `HuffmanGenerator.dfy` | the generator itself, on heap nodes that it mutates |
| `Playout.dfy` | the player thread as atomic accesses to its counters |
| `Downloader.dfy` | the decision, stream-close and re-decide steps of the download loop |
| `Streaming.dfy` | every interleaving of player and downloader: invariant and index safety |
| `StreamingRuns.dfy` | guarantees over whole runs: conservation, deadlines, the iteration protocol |
| `StreamingVersions.dfy` | how recorded tile versions evolve, and the order of the layers |
| `StreamingThreshold.dfy` | the exact conditions under which tiles wait for their base layer, and versions only grow |
| `StreamingReads.dfy` | decisions whose readings of the player are spread over time |
| `StreamingChoices.dfy` | what a decision and a re-decision choose, and what becomes of the choice |
| `StreamingHistory.dfy` | what counters, flags and records tell of the events of a run |
| `StreamingRecords.dfy` | what the tables of streams, versions and iterations hold in a run |
| `StreamingDeadlines.dfy` | the deadline of every segment in terms of the stalls |
| `StreamingLimits.dfy` | where playback falls short, and in exactly which configurations |
| `StreamingClient.dfy` | the client's objects, whose methods take those steps in place |
| `StreamingSession.dfy` | the handlers at work: any script of events makes a run of the objects |
| `Trellis.dfy`, `Planner.dfy` | enumeration of bitrate paths, choice of a cheapest one, following it over calls |
| `ServerPush.dfy` | the K-push chain of the server, under any interleaving of the faces |
| `WireFormat.dfy` | decimal numbers, the pushed path and the request path |
| `TokenIndex.dfy` | the generated token lookup, against linear search |
| `PushCount.dfy` | the small optimiser that picks a push count |
| `FrameCount.dfy` | counting whole frames in a stream of chunks |
| `Options.dfy`, `Products.dfy` | an optional value; facts on products of reals |

## What is assumed

Huffman tables. Statements range over an arbitrary code: prefix-free, distinct symbols, Kraft sum 1, no word under four
bits (`CodeBook`); where padding matters, a word for symbol 256 that is all ones and at least eight bits long (`HasEos`).
The table of Appendix B of RFC 7541 is one such code. The Kraft condition is what the generator needs: with a
half-open node its recursions reach a missing child. `CompleteIffKraftOne` and `AssertionNeverFires` show that the
two conditions are exact. `Run` is what the library's decoder does in one final call (`nghttp2_hd_huffman.c`):
it follows `state`, emits `sym` when SYM is set, stops on FAIL, and accepts when the last entry has ACCEPTED, or the input
is empty. `HuffmanDecoder` models the decoder itself, with the context it keeps between calls. The encoder's table is
taken to list the words of the same code, each of at most 32 bits (`Lists`). Its output buffers can always grow.

Playback and download. A poll of the player is a sequence of separate locked accesses; every one of them may interleave
with the download events. The decision function is one step, which reads the buffer level and the playing segment
together, except in `StreamingReads`, where the player moves on between its readings. One poll takes `INTER` of clock
time and no other time passes. A run begins with the initial stream 13. Submitting a request always succeeds (the check
for repeated paths is commented out at `client/src/nghttp.cc:1782-1785`). A data frame belongs to a push promised on a
stream that is still open. The two maps from stream ids are one map to pairs. Tiles are numbered from 1, so the model has
`NO_TILE + 1` version slots per segment where the code has `NO_TILE`. Throughput estimates, visibility masks and the
moment a re-decision is due are inputs of the events.

Planning. `exp` is an arbitrary function, throughput estimates are positive, and every set point pushes at least one
segment. Arithmetic is over integers and reals.

Server. One event happens at a time, and no terminate request is made. Closing streams may happen in any order.

## Results

Huffman tables. `CanonicalCodec` is the main theorem: the generated table accepts an octet string with result `msg`
if and only if the string is the encoder's own output for `msg`; so decoding inverts encoding and each message has one
accepted form. `FailsExactlyOnEos` characterises failure. Both rest on `RunIsWalk`, which says that the 4-bit automaton
and the bit-by-bit decoder agree on every input, and hold for the program through `HuffmanProgram.Generate`.
Encoder and decoder are those of the library: `HuffmanEncoder.Bufs.Encode` shows that the shifts and the held octet
produce exactly the specified encoding, and `BlocksIrrelevant` that the decoder answers the same however a string is cut
into blocks, so that `BlocksCanonical` carries the main theorem over to it. `ReadString` adds that a string's output fits
the buffer the library allocates, even when the string turns out to be bad.

Playback and download. `RunInv` gives an invariant of every reachable state and shows that no event of any run leaves an
array. From it follow conservation of time, the iteration protocol, stream prediction and the deadlines.
Two conditions are exact, for every configuration.
`ThresholdExact`: with three segments or more, and tiles to load, tiles always wait for the base layer of their segment
if and only if `(BASE_BUFF_THRES - 1) * 1000` exceeds the segment duration; with two segments, if and only if
`BASE_BUFF_THRES` is at least 2. `VersionsGrowExactly`: where a version could be overwritten at all, no recorded version
ever goes down if and only if the threshold exceeds a segment in the same sense or is at most one second. In all other
configurations a run that breaks the order, or lowers a version, is constructed. `Session` shows that handling any script
of events is a run, so all this holds of the client's own fields.

What a decision and a re-decision do is exact too. `DecisionExactly` says what is requested: the next base chunk, each
visible tile of the segment after the playing one in the highest version that fits the estimate, or nothing. `RecordsChosen`
follows that choice to the streams that close later, and `VersionsAreLast` says that every recorded version is that of the
last stream closed over its tile. `RedecideExactly` says when a re-decision requests tiles, and which.

The state of a run is the history of its events. The stall time of each segment counts the polls that stalled in it
(`CountersCount`); every deadline, of played and coming segments alike, is the start plus the segment's offset plus the time
stalled up to that segment (`DeadlineExactly`); playback starts, stalls and resumes exactly at the polls of
`ChangesExactly`; the session is terminated exactly when the tiles of the last segment are in (`TerminatedExactly`); the
re-decision flag is set exactly if a re-decision was made, or a retry left it as it was allocated (`FlagExactly`).

Playback falls short in three ways. The player looks at the buffer twice when a segment begins; the segment plays without
being recorded exactly if it finds the buffer empty first and filled then (`RecordedExactly`), which can happen exactly
with three segments or more, in configurations that ask for base chunks (`MissedExactly`). A waiting player goes on only when it reads exactly one segment, so with more
it waits for ever (`OverfullForever`); this state can be reached exactly with three segments or more and a threshold that
exceeds a segment (`OverfullExactly`), which is where tiles always wait for their base layer. And the playback loop never
ends, because the last base chunk is never requested (`PlayoutGuarantees`).

The decision reads the player's segment twice, and the player moves on in between. `SpreadExact` says exactly when that
is safe, from the state in which the decision begins: however its readings are spread, they stay in the arrays unless the
decision turns to tiles with all base chunks in, and the player is before the last segment and can still play on
(`MayEnterLast`). Then the player may enter the last segment between the two readings, and the decision indexes one past
it. By `SpreadSafeExactly` no run comes to that if and only if the video has one segment or the threshold is at most one
second. So the failure is possible in every configuration that plays anything: with more than one segment and a base layer
that is asked for at all, `PastTheEnd` constructs the run, by playing to the last base chunk. Where the player does not
enter the last segment at that moment, spread decisions keep the invariant (`SpreadRunInv`); and if the threshold exceeds
a segment by more than is played between the readings, they keep the order of the layers and the growth of versions too
(`SpreadRunOrdered`, `SpreadVersionsGrow`).

Planning. The trellis holds every path once, in a known order (`TrellisOrder`), so that the one path taken without a
check is known as well (`EndPaths`). `CostInTotals` gives a path's cost by the segments and bits it pushes in all. A call
below the current bitrate takes the next selection of its plan exactly while the buffer stays within 1000 milliseconds of
the predicted level, on either side, and a selection is left; else it takes the first one of a plan made for that call
(`FollowExactly`). `Session` shows this, and the request made, of every call on any inputs.

Server. A request for K segments is served exactly if and only if they lie below `MAX_SEGMENTS` (`ServedExactly`).
The number of closed pushes alone says how far it is (`ServedByCloses`), and it can always be carried to its end
(`Finishes`). A request that reaches beyond that range, or has a negative count, leaves its face marked as pushing with
nothing in flight once it has pushed anything; `FirstRequest` shows this from the initial state for every such count, and
`StuckForever` that later requests on the face are then never answered. A request on a face with a push in flight is taken
over by the response that is running there, at the new rate and count from the next segment on (`BusyByCloses`,
`BusyExactly`), and gets no response of its own. A request on a busy face, one with an incorrect
path, and one for no segments get no answer either; `NeverAnswered` says that these are all.

Push count. The cost function's optimum steps up at three buffer levels (`CountTable`), so it is monotone.

## Model

| member | source | states |
|---|---|---|
| HuffmanTree.AddAt | client/src/mkhufftbl.py:297-310 | what every path of the tree leads to after one insertion, in terms of the tree before it |
| HuffmanTree.BuildAt | client/src/mkhufftbl.py:297-313 | in the tree of a prefix-free code a path exists iff it begins some code word, and carries a symbol iff it is that symbol's whole word |
| HuffmanTree.OrderIndependent | client/src/mkhufftbl.py:399-411 | two listings of the same prefix-free code in any order build the same tree |
| HuffmanTree.BuildCounts | client/src/mkhufftbl.py:297-313 | one leaf per code word, and the weight of the tree is the Kraft sum of the code |
| HuffmanTree.CompleteIffKraftOne | client/src/mkhufftbl.py:315-322 | the tree has no half-open node iff the Kraft sum is 1, and then n words give n-1 inner nodes |
| HuffmanTable.NumberShape | client/src/mkhufftbl.py:315-325 | numbering gives inner nodes consecutive ids in preorder, marks those whose path is all ones of at most seven bits, and advances the counter by the number of inner nodes |
| HuffmanTable.NumberKeeps | client/src/mkhufftbl.py:315-322 | numbering changes neither the paths nor the symbols of the tree |
| HuffmanTable.MarkAt | client/src/mkhufftbl.py:318-319 | a node accepts iff its path is valid padding; leaves have no id |
| HuffmanTable.IdAt | client/src/mkhufftbl.py:292-322 | the node with id k is the k-th inner node in preorder, and only the root has the first id |
| HuffmanTable.IdOrder | client/src/mkhufftbl.py:320-322 | ids grow exactly in the preorder of the paths |
| HuffmanTable.IdOnto | client/src/mkhufftbl.py:292-295 | every id of the range 0..n-2 is used |
| HuffmanTable.TraverseIsWalk | client/src/mkhufftbl.py:327-348 | entry k of a compiled row is where the bits of k, most significant first, lead bit by bit, with the last symbol completed; a completed EOS gives the failing entry |
| HuffmanTable.AssertionNeverFires | client/src/mkhufftbl.py:338-340 | the one-symbol-per-nibble assertion holds at every node iff no code word is shorter than four bits |
| HuffmanTable.OneOutput | client/src/mkhufftbl.py:338-345 | with words of at least four bits, at most one word ends within four bits |
| HuffmanTable.PrintFlags | client/src/mkhufftbl.py:369-387 | SYM, FAIL and ACCEPTED are printed exactly for an emitted symbol, a missing node, and a leaf or accepting node |
| HuffmanTable.RowOfId | client/src/mkhufftbl.py:364-393 | the row printed in position i belongs to the node with id i |
| HuffmanCodec.CellIsWalk | client/src/mkhufftbl.py:350-390 | printed entry k of the row of any inner node describes reading the nibble k bit by bit from that node |
| HuffmanCodec.RunIsWalk | client/src/mkhufftbl.py:350-390 | for every nibble sequence and every start, running the 16-way table fails, emits and accepts exactly as walking the tree bit by bit |
| HuffmanDecoder.EndIsWalk | client/src/lib/nghttp2_hd_huffman.c:206-227 | for every nibble sequence that does not complete EOS the run ends in the row of the node where the bit-by-bit walk ends, a finished word being the root |
| HuffmanCodec.BookCompiles | client/src/mkhufftbl.py:395-414 | the tree of a code book is complete, numbered and marked, and its leaves are exactly the words of the book |
| HuffmanCodec.WalkDecomposes | client/src/mkhufftbl.py:327-348 | every walk reads the words of the symbols it emits, one after another, and ends on a proper part of a word |
| HuffmanCodec.RoundTrip | client/src/mkhufftbl.py:357-414 | any message over the symbols other than EOS, encoded and padded with fewer than eight one-bits, decodes to itself and is accepted |
| HuffmanCodec.Converse | client/src/mkhufftbl.py:315-386 | an accepted input is the encoding of what was emitted followed by at most seven one-bits |
| HuffmanCodec.CanonicalCodec | client/src/mkhufftbl.py:315-393 | the table accepts an octet string with a message iff the string is the encoding of that message |
| HuffmanCodec.FailsExactlyOnEos | client/src/mkhufftbl.py:328-333 | the table fails iff the input is a message followed by the EOS word and anything after it, within the same nibble or later |
| HuffmanCodec.UnpackPack | client/src/mkhufftbl.py:339-348 | bits packed into octets and read as nibbles come back |
| HuffmanCodec.PackUnpack | client/src/mkhufftbl.py:339-348 | octets read as bits and packed again come back |
| HuffmanCodec.SameTable | client/src/mkhufftbl.py:399-414 | books listing the same code in any order give the same table |
| HuffmanCodec.CellsFitOctets | client/src/mkhufftbl.py:440-446 | with at most 257 words over the symbols 0..256 there is one row fewer than words, every state and symbol fits an octet, and failing entries print zeros |
| HuffmanDecoder.RunSplit | client/src/lib/nghttp2_hd_huffman.c:206-231 | a run over an input in two parts is a run over the first, and from its end state and acceptance over the second |
| HuffmanDecoder.BlocksIrrelevant | client/src/lib/nghttp2_hd_huffman.c:198-231 | calls on the blocks of a string, the last one final, give what one final call on the whole string gives: symbols, context and error |
| HuffmanDecoder.BlocksCanonical | client/src/lib/nghttp2_hd_huffman.c:193-231 | fed in any blocks from a fresh context, a string is accepted with a message iff it is the encoding of that message |
| HuffmanDecoder.Decoder.Decode | client/src/lib/nghttp2_hd_huffman.c:198-231 | the loop over the octets answers as the run of the table does, and on an error has still written exactly what was emitted before it |
| HuffmanDecoder.Inflater.ReadHuff | client/src/lib/nghttp2_hd.c:1670-1688 | a reading of the input is one call on what the string still lacks, final iff the input covers it, and counts down what was read |
| HuffmanDecoder.ReadString | client/src/lib/nghttp2_hd.c:2003-2037 | a string of known length read from any blocks is what one final call on its octets gives, bad or asking for more otherwise, and never writes more than twice its length |
| HuffmanEncoder.Bufs.EncodeSym | client/src/lib/nghttp2_hd_huffman.c:40-139 | whatever is free of the held octet, the bits written so far are followed by exactly the bits of the word, and the result says how many bits of the last octet are free |
| HuffmanEncoder.Bufs.Pad | client/src/lib/nghttp2_hd_huffman.c:178-188 | the rest of the last octet is filled with ones |
| HuffmanEncoder.Bufs.Encode | client/src/lib/nghttp2_hd_huffman.c:152-191 | the encoder appends exactly the encoding of its input that the theorems on decoding are about |
| HuffmanEncoder.EncodeCount | client/src/lib/nghttp2_hd_huffman.c:141-150 | the count is the number of octets that the encoder writes |
| HuffmanGenerator.Add | client/src/mkhufftbl.py:297-310 | insertion into the heap tree makes it the tree with the word added, creating only the missing nodes |
| HuffmanGenerator.SetNodeId | client/src/mkhufftbl.py:315-322 | the heap tree becomes the numbered tree, and the context's counter ends where numbering ends |
| HuffmanGenerator.Traverse | client/src/mkhufftbl.py:327-348 | the transitions appended to the start node are the compiled entries, in order |
| HuffmanGenerator.BuildTransitionTable | client/src/mkhufftbl.py:350-355 | every node below holds its compiled entries, and no other list is touched |
| HuffmanGenerator.PrintTransitionTable | client/src/mkhufftbl.py:364-390 | the printed rows are the rows of the tree in order |
| HuffmanProgram.ReadCodes | client/src/mkhufftbl.py:396-411 | the lines inserted one by one give the tree of the code |
| HuffmanProgram.Generate | client/src/mkhufftbl.py:395-451 | the program prints exactly the table that the theorems above are about |
| Playout.PlayerStepInv | client/src/duc_metric.h:292-354 | every access of the player keeps conservation, the grid, the position, the records and the deadlines, and indexes its arrays in range |
| Playout.ReceiveInv | client/src/duc_metric.h:357-361 | an arriving base chunk keeps them too, at whatever access the player is |
| StreamingRuns.DeadlinesNeverEarlier | client/src/duc_metric.h:309-348 | over any stretch of a run after playback has started, no deadline moves earlier |
| Playout.DeadlinesOnlyLater | client/src/duc_metric.h:309-348 | once set, no access of the player moves a deadline earlier |
| Playout.PlayingBound | client/src/duc_metric.h:387-392 | the playing segment is one of the segments received so far, or the one after them |
| Downloader.VisibleSorted | client/src/duc_metric.h:50-58 | the visible tiles are listed in strictly ascending order, numbered from 1 |
| Downloader.VisibleMembers | client/src/duc_metric.h:54-56 | a tile number is listed iff the mask marks the tile |
| Downloader.SetDifferenceMembers | client/src/nghttp.cc:2387-2391 | the one-pass difference of two sorted lists holds exactly the members of the first that are not in the second |
| Downloader.SetDifferenceSorted | client/src/nghttp.cc:2390-2391 | it stays strictly sorted |
| Downloader.Pick | client/src/nghttp.cc:3031-3035 | the version count is that of the longest run of leading versions within the limit |
| Streaming.InitInv | client/src/nghttp.cc:3379-3386 | the invariant holds before the first event |
| Streaming.DecisionInv | client/src/nghttp.cc:2980-3103 | a decision keeps the iteration protocol: fresh ids, one map entry per request, as many open streams as requests |
| Streaming.CloseInv | client/src/nghttp.cc:3401-3435 | so does a closing stream: open streams remain the unfinished requests, and the last one ends the iteration |
| Streaming.FinishInv | client/src/nghttp.cc:3435-3463 | so does the end of an iteration: the index counts the base chunks and tile segments completed |
| Streaming.RedecideAdds | client/src/nghttp.cc:2377-2423 | a re-decision adds tiles that are visible and not yet requested, in order, with fresh ids, and sets the request count to all tiles listed |
| Streaming.RedecideExactly | client/src/nghttp.cc:2377-2423 | with n tiles visible now and not in the list, a re-decision requests all of them, each on a new open stream, iff the lowest version of n tiles fits the bits that can still be received, and none otherwise; the request count is the length of the new list |
| StreamingChoices.DecisionExactly | client/src/nghttp.cc:2980-3103 | exactly when and what a decision requests: the next base chunk if one is left and the buffer is below the threshold; else each visible tile of the segment after the playing one, if it was not loaded and the lowest version fits, in the highest version that fits; else nothing; and when it returns for good |
| StreamingChoices.VersionStands | client/src/nghttp.cc:2980-3463 | while an iteration lasts, whatever happens, its version, its segment and its kind stand |
| StreamingChoices.RecordsChosen | client/src/nghttp.cc:3401-3426 | a stream closing any time later in the iteration records the version that its decision chose, for the chunk that was due when it decided |
| StreamingChoices.FirstExactly | client/src/nghttp.cc:3076-3103 | the adaptation knows whether it was entered anew or retries |
| StreamingChoices.FlagExactly | client/src/nghttp.cc:2378-2381 | in an iteration the re-decision is spent iff one was made, or the iteration began on a retry, which does not reset the flag, and the flag was allocated set |
| Streaming.RedecideInv | client/src/nghttp.cc:2377-2423 | and keeps the iteration protocol in the middle of an iteration |
| Streaming.StepInv | client/src/nghttp.cc:2980-3463 | every event that can happen is safe and keeps the invariant of player and downloader |
| StreamingRuns.RunInv | client/src/nghttp.cc:2980-3463 | in every run, under every interleaving, all states satisfy the invariant and no event leaves an array or a map |
| StreamingRuns.PlayoutGuarantees | client/src/duc_metric.h:292-400 | buffered plus played time, plus the slot between the two updates, is the segment duration times the base chunks received; the buffer is never negative; waiting and stalling happen at whole segments; the playing segment stays below the number of segments |
| StreamingRuns.ScheduleGuarantee | client/src/duc_metric.h:309-348 | at every loop head in playback the deadline of each coming segment is the start plus its offset plus all stall time, and every poll was one of wait, play or stall except the one that starts playback, whose interval is counted apart |
| StreamingRuns.ProtocolGuarantees | client/src/nghttp.cc:2967-3463 | the predicted stream id is the one the session assigns, streams and chunks determine each other, open streams are requests minus finished ones, and the iteration index stays below twice the number of segments |
| StreamingRuns.RedecidesOnce | client/src/nghttp.cc:2378-2381 | two re-decisions of a run belong to different iterations |
| StreamingHistory.CountersCount | client/src/duc_metric.h:292-354 | in every reachable state the stall time of each segment is one interval for each poll that stalled in that very segment, and likewise the wait, the play time and the clock |
| StreamingHistory.ChangesExactly | client/src/duc_metric.h:295-341 | one access starts, stops or resumes playback iff it reads exactly one buffered segment, an empty buffer at the end of a slot, or exactly one buffered segment again |
| StreamingHistory.StartsExactly | client/src/duc_metric.h:297-299 | playback has started iff some poll found exactly one segment buffered |
| StreamingHistory.RecordedExactly | client/src/duc_metric.h:324-345 | a segment the player has come past is recorded iff it was not missed, that is unless the buffer was empty at the first look of its start and filled at the second |
| StreamingHistory.DoneExactly | client/src/nghttp.cc:3435-3463 | the tiles of a segment are marked as loaded iff an iteration for them has ended, and the session was terminated iff one for the last segment has |
| StreamingHistory.TerminatedExactly | client/src/nghttp.cc:3458-3459 | in every reachable state the session is terminated iff the tiles of the last segment are in |
| StreamingRecords.StreamsExactly | client/src/nghttp.cc:2967-3075 | in every reachable state the mapped streams are exactly the odd ids from 15 to the last one assigned, and the open ones those of them that no event closed |
| StreamingRecords.TargetsStand | client/src/nghttp.cc:3066-3075 | what a stream was requested for stands for the rest of the run, beyond its close |
| StreamingRecords.VersionsAreLast | client/src/duc_metric.h:226-236 | in every reachable state the recorded version of a tile is that of the iteration in which a stream covering it was last closed, or none |
| StreamingRecords.PastStands | client/src/nghttp.cc:3435-3463 | the tiles and the version of an iteration that is over never change |
| StreamingDeadlines.DeadlineExactly | client/src/duc_metric.h:309-348 | in every reachable state after the start the deadline of each segment, played or not, is the start plus its offset plus the time stalled in the segments up to it, where a stall in progress does not count yet |
| StreamingLimits.MissRun | client/src/duc_metric.h:324-332 | with three segments or more and base chunks asked for, a run in which a segment plays unrecorded |
| StreamingLimits.MissedExactly | client/src/duc_metric.h:324-332 | for every configuration, no segment is missed in any run iff there are at most two segments or no base chunk is asked for |
| StreamingLimits.OverfullForever | client/src/duc_metric.h:297-345 | a player that waits with more than one segment buffered waits for the rest of the run |
| StreamingLimits.OverfullRun | client/src/duc_metric.h:297-345 | with three segments or more and a threshold that exceeds a segment, a run to such a state |
| StreamingLimits.OverfullExactly | client/src/duc_metric.h:297-345 | for every configuration, no run comes to such a state iff there are at most two segments or the threshold does not exceed a segment |
| StreamingVersions.StepKept | client/src/nghttp.cc:3401-3435 | every event keeps the order of versions, and lowers none unless a base chunk arrives over a recorded tile |
| StreamingVersions.RunOrdered | client/src/nghttp.cc:2989-3023 | with the threshold, tiles of a segment before the last are only loaded once its base chunk has been received, and nothing is recorded of it before |
| StreamingVersions.QuietAfterTermination | client/src/nghttp.cc:3458-3463 | with the threshold, nothing is requested after the session was terminated, which `StreamingHistory.TerminatedExactly` dates |
| StreamingThreshold.ThresholdExact | client/src/nghttp.cc:2989-3023 | for every configuration, tiles wait for their base layer in all runs iff the threshold less one second exceeds a segment, or the video has at most two segments or no tiles to load and the first base chunk is asked for |
| StreamingThreshold.PrematureRun | client/src/nghttp.cc:2989-3023 | in every other configuration, a run that loads tiles before their base layer |
| StreamingThreshold.VersionsOnlyGrow | client/src/duc_metric.h:226-236 | with the threshold, no recorded tile version ever goes down in a run |
| StreamingThreshold.VersionsGrowExactly | client/src/nghttp.cc:2989-3023 | for every configuration, versions only grow in all runs iff the threshold exceeds a segment or never asks for a base chunk, or there are at most two segments, at most one tile or no tile version |
| StreamingThreshold.FallingRun | client/src/duc_metric.h:226-236 | in every other configuration, a run in which a base chunk overwrites a recorded tile version |
| StreamingReads.SpreadExact | client/src/nghttp.cc:2989-3023 | from the state in which a decision begins: it stays in the arrays for all spreads of its readings iff it asks for a base chunk, or lacks one, or the player is in the last segment, or cannot play on |
| StreamingReads.SpreadSafeExactly | client/src/nghttp.cc:3016-3023 | for every valid configuration, all spread decisions of all runs stay in the arrays iff there is a single segment or the threshold never asks for a base chunk |
| StreamingReads.PastTheEnd | client/src/nghttp.cc:3016-3023 | in every other configuration, a run to a decision under which the player may enter the last segment |
| StreamingReads.SpreadDecision | client/src/nghttp.cc:2989-3023 | for given readings: the decision stays in the arrays iff it asks for a base chunk or the player does not enter the last segment between the two readings of its segment, and then keeps the invariant |
| StreamingReads.SpreadRunInv | client/src/nghttp.cc:2980-3463 | the invariant holds in all runs whose spread decisions are of that kind |
| StreamingReads.SpreadRunOrdered | client/src/nghttp.cc:2989-3023 | in such a run, if the threshold less one second exceeds a segment by more than is played between the readings of any decision, tiles wait for their base layer and no step lowers a version |
| StreamingReads.SpreadVersionsGrow | client/src/duc_metric.h:226-236 | nor is a version lower in any later state of such a run |
| StreamingClient.Buffer.UpdateTileVersion | client/src/duc_metric.h:226-236 | the row of the segment changes as a base or tile version demands, and no other row |
| StreamingClient.PlayerThread.Poll | client/src/duc_metric.h:292-354 | one access of the player object is one step of the player, on all fields and arrays; `StreamingHistory` and `StreamingDeadlines` say what the steps add up to, per segment |
| StreamingClient.GetVisibleTile | client/src/duc_metric.h:50-58 | the loop lists the visible tiles |
| StreamingClient.FindVersion | client/src/nghttp.cc:3032-3035 | the loop with its break finds the version count |
| StreamingClient.Client.RequestTiles | client/src/nghttp.cc:3058-3075 | one request per tile in order, each mapped and recorded |
| StreamingClient.Client.Adapt | client/src/nghttp.cc:2980-3103 | the adaptation method makes exactly the decision step, on all fields |
| StreamingClient.Client.OnStreamClose | client/src/nghttp.cc:3401-3435 | the close callback is the close step |
| StreamingClient.Client.EndIteration | client/src/nghttp.cc:3435-3463 | the rest of it is the end step, which terminates the session after the last tiles (`StreamingHistory.DoneExactly`), and the player receives the base chunk exactly when one arrived |
| StreamingClient.Client.OnDataFrame | client/src/nghttp.cc:2377-2423 | the re-decide block is the re-decide step, whose requests `Streaming.RedecideExactly` decides |
| StreamingClient.Client.Can | client/src/nghttp.cc:3388-3435 | the test on the fields decides whether an event can happen |
| StreamingClient.Client.Do | client/src/nghttp.cc:2980-3463 | from the invariant, the handler of any event that can happen has what it needs, and takes player and client together through exactly one step |
| StreamingClient.Connect | client/src/nghttp.cc:3379-3386 | new objects are an initial state |
| StreamingSession.Handle | client/src/nghttp.cc:3366-3463 | one event extends the run by one step of the objects iff it can happen, and changes nothing if not |
| StreamingSession.Session | client/src/nghttp.cc:3366-3463 | handling any script of events from there is a run; so in the objects' own fields the buffer is never negative, the indices stay in range, open streams are the unfinished requests, stall and play times count their polls, the session is terminated iff the last tiles are in, and under the exact condition no recorded version is below any earlier one |
| Trellis.BuildTrellis | client/src/backup/K_push.cpp:111-161 | the two nested loops build the trellis, later extensions first |
| Trellis.TrellisExact | client/src/backup/K_push.cpp:111-161 | the trellis holds exactly the sequences of n set points, c^n of them, each once when the set points are distinct |
| Trellis.TrellisOrder | client/src/backup/K_push.cpp:111-161 | each round of extensions lists the paths in the reverse of the order of its two loops |
| Trellis.EndPaths | client/src/backup/K_push.cpp:111-161 | the first path, which may be taken unchecked, and the last one: they alternate between the first and the last set point |
| Trellis.CheckOrder | client/src/backup/K_push.cpp:2279-2313 | the two passes answer true iff the current bitrate followed by the path never turns |
| Trellis.GetOverallCost | client/src/backup/K_push.cpp:2314-2348 | the loop computes the cost of a path: the sentinel unless it reaches the target and keeps the buffer, else the weighted sum over the whole path |
| Trellis.MaxJumpIsLargest | client/src/backup/K_push.cpp:2327-2337 | no change of version along the path, up or down, is larger than the jump that enters the cost, and one of them is as large unless all are zero |
| Trellis.CostInTotals | client/src/backup/K_push.cpp:2314-2348 | the cost by what the path pushes in all: the sentinel if it misses the target or leaves less than the minimum buffer, else ten times its requests per segment, 13.5 times its jump, and 0.08 times the exponential of the distance to the optimal buffer |
| Trellis.GetBestPath | client/src/backup/K_push.cpp:2349-2367 | the result is the first of the cheapest among the first path and the monotone ones |
| Trellis.BestIsFeasible | client/src/backup/K_push.cpp:2314-2367 | if any monotone path costs less than the sentinel, the result ends at the target bitrate and passes the cost function's buffer guard |
| Trellis.ComputeMaxAdaptedRate | client/src/backup/K_push.cpp:2373-2384 | the highest rate below the throughput, or the lowest rate when there is none |
| Planner.CallBuffFlowPath | client/src/backup/K_push.cpp:2264-2276 | the buffer levels along the path, one more than its selections |
| Planner.FlowInTotals | client/src/backup/K_push.cpp:2264-2276 | each level is the first one plus the duration of what was pushed since less the time that took |
| Planner.PlannedCost | client/src/backup/K_push.cpp:2314-2348 | the readings of a call enter the cost of a plan each in its own place |
| Planner.DeviatesExactly | client/src/backup/K_push.cpp:2547 | the buffer deviates iff it is more than 1000 milliseconds below the predicted level or more than that above it |
| Planner.FollowExactly | client/src/backup/K_push.cpp:2542-2585 | a call below the current bitrate takes the next selection iff the buffer is within that band and one is left; else the first selection of a cheapest plan to the highest affordable rate from this call's readings |
| Planner.PlanStepInv | client/src/backup/K_push.cpp:2539-2613 | every call keeps the buffer list one longer than the path and the index within it |
| Planner.CallsFollowPlan | client/src/backup/K_push.cpp:2539-2613 | over any calls no access is out of range, the bitrates chosen since a replan are the first of the path in order, and unless it is the unchecked first path they run in one direction from the bitrate it was made at |
| Planner.Seamless.Replan | client/src/backup/K_push.cpp:2547-2556 | the new plan is a best path to the highest affordable rate, with its buffer levels, at its start |
| Planner.Seamless.FollowPlan | client/src/backup/K_push.cpp:2542-2585 | the plan goes one selection forward, after a replan iff there is none, the buffer deviates, or it is used up; `Planner.FollowExactly` gives the band in numbers |
| Planner.Seamless.RaisePushCount | client/src/backup/K_push.cpp:2597-2604 | the smallest push count from 2 on that refills the buffer to its target, capped |
| Planner.PushCountExactly | client/src/backup/K_push.cpp:2597-2604 | that count in numbers: the first from 2 on for which the segments pushed, times throughput less bitrate, make up for what the buffer lacks; the maximum if the throughput is not above the bitrate |
| Planner.Mixed | client/src/backup/K_push.cpp:2502-2512 | the estimate while the throughput covers the bitrate is the smaller of the two |
| Planner.Seamless.Recover | client/src/backup/K_push.cpp:2586-2613 | the plan is dropped; below the buffer target the bitrate is kept, else the highest affordable rate is taken |
| Planner.Session | client/src/backup/K_push.cpp:2514-2615 | calls on any inputs are planning steps, and the request of each is the one due: to rebuffer with a low buffer, for four segments at the highest affordable rate the first time, for the selection just taken from the plan below the current bitrate, and else for the bitrate and count that refill the buffer; the object's index stays within its plan |
| Planner.Seamless.SeamlessMethod | client/src/backup/K_push.cpp:2514-2615 | every call is one planning step, and what it requests in each of its branches |
| ServerPush.EveryRun | server/src/server.cpp:59-163 | in every run, responses push consecutive segments, are ended at most once and never with a push in flight, and a face has at most one push in flight |
| ServerPush.Serve | server/src/server.cpp:59-163 | after a request on an idle face, and any other events, pushes made plus the face's counter make K, in order from the start, one in flight until the response is ended once |
| ServerPush.ServedExactly | server/src/server.cpp:59-111 | when nothing of the face is in flight, exactly K segments were pushed and the face is idle iff the K segments lie below the maximum; otherwise the pushes stop there and the face stays marked |
| ServerPush.ServedByCloses | server/src/server.cpp:59-111 | under any interleaving, after j closes of its pushes a request has pushed j+1 segments up to all it will push; the last of these closes, and no other, ends the response and leaves nothing in flight |
| ServerPush.RequestStored | server/src/server.cpp:131-137 | after a parseable request on any face, busy or not, the face has its rate, and its count less what was pushed at once; on a busy face exactly its count |
| ServerPush.JobByCloses | server/src/server.cpp:59-111 | the number of closes alone says how far any chain is, whether a request began it or took it over |
| ServerPush.BusyByCloses | server/src/server.cpp:109-137 | with segment s in flight, after j closes the running response has, behind what it had pushed, segments s+1 to s+j at the new rate, up to all that are asked for and exist; the close after those ends it; the request's own response gets nothing |
| ServerPush.BusyExactly | server/src/server.cpp:59-137 | when nothing is in flight there, exactly s+1 to s+k were added and the face is idle iff they lie below the maximum; otherwise the pushes stop there and the face stays marked |
| ServerPush.Finishes | server/src/server.cpp:75-94 | every request on an idle face can be carried to the point where nothing is in flight, by closes alone |
| ServerPush.FirstRequest | server/src/server.cpp:59-111 | from the initial state, some run leaves the face of the first request marked with nothing in flight iff its count is negative or reaches past the maximum |
| ServerPush.ClientReads | server/src/server.cpp:73 | the client reads from every pushed path the segment, the face and the requested rate |
| ServerPush.RoundStart | server/src/server.cpp:75-117 | after a close, all requests up to the next close start at the same segment: the one after the closed segment, or that segment again after an error in a round already begun |
| ServerPush.NeverAnswered | server/src/server.cpp:114-163 | a request is never answered, in any run, iff its path is incorrect, its face is pushing, or it asks for no segment below the maximum |
| ServerPush.StuckForever | server/src/server.cpp:59-111 | a face marked as pushing with nothing in flight stays so, and all later requests on it go unanswered |
| ServerPush.PushServer.PushRemainingFiles | server/src/server.cpp:59-100 | the method makes exactly the push step on the shared arrays and the response |
| ServerPush.PushServer.OnClose | server/src/server.cpp:75-94 | the close callback makes exactly the close step |
| ServerPush.PushServer.OnRequest | server/src/server.cpp:114-163 | the handler makes exactly the request step, whose effect on a busy face is `ServerPush.RequestStored` |
| ServerPush.Session | server/src/server.cpp:114-163 | any script of parseable requests and closes takes the server object through a run; its responses push consecutive segments and are ended at most once, and its faces have at most one push in flight |
| WireFormat.ReadPrinted | client/src/nghttp.cc:825-853 | reading a printed number, whatever non-digit follows, gives it back exactly when it fits an int |
| WireFormat.PrintedPlainly | client/src/nghttp.cc:2972 | a number is printed without leading zeros |
| WireFormat.ReadNumber | client/src/nghttp.cc:825-853 | spaces and leading zeros before a number do not count, nor does what follows its digits |
| WireFormat.ReadSigned | client/src/nghttp.cc:825-853 | nor with either sign, of which a minus negates |
| WireFormat.ReadNothing | client/src/nghttp.cc:825-853 | every other text throws |
| WireFormat.SplitCount | server/src/server.cpp:120-123 | a text has one piece more than separators |
| WireFormat.SplitJoin | server/src/server_6f_2x2_v2.cpp:241-249 | splitting joined parts gives the parts |
| WireFormat.JoinSplit | server/src/server_6f_2x2_v2.cpp:241-249 | joining split pieces gives the text, and no piece holds the separator |
| WireFormat.UriPieces | client/src/nghttp.cc:825-853 | what the three readers take from any text: the number in the piece after the first underscore, after the third, and after the last, with the last piece standing in for missing ones |
| WireFormat.PushedText | server/src/server.cpp:73 | the text of a pushed path |
| WireFormat.PushedSegFace | client/src/nghttp.cc:825-832 | segment and face of a pushed path come back for every rate text |
| WireFormat.RateFromUri | client/src/nghttp.cc:839-853 | the three cuts leave the rate, read up to the next underscore |
| WireFormat.PushedRate | client/src/nghttp.cc:839-853 | for every rate text, the rate of a pushed path is read from that text up to its first underscore |
| WireFormat.PushRoundTrip | server/src/server.cpp:73 | segment, rate and face of a pushed path come back exactly when they fit an int |
| WireFormat.ParseRequest | server/src/server_6f_2x2_v2.cpp:241-254 | the refilled vectors give the fields, or the complaint exactly when there are not four parts |
| WireFormat.RequestText | client/src/nghttp.cc:2972 | the text of a request path |
| WireFormat.IncorrectExactly | server/src/server.cpp:120-124 | a path is incorrect iff it has not exactly three slashes |
| WireFormat.AskParts | server/src/server.cpp:129-137 | the push server takes from any four parts the text and the number behind the first equals signs of the last two, and fails iff one has none, or no number |
| WireFormat.RequestRoundTrip | client/src/nghttp.cc:2972 | the client's request path is read by the server as its face, rate and count, exactly when they fit |
| WireFormat.AskRoundTrip | server/src/server.cpp:120-138 | the push server reads it as the rate's text and the count |
| TokenIndex.MatchingMembers | client/src/genlibtokenlookup.py:81-94 | the list under a length and a last character holds exactly the names that have both |
| TokenIndex.MatchingCounts | client/src/gentokenlookup.py:12-24 | each of them once when repetitions are dropped, else as often as it is in the list |
| TokenIndex.BuildHeader | client/src/genlibtokenlookup.py:81-94 | the nested index is filled with these lists; an empty name raises |
| TokenIndex.EmitLookup | client/src/gentokenlookup.py:40-62 | the emitted cases list every length, character and name of the index, each case once, in ascending order |
| TokenIndex.LookupIsSearch | client/src/genlibtokenlookup.py:108-136 | for any names and any input, with or without repetitions and in any order of the cases, the emitted lookup is linear search: it returns a token iff the input is a listed name with that token, and fails iff it is not listed |
| TokenIndex.GenIndexHeader | client/src/gentokenlookup.py:36-64 | the generator's code, in ascending order, answers every input with the token that linear search gives |
| TokenIndex.PrecedesExactly | client/src/gentokenlookup.py:40-62 | the ascending order is that of the first different characters, a beginning coming first |
| TokenIndex.TokenSpelled | client/src/gentokenlookup.py:3-10 | a token is the prefix, an underscore and the name in upper case with underscores for colons and hyphens, character by character |
| TokenIndex.ToEnum | client/src/gentokenlookup.py:3-10 | the loop spells the token character by character |
| TokenIndex.SameToken | client/src/genlibtokenlookup.py:72-79 | two names share a token iff they differ only in case and in which of colon, hyphen and underscore they use |
| PushCount.DecideNextN | client/src/backup/Kpush_noBuffering.cpp:2160-2178 | the loop finds the first minimiser of the cost over 1..4, and 1 at or below the low mark |
| PushCount.CountTable | client/src/backup/Kpush_noBuffering.cpp:2160-2178 | the count at every buffer level: it steps up after 26333, 29000 and 33000 milliseconds and nowhere else |
| PushCount.CountMonotone | client/src/backup/Kpush_noBuffering.cpp:2160-2178 | the count never falls as the buffer level grows, across the low mark too |
| FrameCount.Client.OnDataChunk | client/src/nghttp.cc:2047-2058 | a chunk adds its frames and carry to its own tile, on the arrays |
| FrameCount.FramesOfBytes | client/src/nghttp.cc:2047-2058 | after any chunks each tile gained the whole frames in its carry and bytes, and carries the rest, less than a frame |
| FrameCount.ChunkingIrrelevant | client/src/nghttp.cc:2047-2058 | the counts depend only on the bytes per tile, not on how they are cut or mixed |

## Left out

- Sockets, TLS, the event loop, HTTP upgrade, HTML parsing, HAR output, options, logging and file loading.
- The HTTP/2 session beyond the counter of stream ids and the set of open streams.
- HuffmanEncoder.Bufs.Encode: the chain of buffers is one sequence that can always grow, so running out of memory, and the
  counter of free space that chooses between two paths writing the same octets, are not modelled.
- The printed tables in the library's data file, which are what the generator prints for the code of RFC 7541.
- The parsing of the code table's text and the table of code words that the generator also prints: the model starts from
  the symbols and bit strings of the lines.
- Liveness beyond this: stalls need not end (`StreamingLimits.OverfullRun`), and the playback loop never does; it is not
  claimed that streams close.
- StreamingThreshold.ThresholdExact: the exact condition is on decisions that read the player at one moment; for decisions
  spread over time `StreamingReads.SpreadRunOrdered` gives a sufficient one.
- StreamingThreshold.VersionsGrowExactly: speaks of the versions recorded on arrival. A re-decision requests its new tiles at a
  version chosen anew, while the recorded version is the iteration's (client/src/nghttp.cc:2404, 3425); the model records
  what the code records.
- Tile quality averages and the metrics written to logs.
- Trellis.GetOverallCost: the guard is stated in the cost function's own buffer quantity; it is not equated with the
  buffer flow of the plan, which adds up with the opposite sign (client/src/backup/K_push.cpp:2272, 2325).
- Planner.Seamless.SeamlessMethod: the buffer level set to zero on rebuffering is an input of the next call.
- The construction of the set points, and the trellis file the program loads in place of building the trellis.
- ServerPush.PushServer.OnRequest: a path whose parts lack a separator or a number is outside its precondition, because
  there the handler reads past a vector or throws. The timer never fires and is not modelled.
- Terminate requests, data races between the server's threads, and wrap-around of its counters.
- The emitted C text of the token lookup, which is represented by its cases, and case-insensitive comparison.
- FrameCount.Client.OnDataChunk: floating-point rounding and the limits of `int` are not modelled.
- The older clients, the six-face logic, the character-table and cipher scripts and the documentation scripts.

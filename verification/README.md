# A verified model of FactCast's compressor and client protocols

This project models the parts of FactCast where an error would be hard to see from outside, and proves what they are
for:

- the DEFLATE compressor of the documentation site (`deflate.js`): hash chains and matching, tokens, Huffman trees,
  block headers, the bit buffer and the output queue, up to the whole of `deflate`, against a decoder written from
  RFC 1951 (module `Rfc1951`);
- optimistic locking (`WithOptimisticLock`, `Locked`, `AbstractFactStore`), with the steps of other clients between any
  two steps of one;
- the projector (`ProjectorImpl`, `TransactionBehavior`): what others see of a projection when handlers, the store or a
  commit fail;
- snapshots (`FactusImpl`, `BatchingFactObserver`): fetching and finding give the replay of the log;
- subscriptions that survive errors (`ResilientGrpcSubscription`, `SubscriptionImpl`);
- publishing with retries (`GrpcFactStore`, `Resilience`).

Code that changes things in place is imperative here too: the window, the trees, the heap, the buffers and the queue are
arrays and linked objects, and the clients are classes. Each method is proved against functions of the values it works
on, and the laws are proved about these functions.

Integers are unbounded. Characters are natural numbers, a window cell that was never written is -1, and a branch on
something outside the program (time, the network, other clients, whether a callback throws) is a choice that may go
either way.

How the modules build on each other, for the compressor: `Bits`, `HuffmanCode` (canonical codes), `Rfc1951` (the
decoder); `OutputQueue`, `BitWriter`; `HuffmanHeap`, `HuffmanForest`, `HuffmanBuild`, `HuffmanStart`, `HuffmanLengths`,
`HuffmanOptimal`, `HuffmanDepth`, `BitLengths`, `LengthLimit`, `CodeStrings`, `TreeBuilder` (`zip_build_tree`),
`HuffmanTies`;
`SymbolCosts`, `TreeHeader`, `TreeSender`, `DynamicHeader`, `CodeTables`, `Tokens`, `BlockBuffer`, `DynamicTree`,
`BlockWriter`, `BlockFormat`, `BlTree`, `DynamicBlock`, `SentBlocks` (what is on record about a block), `BlockTrees`,
`BlockFlush` (`zip_flush_block`); `Hashing`, `Chains`, `Matcher`, `Lz77`, `Deflater`; `SmallBlocks`, `SteepText`,
`TextCode`, `TreeLimits`, `Deflate`. For the clients: `FactLog`,
`Retries` (`Resilience`), and one module for each protocol.

## Model

| member | source | states |
|---|---|---|
| Deflate.Deflate | factcast-site/documentation-docsy/docsy/static/js/deflate.js:1631-1651 | for every string and level and after any earlier runs: the blocks that were sent are on record with their tokens, with the trees built for exactly these tokens and with their costs; their tokens one after the other stand for the low bytes of the string (at levels 1 to 3 with `zip_match_available` set, for its last byte once more); a decoder of RFC 1951 gets exactly these bytes back if and only if no dynamic block went out with a tree that overflowed and the last byte did not go out twice; no tree overflows for a tame input, that is one of at most 13 bytes, or of at most 2580 bytes with d different ones and r places where three bytes repeat, d + r <= 13 and d + 2r <= 15, and it comes back whenever the level is 4 or more or the flag is clear; one or two bytes at levels 1 to 3 with the flag set come back with the last byte doubled; the empty string gives no output |
| Deflate.Outcome | factcast-site/documentation-docsy/docsy/static/js/deflate.js:734-792 | the same as a consequence of what is on record about a run: exactly when the decoder gets the input, and the two families of short inputs for which the record alone decides it |
| Deflate.DoubledByte | factcast-site/documentation-docsy/docsy/static/js/deflate.js:746-749 | on a fresh compressor the string of the single byte 97 at level 1 decodes to two bytes 97 |
| Deflate.LostText | factcast-site/documentation-docsy/docsy/static/js/deflate.js:1631-1651 | a first run on the 511 bytes of `SteepText.Text`, at any level above 3: the decoder rejects the output |
| Deflate.FirstInternal | factcast-site/documentation-docsy/docsy/static/js/deflate.js:763-774 | the first call starts the run on the whole input and at the level that was set, and hands out the first bytes; on an empty input it hands out none and the run is complete |
| Deflate.DeflateInternal | factcast-site/documentation-docsy/docsy/static/js/deflate.js:776-792 | a call after the first hands out at most as many bytes as fit, in order and each once, and none only when the run is complete and everything is handed out; each call makes progress in the input or leaves the output as it is |
| SmallBlocks.LightBlock | factcast-site/documentation-docsy/docsy/static/js/deflate.js:1003-1034 | no tree of a dynamic block overflows if the block has at most 2580 tokens and needs at most 16 literal/length and distance codes together |
| SmallBlocks.TameRun | factcast-site/documentation-docsy/docsy/static/js/deflate.js:1003-1034 | no tree of any block overflows in a run whose tokens stand for a tame input, however they were chosen |
| SmallBlocks.MatchesBound | factcast-site/documentation-docsy/docsy/static/js/deflate.js:1459-1480 | there are at most as many matches as places where three bytes repeat |
| SmallBlocks.ItemsBound | factcast-site/documentation-docsy/docsy/static/js/deflate.js:1213-1256 | a length table with n lengths in use that ends with one of them takes at most 3n code length symbols and one for every 138 lengths |
| SmallBlocks.ShortRunStatic | factcast-site/documentation-docsy/docsy/static/js/deflate.js:1404-1437 | a run for at most three bytes never ends with a stored block |
| TreeLimits.SteepResult | factcast-site/documentation-docsy/docsy/static/js/deflate.js:1021-1034 | whatever is merged first among equals, a frequency table in which every symbol outweighs all that come two places before it, with two more symbols than the limit has bits, overflows |
| TreeLimits.TextLengths | factcast-site/documentation-docsy/docsy/static/js/deflate.js:1003-1034 | for the frequencies of the text there is only one assignment of lengths of least cost that fits the code space, so that its literal tree is known |
| TreeLimits.TextOverflows | factcast-site/documentation-docsy/docsy/static/js/deflate.js:1319-1345 | for any tokens that stand for the text, the run-length symbols of both trees are known, and the tree for these overflows its limit of 7 bits |
| TreeLimits.TextBlock | factcast-site/documentation-docsy/docsy/static/js/deflate.js:1404-1447 | a block for the whole text goes out as a dynamic one, by the estimate that the repaired lengths give |
| TreeLimits.NeverIntact | factcast-site/documentation-docsy/docsy/static/js/deflate.js:1052-1069 | whatever the level and the matching, a run for the text has sent a dynamic block with a tree that overflowed |
| TreeLimits.ShortRun | factcast-site/documentation-docsy/docsy/static/js/deflate.js:1488-1511 | a block before the last one has 4096 tokens at least, so that a shorter input is one block |
| HuffmanDepth.OverflowIsHeavy | factcast-site/documentation-docsy/docsy/static/js/deflate.js:1003-1034 | a tree overflows only if its frequencies add up to the Fibonacci number of the limit plus 3 at least |
| Deflater.Compressor.DeflateBetter | factcast-site/documentation-docsy/docsy/static/js/deflate.js:637-732 | lazy matching: the tokens of the current block and the blocks sent always stand for the input up to the pending byte, and every match is a true one; the loop goes on until the input is consumed or output is queued |
| Deflater.Compressor.DeflateFast | factcast-site/documentation-docsy/docsy/static/js/deflate.js:559-635 | the same for matching without looking ahead |
| Deflater.Compressor.LazyStep | factcast-site/documentation-docsy/docsy/static/js/deflate.js:639-731 | one step of lazy matching: what the search finds is the longest match among all earlier positions, but for those out of reach and those behind as many positions with the same key as the level looks at, and the closest one of its length; none if the match before is long enough for the level, and none of three bytes that is too far away; then exactly one of match before, byte before and nothing is sent, as the two lengths say, and the block goes out exactly if that made it due |
| Deflater.Compressor.EagerStep | factcast-site/documentation-docsy/docsy/static/js/deflate.js:560-634 | one step without looking ahead: the longest match in the same sense, among the positions that were inserted, and the closest one of its length; it is sent, or else the byte is; which positions are inserted, and that the block goes out exactly if it is due |
| Chains.AllVisited | factcast-site/documentation-docsy/docsy/static/js/deflate.js:435-489 | a search that starts at the head of a chain looks at every string with the key that is in reach and has fewer than n others with the key before it |
| Chains.CloserBefore | factcast-site/documentation-docsy/docsy/static/js/deflate.js:435-489 | it looks at the closer strings first |
| Deflater.Compressor.InitDeflate | factcast-site/documentation-docsy/docsy/static/js/deflate.js:734-756 | a run starts with nothing sent and the window filled; `zip_match_available` survives at levels 1 to 3 and only there |
| Deflater.Compressor.Finish | factcast-site/documentation-docsy/docsy/static/js/deflate.js:785-789 | the pending byte, the last block and the padding: the decoder gets all the tokens stand for, or the input itself after a stored block |
| Matcher.Window.LongestMatch | factcast-site/documentation-docsy/docsy/static/js/deflate.js:414-492 | the match returned is at least as long as the previous one or is a true match in the input that is longer; a longer one starts out of reach or behind as many strings with the key as the level allows; none of its length is closer |
| Matcher.Window.InsertString | factcast-site/documentation-docsy/docsy/static/js/deflate.js:317-324 | the hash chain leads to the latest earlier position that has the key of the string, and to none only if no such position is left in the window; the rolling hash is that of the next string |
| Matcher.Window.FillWindow | factcast-site/documentation-docsy/docsy/static/js/deflate.js:502-551 | the window holds the input at its place, and all chain entries still lead where they did, also when the window slides, which it does exactly when its upper half is nearly used up |
| Matcher.Window.Init | factcast-site/documentation-docsy/docsy/static/js/deflate.js:363-404 | empty chains, the three parameters of the level, the first window of input and the hash of its first two bytes |
| Matcher.Window.ReadBuff | factcast-site/documentation-docsy/docsy/static/js/deflate.js:352-358 | the low bytes of the next characters, as many as there are and fit |
| Chains.NextCandidate | factcast-site/documentation-docsy/docsy/static/js/deflate.js:488-489 | following a chain gives a nearer end, or another earlier position with the same key |
| Chains.SlideKeeps | factcast-site/documentation-docsy/docsy/static/js/deflate.js:522-541 | sliding window, heads and chains by half the window keeps every head and link true: each leads to the latest earlier string with its key |
| Chains.InsertKeepsChains | factcast-site/documentation-docsy/docsy/static/js/deflate.js:317-324 | inserting a string keeps all links true: each leads to the latest earlier string with its key |
| Hashing.HashGivesThird | factcast-site/documentation-docsy/docsy/static/js/deflate.js:317-324 | strings with the same key that agree in two bytes agree in the third |
| Hashing.RolledGivesHash | factcast-site/documentation-docsy/docsy/static/js/deflate.js:317-324 | the rolling hash depends on the last three bytes only |
| Lz77.CoverMatch | factcast-site/documentation-docsy/docsy/static/js/deflate.js:1459-1480 | a true match extends what the tokens stand for by exactly its bytes, overlapping or not |
| BlockWriter.Block.Tally | factcast-site/documentation-docsy/docsy/static/js/deflate.js:1459-1511 | one more token is stored in the buffers and counted in both frequency tables; the block is to be flushed exactly when a buffer is full, or when after a multiple of 4096 tokens, fewer than half of them matches, a byte for each token and the distances in the static code take less than half the input |
| BlockWriter.EstimateIsExact | factcast-site/documentation-docsy/docsy/static/js/deflate.js:1491-1498 | the estimate by frequencies is exactly what the distances of the tokens take in the static code |
| BlockWriter.Block.InitBlock | factcast-site/documentation-docsy/docsy/static/js/deflate.js:932-945 | an empty block: zero frequencies but for one end-of-block |
| BlockWriter.Block.CompressBlock | factcast-site/documentation-docsy/docsy/static/js/deflate.js:1516-1560 | from the three buffers, the bits of exactly the stored tokens and of the end of the block |
| BlockFlush.FlushBlock | factcast-site/documentation-docsy/docsy/static/js/deflate.js:1378-1453 | the block goes out stored exactly if that takes no more bytes than each of the other two forms by their costs, static only if the dynamic form takes as many at least, and dynamic only if it takes fewer; the decoder gets what the tokens stand for, or the stored bytes, and fails exactly after a dynamic block with an overflowed tree; the block is on record and empty afterwards |
| BlockFlush.SendBlock | factcast-site/documentation-docsy/docsy/static/js/deflate.js:1404-1447 | the same choice, what the decoder makes of each form, and its size: a static or sound dynamic block takes exactly the bits that were estimated, and a stored one its bytes and at most five more |
| BlockFlush.StoreBlock | factcast-site/documentation-docsy/docsy/static/js/deflate.js:1414-1437 | a stored block: the header, the length and its complement, and the bytes of the window, which the decoder reads back |
| BlockFlush.SendAllTrees | factcast-site/documentation-docsy/docsy/static/js/deflate.js:1352-1372 | the bits of the three counts, of the code length code in its order, and of both trees |
| BlockTrees.BuildTrees | factcast-site/documentation-docsy/docsy/static/js/deflate.js:1384-1401 | all three trees for the tokens of the block; the estimated length is exactly what header and data would take with lengths that fill the code space, which are those that are sent unless a tree overflowed, and then the decoder can read them; the static length is exact always |
| BlockTrees.BuildBlTree | factcast-site/documentation-docsy/docsy/static/js/deflate.js:1319-1345 | the code length code for the run-length symbols of both trees, with the last code in use in the order of transmission |
| Tokens.ReadBodyBits | factcast-site/documentation-docsy/docsy/static/js/deflate.js:1516-1560 | the decoder reads the bits that `Block.CompressBlock` sends back to what the tokens stand for |
| DynamicHeader.ReadHeader | factcast-site/documentation-docsy/docsy/static/js/deflate.js:1352-1372 | the decoder reads the bits that `SendAllTrees` sends back to exactly the lengths of both trees |
| DynamicBlock.DynamicReads | factcast-site/documentation-docsy/docsy/static/js/deflate.js:1441-1447 | a dynamic block reads back to what its tokens stand for, and is rejected if a tree overflowed |
| DynamicBlock.StaticReads | factcast-site/documentation-docsy/docsy/static/js/deflate.js:1438-1441 | a static block reads back to what its tokens stand for |
| BlockFormat.StoredReads | factcast-site/documentation-docsy/docsy/static/js/deflate.js:1414-1437 | a stored block reads back to its bytes |
| TreeBuilder.BuildTree | factcast-site/documentation-docsy/docsy/static/js/deflate.js:1122-1205 | lengths for exactly the used symbols, two of them at least, within the limit; without overflow they are a complete code of least cost and the stored codes are the canonical ones; the code space is exceeded by half the overflow, which is that of a Huffman tree for the frequencies; the estimate grows by exactly the cost of the symbols with lengths that fill the code space, the ones in the table unless the tree overflowed, and the static estimate by theirs |
| HuffmanStart.CollectUsed | factcast-site/documentation-docsy/docsy/static/js/deflate.js:1134-1143 | the heap holds exactly the used symbols, and `max_code` is the largest one |
| HuffmanStart.ForceTwo | factcast-site/documentation-docsy/docsy/static/js/deflate.js:1150-1158 | two symbols at least are in use, and the estimates do not count those that were forced |
| HuffmanStart.MergeAll | factcast-site/documentation-docsy/docsy/static/js/deflate.js:1164-1196 | the merges give one tree in which each merge took two nodes of least weight |
| HuffmanHeap.PqDownHeap | factcast-site/documentation-docsy/docsy/static/js/deflate.js:953-977 | sifting down restores the heap order and permutes the heap |
| HuffmanBuild.MergeLeast | factcast-site/documentation-docsy/docsy/static/js/deflate.js:1170-1194 | one merge keeps forest, weights, heap and list of nodes consistent |
| HuffmanTies.DepthIsHeight | factcast-site/documentation-docsy/docsy/static/js/deflate.js:1183-1187 | `zip_depth`, which breaks ties, is the height of the subtree for all nodes exactly if no merge takes the higher of two subtrees first |
| HuffmanTies.TooLow | factcast-site/documentation-docsy/docsy/static/js/deflate.js:1183-1187 | for a table with the frequencies 1, 1 and 3, however ties are broken, the root has `zip_depth` 1 and height 2 |
| HuffmanTies.LowRoot | factcast-site/documentation-docsy/docsy/static/js/deflate.js:1122-1196 | the same from a run of the first part of `zip_build_tree` on such a table of 19 symbols |
| HuffmanOptimal.Optimal | factcast-site/documentation-docsy/docsy/static/js/deflate.js:1160-1205 | no assignment of lengths to the used symbols that fits the code space costs less than the depths of the tree |
| HuffmanLengths.KraftExcess | factcast-site/documentation-docsy/docsy/static/js/deflate.js:1003-1034 | the lengths clamped to the limit exceed the code space by half the sum of what was cut off |
| BitLengths.AssignLengths | factcast-site/documentation-docsy/docsy/static/js/deflate.js:1003-1032 | each symbol gets its depth or the limit, with the statistics, the overflow and both estimates exact |
| LengthLimit.RepairCounts | factcast-site/documentation-docsy/docsy/static/js/deflate.js:1038-1050 | moving leaves down until the overflow is used up gives statistics that fill the code space exactly |
| LengthLimit.RecomputeLengths | factcast-site/documentation-docsy/docsy/static/js/deflate.js:1052-1069 | the new lengths go to exactly the symbols in use, as many of each as the repaired statistics say; where one differs from the old length it replaces the frequency, and nothing else changes; the estimate changes by exactly what the new lengths cost more or less |
| CodeStrings.GenCodes | factcast-site/documentation-docsy/docsy/static/js/deflate.js:1080-1112 | every symbol with a length gets the reversed code that the statistics assign to it, and nothing else changes |
| CodeStrings.StoredCodesPrefixFree | factcast-site/documentation-docsy/docsy/static/js/deflate.js:1080-1112 | the codes so stored fit their lengths, and none is a prefix of another |
| CodeStrings.CodesAreCanonical | factcast-site/documentation-docsy/docsy/static/js/deflate.js:1080-1112 | the reversed codes, sent from the low bit on, are the canonical codewords |
| CodeStrings.BiReverse | factcast-site/documentation-docsy/docsy/static/js/deflate.js:1590-1600 | the low bits in reverse order |
| CodeTables.InitTables | factcast-site/documentation-docsy/docsy/static/js/deflate.js:873-923 | the length and distance tables agree with the ranges of RFC 1951, and the static codes are the canonical ones for the fixed lengths |
| TreeSender.ScanTree | factcast-site/documentation-docsy/docsy/static/js/deflate.js:1213-1256 | the frequencies of the run-length symbols of a tree, and the guard behind its lengths |
| TreeSender.SendTree | factcast-site/documentation-docsy/docsy/static/js/deflate.js:1262-1313 | the bits of exactly the symbols that were counted |
| TreeHeader.ItemsExpand | factcast-site/documentation-docsy/docsy/static/js/deflate.js:1262-1313 | the run-length symbols expand to exactly the lengths |
| SymbolCosts.TotalIsStreamCost | factcast-site/documentation-docsy/docsy/static/js/deflate.js:1022-1031 | the cost counted by frequencies is the number of bits of the stream |
| BitWriter.BitSink.SendBits | factcast-site/documentation-docsy/docsy/static/js/deflate.js:1566-1583 | appends exactly the given bits to all that was sent, across the 16-bit buffer |
| BitWriter.BitSink.WindUp | factcast-site/documentation-docsy/docsy/static/js/deflate.js:1605-1613 | pads with zero bits to the byte |
| OutputQueue.Output.PutByte | factcast-site/documentation-docsy/docsy/static/js/deflate.js:291-295 | appends a byte to all that was put, with nothing lost when the buffer is queued, which happens exactly when it is full |
| OutputQueue.Output.PutShort | factcast-site/documentation-docsy/docsy/static/js/deflate.js:298-307 | appends the low 16 bits, low byte first |
| OutputQueue.Output.QOutBuf | factcast-site/documentation-docsy/docsy/static/js/deflate.js:1615-1629 | the output buffer becomes the last of the queue; what is pending stays the same |
| OutputQueue.Output.QCopy | factcast-site/documentation-docsy/docsy/static/js/deflate.js:794-833 | hands out the oldest pending bytes, as many as fit, and touches nothing else; each buffer that it empties goes to the free list |
| OutputQueue.BufferQueue.NewQueue | factcast-site/documentation-docsy/docsy/static/js/deflate.js:263-276 | an empty buffer that is on neither list; the queue stays as it is |
| OutputQueue.BufferQueue.ReuseQueue | factcast-site/documentation-docsy/docsy/static/js/deflate.js:258-261 | the buffer joins the free list |
| OptimisticLock.WithOptimisticLock.Attempt | factcast-core/src/main/java/org/factcast/core/lock/WithOptimisticLock.java:46-95 | under any steps of other clients in between: an attempt makes one commit exactly if its outcome says so, of the facts that the business logic decided on when it saw all matching facts the log held just before; it is aborted, empty or skipped only as the business logic decided; no token stays behind; it gives up exactly when the tries are used up, and for each try that was in vain another client has published something that matches |
| OptimisticLock.WithOptimisticLock.Act | factcast-factus/src/main/java/org/factcast/factus/lock/Locked.java:78-136 | the business logic on the updated projection, and the publish it decides on; the try is in vain only if something that matches was published since the token was taken |
| OptimisticLock.FactStore.PublishIfUnchanged | factcast-core/src/main/java/org/factcast/core/store/AbstractFactStore.java:30-57 | publishes, unless the store fails, exactly if the token is valid and nothing that matches was published since it was taken, so that whoever has looked since then has seen all; the token is gone in any case; other clients are not disturbed |
| OptimisticLock.FactStore.CurrentStateFor | factcast-core/src/main/java/org/factcast/core/store/AbstractFactStore.java:73-76 | a new token whose serial covers all that matches |
| OptimisticLock.FactStore.IsStateUnchanged | factcast-core/src/main/java/org/factcast/core/store/AbstractFactStore.java:79-84 | exactly whether nothing matching lies above the serial |
| OptimisticLock.FactStore.Invalidate | factcast-core/src/main/java/org/factcast/core/store/AbstractFactStore.java:60-62 | removes the token and nothing else |
| OptimisticLock.NothingMissed | factcast-core/src/main/java/org/factcast/core/store/AbstractFactStore.java:79-84 | if nothing matching lies above the serial, then any view of the log since the token was taken has all that matches |
| OptimisticLock.NothingIsLost | factcast-core/src/main/java/org/factcast/core/lock/WithOptimisticLock.java:46-95 | a locked commit was decided on a view that includes the facts of every earlier commit it covers |
| OptimisticLock.SerialSnoc | factcast-core/src/main/java/org/factcast/core/store/AbstractFactStore.java:30-57 | a commit of this kind keeps the log the result of all commits one after the other |
| Projector.Projection.DoApply | factcast-factus/src/main/java/org/factcast/factus/projector/ProjectorImpl.java:92-140 | transactional, whatever fails: others see the effect of the first k facts and the position of the last of these; all or the facts before the first occurrence of the failing one if only handlers fail for good; no transaction stays open |
| Projector.Projection.DoApplyDirectly | factcast-factus/src/main/java/org/factcast/factus/projector/ProjectorImpl.java:92-140 | without transactions: the position never runs ahead of the facts that were applied |
| Projector.KeptIsAll | factcast-factus/src/main/java/org/factcast/factus/projector/ProjectorImpl.java:147-158 | the retry keeps everything in front of the failing fact exactly if no earlier fact of the batch equals it |
| Projector.NothingKept | factcast-factus/src/main/java/org/factcast/factus/projector/ProjectorImpl.java:147-158 | a batch of one fact twice whose second one fails: the retry keeps nothing, although the first one did not fail |
| Projector.KeptAgain | factcast-factus/src/main/java/org/factcast/factus/projector/ProjectorImpl.java:147-158 | the facts that the retry applies do not fail again |
| Projector.Projection.Commit | factcast-factus/src/main/java/org/factcast/factus/projection/tx/TransactionBehavior.java:37-46 | all or nothing, and no transaction afterwards; nothing fails unless the store may fail |
| Projector.Projection.Rollback | factcast-factus/src/main/java/org/factcast/factus/projection/tx/TransactionBehavior.java:48-57 | no transaction afterwards, whether it succeeds or not |
| Snapshots.FactusImpl.DoFetch | factcast-factus/src/main/java/org/factcast/factus/FactusImpl.java:262-294 | with any snapshots that other calls have stored or evicted: the result is the replay of some first facts of the log, which include all that were there before the call; unless there is none, a good snapshot with the same facts has been stored; it fails only if the instance is closed, the store fails or a handler fails in a replay of the log |
| Snapshots.FactusImpl.DoFind | factcast-factus/src/main/java/org/factcast/factus/FactusImpl.java:308-335 | the same, and empty exactly if none of these facts matches |
| Snapshots.FactusImpl.CatchupProjection | factcast-factus/src/main/java/org/factcast/factus/FactusImpl.java:355-427 | from a good snapshot or the initial state: the projection is the replay, the new state makes a good snapshot of just these facts, and there is none at all exactly if nothing matched; a handler fails here only if one fails in a replay of the log |
| Snapshots.Observer.OnNextFacts | factcast-factus/src/main/java/org/factcast/factus/FactusImpl.java:366-376 | a batch moves state and position on together; a snapshot is taken exactly if it is due and all went well, and it is a good one |
| Snapshots.Observer.OnFastForward | factcast-factus/src/main/java/org/factcast/factus/FactusImpl.java:397-412 | what is buffered is applied, and then the position is that of the target, unless there was neither a snapshot nor a fact |
| Snapshots.Observer.OnNext | factcast-core/src/main/java/org/factcast/core/subscription/observer/BatchingFactObserver.java:41-54 | facts are buffered in order until there are as many as a batch has, and then all are applied; nothing is lost |
| Snapshots.FailsInReplay | factcast-factus/src/main/java/org/factcast/factus/FactusImpl.java:366-376 | a handler that fails in a catch-up from a snapshot fails in the full replay as well |
| Snapshots.SnapshotStays | factcast-factus/src/main/java/org/factcast/factus/FactusImpl.java:289-292 | a good snapshot stays good while the log grows |
| Subscriptions.Run | factcast-client-grpc/src/main/java/org/factcast/client/grpc/ResilientGrpcSubscription.java:140-253 | over every run of errors, reconnects, closes and late events: what the observer got is, unless the request is ephemeral, a stretch of the log without gap or duplicate that begins right behind the requested fact if the store knew it when the subscription was made, and no fact comes twice |
| Subscriptions.ResilientGrpcSubscription.DoConnect | factcast-client-grpc/src/main/java/org/factcast/client/grpc/ResilientGrpcSubscription.java:170-187 | with a current stream nothing happens; without one the subscription fails, is closed and tells the observer exactly if connecting fails, and else there is one more stream, the current one now, which begins where the observer expects the next fact and is open unless an error came too early, and no other can deliver any more; the attempt counts |
| Subscriptions.ResilientGrpcSubscription.OnNext | factcast-client-grpc/src/main/java/org/factcast/client/grpc/ResilientGrpcSubscription.java:214-221 | the fact is delivered and its position noted exactly if the subscription is not closed and the observer accepts it |
| Subscriptions.ResilientGrpcSubscription.OnError | factcast-client-grpc/src/main/java/org/factcast/client/grpc/ResilientGrpcSubscription.java:239-253 | the current stream is closed; a retry takes place exactly if the error allows it and attempts are left, and then there is a new stream as after connecting, unless the handshake fails; without a retry the subscription is closed and the observer is told the cause; nothing is delivered meanwhile |
| Subscriptions.ResilientGrpcSubscription.WhenStuck | factcast-client-grpc/src/main/java/org/factcast/client/grpc/ResilientGrpcSubscription.java:162-187 | after an error an open subscription is left without a stream that can deliver, and not closed either, exactly if there is a retry and no close meanwhile, and the handshake fails or another error that may be retried comes before the new stream is the current one |
| Subscriptions.LeftAlone | factcast-client-grpc/src/main/java/org/factcast/client/grpc/ResilientGrpcSubscription.java:162-187 | both inputs: after the error the subscription is not closed, nothing was reported, and a fact that is published then is not delivered |
| Subscriptions.ResilientGrpcSubscription.Close | factcast-client-grpc/src/main/java/org/factcast/client/grpc/ResilientGrpcSubscription.java:88-96 | closed for good, and the current stream with it |
| Subscriptions.SubscriptionImpl.Close | factcast-core/src/main/java/org/factcast/core/subscription/SubscriptionImpl.java:52-60 | each future is completed at most once, the hooks run once and only the first time |
| Subscriptions.SubscriptionImpl.NotifyError | factcast-core/src/main/java/org/factcast/core/subscription/SubscriptionImpl.java:159-170 | futures fail with the first cause, and the subscription goes through `OnError`; the stream is closed unless that throws; a closed stream reports nothing |
| Subscriptions.SubscriptionImpl.Receive | factcast-core/src/main/java/org/factcast/core/subscription/SubscriptionImpl.java:181-186 | an open stream hands the next fact of the log on; a fact that is refused breaks the stream |
| Subscriptions.SubscriptionImpl.NotifyComplete | factcast-core/src/main/java/org/factcast/core/subscription/SubscriptionImpl.java:145-156 | both futures are done and the stream is closed |
| Subscriptions.NoneTwice | factcast-client-grpc/src/main/java/org/factcast/client/grpc/ResilientGrpcSubscription.java:170-187 | facts delivered at growing places of a log with distinct ids are distinct |
| Publishing.GrpcFactStore.Publish | factcast-client-grpc/src/main/java/org/factcast/client/grpc/GrpcFactStore.java:112-137 | under lost requests, lost replies and other publishers: if it returns, all facts are in the log; what the log holds of this call, and that is exactly `added`, is in the order of the list with nothing missing before an added fact; without ignoring duplicates it has added all itself. If it throws then the connection has failed, or facts were known, and the latter only if duplicates are not ignored; a failure that could be retried is thrown only when the attempts of the window are used up. Each failure cost an attempt of its own, all but the last one were followed by a new handshake, and attempts without a check are the first one and one for each fact in a round |
| Publishing.GrpcFactStore.RunAndHandle | factcast-client-grpc/src/main/java/org/factcast/client/grpc/GrpcFactStore.java:142-161 | the same for the retry loop, whose rounds are as many as the connection fails and the resilience allows |
| Publishing.GrpcFactStore.OneByOne | factcast-client-grpc/src/main/java/org/factcast/client/grpc/GrpcFactStore.java:125-131 | the fallback for duplicates publishes singly in list order, and throws only if the connection has failed |
| Publishing.GrpcFactStore.InitializeIfNecessary | factcast-client-grpc/src/main/java/org/factcast/client/grpc/GrpcFactStore.java:234-266 | a handshake exactly if the store is not initialized, and initialized afterwards exactly if it has not failed |
| Retries.Resilience.ShouldRetry | factcast-client-grpc/src/main/java/org/factcast/client/grpc/Resilience.java:47-51 | a retry is allowed exactly if the attempts of the window up to now are not used up, although old timestamps were purged |
| Retries.Resilience.NumberOfAttemptsInWindow | factcast-client-grpc/src/main/java/org/factcast/client/grpc/Resilience.java:36-41 | the purged list still has every attempt of the window |
| Retries.Resilience.RegisterAttempt | factcast-client-grpc/src/main/java/org/factcast/client/grpc/Resilience.java:43-45 | a retried attempt never makes more in its window than are configured, and this holds of every retried attempt that was ever made |
| Retries.RetriedBound | factcast-client-grpc/src/main/java/org/factcast/client/grpc/Resilience.java:47-51 | the same for whatever time passes between check and attempt |

## Findings

Each of these is a property that one would expect and that the code does not have, with the input that shows it and the
condition under which the code has it.

| where | as written | input | intended | confidence |
|---|---|---|---|---|
| `factcast-site/documentation-docsy/docsy/static/js/deflate.js:1065` | when a tree overflows, the new length of a symbol is stored in `.fc`, over its frequency, and not in `.dl`, so that codes are made from lengths that exceed the code space, and a dynamic block with such a tree cannot be decoded | a first run at level 6, or any level above 3, on the string of the 511 bytes of `SteepText.Text`: at the even places 254 every other time, and else 248, 250, 252 (32 times each), 238 to 246 (the even ones, four times each) and 180 to 190 (the even ones, twice each); at the odd places all of 0 to 108 and the even ones of 192 to 220, each twice in a row, then 222, 225 and the even ones of 228 to 236. It is sent as one dynamic block, whose code length tree overflows, and the output does not decode: `Deflate.LostText` | lengths within the limit that fit the code space. As it is they do exactly if the overflow is 0, that is, if no leaf of the Huffman tree is deeper than the limit (`TreeBuilder.BuildTree`), and the output decodes to the input only if no dynamic block went out with a tree that overflowed (`Deflate.Deflate`); `SmallBlocks.TameRun` gives conditions on the input alone under which none does | proved |
| `factcast-site/documentation-docsy/docsy/static/js/deflate.js:746-749` | at levels 1 to 3 `zip_match_available` is never set to 0, and an undefined value is not equal to 0, so that the test in line 786 sends the last byte a second time | the first run, on the single byte 97 at level 1: `Deflate.DoubledByte` | each byte of the input once. As it is this holds exactly unless the level is at most 3, the flag was not 0 before the call and the last block is not a stored one (`Deflate.Deflate`) | proved |
| `factcast-site/documentation-docsy/docsy/static/js/deflate.js:1183-1187` | the depth of a merged node is set to the larger of the depth of the first child and the depth of the second child plus 1, not to the larger depth plus 1, as the comment above it says | a code length tree with the frequencies 1, 1 and 3 for the first three symbols and 0 for the others: the root gets depth 1, but the tree has height 2 (`HuffmanTies.LowRoot`, and `HuffmanTies.TooLow` for any table of this kind) | the height of the subtree, which is to break ties between equal frequencies. As it is, the depth is never more than the height (`HuffmanTies.NeverAbove`), and right for all nodes exactly if no merge takes the higher of two subtrees first (`HuffmanTies.DepthIsHeight`); the cost of the tree does not depend on it (`HuffmanOptimal.Optimal`) | proved |
| `factcast-factus/src/main/java/org/factcast/factus/projector/ProjectorImpl.java:151` | the facts to apply again end before the first fact that equals the failing one | one fact twice, where the handler fails on the second: the first one is not kept either (`Projector.NothingKept`). The facts of a store have distinct ids, so that only a direct call of `apply` with a list can do this | everything in front of the failing fact is kept. As it is this holds exactly if no earlier fact of the batch equals the failing one, as is the case when ids are distinct (`Projector.KeptIsAll`) | proved |
| `factcast-client-grpc/src/main/java/org/factcast/client/grpc/ResilientGrpcSubscription.java:163-167` | `reConnect` calls `initializeIfNecessary` outside any `try`; when the handshake fails, the exception leaves `onError`, and the subscription has no current stream, is not closed, and the observer is told nothing | a new subscription, an error that may be retried, and a handshake that fails: `Subscriptions.LeftAlone` with `early` false | either a stream that delivers, or closed and the observer told. As it is this holds after an error exactly unless there is a retry, no close meanwhile, and either this or the next row occurs (`WhenStuck`) | proved |
| `factcast-client-grpc/src/main/java/org/factcast/client/grpc/ResilientGrpcSubscription.java:178-183` | an error that reaches the new stream before it is the current one finds no stream to detach; by the time its own reconnect gets the lock, the new stream is the current one, so that none is opened, and the new stream is then closed | a new subscription, an error that may be retried, and another such error before the new stream is set: `Subscriptions.LeftAlone` with `early` true | as above; the condition is that of `WhenStuck` | proved |

## Left out

- Matcher.Window.FillWindow: has no branch for a free space of -1, which cannot occur.
- Deflate.Deflate: says nothing about levels that are not numbers, nor about how good the compression is.
- Matcher.Window.LongestMatch: what the window holds behind the end of the input may decide between two matches that both reach it, so that the closest one is promised only for a match that ends before.
- Publishing.GrpcFactStore.RunAndHandle: the connection fails any finite number of times; a loop that the configuration lets go on forever because it never stops failing is not a run here.
- OptimisticLock.FactStore.PublishIfUnchanged: a publish that throws has stored nothing; that the facts are stored and only the answer is lost is not looked at here.
- Publishing.RemoteStore.Append: a request has its effect before the client goes on, or none; one that arrives late, after the client has tried again, is not looked at.
- Subscriptions.Run: does not say that an ephemeral request has no gaps, because it may have some; an id the store does not know counts as none.
- Snapshots.FactusImpl.CatchupProjection: relies on the store to fast-forward only over facts that do not match.
- the 32-bit arithmetic of JavaScript and of serials; no value of the compressor comes near its limits.
- `zip_deflate_end` and the allocation in `zip_deflate_start`: constructors take their place, and the tables of `zip_ct_init` are computed with them.
- the array of a queued buffer is a sequence that is replaced as a whole; the unrolled loop that compares strings is a loop; reading past the end of the window gives -1.
- `zip_compress_block` and `zip_send_tree` get the code of a tree as a pair of sequences.
- reflection, serialization, transformation, metrics and logging on the Java side, and the user interface of the site.
- time: sleeps, time-outs and the waiting for futures; the clock only says that it does not go back.
- a callback is one step: what another thread does between the parts of one is not looked at, the keep-alive check included.
- a close while a reconnect waits leaves a stream open that delivers nothing; it is in the model, but that it ends is not stated.
- the server side of FactCast.

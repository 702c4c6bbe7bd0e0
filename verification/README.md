# Verified core of the proxy

This project models the parts of the proxy whose behaviour is hardest to see from the code, and proves what they
promise. It has seven components.

- **Header-reordering connection** (`Bytes`, `Numbers`, `StableOrder`, `HeaderOrder`, `HeaderRewrite`, `HeaderMeaning`,
  `ChunkTracker`, `WireStream`, `WireMessages`, `OrderedConn`). A byte-at-a-time transducer is the reference. The
  in-place `Write` over a connection that takes parts and fails is proved against it, and the reference is proved
  against a grammar of HTTP/1.1 messages (RFC 9112).
- **Replay caches.** Antigravity (`BranchRegister`, `AntigravityLocal`, `AntigravityHome`, `AntigravityProgress`): a
  register of branches is the reference; the in-process store and the compare-and-swap clients of Home are both shown to
  be runs of it. Codex (`CodexTurns`, `CodexHome`, `CodexProgress`): trimming at turn boundaries and concurrent appends.
  Claude (`ClaudeTurns`, `ClaudeLocal`, `Eviction`): exact accounting and limits.
- **YAML merge and graph copy** (`YamlTree`, `YamlMerge`, `YamlCoverage`, `YamlWeights`, `YamlTwice`, `YamlStable`,
  `YamlValues`, `NodeCopy`).
- **Release flusher** (`ReleaseFlusher`), **OAuth bridge** (`OAuthBridge`) and **Home client fence** (`HomeClient`):
  critical sections that may run in any order. Classes have one method per atomic step; `Drive` takes any series of them.
- **RESP** (`Resp`): the encoder, reply writer and reader of the Redis serialization protocol, version 2.

Library text functions (trimming, case folding), the order callback, clocks, network outcomes and JSON comparison are
parameters, so theorems hold for all of them. Limits are parameters unless they are part of the format. A connection is
a sequence of bytes sent with an oracle for each call.

## What was found

- A header block over the limit is refused, but its bytes stay buffered although they are not counted
  (`internal/httpwire/ordered_conn.go:82-88`). The contract of `Write` says exactly how many bytes are counted, and
  `OverlongIsBuffered` shows what becomes of a caller that tries again.
- An explicit zero weight can be lost with a new key, against the comment at `internal/config/config_yaml.go:314`:
  collections that hold zero values only are dropped whole, at every level. `WeightKept` gives the exact condition and
  `ZeroWeightLost` a configuration that loses one.
- Saving the same configuration twice can change the file the second time. `SavingTwice` gives the exact condition,
  `SecondSaveDiffers` a configuration, and `RecognizableSettles` a condition on the generated tree that rules it out.
- The guarded delete of the Claude store does not enforce the entry limit
  (`internal/cache/claude_thinking_replay_cache.go:240-249`): with a snapshot that says "not found" it can exceed it by one
  entry. The only caller (`internal/runtime/executor/claude_thinking_replay.go:76`, `:130`) uses no snapshot of a failed
  read, and a successful local read always hands out one that says "found", so this is open to other callers only.

## Model

| member | source | states |
|---|---|---|
| `WireStream.SegmentationIndependent` | internal/httpwire/ordered_conn.go:40-113 | For every stream and every starting state: all ways to cut the stream into writes succeed exactly if chunk framing is sound and no unfinished header block ever exceeds the buffer; then all of them send the same bytes and hold back the same header tail. |
| `WireStream.RunConserves` | internal/httpwire/ordered_conn.go:40-113 | Bytes sent plus bytes held are, as a bag and in number, the bytes held before plus the bytes written. |
| `WireStream.RunConcat` | internal/httpwire/ordered_conn.go:40-113 | Feeding two parts one after the other is feeding their concatenation; a refusal in the first part is a refusal of the whole. |
| `WireMessages.StreamTransduced` | internal/httpwire/ordered_conn.go:40-113 | For every series of requests, described by a grammar of bytes that names neither parser states nor the functions that read lengths, followed by an unfinished header: each header goes out rewritten, each Content-Length or chunked body untouched, and exactly the unfinished tail stays buffered. |
| `OrderedConn.OrderedRequestConn.Write` | internal/httpwire/ordered_conn.go:40-113 | In-place loop over a connection that may take parts and fail at any call: the count lies in 0..len(p) and is len(p) without an error, the state and wire are those of the reference transducer on the bytes counted, and every error status says exactly what reached the wire. On a reliable connection the verdict is that of the reference. |
| `OrderedConn.OrderedRequestConn.WriteChunk` | internal/httpwire/ordered_conn.go:58-79 | The preview on a cloned tracker and the commit of the written prefix agree; the commit never fails. |
| `OrderedConn.OrderedRequestConn.WriteBody` | internal/httpwire/ordered_conn.go:48-57 | Sends at most the announced body and counts down exactly what was written. |
| `OrderedConn.OrderedRequestConn.SendFirstBlock` | internal/httpwire/ordered_conn.go:94-110 | The first complete header block is sent rewritten; the buffered part never holds a terminator, so the clamp of the count to 0..len cuts nothing off. |
| `OrderedConn.OrderedRequestConn.WriteBlock` | internal/httpwire/ordered_conn.go:98-111 | A complete block goes out rewritten and sets up the body it announces; if the connection fails, a prefix of it is on the wire and the wrapper is idle. |
| `OrderedConn.SendAll` | internal/httpwire/ordered_conn.go:40-113 | A caller that sends a stream in any parts gets through if the connection is reliable and the stream acceptable; whenever it gets through, wire and state are those of the reference. |
| `OrderedConn.ResendRest` | internal/httpwire/ordered_conn.go:40-113 | After a failure inside a body, resending the uncounted rest leaves wire and state as if nothing had failed; on a reliable connection it succeeds exactly if there is nothing to resend or the whole would have been accepted at once. |
| `OrderedConn.OverlongIsBuffered` | internal/httpwire/ordered_conn.go:82-88 | An over-long header offered twice is in the buffer twice, and none of it was counted. |
| `OrderedConn.WriteAll` | internal/httpwire/ordered_conn.go:282-296 | Writes a prefix and reports its length; without an error, and always on a reliable connection, the prefix is everything. |
| `HeaderRewrite.MessageKept` | internal/httpwire/ordered_conn.go:115-192 | Rewriting keeps length, bytes, terminator position, request line, the bag of lines, the relative order of same-named lines, Content-Length and chunked reading; a second rewriting is the identity. |
| `HeaderMeaning.LinesComeInOrder` | internal/httpwire/ordered_conn.go:115-147 | For a request line of a method, a target and more, and the names asked for by the callback for these two: the lines that bear desired names come out in the order of the names, before all others, and the others keep their own order. |
| `HeaderMeaning.LeftAlone` | internal/httpwire/ordered_conn.go:118-128 | With fewer than three parts in the request line, or no desired names, the block goes out as it came. |
| `HeaderMeaning.BearsIff` | internal/httpwire/ordered_conn.go:158-161 | The name of a line is what stands before its first colon, if anything does. |
| `HeaderMeaning.LengthMeaning` | internal/httpwire/ordered_conn.go:163-177 | The body length is n > 0 exactly if the first Content-Length line has, after its first colon, a text that trims to n in base 10 (an optional sign and digits, within 64 bits); it is 0 exactly if there is no such positive number. |
| `HeaderMeaning.ChunkedMeaning` | internal/httpwire/ordered_conn.go:179-192 | The body is chunked exactly if some Transfer-Encoding line has, between commas after its first colon, a coding that trims and folds to chunked. |
| `HeaderMeaning.SizeMeaning` | internal/httpwire/ordered_conn.go:231-238 | A chunk-size line announces n exactly if, trimmed and cut at its first semicolon, it is n in base 16, in letters of either case. |
| `HeaderRewrite.OrderRequestHeader` | internal/httpwire/ordered_conn.go:115-156 | The in-place line selection equals the reference ordering and reports the announced body. |
| `HeaderRewrite.PickLines` | internal/httpwire/ordered_conn.go:131-147 | The loops over desired names and a `used` table compute the stable ordering by rank. |
| `HeaderRewrite.RewrittenIsHeader` | internal/httpwire/ordered_conn.go:115-156 | The rewritten block is again one header block, made of the reordered lines. |
| `HeaderOrder.SameNameKept` | internal/httpwire/ordered_conn.go:131-147 | Lines of one name keep their relative order, whatever order is asked for (section 5.3 of RFC 9110). |
| `HeaderOrder.OrderPermutes` | internal/httpwire/ordered_conn.go:131-147 | Ordering is a permutation of the lines and of their bytes. |
| `HeaderOrder.RequestContentLength` | internal/httpwire/ordered_conn.go:163-177 | Only the first Content-Length line counts; anything but a positive 64-bit number reads as zero. |
| `HeaderOrder.RequestUsesChunkedEncoding` | internal/httpwire/ordered_conn.go:179-192 | True exactly if some Transfer-Encoding line lists the chunked coding. |
| `StableOrder.OrderedIsSorted` | internal/httpwire/ordered_conn.go:131-147 | The reference ordering is sorted by rank. |
| `StableOrder.OrderedTwice` | internal/httpwire/ordered_conn.go:131-147 | Ordering an ordered list changes nothing. |
| `ChunkTracker.ScanSplit` | internal/httpwire/ordered_conn.go:220-280 | Scanning a chunked body in two parts is scanning it at once, including where it completes or breaks. |
| `ChunkTracker.PreviewCommits` | internal/httpwire/ordered_conn.go:58-79 | If the preview accepts n bytes, consuming any written prefix never errors and completes only at n. |
| `ChunkTracker.ChunkedRequestTracker.Consume` | internal/httpwire/ordered_conn.go:220-280 | The slice-wise loop over the tracker fields computes the byte-wise automaton of section 7.1 of RFC 9112. |
| `ChunkTracker.ChunkedRequestTracker.Clone` | internal/httpwire/ordered_conn.go:213-218 | The clone is a new object in the same state. |
| `WireMessages.ScanChunked` | internal/httpwire/ordered_conn.go:220-280 | A well-formed chunked body is recognized and complete exactly at its end. |
| `WireMessages.FieldsMakeTrailers` | internal/httpwire/ordered_conn.go:262-272 | Trailer fields and a blank line are complete exactly at their end. |
| `OrderedConn.OfferHeader` | internal/httpwire/ordered_conn.go:81-93 | An unfinished header is taken exactly while it holds at most 1048576 bytes. |
| `Numbers.ParsesNumber` | internal/httpwire/ordered_conn.go:163-177 | The 64-bit parser reads exactly the texts that denote a number in the base: an optional sign and digits in letters of either case, within range. |
| `BranchRegister.ChainsOnlyGrow` | internal/cache/antigravity_reasoning_replay_cache.go:300-348 | Over every run of the branch register, chains stored under one key and one branch are prefix-ordered. |
| `BranchRegister.StaleForever` | internal/cache/antigravity_reasoning_replay_cache.go:279-385 | Once the branch that a snapshot saw has left its key, no later replace or delete guarded by it can go ahead. |
| `BranchRegister.DeleteFencedForever` | internal/cache/antigravity_reasoning_replay_cache.go:357-385 | Any newer revision fences a guarded delete for ever. |
| `AntigravityLocal.Drive` | internal/cache/antigravity_reasoning_replay_cache.go:170-483 | Any series of calls on the in-process store is a run of the branch register. Each call succeeds exactly when the register it meets allows it, leaves what it says under a new revision, and otherwise changes nothing. A guarded call uses the snapshot it names: the one that the Get with that many before it handed out, which showed what was then stored. It does nothing if, at any time since, another branch or none was stored under its key. |
| `AntigravityLocal.StaleCallFails` | internal/cache/antigravity_reasoning_replay_cache.go:279-385 | The step behind it: a snapshot that was truthful since it was handed out, and whose branch left the key at any time since, guards a call that does nothing. |
| `AntigravityLocal.RemovedIsFenced` | internal/cache/antigravity_reasoning_replay_cache.go:279-418 | In particular, a publication guarded by a snapshot taken before a removal never succeeds. |
| `AntigravityLocal.PublishedIsRead` | internal/cache/antigravity_reasoning_replay_cache.go:170-353 | A publication guarded by a read just made goes through, and is what the next read finds, if there was room. |
| `AntigravityLocal.SecondMustContinue` | internal/cache/antigravity_reasoning_replay_cache.go:337-353 | Of two publications guarded by one snapshot, the second goes through exactly if it continues the first, and then on the branch that was seen. |
| `AntigravityLocal.ReplayStore.Get` | internal/cache/antigravity_reasoning_replay_cache.go:170-251 | A hit hands out the chain, a miss is fenced by a fresh tombstone; either way the snapshot is of an entry that is present. |
| `AntigravityLocal.ReplayStore.ReserveAbsent` | internal/cache/antigravity_reasoning_replay_cache.go:256-275 | Makes room, then stores a tombstone with a revision and a branch never used before. |
| `AntigravityLocal.ReplayStore.ReplaceIfUnchanged` | internal/cache/antigravity_reasoning_replay_cache.go:279-353 | For every snapshot handed out, succeeds exactly if the revision is current or a live chain of its branch is a prefix of the new one; the eviction epoch never decides. Fails for snapshots loaded from Home before a fall-back. States the entry stored and its branch. |
| `AntigravityLocal.ReplayStore.DeleteIfUnchanged` | internal/cache/antigravity_reasoning_replay_cache.go:357-385 | For every snapshot handed out, succeeds exactly if its revision is current, and leaves a tombstone on a new branch. Fails for snapshots loaded from Home before a fall-back. |
| `AntigravityLocal.ReplayStore.CacheItems` | internal/cache/antigravity_reasoning_replay_cache.go:100-142 | Stores unconditionally on a branch of its own. |
| `AntigravityLocal.ReplayStore.DeleteRequired` | internal/cache/antigravity_reasoning_replay_cache.go:396-418 | Leaves a tombstone on a branch of its own. |
| `AntigravityLocal.ReplayStore.Clear` | internal/cache/antigravity_reasoning_replay_cache.go:478-483 | Drops all entries; revisions go on and are never reused. |
| `AntigravityLocal.ReplayStore.PurgeExpired` | internal/cache/antigravity_reasoning_replay_cache.go:647-656 | Drops exactly the entries past their time to live. |
| `AntigravityLocal.ReplayStore.EvictOldest` | internal/cache/antigravity_reasoning_replay_cache.go:623-645 | Removes the stated number of entries, none newer than one it keeps, and counts them in the epoch. |
| `AntigravityHome.HomeRefines` | internal/cache/antigravity_reasoning_replay_cache.go:170-353 | Every interleaving of clients of the Home register, with retry loops cut at their calls, is a run of the branch register. |
| `AntigravityHome.StepKeeps` | internal/cache/antigravity_reasoning_replay_cache.go:170-418 | Each single step of any client keeps the invariant and is a step of the branch register. |
| `AntigravityHome.HomeChainsOnlyGrow` | internal/cache/antigravity_reasoning_replay_cache.go:297-330 | No item published on a live branch is dropped while the branch is stored under its key. |
| `AntigravityHome.HomeStaleForever` | internal/cache/antigravity_reasoning_replay_cache.go:297-384 | After the branch seen by a snapshot has left its key, no swap guarded by it, first or retried, ever matches. |
| `AntigravityHome.HomeLegacyStaleForever` | internal/cache/antigravity_reasoning_replay_cache.go:297-384 | The same for snapshots of values without a generation marker: such a value never comes back, and such a publication never retries. |
| `AntigravityHome.HomeDeleteFenced` | internal/cache/antigravity_reasoning_replay_cache.go:357-385 | Any other value under the key fences a guarded delete for ever, whatever the kind of the value seen. |
| `AntigravityHome.SwapIsAtomic` | internal/cache/antigravity_reasoning_replay_cache.go:297-330 | A successful swap replaced exactly the snapshot value, or a live chain of its branch that is a prefix of the new one; only the first attempt can open a new branch. |
| `AntigravityHome.FreshNeverRetries` | internal/cache/antigravity_reasoning_replay_cache.go:300-330 | An attempt on a fresh branch never finds a value to retry on. |
| `AntigravityProgress.ReadAfterOverwrite` | internal/cache/antigravity_reasoning_replay_cache.go:113-122 | Over runs: after an unconditional set, and nothing else touching the key, a read hands out exactly its items. |
| `AntigravityProgress.ReadAfterSwap` | internal/cache/antigravity_reasoning_replay_cache.go:297-330 | After a publication that went through, a read hands out the items it was begun with. |
| `AntigravityProgress.ReadAfterDelete` | internal/cache/antigravity_reasoning_replay_cache.go:357-384 | After a guarded delete that met its value a read hands out nothing; one that did not leaves every value as it was. |
| `AntigravityProgress.ReadAfterReserve` | internal/cache/antigravity_reasoning_replay_cache.go:186-207 | A reserved miss reads as nothing. |
| `AntigravityProgress.UncontendedSucceeds` | internal/cache/antigravity_reasoning_replay_cache.go:297-312 | A first swap goes through if nothing touched the key since the value it was begun on was read. |
| `AntigravityProgress.PublicationEnds` | internal/cache/antigravity_reasoning_replay_cache.go:303-330 | A publication leaves only by going through, by a failed call, or after a swap that met another value: when what is stored is not for it to replace, or when that was its fourth swap. |
| `AntigravityProgress.RetriesAgainstCurrent` | internal/cache/antigravity_reasoning_replay_cache.go:313-329 | A publication that tries again swaps against the value that beat it, a live chain of its branch that it continues. |
| `CodexHome.RunIsSerial` | internal/cache/codex_reasoning_replay_cache.go:136-168 | In every interleaving of append loops, lost replies, overwrites and expiry, the register is the result of atomic changes in one order; each acknowledged append occurs in it exactly once, every other at most once; no loop exceeds 32 attempts. |
| `CodexProgress.GivesUpLast` | internal/cache/codex_reasoning_replay_cache.go:136-168 | An append whose calls succeed and that reads no corrupt value gives up only after 32 swaps, each of which met a value other than the one read before it; so at least 32 changes came between. |
| `CodexProgress.SwapDecides` | internal/cache/codex_reasoning_replay_cache.go:155-165 | A swap that meets the value read is acknowledged, with its turn as the next change of the register; any other changes nothing. |
| `CodexProgress.ReadDecides` | internal/cache/codex_reasoning_replay_cache.go:140-152 | A read leads to a swap against the value found; a corrupt value ends the append. |
| `CodexProgress.LostReplyDecides` | internal/cache/codex_reasoning_replay_cache.go:159-163 | A swap that ends in an error ends the append; it took effect or not, but only on the value read. |
| `CodexProgress.OverwriteStores` | internal/cache/codex_reasoning_replay_cache.go:77-116 | Other writes replace the value, whatever it was. |
| `CodexProgress.SeenWasRead` | internal/cache/codex_reasoning_replay_cache.go:136-168 | A job swaps against the value that its last read found, with the turn it began with. |
| `CodexHome.AckedTurnLeavesByTrimming` | internal/cache/codex_reasoning_replay_cache.go:136-168 | For clients whose turns open with a marker that carries an ID, and any other writes: an acknowledged append took effect once; while only appends follow, the stored chain is one front trim of the chain it left plus everything added since. |
| `CodexHome.TurnIdsUnique` | internal/cache/codex_reasoning_replay_cache.go:136-210 | For turns with one leading marker, and other writes without repeated IDs: in every reachable state each turn ID occurs at most once. |
| `CodexTurns.TrimIsLongest` | internal/cache/codex_reasoning_replay_cache.go:212-230 | A list is the trim exactly if it is the longest suffix at a turn boundary within both limits, or empty if there is none. |
| `CodexTurns.TrimIdempotent` | internal/cache/codex_reasoning_replay_cache.go:212-230 | Trimming again changes nothing. |
| `CodexTurns.SizeIsBytes` | internal/cache/codex_reasoning_replay_cache.go:214-217 | The size of a chain is the number of bytes in it. |
| `CodexTurns.MarkersAreCounted` | internal/cache/codex_reasoning_replay_cache.go:213-221 | Turns are counted by their markers. |
| `CodexTurns.TrimThenAppend` | internal/cache/codex_reasoning_replay_cache.go:190-230 | Trimming early loses nothing that a later trim would have kept. |
| `CodexTurns.TrimItems` | internal/cache/codex_reasoning_replay_cache.go:212-230 | The loop that recounts turns and reslices computes the trim. |
| `CodexTurns.AppendReplayTurn` | internal/cache/codex_reasoning_replay_cache.go:190-210 | The duplicate search and concatenation loop computes the reference append. |
| `CodexTurns.AppendsOnlyTrim` | internal/cache/codex_reasoning_replay_cache.go:190-230 | Any number of appends to a settled chain is one trim of the chain plus the turns that were new. |
| `CodexTurns.AppendSettles` | internal/cache/codex_reasoning_replay_cache.go:190-210 | Appending to any chain leaves one that is within limits and opened by a marker. |
| `CodexTurns.AppendKeepsOnceEach` | internal/cache/codex_reasoning_replay_cache.go:190-210 | Appending a turn keeps turn IDs unique. |
| `CodexTurns.AppendStores` | internal/cache/codex_reasoning_replay_cache.go:190-210 | A turn is stored after its append exactly if it was there already or fits the limits by itself. |
| `CodexTurns.ReappendChangesNothing` | internal/cache/codex_reasoning_replay_cache.go:197-204 | Appending a stored turn again changes nothing. |
| `ClaudeTurns.AppendIsLongest` | internal/cache/claude_thinking_replay_cache.go:367-382 | Appending acceptable new content to an in-limit session gives the longest suffix within both limits, ending in the new content; content equal to a stored turn changes nothing. |
| `ClaudeTurns.AppendContent` | internal/cache/claude_thinking_replay_cache.go:367-382 | The comparison and trimming loops compute the reference append; the loop never meets an empty list. |
| `ClaudeTurns.SizeIsBytes` | internal/cache/claude_thinking_replay_cache.go:392-398 | The size of a session is the number of bytes in it. |
| `ClaudeLocal.TurnIsKept` | internal/cache/claude_thinking_replay_cache.go:110-213 | A turn guarded by a read just made is accepted, and the session ends in it or held it before. |
| `ClaudeLocal.TotalWithout` | internal/cache/claude_thinking_replay_cache.go:392-398 | The sum over a map does not depend on the order of counting. |
| `ClaudeLocal.ReplayStore.Drive` | internal/cache/claude_thinking_replay_cache.go:71-283 | Over every run of calls the running total is the sum of the entries; entry and byte limits hold if deletions use snapshots that the local store hands out; and a generation that has left a key never comes back to it. |
| `ClaudeLocal.StaleFailsForever` | internal/cache/claude_thinking_replay_cache.go:197-249 | A snapshot whose generation has left its key guards nothing that succeeds, after any further calls. |
| `ClaudeLocal.ReplayStore.Get` | internal/cache/claude_thinking_replay_cache.go:143-161 | A live session is returned; otherwise a tombstone is reserved and put back even if the reservation evicted it. The total stays exact and the limits hold. |
| `ClaudeLocal.ReplayStore.ReplaceIfUnchanged` | internal/cache/claude_thinking_replay_cache.go:197-213 | Succeeds exactly on a current snapshot; states the new session and that evicted entries are no newer than kept ones. |
| `ClaudeLocal.ReplayStore.DeleteIfUnchanged` | internal/cache/claude_thinking_replay_cache.go:240-249 | Succeeds exactly on a current snapshot. Limits are not enforced: they go on to hold exactly if the call does not add an entry, by a snapshot that says there is none, to a full store. |
| `ClaudeLocal.FullStoreOverflows` | internal/cache/claude_thinking_replay_cache.go:240-249 | Any full store and any absent key: such a delete leaves one entry more than the limit. |
| `ClaudeLocal.ReplayStore.DeleteRequired` | internal/cache/claude_thinking_replay_cache.go:267-274 | Removes the session and its bytes. |
| `ClaudeLocal.ReplayStore.Clear` | internal/cache/claude_thinking_replay_cache.go:278-283 | Empties the store and the total. |
| `ClaudeLocal.ReplayStore.Reserve` | internal/cache/claude_thinking_replay_cache.go:347-352 | Leaves the tombstone, or room for it. |
| `ClaudeLocal.ReplayStore.Store` | internal/cache/claude_thinking_replay_cache.go:354-365 | Replaces a session, moves the total along and enforces the limits. |
| `ClaudeLocal.ReplayStore.CacheBestEffort` | internal/cache/claude_thinking_replay_cache.go:71-101 | Accepts exactly acceptable content under a non-empty key. |
| `ClaudeLocal.ReplayStore.EnforceLimits` | internal/cache/claude_thinking_replay_cache.go:438-446 | Terminates with both limits met; the branch that resets the total for an empty map is never taken; a store within limits is left alone. |
| `ClaudeLocal.ReplayStore.EvictOldest` | internal/cache/claude_thinking_replay_cache.go:448-471 | Removes exactly the batch, none newer than a kept entry, and keeps the total exact. |
| `ClaudeLocal.ReplayStore.PurgeExpired` | internal/cache/claude_thinking_replay_cache.go:473-482 | Removes exactly the expired sessions and their bytes. |
| `Eviction.RemoveOldest` | internal/cache/claude_thinking_replay_cache.go:448-471 | Removing the oldest entry of what earlier evictions left still removes nothing newer than what is kept. |
| `YamlCoverage.MergeCovers` | internal/config/config_yaml.go:181-283 | For a generated tree with unique, non-blank keys and any destination: every generated scalar is in the result, every generated key is there unless the destination lacked it and its subtree holds only known defaults, and sequences have the generated length (a null facing an empty sequence stays). |
| `YamlCoverage.MergeStaysInPlace` | internal/config/config_yaml.go:181-215 | Outside sequences, at every depth: the old key list is a prefix of the new one, keys that were not generated keep their values, and unique keys stay unique. |
| `YamlCoverage.SelfMerge` | internal/config/config_yaml.go:181-283 | Merging a document with unique, non-blank keys into an identical copy leaves it unchanged. |
| `YamlCoverage.LookupMerged` | internal/config/config_yaml.go:181-215 | What the merged mapping holds under any key, in terms of both mappings. |
| `YamlCoverage.KeyAdded` | internal/config/config_yaml.go:202-213 | A generated key that was missing is added exactly if its subtree says something beyond the defaults or is an explicit integer weight. |
| `YamlCoverage.NullStays` | internal/config/config_yaml.go:228-231 | An explicit null facing an empty generated sequence stays; any other scalar there becomes the sequence. |
| `YamlValues.ScalarWritten` | internal/config/config_yaml.go:202-213 | For booleans, integers, floats, strings and null: a generated value under a key that the destination lacks is written, as it is, exactly if it is not false, 0, 0.0, an empty string or null and not the value assumed at its path; an integer weight is always written. |
| `YamlValues.TableDropped` | internal/config/config_yaml.go:313-354 | At the place of each of the five other default values, exactly that value and the zero values are not written. |
| `YamlValues.ZeroIsZero` | internal/config/config_yaml.go:397-437 | The test on nodes recognizes exactly the zero values. |
| `YamlValues.DottedSnoc` | internal/config/config_yaml.go:332 | A path is its keys joined by dots. |
| `YamlCoverage.DroppedExactly` | internal/config/config_yaml.go:720-749 | What is kept of an element is exactly the pairs whose trimmed key is not blank and was generated. |
| `YamlWeights.WeightKept` | internal/config/config_yaml.go:181-283 | For every route through keys and positions to an integer weight, and every destination: the weight is in the result exactly if the destination led all the way, or the merge copied from some point on (another kind of node, an unmatched element), or the weight is itself the first new key, or the value of the first new key holds more than defaults and no collection under a key between it and the weight is zero. |
| `YamlWeights.PrunedRoute` | internal/config/config_yaml.go:358-392 | In a pruned subtree a weight is left exactly if no collection under a key on the way to it is zero. |
| `YamlWeights.NonZeroWeightKept` | internal/config/config_yaml.go:313-317 | A weight other than zero is never lost. |
| `YamlWeights.WeightOfKnownParent` | internal/config/config_yaml.go:313-317 | A weight whose mapping the destination held is never lost. |
| `YamlWeights.ZeroWeightLost` | internal/config/config_yaml.go:313-317 | A generated provider list with all the keys that are always written, saved into a file without it: the provider is written, its credential entry with an empty key and the explicit weight zero is not. |
| `YamlTwice.SavingTwice` | internal/config/config_yaml.go:181-283 | For every destination: merging the same tree again changes nothing exactly if, in every sequence written, the matching pairs each element with itself again (or what takes its place is the same). |
| `YamlTwice.MergeSettles` | internal/config/config_yaml.go:181-283 | After a merge nothing is left to be written, element by element: what is missing is defaults and no weight, and elements hold generated keys only. |
| `YamlTwice.FixedIffRematches` | internal/config/config_yaml.go:181-283 | The same characterization for any settled tree. |
| `YamlTwice.ScalarListsSettle` | internal/config/config_yaml.go:181-283 | If sequences hold scalars only, saving twice never differs from saving once. |
| `YamlTwice.SecondSaveDiffers` | internal/config/config_yaml.go:202-268 | A new credential with all the keys that are always written, an empty key and a header: the first save drops the empty values, the second no longer recognizes the credential and writes them back. |
| `YamlStable.RecognizableSettles` | internal/config/config_yaml.go:181-283 | If every mapping in a generated sequence says something that is no default under an identity key, saving twice is saving once, for every destination with unique keys without outer white space. |
| `YamlStable.AnchoredIsRecognized` | internal/config/config_yaml.go:550-590 | Such an element has the same identity before and after saving, although defaults were pruned and keys reordered. |
| `YamlStable.AssignInOrder` | internal/config/config_yaml.go:485-548 | If each saved element is the generated one or has its identity, the matching pairs the elements in order. |
| `YamlStable.MergedNeat` | internal/config/config_yaml.go:181-283 | Merging trees with unique keys without outer white space gives such a tree. |
| `YamlStable.IdsDecide` | internal/config/config_yaml.go:550-590 | Elements with an id each are the same exactly if these are equal, whatever their other keys say. |
| `YamlStable.FirstKeyDecides` | internal/config/config_yaml.go:550-572 | In the order id, name, alias, api-key, api_key, apikey, key, provider, model: the first key that says something in both decides. |
| `YamlStable.FirstScalarIs` | internal/config/config_yaml.go:562-571 | Otherwise an element is recognized by the first scalar that says something. |
| `YamlStable.StructuralMeaning` | internal/config/config_yaml.go:592-630 | Structural equality is equality without tags and outer white space. |
| `YamlStable.ElementStaysInPlace` | internal/config/config_yaml.go:247-259 | A recognized element keeps its generated keys in its own order in front of new ones, and takes on a key that it lacks exactly if that says something or is an explicit weight. |
| `YamlCoverage.AssignItself` | internal/config/config_yaml.go:485-548 | Matched against itself, each element of a sequence takes over itself. |
| `YamlMerge.AssignInjective` | internal/config/config_yaml.go:485-505 | No existing element is taken over by two generated ones. |
| `YamlMerge.MatchSequenceElement` | internal/config/config_yaml.go:507-548 | Finds the first unused element of the same identity, else the first structurally equal one. |
| `YamlMerge.ReorderSequence` | internal/config/config_yaml.go:485-505 | One slot per generated element, filled as the matching says. |
| `YamlMerge.PruneMissingMapKeys` | internal/config/config_yaml.go:720-749 | The deletion loop keeps exactly the pairs whose trimmed key was generated. |
| `YamlMerge.MergeMappingPreserve` | internal/config/config_yaml.go:181-215 | The loop over generated pairs computes the reference merge. |
| `YamlMerge.MergeSequence` | internal/config/config_yaml.go:227-268 | Reordering, merging, appending and truncating compute the reference merge of sequences. |
| `YamlMerge.MergeNodePreserve` | internal/config/config_yaml.go:220-283 | Computes the reference merge for all three kinds of nodes. |
| `YamlTree.PruneKnownDefaults` | internal/config/config_yaml.go:358-392 | The filtering loops compute the reference pruning. |
| `YamlTree.PrunedZero` | internal/config/config_yaml.go:358-437 | After pruning nothing but zero values is left exactly if there was nothing but defaults. |
| `YamlTree.PrunedChild` | internal/config/config_yaml.go:313-437 | A child disappears, or is left with zero values only, exactly if it holds only defaults. |
| `YamlTree.WeightNotDefault` | internal/config/config_yaml.go:313-352 | No weight is among the non-zero defaults. |
| `NodeCopy.DeepCopyNode` | internal/config/config_yaml.go:440-442 | For every finite node graph, with shared nodes and alias cycles: terminates with an isomorphic graph of new nodes, sharing preserved, and changes nothing that existed. |
| `NodeCopy.DeepCopySeen` | internal/config/config_yaml.go:444-463 | Extends the table of copies by new nodes only; the measure is the number of nodes not yet in it. |
| `ReleaseFlusher.Flusher.MarkDirty` | internal/home/concurrency_release.go:77-100 | Issues one ticket, closed at once exactly if its sequence is acknowledged, otherwise waiting; nothing issued, sent or acknowledged is taken back. |
| `ReleaseFlusher.Flusher.Flush` | internal/home/concurrency_release.go:187-233 | With MarkDirty interleaved whenever the lock is free: one frame is sent for each group that was dirty, whether or not others fail; the flush reports a failure exactly if a send failed; and if none did, every ticket issued before the flush is closed. The invariant holds throughout (Acked at most Latest, waiters between them, a ticket open exactly if it waits). |
| `ReleaseFlusher.Flusher.Acknowledge` | internal/home/concurrency_release.go:216-230 | Closes exactly the waiters reached; closing a closed channel is excluded by precondition. |
| `ReleaseFlusher.Flusher.Drive` | internal/home/concurrency_release.go:77-233 | Over every run of marks and flushes: frames of one group never decrease, a closed ticket had a frame of at least its sequence sent and accepted, and an open one waits above what is acknowledged and not above the latest. |
| `ReleaseFlusher.Flusher.Send` | internal/home/concurrency_release.go:206-211 | Records the frame, and its acceptance if the send succeeded; the sequence is at most the latest and at least every earlier one of its group. |
| `ReleaseFlusher.Flusher.Idle` | internal/home/concurrency_release.go:258-267 | True exactly if no group is ahead of its acknowledgement, and then no ticket is open. |
| `ReleaseFlusher.Flusher.ClosedWasAccepted` | internal/home/concurrency_release.go:187-233 | A closed ticket had a frame with at least its sequence sent and accepted. |
| `ReleaseFlusher.AckKeeps` | internal/home/concurrency_release.go:216-230 | Acknowledging a sequence and closing what it reaches keeps every ticket closed exactly if it is reached. |
| `ReleaseFlusher.MarkKeeps` | internal/home/concurrency_release.go:86-95 | A new waiter keeps the tickets consistent. |
| `OAuthBridge.Bridge.Drive` | internal/oauthbridge/server.go:209-385 | Every order of atomic steps of leases, terminations and callbacks keeps the invariant below, and returned answers never change. |
| `OAuthBridge.Bridge.OneOk` | internal/oauthbridge/server.go:266-309 | Two callbacks of one lease that returned OK are the same callback. |
| `OAuthBridge.Bridge.ListenerIffPending` | internal/oauthbridge/server.go:209-359 | A provider listener is registered exactly while one of its leases is pending. |
| `OAuthBridge.Bridge.SameIndexes` | internal/oauthbridge/server.go:209-359 | The global state map and the maps of the providers hold the same leases. |
| `OAuthBridge.Bridge.DoneIsGone` | internal/oauthbridge/server.go:361-373 | A lease whose done channel is closed is in no map and in no connection set. |
| `OAuthBridge.Bridge.AllDone` | internal/oauthbridge/server.go:375-385 | When every lease is done, both maps and the connection set are empty. |
| `OAuthBridge.Bridge.Acquire` | internal/oauthbridge/server.go:209-264 | Granted exactly if the state is free and its listener exists or can be opened; states the new indexes. |
| `OAuthBridge.Bridge.ReleaseState` | internal/oauthbridge/server.go:342-359 | Takes the lease, and no other of the same state, out of both maps; the listener goes with its last lease. |
| `OAuthBridge.Bridge.TerminateRelease` | internal/oauthbridge/server.go:361-373 | The first stage of the one termination leaves the lease in no map and every other lease where it was. |
| `OAuthBridge.Bridge.TerminateDetach` | internal/oauthbridge/server.go:361-373 | The second stage takes this lease, and no other, out of the connection set. |
| `OAuthBridge.Bridge.TakeSlot` | internal/oauthbridge/server.go:274-279 | One callback per lease holds the transaction slot. |
| `OAuthBridge.Bridge.CheckActive` | internal/oauthbridge/server.go:280-282 | With the slot in hand, only a pending lease is waited for. |
| `OAuthBridge.Bridge.Settle` | internal/oauthbridge/server.go:294-299 | A settled lease, and no other, is released before the answer is returned and the slot freed. |
| `OAuthBridge.WaiterIsAlone` | internal/oauthbridge/server.go:266-309 | No other callback has settled, or waits for, the lease that a callback waits for. |
| `OAuthBridge.ReleaseKeepsIndex` | internal/oauthbridge/server.go:342-359 | Releasing keeps the two indexes in step. |
| `HomeClient.Client.Drive` | internal/home/client.go:291-577 | Over every order of steps of closers, dialers and callers: a client that has ended has no pool and no registered connection, ever again; every installed pool leads to the current Home address and every other one is being closed or closed; a connection that has left its dialer is registered, about to be closed, or closed. |
| `HomeClient.Client.End` | internal/home/client.go:291-355 | The critical section of Close and AbortAmbiguousDispatch leaves nothing installed or registered; what it took out is on the way to being closed. |
| `HomeClient.Client.Detach` | internal/home/client.go:372-384 | Every detached pool and connection is marked for closing. |
| `HomeClient.Client.EnsureClients` | internal/home/client.go:475-513 | Succeeds exactly if the fence is down, the client is enabled, the address is valid and options for the missing pools can be made; then both pools are there, new ones for the current address and old ones unchanged. Behind the fence, or disabled, nothing is created. |
| `HomeClient.Client.Register` | internal/home/client.go:540-563 | A dialed connection is registered, or marked for closing if the fence is up. |
| `HomeClient.Client.Unregister` | internal/home/client.go:565-577 | Closing a connection first takes it out of the set. |
| `HomeClient.Client.SwitchToNode` | internal/home/client.go:830-845 | Moves exactly to a valid, different node and detaches every pool of the old one in the same step. |
| `HomeClient.Client.ReleaseClient` | internal/home/client.go:1409-1444 | Succeeds exactly if the fence is down, membership is stable, the client is enabled and the pool exists or can be made; then it leads to the current address. |
| `HomeClient.Client.PromoteSubscription` | internal/home/client.go:1745-1759 | The command pool is taken out and marked for closing. |
| `Resp.CommandRoundTrip` | internal/home/certificate.go:335-348 | Reading an encoded command, whatever bytes it holds and whatever follows, returns its arguments and leaves exactly what follows; it is also what the server's array writer would write. |
| `Resp.EncodeArray` | internal/home/certificate.go:335-348 | The appending loop computes the wire form. |
| `Resp.PipelineRoundTrip` | internal/api/redis_queue_protocol.go:413-485 | Any pipelined series of encoded commands decodes to the same series. |
| `Resp.ReplyRoundTrip` | internal/api/redis_queue_protocol.go:511-541 | The server's array of bulk strings decodes to its items (an absent one as an empty string) and leaves exactly what follows. |
| `Resp.CommandCutOff` | internal/api/redis_queue_protocol.go:413-485 | A command cut off anywhere is never misread: the reader runs out of input. |
| `Resp.OtherItems` | internal/api/redis_queue_protocol.go:440-453 | Simple strings and integers are read as lines; any other type is refused. |
| `Resp.BadLineEnd` | internal/api/redis_queue_protocol.go:466-473 | A bulk string whose payload is not followed by a line end is refused. |
| `Resp.WireLooks` | internal/api/redis_queue_protocol.go:511-541 | A command as it looks on the wire, byte by byte. |
| `Resp.Reader.ReadArray` | internal/api/redis_queue_protocol.go:413-438 | The reader over a buffered input parses exactly as the reference parser and consumes exactly what it parsed. |
| `Resp.Reader.ReadBulkString` | internal/api/redis_queue_protocol.go:455-475 | The same for one bulk string, with its length line and terminator. |
| `Resp.Reader.ReadLine` | internal/api/redis_queue_protocol.go:477-485 | The scanning loop and the two suffix trims read as the reference: the line holds no line feed, the input was the line, its line end and what is left, and the end of input is found exactly if there is no line feed. |
| `Resp.WriteArrayOfBulkStrings` | internal/api/redis_queue_protocol.go:528-541 | The writing loop computes the wire form. |

## Left out

- OrderedConn: reading, closing and the mutex of the wrapped connection; calls to `Write` are taken one at a time.
- AntigravityLocal: the unsigned revision counter and eviction epoch do not wrap around.
- AntigravityHome: JSON encoding is taken as injective, oversized values as unreadable; renewing the expiry of a key is no step.
- CodexHome.RunIsSerial: the retry loop is cut at its calls and is not shown as one loop; JSON encoding is taken as injective.
- CodexHome.TurnIdsUnique: says nothing of runs in which a turn holds further markers or another writer stores a repeated ID; the append does not remove repetitions it finds.
- CodexHome: the in-process Codex map with its expiry and eviction, which repeats what is shown for the other stores.
- ClaudeLocal: the Home mode of the Claude cache, a single compare-and-swap without retry.
- YamlMerge.MergeNodePreserve: works on values; update in place, comments, styles, anchors, alias nodes, nil nodes and keys that are not scalars are not captured.
- YamlMerge: deleting keys that were removed from the generated tree at given paths, and legacy-key removal.
- NodeCopy: comments and positions are plain fields of a node and are copied with it.
- ReleaseFlusher.Flusher.Flush: one flush at a time, as the run loop guarantees; timers, back-off and wake-up signals are not modelled.
- OAuthBridge: frame reading and writing, deadlines and request validation; results may arrive at any time while a callback waits.
- HomeClient.Client.EnsureClients: does not wait for earlier closers, which only delays it.
- HomeClient: TLS options and what pools do with their connections.
- Resp.Reader.ReadArray: allocation of a huge announced length, which makes the program panic instead of waiting for input.
- Routing, management handlers, logins, logging, plugins, the asset updater and configuration defaults: input, output and wiring.
- The kimi, xai and signature caches and the bounded LRU: weaker copies of the protocols above, or library code.

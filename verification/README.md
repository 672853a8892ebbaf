# Wazeko in Dafny

A model of the logic at the core of Wazeko, a small layered WhatsApp client, and proofs about it.
Code of the client that works by changing objects is modelled by classes; each of their methods is
proved equal to a function on values, and the properties are proved about those functions, over
all inputs and all runs.

| file | models |
|---|---|
| `options.dfy` | optional values and failing calls |
| `tokens.dfy` | the single-byte token table and its inverse map |
| `wire.dfy` | the binary node format: what the encoder writes, what the decoder reads |
| `reading.dfy` | the decoder on every input, its offset moving back included |
| `codec.dfy` | the encoder and decoder objects |
| `utf8.dfy`, `unicode.dfy` | text encoding and decoding, and their meaning in characters |
| `roundtrip.dfy`, `uniqueness.dfy` | round trips, unique encodings |
| `decoding.dfy`, `truncation.dfy` | re-encoding and cost, truncated input |
| `grammar.dfy`, `shortest.dfy` | the format as a grammar that decides every decoding; shortest encodings |
| `scheduler.dfy` | message queue and rate limiter as one step machine |
| `queue.dfy` | the queue and limiter objects |
| `accounting.dfy`, `fifo.dfy`, `retries.dfy` | conservation and wake-ups, order, retries and termination |
| `control.dfy` | starting and pausing, what settles a job, how long waits last |
| `window.dfy`, `overrun.dfy` | the sliding window, and how several workers overrun it |
| `store.dfy` | the credential store on a file system that may crash |
| `middleware.dfy` | the onion runner |
| `registry.dfy` | the hot-reloading command registry |
| `jid.dfy` | JID parser and printer |
| `events.dfy` | the asynchronous event queue |
| `ratchet.dfy`, `frames.dfy` | Signal sessions and Noise frames over abstract cryptography |
| `reconnect.dfy` | reconnection delays |

## How to read the queue model

A worker is one call of `processJob`, and its phase says which `await` it is suspended in. A run is
any list of actions: calls of the queue's methods, the passing of time, and steps of workers, in any
order; an action that is not possible changes nothing. `Finishing` is the time between the end of
`processJob` and its `.finally` callback: a retried job is then back in its queue while its worker is
still counted. A `Draw` step stands for `acquire` drawing its random jitter, whose value the run
chooses freely. The results about all runs let time pass anywhere; the runs given as failing ones are
prompt, that is, no time passes where the source awaits nothing.

## What turned out to need a condition

Where a property one would expect does not hold of the code for all inputs, the model keeps the code's
behaviour, and a lemma says exactly when the property holds.

- **Round trip.** The decoder uses `TextDecoder`, which drops a leading byte order mark, assigns to
  `attrs[key]`, which does nothing for the key `__proto__`, and puts four-byte lengths together with
  signed shifts; the encoder's `TextEncoder` writes U+FFFD for a lone surrogate. So a node survives
  encoding and decoding exactly when none of its untokenised strings starts with such a mark or has such
  a surrogate, no attribute has that name and none of its binaries has 2^31 bytes or more
  (`RoundTrips.RoundTrip`, with the failing nodes of `RoundTrips.MarkIsDropped`,
  `RoundTrips.SurrogateIsReplaced` and `RoundTrips.ProtoIsDropped`); what comes back of any other node is
  stated too (`RoundTrips.ComesBack`).
- **Re-encoding.** Each invalid byte of a string field may become three, so a decoded node can be encoded
  again exactly when its strings still fit, and it is given back exactly when no mark is left in front of
  a string (`Decoding.Canonical`, with the failing inputs of `Decoding.TooLongAgain` and
  `Decoding.MarkIsLeft`).
- **Unique encodings.** No encoding is a prefix of another, for nodes with binaries below 2^32 bytes
  (`Uniqueness.PrefixFree`); lengths are written modulo 2^32 (`Uniqueness.GiantPrefix`), and nodes that
  differ only in lone surrogates are encoded alike (`Uniqueness.SurrogatesCollide`).
- **Progress of the decoder.** A negative four-byte length moves the offset back, so bytes are read again:
  15 bytes can be decoded for ever (`Decoding.NeverReturns`), to hundreds of nodes
  (`Decoding.CostUnbounded`) or to a TypeError (`Decoding.InFront`). The offset moves back exactly when a BINARY_32 that is reached has a first
  length byte of 128 or more (`Reading.MovesBackExactly`); otherwise decoding returns within its data and
  within a fixed cost (`Decoding.ForwardBound`). A caller can look for such bytes beforehand
  (`Decoding.SafeBytes`).
- **Order and window.** First-in first-out settlement and the sliding-window limit hold in every run
  exactly for queues with `maxConcurrency` at most 1, the default (`Fifo.FifoExactly`,
  `Overruns.WindowExactly`). With more workers a later job may settle first, and several workers can pass
  the quota check before any grant is recorded. With one fixed jitter the window is kept all the same
  exactly when the jitter times the whole part of `maxMessagesPerWindow / maxConcurrency` reaches the
  window.
- **Checksums.** A store with checksum validation refuses to load after a save that died between its two
  renames, or after a store without it has saved over a stored digest; there is no other way to get there
  (`AtomicStore.MismatchCause`, `AtomicStore.MixedMismatch`).
- **Hot reload.** A file's list keeps the name of a command that another file has taken over, so
  reloading the first file unregisters the other's command (`Registry.TakenOverIsRemoved`,
  `Registry.UnloadExact`); reloads are exact throughout a run exactly when there is no such take-over
  (`Registry.ReloadExactly`). The alias map stays the union of the live commands' aliases exactly when no
  registration takes an alias from another command or drops one of the command it replaces
  (`Registry.RegisterExactly`, `Registry.RunExact`, with failing inputs in `Registry.AliasStolen` and
  `Registry.AliasLeft`).
  Unregistering undoes registering exactly when the name was free and no alias resolved to another
  command (`Registry.UnregisterUndoes`).
- **Sessions and frames.** Sending and receiving share one Signal chain. A message opens when its position is
  the number of messages its receiver has sent and opened (`Ratchets.HeadOpensInTurn`). Out of turn it is
  tried with another key, and since the cipher is not authenticated it may be rejected or open to some
  other text (`Ratchets.CrossingMeets`, `Ratchets.CrossingLoses`). So a conversation loses nothing exactly
  when no messages cross, as long as no message delivered out of turn happens to open to the very text
  that was sent (`Ratchets.NothingLostExactly`); conversations that take turns stay in step. The frame
  counter moves even when decryption fails, so one foreign frame of 19 bytes or more shifts the receiver
  for good (`Frames.KthFrameExactly`). The counter is never checked against its last value, which section 5.1 of
  the Noise Protocol Framework asks for; IVs repeat after 2^64 frames (`Frames.IvsDistinct`).
- **Backoff.** Only when the initial interval is at most the cap is the first delay capped too
  (`Reconnect.CappedPowersExactly`).
- **Iteration.** The async iterator over the event queue ends as soon as the queue is closed; events still
  buffered then reach only direct callers of `next` (`EventQueues.IteratorReceives`).

## Model

| member | source | states |
|---|---|---|
| `Tokens.GetTokenIndex` | packages/wazeko-protocol/src/tokens.ts:60-74 | an index found is a byte, belongs to a non-empty token and looks up to that token; none found for a non-empty string means no entry of the table is that string |
| `Tokens.BuildTokenMap` | packages/wazeko-protocol/src/tokens.ts:60-66 | the map filled by the loop at load time agrees with `GetTokenIndex` on every string, present or absent |
| `Tokens.TableFacts` | packages/wazeko-protocol/src/tokens.ts:1-59 | the whole table is free of duplicates, ASCII only, and no entry is longer than 16 characters |
| `Tokens.TokenInverse` | packages/wazeko-protocol/src/tokens.ts:60-74 | looking up a token and then its index gives the index back for every entry except the empty first one, which has no index |
| `Codec.BinaryEncoder.EncodeNode` | packages/wazeko-protocol/src/encoder.ts:15-19 | returns the node's encoding, or the first exception of the writing order, whatever was in the buffer before |
| `Codec.BinaryEncoder.WriteNode` | packages/wazeko-protocol/src/encoder.ts:21-44 | appends exactly the bytes of the whole node to the buffer, or reports the first limit broken in writing order |
| `Codec.BinaryEncoder.WriteContent` | packages/wazeko-protocol/src/encoder.ts:34-43 | appends the bytes of the content behind the attributes, or reports the first limit broken among the children |
| `Codec.BinaryEncoder.WriteListHeader` | packages/wazeko-protocol/src/encoder.ts:46-56 | appends the shortest of the three list headers; sizes from 65536 on are refused |
| `Codec.BinaryEncoder.WriteString` | packages/wazeko-protocol/src/encoder.ts:58-73 | appends a token reference if the string is in the table, and otherwise the length and bytes of its UTF-8, with U+FFFD for a lone surrogate; longer than 65535 bytes is refused |
| `Codec.BinaryEncoder.WriteBinary` | packages/wazeko-protocol/src/encoder.ts:75-91 | appends the one-byte or four-byte length and every byte of the data |
| `Codec.BinaryDecoder.DecodeBuffer` | packages/wazeko-protocol/src/decoder.ts:21-24 | returns the node the decoder reads from the start of the buffer, or the exception thrown, with a stack of the given size |
| `Codec.BinaryDecoder.NextNode` | packages/wazeko-protocol/src/decoder.ts:26-50 | delivers the node read at the offset, wherever that is, and leaves the offset where reading led it, or reports the exception |
| `Codec.BinaryDecoder.NextContent` | packages/wazeko-protocol/src/decoder.ts:52-77 | delivers children, binary or string content according to the next byte, and absent content at the end of the buffer |
| `Codec.BinaryDecoder.NextBytes` | packages/wazeko-protocol/src/decoder.ts:93-100 | for any offset and length, also negative ones: the end of input if the sum lies behind the data, else what `subarray` cuts out, with the offset moved by the length |
| `Codec.BinaryDecoder.NextListSize` | packages/wazeko-protocol/src/decoder.ts:102-116 | delivers the size behind any of the three list tags, and refuses every other tag |
| `Codec.BinaryDecoder.NextString` | packages/wazeko-protocol/src/decoder.ts:118-138 | delivers the token, or the bytes as text, with a leading byte order mark dropped and invalid UTF-8 replaced; unknown tags and unknown token indices are refused |
| `Utf8.WrittenSame` | packages/wazeko-protocol/src/encoder.ts:63 | encoding leaves a string without lone surrogates alone |
| `Utf8.RepairMeans` | packages/wazeko-protocol/src/decoder.ts:129-133 | decoding leaves well-formed UTF-8 alone and makes any other bytes well-formed, of at most three times the length |
| `Unicode.ValidExactly` | packages/wazeko-protocol/src/decoder.ts:129-133 | a string is well-formed if and only if it is the encoding of some characters, code points other than surrogates |
| `Unicode.ScalarIsPiece` | packages/wazeko-protocol/src/decoder.ts:129-133 | a character at the beginning of the bytes is read as one piece |
| `Unicode.GarbageExactly` | packages/wazeko-protocol/src/decoder.ts:129-133 | a piece that is replaced by U+FFFD is one byte or the longest beginning of a character cut off there, and no character starts with it |
| `Codec.BinaryDecoder.NextBinary` | packages/wazeko-protocol/src/decoder.ts:140-152 | delivers the binary behind an 8-bit or a signed 32-bit length, which may move the offset back |
| `Reading.DecodedIs` | packages/wazeko-protocol/src/decoder.ts:21-50 | a larger stack changes nothing about a decoding but whether it overflows, so what decode gives is well defined |
| `Reading.MovesBackExactly` | packages/wazeko-protocol/src/decoder.ts:21-152 | on every input the offset moves back if and only if a BINARY_32 that is reached has a first length byte of 128 or more; otherwise the decoder and the forward reader agree on value, offset and exception |
| `Reading.SubArrayMeans` | packages/wazeko-protocol/src/decoder.ts:93-99 | what `subarray` cuts out for an end behind, before or, negative, counted from the end of the data |
| `RoundTrips.EncoderLimits` | packages/wazeko-protocol/src/encoder.ts:21-73 | the encoder succeeds if and only if every list size and child count is at most 65535 and every untokenised string at most 65535 bytes |
| `RoundTrips.EncoderError` | packages/wazeko-protocol/src/encoder.ts:15-73 | the exception thrown is that of the first limit broken in writing order: size, tag, keys and values, child count, children |
| `RoundTrips.HeaderRead` | packages/wazeko-protocol/src/encoder.ts:46-56 | every list header within the limit is read back as the size written, wherever it stands |
| `RoundTrips.TextRead` | packages/wazeko-protocol/src/encoder.ts:58-73 | every string within the limit is read back, wherever it stands; an untokenised one loses one leading byte order mark and has its lone surrogates replaced |
| `RoundTrips.BinaryRead` | packages/wazeko-protocol/src/encoder.ts:75-91 | binary data is read back exactly when it is shorter than 2^31 bytes; from there on no reading returns it |
| `RoundTrips.SetAttrUnique` | packages/wazeko-protocol/src/decoder.ts:32-39 | assigning attributes one by one keeps every key once |
| `RoundTrips.NodeRead` | packages/wazeko-protocol/src/decoder.ts:26-77 | at any offset of any data, reading an encoded node with binaries below 2^31 bytes forward gives what is received of it, in closed form, ending behind its last byte |
| `RoundTrips.NodeReadBack` | packages/wazeko-protocol/src/decoder.ts:26-152 | wherever an encoded node stands and whatever is read in between, what comes back with the offset in the data is what is received of it, and its binaries were below 2^31 bytes |
| `RoundTrips.RoundTrip` | packages/wazeko-protocol/src/encoder.ts:15-91 | decode(encode(n) ++ rest) gives n and stops at the end of encode(n), for every rest, if and only if no untokenised string of n has a lone surrogate or starts with a byte order mark, no attribute is called __proto__ and no binary reaches 2^31 bytes; when the offset ends in the data that is also exactly when it gives n at all |
| `RoundTrips.ReceivedExactly` | packages/wazeko-protocol/src/encoder.ts:15-91 | what is received of a node is the node itself if and only if no untokenised string has a lone surrogate or starts with a byte order mark and no attribute is called __proto__ |
| `RoundTrips.ComesBack` | packages/wazeko-protocol/src/encoder.ts:15-91 | decode(encode(n) ++ rest) gives what is received of n and stops at the end of encode(n), for every node the encoder accepts with binaries below 2^31 bytes |
| `RoundTrips.SurrogateIsReplaced` | packages/wazeko-protocol/src/encoder.ts:63 | a node whose tag, a lone surrogate, comes back as U+FFFD |
| `RoundTrips.ProtoIsDropped` | packages/wazeko-protocol/src/decoder.ts:37-40 | a node whose attribute __proto__ is encoded and not given back |
| `RoundTrips.MarkIsDropped` | packages/wazeko-protocol/src/decoder.ts:129-133 | a node that is encoded and decoded without an exception to another node |
| `RoundTrips.GiantComesBack` | packages/wazeko-protocol/src/decoder.ts:93-99 | with 2^32 bytes in all, a binary of 2^31 bytes or more is returned after all, with the offset in front of the data, because `subarray` counts a negative end from the end |
| `Uniqueness.PrefixFree` | packages/wazeko-protocol/src/encoder.ts:15-91 | of all nodes the encoder accepts with binaries below 2^32 bytes, no encoding is a prefix of that of another node, but for nodes that differ only in lone surrogates, which have the same encoding |
| `Uniqueness.StreamsSplitUniquely` | packages/wazeko-protocol/src/encoder.ts:15-91 | two lists of such nodes whose concatenated encodings agree are equal, but for lone surrogates |
| `Uniqueness.SurrogatesCollide` | packages/wazeko-protocol/src/encoder.ts:63 | two nodes that differ in a lone surrogate only have the same encoding |
| `Grammar.CutElement` | packages/wazeko-protocol/src/decoder.ts:26-152 | every input, at any offset, falls into the pieces of a node: list headers, string fields and binary data given byte by byte, of which at most the last one fails |
| `Grammar.DecodesAsPieces` | packages/wazeko-protocol/src/decoder.ts:21-152 | the pieces alone decide what decoding gives: the node they say, with the offset behind them, or the reason the failing one gives, unless the offset moves back |
| `Grammar.AcceptedExactly` | packages/wazeko-protocol/src/decoder.ts:26-152 | reading forward, an input is accepted as a node up to an offset if and only if it begins with pieces of that node and of that length |
| `Grammar.RefusedExactly` | packages/wazeko-protocol/src/decoder.ts:26-152 | it is refused for a reason if and only if it begins with pieces of which the last fails for that reason: an unknown list or string tag, an unknown token, an empty node, or the end of the input within a piece |
| `Grammar.FirstTag` | packages/wazeko-protocol/src/decoder.ts:102-116 | every input that is accepted, also by moving back, begins with 1 or 2; a first byte above 2 is refused as that list tag, 0 as an empty node, and no byte as the end of the input |
| `Grammar.AssignedMeans` | packages/wazeko-protocol/src/decoder.ts:36-40 | of the pairs with one key the last one is the attribute, and __proto__ never is |
| `Shortest.EncodingShortest` | packages/wazeko-protocol/src/encoder.ts:46-91 | no input whose fields are well-formed or non-empty tokens and whose contents are binary, lists or short strings is shorter than what the encoder writes for the node it decodes to |
| `Shortest.MessageEncoded` | packages/wazeko-protocol/src/encoder.ts:15-91 | the eight bytes of a message with two bytes of content |
| `Shortest.QueryEncoded` | packages/wazeko-protocol/src/encoder.ts:15-91 | the 22 bytes of a query with a token and another string in an attribute and two children, one of them with an empty list |
| `Uniqueness.GiantPrefix` | packages/wazeko-protocol/src/encoder.ts:75-91 | the bound is needed: lengths are written modulo 2^32, so the encoding of any binary of 256 bytes or more begins that of the same one with 2^32 bytes added |
| `Decoding.NodeReadWellformed` | packages/wazeko-protocol/src/decoder.ts:26-152 | whatever is decoded, also after moving back, has strings without lone surrogates, unique attribute keys without __proto__ and lists within the encoder limits; its strings are within them too if the string fields of the input are well-formed or at most 21845 bytes long; and from up to 2^31 bytes it holds no binary of 2^31 bytes |
| `Decoding.Canonical` | packages/wazeko-protocol/src/decoder.ts:21-152 | a node decoded from any accepted bytes can be encoded again if and only if its strings fit into 65535 bytes, so always if every string field of the input is well-formed UTF-8 or at most 21845 bytes long; decoding that gives the node back if and only if none of its untokenised strings still starts with a byte order mark and no binary reaches 2^31 bytes, which from up to 2^31 bytes it cannot |
| `Decoding.TooLongAgain` | packages/wazeko-protocol/src/decoder.ts:129-133 | an accepted input whose node the encoder refuses: 21846 invalid bytes become 65538 |
| `Decoding.MarkIsLeft` | packages/wazeko-protocol/src/decoder.ts:129-133 | an accepted input whose node is not given back by re-encoding |
| `Decoding.RewindsExactly` | packages/wazeko-protocol/src/decoder.ts:146-152 | a four-byte length moves the offset back exactly when its first byte is 128 or more |
| `Decoding.ForwardBound` | packages/wazeko-protocol/src/decoder.ts:26-153 | unless the offset moves back, decoding returns, stays within the data, and has consumed at least four bytes for every node and every attribute pair it returns |
| `Decoding.SafeBytes` | packages/wazeko-protocol/src/decoder.ts:146-149 | without a byte 4 directly in front of a byte of 128 or more the offset never moves back |
| `Decoding.NeverReturns` | packages/wazeko-protocol/src/decoder.ts:64-68 | an input of 15 bytes for which no stack is large enough: a length of -15 makes a node its own child |
| `Decoding.CostUnbounded` | packages/wazeko-protocol/src/decoder.ts:64-68 | inputs of 15 bytes decoded to up to 256 nodes: a length of -9 makes every child read the same bytes |
| `Decoding.InFront` | packages/wazeko-protocol/src/decoder.ts:102-114 | an input of 15 bytes whose second child is read in front of the data, which throws a TypeError |
| `Truncation.NodeTruncated` | packages/wazeko-protocol/src/decoder.ts:26-100 | what reading any proper prefix of an encoding gives, in closed form, for every node the encoder accepts with binaries below 2^31 bytes: a node that consumes every byte, or an end-of-input error |
| `Truncation.CutErases` | packages/wazeko-protocol/src/decoder.ts:52-55 | cutting right before the content of the j-th node of the rightmost spine gives what is received of the node with exactly that content erased |
| `Truncation.TruncatedIsCut` | packages/wazeko-protocol/src/decoder.ts:52-77 | every accepted proper prefix ends right before the content of some spine node |
| `Truncation.CutsIncrease` | packages/wazeko-protocol/src/decoder.ts:26-77 | different spine nodes give different accepted prefixes, outer nodes shorter ones |
| `Truncation.TruncationExact` | packages/wazeko-protocol/src/decoder.ts:26-100 | for every node the encoder accepts with binaries below 2^31 bytes, a proper prefix of its encoding is accepted if and only if it ends right before the content of a content-bearing spine node; it then gives what is received of the node with that content erased, and every other prefix is refused for end of input |
| `MessageQueues.AntiBanRateLimiter.GetQuotaWaitTime` | packages/wazeko/src/queue/rate-limiter.ts:27-37 | drops exactly the expired timestamps and returns the time until the oldest one left expires if the window is full, else 0 |
| `MessageQueues.AntiBanRateLimiter.Record` | packages/wazeko/src/queue/rate-limiter.ts:54 | the grant time is appended |
| `MessageQueues.MessageQueue.EnqueueJob` | packages/wazeko/src/queue/message-queue.ts:45-74 | the job joins the end of its priority's queue and dispatching runs |
| `MessageQueues.MessageQueue.GetNextJob` | packages/wazeko/src/queue/message-queue.ts:76-81 | takes the front job of the highest non-empty queue and leaves all else; none if all are empty |
| `MessageQueues.MessageQueue.TriggerProcessing` | packages/wazeko/src/queue/message-queue.ts:83-97 | when processing is on, starts jobs in queue order until no slot or no job is left; else changes nothing |
| `MessageQueues.MessageQueue.DispatchOne` | packages/wazeko/src/queue/message-queue.ts:86-96 | one round of the loop: one job taken, both counters raised, its first quota check made |
| `MessageQueues.MessageQueue.ProcessJob` | packages/wazeko/src/queue/rate-limiter.ts:42-46 | the new worker waits for its quota, or goes on to its jitter when there is room |
| `MessageQueues.MessageQueue.StartProcessing` | packages/wazeko/src/queue/message-queue.ts:151-154 | processing is on and dispatching has run |
| `MessageQueues.MessageQueue.PauseProcessing` | packages/wazeko/src/queue/message-queue.ts:156-158 | processing is off and nothing else has changed |
| `MessageQueues.MessageQueue.ClearQueues` | packages/wazeko/src/queue/message-queue.ts:160-164 | the three queues are empty; workers and counters are untouched |
| `MessageQueues.MessageQueue.DrawJitter` | packages/wazeko/src/queue/rate-limiter.ts:48-54 | a positive jitter is waited for; otherwise the grant is recorded at once |
| `MessageQueues.MessageQueue.AfterJitter` | packages/wazeko/src/queue/rate-limiter.ts:51-54 | the grant is recorded with the time after the jitter |
| `MessageQueues.MessageQueue.AfterSendOk` | packages/wazeko/src/queue/message-queue.ts:108-113 | one more completion, the job settled, its worker finishing |
| `MessageQueues.MessageQueue.AfterSendFail` | packages/wazeko/src/queue/message-queue.ts:114-136 | one retry used; a backoff of retryDelayMs * 2^(retryCount - 1) if retries remain, else the job is rejected |
| `MessageQueues.MessageQueue.AfterBackoff` | packages/wazeko/src/queue/message-queue.ts:122-129 | the job is in front of its queue while its worker still holds the slot |
| `MessageQueues.MessageQueue.AfterProcessJob` | packages/wazeko/src/queue/message-queue.ts:91-95 | the slot is given back, then dispatching runs |
| `MessageQueues.MessageQueue.GetStats` | packages/wazeko/src/queue/message-queue.ts:139-149 | reports the queue lengths and counters of the state |
| `Accounting.StepKeeps` | packages/wazeko/src/queue/message-queue.ts:45-164 | every step of workers, callers and clock keeps conservation, the counters, the worker limit and the absence of lost wake-ups |
| `Accounting.EveryRun` | packages/wazeko/src/queue/message-queue.ts:31-164 | so every reachable state, at any concurrency, has all of them |
| `Accounting.ExactlyOnePlace` | packages/wazeko/src/queue/message-queue.ts:45-137 | every job enqueued is exactly once in one of queued, in flight, settled and cleared, and no other job exists |
| `Accounting.SettledOnce` | packages/wazeko/src/queue/message-queue.ts:108-135 | no job is resolved or rejected twice |
| `Accounting.StatsAddUp` | packages/wazeko/src/queue/message-queue.ts:139-149 | pending + processing + completed + failed + cleared = enqueued + workers that are finishing, so the statistics are exact when none is |
| `Accounting.WakeupComes` | packages/wazeko/src/queue/message-queue.ts:83-97 | with processing on, a job waiting and a slot free, some worker is finishing, and its last step starts jobs until no slot or no job is left |
| `Accounting.DispatchByPriority` | packages/wazeko/src/queue/message-queue.ts:76-97 | the workers the loop starts have priorities that do not rise, and when it ends no queue above any of them holds a job: each was started while the queues above were empty |
| `Control.FlagFollows` | packages/wazeko/src/queue/message-queue.ts:83-97 | the queue is processing after a step if and only if the step is start, or it was before and the step is not pause |
| `Control.JobsArrive` | packages/wazeko/src/queue/message-queue.ts:45-74 | only enqueue adds a job, with the priority, retries and delay given |
| `Control.QueuesClear` | packages/wazeko/src/queue/message-queue.ts:160-164 | clear empties the queues, and only clear removes jobs without settling them: exactly the queued ones |
| `Control.PausedStep` | packages/wazeko/src/queue/message-queue.ts:83-97 | while the queue is not processing, no step but start takes a job into flight, and a queued job leaves its queue only through clear |
| `Control.PausedRun` | packages/wazeko/src/queue/message-queue.ts:83-97 | so in every run until the next start, and each job in flight is sent at most once more |
| `Control.RunTells` | packages/wazeko/src/queue/message-queue.ts:108-135 | in every run the settlements are exactly those its sends tell, in order: a job is resolved when a send of it succeeds, and rejected when one fails and no retry is left |
| `Control.WaitsExactly` | packages/wazeko/src/queue/message-queue.ts:114-129 | a backoff lasts retryDelayMs doubled with every failure before, a jitter as long as drawn and a quota wait as long as the check says, to the millisecond |
| `Control.SuspendedWaits` | packages/wazeko/src/queue/message-queue.ts:99-129 | in every run, a job that waits for its quota, jitter or backoff is sent no earlier than the wait is over |
| `Control.BackoffWaits` | packages/wazeko/src/queue/message-queue.ts:114-129 | in every run, between a failed send and the next send of the same job at least that backoff passes |
| `Control.JitterWaits` | packages/wazeko/src/queue/rate-limiter.ts:48-52 | in every run, between the draw of a positive jitter and the send at least the jitter passes |
| `Fifo.StepTagged` | packages/wazeko/src/queue/message-queue.ts:45-137 | every step keeps each job in the queue of its own priority, with its options and identity unchanged |
| `Fifo.StepInOrder` | packages/wazeko/src/queue/message-queue.ts:76-137 | with one worker, every step keeps settled ++ in flight ++ queued = enqueued minus cleared, for every priority |
| `Fifo.RequeueInOrder` | packages/wazeko/src/queue/message-queue.ts:118-129 | the end of a backoff keeps that order, because the job re-enters in front while its slot is held |
| `Fifo.ClearInOrder` | packages/wazeko/src/queue/message-queue.ts:160-164 | clearing removes exactly the queued jobs from the order |
| `Fifo.FirstInFirstOut` | packages/wazeko/src/queue/message-queue.ts:76-137 | in every run with one worker, whatever fails, retries, pauses or is cleared, the jobs of one priority settle in their enqueue order, the one in flight is next and the queued ones follow |
| `Fifo.Overtaking` | packages/wazeko/src/queue/message-queue.ts:83-97 | with two or more workers a run in which the second job settles first, whatever positive jitter is drawn; no time passes in it where the source awaits nothing |
| `Fifo.FifoExactly` | packages/wazeko/src/queue/message-queue.ts:34 | the order holds in every run if and only if maxConcurrency is at most 1, and so it does if only the runs count in which no time passes where the source awaits nothing |
| `Fifo.HigherPriorityFirst` | packages/wazeko/src/queue/message-queue.ts:76-97 | in every run, at any concurrency, every step starts workers in order of priority only and leaves no job queued above the priority of any of them |
| `Window.PruneIsSuffix` | packages/wazeko/src/queue/rate-limiter.ts:30 | pruning a list of ascending times removes a first piece of it, exactly the expired entries |
| `Window.SpacedMeansWindow` | packages/wazeko/src/queue/rate-limiter.ts:27-37 | if grants max places apart are a window apart, no window-long half-open interval holds more than max |
| `Window.PruneKeeps` | packages/wazeko/src/queue/rate-limiter.ts:27-37 | after the quota check and its wait there is room for one more grant |
| `Window.WaitExactly` | packages/wazeko/src/queue/rate-limiter.ts:27-37 | a grant at a later time keeps the window if and only if the wait returned is over by then: the wait is neither too short nor too long |
| `Window.StepLimited` | packages/wazeko/src/queue/rate-limiter.ts:42-56 | with one worker, every step keeps the spacing of the full grant history, of which `timestamps` lacks only expired entries |
| `Window.SlidingWindow` | packages/wazeko/src/queue/rate-limiter.ts:27-56 | in every run of a queue with one worker, no interval of windowMs contains more than maxMessagesPerWindow grants, or more than one if that limit is below one |
| `Window.RunGrants` | packages/wazeko/src/queue/message-queue.ts:103-108 | in every run, at any concurrency, the grants are the send attempts, retries included, plus the workers that hold an unused grant |
| `Overruns.LongJitter` | packages/wazeko/src/queue/rate-limiter.ts:42-56 | when it does, any number of workers keeps the window in every such run, since each is granted at most once in a jitter |
| `Overruns.OverrunByRounds` | packages/wazeko/src/queue/rate-limiter.ts:42-56 | when it does not and the jitter is positive, all workers drawing at once, round by round, overrun the window |
| `Overruns.OverrunByWaiting` | packages/wazeko/src/queue/rate-limiter.ts:42-56 | without jitter, two workers that wait for a full window overrun the next one, because nothing is checked after the wait |
| `Overruns.WindowExactly` | packages/wazeko/src/queue/rate-limiter.ts:42-56 | the window is kept in every run if and only if maxConcurrency is at most 1; among the runs that draw one fixed jitter, with no time passing where the source awaits nothing, it is kept in all if and only if maxConcurrency is at most 1 or the jitter times the whole part of maxMessagesPerWindow / maxConcurrency reaches windowMs |
| `Retries.StepRetries` | packages/wazeko/src/queue/message-queue.ts:99-137 | every step keeps, for every job, sends, failures and scheduled backoff in step with each other |
| `Retries.RetryArithmetic` | packages/wazeko/src/queue/message-queue.ts:114-136 | in every run, a rejected job was sent maxRetries + 1 times, failed every time and waited retryDelayMs * (2^maxRetries - 1); a resolved one was sent at most as often, failed every time but the last and waited the partial sum |
| `Retries.ProgressMeasure` | packages/wazeko/src/queue/message-queue.ts:83-137 | every step of a worker decreases one explicit measure over attempts left and phases |
| `Retries.WorkIsBounded` | packages/wazeko/src/queue/message-queue.ts:83-137 | from any reachable state, with no further enqueue, the worker steps of any run are at most the measure, whatever the environment does |
| `Retries.WorkersCanMove` | packages/wazeko/src/queue/message-queue.ts:99-137 | while a worker exists, some worker step is possible once enough time has passed |
| `Retries.DrainedWhenQuiet` | packages/wazeko/src/queue/message-queue.ts:83-97 | a running queue without workers is empty, and every job has been settled or cleared |
| `Retries.CanDrain` | packages/wazeko/src/queue/message-queue.ts:83-137 | from every live state there is a run of time and worker steps alone that empties the queue |
| `AtomicStore.FileSystem.Execute` | packages/wazeko-auth/src/atomic-file-store.ts:56-89 | one file operation: complete, or, when the process dies, undone, except that a write may leave any torn content |
| `AtomicStore.AtomicFileAuthStore.LoadCredentials` | packages/wazeko-auth/src/atomic-file-store.ts:28-54 | null without the file, a mismatch on a wrong stored digest, else the parsed content; a missing digest is not checked |
| `AtomicStore.AtomicFileAuthStore.SaveCredentials` | packages/wazeko-auth/src/atomic-file-store.ts:56-75 | the files are those of the write, digest and rename sequence cut at the point where the process dies |
| `AtomicStore.AtomicFileAuthStore.ClearCredentials` | packages/wazeko-auth/src/atomic-file-store.ts:77-89 | the credentials go first and the digest second, each possibly not reached |
| `AtomicStore.SaveEffect` | packages/wazeko-auth/src/atomic-file-store.ts:56-75 | a save changes the two target files only at its two renames, at every crash point |
| `AtomicStore.RunHolds` | packages/wazeko-auth/src/atomic-file-store.ts:56-89 | after every run of crashing saves and clears, by stores with and without checksums, the credentials file holds the current value whole or is absent, and the checksum file the digest stored last |
| `AtomicStore.LoadIsCurrent` | packages/wazeko-auth/src/atomic-file-store.ts:28-89 | after every such run, load gives null or the value saved last and whole; it rejects exactly when the loading store uses checksums and the digest stored last is not that of the value |
| `AtomicStore.MismatchCause` | packages/wazeko-auth/src/atomic-file-store.ts:56-74 | every rejection goes back to a save that died between the two renames, or to a completed save without checksums over a stored digest, with nothing saved or cleared since |
| `AtomicStore.MixedMismatch` | packages/wazeko-auth/src/atomic-file-store.ts:65-74 | two completed saves, with and without checksums, end in a rejection without any crash |
| `AtomicStore.SaveRestores` | packages/wazeko-auth/src/atomic-file-store.ts:56-75 | one completed save makes any directory loadable again, with that value, for a store with the same option |
| `AtomicStore.SaveCrashPoints` | packages/wazeko-auth/src/atomic-file-store.ts:56-75 | one crashing save gives the old or the new result at every crash point, except a rejection between the two renames of a checksummed save over other credentials |
| `Middleware.MiddlewarePipeline.Use` | packages/wazeko/src/plugins/middleware.ts:6-9 | the middleware is appended |
| `Middleware.MiddlewarePipeline.ExecuteTarget` | packages/wazeko/src/plugins/middleware.ts:14-33 | the execution leaves the nested trace down to the first position that does not call next, and ends as position 0 does |
| `Middleware.MiddlewarePipeline.Run` | packages/wazeko/src/plugins/middleware.ts:17-30 | the runner with its shared call-once index, for any index and trace |
| `Middleware.MiddlewarePipeline.Call` | packages/wazeko/src/plugins/middleware.ts:28-29 | a middleware of any behaviour, calling next zero, one or many times and catching or rethrowing |
| `Middleware.UsedUp` | packages/wazeko/src/plugins/middleware.ts:18-20 | after its first call of next a middleware starts nothing any more: every further call fails |
| `Middleware.ExecuteIsOnion` | packages/wazeko/src/plugins/middleware.ts:14-33 | for all middlewares, the trace of an execution is exactly enter 0..k, exit k..0, and its outcome passes outwards through each middleware once |
| `Middleware.AtMostOnce` | packages/wazeko/src/plugins/middleware.ts:14-33 | every middleware and the target are entered at most once, and position j + 1 only between entry and exit of position j |
| `Middleware.EnteredInOrder` | packages/wazeko/src/plugins/middleware.ts:15-30 | for middlewares that need not wait for next, in any interleaving of their calls, the positions entered are 0, 1, 2, ... each once |
| `Middleware.TargetRuns` | packages/wazeko/src/plugins/middleware.ts:23-26 | the target runs if and only if every middleware calls next |
| `Registry.CommandRegistry.RegisterCommand` | packages/wazeko/src/plugins/command-loader.ts:57-75 | the command stands under its lower-case name, all its aliases point to it, and its file lists it |
| `Registry.CommandRegistry.UnregisterCommand` | packages/wazeko/src/plugins/command-loader.ts:77-99 | removes the command, its aliases and its file entry, and tells whether it was there |
| `Registry.CommandRegistry.FindCommand` | packages/wazeko/src/plugins/command-loader.ts:101-111 | a name wins over an alias; an alias of nothing live finds nothing |
| `Registry.CommandRegistry.Load` | packages/wazeko/src/plugins/command-loader.ts:120-162 | forgets what the file had registered, then registers and reports the named commands of the import; a failing import only forgets |
| `Registry.RunConsistent` | packages/wazeko/src/plugins/command-loader.ts:57-162 | in every run of register, unregister and load, each live command stands under its own name and is listed under its file |
| `Registry.UnregisterAllRemoves` | packages/wazeko/src/plugins/command-loader.ts:124-129 | unregistering a list of names removes exactly the commands of those names |
| `Registry.UnloadComplete` | packages/wazeko/src/plugins/command-loader.ts:123-129 | after any run, the unregister phase of a load leaves no live command of that file and changes no command it leaves |
| `Registry.UnloadExact` | packages/wazeko/src/plugins/command-loader.ts:123-129 | it removes exactly that file's commands if and only if no live command of another origin is still listed under the file |
| `Registry.TakenOverIsRemoved` | packages/wazeko/src/plugins/command-loader.ts:123-129 | two files registering one name: reloading the first unregisters the second file's command |
| `Registry.TakeOverExactly` | packages/wazeko/src/plugins/command-loader.ts:57-75 | registering keeps every reload exact if and only if it does not take the live name of a command from another file |
| `Registry.ReloadExactly` | packages/wazeko/src/plugins/command-loader.ts:57-162 | reloads are exact throughout a run, between the registrations of one module included, if and only if no registration takes a live name of another file; registering a name of the own file again does no harm |
| `Registry.ReloadExact` | packages/wazeko/src/plugins/command-loader.ts:57-129 | so after any run without such take-overs, unloading a file removes exactly that file's commands |
| `Registry.RegisterExactly` | packages/wazeko/src/plugins/command-loader.ts:57-65 | registering keeps the alias map the union of the live commands' aliases if and only if no alias is taken from another command and a replaced command leaves none behind |
| `Registry.AliasStolen` | packages/wazeko/src/plugins/command-loader.ts:61-65 | an alias taken by a second command is gone for the first when the second is unregistered |
| `Registry.AliasLeft` | packages/wazeko/src/plugins/command-loader.ts:57-65 | a command registered again without an alias is still found under it |
| `Registry.RunExact` | packages/wazeko/src/plugins/command-loader.ts:57-162 | the alias map stays exact throughout a run if and only if every registration, direct or by a module, does so; unregistering never harms it |
| `Registry.LookupMeans` | packages/wazeko/src/plugins/command-loader.ts:101-111 | with an exact alias map a query finds exactly the command of that name or else the one that declares the alias |
| `Registry.UnregisterUndoes` | packages/wazeko/src/plugins/command-loader.ts:57-111 | unregistering restores every lookup from before registering if and only if the name was free and no alias of the command resolved to another one |
| `Registry.RegisterAllMeans` | packages/wazeko/src/plugins/command-loader.ts:146-157 | after registering the items of a module, a name and an alias belong to the last item that has them, and all others are as before |
| `Registry.LoadBrings` | packages/wazeko/src/plugins/command-loader.ts:120-162 | after a load, in any state, each exported name belongs to the last item that has it, and of all other commands exactly those listed under the file are gone |
| `Registry.LoadFinds` | packages/wazeko/src/plugins/command-loader.ts:101-157 | a loaded item is found under its name if no later item of the module has that name, and under an alias that is no live name if no later item declares it |
| `Registry.FailedLoadForgets` | packages/wazeko/src/plugins/command-loader.ts:123-136 | a load whose import fails forgets the commands listed under the file and changes no other |
| `Registry.AcceptedMeans` | packages/wazeko/src/plugins/command-loader.ts:137-160 | a load reports exactly the items with a name, in order |
| `Jids.DecimalParses` | packages/wazeko-types/src/jid.ts:59-71 | every printed integer reads back as itself |
| `Jids.PrintParses` | packages/wazeko-types/src/jid.ts:30-79 | a clean JID is read back from what it prints |
| `Jids.ParsedIsClean` | packages/wazeko-types/src/jid.ts:41-79 | every parsed JID is clean: no separator in its parts and nothing to trim |
| `Jids.PrintParseExactly` | packages/wazeko-types/src/jid.ts:30-79 | parse(print(j)) = j if and only if j is clean |
| `Jids.ParseIsStable` | packages/wazeko-types/src/jid.ts:30-79 | printing and parsing an accepted string again changes nothing |
| `Jids.PrintInjective` | packages/wazeko-core/src/signal.ts:122-123 | different clean JIDs have different printed forms, so session keys do not collide |
| `Jids.ParseMeans` | packages/wazeko-types/src/jid.ts:41-79 | what every string with one @ is parsed to: the user up to the first _ or :, the agent and device behind them, the server behind the @ |
| `Jids.ParseRefuses` | packages/wazeko-types/src/jid.ts:41-50 | a string is refused as empty if and only if it is all white space, and as malformed if and only if it has not exactly one @ otherwise |
| `Jids.ParseIntMeans` | packages/wazeko-types/src/jid.ts:59-71 | a number is white space, a sign and digits; what follows is ignored, and without digits there is none |
| `EventQueues.AsyncEventQueue.PushEvent` | packages/wazeko/src/events.ts:16-24 | the event goes to the oldest waiting call, or else into the buffer; a closed queue ignores it |
| `EventQueues.AsyncEventQueue.NextEvent` | packages/wazeko/src/events.ts:26-36 | the call takes the oldest buffered event, or null when closed and drained, or waits last in line |
| `EventQueues.AsyncEventQueue.CloseQueue` | packages/wazeko/src/events.ts:38-44 | every waiting call is told of the disconnect, and the buffer stays |
| `EventQueues.RunLinear` | packages/wazeko/src/events.ts:16-44 | in every run the buffer is the accepted events not yet asked for, and the waiters are the calls not yet answered, in order |
| `EventQueues.KthAnswer` | packages/wazeko/src/events.ts:16-44 | in every run the k-th call of next gets the k-th accepted event, else waits for it, else is disconnected if it came before the first close and gets null if after |
| `EventQueues.BufferHoldsRest` | packages/wazeko/src/events.ts:16-44 | events and consumers never wait together, no accepted event is lost, and a closed queue accepts nothing |
| `EventQueues.IteratorReceives` | packages/wazeko/src/events.ts:46-52 | in every run an iterating consumer is given the accepted events from the first on, one for each call made before the close, then the disconnect if it was waiting; what is buffered after its last call is lost to it |
| `Ratchets.SignalSession.Encrypt` | packages/wazeko-core/src/signal.ts:85-103 | the message is sealed with the key of the present sequence number, and the session moves on by one |
| `Ratchets.SignalSession.Decrypt` | packages/wazeko-core/src/signal.ts:105-116 | the message is opened with the key of the present sequence number; the session moves on by one on success and not at all on failure |
| `Ratchets.ChainClosedForm` | packages/wazeko-core/src/signal.ts:96-98 | after k messages the chain key is SHA-256 iterated k times on the first one and the sequence is k |
| `Ratchets.MessageMeans` | packages/wazeko-core/src/signal.ts:79-116 | the message sealed after k others in closed form: its key from the shared secret, hashed k times, and from k; IV, ciphertext and kind; and how one is opened there |
| `Ratchets.EveryRunOnChain` | packages/wazeko-core/src/signal.ts:85-116 | in every run of two parties, with any interleaving and any foreign messages, each session is k steps along the chain, k being what it sent plus what it opened, and the messages in transit are the last ones sent, sealed at the positions recorded |
| `Ratchets.HeadOpensInTurn` | packages/wazeko-core/src/signal.ts:85-116 | in every run, whatever was injected or lost, the next message in transit opens to the text that was sent if its position is the number of messages its receiver has sent and opened |
| `Ratchets.NothingLostExactly` | packages/wazeko-core/src/signal.ts:85-116 | in every run each party has opened all that was delivered to it, in order, if no messages cross, which depends on the order of sends and receives alone; and only then, unless a message of the run delivered out of turn opens to the very text that was sent |
| `Ratchets.TurnsNeverCross` | packages/wazeko-core/src/signal.ts:85-116 | where a party sends only when nothing is on its way to it, no messages cross |
| `Ratchets.KthOpensKth` | packages/wazeko-core/src/signal.ts:85-116 | in every conversation that takes turns, so in every one-way run with any lead, what a party has opened is the beginning of what the other sent; the next message in transit opens, and only the first is a pkmsg |
| `Ratchets.StrictBinds` | packages/wazeko-core/src/signal.ts:85-116 | a cipher exists with which nothing opens out of turn |
| `Ratchets.BindingMisses` | packages/wazeko-core/src/signal.ts:85-116 | with such a cipher, in no run does a message delivered out of turn open to the text that was sent |
| `Ratchets.CrossingMeets` | packages/wazeko-core/src/signal.ts:85-116 | two messages that cross, with any cipher: each is opened with the key after its own, and each party receives what the cipher makes of that |
| `Ratchets.CrossingLoses` | packages/wazeko-core/src/signal.ts:85-116 | the three outcomes, each with a cipher that undoes its encryption: both messages are lost, both open to a text nobody sent, or both come through; so the condition on the run is needed |
| `Frames.FrameCipher.EncryptFrame` | packages/wazeko-core/src/noise.ts:145-161 | fills a new buffer with header, ciphertext and tag under the IV of the counter, and moves the counter |
| `Frames.FrameCipher.DecryptFrame` | packages/wazeko-core/src/noise.ts:163-176 | decrypts under the IV of the counter and moves the counter even on failure, except for a frame under 19 bytes |
| `Frames.IvMeans` | packages/wazeko-core/src/noise.ts:146-147 | the IV is four zero bytes and the counter modulo 2^64 in eight, the high byte first |
| `Frames.IvExactly` | packages/wazeko-core/src/noise.ts:146-147 | two counters give the same twelve-byte IV if and only if they agree modulo 2^64 (big-endian after four zero bytes, section 12.4 of the Noise Protocol Framework) |
| `Frames.IvsDistinct` | packages/wazeko-core/src/noise.ts:146-147 | the IVs of the first n frames are pairwise distinct if and only if n is at most 2^64 |
| `Frames.HeaderExactly` | packages/wazeko-core/src/noise.ts:150-156 | the three header bytes give the length of the rest of the frame if and only if it is below 2^24 |
| `Frames.BodyOfFrame` | packages/wazeko-core/src/noise.ts:168-170 | cutting a frame gives back the ciphertext and the tag it was made of |
| `Frames.BodyExactly` | packages/wazeko-core/src/noise.ts:163-170 | a frame below 19 bytes is rejected; of any other the last 16 bytes are the tag, and those between them and the header the ciphertext |
| `Frames.FrameMeans` | packages/wazeko-core/src/noise.ts:145-161 | a frame is three bytes with the length of the rest, the high byte first, then the ciphertext and tag under the IV of the counter |
| `Frames.CountersAgree` | packages/wazeko-core/src/noise.ts:145-176 | in every run the sender's counter is the receiver's plus the frames in transit minus the foreign frames the receiver took |
| `Frames.KthFrameExactly` | packages/wazeko-core/src/noise.ts:145-176 | in every run the k-th frame opens to the k-th plaintext when the foreign frames before it are a multiple of 2^64, so when there are none, and a binding cipher rejects it otherwise |
| `Frames.LabelledBinds` | packages/wazeko-core/src/noise.ts:145-176 | a cipher that meets both hypotheses exists |
| `Reconnect.ReconnectManager.NextDelayMs` | packages/wazeko-transport/src/reconnect.ts:36-49 | grants the present interval and grows it up to the cap, or answers null with nothing changed |
| `Reconnect.ReconnectManager.ShouldRetry` | packages/wazeko-transport/src/reconnect.ts:29-34 | true without a limit or below it |
| `Reconnect.ReconnectManager.ResetBackoff` | packages/wazeko-transport/src/reconnect.ts:24-27 | attempt count and interval are those of a new manager |
| `Reconnect.RunClosedForm` | packages/wazeko-transport/src/reconnect.ts:24-49 | after every run of calls and resets the state is the closed form in the number of delays granted since the last reset |
| `Reconnect.NthDelay` | packages/wazeko-transport/src/reconnect.ts:36-49 | the n-th call since a reset is granted the closed-form delay, and null exactly from call maxRetries on |
| `Reconnect.CappedPowersExactly` | packages/wazeko-transport/src/reconnect.ts:43-46 | with a multiplier of at least 1 every delay is min(initial * multiplier^n, max) if and only if initial <= max, and that is also exactly when delays never decrease |

## Left out

- Codec.BinaryDecoder.NextNode: the call stack is a number of nested calls; how many the engine has room for is not modelled.
- Codec.BinaryEncoder.EncodeNode: the buffer grows without bound; the source's array holds fewer than 2^32 bytes.
- Wire.SetAttr: attributes are lists with unique keys in insertion order; JavaScript's reordering of integer-like keys is not modelled.
- Codec.BinaryEncoder.WriteContent: content is absent, bytes or a list of nodes, as the type of a node says; content of another kind, for which the source writes nothing, is not modelled.
- MessageQueues.MessageQueue.DrawJitter: jitter is any integer, so `getRandomJitter` and its bounds are not modelled, and time may pass between the quota check and the draw, which the source does in one step; so results about all runs cover more runs than there are, and the failing runs given are prompt.
- MessageQueues.AntiBanRateLimiter.GetQuotaWaitTime: the clock is a monotone integer and timers never fire early; the wrap-around of delays beyond 2^31 - 1 milliseconds and the `reset` of the limiter are not modelled.
- Fifo.FirstInFirstOut: event listeners that throw or call back into the queue, job status, time-outs and random job ids are not modelled; a job's identity is its serial number.
- Window.SlidingWindow: stated for a limiter used by one queue alone.
- Retries.CanDrain: a send is assumed to end at some point, as a step of the environment.
- AtomicStore.AtomicFileAuthStore.SaveCredentials: overlapping saves, file errors other than a missing file, and renames that are not atomic are not modelled; JSON and SHA-256 are abstract functions, and the trimming of the stored digest is not modelled because a digest has no white space.
- Middleware.MiddlewarePipeline.Call: middlewares await their calls of `next` and do not add middlewares while they run; the target is one outcome. For those that do not await, only the order of entries is stated (`Middleware.EnteredInOrder`).
- The admin, cooldown and logger middlewares: each is one straight-line guard around `next`.
- Registry.CommandRegistry.Load: the dynamic import is a parameter; paths are already resolved, and lower-casing is that of ASCII.
- Message dispatch by prefix, argument splitting and command listing: straight-line code around `getCommand`.
- Jids.ParseIsStable: a number outside the safe integers is a separate outcome, `Rounded`, where the source rounds it; negative zero is zero.
- EventQueues.AsyncEventQueue.NextEvent: promises are answers recorded by call number. The async iterator is modelled for one consumer that makes all the calls and never leaves its loop early.
- Ratchets.KthOpensKth: cryptography is abstract; decryption undoes encryption, messages not from the other party are taken not to open, and nothing is claimed about secrecy. Messages between the parties arrive in order.
- Frames.KthFrameExactly: rejection of shifted frames is stated for a cipher that opens nothing under another IV, which AES-GCM approximates.
- The Noise handshake, prekey generation and the session store's map: they rest wholly on the abstract primitives.
- Reconnect.NthDelay: intervals are real numbers; the rounding of floating point is not modelled. Multiplier and cap are not negative.
- WebSocket transport, HTTP monitoring, QR and pairing output, logging, media encryption, groups, messaging, builder and configuration: input and output, library code or construction with easy facts.

# EventterMQ in Dafny

A model of the core of EventterMQ, a distributed message queue written in Go, and proofs about it. It covers:

- **The segment log** (`Framing`, `SegmentFile`, `FrameBytes`, `SegmentIterator`, `ReaderRuns`): an
  append-only file of length-prefixed records, its recovery scan, readers that wait for more, and every
  interleaving of writes and reads.
- **Replication and failover** (`Replication`, `Failover`, `ReplicaSteps`): bringing a replica in line with
  its source from whatever it held, and which records survive crashes and promotions.
- **The delivery ring** (`DeliveryRing`, `RingRuns`, `RingCommits`, `RingAnswers`, `OffsetLog`): a circular
  buffer of messages leased to subscriptions, shown to be a queue, and the offset commits that come out of
  it, up to a restart.
- **The cluster state** (`Wrappers`, `Lists`, `ClusterState`, `ClusterInvariant`, `CommandEffects`,
  `StateStore`): the twelve commands of the replicated log, their invariant and effects, and the
  compare-and-swap store.
- **Allocation and reconciliation** (`Placement`, `SegmentOpen`, `Reconciler`, `Convergence`,
  `ReconcilePass`, `ReconcileExact`, `PassConvergence`, `OffsetCommits`, `ClusterRuns`, `ShardRuns`,
  `ReachablePasses`, `Transactions`): shards and generations, replica placement, passes of the reconciler,
  and every run of the leader's transactions.
- **Codecs and matching** (`Wire`, `WireBytes`, `CodecV1`, `BytesV1`, `MarshalV1`, `SymbolArrays`, `CodecV0`,
  `BytesV0`, `MarshalV0`, `TopicMatch`): AMQP 1.0 and 0-9-1 values, and topic patterns.

Objects that the program updates in place are classes here (`File`, `Iterator`, `Group`, `Subscription`,
`Buffer`); each method is proved equal to a transition function on values, and properties over whole runs
are proved of those functions. What the functions mean is stated apart from their bodies: in literal bytes,
positions and field values, and as laws over runs. Loops over slices and maps are methods with loops.
Concurrency is a state machine over the steps that locks and atomic operations make indivisible; waiting on
a condition variable is an outcome of one step and a later step that resumes it.
`dafny verify dfyconfig.toml` checks everything.

## What the code does that one might not expect

- A topic pattern with an empty word that only `#` and empty words follow accepts keys it should not
  (`TopicMatch.MatcherExact`).
- A length prefix just below 2^64 makes the recovery scan advance by less than the prefix itself, so that
  opening can leave a file that does not open to itself (`SegmentFile.ReopenExact`), and a replica that is
  off the record boundaries of its source (`Replication.BoundaryExact`, `Replication.MisalignedLeftover`).
- A newly assigned replica that still has an old, longer file can be promoted and lose records
  (`Failover.StaleFileLosesRecords`); `Failover.StepKeepsSafe` and `Failover.PromotionExact` say exactly
  when replicas stay prefixes of the primary.
- A segment that leaves a consumer group and comes back is read again by the running task but not after a
  restart (`OffsetLog.ReturningSegmentDiverges`, and `OffsetLog.AddedSegmentExact` for all cases).
- Symbols over 255 bytes, and values whose encoding has 2^32+5 bytes or more, do not come back
  (`CodecV1.SymbolExact`, `CodecV1.RoundTripExact`).
- Applying an entry that creates a segment under an ID in use breaks the order that lookups rely on
  (`StateStore.SwapKeepsExact`).
- Reporting a finished replica of a segment that lists no replicas panics (`Transactions.CloseReplica`,
  `Transactions.PanicIsReachable`).
- Within a pass the counts used for placement do not always follow the copies: not when replicas are trimmed
  to a factor of one or to complete copies only, and not when dead nodes are dropped while others join
  (`Reconciler.OpenCountsExact`, `Reconciler.ClosedCountsExact`).
- Without a limit on shards, segments of different nodes share generation and shard
  (`SegmentOpen.UnlimitedShardsShare`).

## Model

| member | source | states |
|---|---|---|
| TopicMatch.RoutingKeyMatches | mq/match.go:74-144 | the loop-and-recursion matcher terminates on every pattern and key, including empty ones, and computes the function `Matches` that the lemmas below compare with the word-list standard |
| TopicMatch.MatcherIsStandard | mq/match.go:74-144 | on every key without a trailing dot, every pattern in which no empty word is followed by `#` and empty words only agrees with the declarative match on word lists: `*` is exactly one word, `#` any number of words |
| TopicMatch.MatcherExact | mq/match.go:74-144 | the matcher accepts exactly the keys that have no trailing dot and match by words, for all keys, if and only if the pattern has no such dangling empty word |
| TopicMatch.DotsSeparateWords | mq/match.go:68-72 | the words of that rule are what dots separate, the empty string alone having none |
| TopicMatch.DeviatingKeyDeviates | mq/match.go:74-144 | for every other pattern a key is given that the code accepts although it has fewer words than the pattern needs |
| TopicMatch.DotAcceptsEmptyKey | mq/match.go:74-144 | the smallest case of that: pattern `.` accepts the empty key |
| TopicMatch.SuffixLoopIsStandard | mq/match.go:74-144 | the `#` loop, which never tries the empty remainder, decides whether some suffix of the words matches |
| TopicMatch.AllHashMatchesAll | mq/match.go:74-144 | a rest that matches nothing-left matches everything, which is why skipping the empty remainder is harmless |
| TopicMatch.MatchesNothingLeft | mq/match.go:74-144 | a word pattern matches no words exactly when all its words are `#` |
| TopicMatch.TrailingDotNeverMatches | mq/match.go:74-144 | a key with a trailing dot is matched by no pattern at all |
| TopicMatch.MessageMatches | mq/match.go:11-66 | accepted, rejected or panicked, each if and only if: age is checked first, the first deciding binding of the topic wins, an unknown exchange type panics only if nothing selected before it |
| TopicMatch.HasAllHeaders | mq/match.go:36-46 | true exactly when every expected header is there with an equal value |
| TopicMatch.HasAnyHeader | mq/match.go:48-57 | true exactly when some expected header is there with an equal value |
| Framing.LengthRoundTrip | mq/segments/file.go:134-137 | the length prefix written before a message is read back as its length and its own width, wherever it stands in a file |
| Framing.LengthIs64Bits | mq/segments/file.go:80-88 | whatever the bytes, a decoded length is below 2^64 and its prefix is at most ten bytes wide |
| Framing.LengthLocal | mq/segments/file.go:80-88 | decoding depends on the bytes of the prefix only, so a shorter buffer that still holds them gives the same answer |
| FrameBytes.PutDigits | mq/segments/file.go:134-137 | a length is written in digits of seven bits, lowest first, each byte but the last with its top bit set, without a superfluous zero |
| FrameBytes.ReadDigits | mq/segments/file.go:80-88 | any such chain of bytes is read as its digits if they fit 64 bits and as too long otherwise |
| FrameBytes.OpenChain | mq/segments/file.go:80-88 | a chain that does not end is read as nothing |
| FrameBytes.DiskBytes | mq/segments/file.go:124-152 | a file is a byte of one followed by each message behind its length |
| Framing.DiskPrefix | mq/segments/file.go:124-152 | the file format is uniquely decodable: one log's bytes are a prefix of another's exactly when its messages are |
| Framing.FrameAt | mq/segments/file.go:124-152 | the k-th record stands at the k-th position and its end is the next position |
| Framing.PositionStable | mq/segments/file.go:124-152 | appending records moves no earlier position |
| SegmentFile.Scan | mq/segments/file.go:60-109 | opening with one shrinking buffer gives the same result as a scan that looks at the whole rest each time: accepted data, bad version, bad length, a step that does not advance, or a seek beyond 64 bits |
| SegmentFile.IncrementIs64Bits | mq/segments/file.go:80-103 | the advance computed from any prefix the scan can meet fits a signed 64-bit number, so that the wrapped sum is the one the program computes |
| FrameBytes.FirstByte | mq/segments/file.go:60-76 | an empty file gets its first byte, and any other first byte is refused |
| FrameBytes.RoundExact | mq/segments/file.go:78-103 | what one round of the scan does for every length and width: bad length, no progress, failed seek, cut, or the next offset, with sums in signed 64 bits |
| SegmentFile.RecoverLog | mq/segments/file.go:60-109 | a file of whole records opens unchanged, for every list of messages |
| SegmentFile.RecoverTorn | mq/segments/file.go:60-109 | a log followed by a record cut at or after the end of its length prefix is truncated to exactly the log; cut inside the prefix it is refused with a bad length |
| SegmentFile.ReopenExact | mq/segments/file.go:60-109 | what opening leaves behind opens again to itself if and only if no length prefix in the scanned part reaches past the point where the file was cut |
| SegmentFile.File.constructor | mq/segments/file.go:44-122 | a file whose content is accepted by the scan opens with the recovered bytes, valid and with term 1 |
| SegmentFile.File.Write | mq/segments/file.go:124-152 | a write appends exactly one framed record, is refused when the size limit was already reached, and a short write leaves the file as it was |
| SegmentFile.File.IsFull | mq/segments/file.go:154-156 | full exactly when the data has reached the limit |
| SegmentFile.File.Truncate | mq/segments/file.go:158-183 | keeps the version byte, refuses negative sizes and extension, and every success changes the term |
| FrameBytes.TruncateExact | mq/segments/file.go:158-183 | truncating succeeds exactly for sizes that are there, leaves exactly that many bytes but at least one, and advances the 32-bit term |
| SegmentFile.File.Sum | mq/segments/file.go:212-223 | covers the first bytes asked for, or all when none or too many are asked for |
| SegmentIterator.Iterator.Next | mq/segments/iterator.go:29-78 | one call makes the transition `NextOn` of reader and file, and parks the reader when it has to wait |
| SegmentIterator.Iterator.Wake | mq/segments/iterator.go:80-105 | a parked call resumes with `WakeOn`: it re-reads the end and the term before it goes on |
| SegmentIterator.Iterator.TryTake | mq/segments/iterator.go:47-71 | takes the record at the reader's offset when it lies wholly before the end that the reader knows |
| SegmentIterator.Iterator.Refresh | mq/segments/iterator.go:80-105 | looks for a new end, a full file, a changed term or a closed reader |
| SegmentIterator.StaleReaderStops | mq/segments/file.go:158-183 | once the file was closed or truncated, a reader opened before ends as invalid at its next step, parked or not, or as closed if it was closed and not parked, and never delivers across the change |
| ReaderRuns.TurnOnLog | mq/segments/iterator.go:29-105 | on a file of whole records one turn delivers the next record, or waits or ends only when everything it may deliver was delivered, never reports corruption, and keeps the reader on a record boundary |
| ReaderRuns.RunKeepsInv | mq/segments/iterator.go:29-105 | every interleaving of writes and reads keeps the reader placed in the log of everything written so far |
| ReaderRuns.CallDelivers | mq/segments/iterator.go:29-105 | in every state of every interleaving, a call made while a message is undelivered delivers exactly that message, unless the reader was closed |
| ReaderRuns.CallAnswers | mq/segments/iterator.go:29-105 | every answer as an if and only if, in every state of every run: delivered, closed, end, or waiting; a closed reader never waits, and is told that it is closed unless it was parked with something undelivered |
| ReaderRuns.ClosedStays | mq/segments/iterator.go:107-111 | over every run, a reader that was closed stays closed |
| ReaderRuns.ReaderDeliversTheLog | mq/segments/iterator.go:29-105 | started at any record boundary, under any interleaving, a reader delivers the messages from there exactly once, in order, with resumable offsets, and answers every further call as `CallAnswers` says; a waiting reader ends only after everything was delivered and no write can succeed; another one ends with what the log held at the start |
| Replication.WholeRecordPrefix | mq/task_segment_replication.go:37-58 | a file of whole records that is a byte prefix of a log ends on a record boundary of that log |
| Replication.BoundaryExact | mq/task_segment_replication.go:37-58 | a byte prefix of a log ends on one of its record boundaries if and only if it opens to itself |
| Replication.FoundBytesExact | mq/segments/file.go:60-109 | the same condition on the bytes found on disk: what opening leaves of them is a whole-record prefix of the source if and only if no length prefix reaches past the point where they were cut |
| Replication.MisalignedLeftover | mq/segments/file.go:60-109 | a file left by opening that does not reopen to itself agrees with a source log without ending on one of its records |
| Replication.Align | mq/task_segment_replication.go:37-58 | from any content, what the source also has is kept and anything else thrown away; the replica then ends on a record boundary of the source if and only if its content was no prefix of the source or opens to itself |
| Replication.ReceiveNext | mq/task_segment_replication.go:60-85 | an aligned replica takes exactly the next record of the source if there is one, its write is never refused, and the stream stops only at the end of what it covers |
| Replication.Receive | mq/task_segment_replication.go:60-85 | through every streamed record, and writes to the source in between, an aligned replica stays a whole-record prefix of the source, and a stream that ends has covered all it was opened for |
| Replication.ReplicateSegment | mq/task_segment_replication.go:37-85 | from any aligned content replication ends with a whole-record prefix of the source, with all of it when the stream ends, and nothing shared is thrown away; from any other content the replica stays off a record boundary until a record arrives |
| Failover.PromoteReplica | mq/reconciler_segments.go:193-274 | promotes the first alive replica with the largest file and keeps the other alive replicas, or does nothing exactly when a size could not be fetched, no alive replica has a file, or the choice is node 0 |
| Failover.PromotionKeepsReplicas | mq/reconciler_segments.go:216-247 | after a promotion every alive replica's log is a prefix of the new primary's |
| Failover.PromotionExact | mq/reconciler_segments.go:216-247 | from any state, every alive replica's log is a prefix of the promoted one if and only if the logs of the alive replicas are comparable two by two |
| Failover.StepKeepsSafe | mq/reconciler_segments.go:193-274 | each write, alignment, received record, crash, assignment, removal or promotion keeps every alive replica a prefix of the primary if and only if it does not assign a node whose log is no prefix of the primary's |
| Failover.RunKeepsSafe | mq/reconciler_segments.go:193-274 | so does every run without such an assignment |
| Failover.HeldRecordsSurvive | mq/reconciler_segments.go:193-274 | over every such run, records that some alive node of the segment holds at each moment are held by the primary at the end: only records no alive node held are lost |
| Failover.StaleFileLosesRecords | mq/reconciler_segments.go:193-274 | a run from a safe state, in which a node leaves, comes back with its old longer file and is assigned and promoted, loses a record that an alive node held |
| ReplicaSteps.AlignOnFiles | mq/task_segment_replication.go:37-58 | on the files of two logs, `Replication.Align` leaves the files of the logs that the alignment step of `Failover` gives |
| ReplicaSteps.ReceiveOnFiles | mq/task_segment_replication.go:60-85 | receiving one record on files leaves the file of the log that the receiving step of `Failover` gives, or ends a stream that does not wait and changes nothing |
| DeliveryRing.NewGroup | mq/consumers/group.go:33-46 | a ring is made exactly when it has room for a message, and starts empty |
| DeliveryRing.Group.constructor | mq/consumers/group.go:33-46 | an empty, open ring of the given capacity |
| DeliveryRing.Group.Offer | mq/consumers/group.go:48-72 | on the circular buffer, appends to the queue of live messages, waits when it is full, and refuses once closed |
| DeliveryRing.Group.Close | mq/consumers/group.go:82-89 | closes the group and stops its commits, touching no slot |
| DeliveryRing.Group.Search | mq/consumers/subscription.go:68-76 | the modulo loop over slots finds the oldest slot wanted, or none |
| DeliveryRing.Group.ReleaseAll | mq/consumers/subscription.go:189-205 | every slot leased to the subscription is ready again and no other changes |
| DeliveryRing.Group.Retire | mq/consumers/subscription.go:127-158 | exactly the acknowledged slots at the front leave, oldest first, with one commit each while commits are on |
| DeliveryRing.Subscription.Next | mq/consumers/subscription.go:54-103 | one pass of the wait loop on the buffer is the transition `NextOn` of the queue: lease, give up, closed, or wait |
| DeliveryRing.Subscription.Ack | mq/consumers/subscription.go:105-158 | on the buffer, the transition `AckOn` of the queue: mark, retire what can go, send commits, or refuse |
| DeliveryRing.Subscription.Nack | mq/consumers/subscription.go:160-187 | on the buffer, the transition `NackOn` of the queue: ready again, or refuse |
| DeliveryRing.Subscription.Close | mq/consumers/subscription.go:189-205 | gives every lease back and leaves the in-flight count alone |
| RingRuns.OpKeeps | mq/consumers/subscription.go:54-205 | every operation of any subscription keeps the queue in offered order, leases distinct and given, no lease settled twice, counts right, acknowledged messages acknowledged, and no acknowledged one at the front |
| RingRuns.RingIsAQueue | mq/consumers/subscription.go:54-205 | over every interleaving of offers, leases, acknowledgements, returns and closes, what retired followed by what is live is what was offered, in order, with at most n live |
| RingRuns.NextLeasesOldestReady | mq/consumers/subscription.go:54-103 | a lease goes to the oldest ready message under a number never used before, and a positive size bounds the leases in flight |
| RingRuns.StaleSettleRefused | mq/consumers/subscription.go:105-187 | settling a lease that was settled before, or that closing its subscription gave back, is refused and changes nothing, whatever was leased since |
| RingRuns.InflightNeverUnderflows | mq/consumers/subscription.go:105-187 | whenever a lease can be settled the in-flight count is positive |
| RingRuns.CommitsNeverPassUnacked | mq/consumers/subscription.go:127-158 | when offsets of a segment are offered in increasing order, however acknowledgements reorder their sends, every offered message at or below the committed offset of its segment was acknowledged |
| RingCommits.EveryRetiredIsCommitted | mq/consumers/subscription.go:127-158 | over every run, until the group is closed, the commits sent so far, received or on the channel, are exactly one for each message that has retired |
| RingCommits.QuietRun | mq/consumers/group.go:82-89 | once the group is closed no commit is sent any more |
| RingCommits.CommittedIsHighest | mq/consumers/subscription.go:127-158 | when every commit was received, the committed offset of a segment is the highest of its offset at the start and the offsets of its retired messages |
| RingAnswers.OfferExact | mq/consumers/group.go:48-72 | offered, waiting or refused, each if and only if, and an offered message is ready at the end of the queue |
| RingAnswers.NextExact | mq/consumers/subscription.go:54-103 | each of the five answers if and only if: leased exactly when a message is ready, both limits allow it and the subscription is open, or was when the call began to wait |
| RingAnswers.SettleExact | mq/consumers/subscription.go:105-187 | acknowledging and giving back succeed exactly when a live message is leased under that number |
| RingAnswers.AckedLeaves | mq/consumers/subscription.go:105-158 | an acknowledged message leaves once everything before it is acknowledged, together with all such messages at the front, and with one commit for each while commits are on |
| RingAnswers.NackedIsReady | mq/consumers/subscription.go:160-187 | a message given back is ready in its place and no other changes |
| RingAnswers.ClosingEnds | mq/consumers/subscription.go:189-205 | closing a subscription makes exactly its leases ready again; closing a group turns commits off |
| OffsetLog.RecoverOffsets | mq/task_consumer_group.go:31-67 | the segments of the list of saved commits, and no others, each with the highest of the offset of its last entry and of its logged offsets |
| OffsetLog.ReplayIsHighest | mq/task_consumer_group.go:31-67 | each segment of the cluster state, and no other, gets the highest of its saved and logged offsets |
| OffsetLog.ReplayAnyOrder | mq/task_consumer_group.go:31-67 | the order in which commits were logged does not matter |
| OffsetLog.Refresh | mq/task_consumer_group.go:123-130 | at a tick exactly the segments of the list of saved commits, each with the higher of the offset of its last entry and the remembered one |
| OffsetLog.EventKeeps | mq/task_consumer_group.go:262-323 | logging a commit, rotating the log, a tick, and a change of segments each keep memory equal to what a restart would find, a change of segments if and only if every segment it adds agrees with the log |
| OffsetLog.RestartAnytime | mq/task_consumer_group.go:31-323 | over every run whose added segments agree with the log, a restart at any moment that reads the log in any order recovers the offsets in memory |
| OffsetLog.AddedSegmentExact | mq/task_consumer_group.go:31-130 | for a segment that is added at offset zero, still in memory or not, memory and restart agree if and only if the highest commit the log holds for it is the one in memory |
| OffsetLog.ReturningSegmentDiverges | mq/task_consumer_group.go:31-130 | a segment that leaves a group and comes back is read from the start by the running task, while a restart finds its old commit |
| Wire.BeRoundTrip | mq/amqp/v1/marshal.go:25-123 | big-endian encoding of a number that fits is undone by decoding, for every width |
| Wire.SignedRoundTrip | mq/amqp/v1/marshal.go:31-107 | two's complement in 1, 2, 4 or 8 bytes gives every signed number of that width back |
| CodecV1.RoundTrip | mq/amqp/v1/marshal.go:195-295 | decoding an encoded value followed by any bytes gives the value, with a nil table read back as empty, and those bytes untouched: every nesting, every key order, both widths at their boundary |
| CodecV1.RoundTripExact | mq/amqp/v1/marshal.go:195-295 | it does so if and only if the encoding, whose size is computed from names, lengths and numbers, has fewer than 2^32+5 bytes: a longer one wraps its own size field |
| CodecV1.NumberBack | mq/amqp/v1/marshal.go:264-295 | every int64 comes back through whichever of the integer encodings its size selects |
| CodecV1.TextExact | mq/amqp/v1/marshal.go:165-178 | a string comes back if and only if it is shorter than 2^32 bytes |
| CodecV1.SymbolExact | mq/amqp/v1/marshal.go:180-193 | a symbol comes back if and only if it has at most 255 bytes |
| BytesV1.ConstantCodes | mq/amqp/v1/unmarshal.go:550-736 | the bytes 0x40, 0x41 and 0x42 are null, true and false |
| BytesV1.EmptyCodes | mq/amqp/v1/unmarshal.go:550-736 | 0x43 and 0x44 are zero and 0x45 is the empty list |
| BytesV1.BooleanCode | mq/amqp/v1/unmarshal.go:19-36 | 0x56 and a byte are a boolean, true unless the byte is zero |
| BytesV1.OneByteNumbers | mq/amqp/v1/unmarshal.go:550-736 | the six one-byte numbers by their bytes, three of them with a sign |
| BytesV1.TwoByteNumbers | mq/amqp/v1/unmarshal.go:550-736 | 0x60 and 0x61 and two bytes, the first of which counts 256 |
| BytesV1.FourByteNumbers | mq/amqp/v1/unmarshal.go:550-736 | 0x70, 0x71 and 0x73 and four bytes as a sum of digits |
| BytesV1.EightByteNumbers | mq/amqp/v1/unmarshal.go:550-736 | 0x80, 0x81 and 0x82 and eight bytes as a sum of digits |
| BytesV1.ShortTexts | mq/amqp/v1/unmarshal.go:294-350 | 0xa1 and 0xa3, a length of one byte, and that many bytes of text |
| BytesV1.LongTexts | mq/amqp/v1/unmarshal.go:294-350 | 0xb1 and 0xb3, a length of four bytes, and that many bytes of text |
| BytesV1.ShortList | mq/amqp/v1/unmarshal.go:431-486 | 0xc0, a size that covers the count, the count, and the values |
| BytesV1.LongList | mq/amqp/v1/unmarshal.go:431-486 | 0xd0 and the same in four bytes each |
| BytesV1.ShortMap | mq/amqp/v1/unmarshal.go:352-429 | 0xc1, a size that covers the count, the count of keys and values, and the pairs |
| BytesV1.LongMap | mq/amqp/v1/unmarshal.go:352-429 | 0xd1 and the same in four bytes each |
| BytesV1.OtherBytes | mq/amqp/v1/unmarshal.go:550-736 | any other code, and too few bytes after one of these, is an error |
| BytesV1.PlainEncoded | mq/amqp/v1/marshal.go:16-23 | the bytes written for null, true, false, the empty list and a nil table |
| BytesV1.NumberEncoded | mq/amqp/v1/marshal.go:264-295 | the code written for a number, 0x51, 0x61, 0x71 or 0x81, by its size |
| BytesV1.TextEncoded | mq/amqp/v1/marshal.go:165-193 | the code, length and bytes written for strings and symbols |
| BytesV1.CompoundEncoded | mq/amqp/v1/marshal.go:195-262 | the code, size and count written for lists and maps, by the size and number of their items |
| SymbolArrays.ArrayExact | mq/amqp/v1/marshal.go:297-348 | decoding an encoded array of symbols followed by any bytes gives the symbols and those bytes if and only if the encoding has fewer than 2^32+5 bytes: no array, empty arrays, long symbols, and both widths at their boundaries |
| SymbolArrays.ArrayBytes | mq/amqp/v1/marshal.go:297-348 | the codes 0x40, 0xe0 and 0xf0 of arrays by their size, and 0xa3 or 0xb3 for all symbols by the longest |
| SymbolArrays.MarshalSymbolArray | mq/amqp/v1/marshal.go:297-348 | finds the longest symbol, fills an item buffer and appends exactly the encoding |
| SymbolArrays.UnmarshalSymbolArray | mq/amqp/v1/unmarshal.go:738-789 | consumes exactly what the decoding function consumes; a size too small for the count is the panic it is in the program |
| MarshalV1.MarshalValue | mq/amqp/v1/marshal.go:264-295 | appends exactly the encoding of the value to the buffer |
| MarshalV1.MarshalString | mq/amqp/v1/marshal.go:165-178 | appends the 8-bit or 32-bit form of a string |
| MarshalV1.MarshalMap | mq/amqp/v1/marshal.go:195-230 | fills an item buffer field by field and appends the map with its size and count |
| MarshalV1.MarshalList | mq/amqp/v1/marshal.go:232-262 | the same for lists, with the empty list as its own code |
| MarshalV1.UnmarshalValue | mq/amqp/v1/unmarshal.go:542-548 | consumes exactly what the decoding function consumes, and leaves the rest in the buffer |
| MarshalV1.UnmarshalWithConstructor | mq/amqp/v1/unmarshal.go:550-736 | the same once the constructor byte is known |
| MarshalV1.UnmarshalList | mq/amqp/v1/unmarshal.go:431-486 | the same for lists |
| MarshalV1.UnmarshalMap | mq/amqp/v1/unmarshal.go:352-429 | the same for maps, which must hold an even number of items |
| MarshalV1.ReadBlock | mq/amqp/v1/unmarshal.go:294-350 | the same for the length and content of strings and symbols |
| CodecV0.RoundTrip | mq/amqp/v0/marshal.go:47-327 | decoding an encoded field value followed by any bytes gives it back, an empty table as none, and those bytes untouched |
| CodecV0.TableRoundTrip | mq/amqp/v0/marshal.go:15-153 | a marshalled table unmarshals to the same fields in any order given |
| CodecV0.AcceptsEncodable | mq/amqp/v0/marshal.go:15-120 | marshalling succeeds if and only if no field name, at any depth, is over 255 bytes and no string, table or array over 2^32-1 bytes, sizes being computed from the lengths of names and values; they are the lengths written |
| CodecV0.NumberBack | mq/amqp/v0/marshal.go:52-70 | every int64 comes back through its 1, 2, 4 or 8 byte form |
| BytesV0.PlainTypes | mq/amqp/v0/marshal.go:182-327 | the letters V and t are void and a boolean of one byte |
| BytesV0.OneByteNumbers | mq/amqp/v0/marshal.go:182-327 | B and b and one byte, without and with a sign |
| BytesV0.TwoByteNumbers | mq/amqp/v0/marshal.go:182-327 | u and two bytes, and s and U with a sign, the first byte counting 256 |
| BytesV0.FourByteNumbers | mq/amqp/v0/marshal.go:182-327 | i and I and four bytes as a sum of digits |
| BytesV0.EightByteNumbers | mq/amqp/v0/marshal.go:182-327 | L, l and d and eight bytes as a sum of digits |
| BytesV0.TextTypes | mq/amqp/v0/marshal.go:182-327 | S and x, a length of four bytes, and that many bytes |
| BytesV0.ArrayType | mq/amqp/v0/marshal.go:155-180 | A, a length of four bytes, and values to the end of the content |
| BytesV0.TableType | mq/amqp/v0/marshal.go:122-153 | F, a length of four bytes, and fields to the end of the content; none when there is no content |
| BytesV0.FieldsInTurn | mq/amqp/v0/marshal.go:122-153 | a field is a name with a length of one byte, and a value |
| BytesV0.OtherBytes | mq/amqp/v0/marshal.go:182-327 | any other letter, and too few bytes after one of these, is an error |
| BytesV0.NumberEncoded | mq/amqp/v0/marshal.go:52-76 | the letter written for a number, b, s, I, l or d, by its size |
| BytesV0.BlocksEncoded | mq/amqp/v0/marshal.go:77-120 | the letters S, A and F, four bytes of length, and the content |
| MarshalV0.MarshalValue | mq/amqp/v0/marshal.go:47-120 | appends the encoding, or reports an error exactly when there is none |
| MarshalV0.MarshalTable | mq/amqp/v0/marshal.go:15-35 | the bytes of a table, or an error |
| MarshalV0.MarshalArray | mq/amqp/v0/marshal.go:37-45 | the bytes of an array, or an error |
| MarshalV0.UnmarshalTable | mq/amqp/v0/marshal.go:122-153 | reads fields to the end of the data, a repeated name replacing the earlier value |
| MarshalV0.UnmarshalArray | mq/amqp/v0/marshal.go:155-180 | reads values to the end of the data |
| MarshalV0.UnmarshalValue | mq/amqp/v0/marshal.go:182-327 | consumes exactly what the decoding function consumes |
| Lists.BinarySearch | mq/cluster_state_queries.go:109-127 | the search loop of the standard library, as the lookups use it |
| Lists.SearchFinds | mq/cluster_state_queries.go:109-127 | on an ascending list it finds a key exactly when the key is there, and where it is |
| ClusterInvariant.CommandKeeps | mq/cluster_state_do_segments.go:7-150 | each of the twelve commands keeps open and closed segments ascending, disjoint and within the counter, nodes ascending and names unique |
| ClusterInvariant.CommandKeepsExact | mq/cluster_state_do_segments.go:7-37 | a command keeps all of that if and only if it does not create a segment under an ID that is in use |
| ClusterInvariant.LogKeeps | mq/cluster_state_store.go:44-92 | so does every log of commands that creates segments under fresh IDs |
| ClusterInvariant.LookupIsLinear | mq/cluster_state_queries.go:109-137 | on an ascending list binary search returns a segment exactly when a scan of the whole list would, and the same one |
| ClusterInvariant.CloseMovesOne | mq/cluster_state_do_segments.go:39-79 | after any such log, closing moves one segment from open to closed: owner, generation, shard, creation time and replicas as they were, closing time, size, sum and complete copy as the command says; no other lookup changes |
| ClusterInvariant.PutNodeKeeps | mq/cluster_state_do_nodes.go:7-43 | the node is there as given, all others as they were, in ascending order |
| CommandEffects.CreateNamespaceReads | mq/cluster_state_do_namespaces.go:3-21 | a new namespace is empty, an existing one and all others are left as they are |
| CommandEffects.DeleteNamespaceReads | mq/cluster_state_do_namespaces.go:23-37 | only that namespace is gone |
| CommandEffects.CreateTopicReads | mq/cluster_state_do_topics.go:3-47 | the topic reads back as given and no other topic or group changes |
| CommandEffects.DeleteTopicReads | mq/cluster_state_do_topics.go:49-144 | only that topic is gone and every other topic reads as before |
| CommandEffects.CreateGroupReads | mq/cluster_state_do_consumer_groups.go:7-50 | the group reads back as given with the commits it had, and no other group or topic changes |
| CommandEffects.DeleteGroupReads | mq/cluster_state_do_consumer_groups.go:52-108 | the group and exactly its offset-commits segments go |
| CommandEffects.UpdateOffsetCommitsReads | mq/cluster_state_do_consumer_groups.go:110-143 | the group's commits are the given ones in order of segment and nothing else changes |
| CommandEffects.CreateSegmentReads | mq/cluster_state_do_segments.go:7-37 | the new segment is found with the owner, kind, generation, shard, time, primary and replicas of the command; every other lookup is as before, and the counter covers its ID |
| CommandEffects.UpdateNodesReads | mq/cluster_state_do_segments.go:81-118 | only the nodes of the named segment change, and only in the list named |
| CommandEffects.DeleteSegmentReads | mq/cluster_state_do_segments.go:120-150 | only the named segment goes, and only from the list named |
| CommandEffects.UpdateNodeReads | mq/cluster_state_do_nodes.go:7-43 | the node is there as the command describes it, every other one as it was |
| CommandEffects.CommandFrames | mq/cluster_state_store.go:53-82 | what each of the twelve commands leaves alone: nodes, counter, namespaces, open and closed segments |
| CommandEffects.OtherNamespacesStay | mq/cluster_state_do_topics.go:3-144 | a command inside a namespace leaves every other namespace as it is |
| CommandEffects.PanicsExactly | mq/cluster_state_do_topics.go:3-144 | a command panics if and only if it is for a namespace that does not exist |
| StateStore.SwapIsAtomic | mq/cluster_state_store.go:29-37 | a swap succeeds exactly when nothing was published since the load; a draw then raises the counter by one, an entry publishes what its command makes of the state replaced, with its index, and an empty entry the index only; a failed one changes nothing |
| StateStore.StepKeeps | mq/cluster_state_store.go:25-92 | every step of every caller, on a leader, a follower or at a replay, keeps the published state serial and every segment ID within the counter |
| StateStore.RunsAreSerial | mq/cluster_state_store.go:25-92 | however loads and swaps interleave, and whoever wrote the log: every operation begun was swapped exactly once or is still pending, and namespaces, nodes and segments are what the swapped commands give one after another, whatever draws lie between; no segment has an ID above the counter |
| StateStore.DrawnIDIsNew | mq/cluster_state_store.go:25-37 | over all these runs, an ID handed out is above the ID of every segment in the state it was drawn from and above every ID handed out before |
| StateStore.DrawnIDsStayFree | mq/cluster_state_store.go:25-92 | over every run in which segments are created under drawn IDs, the lists stay ordered and disjoint, and an ID drawn and not used yet is held by one caller and by no segment |
| StateStore.SwapKeepsExact | mq/cluster_state_store.go:44-92 | in any run, a swap keeps the lists in order if and only if it does not create a segment under an ID in use |
| Placement.CountSegmentsPerNode | mq/cluster_state_queries.go:139-157 | each node's count is the number of times segments name it as primary, replica or complete copy |
| ReconcileExact.HostedIsSpots | mq/cluster_state_queries.go:139-157 | that number is the number of places, segment by segment and list by list, in which the node is named |
| Placement.PickLeast | mq/reconciler_segments.go:156-162 | the first of the candidates with the lowest count |
| Placement.FillUp | mq/reconciler_segments.go:154-171 | adds distinct candidates in order of load until the target is reached or none is left, and no candidate left over has a lower load |
| SegmentOpen.FindGeneration | mq/server_segment_create.go:92-109 | the latest generation of the owner and exactly its segments |
| SegmentOpen.Pigeonhole | mq/server_segment_create.go:131-145 | if every shard up to n is taken there are at least n segments |
| SegmentOpen.FindShard | mq/server_segment_create.go:111-145 | the first free shard, which exists whenever the generation is not full |
| SegmentOpen.Allocate | mq/server_segment_create.go:90-146 | no segment of the owner has the chosen generation and shard, the shard is within range, the generation is the latest or the one after, and the node takes part in it once |
| ReconcileExact.AllocationRule | mq/server_segment_create.go:90-146 | the latest generation and the first shard free in it, or the next generation exactly when all shards are taken or the node has taken part |
| SegmentOpen.UnlimitedShardsShare | mq/server_segment_create.go:111-145 | without a limit on shards the shard is always 1, and it is shared with another segment of the generation if and only if shard 1 is taken and the node takes no part in it |
| SegmentOpen.ChooseReplicas | mq/server_segment_create.go:148-172 | distinct alive nodes other than the primary, least loaded first, as many as the factor asks for or there are |
| SegmentOpen.Create | mq/server_segment_create.go:88-187 | the create command satisfies all of that at once, given that the owner has fewer open segments than shards |
| SegmentOpen.Open | mq/server_segment_create.go:41-187 | not found, the node's own segment, another node's segment when shards are used up, or a well-placed new one, each with its condition |
| Reconciler.ReconcileAlivePrimary | mq/reconciler_segments.go:88-191 | keeps, trims or adds replicas as `OpenPlan` demands, panics exactly on a zero factor or an unknown node, and moves the counts as `OpenCounts` says |
| Reconciler.OpenCountsExact | mq/reconciler_segments.go:88-191 | the counts follow the replicas if and only if nothing is to be done, or replicas are trimmed under a factor above one, or some join while every listed one is alive; the condition is on factor, nodes and their states alone |
| Reconciler.ReconcileClosedCopies | mq/reconciler_segments.go:365-513 | the same for closed segments, complete copies first, doing nothing without an alive complete copy |
| Reconciler.ClosedCountsExact | mq/reconciler_segments.go:365-513 | the counts follow the copies if and only if nothing is to be done, or incomplete copies are trimmed with every complete copy alive, or some join while every listed copy is alive; again on the inputs alone |
| Reconciler.CountsLag | mq/reconciler_segments.go:88-191 | two inputs for which they do not follow: a replica trimmed to a factor of one, and a dead replica replaced |
| ReconcileExact.AliveReplicasFirst | mq/reconciler_segments.go:108-171 | trimming keeps the first alive replicas in their order, and those that join come after all alive ones; the primary stays |
| ReconcileExact.CompleteCopiesFirst | mq/reconciler_segments.go:383-497 | for closed segments complete copies count first, then the others, each in their order |
| ReconcileExact.TablesAreRight | mq/reconciler_segments.go:9-22 | the table and the candidates of a pass say alive exactly for the nodes that the state lists as alive |
| Convergence.OpenConverges | mq/reconciler_segments.go:88-191 | after the plan the alive copies are the smaller of factor and alive nodes, whatever there was before, on distinct known nodes with the same primary |
| Convergence.OpenSettled | mq/reconciler_segments.go:88-191 | with that many copies the plan is to keep, whatever the counts |
| Convergence.ClosedConverges | mq/reconciler_segments.go:365-513 | the same for closed segments with an alive complete copy, which still have one afterwards |
| Convergence.ClosedSettled | mq/reconciler_segments.go:365-513 | with that many copies the plan is to keep |
| ReconcilePass.ReconcileOpenSegment | mq/reconciler_segments.go:30-86 | deleted exactly when the owner is gone; otherwise replicas are planned for an alive primary and a promotion for a dead one, with a panic exactly on an unknown node |
| ReconcileExact.OpenDeletedExactly | mq/reconciler_segments.go:30-75 | an open segment is deleted if and only if its topic or group is gone |
| ReconcilePass.ReconcileDeadPrimary | mq/reconciler_segments.go:193-274 | stops at the first unknown replica with a panic or at the first alive one that does not answer, and otherwise promotes the first with the largest file |
| ReconcilePass.PromotesExactly | mq/reconciler_segments.go:193-274 | a dead primary is replaced if and only if every replica is known, every alive one answers, one of them has a file, and the first with the largest is not node 0 |
| ReconcilePass.ReconcileClosedSegment | mq/reconciler_segments.go:282-513 | deleted exactly when it held offset commits, its topic is gone, or it expired and no group needs it; otherwise its copies are planned |
| ReconcileExact.ClosedDeletedExactly | mq/reconciler_segments.go:282-345 | a closed segment is deleted if and only if it held offset commits, its topic is gone, or a positive retention has passed since it was closed and no group of any namespace has a commit below its size |
| ReconcilePass.IsNeeded | mq/reconciler_segments.go:313-325 | true exactly when some group of some namespace has a commit below the segment's size |
| ReconcilePass.DoAllIsActed | mq/reconciler_segments.go:24-28 | the commands of a pass, applied one by one by binary search, leave every segment with its own result and disturb no other |
| ReconcilePass.ReconcileOpenSegments | mq/reconciler_segments.go:24-28 | a pass handles every open segment once on the state it started from, each with the counts the earlier ones left, or stops at one that panics |
| ReconcilePass.ReconcileClosedSegments | mq/reconciler_segments.go:276-280 | the same for closed segments |
| PassConvergence.PassSettlesOpen | mq/reconciler_segments.go:24-274 | after a pass every remaining open segment that had an alive primary is settled, one that was promotable has an alive primary and distinct known nodes, and any other is unchanged |
| PassConvergence.NextPassLeaves | mq/reconciler_segments.go:24-274 | the next pass leaves a settled segment alone and settles one that was promotable |
| PassConvergence.PassesConverge | mq/reconciler_segments.go:24-274 | while nodes do not change, an open segment with an owner that has an alive primary, or is promotable at the first pass, is still there and settled after two passes, and no later pass, however many, does anything to it |
| PassConvergence.JoinedInPass | mq/reconciler_segments.go:88-191 | replicas that join in a pass are least loaded, under the counts of the pass at that segment, among the alive nodes without a copy |
| PassConvergence.PromotionRevives | mq/reconciler_segments.go:193-274 | a promotion keeps exactly the alive replicas, one of them as primary |
| PassConvergence.ClosedPassSettles | mq/reconciler_segments.go:282-513 | a retained closed segment with an alive complete copy is settled by one pass |
| PassConvergence.SettledClosedIsLeft | mq/reconciler_segments.go:282-513 | and the next pass leaves it alone unless it is due for deletion |
| PassConvergence.PassSettlesClosed | mq/reconciler_segments.go:276-513 | after a pass every remaining closed segment has an owner, is settled if it had an alive complete copy, and is unchanged otherwise |
| PassConvergence.NextClosedPassLeaves | mq/reconciler_segments.go:276-513 | the next pass deletes or leaves alone every closed segment that the first one settled |
| PassConvergence.ReconcileSegments | mq/reconciler_segments.go:9-22 | counting, the open pass and the closed pass: counts start as the true loads and run through both; every remaining segment with an alive primary or an alive complete copy is settled, and a dead primary is replaced exactly when the segment is promotable |
| OffsetCommits.DeleteTopicLeavesNothing | mq/cluster_state_do_topics.go:49-144 | no segment of the topic remains, in its namespace no binding to it and no commit that finds no segment; every other topic, namespace and segment is as it was |
| OffsetCommits.SegmentAfterDelete | mq/cluster_state_do_topics.go:85-97 | a segment is found after the deletion exactly when it was found before and was not the topic's |
| OffsetCommits.ReconcileCommits | mq/reconciler_consumer_groups.go:84-145 | the command gives commits for exactly the segments of bound topics with old offsets kept and new ones zero, and the early exit on equal counts happens if and only if that already holds |
| OffsetCommits.EarlyExit | mq/reconciler_consumer_groups.go:122-124 | no new commit and equal counts together mean the same segments |
| OffsetCommits.ReconcileGroupCommits | mq/reconciler_consumer_groups.go:84-159 | afterwards the stored commits of the group are for exactly the segments of its bound topics, so that the reconciler has nothing to do for it, with the old offset wherever there was one |
| OffsetCommits.SettledMeans | mq/reconciler_consumer_groups.go:84-145 | those segments are exactly the open and closed segments of topics of the group's namespace that one of its bindings names |
| OffsetCommits.CommitsStayDistinct | mq/reconciler_consumer_groups.go:126-135 | one commit per segment stays one commit per segment, in ascending order |
| ClusterRuns.EventKeeps | mq/server_segment_create.go:41-187 | opening, closing, completing a replica, reconciling, and client commands each keep lists ordered, nodes of a segment apart, and one offset-commits segment per group |
| ClusterRuns.NodesStayApart | mq/reconciler_segments.go:383-497 | in every reachable state a segment names known nodes, each once, and a closed one has a complete copy, so picking one is defined |
| ClusterRuns.OneOffsetSegment | mq/reconciler_consumer_groups.go:28-82 | in every reachable state a group has at most one open offset-commits segment, across deletion and re-creation of groups and namespaces |
| ClusterRuns.ShardsRespected | mq/server_segment_create.go:79-86 | in every run in which a topic keeps its positive number of shards it never has more open segments than that |
| ShardRuns.PlacesNeverShared | mq/server_segment_create.go:88-146 | in every run in which a topic keeps its positive number of shards, no two of its segments, open or closed, ever have the same generation and shard |
| ReachablePasses.PassesNeverPanic | mq/reconciler_segments.go:9-22 | in every reachable state, topics having been created with positive factors as the server does, no segment makes a pass panic whatever replicas answer, and the passes settle what is said above |
| ReachablePasses.PassKeepsInv | mq/reconciler_segments.go:9-22 | a whole pass keeps what every reachable state has: lists ordered, nodes apart, one offset-commits segment per group, positive factors |
| ReachablePasses.ReconcileReachable | mq/reconciler_segments.go:9-22 | a pass from a reachable state does not panic, settles what it can, and leaves a state from which the next one can start |
| Transactions.CloseSegment | mq/server_segment_close.go:47-78 | missing, not the primary, already closed, or closed: each exactly when; closed at the given time, or when it was created if that is later; the segment then reads back as closed |
| Transactions.CloseReplica | mq/server_segment_replica_close.go:37-75 | unknown, corrupted, panic or complete, each exactly when: it panics if and only if size and sum match and no replica is listed; otherwise the replica becomes a complete copy and every other node stays where it was |
| Transactions.PanicIsReachable | mq/server_segment_replica_close.go:37-75 | a run from the empty state leads to a closed segment for which a correct report panics |
| Transactions.PickPrimary | mq/reconciler_consumer_groups.go:43-52 | the first alive node with the lowest count, or none |
| Transactions.ReconcileOffsetSegment | mq/reconciler_consumer_groups.go:28-82 | creates a segment for the group exactly when it has none and a node is available, on a least-loaded node, without replicas; the panic on two open segments cannot happen in a reachable state |

## Left out

- Raft, membership gossip, gRPC, connection pooling and snapshots: a totally ordered log of commands is assumed, and `Restore` never happens.
- SHA-1: a checksum is modelled by the bytes it covers, that is, as injective.
- Clocks, tickers, logging and cancellation: times are integers given as arguments, a cancelled stream is one that is cut off.
- The file system beyond append, truncate and read; `SegmentFile.File.Write` models a short write, but not a failed truncate, which panics.
- SegmentFile.File.Sum: the checksum of a request past the end covers what is there; the read error the program may report instead is not modelled.
- Counters: segment IDs, generations, sequence numbers and in-flight counts are unbounded here; only the file's term wraps.
- DeliveryRing.Subscription.Next: copying the message out after the lock is released is treated as part of the step.
- At-least-once delivery of the whole consumer-group task: it does not hold, because a finished segment is committed to its end whatever was acknowledged.
- Commits for a new segment that are added to bound groups when it is opened: the reconciler's own commits are modelled instead.
- Failed applications of a command: a transaction's command is taken to be applied.
- Membership changes during a pass: `ReconcilePass` decides on the nodes of the state the pass started from, as the program does, and `ClusterRuns` takes each decision as one event.
- ClusterRuns.NodesStayApart: node ID 0 is taken to be no node, and a replica is reported complete by a known node.
- Replication.ReplicateSegment: for a replica off the record boundaries it is only said that it stays there without received records, not what later records make of it.
- Sorting segments that share an ID: they stay in the order given here, which the program's sort does not promise.
- CodecV1.RoundTrip: numbers are int64 integers or opaque 64-bit patterns of non-integral doubles; integral doubles outside int64 and type codes only the decoder knows are left out.
- MarshalV1.UnmarshalValue: type codes that only the decoder knows, namely 32-bit floats, timestamps, uuids, binary and arrays, end in `NotModelled` where the program decodes them.
- MarshalV1.UnmarshalWithConstructor: the same.
- CodecV0.RoundTrip: the same for numbers; type letters that only the decoder knows are left out.
- MarshalV0.UnmarshalValue: the letter of a 32-bit float, which only the decoder knows, ends in `NotModelled`.
- AMQP sessions and flow windows, frame chunking, request handlers, authentication, validation, the command line and the web page: input, output and wiring.
- Reference counts of open segment directories and pooled connections: they would only add easy members.

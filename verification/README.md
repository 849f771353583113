# Self-encryption and the chunk store of a node, modelled in Dafny

Two parts of the system are modelled.

**Self-encryption** (`self_encryption/`). A byte string is cut into at least three chunks. Each chunk is compressed,
sealed with a key derived from three neighbouring source hashes, its index and a level, and XORed with a pad. A data
map lists the chunks; a map with more than three entries is itself encoded, encrypted and replaced by a child map, one
level up. Four pieces of code have to agree on all this: the batch encryptor, the streaming encryptor, the batch
decryptor, and the streaming and random-access decryptor.

**A node's PUT path** (`ant-node/`). A request is admitted, its payment verified with the help of two caches, and its
chunk stored in a transactional store, while other requests are at any other point of the same way.

The libraries (compression, the AEAD, the key derivation, content hashing, signature and Merkle
verification, message decoding) are functions about which only what is written here is assumed: decompression inverts
compression and opening inverts sealing (`Crypto.Lawful`). The hash is never assumed injective; where it matters, a
theorem asks that no two *of the chunks at hand* have the same hash (`Prelude.NoCollision`). The theorem that says
exactly when the round trip holds also asks that, of the chunks at hand, no first chunk of a data set sealed at level 1
opens at level 0 (`RoundTrip.LevelsSeparated`). Module Instances has libraries simple enough to compute with:
they meet these assumptions (`Instances.LawsAreConsistent`), and the failures found in the code happen with them without
any assumption (`Instances.ZerosAreLost`, `Instances.OrderMatters`, `Instances.PlainNeverEnds`).

## Main results

* **Streaming refines batch.** For every byte string and every way of cutting it into pieces, draining the stream ends
  and yields every chunk of batch encryption exactly once, with the same data map (`StreamEncrypt.EncryptStreaming`,
  `EndToEnd.StreamRefinesBatch`). Input of another length than declared is covered (`EndToEnd.StreamedInputDecrypts`), and
  so is a caller who goes on after a failure: the failure repeats, unless it was chunk 0 or 1, which is passed over and
  missing from the map in the end (`StreamEncrypt.FinishedMeans`, `EndToEnd.LostChunkIsMissed`).
* **Round trip, exactly.** Decryption of what encryption returned gives the input back if and only if the encoding of
  the root map is at most three maximal chunks long (`RoundTrip.RoundTripExactly`). Beyond that the code's second round
  of shrinking starts at level 1 again, and unwinding stops one map early.
* **Termination, exactly.** Encryption and shrinking call each other. The recursion ends if and only if MAX_CHUNK_SIZE is
  at least 110 or the file has at most three chunks, as long as everything can be sealed (`Encrypt.EndsExactly`).
* **Failures, exactly.** With any getter and any damage to the chunks, a fetch, a range request, a full set and a closed-form
  range succeed if and only if the getter does and every chunk concerned is found and opens at its place, and otherwise fail
  with the first failure (`StreamExact.FetchSucceedsExactly`, `StreamExact.RangeSucceedsExactly`, `Decrypt.FullSetExactly`,
  `RangeDecrypt.DecryptsRangeExactly`).
* **Random access is slicing**, for any chunk sizes and for batches answered in any order
  (`StreamDecrypt.RangeReads`); iteration in batches of any size yields the same bytes
  (`StreamDecrypt.DecryptionStream.ReadAll`), batch decryption too (`EndToEnd.ReadableDecrypts`), and the closed form for
  the standard layout as well (`RangeDecrypt.RangeOfIsSlice`). Where the sum of position and length overflows, the slice
  comes back exactly under a stated condition (`StreamDecrypt.RangeReadsExactly`, `RangeDecrypt.RangeOfExactly`).
* **Getters that leave chunks out go unnoticed.** A range request then succeeds with the remaining chunks joined, which
  is the slice for every file of these chunk sizes if and only if only empty chunks are missing
  (`StreamFaults.RangeSplices`, `StreamFaults.ReadRightlyExactly`). Iteration after an error yields a chunk exactly if it
  was the first batch that failed part of the way (`StreamFaults.ChunkFollowsFirstError`), and then yields it twice when the
  getter recovers (`StreamFaults.RetryYieldsTwice`).
* **Parallel unwinding agrees with sequential unwinding, exactly.** Since answers are paired with requests by position,
  a permuted batch can lose a chunk; it cannot, at one level, if and only if the hashes are distinct or all the same
  (`Agreement.LevelAgreesExactly`), and over all levels if and only if these use all or none of the hashes requested
  together (`Agreement.ParallelAgreesExactly`).
* **What is stored was paid for**, over every interleaving of requests, deletions and cache evictions
  (`Node.RunIsSafe`); the store never exceeds its limit, racing puts store an address once, and the counters add up.
  The handlers as written, run alone, are such interleavings (`Handler.AntProtocol.HandlePut`).
* **What is paid for is stored.** Over every interleaving, a well-formed request whose proof the libraries accept at each of
  its turns, with a store that works and has room, is answered with success after twelve turns (`Acceptance.AcceptedIsServed`).
  Which proofs verify is stated in terms of the libraries and the constants (`Handler.VerifiesExactly`).

## How it is laid out

| file | models |
|---|---|
| Prelude.dfy | bytes, results, concatenation |
| Layout.dfy | chunk counts, sizes, starts and indices |
| Crypto.dfy | key schedule, one chunk sealed and opened |
| Codec.dfy | the data map and its binary form |
| Encrypt.dfy | batch encryption and shrinking |
| Decrypt.dfy | batch decryption and unwinding |
| RoundTrip.dfy | chains of child maps, and when the round trip holds |
| Parallel.dfy | unwinding with batched retrieval |
| Agreement.dfy | when that agrees with unwinding chunk by chunk |
| Ranges.dfy | offsets, slices, sorting by key |
| StreamDecrypt.dfy | the decryption stream |
| StreamExact.dfy | when fetches and range requests succeed, for any getter and opener |
| StreamFaults.dfy | the decryption stream with getters that fail or leave chunks out |
| RangeDecrypt.dfy | random access by the closed form |
| StreamEncrypt.dfy | the encryption stream |
| EndToEnd.dfy | all four together |
| Instances.dfy | simple libraries for which the failures are shown |
| Lru.dfy, Payment.dfy | the caches and the payment rules |
| Storage.dfy | the chunk store |
| Node.dfy | concurrent requests as interleaved steps |
| Acceptance.dfy | requests that are paid for are served |
| Handler.dfy | the handlers, and their agreement with the steps |

Code that changes things step by step is a class or a method with loops, proved against a function; code made of
expressions is a function. The encryption stream carries five ghost fields (what was fed, the length of the last piece,
how many deferred chunks were taken up, whether the next chunk failed to be sealed, what was handed out), and its invariant
relates the real fields to them and to a fixed plan: the whole input, its pieces and the batch result.

`dafny verify dfyconfig.toml` verifies everything.

## Model

| member | source | states |
|---|---|---|
| Layout.NumChunksIsCeiling | self_encryption/src/utils.rs:107-119 | with three full chunks or more the chunk count is the rounded-up quotient, and the last chunk has what is left |
| Layout.StartIsMultiple | self_encryption/src/utils.rs:174-186 | every chunk starts at its index times the size of chunk 0, the last one too, whose start the code computes differently |
| Layout.Tiling | self_encryption/src/utils.rs:127-172 | for every file size and maximum the chunks are non-empty, adjacent and cover the file exactly; each has at most the maximum, except that a file of 3 * max - 1 bytes gets a third chunk of max + 1 |
| Layout.SmallFiles | self_encryption/src/utils.rs:111-142 | below three bytes there are no chunks; from there to three full chunks there are three, the first two a third of the size rounded down, the last longer by the remainder |
| Layout.FullChunks | self_encryption/src/utils.rs:127-186 | from three full chunks on every chunk but the last is full and starts at its index times the maximum; the last is not empty and ends the file |
| Layout.LongestChunk | self_encryption/src/utils.rs:127-164 | a chunk is longer than the maximum if and only if it is the third of a file of 3 * max - 1 bytes, and then by one byte |
| Layout.BoundMonotone | self_encryption/src/utils.rs:166-186 | later chunks start strictly later, none after the end of the file |
| Layout.ChunkIndexInvertsLayout | self_encryption/src/utils.rs:189-206 | the closed-form index is the chunk that holds the position (if and only if), and the last chunk for positions beyond the end |
| Crypto.XorCycles | self_encryption/src/utils.rs:6-13 | each bit of the result is set exactly if the data bit differs from the bit of the pad byte at that place modulo the pad length; zeros become the pad, repeated |
| Crypto.XorTwice | self_encryption/src/utils.rs:6-13 | applying the repeated pad twice gives the data back, for every data and every non-empty pad |
| Crypto.XorByteLaws | self_encryption/src/utils.rs:10 | of bytes: zero changes nothing, a byte cancels itself, and the order does not matter |
| Crypto.XorByteGroups | self_encryption/src/utils.rs:10 | nor does the grouping |
| Crypto.Neighbours | self_encryption/src/utils.rs:45-64 | fails exactly below three chunks or for an index out of range; otherwise the neighbours are index - 1 and index - 2 modulo the count, although the code has no modulo |
| Crypto.KeyMaterial | self_encryption/src/utils.rs:19-43 | for every index and hash vector: chunk i of n gets its key from hashes i, i - 1 and i - 2 modulo n, its index and the level; it has none if i is out of range or n is below three |
| Crypto.KdfContextLayout | self_encryption/src/utils.rs:77-82 | the input to the key derivation is 112 bytes: the chunk's own hash, those of its two neighbours, and index and level in 8 bytes each, low byte first |
| Crypto.KdfContextInjective | self_encryption/src/utils.rs:77-82 | equal inputs to the key derivation come from equal hashes, index and level (numbers of 64 bits) |
| Crypto.GetPki | self_encryption/src/utils.rs:84-98 | pad, key and nonce have 52, 32 and 12 bytes and make up the derived block in this order |
| Crypto.KeyScheduleStable | self_encryption/src/utils.rs:19-43 | from chunk 2 on, two hash vectors that agree on three places give the same key material whatever else they hold and however long they are |
| Crypto.ChunkSealsExactly | self_encryption/src/encrypt.rs:16-36 | a chunk is sealed if and only if compression and the AEAD succeed, and without the pad it is the AEAD's output for the compressed content |
| Crypto.PadByteShows | self_encryption/src/encrypt.rs:31-35 | two pads that differ in one byte give sealed chunks that differ at exactly the places of that byte, every 52nd |
| Crypto.ChunkOpensExactly | self_encryption/src/decrypt.rs:52-74 | a chunk opens to some bytes if and only if there is a key for it, the AEAD accepts what is left without the pad, and that decompresses to them; which step failed is the error |
| Crypto.OpenInvertsSeal | self_encryption/src/decrypt.rs:52-74 | a sealed chunk opens to its content with the key material of the same index, hashes and level |
| Crypto.LowByteFirst | self_encryption/src/utils.rs:81-82 | the lowest byte of a number comes first |
| Crypto.LittleEndianRoundTrip | self_encryption/src/utils.rs:81-82 | fixed-width numbers are read back from their bytes |
| Crypto.LittleEndianCanonical | self_encryption/src/data_map.rs:175-195 | and bytes from their numbers |
| Codec.ToBytes | self_encryption/src/data_map.rs:98-128 | an encoded map has exactly 80 bytes an entry and 10 more, or 18 for a child map |
| Codec.EncodingLayout | self_encryption/src/data_map.rs:98-128 | byte by byte: 1; the entry count; the entries; 0 for a root map, or 1 and the level |
| Codec.EntriesLayout | self_encryption/src/data_map.rs:98-128 | entry i has the 80 bytes from 9 + 80 * i on: index, hash of the chunk, hash of the content, size |
| Codec.MapRoundTrip | self_encryption/src/data_map.rs:32-40 | every map is decoded from its encoding with entry order and child level kept, whatever bytes follow |
| Codec.MapRoundTripExact | self_encryption/src/data_map.rs:32-40 | the same with nothing behind the encoding |
| Codec.DecodesExactly | self_encryption/src/data_map.rs:130-197 | any bytes: they are a map if and only if they begin with 1 and are long enough for the entries they announce and for an option of tag 0 or 1 behind these; otherwise they are a bad map |
| Codec.DecodingIsCanonical | self_encryption/src/data_map.rs:175-195 | what is decoded was encoded: the encoding of the result is a prefix of the input, and its numbers fit 64 bits |
| Codec.EncodingIsPrefixFree | self_encryption/src/data_map.rs:98-128 | no encoding is a prefix of another map's; in particular the encoding is injective |
| Codec.TruncationRejected | self_encryption/src/data_map.rs:130-197 | an encoding cut short anywhere is refused |
| Codec.SortByIndexSorts | self_encryption/src/data_map.rs:50-65 | a map's entries are in index order once it is built |
| Codec.SortIsStable | self_encryption/src/data_map.rs:50-65 | sorting keeps every entry as often as it was there, and entries with the same index in their order |
| Encrypt.SortIsIdentity | self_encryption/src/data_map.rs:50-56 | entries with consecutive indices are kept as they are |
| Encrypt.CutConcat | self_encryption/src/lib.rs:190-192 | the chunks' contents one after the other are the data, up to the declared size |
| Encrypt.SealLaterChunks | self_encryption/src/lib.rs:184-217 | the first loop yields all source hashes, chunks 0 and 1 unsealed, and the seals and entries of the others as the full hash list gives them; it fails only if some chunk cannot be sealed |
| Encrypt.SealFirstChunks | self_encryption/src/lib.rs:219-241 | the second loop succeeds exactly if every chunk can be sealed, and leaves all seals and all entries in index order |
| Encrypt.PrefixSeals | self_encryption/src/lib.rs:202-204 | sealing chunk 2 and later ones with the hashes read so far is sealing with all of them |
| Encrypt.EncryptWithChildLevel | self_encryption/src/lib.rs:166-252 | the loops compute the recursive definition wherever that ends: all seals in order, then the chunks of shrinking the map that describes them; too short input and unsealable chunks fail |
| Encrypt.ShrinkDataMap | self_encryption/src/lib.rs:372-402 | the loop computes the recursive definition and hands each new chunk to the caller's function once, in order, up to the first that it refuses; nothing is handed over if encryption fails |
| Encrypt.PieceIsDescribed | self_encryption/src/lib.rs:196-241 | entry i of the root map is index i, the hash of the sealed chunk, and the hash and length of the content; the chunk is sealed with the key of its own hash and those of the two chunks before it, counted in a circle |
| Encrypt.EncryptBytes | self_encryption/src/lib.rs:161-163 | encryption refuses its input as too small if and only if it has fewer than three bytes; it returns a map of exactly three entries, and else fails only because some chunk cannot be sealed |
| Encrypt.FailsToSeal | self_encryption/src/lib.rs:166-252 | with libraries that seal everything, three bytes or more are always encrypted |
| Encrypt.ShrinkTags | self_encryption/src/lib.rs:372-402 | a map of up to three entries is left alone; any other becomes a child map of three entries, at level 1, or one level above the child map it was |
| Encrypt.ShrinkingDescends | self_encryption/src/lib.rs:372-402 | encoding a map with more than three entries and cutting the encoding gives fewer chunks than the map has entries: the mutual recursion terminates |
| Encrypt.EncodingIsShorterThanData | self_encryption/src/lib.rs:243-246 | the measure in bytes: a root map of four entries or more is encoded shorter than its data when the maximum is at least 110 |
| Encrypt.NeverBottomsOut | self_encryption/src/lib.rs:372-402 | below a maximum of 110, on data of more than three chunks, encryption bounded to any number of rounds returns no result, except that a chunk cannot be sealed |
| Encrypt.EncryptWithinIsEncrypt | self_encryption/src/lib.rs:372-402 | otherwise the bounded form equals encryption as soon as it may take as many rounds as there are chunks |
| Encrypt.EndsExactly | self_encryption/src/lib.rs:166-252 | with libraries that seal everything, encryption ends if and only if the maximum is at least 110 or the data has at most three chunks |
| Instances.PlainNeverEnds | self_encryption/src/lib.rs:166-252 | a concrete suite: at a maximum of 109 nothing longer than 327 bytes is ever done |
| Encrypt.ShrinkTakesOneRound | self_encryption/src/lib.rs:372-402 | the shrink loop runs at most once, because the encryption in it already returns three entries |
| Decrypt.DecryptSortedSet | self_encryption/src/decrypt.rs:17-48 | the two loops open chunk i as chunk i and join the results, or fail with the first error |
| Decrypt.DecryptFullSet | self_encryption/src/lib.rs:267-290 | chunks are found by the hash of their content, taken in entry order and opened at the map's level |
| Decrypt.InnerGetRootMap | self_encryption/src/lib.rs:413-458 | a retrieval closure may answer differently each time: no hash is asked for twice, and the outcome is that of every fixed getter that gives the answers heard; the cache shared by all levels never changes it; the recursion ends on its depth |
| Decrypt.GetRootDataMap | self_encryption/src/lib.rs:406-462 | the same from an empty cache: one step up after another while the map is a child map, at most a hundred |
| Decrypt.DecryptBytes | self_encryption/src/lib.rs:465-504 | unwinding if needed, then the root map's chunks opened as a full set |
| Decrypt.GathersExactly | self_encryption/src/lib.rs:277-286 | the chunks of a map's entries are found if and only if each of them is |
| Decrypt.GatheringFails | self_encryption/src/lib.rs:277-286 | and if not, the failure is that of the first that is not |
| Decrypt.OpensExactly | self_encryption/src/decrypt.rs:17-48 | a list of chunks opens if and only if each opens at its own place |
| Decrypt.OpeningFailsExactly | self_encryption/src/decrypt.rs:17-48 | and if not, the failure is that of the first that does not |
| Decrypt.SortedSetIs | self_encryption/src/decrypt.rs:17-48 | what it opens to is what each opens to, joined in order |
| Decrypt.FullSetExactly | self_encryption/src/lib.rs:267-290 | for any map and any chunks: a full set decrypts if and only if every entry finds a chunk with its hash that opens at its place; a missing one is a missing chunk |
| Decrypt.DecryptsExactly | self_encryption/src/lib.rs:465-504 | decryption succeeds if and only if unwinding does, where it is needed, and every entry of the root map can be read |
| Decrypt.TableKeepsLast | self_encryption/src/lib.rs:272-275 | of several chunks with one hash the table keeps the last |
| Decrypt.TableEntries | self_encryption/src/lib.rs:272-275 | the table keyed by hash holds only the given chunks, each under its own hash, and has all their hashes |
| Decrypt.TableFinds | self_encryption/src/lib.rs:272-275 | without collisions it finds every chunk |
| Decrypt.DecryptionIsMonotone | self_encryption/src/lib.rs:465-504 | a successful decryption succeeds with the same bytes when chunks are added, repeated or reordered |
| Decrypt.DecryptionDependsOnSet | self_encryption/src/lib.rs:267-290 | without collisions only the set of chunk contents matters, for failures too |
| Decrypt.FullSetRoundTrip | self_encryption/src/lib.rs:267-290 | the seals of any pieces, among any other chunks, open to the pieces |
| RoundTrip.WrapsStep | self_encryption/src/lib.rs:413-458 | one step of unwinding gives back the map that a child map encrypts, opened at the child's own level |
| RoundTrip.ChainUnwinds | self_encryption/src/lib.rs:413-458 | a chain of child maps of any length up to 100 is unwound to its root, and a longer one is refused |
| RoundTrip.FinalMapWrapsLast | self_encryption/src/lib.rs:372-402 | whatever the number of rounds, the map returned wraps exactly one map: the file's own if its encoding fits three chunks, else one sealed at level 1 |
| RoundTrip.FinalMapDecrypts | self_encryption/src/lib.rs:465-504 | decryption of such a map takes one step up and then opens the wrapped map's chunks at level 0, whatever level they were sealed at |
| RoundTrip.BytesRoundTrip | self_encryption/src/lib.rs:465-504 | decrypting what encryption returned gives the input back if the encoded root map is at most three times the maximum |
| RoundTrip.PiecesRoundTrip | self_encryption/src/lib.rs:465-504 | the same for any pieces, not only those of the standard layout |
| RoundTrip.RoundTripExactly | self_encryption/src/lib.rs:372-402 | if none of the chunks at hand that were sealed at level 1 as a first chunk opens at level 0, the round trip holds if and only if that bound holds, and decryption fails if and only if it does not |
| RoundTrip.SecondRoundFails | self_encryption/src/lib.rs:372-402 | the failing half: a second round of shrinking starts again at level 1, and unwinding stops one map early |
| RoundTrip.OneByteTooMany | self_encryption/src/lib.rs:372-402 | an input that does not come back, under the same hypotheses: 441 zero bytes at a maximum of 110 |
| Instances.ZerosAreLost | self_encryption/src/lib.rs:372-402 | with a concrete suite that input is lost without any hypothesis: encryption succeeds and decryption fails |
| Instances.LawsAreConsistent | self_encryption/src/decrypt.rs:52-74 | that suite meets every law and hypothesis of the exact round trip on its failing side |
| RoundTrip.RoundTripBoundForLeastMax | self_encryption/src/lib.rs:141-154 | at that maximum 440 bytes is the limit |
| RoundTrip.RoundTripBoundForDefaultMax | self_encryption/src/lib.rs:141-154 | at the default maximum the limit is 157132 full chunks |
| Parallel.InnerGetRootMapParallel | self_encryption/src/lib.rs:526-583 | the loops compute the recursive definition with batched requests for the hashes the cache lacks, answers paired with requests by position |
| Parallel.GetRootDataMapParallel | self_encryption/src/lib.rs:519-587 | the same from an empty cache |
| Parallel.UnseenOne | self_encryption/src/lib.rs:539-544 | a chunk is asked for exactly if the cache does not have its hash |
| Parallel.UnseenAppends | self_encryption/src/lib.rs:539-544 | entry by entry, in their order |
| Parallel.FillKeepsLast | self_encryption/src/lib.rs:554-560 | if a hash was requested twice, the answer paired with the last request is kept |
| Parallel.FillKeepsOthers | self_encryption/src/lib.rs:554-560 | and what was not paired with an answer stays as it was |
| Parallel.BatchChainUnwinds | self_encryption/src/lib.rs:526-583 | a chain of child maps is unwound to its root if that takes at most a hundred steps, and refused as too deep otherwise |
| Parallel.LevelFails | self_encryption/src/lib.rs:546-579 | for every batch getter: its failure is the level's, and a chunk neither cached nor paired with an answer is a missing chunk |
| Agreement.LevelAgreesExactly | self_encryption/src/lib.rs:546-579 | one level from an empty cache: every getter that permutes its batches leads to the parent map that the sequential form finds if and only if the level's hashes are distinct or all the same |
| Agreement.ParallelAgreesExactly | self_encryption/src/lib.rs:519-587 | the whole unwinding: the root map is that of the sequential form for every permutation if and only if each level asks for distinct hashes, or for one, and no later level uses only some of the hashes that were requested together |
| Agreement.LosingBatch | self_encryption/src/lib.rs:554-560 | otherwise there is an honest batch getter with which unwinding fails for want of a chunk although the sequential form succeeds |
| Instances.OrderMatters | self_encryption/src/lib.rs:554-560 | a concrete suite, map and batch getter for which that happens |
| StreamDecrypt.DecryptionStream.constructor | self_encryption/src/stream_decrypt.rs:48-69 | entries sorted, nothing read yet |
| StreamDecrypt.DecryptionStream.FetchNextBatch | self_encryption/src/stream_decrypt.rs:72-119 | for every getter: a failing getter changes nothing; otherwise the answers, sorted, are opened entry by entry, and a chunk that does not open leaves those before it and the same batch to be fetched again |
| StreamDecrypt.DecryptionStream.OpenBatch | self_encryption/src/stream_decrypt.rs:101-113 | the chunks opened before the first failure, and that failure |
| StreamDecrypt.FetchReads | self_encryption/src/stream_decrypt.rs:72-119 | of a readable file, a batch answered in any order becomes the next chunks in order |
| StreamDecrypt.DecryptionStream.Next | self_encryption/src/stream_decrypt.rs:294-316 | the next chunk of the current batch or else of the next one, for every getter, errors included |
| StreamDecrypt.NextReads | self_encryption/src/stream_decrypt.rs:294-316 | from position p of a readable file, chunk p and then position p + 1; at the end None and no change, for every batch size from 1 |
| StreamDecrypt.DecryptionStream.NextChunk | self_encryption/src/stream_decrypt.rs:294-316 | the same of the stream itself |
| StreamExact.FetchSucceedsExactly | self_encryption/src/stream_decrypt.rs:72-119 | for every getter and opener: a fetch succeeds if and only if the getter does and the sorted answers open with their entries; the batch then starts over and the next one lies behind it; else it fails with the getter's error or the batch's, to be fetched again |
| StreamExact.BatchOpensExactly | self_encryption/src/stream_decrypt.rs:101-113 | a batch opens if and only if every pair of an entry and an answer does, each to what its answer opens to; else the error is that of the first that does not, and those before it are kept |
| StreamExact.EmptyBatchEnds | self_encryption/src/stream_decrypt.rs:294-316 | a batch of which nothing is answered ends the iteration although there may be more, and is passed over |
| StreamFaults.ChunkFollowsError | self_encryption/src/stream_decrypt.rs:294-316 | after a failed fetch the next item is a chunk if and only if the cursor left behind has one to yield; otherwise the same error comes again, and again |
| StreamFaults.ChunkFollowsFirstError | self_encryption/src/stream_decrypt.rs:72-119 | on a run without earlier errors, with a getter that answers as many chunks as were requested, a chunk follows an error if and only if it was the first batch that failed and some of its chunks had been opened |
| StreamFaults.RetryYieldsTwice | self_encryption/src/stream_decrypt.rs:72-119 | if then the getter recovers, those chunks are yielded twice: after the error, and again from the start of the file |
| StreamFaults.RetryResumes | self_encryption/src/stream_decrypt.rs:72-119 | in every other case iteration goes on where the error interrupted it, nothing lost and nothing twice |
| StreamFaults.ShortBatchIsPassedOver | self_encryption/src/stream_decrypt.rs:101-118 | a batch of which only the first chunks are answered is taken for complete: the others are passed over without an error |
| StreamDecrypt.DecryptionStream.GetChunkIndexFromInfos | self_encryption/src/stream_decrypt.rs:267-285 | the scan finds the index of the first entry whose bytes hold the position; there is one for every position in the file, and beyond it the last index is taken |
| StreamDecrypt.DecryptionStream.ReadAll | self_encryption/src/stream_decrypt.rs:294-316 | iteration yields every chunk exactly once, in order |
| StreamDecrypt.StartIsNotBelow | self_encryption/src/stream_decrypt.rs:252-257 | the start of the chunk found is never behind the position, for every sorted map: the offset inside the chunk does not underflow |
| StreamDecrypt.DecryptionStream.CollectRequests | self_encryption/src/stream_decrypt.rs:202-211 | the requests of an index range, sorted |
| StreamDecrypt.DecryptionStream.CollectAnswers | self_encryption/src/stream_decrypt.rs:216-217 | the answers as a map |
| StreamDecrypt.RangeRequest | self_encryption/src/stream_decrypt.rs:202-217 | all chunks of the range are requested and, answered in any order, found and opened |
| StreamDecrypt.DecryptionStream.OpenRange | self_encryption/src/stream_decrypt.rs:219-231 | the chunks of an index range that were answered, opened and joined in index order, or the first failure |
| StreamDecrypt.DecryptionStream.GetRange | self_encryption/src/stream_decrypt.rs:182-249 | for every getter, every sorted map and all 64-bit arguments, the sum wrapping: empty beyond the end or for length 0; else the chunks found by the scan, cut at the first one's start |
| StreamDecrypt.RangeReads | self_encryption/src/stream_decrypt.rs:182-249 | of a readable file any range whose end fits 64 bits is the slice of the file, clipped at its end |
| StreamDecrypt.RangeReadsExactly | self_encryption/src/stream_decrypt.rs:190-191 | for all 64-bit arguments: the slice comes back if and only if the sum fits, or nothing of the file is asked for, or the wrapped end lies in the chunk of the start and that chunk ends the file |
| StreamDecrypt.OverflowedRange | self_encryption/src/stream_decrypt.rs:190-231 | when the sum overflows, what comes back is the rest of the chunk that holds the start, or nothing |
| StreamExact.RangeSucceedsExactly | self_encryption/src/stream_decrypt.rs:182-249 | for every getter, opener and sorted map, a range request that reaches the chunks succeeds if and only if the getter does and every answered chunk from the one of the first byte to the one of the last opens; a failing getter's error is the request's |
| StreamExact.RangeFailsWithLowest | self_encryption/src/stream_decrypt.rs:219-231 | if the getter did not fail, the error is that of the lowest index whose answer does not open |
| StreamExact.RangeGives | self_encryption/src/stream_decrypt.rs:219-249 | and if all open, the result is what they open to, in index order, from the place of the start behind the sizes below the first index |
| StreamExact.OpenIndicesExactly | self_encryption/src/stream_decrypt.rs:219-231 | an index range opens if and only if every answered chunk in it does |
| StreamExact.RequestedExactly | self_encryption/src/stream_decrypt.rs:202-211 | asked for are, for each index in the range, all entries with it in their order, and nothing else; sorted by index |
| StreamExact.AnswersKeepLast | self_encryption/src/stream_decrypt.rs:216-217 | of several answers for an index the last counts |
| StreamExact.IndexBeyondEnd | self_encryption/src/stream_decrypt.rs:267-285 | beyond the end of the file the last entry's index is taken |
| StreamExact.SumBelowExactly | self_encryption/src/stream_decrypt.rs:252-257 | the start of an index is the offset of the first entry that is not below it |
| StreamFaults.RangeSplices | self_encryption/src/stream_decrypt.rs:213-246 | a getter that answers any part of the request: the chunks it answers are joined and cut at the offset of the first chunk, whether that one is there or not |
| StreamFaults.ReadRightlyExactly | self_encryption/src/stream_decrypt.rs:219-246 | that gives the slice for every file with these chunk sizes if and only if only empty chunks are left out |
| StreamFaults.RangeOfAnsweredChunks | self_encryption/src/stream_decrypt.rs:213-246 | so a range request whose non-empty chunks are all answered returns the slice |
| StreamFaults.OmissionGoesUnnoticed | self_encryption/src/stream_decrypt.rs:221-231 | and whichever non-empty chunk is left out, there are a file and a getter for which the request succeeds with other bytes |
| StreamDecrypt.DecryptionStream.GetSlice | self_encryption/src/stream_decrypt.rs:182-249 | of the stream itself, for all arguments: the slice if and only if the sum of start and length does not overflow or that makes no difference |
| StreamDecrypt.RangeIsSlice | self_encryption/src/stream_decrypt.rs:233-246 | cut from its own chunks at the internal offset, a range is the slice of the whole file |
| StreamDecrypt.CutRange | self_encryption/src/stream_decrypt.rs:239-248 | the tail of a range request never reads beyond what was opened |
| StreamDecrypt.DecryptionStream.Range | self_encryption/src/stream_decrypt.rs:354-357 | half-open range; empty when it ends before it starts |
| StreamDecrypt.DecryptionStream.RangeFrom | self_encryption/src/stream_decrypt.rs:360-364 | everything from a position on |
| StreamDecrypt.DecryptionStream.RangeTo | self_encryption/src/stream_decrypt.rs:367-369 | everything before a position |
| StreamDecrypt.DecryptionStream.RangeFull | self_encryption/src/stream_decrypt.rs:372-375 | the whole file, which is the concatenation of what iteration yields |
| StreamDecrypt.DecryptionStream.RangeInclusive | self_encryption/src/stream_decrypt.rs:378-381 | both ends included, and one byte if the end comes before the start; up to the largest position of all, nothing from position 0, and otherwise the slice exactly if the overflow makes no difference |
| StreamDecrypt.StreamingDecrypt | self_encryption/src/stream_decrypt.rs:48-69 | a stream on the unwound root map, or the error of unwinding |
| Ranges.SliceFromChunks | self_encryption/src/stream_decrypt.rs:197-246 | for any chunk sizes, a range lies in the chunks of its first and last byte |
| Ranges.SortStable | self_encryption/src/stream_decrypt.rs:98-99 | sorting keeps answers with the same index in their order |
| Ranges.SortRestores | self_encryption/src/stream_decrypt.rs:98-99 | sorting a permuted batch by distinct keys restores its order |
| RangeDecrypt.DecryptRange | self_encryption/src/lib.rs:303-368 | the loops compute the functional form, missing and damaged chunks and overflow of the sum included, for every map |
| RangeDecrypt.DecryptsRangeExactly | self_encryption/src/lib.rs:303-368 | for any map, chunks and 64-bit arguments: a chunk that is missing between the chunks of the two ends fails the request as a missing chunk; else it succeeds if and only if each selected chunk opens at its place |
| RangeDecrypt.SelectsExactly | self_encryption/src/lib.rs:325-337 | the chunks of an index range are selected if and only if each is there |
| RangeDecrypt.SelectingFails | self_encryption/src/lib.rs:325-337 | and if not, the first that is missing is the failure |
| RangeDecrypt.SelectIsGather | self_encryption/src/lib.rs:325-337 | selected are the chunks of the entries due, as for a full set of a map of those entries |
| RangeDecrypt.DueExactly | self_encryption/src/lib.rs:325-337 | due are all entries with an index in the range, in their order, and no others |
| RangeDecrypt.OpensFromExactly | self_encryption/src/lib.rs:339-350 | the selected chunks open if and only if each does, counted up from the first index |
| RangeDecrypt.OpeningFromFails | self_encryption/src/lib.rs:339-350 | and if not, the failure is that of the first that does not |
| RangeDecrypt.RangeOfIsSlice | self_encryption/src/lib.rs:303-368 | on a map of the standard layout the result is the slice of the file, for every position and length whose sum fits: what GetRange returns |
| RangeDecrypt.RangeOfExactly | self_encryption/src/lib.rs:312-315 | for all 64-bit arguments the slice comes back if and only if the sum fits or wraps harmlessly |
| RangeDecrypt.OpenChunks | self_encryption/src/lib.rs:339-350 | the selected chunks opened one after the other, counting up from the first index, or the first failure |
| RangeDecrypt.ChunksOfRange | self_encryption/src/lib.rs:317-323 | there the closed forms name the first and last chunk of the range and its first byte |
| RangeDecrypt.StartAtMostPosition | self_encryption/src/lib.rs:354-356 | the closed-form start is never behind the position, on any map |
| RangeDecrypt.SelectChunks | self_encryption/src/lib.rs:325-337 | the chunks of an index range in entry order, or a failure if one is missing |
| StreamEncrypt.EncryptionStream.constructor | self_encryption/src/stream_encrypt.rs:144-174 | a new stream satisfies the invariant |
| StreamEncrypt.EncryptionStream.GetProcessedBytes | self_encryption/src/stream_encrypt.rs:274-281 | the sum of the sizes of the chunks taken is where the next one starts |
| StreamEncrypt.EncryptionStream.TakeChunk | self_encryption/src/stream_encrypt.rs:178-204 | what is taken is the next piece of the input; its place in the buffer is always 0; nothing is taken only if the buffer is short, or if the input ended before the chunk |
| StreamEncrypt.BufferConserves | self_encryption/src/stream_encrypt.rs:177-263 | the bytes fed are the chunks taken followed by the buffer, and while no more than the declared size was fed the buffer holds at most a maximal chunk and the last piece |
| StreamEncrypt.EncryptionStream.EncryptStreamChunk | self_encryption/src/stream_encrypt.rs:303-332 | sealing with placeholders for the hashes still unknown gives the seal that all hashes give |
| StreamEncrypt.NeighbouringHashes | self_encryption/src/stream_encrypt.rs:303-316 | which needs the hashes of three chunks only |
| StreamEncrypt.EncryptionStream.RecordChunk | self_encryption/src/stream_encrypt.rs:206-239 | tables of hashes, entries and deferred chunks stay right; chunks 0 and 1 are deferred, later ones always sealed at once; one that cannot be sealed stays recorded and counts as unread |
| StreamEncrypt.EncryptionStream.Advance | self_encryption/src/stream_encrypt.rs:251-258 | draining the buffer keeps conservation and bound |
| StreamEncrypt.EncryptionStream.ProcessChunk | self_encryption/src/stream_encrypt.rs:206-258 | a whole step keeps the invariant and hands out exactly the sealed chunk; a chunk that cannot be sealed is next again, and fails again |
| StreamEncrypt.EncryptionStream.ReadChunks | self_encryption/src/stream_encrypt.rs:178-263 | the reading loop, up to the next sealed chunk or the end of the buffer |
| StreamEncrypt.EncryptionStream.TryProcessChunks | self_encryption/src/stream_encrypt.rs:177-271 | with every chunk read and the input ended it goes on to finalisation |
| StreamEncrypt.EncryptionStream.FinalizeEncryption | self_encryption/src/stream_encrypt.rs:335-426 | one call hands out one deferred chunk, or the first shrink chunk, or the final map |
| StreamEncrypt.EncryptionStream.SealDeferred | self_encryption/src/stream_encrypt.rs:351-377 | deferred chunks are taken up with all hashes, chunk 0 first; one that cannot be sealed is lost: its data is gone and its entry keeps the hash of nothing |
| StreamEncrypt.EncryptionStream.ShrinkRoot | self_encryption/src/stream_encrypt.rs:379-396 | what shrinking the recorded root map gives, which without lost chunks is the map and the extra chunks of batch encryption |
| StreamEncrypt.EncryptionStream.ShrinkAndFinish | self_encryption/src/stream_encrypt.rs:379-426 | the final map is set, and returned at once if there is no shrink chunk; failing, nothing changes and it fails again |
| StreamEncrypt.EncryptionStream.NextShrinkChunk | self_encryption/src/stream_encrypt.rs:436-456 | shrink chunks are handed out in order, each once |
| StreamEncrypt.EncryptionStream.FeedNextPiece | self_encryption/src/stream_encrypt.rs:475-489 | taking one more piece of any length, empty ones too, keeps the invariant |
| StreamEncrypt.EncryptionStream.NextInternal | self_encryption/src/stream_encrypt.rs:434-504 | the loop ends for every finite input; None only when the input ended before the last chunk; a failure keeps the invariant, and either repeats for ever or has lost a deferred chunk |
| StreamEncrypt.EncryptionStream.Next | self_encryption/src/stream_encrypt.rs:43-60 | each chunk with its name; once None, None for ever, the final map unchanged; after a failure the same failure for ever, unless it was a deferred chunk, which is passed over |
| StreamEncrypt.FinishedMeans | self_encryption/src/stream_encrypt.rs:265-270 | a finished stream has a map if and only if the input reached into the last chunk, failures ignored or not; if no deferred chunk was lost, map and chunks are those of batch encryption in stream order, otherwise there is a map although batch encryption fails |
| StreamEncrypt.StreamOrderIsPermutation | self_encryption/src/stream_encrypt.rs:177-271 | stream order (2 to n - 1, 0, 1, shrink chunks) has every batch chunk exactly once |
| StreamEncrypt.Drain | self_encryption/src/stream_encrypt.rs:539-541 | draining ends, and yields exactly what was handed out, each with its hash as name |
| StreamEncrypt.StreamEncrypt | self_encryption/src/stream_encrypt.rs:703-709 | a declared size is refused if and only if it is below three; otherwise there is a stream |
| StreamEncrypt.EncryptStreaming | self_encryption/src/stream_encrypt.rs:434-504 | however the input is cut, draining the stream and taking its map is batch encryption of the pieces; input that ends before the last chunk gives no map, and fails if and only if a chunk from 2 on that it reaches cannot be sealed; it is too small if and only if fewer than three bytes are declared, any other failure is of a chunk that cannot be sealed, and with libraries that seal everything enough input always ends with a map |
| EndToEnd.LostChunkIsNamed | self_encryption/src/stream_encrypt.rs:351-373 | in that case the recorded root map names a chunk by the hash of nothing: nobody without a chunk of that name can collect its chunks |
| EndToEnd.LostChunkIsMissed | self_encryption/src/stream_encrypt.rs:351-390 | so a file of three chunks of which one was lost does not decrypt from what the stream handed out |
| EndToEnd.StreamRefinesBatch | self_encryption/src/stream_encrypt.rs:434-504 | for input of the declared size the stream fails exactly if batch encryption fails, and otherwise has its map and a permutation of its chunks |
| EndToEnd.StreamedInputDecrypts | self_encryption/src/stream_encrypt.rs:186-204 | with less or more input than declared, a map decrypts with the streamed chunks to the first min(fed, declared) bytes |
| EndToEnd.LongInputIsCut | self_encryption/src/stream_encrypt.rs:186-192 | of longer input only the declared bytes count |
| EndToEnd.RootMapIsStandard | self_encryption/src/lib.rs:190-216 | a root map that encryption makes has the standard layout and describes as many bytes as there were |
| EndToEnd.RootMapReads | self_encryption/src/stream_decrypt.rs:294-316 | the pieces can be read from their root map chunk by chunk |
| EndToEnd.StreamReadsEncrypted | self_encryption/src/stream_decrypt.rs:500-509 | a decryption stream on what encryption returned reads all pieces from their root map, and finds that root map for every permutation of its batches if and only if there is no child map or the child map's hashes are distinct or all the same |
| EndToEnd.RootIsFound | self_encryption/src/lib.rs:519-587 | parallel unwinding of encryption's own child map finds the root map for every permutation exactly under that condition |
| EndToEnd.ReadableDecrypts | self_encryption/src/lib.rs:465-504 | whatever iteration and random access read from a root map, batch decryption returns as well |
| Lru.PutKeeps | ant-node/src/payment/cache.rs:98-101 | an insertion keeps exactly the most recently used keys |
| Lru.PromoteKeeps | ant-node/src/payment/cache.rs:83-93 | so does a hit |
| Lru.KeptValue | ant-node/src/payment/verifier.rs:536-541 | a kept key has the value it was last used with |
| Lru.KeptMeans | ant-node/src/payment/cache.rs:22-27 | a key is in the cache if and only if it was used and fewer than the capacity of other keys have been used since |
| Payment.VerifiedCache.constructor | ant-node/src/payment/cache.rs:65-77 | empty, and a capacity of 0 means 1 |
| Payment.VerifiedCache.Contains | ant-node/src/payment/cache.rs:83-93 | a hit exactly for the recently used keys; hits count as uses, misses change only a counter |
| Payment.VerifiedCache.Insert | ant-node/src/payment/cache.rs:98-101 | the key is in front, the least recently used one is evicted |
| Payment.VerifiedCache.Clear | ant-node/src/payment/cache.rs:126-128 | empties the cache and keeps the counters |
| Payment.ValidateQuoteStructure | ant-node/src/payment/verifier.rs:406-429 | accepted if and only if there are five quotes from five different peers |
| Payment.ValidateQuoteContent | ant-node/src/payment/verifier.rs:432-443 | if and only if all are for the address |
| Payment.ValidateQuoteTimestamps | ant-node/src/payment/verifier.rs:446-476 | if and only if each was issued less than 86401 seconds ago and less than 61 seconds ahead |
| Payment.ValidatePeerBindings | ant-node/src/payment/verifier.rs:479-494 | if and only if each key belongs to the claimed peer |
| Payment.ValidateLocalRecipient | ant-node/src/payment/verifier.rs:668-680 | if and only if this node is among the recipients |
| Payment.CheckVaultResults | ant-node/src/payment/verifier.rs:373-392 | if and only if something was paid and all that was paid is valid |
| Payment.VerifyEvmPayment | ant-node/src/payment/verifier.rs:304-403 | if and only if all of these hold and all quotes are signed |
| Payment.SingleAcceptedMeans | ant-node/src/payment/verifier.rs:304-403 | spelled out with the numbers of the code: five quotes, 86401 and 61 seconds |
| Payment.MerkleRefused | ant-node/src/payment/verifier.rs:580-654 | spelled out by what refuses it: an unsigned or misdated candidate, an address outside the tree, a wrong number of paid nodes, a paid node that is none of the pool at its place |
| Payment.CheckMerkle | ant-node/src/payment/verifier.rs:580-654 | if and only if all candidates are signed and dated as the record says, the address is in the paid tree, and the paid nodes are as many as the depth and are candidates at their places |
| Storage.PutTxnFacts | ant-node/src/storage/lmdb.rs:193-225 | a write transaction overwrites and loses nothing, adds at most the one entry, says true exactly then, and never goes beyond the limit |
| Storage.TryPutFacts | ant-node/src/storage/lmdb.rs:164-248 | with a store that may fail: a put does what its transaction would, or fails and changes nothing; it fails if and only if the first look does, or the chunk is not there and the transaction fails or finds the store full |
| Storage.LmdbStorage.constructor | ant-node/src/storage/lmdb.rs:90-148 | counters start at zero on any existing content |
| Storage.LmdbStorage.Put | ant-node/src/storage/lmdb.rs:164-248 | refuses content that is not under its hash; else a first look and the transaction, of which either may fail and then changes nothing; counted as stored or duplicate; keeps every entry under its hash |
| Storage.LmdbStorage.WriteTransaction | ant-node/src/storage/lmdb.rs:193-225 | the transaction itself; failing anywhere, it leaves the store alone |
| Storage.LmdbStorage.Get | ant-node/src/storage/lmdb.rs:263-315 | a failing read is an error of its own; with verification on, what is returned has the hash asked for; a store with every entry under its hash never fails verification |
| Storage.LmdbStorage.Delete | ant-node/src/storage/lmdb.rs:340-364 | takes away exactly the one entry, true exactly if there was one; failing, it changes nothing |
| Node.StepIsSafe | ant-node/src/storage/handler.rs:138-209 | every event keeps the invariant of the store, both caches, the payments and all requests |
| Node.RunIsSafe | ant-node/src/storage/handler.rs:138-209 | over every interleaving with deletions and evictions: each stored entry was there at the start or is under its hash, within the size limit, stored by a put and cached as paid at the start or paid since on accepted evidence; the cache of addresses holds none but these; the pool cache only holds records the chain gave |
| Node.PaymentPhaseOk | ant-node/src/payment/verifier.rs:199-267 | while a payment is verified, nothing but accepted evidence leads to storing |
| Node.StoredReplyMeans | ant-node/src/storage/handler.rs:165-203 | success is answered only for content of at most 4194304 bytes under its hash that was in the store at some time, and is paid for unless the answer is that it was there already |
| Node.NeverOverCapacity | ant-node/src/storage/lmdb.rs:207-218 | a store within a limit stays within it over every interleaving |
| Node.RunBalances | ant-node/src/storage/lmdb.rs:164-248 | for each address, puts that stored minus deletes that removed is the change in whether it is there |
| Node.RacingPutsStoreOnce | ant-node/src/storage/lmdb.rs:190-205 | of all puts racing for an address at most one stores it between two deletions, none if it is there |
| Node.RunKeepsSize | ant-node/src/storage/lmdb.rs:164-248 | entries are entries at the start plus puts that stored minus deletes that removed |
| Node.RunTallies | ant-node/src/storage/lmdb.rs:229-239 | every result of a put is counted once and answered with success once |
| Node.CountersAtRest | ant-node/src/storage/lmdb.rs:229-239 | at rest the counters are the numbers of true and false results, and replies of success are their sum, so at least as many as new entries |
| Node.StepProgresses | ant-node/src/storage/handler.rs:138-209 | each step brings its own request nearer to the reply and moves no other |
| Node.EveryRequestIsAnswered | ant-node/src/storage/handler.rs:138-209 | after twelve turns at most a request is answered whatever the others do, and its answer never changes |
| Acceptance.AcceptedIsNeverUnpaid | ant-node/src/payment/verifier.rs:199-267 | over every interleaving: a request whose proof the libraries accept at each of its turns is never refused for its payment, whatever others do to the caches |
| Acceptance.AcceptedIsServed | ant-node/src/storage/handler.rs:138-209 | if moreover its content is under its hash and at most 4194304 bytes, and the store works and has room at each of its turns, it is answered with success after twelve turns |
| Acceptance.TurnIsNotUnpaid | ant-node/src/payment/verifier.rs:214-250 | in one turn: a proof of 32 to 262144 bytes with first byte 1 that reads as accepted quotes, or with first byte 2 that reads as a proof for this address which holds by its pool's record, is not refused |
| Handler.VerifiesExactly | ant-node/src/payment/verifier.rs:199-267 | in terms of the libraries: verification succeeds if and only if the address is cached, or the proof has 32 to 262144 bytes and either starts with 1 and reads as accepted quotes, or starts with 2 and reads as a proof for this address that holds by the pool's cached record, else the chain's; any other first byte is refused |
| Handler.VerifiedLeaves | ant-node/src/payment/verifier.rs:252-254 | after a success the address is in the front of its cache, after a failure that cache is unchanged; the record used is in the front of the pool cache, which holds 1000 |
| Handler.PaymentVerifier.constructor | ant-node/src/payment/verifier.rs:127-145 | both caches start empty |
| Handler.PaymentVerifier.CheckPaymentRequired | ant-node/src/payment/verifier.rs:161-178 | payment is required exactly for addresses not cached |
| Handler.PaymentVerifier.VerifyMerklePayment | ant-node/src/payment/verifier.rs:523-665 | a cached pool record spares the query; a record from the chain is cached even if the proof then fails |
| Handler.PaymentVerifier.VerifyProof | ant-node/src/payment/verifier.rs:214-250 | size, tag and form of a proof, then its kind of payment |
| Handler.PaymentVerifier.VerifyPayment | ant-node/src/payment/verifier.rs:199-267 | succeeds if and only if the request is paid for in that sense; a cached address needs no proof, an accepted proof caches it, a refused one does not; a successful answer always permits storing |
| Handler.VerifyingEnds | ant-node/src/payment/verifier.rs:199-267 | verification taken step by step without interruption is verification at once |
| Handler.PuttingEnds | ant-node/src/storage/lmdb.rs:164-248 | so is a put, whether or not the store fails |
| Handler.AntProtocol.constructor | ant-node/src/storage/handler.rs:67-77 | a node starts in a starting state |
| Handler.AntProtocol.HandlePut | ant-node/src/storage/handler.rs:138-209 | the handler leaves the store, caches and counters, and gives the answer, to which the interleaved steps of this one request lead. Which answer that is: too large above 4194304 bytes; else wrong address unless the content has that hash; else internal if the first check fails; else already there; else payment failed unless it is paid for; else storage failed if the store fails or is full; else stored, and then, only then, the store gains this chunk |
| Handler.FinishIsRun | ant-node/src/storage/handler.rs:138-209 | which is one of the interleavings, so that what holds after every run holds after it |
| Handler.AntProtocol.HandleGet | ant-node/src/storage/handler.rs:212-232 | a store with every entry under its hash answers exactly what it has, unless reading fails |

## Left out

- Crypto.EncryptChunk: has no contract of its own; what sealing means is stated by `Crypto.ChunkSealsExactly` and `Crypto.OpenInvertsSeal`. Brotli, ChaCha20-Poly1305 and BLAKE3 are uninterpreted, and compression and encryption errors are one error. The crate's own description of AES and SHA3 is out of date; the code uses the algorithms named here.
- Encrypt.EncryptWithChildLevel: requires that the recursion ends, that is, a maximum of at least 110 or at most three chunks; otherwise the code does not return, or fails to seal a chunk on the way (`Encrypt.NeverBottomsOut`).
- Layout.Tiling: the branches for a remainder below MIN_CHUNK_SIZE are absent; with MIN_CHUNK_SIZE = 1, the only value in the code, no remainder reaches them.
- Layout.NumChunksIsCeiling: sizes are unbounded numbers; sums of chunk sizes that exceed 64 bits are not modelled.
- StreamDecrypt.DecryptionStream.GetRange: the sum of start and length wraps, as in a release build; a build with overflow checks panics there. The batch getter is a fixed function of the request within one call; module StreamFaults lets it change between calls.
- StreamDecrypt.NextReads: is about runs without errors; what follows an error is stated in module StreamFaults.
- StreamEncrypt.EncryptionStream.Next: the input is a finite list of pieces, and a chunk that failed to be sealed once always fails.
- Agreement.ParallelAgreesExactly: is about runs in which the sequential form succeeds, and about batch getters that answer all they are asked for.
- Decrypt.DecryptSortedSet: chunks are opened in order, so that of several that do not open the first gives the error. With the parallel feature of the crate (rayon) any of them may.
- Acceptance.AcceptedIsServed: a pool's proof must hold by every record the chain has given for that pool, and a request whose address was cached by another is not counted as covered by that.
- Codec.MapRoundTrip: the binary form only; the human-readable form of a map is not part of this model.
- Node.RunIsSafe: clock, vault and chain answers come in as arbitrary values with each event, and so does whether the store fails; a failing store operation changes nothing. Validations that read no shared state are one step with the answer they precede. Messages, quotes given out, pricing and metrics are not modelled.
- Handler.AntProtocol.HandlePut: the reply that payment is required is never given by the code, since verification never ends that way. Success is answered for a duplicate too.
- Payment.VerifiedCache.Contains: the counters are unbounded; in the code they wrap at 64 bits.
- Payment.VerifyEvmPayment: the payment digest is not modelled beyond the vault's verdicts; with five quotes it is never empty.
- Storage.LmdbStorage.Get: the node's methods for tests, which store without payment or fill the cache, are not modelled. Neither is the count of entries outside the write transaction.
- Python, Node and command-line bindings, node start-up, configuration, wallets and transport are plumbing around libraries.

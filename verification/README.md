# rustpush: verified models

A Dafny model of the stateful codecs, transfer engines and small protocols of rustpush, with
proofs of what they promise.  `dafny verify dfyconfig.toml` checks all of it.

- **apns-pack-v1** (`ApsTables`, `ApsSpec`, `ApsCoder`, `ApsDecoder`): encoder and decoder roll two
  tables each as messages flow.  `ApsRoundTrip`, `ApsStream` and `ApsExchange` prove that the two ends
  stay in step over whole streams, `ApsAhead`, `ApsKeyOrder` and `ApsCacheOrder` exactly where they would not.
- **Typedstream and keyed archives** (`TypedStreamFormat`, `TypedStreamCoder`, `TypedStreamRoundTrip`,
  `AttributedString`, `ArchiveClasses`, `ArchiveExpansion`, `Archiver`): shared references are rebuilt
  index for index, and trees come back.
- **MMCS** (`MmcsChunking`, `MmcsReassembly`, `MmcsRepeatedIds`, `MmcsMatcher`): cutting files, reassembly in any order, many
  sources to many targets.
- **Protocols** (`ResourceManager`, `CloudKitWatcher`, `CloudKitSync`, `ApsTopics`, `SharedStreams`,
  `FindMy`): every interleaving of their atomic steps, whole runs.
- `Bytes`, `Floats`, `Io`, `Varint` and `Delimited` hold what they share and the framing of CloudKit messages.

Where the source updates state in place there is a class or a method with loops, proved equal to a
function; the theorems are about the functions and so hold of the classes.  A panic of the source
(integer overflow as in a checked build) is a result here, never excluded by a precondition.
Encryption, signatures and key derivation are arbitrary functions given as parameters; UUIDs, the
order of hash maps and of responses and failing requests are parameters, timers and generations chance.

Some promises hold only under a condition, which is proved to be exact:

- a cached top-level attribute keeps the tables in step exactly if its key is one nibble, or is
  found in the key table at the same place before and after its value is written, or is new and its
  value uses no key (`ApsCacheOrder.CachedLockstepIff`);
- the size accounting is exact exactly if every cached value fits (`ApsTables.AccountedIffAllFit`);
- a typedstream comes back exactly if arrays are alone in their groups
  (`TypedStreamRoundTrip.DecodeOfEncodeLegacy`);
- reassembly never panics exactly if the final chunk arrives last (`MmcsReassembly.Progress`,
  `MmcsMatcher.Matcher.TransferChunks`): the drain loop unwraps the wanted chunk, which is none once
  the final chunk has been drained;
- reassembly keeps in step with what has arrived, in every order, exactly if no chunk id occurs twice
  (`MmcsRepeatedIds.InStepIffDistinct`);
- paged sync completes exactly if equal zones have equally many pages (`CloudKitSync.DoSync`);
- folder sync succeeds exactly if nothing it comes to fails (`SharedStreams.SyncState.DoSync`), and then
  converges in one pass exactly if nothing hinders it (`SharedStreams.Converges`).

Line 754 of `src/findmy.rs` restarts the secondary ratchet from the primary secret; the model does as
the code does.

## Model

| member | source | states |
|---|---|---|
| `Varint.ReadGroupsOfGroups` | src/aps.rs:357-367 | any u64 written in seven-bit groups is read back from exactly those bytes, whatever follows |
| `ApsRoundTrip.ReadTaggedOfWrite` | src/aps.rs:185-212 | for widths 4, 5, 6 and 8, every u64 and every disjoint mask: the tagged integer read back is the one written and stops where it ended; the mask bits survive |
| `ApsRoundTrip.ReadIntOfWrite` | src/aps.rs:279-299 | every integer the encoder accepts (all i64 but the minimum) is read back with its sign |
| `ApsTables.Find` | src/aps.rs:161-163 | the index counts back from the newest entry to the first equal one, and there is one exactly if the item is in the table |
| `ApsTables.AddKey` | src/aps.rs:114-121 | the key table keeps the newest 32 keys |
| `ApsTables.EvictAccounted` | src/aps.rs:137-147 | making room for an item within budget never pops an empty deque nor underflows, and ends within the budget with exact accounting |
| `ApsTables.EvictMinimal` | src/aps.rs:141-144 | eviction removes no item more than needed |
| `ApsTables.AddValueAccounted` | src/aps.rs:137-148 | an item within budget is accepted, is in the table and keeps `total_size` exact |
| `ApsTables.AccountedIffAllFit` | src/aps.rs:137-148 | over any run of pushes the size accounting stays exact and within budget without a panic if and only if every pushed item fits the budget |
| `ApsTables.OversizedItemPanics` | src/aps.rs:139-146 | a concrete run in which an oversized item, pushed but not accounted, makes a later push panic |
| `ApsTables.KeyTable.AddItem` | src/aps.rs:114-121 | the deque after a push is `AddKey` of the one before |
| `ApsTables.ValueCache.AddItem` | src/aps.rs:137-148 | deque and `total_size` after a push are `AddValue` of those before, and a panic is one |
| `ApsTables.FindIndex` | src/aps.rs:161-163 | the search loop is `Find` |
| `ApsRoundTrip.ReadValueOfWrite` | src/aps.rs:269-319 | a nested value is read back normalised, consuming exactly its bytes, and both sides end with the same tables |
| `ApsRoundTrip.ReadCachedOfWrite` | src/aps.rs:217-236 | a cached value is stored on first use and named by its index afterwards, and read back the same both ways |
| `ApsCacheOrder.AttributeInOrder` | src/aps.rs:214-261 | an attribute that is not cached, or is cached and in order, is read back with its key, flag and value, and the tables agree afterwards |
| `ApsRoundTrip.DecodeOfEncode` | src/aps.rs:321-335 | round trip and lockstep of one message, from any equal tables and with any bytes behind it |
| `ApsKeyOrder.MessageKeepsDistinct` | src/aps.rs:238-247 | no message brings a key into the key table twice |
| `ApsKeyOrder.PushesMoveIndices` | src/aps.rs:114-121 | after one to 32 new keys no index names the key it named before |
| `ApsCacheOrder.CachedLockstepIff` | src/aps.rs:214-261 | a cached attribute, stored now or before, keeps both tables in step if and only if its key is one nibble, or is found at the same place before and after its value is written, or is new and its value uses no key: the encoder writes the value before it looks the key up, the decoder reads the key first |
| `ApsCacheOrder.FirstUseIff` | src/aps.rs:214-261 | the first use keeps both sides in step if and only if the key is one nibble, or is in the table and the value pushes no key, or is new and the value uses none |
| `ApsCacheOrder.DecodeInOrder` | src/aps.rs:321-335 | round trip and lockstep of any message whose cached attributes are in order, whatever tables their values use |
| `ApsCacheOrder.CachedDictionaryBreaks` | src/aps.rs:374-416 | a concrete cached dictionary after which the tables differ |
| `ApsStream.FrameOfMessage` | src/aps.rs:507-525 | the message cut from the stream ends exactly where the encoder ended it |
| `ApsStream.ReadFromStreamOfEncode` | src/aps.rs:507-525 | one message is read from a stream whatever follows it |
| `ApsStream.StreamLockstep` | src/aps.rs:507-525 | any number of messages: cut at their true boundaries, returned normalised and in order, tables equal after each |
| `ApsStream.EncodeSucceeds` | src/aps.rs:321-335 | the encoder never panics on a well-formed message whose cached values fit, and the value table stays accounted |
| `ApsCoder.Encoder.WriteTaggedValue` | src/aps.rs:185-212 | the bytes appended are the tagged integer of the format |
| `ApsCoder.Encoder.WriteAttr` | src/aps.rs:214-261 | output and both tables after the call are those of the format, and it panics exactly where the format does |
| `ApsCoder.Encoder.WriteVal` | src/aps.rs:269-319 | the same for a value, nested to any depth |
| `ApsCoder.Encoder.Encode` | src/aps.rs:321-335 | the same for a message |
| `ApsDecoder.Decoder.ReadTaggedValue` | src/aps.rs:350-372 | value and remaining input are those of the format, including a number cut short and an overflowing shift |
| `ApsDecoder.Decoder.ReadAttr` | src/aps.rs:374-416 | result, remaining input and both tables are those of the format, io errors and panics told apart |
| `ApsDecoder.Decoder.ReadVal` | src/aps.rs:418-481 | the same for a value |
| `ApsDecoder.Decoder.Decode` | src/aps.rs:483-505 | the same for a message |
| `ApsDecoder.Decoder.ReadMessage` | src/aps.rs:507-525 | the same for a message pulled from a stream |
| `ApsDecoder.CapturedBytes` | src/aps.rs:394-409 | the tracked reader has captured exactly the bytes that left the cursor |
| `ApsExchange.Send` | src/aps.rs:321-525 | two objects with equal tables: unless the encoder panics the message arrives normalised and the tables are equal again |
| `ApsTopics.TopicManager.Receive` | src/aps.rs:1377-1390 | one order changes the counts by its topics, and panics exactly if it gives back more than was counted |
| `ApsTopics.CountingEnds` | src/aps.rs:1379-1390 | counting one topic at a time comes to the order as a whole, or fails exactly if the whole does |
| `ApsTopics.InvStep` | src/aps.rs:1373-1416 | every step of any interleaving keeps loop, channel and tokens consistent |
| `ApsTopics.NoUnderflow` | src/aps.rs:1379-1390 | in no interleaving does a count go below zero |
| `ApsTopics.DrainedTopics` | src/aps.rs:1392-1402 | whenever the channel is drained the current topics are exactly those held by some live token, and what the server was told is the same unless the last filter failed |
| `ApsTopics.LoopDrains` | src/aps.rs:1376-1403 | from every state the loop alone can drain the channel, leaving the tokens alone |
| `TypedStreamRoundTrip.ReadNumberOfWrite` | src/util.rs:2289-2299 | every u32 is read back from its own bytes |
| `Floats.Rounded` | src/util.rs:2080-2090 | a number read as a float is rounded to the nearest significand, and to the even one of two |
| `TypedStreamRoundTrip.ReadReferenceOfWrite` | src/util.rs:2316-2327 | a reference is read back, and cannot be taken for another tag |
| `TypedStreamRoundTrip.ReadStringOfWrite` | src/util.rs:2329-2337 | a shared string is read back and the decoder's string cache grows as the encoder's did |
| `TypedStreamRoundTrip.ReadClassesOfWrite` | src/util.rs:2130-2149 | a class list rebuilds the object cache index for index: inserting each class at the old length gives the encoder's order |
| `TypedStreamRoundTrip.ReadValueOfWrite` | src/util.rs:2191-2209 | a value is read back with both caches in step, if each of its arrays is alone in its group; else reading panics |
| `TypedStreamRoundTrip.MixedGroupPanics` | src/util.rs:2191-2196 | a group with an array beside another value cannot be read |
| `TypedStreamRoundTrip.DecodeOfEncode` | src/util.rs:2270-2282 | decoding what was encoded gives the values back exactly if every array is alone in its group, and panics otherwise; for any valid class table |
| `TypedStreamRoundTrip.DecodeOfEncodeLegacy` | src/util.rs:2270-2282 | the same for the class table of the source |
| `TypedStreamCoder.Coder.DecodeClassList` | src/util.rs:2130-2149 | the method leaves buffer and caches as the format says |
| `TypedStreamCoder.Coder.DecodeObject` | src/util.rs:2164-2189 | the same, through the placeholder that the finished object replaces |
| `TypedStreamCoder.Coder.DecodeType` | src/util.rs:2191-2209 | the same for a type string and its values |
| `TypedStreamCoder.Coder.WriteClassList` | src/util.rs:2339-2364 | bytes and caches are those of the format, and the class index returned is right |
| `TypedStreamCoder.Coder.EncodeObject` | src/util.rs:2376-2385 | bytes and caches are those of the format for the value the arena object denotes |
| `TypedStreamCoder.Coder.EncodeType` | src/util.rs:2387-2432 | the same for a group of values |
| `TypedStreamCoder.Coder.ValueToType` | src/util.rs:2447-2473 | the arena entry denotes the value it was made from |
| `TypedStreamCoder.EncodeStreamFlattened` | src/util.rs:2270-2276 | the coder object writes exactly the bytes of the format |
| `TypedStreamCoder.DecodeStreamFlattened` | src/util.rs:2278-2282 | the coder object reads exactly what the format says |
| `TypedStreamCoder.RoundTrip` | src/util.rs:2270-2282 | encoding with one coder object and decoding with another gives the values back exactly if arrays are alone |
| `AttributedString.DictRoundTrip` | src/util.rs:1869-1892 | a dictionary is decoded to itself in whatever order its entries were written |
| `AttributedString.DecodeInPlace` | src/util.rs:1950-1981 | the decoding loop with its range cache is the recursive definition |
| `AttributedString.SharedRoundTrip` | src/util.rs:1963-1975 | ranges come back whatever ids a writer shares between equal dictionaries |
| `AttributedString.AttributedRoundTrip` | src/util.rs:1983-1993 | an attributed string is decoded to itself |
| `AttributedString.StreamRoundTrip` | src/util.rs:1936-1994 | an attributed string survives the whole coder in every order of its dictionaries exactly if no attribute holds an array beside another value |
| `ArchiveExpansion.ExpandUidFree` | src/util.rs:1387-1422 | a value without references expands to itself |
| `ArchiveExpansion.ExpandMore` | src/util.rs:1424-1430 | appending objects changes no expansion |
| `ArchiveExpansion.ExpandIsUidFree` | src/util.rs:1387-1430 | expansion leaves no reference |
| `Archiver.KeyedArchive.GetClassKey` | src/util.rs:1472-1485 | the first call for a class pushes its record at the end of the table and remembers it, a later one pushes nothing and finds it, and an unknown class changes nothing |
| `Archiver.RecordsOnce` | src/util.rs:1472-1485 | no two class records of a table are alike |
| `Archiver.KeyedArchive.ArchiveObj` | src/util.rs:1487-1519 | a value is rewritten to one that expands to the same, and this fails exactly if it cannot be archived |
| `Archiver.KeyedArchive.ArchiveKey` | src/util.rs:1457-1470 | the index returned expands to what the value expanded to |
| `Archiver.KeyedArchive.ArchiveDict` | src/util.rs:1432-1455 | keys and objects go into the table pairwise in any order and expand to the dictionary |
| `Archiver.KeyedArchive.ArchiveRecord` | src/util.rs:1487-1519 | the fields a class keeps by reference go into the table, the others stay in place |
| `Archiver.Archive` | src/util.rs:1521-1532 | archiving succeeds exactly if the tree can be archived; every reference in object i is below i, no class has two records, and expanding the indices returned gives the trees back |
| `Delimited.EncodeUleb128` | src/util.rs:596-607 | the loop writes the seven-bit groups |
| `Delimited.DecodeUleb128` | src/util.rs:583-594 | the loop reads them, and tells the end of the data from the panic of an overflowing shift |
| `Delimited.UndelimitResponse` | src/icloud/cloudkit.rs:25-33 | the loop is the recursive definition, panics included |
| `Delimited.UndelimitOfDelimit` | src/icloud/cloudkit.rs:25-33 | messages behind their lengths are read back |
| `Delimited.UndelimitOfCut` | src/icloud/cloudkit.rs:25-33 | a stream cut inside its last frame: dropped silently inside the length, a panic behind it |
| `Delimited.Concat` | src/icloud/cloudkit.rs:2028 | the request bytes are the framed operations in order, and are read back as such |
| `ResourceManager.InvStep` | src/util.rs:971-1062 | every step of loop or callers keeps: signals heard, one task at most, state published truthfully, a task polled to its end once |
| `ResourceManager.NoRefreshLost` | src/util.rs:1099-1116 | in every interleaving a waiter that has signalled and has no answer has its signal pending, or a broadcast is ahead, or the manager has stopped |
| `ResourceManager.OneTask` | src/util.rs:984-1062 | at most one task is left unaborted; none while generating and none at the end |
| `ResourceManager.ClosedHoldsNone` | src/util.rs:1059-1062 | once closed is published only the last step of the loop is left, and after it no task |
| `ResourceManager.TaskLeftWhenClosed` | src/util.rs:984-1062 | a closed manager whose last step is still ahead has left its task running if and only if the loop was stopped while waiting for a reason to retry or by finding the manager dropped |
| `ResourceManager.ClosedBeforeAbort` | src/util.rs:1059-1060 | a concrete run in which closed is seen while the task still runs |
| `ResourceManager.AnswersAreTrue` | src/util.rs:978-982 | success is broadcast only with a new task installed and published, a failure only without a task |
| `ResourceManager.NeverStuck` | src/util.rs:984-1058 | while somebody waits and the loop has not stopped, the loop can make a step |
| `ResourceManager.BoundedWait` | src/util.rs:984-1058 | a waiter waits at most thirteen steps of the loop, and one more for each thing its surroundings do |
| `MmcsReassembly.WrittenPrefix` | src/icloud/mmcs.rs:792-827 | any chunk list, any arrival order, any repeats: the bytes written are the encrypted values of the chunks before the current one |
| `MmcsReassembly.ArrivedPrefix` | src/icloud/mmcs.rs:761-763 | the longest prefix of the chunks whose ids have arrived |
| `MmcsReassembly.WriteChunkInStep` | src/icloud/mmcs.rs:792-827 | one arrival: progress is kept, and the call panics exactly if it drains the final chunk from the cache |
| `MmcsReassembly.Progress` | src/icloud/mmcs.rs:792-827 | with distinct ids the run never panics if and only if the final chunk arrives last; then `current_chunk` is the arrived prefix and the cache holds exactly what lies beyond |
| `MmcsReassembly.RepeatedIdIsLost` | src/icloud/mmcs.rs:811-815 | a concrete chunk list with a repeated id whose second copy is lost |
| `MmcsRepeatedIds.InStepIffDistinct` | src/icloud/mmcs.rs:791-827 | every run without a panic, whatever arrives in whatever order, ends in step with what has arrived if and only if no id occurs twice |
| `MmcsReassembly.ChunkedContainer.Write` | src/icloud/mmcs.rs:792-827 | the method changes the container as the specification says and panics where it does |
| `MmcsMatcher.ReadNextLaidOut` | src/icloud/mmcs.rs:768-788 | gaps in a source are skipped and every chunk is read at its own offset |
| `MmcsMatcher.BestSource` | src/icloud/mmcs.rs:849-856 | a source not yet read that most targets wait for, the last of the best; none exactly if all are read |
| `MmcsMatcher.DeliverStep` | src/icloud/mmcs.rs:869-880 | a first arrival keeps a target's progress, or panics exactly if it drains the final chunk |
| `MmcsMatcher.DeliveredWhole` | src/icloud/mmcs.rs:874-879 | a target with all its chunks holds them in its own order and was finalised once |
| `MmcsMatcher.DeliverAll` | src/icloud/mmcs.rs:869-880 | one chunk is offered to all targets; exactly which arrivals panic |
| `MmcsMatcher.Matcher.ReadSource` | src/icloud/mmcs.rs:861-887 | a source is read to its end and finalised once, exactly if none of its chunks completes a target out of order; else it stops at the first that does |
| `MmcsMatcher.Matcher.TransferChunks` | src/icloud/mmcs.rs:858-889 | it ends; it panics exactly if some target's final chunk is not the last of its chunks to arrive in the order the chunk lists alone decide; else all sources are read in that order and finalised, all targets are in step and every covered target is whole |
| `MmcsMatcher.ChosenIsNext` | src/icloud/mmcs.rs:849-856 | the source chosen in the running transfer is the next one in the order of reading, a function of the chunk lists |
| `MmcsMatcher.CopiesTransfer` | src/icloud/mmcs.rs:858-889 | no target panics if each of them is a copy of some source, however many there are of both |
| `MmcsChunking.FileContainer.Read` | src/icloud/mmcs.rs:427-444 | a read of any length returns the next bytes of the file, full length except at its end, however the reader fragments it |
| `MmcsChunking.PiecesOfFile` | src/icloud/mmcs.rs:127-157 | the pieces make up the file |
| `MmcsChunking.PiecesAreFull` | src/icloud/mmcs.rs:127-157 | all pieces but the last have the chunk size, and the last is not empty |
| `MmcsChunking.PreparePut` | src/icloud/mmcs.rs:127-157 | chunk list, total length and hashed bytes are those of the pieces of the file, independent of the reader |
| `CloudKitWatcher.Watcher.Step` | src/icloud/cloudkit.rs:638-654 | each section of a call of `handle` changes list, generation and calls as the state machine says, and returns what it takes |
| `CloudKitWatcher.Watcher.Interleave` | src/icloud/cloudkit.rs:638-654 | the watcher run through any possible interleaving ends where the state machine does and returns what it delivers |
| `CloudKitWatcher.ZonesConserved` | src/icloud/cloudkit.rs:638-654 | over any part of any run the zones delivered or still listed are exactly those listed before or notified during it |
| `CloudKitWatcher.NeverTwice` | src/icloud/cloudkit.rs:638-654 | a zone is delivered at most as often as it is notified |
| `CloudKitWatcher.ListedZonesAttended` | src/icloud/cloudkit.rs:645-652 | while zones are listed some handler has yet to count itself, is the last to have done so and asleep, or is past the check |
| `CloudKitWatcher.NoNotificationLost` | src/icloud/cloudkit.rs:638-654 | once all handlers have ended uncancelled the list is empty and each notified zone was returned after its notification |
| `CloudKitWatcher.CancelStrands` | src/icloud/cloudkit.rs:646 | a cancelled handler can leave a zone listed with nobody to return it |
| `CloudKitSync.MatchResponses` | src/icloud/cloudkit.rs:2053-2065 | the loop finds the first response to each request and panics if one has none |
| `CloudKitSync.MatchedInAnyOrder` | src/icloud/cloudkit.rs:2053-2065 | with distinct UUIDs every request gets its own answer in whatever order the responses come |
| `CloudKitSync.NextProgress` | src/icloud/cloudkit.rs:687-702 | one round keeps every zone in step with its pages |
| `CloudKitSync.Absorb` | src/icloud/cloudkit.rs:693-701 | the loop over the results of a round |
| `CloudKitSync.DoSync` | src/icloud/cloudkit.rs:683-705 | it ends; it fails exactly if a server error is reached, else panics exactly if equal zones have unequally many pages; else every zone gets its pages joined in order with the last token, each fetched once with the token before it |
| `SharedStreams.Main` | src/sharedstreams.rs:1010-1012 | the file chosen for download is the largest that is not the movie of a live photo |
| `SharedStreams.Snapshot.NewLocal` | src/sharedstreams.rs:957-961 | a new local file is one no known asset and no new asset has the name of |
| `SharedStreams.SyncState.ComputeDeltas` | src/sharedstreams.rs:944-965 | the deltas are the four differences between map, album and folder, and there are none exactly if a request for them fails |
| `SharedStreams.SyncState.RemoveRemote` | src/sharedstreams.rs:983-986 | what the request for deletions does to the album, done or not, and to the map; it fails exactly if the request does |
| `SharedStreams.SyncState.RemoveLocal` | src/sharedstreams.rs:989-1002 | it fails exactly if the presence of a file cannot be told; only files of assets deleted remotely are removed, and after a success exactly those, unless locked |
| `SharedStreams.SyncState.Download` | src/sharedstreams.rs:1005-1037 | exactly when it fails; files are only added, after a success exactly those of downloadable new assets; the map learns all new assets if a file was created, else only those whose file could not be but is there |
| `SharedStreams.SyncState.Upload` | src/sharedstreams.rs:1039-1054 | exactly when it fails; the album grows by the GUIDs of the new files, also if the request fails after it has been done, and the map with it |
| `SharedStreams.SyncState.SyncFolder` | src/sharedstreams.rs:967-1059 | it succeeds exactly if nothing that the deltas ask for fails; whatever fails only what they say is deleted; a success comes to the stated end state |
| `SharedStreams.SyncState.DoSync` | src/sharedstreams.rs:940-942 | it succeeds exactly if nothing that map, album and folder call for fails; a remote asset is deleted only if its file was missing, a local file only if its asset left the album, even if the sync fails; the map stays injective |
| `SharedStreams.ManySyncs` | src/sharedstreams.rs:967-1059 | over any number of successful syncs, with album, folder and surroundings changing between them, the map stays injective and each sync converges exactly if it is unhindered |
| `SharedStreams.Converges` | src/sharedstreams.rs:944-1059 | after one successful sync the deltas are empty if and only if every new asset has a file to download, the server deletes what it is asked to and the file system too |
| `SharedStreams.UndownloadableIsDeleted` | src/sharedstreams.rs:1009-1037 | a new asset without a file to download that comes with one that has is taken as known, and is among the assets the next sync deletes |
| `FindMy.CountFourAms` | src/findmy.rs:619-640 | the result is the number of instants after `start` and up to `end` at which it is 04:00 UTC, for all instants |
| `FindMy.Seek` | src/findmy.rs:599-608 | from any ratchet on the chain of the original, forwards or by restarting, the result is the wanted link of the chain |
| `FindMy.Window` | src/findmy.rs:610-616 | the ratchet and the `count` links after it |
| `FindMy.BeaconAccessory.GetCurrentPrimary` | src/findmy.rs:727-745 | the keys are the consecutive links from `last + max(elapsed - 720, 0)` to `last + elapsed + 48`, at most 769 |
| `FindMy.BeaconAccessory.GetCurrentSecondary` | src/findmy.rs:747-759 | the keys are the consecutive links from a week back to the next one, at most nine, on the secondary chain when going forward; going back the restart takes the primary secret |
| `FindMy.SecondaryStaysOnChain` | src/findmy.rs:747-759 | over any calls at times that do not go back the secondary ratchet stays on its chain |
| `FindMy.SecondaryLeavesChain` | src/findmy.rs:754 | a clock set back leaves the secondary chain wherever the two chains differ |

## Left out

- TLS, sockets, HTTP, task plumbing, logging locks and state saving; plist, protobuf, DER and serde.
- Cryptography, which is an arbitrary function wherever it appears.
- `to_packed_raw` and `from_packed`, which are not inverses by design.
- FaceTime, passwords, relay, activation and the keystore: request assembly and calls into cryptography.
- ApsRoundTrip.DecodeOfEncode: strings are bytes that are UTF-8; the recursion depth of the decoder is a parameter that stands for its stack.
- TypedStreamRoundTrip.DecodeOfEncode: caches are assumed small enough that their indices fit 32 bits, as the source assumes; floats are bit patterns.
- ArchiveExpansion.ExpandUidFree: expansion is a function with a depth; that `expand_obj` rewrites its argument in place is not modelled.
- Archiver.Archive: dictionaries are maps, and the plist encoding of the table is not part of this model.
- ApsCacheOrder.CachedLockstepIff: a stored value is taken to be found at the place where it was before it was written again; it moves if it is a container with cached values of its own that have left the value table since, and what the decoder reads then depends on what is stored at the other place.
- MmcsMatcher.Matcher.TransferChunks: progress reports and receipts are not modelled; a source delivers its bytes without errors.
- MmcsChunking.PreparePut: the protocol version with content-defined boundaries, `prepare_put_v2`, is not modelled.
- ResourceManager.NoRefreshLost: the early return of `refresh_option` for a fresh resource or a permanent failure happens before the modelled steps, and a wait that times out is the event `Leave`.
- ResourceManager.BoundedWait: the capacity of 9999 of the broadcast channel is not modelled.
- CloudKitWatcher.NoNotificationLost: the generation counter is unbounded, not a 64-bit one, and messages for other topics or containers, which touch no state, are not modelled.
- CloudKitSync.DoSync: the server has a finite list of answers for each request; the single-zone `FetchZoneChangesOperation::do_sync` would only add an easier case.
- ApsTopics.DrainedTopics: a token dropped while the channel is full panics in the source and is no step here; the end of the loop with its connection is not modelled.
- ApsTopics.TopicManager.Receive: counts are unbounded.
- SharedStreams.SyncState.DoSync: file contents, and so what overwriting a file of the same name loses, are not modelled; nobody else changes album or folder during a sync, and a packager keeps the name of the file.
- SharedStreams.Converges: states its condition for an injective map, fresh distinct names of new assets and fresh GUIDs; the loop over dirty albums and the file watcher are not modelled.
- FindMy.CountFourAms: leap seconds and the ends of the calendar are not modelled.
- FindMy.BeaconAccessory.GetCurrentPrimary: the derivation of key pairs from the secrets is not modelled.

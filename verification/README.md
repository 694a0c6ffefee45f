# Consumer/Producer API for NDN: a verified model

This project models the parts of the Consumer/Producer API library whose code is far more complicated than what it
promises, and proves the promises with Dafny. `dafny verify dfyconfig.toml` checks all of it.

**Content store** (`Names`, `Lists`, `StoreSpec`, `SelectSpec`, `SkipLists`, `ContentStore`, `StoreRuns`,
`StoreExamples`).
`StoreSpec` says what a store means: packets in order of arrival, a capacity, and Interests answered by looking at
every packet. `SkipLists` and `ContentStore` are the layered skip list with its per-entry iterator maps, its cleanup
index and its entry pool, written as classes that change in place. A `std::list` is a sequence of cells with identity
and one sentinel, so that `--begin()` and `++end()` wrap around as they do in the code. Every method is tied to its
meaning in `StoreSpec`, and `StoreRuns` does the same for whole runs of requests, from construction on.

**Reliable Data Retrieval** (`LossDetector`, `RdrModel`, `RdrPlain`, `RdrProgress`, `RdrStalls`, `RdrFlow`,
`RdrSafety`, `RdrDetector`, `RdrParked`, `RdrManifest`, `RdrExamples`, `Rdr`, `Udr`, `Segmentation`,
`ManifestSegmentation`, `RdrChecks`, `RdrAnswers`). `RdrModel` gives the state of a retrieval and what each event does
to it; `RdrChecks` and `RdrAnswers` say in terms of fields what the checks test, and what each kind of event makes the
object ask for and does to its window; `Rdr` is the class with the handlers as loops and assignments, each proved to do
exactly what `RdrModel` says. The environment may lose, reorder, duplicate and corrupt packets, time out, and send
network nacks. `RdrPlain` and `RdrProgress` are about runs over plainly segmented content: safety, termination, no
stall; `RdrStalls` says exactly when an event stalls a run. `RdrFlow`, `RdrSafety`, `RdrDetector` and `RdrParked` are
about any content at all, with and without manifests, and `RdrManifest` is about what the producer publishes with
inlined manifests. `RdrExamples` holds two concrete runs. `Segmentation` and `ManifestSegmentation` are the producer's
two ways to cut a buffer. `Udr` is the second instance of the loss detector.

**InfoMax** (`RoundRobin`, `TreeNodes`, `InfomaxOrder`, `Infomax`, `InfomaxTree`, `InfomaxRuns`). The tree of
published suffixes grows in place (`InfomaxTree`), and is listed by a walk that counts visits on its nodes or by a
recursive merge (`Infomax`). `InfomaxOrder` gives the order of both on values and says exactly when they agree;
`InfomaxRuns` puts the three together for any sequence of published suffixes.

**Companions.** `ReceiveQueue` is the producer's two-thread receive queue as a machine of atomic steps. `Tlv`,
`Manifests`, `ManifestPairs` and `RepoCommands` are the codecs, `WireLayout` gives their output byte by byte, and
`CanonicalOrder` relates the order of names to it, with the numbers of the section "Type-Length-Value (TLV) Encoding"
of the NDN Packet Format Specification.

Where the code and its own documentation differ, the model follows the code:

- The header of the store says that packets are duplicates when their names match. In the code it is the *full* name,
  which ends with the digest of the packet, that must match: two packets of the same name and different content are
  both kept, and one with the same full name is refreshed in place (`ContentStore.Cs.Insert`).
- The header promises the leftmost entry of the rightmost child for rightmost selection. `SelectSpec.RightmostIsDocumentedIff`
  says exactly when the code returns something else: `FirstIsSkipped`, the first packet of the store satisfies the
  Interest, is the leftmost of its child, that child is the rightmost, and another packet of it satisfies the Interest
  too. `SelectSpec.RightmostSkipsTheFirst` is an example.
- `pickRandomLayer` can return 32 although the table of positions has 32 slots, numbered from 0.
  `ContentStore.PickRandomLayer` says exactly when it does not; inserting takes the layer as an input below 32.
- Some answers use up their Interest and ask for nothing new: packets of another content type, verified nacks other
  than "producer delay" and "data not available", segments that refer to a manifest that is not there, and verified
  manifests. `RdrStalls.FirstAnswerStallsIff` says for every packet whether it stalls a run as the first answer, and
  `RdrStalls.StepStallsIff`, over plainly segmented content, whether an event does in any state. When such an answer
  is absorbed while something else is outstanding, nothing asks for its segment any more, unless loss detection does,
  and the run can stall at a later answer that is genuine and accepted (`RdrExamples.GenuineAnswerStalls`).
- A verified manifest that answers the first Interest is the last thing that happens: the final block number stays at
  its maximum, which becomes a window of -1. Packet 0 of content published with inlined manifests is such a manifest,
  so this consumer never delivers such content (`RdrManifest.ManifestModeNeverDelivers`).
- The counting walk of InfoMax lists a null exactly when some registered suffix extends another one
  (`InfomaxOrder.WalkListsNullIff`). A suffix published after one that extends it is never registered
  (`InfomaxTree.RegisteredIff`), and so missing without a null. The walk lists every published suffix exactly once if
  and only if no published suffix extends another (`InfomaxRuns.PublishAndPrioritize`). On the tree of nothing
  published the walk lists nothing and the merge lists the root.
- A manifest's key-value map comes back exactly when every key is non-empty and without an equals sign and every
  value is non-empty (`Manifests.RoundTripIff`). A single pair also needs that no other key of the map is its own key
  followed by an equals sign (`ManifestPairs.PairComesBackIff`, with an example in `ManifestPairs.OverwrittenPair`).
- When the first segment was signed by a key, later segments may be parked for their manifests. A verified manifest
  that does not list its own number, as none of the producer's does, ends the run exactly when some parked segment is
  not listed in it, or when the parked segments complete the content (`RdrParked.ManifestStopsIff`, and
  `RdrParked.KnownFinalDeliversIff` for a known last number). `RdrExamples.StrangerEndsThisRun` is a run in which it
  ends without delivery. Without parked segments a manifest never triggers reassembly.

## Model

| member | source | states |
|---|---|---|
| StoreSpec.LinearFindIsLeast | src/cs.cpp:311-370 | the scan that `find` refines returns the satisfying packet with the least full name, and nothing exactly when no packet satisfies; what satisfies is said in lengths, key and exclusions (`Satisfies`) |
| StoreSpec.InsertSpecMeaning | src/cs.cpp:95-229 | inserting drops the oldest arrival when full, never exceeds the limit, keeps full names distinct, stores the packet, says "new" exactly when the name was absent or just dropped, and leaves a refreshed packet at its place in the order of arrival |
| StoreSpec.LimitSpecMeaning | src/cs.cpp:64-86 | a changed limit keeps the newest arrivals, one fewer than the limit, when there were as many as the limit or more |
| StoreSpec.DropOldestKeepsDistinct | src/cs.cpp:299-309 | eviction forgets exactly the oldest name |
| SelectSpec.RightmostIsDocumentedIff | src/cs.cpp:402-480 | rightmost selection returns the leftmost entry of the rightmost child if and only if the walk does not start on that entry with others behind it |
| SelectSpec.RightmostSkipsTheFirst | src/cs.cpp:402-480 | a concrete store for which it returns another entry |
| SelectSpec.AnswerInAnyListing | src/cs.cpp:311-370 | which packets answer does not depend on the order in which the store keeps them |
| SelectSpec.LeftmostAnswerIsLinear | src/cs.cpp:311-483 | with leftmost selection, and no component of digest size, the answer is that of the scan |
| SkipLists.Entry.SetData | src/cs-entry.cpp:39-50 | an entry takes over a packet, its digest and full name, and nothing else changes |
| SkipLists.Entry.SetDataWithDigest | src/cs-entry.cpp:52-62 | the same with the digest given |
| SkipLists.Entry.Release | src/cs-entry.cpp:29-37 | an entry returns to the pool without packet and without iterators |
| SkipLists.Entry.SetIterator | src/cs-entry.cpp:81-85 | the iterator map gains one layer |
| SkipLists.Entry.RemoveIterator | src/cs-entry.cpp:87-91 | the iterator map loses one layer |
| SkipLists.LayersAreNested | src/cs.cpp:182-207 | each layer is the sublist of the one below of the entries that reach it |
| SkipLists.LinkedInsert | src/cs.cpp:182-207 | linking a new entry at its rank in layers 0 to its height keeps the representation invariant: sorted layers, every cell in its entry's map, every iterator a cell, heights without gaps, no empty layer above 0 |
| SkipLists.LinkedErase | src/cs.cpp:254-297 | unlinking an entry, and dropping the layers it leaves empty, keeps it |
| ContentStore.PickRandomLayer | src/cs.cpp:231-243 | the layer is below 32 if and only if one of the first 32 draws stops the climb |
| ContentStore.Cs.constructor | src/cs.cpp:33-41 | a new store is consistent and empty |
| ContentStore.Cs.Size | src/cs.cpp:58-62 | the number of stored packets, never above the limit |
| ContentStore.Cs.SearchLayer | src/cs.cpp:118-155 | in one layer, the descent stops at the last entry before a name, from wherever the layer above left it |
| ContentStore.Cs.Descend | src/cs.cpp:110-155 | after the descent the table holds that position in every layer |
| ContentStore.Cs.FindSlot | src/cs.cpp:110-177 | the entry of the same full name is found if and only if there is one |
| ContentStore.Cs.LinkLayers | src/cs.cpp:182-207 | the new entry is linked into layers 0 to its height, the others stay as they are |
| ContentStore.Cs.InsertToSkipList | src/cs.cpp:95-210 | with room left: a new name adds an entry, a known one refreshes its entry; the pool, the index and the skip list stay consistent |
| ContentStore.Cs.Insert | src/cs.cpp:212-229 | packets and flag afterwards are those of the specification, whatever the layer |
| ContentStore.Cs.EraseFromSkipList | src/cs.cpp:254-297 | the entry is gone from every layer and back in the pool; the other entries stay |
| ContentStore.Cs.EvictItem | src/cs.cpp:299-309 | the oldest arrival goes, if there is one |
| ContentStore.Cs.SetLimit | src/cs.cpp:64-86 | packets afterwards are those of the specification, and the pool has as many entries as the new limit |
| ContentStore.Cs.FindInLayer | src/cs.cpp:322-364 | the search in one layer stops before the first entry at or after the Interest name |
| ContentStore.Cs.SelectLeftmost | src/cs.cpp:384-437 | the first satisfying entry from the starting point on |
| ContentStore.Cs.WalkRightmost | src/cs.cpp:402-480 | the walk keeps the first satisfying entry of the last child seen |
| ContentStore.Cs.Find | src/cs.cpp:311-555 | the layered search and selection give the answer of the scan for leftmost selection and an entry of the rightmost child for rightmost selection; and in fields: a returned packet has the asked number of components, the asked key and no excluded child (or the asked digest), without an answer every stored packet that extends the name fails one of these, and a packet asked for by its full name is the one returned |
| ContentStore.Cs.DoesComplyWithSelectors | src/cs.cpp:485-555 | the selectors, tested one after the other, decide exactly whether the packet is meant |
| SelectSpec.ChildOrder | src/cs.cpp:402-480 | children of the Interest name are compared by the component that follows it |
| StoreExamples.MinimumAndMaximum | src/cs.cpp:507-523 | on a store of one packet: too few, enough and too many components |
| StoreExamples.Prefixes | src/cs.cpp:390-396 | names above, beside and equal |
| StoreExamples.Keys | src/cs.cpp:525-534 | the right key and another one |
| StoreExamples.Exclusions | src/cs.cpp:536-555 | the child component excluded, and another one |
| Names.NameOrderMeaning | src/cs.cpp:118-155 | a name comes before another at their first different component, a prefix first |
| CanonicalOrder.ComponentOrderIsByteOrder | src/cs.cpp:118-155 | one component comes before another exactly when its encoding does, byte by byte |
| StoreRuns.PoolIsConserved | src/cs.cpp:64-86 | free and stored entries add up to the limit without overlap, and the cleanup index is a repetition-free permutation of layer 0 |
| ContentStore.Cs.ArrivalsAreDistinct | src/cs.cpp:166-177 | full names in a consistent store are distinct |
| StoreRuns.RunKeepsStore | src/cs.cpp:64-229 | over every run of insertions and limit changes: distinct names, size within the limit |
| StoreRuns.KeepsTheNewest | src/cs.cpp:212-229 | different packets inserted one after the other leave exactly the newest ones, as many as the limit |
| StoreRuns.Replay | src/cs.cpp:64-370 | the real store after any run answers like the scan of the specification's packets: neither layers nor history show |
| LossDetector.HighestOf | src/reliable-data-retrieval.cpp:883-886 | the greatest received segment number |
| LossDetector.CounterStaysLow | src/reliable-data-retrieval.cpp:880-909 | during a call no missing unmarked segment has more than three received ones above it, so the 8-bit counter never wraps |
| LossDetector.ArrivalSettles | src/reliable-data-retrieval.cpp:880-909 | after a call every missing unmarked segment has fewer than three received ones above it |
| LossDetector.RequestedOnce | src/reliable-data-retrieval.cpp:880-909 | over any sequence of arrivals no segment is fast-retransmitted twice |
| LossDetector.ExposedIff | src/reliable-data-retrieval.cpp:880-909 | a segment is taken for lost at an arrival if and only if it is missing, was not taken for lost before, and three received segments are above it |
| Udr.UnreliableDataRetrieval.CheckFastRetransmissionConditions | src/unreliable-data-retrieval.cpp:304-333 | marks and requests exactly the segments that the arrival exposes as lost |
| Udr.Watch | src/unreliable-data-retrieval.cpp:304-363 | over a whole lifetime the requests are those of the shared loss detector |
| RdrPlain.StepKeeps | src/reliable-data-retrieval.cpp:169-268 | every event keeps the invariant of plain mode, lowers the measure while the object runs, and delivers nothing once it has stopped |
| RdrPlain.RunIsGood | src/reliable-data-retrieval.cpp:51-116 | the invariant holds after every run, with a bound on the measure that falls with each event |
| RdrPlain.DeliversTheBufferOrNothing | src/reliable-data-retrieval.cpp:795-837 | the payload callback is called at most once, then with exactly the chunks of the producer in order |
| RdrPlain.RunIsBounded | src/reliable-data-retrieval.cpp:715-793 | an object that still runs has handled fewer than three events per segment and allowed request |
| RdrPlain.RequestsAreBounded | src/reliable-data-retrieval.cpp:359-471 | in plain mode no segment beyond the last one is requested at all, and the others within that bound |
| RdrFlow.FlowIsAccounted | src/reliable-data-retrieval.cpp:118-268 | over every run of every environment, in both modes: while running, the in-flight counter is the number of outstanding Interests and the window is at most MAX_WINDOW_SIZE (if that is at least 1), and only data made the object request a new segment, and then left no more Interests in flight than the window allows |
| RdrFlow.StepSound | src/reliable-data-retrieval.cpp:118-530 | every event of any environment keeps that, and keeps the log of requests in step with the retransmission counts |
| RdrFlow.RequestsAreBounded | src/reliable-data-retrieval.cpp:359-530 | over every run of every environment no segment is requested more than 1 + INTEREST_RETX times |
| RdrPlain.WindowStaysOpen | src/reliable-data-retrieval.cpp:213-268 | in plain mode the window is at least 1 once the first segment is in, as long as the object runs |
| RdrProgress.StepProgresses | src/reliable-data-retrieval.cpp:169-268 | after a cooperative event a running object has every requested segment accepted, outstanding or scheduled and waits for something; it stops only on delivery or for one of the reasons to give up |
| RdrProgress.RunProgresses | src/reliable-data-retrieval.cpp:532-614 | the same over whole runs |
| RdrProgress.EveryRunEnds | src/reliable-data-retrieval.cpp:715-793 | a run with nothing left to wait for has delivered the buffer or given up for a reason |
| RdrProgress.GenuineRunDelivers | src/reliable-data-retrieval.cpp:617-694 | when every Interest is answered by the genuine packet, in any order, the buffer is delivered |
| RdrStalls.FirstAnswerStallsIff | src/reliable-data-retrieval.cpp:169-268 | whatever packet answers the very first Interest: the object runs on with nothing to wait for if and only if the packet is a verified manifest, of unknown type, parked, a verified nack without delay or refusal, or accepted content that opens no window |
| RdrStalls.StepStallsIff | src/reliable-data-retrieval.cpp:169-793 | in every state that a plain-mode run reaches while it is on, an event leaves the object running with nothing to wait for if and only if it is an answer, nothing else was outstanding, scheduled or still to be requested, no lost segment it exposes may be requested again, and it is uncooperative, or accepted while another segment is missing |
| RdrExamples.GenuineAnswerStalls | src/reliable-data-retrieval.cpp:169-268 | a concrete run that a genuine accepted answer stalls |
| RdrSafety.StepKeepsSafe | src/reliable-data-retrieval.cpp:284-357 | in both modes every event keeps: all stored, parked, copied and delivered bytes come from packets that arrived, and what is copied is vouched for |
| RdrSafety.OnlyVerifiedBytes | src/reliable-data-retrieval.cpp:617-694 | over every run and every environment, each payload is the contents, in ascending order, of packets that arrived in that run and that the callback accepts, or whose number has their digest in its first entry of some manifest that arrived in that run and that the callback accepts; without a callback the check is the digest signature |
| RdrChecks.VerifiedByIff | src/reliable-data-retrieval.cpp:839-862 | the test against a manifest is whether the first entry of the packet's number has its digest |
| RdrChecks.IsSecureIff | src/reliable-data-retrieval.cpp:294-310 | the other check is the callback, or, without one, a digest signature that matches if there is one |
| RdrAnswers.RejectedIsExcluded | src/reliable-data-retrieval.cpp:410-471 | a packet turned down is excluded, with everything excluded before, from a new outstanding Interest for its segment, unless the run is over, which is so exactly when an allowance is used up |
| RdrAnswers.ForgedIsAskedAgain | src/reliable-data-retrieval.cpp:473-530 | content whose digest its manifest does not list is not accepted: with the listed digest the segment is asked for again, and without one the run is over |
| RdrAnswers.FirstStaysParked | src/reliable-data-retrieval.cpp:644-653 | content whose manifest is not there is parked, the first one for a number |
| RdrAnswers.LostIsAskedAgain | src/reliable-data-retrieval.cpp:880-953 | every segment an arrival exposes as lost has an outstanding Interest afterwards, within its allowance |
| RdrAnswers.TimeoutLowers | src/reliable-data-retrieval.cpp:709-793 | a timeout or network nack halves a window above the minimum and asks for the segment again as it was asked for, or ends the run when the allowance is used up |
| RdrAnswers.NackLowers | src/reliable-data-retrieval.cpp:532-614 | so does a verified nack halve the window; the delay code schedules the Interest, the refusal ends the run, others do neither |
| RdrAnswers.TimerAsksAgain | src/reliable-data-retrieval.cpp:359-408 | a scheduled retransmission asks again as before and leaves the window alone |
| RdrAnswers.LateTimeoutIsIgnored | src/reliable-data-retrieval.cpp:709-793 | timeouts past the last segment, and of Interests with a digest, only take the Interest away |
| RdrAnswers.OtherAnswersAreIgnored | src/reliable-data-retrieval.cpp:169-268 | packets of unknown type and nacks past the last segment leave what is received, scheduled and passed up as it is |
| RdrAnswers.GivingUpPassesUp | src/reliable-data-retrieval.cpp:789-837 | giving up at a timeout passes up the content put together, when a segment at the head had not been moved |
| RdrAnswers.AcceptedRaises | src/reliable-data-retrieval.cpp:617-694 | accepted content and manifests raise a window below the maximum by one |
| RdrAnswers.FirstAnswerOpens | src/reliable-data-retrieval.cpp:213-248 | the answer to the first Interest sets the window to the last number, or the maximum, and Interests are sent until it is full or all are asked for |
| RdrAnswers.FillAsks | src/reliable-data-retrieval.cpp:118-159 | a first-time Interest excludes what the options say |
| RdrParked.ReassembleStopsIff | src/reliable-data-retrieval.cpp:795-837 | reassembly stops a running object, and passes something up, if and only if every number from the head to the final one is in the receive buffer and the final one is content |
| RdrParked.ManifestStopsIff | src/reliable-data-retrieval.cpp:312-351 | a verified manifest that does not list its own number stops the run if and only if some parked segment is not listed in it, or the parked segments, taken in ascending order, complete what was received before; when all are listed, something is passed up exactly in the second case |
| RdrParked.KnownFinalDeliversIff | src/reliable-data-retrieval.cpp:329-351 | when the parked segments agree on the known last number, they complete the content exactly when every number from the head on is received or parked |
| RdrParked.RunIsKeyed | src/reliable-data-retrieval.cpp:617-694 | in every run packets are kept under their own numbers, and only content is parked |
| RdrExamples.StrangerEndsThisRun | src/reliable-data-retrieval.cpp:312-351 | a concrete run that parks a segment, meets another manifest, and ends without delivery |
| RdrDetector.RunIsLifetime | src/reliable-data-retrieval.cpp:880-953 | in every run the detector's sets and the segments handed to fast retransmission are those of the arrivals it was told of |
| RdrDetector.FastRetransmittedOnce | src/reliable-data-retrieval.cpp:880-953 | in every run, in both modes, no segment is fast-retransmitted twice |
| RdrManifest.ManifestEndsTheRun | src/reliable-data-retrieval.cpp:213-248 | as long as no content is accepted for the first Interest nothing is delivered, and a verified manifest among the answers is the last event |
| RdrManifest.NoManifestListsItself | src/producer-context.cpp:321-326 | the producer's manifests do not list their own numbers |
| RdrManifest.ManifestModeNeverDelivers | src/producer-context.cpp:260-335 | content published with inlined manifests is never delivered, whatever the network does |
| Rdr.ReliableDataRetrieval.Start | src/reliable-data-retrieval.cpp:50-116 | resets what the code resets, keeps what it keeps, and sends one Interest |
| Rdr.ReliableDataRetrieval.SendInterest | src/reliable-data-retrieval.cpp:118-159 | one first-time Interest for the next segment |
| Rdr.ReliableDataRetrieval.FillWindow | src/reliable-data-retrieval.cpp:226-262 | first-time Interests until the window is full or the last segment is requested |
| Rdr.ReliableDataRetrieval.RetransmitInterestWithExclude | src/reliable-data-retrieval.cpp:410-471 | a retransmission that excludes the rejected packet, or the end of the run |
| Rdr.ReliableDataRetrieval.RetransmitInterestWithDigest | src/reliable-data-retrieval.cpp:473-530 | a retransmission with the digest found for the number, or the end of the run |
| Rdr.ReliableDataRetrieval.RetransmitFreshInterest | src/reliable-data-retrieval.cpp:359-408 | a retransmission without change, or the end of the run |
| Rdr.ReliableDataRetrieval.VerifySegmentWithManifest | src/reliable-data-retrieval.cpp:839-862 | whether the first entry for the segment's number has its digest |
| Rdr.ReliableDataRetrieval.CheckFastRetransmissionConditions | src/reliable-data-retrieval.cpp:880-953 | the nested loops mark and request exactly the segments the specification calls lost, in ascending order |
| Rdr.ReliableDataRetrieval.CopyContent | src/reliable-data-retrieval.cpp:795-821 | appends; on the last segment clears what is outstanding, delivers and stops |
| Rdr.ReliableDataRetrieval.Reassemble | src/reliable-data-retrieval.cpp:823-837 | moves the received segments from the head on, skipping manifests |
| Rdr.ReliableDataRetrieval.OnContentData | src/reliable-data-retrieval.cpp:617-694 | accepts, parks or rejects a segment, by its key locator and the verification callback |
| Rdr.ReliableDataRetrieval.OnManifestData | src/reliable-data-retrieval.cpp:284-357 | stores a verified manifest and settles the parked segments in ascending order until the run stops |
| Rdr.ReliableDataRetrieval.OnNackData | src/reliable-data-retrieval.cpp:532-614 | shrinks the window and schedules a retransmission, stops, or does neither, by the nack code |
| Rdr.ReliableDataRetrieval.OnData | src/reliable-data-retrieval.cpp:169-268 | the whole handler of a data packet |
| Rdr.ReliableDataRetrieval.OnTimeout | src/reliable-data-retrieval.cpp:709-793 | the whole handler of a timeout or network nack |
| Rdr.Retrieve | src/reliable-data-retrieval.cpp:50-268 | a fresh object driven by any run of events ends in the state of the specification |
| Segmentation.ChunksMakeUpBuffer | src/producer-context.cpp:246-254 | the pieces make up the buffer and fit the free space; only the last may be shorter |
| Segmentation.NumberOfChunks | src/producer-context.cpp:246-254 | the computed number of segments is the number of pieces |
| Segmentation.CutNext | src/producer-context.cpp:352-360 | the next piece is the free space, or all that is left for the last one |
| Segmentation.SegmentPlainly | src/producer-context.cpp:336-365 | segments 0 to n - 1 carry the pieces in order, each with final block number n - 1; an empty buffer is not published |
| Segmentation.CarriedIsGenuine | src/producer-context.cpp:336-365 | the packets that the retrieval theorems call genuine are those that carry a published segment |
| Segmentation.EndToEnd | src/producer-context.cpp:336-365 | from the producer's buffer to the consumer's callback: at most one call, with exactly that buffer |
| ManifestSegmentation.EstimateManifestSize | src/producer-context.cpp:173-185 | name, catalogue entries and key locator added up |
| ManifestSegmentation.PackageSegment | src/producer-context.cpp:288-327 | one data packet goes out and into the open manifest's catalogue, and the manifest is full exactly when it has no room for two more full names |
| ManifestSegmentation.SegmentWithManifests | src/producer-context.cpp:228-335 | the loop cuts the buffer and publishes its pieces in groups of data packets, each followed by its manifest, ends a group exactly where the manifest runs out of room, and the data contents make up the buffer |
| ManifestSegmentation.ManifestFits | src/producer-context.cpp:314-319 | the estimate of a manifest that lists at least two packets stays within the packet size |
| ManifestSegmentation.ClosedWhenFull | src/producer-context.cpp:314-319 | a published manifest, unless it is the last one, was closed because the estimate without its last entry, with two more full names of that entry's number, exceeds the packet; for no earlier entry it does: groups are cut neither early nor late |
| ManifestSegmentation.NumbersAreExact | src/producer-context.cpp:260-335 | the packet numbers are exactly 0 to n + G - 1, each used once |
| ManifestSegmentation.ContentsMakeUpBuffer | src/producer-context.cpp:297-306 | the data contents of any number of groups are their pieces in order |
| ManifestSegmentation.ListedByItsManifest | src/producer-context.cpp:283-327 | every data packet is listed, with its digest, by the published manifest its key locator names |
| ManifestSegmentation.ListedByNoOther | src/producer-context.cpp:260-335 | by no other one, and that manifest is the nearest one numbered below it |
| ManifestSegmentation.FinalBlockIds | src/producer-context.cpp:277-308 | final block numbers never exceed the true last number, and are exact in the last group and only there |
| RoundRobin.MergedIsPermutation | src/infomax-prioritizer.cpp:138-161 | merging loses nothing and repeats nothing |
| RoundRobin.MergedIsGreedy | src/infomax-prioritizer.cpp:68-101 | serving the first of those served least takes the same turns as the rounds of the merge |
| RoundRobin.CountsAreFair | src/infomax-prioritizer.cpp:83-96 | nobody is two turns ahead of anybody who could still be served |
| InfomaxOrder.OrderListsData | src/infomax-prioritizer.cpp:109-135 | on a complete prefix-free tree the merge lists every data node exactly once |
| InfomaxOrder.NthIsOrder | src/infomax-prioritizer.cpp:68-161 | call number n of the counting walk answers entry number n of the merge, at every node |
| InfomaxOrder.WalkIsMergeIff | src/infomax-prioritizer.cpp:53-161 | the two prioritizers list the same nodes in the same order if and only if no data node has nodes below |
| InfomaxOrder.WalkNeverRepeats | src/infomax-prioritizer.cpp:53-101 | the walk lists no node twice, on any tree |
| InfomaxOrder.WalkListsEachOnceIff | src/infomax-prioritizer.cpp:53-101 | the walk lists every data node exactly once if and only if no data node has nodes below |
| InfomaxOrder.WalkListsNullIff | src/infomax-prioritizer.cpp:53-101 | the walk lists a null if and only if some data node has nodes below |
| InfomaxOrder.SiblingsAreServedEvenly | src/infomax-prioritizer.cpp:53-101 | in every prefix of the walk, at every depth, the counts taken from two siblings differ by at most one unless the one behind is exhausted |
| Infomax.ResetNodeStatus | src/infomax-prioritizer.cpp:178-190 | every count is zero and every mark gone |
| Infomax.LeastServed | src/infomax-prioritizer.cpp:83-96 | the loop picks the first child with the least count among those below their size or never asked |
| Infomax.GetNextPriorityNode | src/infomax-prioritizer.cpp:68-101 | on any tree, call number n answers as specified and leaves counts and marks of n + 1 calls on the path |
| Infomax.SimplePrioritizer | src/infomax-prioritizer.cpp:53-66 | the list is the first answers, one per data node below the root |
| Infomax.Merge | src/infomax-prioritizer.cpp:138-161 | popping from the lists until all are empty gives their rounds |
| Infomax.MergeSort | src/infomax-prioritizer.cpp:109-135 | the recursive merge of the tree in memory is the specified order |
| Infomax.Prioritizer.Prioritize | src/infomax-prioritizer.cpp:32-51 | the list of the chosen kind, under the next version number |
| TreeNodes.TreeNode.SetTreeSize | src/infomax-tree-node.cpp:178-190 | growth reaches exactly the ancestors; sizes never shrink |
| TreeNodes.TreeNode.AddChild | src/infomax-tree-node.cpp:161-176 | the child is appended, and counts in every size above when it carries data |
| InfomaxTree.TreeHoldsPrefixes | src/producer-context.cpp:381-413 | the tree holds exactly the prefixes of what was published |
| InfomaxTree.RegisteredIff | src/producer-context.cpp:381-413 | a suffix is registered as data if and only if it is neither empty nor tagged and, at some time it was published, no untagged suffix at or below it had been published before |
| InfomaxTree.AllAreRegisteredIff | src/producer-context.cpp:381-413 | no published suffix extends another if and only if all of them are registered and no registered one extends another |
| InfomaxTree.Graft | src/producer-context.cpp:400-409 | a new node keeps the tree: parents and children agree, siblings differ, exactly the registered suffixes carry data, every size counts the data nodes strictly below |
| InfomaxTree.WalkPath | src/producer-context.cpp:381-413 | the path of a suffix exists afterwards, and the suffix is registered unless its node existed before |
| InfomaxTree.Producer.Publish | src/producer-context.cpp:374-413 | a suffix with the component "InfoMax" in any place, or with InfoMax disabled, changes no node, registration or mark; otherwise the suffix has a node afterwards, and is registered if it had none |
| InfomaxTree.TaggedIff | src/producer-context.cpp:374-379 | the test on suffixes is whether one component, in any place, reads "InfoMax" |
| InfomaxTree.PublishedIff | src/producer-context.cpp:374-413 | what the lists have to hold are the published suffixes that are not empty and have no such component |
| InfomaxTree.ListsAreNotRegistered | src/producer-context.cpp:374-379 | publishing such a suffix leaves what is registered as it was |
| InfomaxRuns.ReadTree | src/producer-context.cpp:381-413 | the tree in memory is complete, has no node twice, and has data nodes exactly for the registered suffixes |
| InfomaxRuns.ListsPublishedIff | src/infomax-prioritizer.cpp:53-101 | a walk with as many entries as registered suffixes lists every published suffix exactly once if and only if none of them extends another |
| InfomaxRuns.PublishAndPrioritize | src/infomax-prioritizer.cpp:32-161 | after any publications the lists of both prioritizers agree if and only if no registered suffix extends another, then hold every registered suffix once, and otherwise the walk lists a null; and the walk lists every published suffix exactly once if and only if no published suffix extends another |
| ReceiveQueue.RunKeeps | src/producer-context.cpp:495-556 | every atomic step of either thread keeps the invariant of mutex, counter, capacity and order |
| ReceiveQueue.QueueIsSafe | src/producer-context.cpp:495-556 | over every run: the counter equals the queue when the mutex is free, the queue never exceeds the largest capacity so far, nothing is taken from an empty queue, and Interests come out as they went in |
| ReceiveQueue.BothTurnsAdvance | src/producer-context.cpp:495-556 | the threads never block each other for good: when both have had a turn, at least one has got ahead |
| ReceiveQueue.RunsComeToRest | src/producer-context.cpp:495-556 | from every reachable state, without arrivals and under any fair schedule, both threads come to rest with everything accepted also processed, in order |
| ReceiveQueue.ArrivalIsProcessed | src/producer-context.cpp:495-556 | from every reachable state: an Interest that arrives while the listening thread is free and fewer are counted than the capacity is, is the last one processed after any long enough fair schedule |
| ReceiveQueue.DroppedIff | src/producer-context.cpp:495-508 | with anything happening between the two reads, an arriving Interest is dropped if and only if the counter read is at or above the capacity read, and is otherwise processed after all others |
| ReceiveQueue.NewCapacityCounts | src/producer-context.cpp:1053-1060 | a capacity of at least 1 set as an option decides about the next Interest, a smaller one is ignored; the overload for sizes looks at the old capacity instead |
| ReceiveQueue.FirstInterest | src/producer-context.cpp:495-556 | the first Interest of an empty queue of capacity 1000, and of capacity 0 |
| Tlv.ReadsVarNumber | src/manifest.cpp:119-141 | type and length numbers are read back, with their size |
| Tlv.ReadsNonNegativeInteger | src/repo-command-parameter.hpp:284-319 | values of 1, 2, 4 or 8 bytes are read back |
| Tlv.ParsesEncodings | src/manifest.cpp:159-190 | whatever blocks are written are read back, in order |
| Tlv.ReadsName | src/manifest.cpp:126-130 | names are read back |
| Tlv.BigEndianAt | src/repo-command-parameter.hpp:284-319 | byte j of k is the digit of weight 256 to the power of k - 1 - j |
| Tlv.VarNumberBytes | src/manifest.cpp:119-141 | types and lengths take 1, 3, 5 or 9 bytes, marked 253, 254 or 255, most significant byte first |
| Tlv.NonNegativeIntegerBytes | src/repo-command-parameter.hpp:284-319 | integers take the least of 1, 2, 4 and 8 bytes, most significant byte first |
| WireLayout.ManifestLayout | src/manifest.cpp:108-141 | the content of a manifest: type 128 with the names under type 7, then the pairs under type 129, key, equals sign, value |
| WireLayout.CommandLayout | src/repo-command-parameter.hpp:277-337 | a command: type 201 with the fields that are set, under types 7, 9, 12, 212, 211, 204, 205 and 206 in this order |
| WireLayout.EncodedCommand | src/repo-command-parameter.hpp:277-353 | the bytes that an object writes for one command with integers of all sizes and a negative duration |
| WireLayout.EncodedManifest | src/manifest.cpp:108-156 | the bytes that an object writes for one manifest |
| WireLayout.LongCatalogue | src/manifest.cpp:133-136 | the head of a catalogue of 300 bytes |
| Manifests.DecodesContent | src/manifest.cpp:158-191 | decoding what was encoded adds the catalogue in order, and the pairs as far as they survive, to what is there |
| Manifests.RoundTripIff | src/manifest.cpp:108-192 | the catalogue comes back in order, and the map comes back if and only if every key is non-empty without an equals sign and every value non-empty |
| Manifests.ListingIsUnique | src/manifest.cpp:119-124 | the order of keys fixes the encoding |
| ManifestPairs.PairComesBackIff | src/manifest.cpp:108-192 | a pair comes back if and only if it survives and no other key of the map extends its key by an equals sign, or the last one that does happens to yield the value |
| ManifestPairs.OverwrittenPair | src/manifest.cpp:177-189 | a pair that survives by itself and comes back changed |
| Manifests.Manifest.WireEncode | src/manifest.cpp:108-141 | writing back to front gives the content, and the returned length is the number of bytes |
| Manifests.Manifest.Encode | src/manifest.cpp:145-156 | the estimated size is the size of the content |
| Manifests.Manifest.Decode | src/manifest.cpp:158-191 | adds what the content holds until the first element that does not parse |
| Manifests.Transfer | src/manifest.cpp:108-192 | filled, encoded and decoded by the receiver: the statement of `RoundTripIff` for the objects |
| RepoCommands.CommandRoundTrip | src/repo-command-parameter.hpp:277-429 | every combination of the seven optional fields and selectors comes back, negative durations included |
| RepoCommands.RepoCommandParameter.WireEncodeTo | src/repo-command-parameter.hpp:277-337 | writing field by field gives the block, and the returned length is the number of bytes |
| RepoCommands.RepoCommandParameter.WireEncode | src/repo-command-parameter.hpp:339-353 | what is returned reads back as the current fields, whether remembered or new, unless it is remembered from a block whose decoding failed; the buffer is exactly as large as estimated |
| RepoCommands.RepoCommandParameter.WireDecode | src/repo-command-parameter.hpp:355-429 | takes over the fields of the block, or fails exactly when an element is malformed or the type is another one |
| RepoCommands.Transfer | src/repo-command-parameter.hpp:277-429 | set on one object, encoded, and decoded into another: the same fields |

## Left out

- ContentStore.Cs.Insert: requires a limit of at least 1 and a layer below 32; with a limit of 0 the code takes an entry from an empty pool, and with layer 32 it writes past the table.
- ContentStore.Cs.InsertToSkipList: requires a layer below 32 too; `ContentStore.PickRandomLayer` says exactly when the code's draw is.
- ContentStore.Cs.Find: for Interests whose last component has the size of a digest, says what a result meets, and that leftmost selection finds a packet asked for by its full name, but not when else there is no result; the code's comment calls its digest recognition incorrect.
- `Cs::erase` (nothing calls it and it would lock its mutex twice), staleness times, `MustBeFresh`, printing, and the locks of the store.
- Exclude filters of Interests to the store are an arbitrary predicate on components; signature checks, digests and encoded sizes are inputs.
- Names are compared by their components; component URIs, and thereby the round trip through them in `produce`, are not part of this model.
- SkipLists.Entry.SetData: the digest of a packet is part of the packet here; computing SHA-256 is not modelled.
- Rdr.ReliableDataRetrieval.Start: only fresh objects are started in runs, since the code keeps its received and fast-retransmitted segments on a second start; round-trip times, lifetimes, window options written back to the context, pacing, and the asynchronous clean-up of cancelled Interests are left out; callbacks are set and do not stop the object or change options.
- Rdr.ReliableDataRetrieval.OnData: packets are given by their parsed fields; an answer to an Interest with an implicit digest makes the handler fail on its last component, which is modelled as an early return.
- Rdr.ReliableDataRetrieval.CheckAllParked: erasing the current element of the map while iterating over it is taken to go on at the next key.
- Rdr.ReliableDataRetrieval.RetransmitInterestWithExclude: compares the number of excluded digests with the option as integers; the code compares a `size_t` with an `int`, so a negative MAX_EXCLUDED_DIGESTS never stops a run there.
- RdrPlain.DeliversTheBufferOrNothing: is about plain segmentation with at most 2^31 segments and a largest window of at least 1; packets that are not the producer's are rejected by the verification callback. With manifests `RdrFlow`, `RdrSafety`, `RdrDetector`, `RdrParked` and `RdrManifest` apply.
- RdrProgress.RunProgresses: assumes that application nacks carry "producer delay" or "data not available" and that segments do not refer to manifests; `RdrStalls.StepStallsIff` says for any run when it stalls.
- ManifestSegmentation.SegmentWithManifests: the sizes of names and entries and the implicit digests are functions given with the input; free space for content is positive.
- ManifestSegmentation.ManifestFits: assumes that the last two entries are no larger than the full name the estimate used; a manifest with one entry has no bound in the code either.
- The repo range written in manifest mode, `produce` of single packets, and writing to repositories.
- Udr.UnreliableDataRetrieval.CheckFastRetransmissionConditions: is all that is modelled of unreliable retrieval, which gives no delivery guarantee.
- Infomax.SimplePrioritizer: publishing the lists (`produceInfoMaxList`) is left out; so is the truncation of the tree size to 32 bits.
- Infomax.Prioritizer.Prioritize: works on the tree itself, where the code works on a copy of the root that shares the children.
- Infomax.GetNextPriorityNode: takes a node; the null the code tolerates as argument only comes up when no child is left, which is decided one call earlier here.
- `TreeNode::removeChild`, `InfoMaxDataRetrieval`, and simple data retrieval.
- ReceiveQueue.QueueIsSafe: the capacity may drop to 0 through the option's overload for sizes, which looks at the old capacity; one listening and one processing thread, as `attach` starts them; what the processing thread does with an Interest after unlocking is left out.
- Manifests.RoundTripIff: assumes that types fit 32 bits and lengths 64 bits; `getValueByKey`, `eraseValueByKey` and the forms of `addNameToCatalogue` that append a digest are left out.
- RepoCommands.CommandRoundTrip: selectors are carried as the bytes of their elements; the codec of selectors is not part of this model.
- RepoCommands.Transfer: carries selectors as bytes for the same reason.
- RepoCommands.RepoCommandParameter.WireDecode: says nothing about the fields after a failed decoding, except that the block is remembered; and it accepts any bytes as the value of selectors, where the code throws on malformed ones, since their codec is not part of this model.
- `RttEstimator`, `ApplicationNack` and `SelectorHelper`: bounds and codecs of the same kind as those above.
- Option setters and getters, faces, schedulers, sockets, signing, and all threads other than the two of the receive queue.

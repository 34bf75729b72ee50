# Intent Fabric, modelled and proved in Dafny

Intent Fabric keeps the desired state of a network as numbered generations of one document. This project
models the parts of it that are hardest to get right and proves, for every input and every run, what they
promise. `dafny verify dfyconfig.toml` checks all of it.

* **Reference cycles** (`Identities`, `Documents`, `References`, `Reachability`, `Tarjan`, `ReferenceCycles`): the
  iterative search for strongly connected components, with the same frames, low links, flags and stack as the
  program, is proved to find exactly the components of every graph; a document's report puts two identities
  together exactly when one ring of references, as they are declared, passes through both, and does not depend on
  the order of declarations.
* **Durable store** (`Disk`, `Store`, `StoreRuns`, `StoreEffects`, `Verification`, `Recovery`, `Integrity`,
  `Retention`, `FirstCommit`, `RecordFormat`, `Payloads`): the disk is a map changed by small steps, and a commit, an opening or a pruning
  may lose power after any of them. An invariant of all such runs gives, with exact conditions, recovery of the
  last generation whose head rename took effect, survival of everything acknowledged, a chain of records that
  verifies and a bound on retained generations, and the rejection of old tokens. What each operation leaves on any
  disk is stated from the call and the disk alone, down to the content that each generation keeps.
* **Proposal runtime** (`Runtime`, `RuntimeDecisions`, `RuntimeRuns`, `Subscriptions`): calls of any number of
  clients in any order under one mutex; when each call succeeds is an if-and-only-if over the reachable states, no
  update is lost, decisions are final, eviction is safe and every publication is accounted for.
* **JSON and UTF-8** (`Utf8`, `JsonValues`, `JsonGrammar`, `JsonParsing`, `JsonComplete`, `JsonSound`,
  `JsonDocuments`, `JsonMembers`, `JsonPrinter`, `JsonReader`, `JsonTexts`): the grammar of RFC 8259 as syntax trees with a
  meaning; the strict parser accepts exactly its texts within the limits, printing and parsing are inverse
  on exactly the values that fit, and the limits and escapes are spelled out on whole families of texts.
* **Semantic diff** (`Differences`, `DiffWalk`, `DiffExact`, `Patch`, `PatchApply`, `PatchExact`): the entries are
  exactly the places where looking into both values ends in a difference, one each; in any order they are a complete patch and, mirrored, its reverse, on canonical values and exactly where nothing escapes them;
  there are none exactly when the values agree.
* **Digests** (`Sha256`, `Sha256Example`, `Crc32`): the streaming hasher against FIPS 180-4 on the whole message,
  its constants and the published digest of "abc", and the table-driven checksum against bit-at-a-time division.
* **Normal form, upgrades, topology** (`Canonical`, `NormalForms`, `JsonEditing`, `JsonObjects`, `Migration`,
  `LegacyTrees`, `Speeds`, `Upgrades`, `Connectivity`, `Scopes`, `Overcommit`): normalization identifies exactly the documents
  it should, older schema spellings are read back as they were meant and exactly the trees of the four versions
  with the content they need are accepted, components are those of the graph of
  enabled links, and reservations are compared with the true capacity of a scope.

`Ordering` holds total orders, sorting and removal of repetitions, which many parts share.

## Where the code and its documentation part

The model follows the code; these are proved rather than repaired.

* The repository's README.md:208-220 promises recovery of the committed generation. Committing bounds only the
  number of objects of a document (src/canonical.cpp:301), while reading a record bounds the bytes of its payload,
  its strings, collections, values and depth, and demands valid UTF-8. So a commit can be acknowledged and its
  record never read again. `Recovery.RunRecoversIff` and `Recovery.AcknowledgedSurvives` say that the promise is kept
  exactly when the records committed are within those limits, `Recovery.UnreadableIsLost` and
  `FirstCommit.LongStringIsLost`, with one string of 4097 bytes, show the loss, and `Payloads.FileReadsIff` ties the
  limits to the bytes of the file.
* An interrupted first commit leaves its record file behind, because opening a store without a head pointer
  removes nothing, and the look-up of a generation's file takes the first name that matches.
  `FirstCommit.FirstCommitDecides` gives the exact condition for the promise from the first commit on, and
  `FirstCommit.GuaranteeCanFail` a run from a new store in which it fails.
* The repository's README.md:364-365 says the store refuses new generations at its retention bound. Pruning with nothing to
  remove sets the retained count to zero. `Retention.BoundIff` says that the bound is kept from then on exactly
  when no prune since the last opening found nothing, and `Retention.EmptyPruneBreaksBound` gives a run that
  commits past it.
* The tie-break of normalization leaves out fields of policies, tenants, workloads, service classes and
  catalog entries (src/canonical.cpp:133-176). The order of declarations never shows in the normal form exactly when
  any two with one key and one tie-break text are the same: `NormalForms.OrderIndependentIff`,
  `NormalForms.DocumentIff`, with `NormalForms.OrderShowsThrough` as an example where it shows. With distinct
  identities it never does: `NormalForms.DistinctIdentitiesSuffice`.
* The diff of identified arrays does not see their order or repetitions: `PatchApply.OrderGoesUnseen`,
  `PatchApply.RepetitionGoesUnseen`. `Patch.NoEntriesIffSame` says exactly what it does not see, and
  `PatchExact.EntriesRebuildIff` for which values the entries still rebuild the later one.
* Links that share an identity may be left twice when the links of a scope are sorted by identity and equal
  neighbours removed: `Scopes.SharedCanRepeat`. Then the observed capacity can only be too large, so that no
  conflict is raised without cause: `Overcommit.ObserveCapacity`, `Overcommit.DetectOvercommit`.
* The step from schema 1.0 lets the legacy spelling win when both are present, where the step from 1.2
  refuses: `LegacyTrees.BothSpellings`, `LegacyTrees.BothNames`.
* The connectivity check counts a device that only a port of an enabled link names as a node of its own,
  declared or not: `Connectivity.CheckConnectivity` is stated for these nodes.

## Assumptions

* Digests of documents, heads, payloads and lineages are injective; incarnations and record names drawn are
  fresh. In `RecordFormat` checksum and digest are arbitrary functions instead.
* A rename is atomic; a write that is cut leaves a file that no check accepts, which for record files is
  `RecordFormat.CutShortIsRejected`; a step that fails is a loss of power. Orphans are pruned on opening and
  pruning keeps the head.
* Canonicalizing a canonical document changes nothing, which is `Canonical.NormalizeTwice`, and, for the
  theorems about decisions that stand, a proposal identity is not drawn a second time.
* A char of a text stands for one byte. A double stands as a literal that denotes it: its conversion to and
  from binary is the library's, and two literals of one double are two values here.
* The number of bytes of a record around its document and the outcome of reading a document field by field are
  parts of the commit: `Payloads` says what the first is and where both enter.

## Model

| member | source | states |
|---|---|---|
| Tarjan.StronglyConnectedComponents | src/index.cpp:581-640 | The loop with explicit frames, low links, flags and component stack ends on every graph, and its components are exactly the strongly connected components: each is a maximal set of mutually reachable nodes, and every node is in exactly one |
| Tarjan.AdvanceFrame | src/index.cpp:605-619 | While the top frame has an edge left, moving its cursor on and entering the target or taking its number keeps the whole search invariant and makes progress |
| Tarjan.LeaveFrame | src/index.cpp:621-638 | Leaving a frame keeps the whole search invariant, whether it closes a component or hands its low link to the frame below |
| Tarjan.PopComponent | src/index.cpp:624-634 | Popping down to the root of a component takes exactly the stacked nodes from it on, in the order popped, and clears exactly their flags |
| Tarjan.EnterKeepsInv | src/index.cpp:598-615 | Entering a node keeps the invariant that ties numbers, low links, frames and stack to reachability |
| Tarjan.RelaxKeepsInv | src/index.cpp:616-618 | Looking at an edge keeps the invariant, with or without a lower link found |
| Tarjan.RetreatKeepsInv | src/index.cpp:636-638 | Handing the low link to the frame below keeps the invariant when the node left is no root of a component |
| Tarjan.CloseKeepsInv | src/index.cpp:623-638 | Closing a component keeps the invariant: the nodes closed reach nothing that is still open |
| Tarjan.FinishedComponents | src/index.cpp:594-640 | When every node is numbered and no frame is left, the components found are the strongly connected ones |
| ReferenceCycles.BuildGraph | src/index.cpp:490-577 | The graph built by interning has a step from one identity to another exactly when a declaration refers from the one to the other; so each containment field that is not empty gives its step, and every placement does |
| ReferenceCycles.Graph.Intern | src/index.cpp:469-479 | An identity gets one position, for good, and no other identity shares it |
| ReferenceCycles.Graph.AddEdge | src/index.cpp:482-486 | Exactly the one edge is added to the set of named edges |
| ReferenceCycles.Graph.SortSuccessors | src/index.cpp:574-577 | Sorting and removing repeated successors leaves the set of named edges as it was |
| ReferenceCycles.DetectReferenceCycles | src/index.cpp:490-677 | What is reported is sorted, without empty or overlapping cycles, and two identities, or one with itself, are reported together exactly when one ring of declared references passes through both; so all members of a ring of routing policies that extend each other stand in one cycle, and so do those of a ring through extensions, exclusive scopes, subjects and tenants |
| ReferenceCycles.TogetherIff | src/index.cpp:579-677 | In every report by components, two identities stand in one cycle exactly when one ring of references, as the declarations write them, passes through both |
| References.ReferencesAreEdges | src/index.cpp:494-572 | The edges collected are exactly the references written in the declarations: containment fields, endpoints, placements, extensions, scopes, subjects and tenants |
| ReferenceCycles.ReportUnique | src/index.cpp:642-677 | A set of references has only one such report |
| ReferenceCycles.ReportIgnoresOrder | src/index.cpp:490-677 | Two documents that declare the same things in different orders get the same report |
| ReferenceCycles.ContainmentDescends | src/index.cpp:494-572 | Every reference that does not start at a policy or an intent leads to a class of strictly lower rank |
| ReferenceCycles.CyclesAreFree | src/index.cpp:642-677 | So every member of every reported cycle is a policy or an intent |
| Identities.StrInjective | include/ifabric/types.hpp:98-104 | The text form determines an identity, so a table keyed by texts is keyed by identities |
| Identities.ParseInvertsStr | src/types.cpp:74-90 | Parsing accepts exactly the texts of valid identities and gives back the identity each came from |
| Identities.StrLeIff | include/ifabric/types.hpp:106-176 | Texts are in order when one begins the other or has the lower char at the first difference |
| Disk.FileSystem.WriteFileAtomic | src/io.cpp:158-187 | Run with any amount of power left, the durable steps taken are a prefix of: temporary file, backup when one is kept and the target exists, rename |
| Disk.ApplyAppend | src/io.cpp:158-187 | Taking one list of steps after another is taking both together |
| Disk.FileSystem.RemoveRecords | src/store.cpp:936-953 | Files are removed one at a time in the order of the listing, so a cut leaves a prefix removed |
| Store.IntentStore.Commit | src/store.cpp:1183-1333 | A commit is refused without a durable step exactly when a check fails; otherwise it takes a prefix of the steps record, journal, backup, head, and changes memory only when all were taken |
| StoreEffects.CommitStores | src/store.cpp:1183-1333 | A commit succeeds exactly when writer, head, epoch and incarnation of the fence, the domain, the next generation, the maximum, the retention bound and the document fit and power lasts for all steps; then the head returned, the head file and the record file under its name hold the document, writer and time requested with the epoch and incarnation of the store, continue the previous head by number, content, head digest and lineage, leave every other record as it was, keep the previous head as backup and add the generation to the journal; a wrong generation, epoch or incarnation gets its own error |
| StoreEffects.HistoryIsRequested | src/store.cpp:1226-1247 | In every run, wherever power is lost, each generation of the history and its record file, while retained, hold the document, writer and time of the request that committed it, with the epoch and incarnation of the store that accepted it |
| StoreEffects.AcknowledgedContent | src/store.cpp:1226-1333 | In every later run that commits readable records, an acknowledged readable generation stands at its place with what was requested, and so does its record file while it is retained |
| Store.IntentStore.PruneBefore | src/store.cpp:1335-1358 | Record files below a generation are removed one by one, and the retained count becomes what the code computes |
| StoreEffects.PruneLeaves | src/store.cpp:1335-1355 | Pruning removes exactly the record files of lower generations when power lasts, and never another file when it does not; it completes exactly when there is power for each of them |
| Store.IntentStore.VerifyAll | src/store.cpp:1048-1114 | The count of problems is zero exactly when the walk over the sorted records finds all readable and linked and the head present |
| Verification.VerifyFinds | src/store.cpp:1048-1113 | On any disk and memory a problem is reported when a record file is no readable record, when two records of consecutive generations, each alone in its generation, do not fit because the parent reference is missing or has another number or content, and when the first readable record of the head's generation is absent or has another digest; where no generation is claimed twice nothing else is a problem |
| Verification.Neighbours | src/store.cpp:1070-1079 | Records alone in consecutive generations stand side by side in the sorted walk, whatever else is in the directory |
| Store.ChooseHead | src/store.cpp:858-908 | The head chosen on opening is the verified pointer of the higher generation, the primary on a tie, none at all when neither file is there, and a refusal when one is there and none verifies |
| Store.Open | src/store.cpp:796-955 | Opening takes a prefix of: restoring the pointer from the backup when that was chosen, removing record files beyond the head; and the memory it builds has the next epoch and the fresh incarnation |
| StoreEffects.OpenLeaves | src/store.cpp:796-955 | On any disk: opening refuses exactly when a head file is there and neither is acceptable, starts anew exactly when none is there, and otherwise goes back to the acceptable head of the higher generation, the primary on a tie: the head file names it, exactly the records up to it are left as they were, and the store has its lineage, the next epoch, the incarnation drawn and the number of records left |
| StoreEffects.CandidateIff | src/store.cpp:613-686 | A head file is taken for a candidate exactly when its record is whole, readable and of the domain, agrees with it in number, document, lineage and head digest and parent number, and the first file of its parent generation, if any, is such a record with the digest and content named |
| RecordFormat.RoundTrip | src/store.cpp:1276-1310 | The frame of a record is read back with the generation, head digest, payload and reserved bytes that were written |
| RecordFormat.DecodeIff | src/store.cpp:688-760 | A file passes all the checks of the frame exactly when it is a frame, for every checksum and digest function |
| RecordFormat.CutShortIsRejected | src/store.cpp:696-732 | A record cut short at any byte is never accepted |
| RecordFormat.ReadableIff | src/store.cpp:688-746 | The frame of a record as written passes its checks exactly when the payload is within the bound on its bytes that only reading enforces |
| RecordFormat.HeaderBytes | src/store.cpp:1276-1310 | Every byte of the header a commit writes: magic, version, size, generation, length and checksums with the lowest byte first, digest and head digest in their places, zeros elsewhere |
| Payloads.PayloadReadsIff | src/store.cpp:191-226 | The payload of a record is parsed back to its envelope, within the bound on its bytes, and its document decoded, exactly when the measures the store model looks at are within the limits: bytes, number of values, depth, longest string, widest collection, and sound strings and numbers |
| Payloads.FileReadsIff | src/store.cpp:688-746 | The same for the whole record file, frame and payload, byte for byte |
| Payloads.SmallIff | src/json.cpp:481-600 | A value is within the limits on depth, strings and collections exactly when its three greatest measures are |
| Payloads.EnvelopeCounts | src/store.cpp:191-219 | The envelope adds a fixed number of values and bytes to those of its document, whatever the document is |
| StoreRuns.CommitRefines | src/store.cpp:1183-1333 | The commit method, stopped after any number of durable steps, does what the event of the run model says |
| StoreRuns.PruneRefines | src/store.cpp:1335-1358 | The prune method does what the event of the run model says |
| StoreRuns.OpenRefines | src/store.cpp:796-955 | The open method does what the event of the run model says |
| StoreRuns.EventKeeps | src/store.cpp:796-955 | Every commit, prune and open, cut off after any durable step, keeps the invariant of the store, and extends the committed history, except an open that cannot read the records of the last head: it may give up that last generation and no other |
| StoreRuns.RunKeeps | src/store.cpp:796-955 | So the invariant holds after every run, whatever documents were committed |
| StoreRuns.RecoveryChoice | src/store.cpp:858-908 | In every reachable state the head chosen is the last one whose rename took effect exactly when its record, and its predecessor's if retained, are within the limits of reading; otherwise it is the one before from the backup, exactly when that can be verified, or the open refuses |
| Recovery.RunRecoversIff | src/store.cpp:796-955 | Along every run, wherever power is lost, the last committed generation is the one the next open would choose at every moment exactly when it is at the start and every commit that takes effect writes a record within the limits; then no committed generation is lost |
| Recovery.StepRecovers | src/store.cpp:1183-1333 | From a state that recovers, one event leads to a state that does unless it commits a record beyond the limits |
| Recovery.AcknowledgedSurvives | src/store.cpp:1183-1333 | An acknowledged generation stays in the history of every later run that commits readable records, at its place, exactly when its own record is within the limits; and then every such run recovers |
| Recovery.UnreadableIsLost | src/store.cpp:688-694 | A commit whose record is beyond the limits is acknowledged and lost: after a crash the next open falls back to the generation before and removes the record |
| Recovery.OpenSucceeds | src/store.cpp:796-955 | Given power for its steps, opening gives a store at the last committed head exactly when the records it reads are within the limits and the epoch is not exhausted; its incarnation is fresh and its epoch above every epoch of the history |
| Recovery.DamagedChoice | src/store.cpp:883-908 | If the head file is damaged as well, the head chosen is the last or the one before it, exactly as the backup names it and can be verified, or the open refuses |
| Recovery.DamagedHeadIsConservative | src/store.cpp:883-955 | Then the open changes nothing and refuses, or, with power for the restoration, leads back to the invariant with all of the history or all but its last generation |
| StoreRuns.StaleTokenRefused | src/store.cpp:1187-1203 | After an opening, a token with an incarnation drawn before is refused in every later state |
| Retention.PruneKeepsCountIff | src/store.cpp:1348-1356 | Pruning keeps the retained count equal to the number of record files exactly when there was something to remove |
| Retention.RunCountIff | src/store.cpp:1348-1356 | After any run the count is that of the record files exactly when no prune since the last opening found nothing to remove |
| Retention.ExactKeepsBound | src/store.cpp:1220-1224 | From an exact count, every commit accepted in a run whose prunes find something to remove leaves no more than the bound of record files |
| Retention.BoundIff | src/store.cpp:1220-1224 | After any run the bound is kept by every such continuation exactly when no prune since the last opening found nothing |
| Retention.EmptyPruneBreaksBound | src/store.cpp:1335-1358 | From every open store there is a run, one prune with nothing to remove and then commits, that accepts a commit past the bound |
| Integrity.VerifiedIff | src/store.cpp:1048-1114 | In every reachable open store the verification finds no problem exactly when every retained record is within the limits of reading |
| Integrity.RetainedChain | src/store.cpp:1231-1247 | Every retained record names its predecessor by number, content and head digest, its epoch is no lower, its lineage extends the predecessor's, and the one retained file of the predecessor is that record |
| StoreRuns.EpochsRise | src/store.cpp:925-930 | Epochs never fall along the committed history |
| Integrity.LineageDeterminesHistory | src/store.cpp:167-188 | With injective digests, two lineages are equal exactly when domain and content history are |
| Integrity.StoredLineage | src/store.cpp:1237 | The lineage stored with a head is the one of its whole history |
| Integrity.SameLineageSameHistory | src/store.cpp:167-188 | Two reachable stores whose heads carry one lineage have the same domain and content history |
| FirstCommit.BeforeFirstKeeps | src/store.cpp:890-901 | Until a head pointer exists every event leaves only attempts at generation 1, or completes the first commit |
| FirstCommit.FirstCommitDecides | src/store.cpp:774-791 | Every later run that commits readable records recovers exactly when no record file of another attempt was left when the first commit was made and its own record is within the limits |
| FirstCommit.CleanRecovers | src/store.cpp:890-955 | A first commit that leaves one record file, within the limits, has the guarantee from then on |
| FirstCommit.UnreadableRefuses | src/store.cpp:890-896 | After a first commit beyond the limits opening refuses |
| FirstCommit.RefusedForever | src/store.cpp:890-896 | And goes on refusing for good, with nothing changed on the disk |
| FirstCommit.StrayLoses | src/store.cpp:774-791 | With a file of another attempt left there is a run that loses an acknowledged generation |
| FirstCommit.GuaranteeCanFail | src/store.cpp:890-901 | Such a state is reachable from a new store, with readable records: an interrupted first commit, then a completed one |
| FirstCommit.LongStringIsLost | src/store.cpp:221-226 | So is the other failure: a new store acknowledges a document with one string of 4097 bytes, and opening refuses |
| Runtime.IntentRuntime.EvictIfNeeded | src/runtime.cpp:212-256 | The table after eviction is the live part of the one before, with a rebuilt index, or the call is refused |
| Runtime.IntentRuntime.Propose | src/runtime.cpp:258-311 | A proposal is stored against the head it was made on, with the reply and the state the step function gives |
| Runtime.IntentRuntime.ValidateProposal | src/runtime.cpp:313-370 | Validation in place gives the state, report and diff of the step function, on every branch |
| Runtime.IntentRuntime.CommitProposal | src/runtime.cpp:391-502 | A commit in place has the reply and effect of the step function of the runs, on every branch |
| RuntimeDecisions.CommitDecides | src/runtime.cpp:391-502 | In every reachable state a commit answers with a generation exactly when the runtime admits calls, the identity names a validated proposal on the current head, the fence names its actor, epoch, incarnation and base, the head is below the maximum, the store does not fail and the diff is not empty where empty ones are rejected; the generation is then the next one, its document the proposed one, only that proposal changes, and every subscriber is sent the publication within the bound; a validated proposal on another head is rejected as stale; otherwise documents and queues stay |
| RuntimeDecisions.CarriedThrough | src/runtime.cpp:504-515 | A client that proposes, validates and commits, with any calls of others in between that commit nothing, leave its proposal alone and do not shut the runtime down, ends in generation head + 1, which holds its document in canonical form, with the difference from the head document as answer |
| RuntimeDecisions.ProposeDecides | src/runtime.cpp:212-311 | In every reachable state a proposal gets the first unused candidate identity exactly when the runtime admits calls, an actor is named, the domain is that of the store and there is room or a terminal proposal to retire; the table then holds what was kept, in order, and the new proposal against the head |
| RuntimeDecisions.ValidateDecides | src/runtime.cpp:313-370 | In every reachable state validation reports exactly for committed proposals and for those that are not cancelled, stand on the head and can be compared; the verdict, the difference from the head document and the next state are what the parts of the system say, and no other proposal changes |
| RuntimeDecisions.CancelDecides | src/runtime.cpp:526-545 | Cancelling succeeds exactly for listed proposals that are not committed, changes no other proposal and keeps the first reason given |
| RuntimeDecisions.SubscribeDecides | src/runtime.cpp:561-584 | A subscription is given exactly when calls are admitted and there is room, under the next number and with the head announced if there is one |
| RuntimeDecisions.UnsubscribeDecides | src/runtime.cpp:586-596 | Exactly the first subscriber of the number is taken out, and an unknown number changes nothing |
| Runtime.IntentRuntime.CancelProposal | src/runtime.cpp:526-545 | Cancelling in place gives the state of the step function, on every branch |
| Runtime.IntentRuntime.PublishLocked | src/runtime.cpp:615-629 | Every subscriber gets the publication, and the oldest queued ones give way to the bound |
| Runtime.IntentRuntime.Poll | src/runtime.cpp:598-613 | The oldest publication is handed over and leaves the queue |
| RuntimeDecisions.PollDecides | src/runtime.cpp:598-613 | The first subscriber of the number is handed its oldest publication with the count of those it lost, and nothing else changes |
| RuntimeRuns.StepOk | src/runtime.cpp:258-629 | Every call keeps the index a bijection onto the slots, the number of proposals within bound, and every proposal consistent with the committed documents |
| RuntimeRuns.RunOk | src/runtime.cpp:258-629 | So does every interleaving of calls |
| RuntimeRuns.EvictedOk | src/runtime.cpp:212-256 | Eviction makes room, keeps the invariant and every live proposal, and adds none |
| RuntimeRuns.CommitAdvances | src/runtime.cpp:391-502 | A success advances the head by exactly one from the base of its proposal, appends exactly its document, and returns the diff from the stored parent document to the newly stored one |
| RuntimeRuns.DocumentsGrow | src/runtime.cpp:391-502 | No call changes or removes a committed document, and only a success adds one |
| RuntimeRuns.HeadCountsSuccesses | src/runtime.cpp:391-502 | The head of every run has advanced by the number of successes |
| RuntimeRuns.NoLostUpdate | src/runtime.cpp:391-515 | Of two successes in any run the earlier had the lower base; at the end each document is stored at its own generation and the diff returned is that from its base to it |
| RuntimeRuns.LiveSurvives | src/runtime.cpp:212-256 | A live proposal stays in the table, and unchanged by every call that does not name it |
| RuntimeRuns.TerminalForever | src/runtime.cpp:313-545 | A committed or cancelled proposal stays so in every run |
| RuntimeRuns.RejectedNeverCommits | src/runtime.cpp:313-515 | A rejected proposal, however often validated again, is never committed in any run |
| Subscriptions.SubscribersAccounted | src/runtime.cpp:561-629 | For each subscriber in every run: queued publications are those delivered, still queued or counted as dropped; the queue is the newest part and within bound; generations and sequence numbers delivered rise; the newest one names the head and is not dropped |
| Subscriptions.TrackOk | src/runtime.cpp:561-629 | Every call keeps that account |
| Subscriptions.SubscribersDistinct | src/runtime.cpp:561-597 | In every run no two subscribers share an identity |
| Subscriptions.PollDelivers | src/runtime.cpp:598-613 | In every run a poll hands over the oldest publication queued and not dropped, with the number dropped so far |
| Utf8.IsValidUtf8 | src/core.cpp:548-589 | A text is accepted exactly when it is a concatenation of encodings of character numbers as section 3 of RFC 3629 defines them |
| Utf8.EncodeIsEncoding | src/json.cpp:709-725 | The octets written for a character number are its encoding: shortest form, marks and payload bits in place |
| Utf8.EncodingUnique | src/core.cpp:548-589 | A character number has no other encoding |
| Utf8.Section7 | src/json.cpp:709-725 | Two of the examples of section 7 of RFC 3629, octet by octet |
| JsonReader.ParseJson | src/json.cpp:443-799 | A text is accepted exactly when it is valid UTF-8 and, within the limits, a text of the grammar of sections 2 to 7 of RFC 8259 with unique names, paired surrogates, 64-bit integers and finite doubles of at most 63 characters; the value is the grammar's meaning |
| JsonTexts.EscapeReads | src/json.cpp:612-700 | Every character below 0x10000 that is no surrogate is read from its escape, with hexadecimal digits in either case, as its octets |
| JsonTexts.PairReads | src/json.cpp:612-700 | Every other character is read from the two escapes of its surrogate pair |
| JsonTexts.LoneRefused | src/json.cpp:612-700 | A surrogate alone is refused as an encoding error |
| JsonTexts.ShortReads | src/json.cpp:612-700 | The eight short escapes stand for the characters RFC 8259 names |
| JsonTexts.StringReadsIff | src/json.cpp:612-700 | A plain string is read exactly up to 4096 characters |
| JsonTexts.NestingReadsIff | src/json.cpp:481-523 | Nested arrays are read exactly up to 65 of them |
| JsonTexts.ArrayReadsIff | src/json.cpp:578-611 | An array is read exactly up to 100000 values |
| JsonTexts.IntegerReadsIff | src/json.cpp:728-786 | An integer is read from its decimal text exactly from -2^63 to 2^63 - 1 |
| JsonReader.Parser.Run | src/json.cpp:448-468 | The run with cursor and node count has the outcome, value or error, of the parse function |
| JsonReader.Parser.ReadValue | src/json.cpp:481-523 | The recursive descent from the cursor has the outcome of the parse function on what is left, and leaves the cursor after it |
| JsonReader.Parser.ReadNumber | src/json.cpp:728-786 | Sign, digits, fraction and exponent are read from the cursor as the parse function says, an integer when the last two are missing |
| JsonReader.Parser.ReadString | src/json.cpp:612-684 | Escapes, surrogate pairs and the length limit are handled as the parse function says, from the opening quote to the closing one |
| JsonReader.Parser.ReadFields | src/json.cpp:532-575 | The members are kept sorted as they are inserted, and a name that is there already is refused |
| JsonDocuments.ParseIff | src/json.cpp:443-799 | Parsing gives a value exactly when the text is valid UTF-8 and has a syntax tree in the grammar, within the limits, with that meaning |
| JsonDocuments.ParsedStringsAreValid | src/json.cpp:612-725 | Every key and string of a parsed document is valid UTF-8, and its member lists are sorted and unique |
| JsonDocuments.MembersAreFields | src/json.cpp:532-575 | The members of a parsed object are exactly the fields of its text, sorted by key |
| JsonDocuments.MeaningWellFormed | src/json.cpp:525-610 | The meaning of every tree of the grammar keeps the invariant of the value type |
| JsonComplete.ValueComplete | src/json.cpp:481-523 | Every tree of the grammar within the limits is read from its text, whatever may follow it |
| JsonSound.ValueSound | src/json.cpp:481-523 | Whatever is read is the text of a tree of the grammar within the limits that means the value |
| JsonPrinter.RoundTrip | src/json.cpp:264-374 | Parsing the compact or the pretty text of a value gives the value back |
| JsonPrinter.RoundTripIff | src/json.cpp:264-374 | A value is read back from its text exactly when its member lists are sorted, its strings valid, its integers 64 bits wide, its doubles finite, and it and its text within the limits |
| JsonPrinter.DumpDecides | src/json.cpp:364-374 | Two such values have the same text exactly when they are equal |
| JsonPrinter.DumpIsValid | src/json.cpp:264-360 | The text printed for valid strings and numbers is valid UTF-8 |
| JsonTexts.DumpIsCompact | src/json.cpp:264-368 | The canonical text of every value, character by character: no blanks, members in order, only quotes, backslashes and control characters escaped |
| JsonReader.DumpInto | src/json.cpp:290-360 | The buffer is extended by a text of the grammar that means the value, compact or indented |
| JsonReader.AppendEscaped | src/json.cpp:264-288 | The buffer is extended by a string literal that means the string |
| JsonMembers.FindLowerBound | src/json.cpp:107-119 | The search by halving finds the place between the keys below and the keys not below, and so whether the key is there |
| JsonMembers.AsMapDecides | include/ifabric/json.hpp:5-7 | A sorted member list is determined by the map it stands for |
| JsonObjects.JsonValue.Find | src/json.cpp:107-119 | Looking a key up is looking it up in the map of the members |
| JsonObjects.JsonValue.Set | src/json.cpp:189-204 | Setting a member in place is the function on values and updates the map; a value that is no object becomes one, and the list stays sorted |
| JsonObjects.JsonValue.Insert | src/json.cpp:206-220 | Inserting refuses exactly the keys that are there and changes nothing then |
| JsonObjects.JsonValue.Erase | src/json.cpp:222-234 | Erasing removes exactly the key from the map |
| DiffWalk.DiffValues | src/diff.cpp:412-426 | The recursive walk appends exactly the entries of the two values, seen from the path |
| DiffWalk.DiffObjects | src/diff.cpp:305-339 | The walk with two cursors over member lists visits every key of either once |
| DiffWalk.DiffKeyed | src/diff.cpp:362-395 | The walk over the two identity maps visits every identity once |
| DiffWalk.DiffArrays | src/diff.cpp:341-410 | Arrays are compared by identity exactly when both are non-empty and all elements have one, and by position otherwise |
| Differences.MergeIsUnion | src/diff.cpp:311-338 | Merging two sorted lists of names with two cursors visits every name of either once, in order |
| Differences.LabelsCover | src/diff.cpp:305-410 | Two containers are compared, once each, at exactly the keys, identities or positions at which either has a child |
| Patch.NoEntriesIffSame | src/diff.cpp:283-426 | There are no entries exactly when the values agree apart from upgrade marks and from the order and repetition of identified elements |
| Patch.EntriesAreTrue | src/diff.cpp:283-300 | Every entry states what the two values hold at its path, and they differ there |
| DiffExact.EntriesExact | src/diff.cpp:283-426 | The entries are exactly the places, given by paths through unequal containers of one kind, where the values are different and not both such containers or only one is there; upgrade marks excepted |
| DiffExact.EntriesApart | src/diff.cpp:283-426 | No two entries have one path |
| Patch.SwapMirrors | src/diff.cpp:283-426 | Swapping the two values swaps the two sides of every entry, in the same order |
| PatchApply.EntriesRebuild | src/diff.cpp:283-426 | The entries, in any order, turn the earlier canonical value into the later one |
| PatchApply.EntriesRevert | src/diff.cpp:283-426 | Read backwards, in any order, they turn the later one into the earlier one |
| PatchApply.NoEntriesIffEqual | src/diff.cpp:414-416 | Between canonical values there are no entries exactly when they are equal |
| PatchExact.EntriesRebuildIff | src/diff.cpp:283-426 | The entries, in any order, turn any earlier value into the later one exactly when, wherever two containers differ, some change is seen, elements compared by identity are strictly sorted by it in the later value, and upgrade marks agree |
| PatchExact.CanonicalIsCarried | src/diff.cpp:283-426 | Two canonical values always meet that condition |
| PatchApply.OrderGoesUnseen | src/diff.cpp:362-378 | Identified elements in another order differ without an entry |
| PatchApply.RepetitionGoesUnseen | src/diff.cpp:365-374 | So do repetitions of an identity |
| Sha256.HashPieces | src/core.cpp:192-257 | However a message is split across update calls, the digest is that of the padded message folded block by block as FIPS 180-4 defines it |
| Sha256.Hasher.Update | src/core.cpp:192-218 | State and buffer account for exactly the bytes consumed so far, whatever the size of the pieces |
| Sha256.Hasher.Finish | src/core.cpp:224-251 | The tail never leaves its 72 bytes, and the digest is that of the message as padded in section 5.1.1 of FIPS 180-4 |
| Sha256.Hasher.Compress | src/core.cpp:145-190 | One block is folded in as section 6.2.2 of FIPS 180-4 says |
| Sha256.ExpandSchedule | src/core.cpp:146-157 | The schedule words are those of the recurrence |
| Sha256.ZerosNeeded | src/core.cpp:232-233 | The count of zeros worked out from the buffer alone is the one the whole length needs |
| Sha256.ZeroCountIsLeast | src/core.cpp:226-233 | It is the least that brings the length to eight short of a block, and the padding never exceeds 72 bytes |
| Sha256.PaddingInjective | src/core.cpp:224-241 | Different messages are never padded to the same blocks |
| Sha256Example.DigestOfAbc | src/core.cpp:115-257 | The digest of "abc" is the one FIPS 180-2 publishes |
| Sha256Example.Constants0 | src/core.cpp:121-131 | The first eight round constants are the first 32 bits of the fractional parts of the cube roots of the first eight primes; Constants1 to Constants7 go on to the sixty-fourth |
| Sha256Example.InitialValue | src/core.cpp:133-135 | The initial hash value is that of the square roots of the first eight primes |
| Crc32.Checksum | src/core.cpp:294-314 | The table-driven checksum is the bit-at-a-time reflected polynomial division of every byte string |
| Crc32.BuildTable | src/core.cpp:295-304 | Each table entry is eight steps of the division on its index |
| Crc32.StepLinear | src/core.cpp:299-301 | One step of the division is linear over exclusive or |
| Crc32.BitsAtOnce | src/core.cpp:306-312 | Feeding bits one by one is stepping their exclusive or with the register |
| Crc32.ByteStep | src/core.cpp:306-312 | A table look-up and a shift are eight fed bits |
| Crc32.CheckValue | src/core.cpp:294-314 | The checksum of "123456789" is 0xCBF43926 |
| Canonical.Normalize | src/canonical.cpp:180-296 | The normal form, part by part: each trimmed field and description is the text between the blanks, each set field is in strict order with the members it had, other fields stay; each collection holds its cleaned declarations, each once, in order of identity, or of model in the catalog, and then of tie-break text; the feature lists are sets of trimmed names |
| Canonical.TrimAscii | src/core.cpp:533-546 | Moving in from both ends takes away blanks and leaves a text that is empty or has none at either end, and nothing else is gone |
| Canonical.TrimIff | src/core.cpp:533-546 | A text is trimmed to m exactly when it is m between two runs of blanks, and m is empty or has no blank at either end |
| Canonical.NormalizeTwice | src/canonical.cpp:180-296 | Normalizing a normalized document changes nothing, even where identities are repeated |
| NormalForms.NormalizeIff | src/canonical.cpp:180-296 | Two documents normalize alike exactly when they differ only in the order of collections, in the order and repetition of sets, and in outer blanks, if declarations of the one that sort and tie-break cannot tell apart are the same |
| NormalForms.DocumentIff | src/canonical.cpp:180-296 | The order of declarations never shows in the normal form exactly when any two of one collection with one key and one tie-break text are the same |
| NormalForms.AlikeIsSame | src/canonical.cpp:180-296 | One normal form always means the same document in that sense |
| NormalForms.DistinctIdentitiesSuffice | src/canonical.cpp:180-296 | With distinct identities and trimmed models there are no such ties, so the first holds of every pair of documents |
| NormalForms.OrderIndependentIff | src/canonical.cpp:16-27 | Every shuffle of a collection has one normal form exactly when any two of its declarations with one key and one tie-break text are the same |
| NormalForms.CollectionIff | src/canonical.cpp:16-27 | For such a collection another normalizes alike exactly when it is a shuffle of it |
| NormalForms.SameDeclIff | src/canonical.cpp:36-46 | Two declarations have one normal form exactly when each trimmed field is one text between blanks in both, each set field has the same members and all other fields are equal |
| NormalForms.TiesKeepOrder | src/canonical.cpp:16-27 | Two declarations that the tie-break cannot tell apart keep the order they came in |
| NormalForms.OrderShowsThrough | src/canonical.cpp:150-155 | So two policies with one identity and different amounts normalize by the order they came in |
| Migration.UpgradeToCurrent | src/model_json.cpp:1870-1947 | The loop over minor versions applies each step once and marks the tree, or stops at the first failure |
| Upgrades.UpgradeDecides | src/model_json.cpp:1870-1947 | A tree is upgraded exactly when it declares the schema by name with major version 1 and minor version 0 to 3 and has what the steps to come ask for: rates that can be read, arrays where arrays belong, and no field under both names; it is then marked with version 1.3 and the version it had; another major version, or a later minor one, is refused as such |
| Upgrades.StepsIff | src/model_json.cpp:1528-1652 | The steps from a version succeed exactly when the tree has what each of them asks for, told from the tree before the first step |
| Migration.UpgradeIsStable | src/model_json.cpp:1919-1946 | A tree that was upgraded is current: upgrading it again takes no step and changes nothing; the number of steps is the distance to the current minor version |
| Migration.EditElements | src/model_json.cpp:1539-1556 | The elements are edited one after the other, up to the first failure |
| LegacyTrees.UpgradeReadsLegacy | src/model_json.cpp:1528-1652 | A tree of the current schema, spelled as any older minor version spells it, with any spelling of rates that is read back, is upgraded to the same tree with the mark, in one step for each version between |
| Speeds.UpgradeReadsTexts | src/model_json.cpp:1528-1652 | So it is with rates written as texts such as 100g wherever a text is accepted |
| Speeds.TextsSpell | src/model.cpp:144-175 | These texts, and plain numbers elsewhere, are read back for every rate below 2^63 |
| Speeds.ParseSpeedIff | src/model.cpp:144-175 | A text is accepted as a speed exactly when it is, apart from outer blanks, at most 18 digits for at most 10^12 and perhaps a suffix g or m, and the rate is below 2^64; the rate is the number times what the suffix stands for |
| Speeds.SpeedTextReads | src/model.cpp:144-175 | The decimal text of a number with a suffix means the number times its multiplier |
| Speeds.Examples | src/model.cpp:144-175 | 100g, 100G, 25m, 25M and 9600 in bits per second |
| LegacyTrees.ReadBack10 | src/model_json.cpp:1528-1583 | The step from 1.0 undoes the older spelling of speeds and bandwidths |
| LegacyTrees.ReadBack11 | src/model_json.cpp:1585-1614 | The step from 1.1 puts the maintenance defaults back that may be left out |
| LegacyTrees.ReadBack12 | src/model_json.cpp:1616-1652 | The step from 1.2 undoes the older names of the port counts |
| LegacyTrees.BothSpellings | src/model_json.cpp:1541-1553 | With both spellings present the step from 1.0 lets the legacy one win |
| LegacyTrees.BothNames | src/model_json.cpp:1494-1510 | The step from 1.2 refuses both names as ambiguous |
| JsonEditing.SetFinds | src/json.cpp:189-204 | Setting a member changes what is found under its key and nothing else |
| JsonEditing.EraseFinds | src/json.cpp:222-234 | Erasing a member changes what is found under its key and nothing else |
| Connectivity.CheckConnectivity | src/validate.cpp:857-896 | With two or more devices a partition is reported exactly when two nodes are joined by no path of enabled links, and the labels group the nodes by such paths |
| Connectivity.PartitionDecides | src/validate.cpp:857-896 | By the declarations alone: a partition is reported exactly when there are two or more devices and two of those declared or wired have no walk between them over enabled links whose ends are declared ports, the first port of an identity answering for it; labels agree exactly along such walks |
| Connectivity.LabelComponents | src/validate.cpp:876-895 | Two nodes get one label exactly when a path joins them, every label below the count is used, and every look-up finds a list that is there |
| Connectivity.Search | src/validate.cpp:882-893 | The search with a stack ends and labels exactly what is reachable from its root |
| Connectivity.BuildAdjacency | src/validate.cpp:859-874 | The lists hold the declared devices and both directions of every enabled link whose ends resolve |
| Scopes.TopologyIndex.constructor | src/index.cpp:57-95 | Each map gives an identity its first place, and the list of a device holds the links that touch it, in order, once each |
| Scopes.TopologyIndex.DevicesOfScope | src/index.cpp:284-403 | For every class of scope the devices found are those of a plain scan |
| Scopes.TopologyIndex.LinksOfScope | src/index.cpp:405-438 | The links found are those of a plain scan; whatever order the sort leaves equal identities in, only a link that shares its identity with another link of the scope can be found twice |
| Scopes.SharedCanRepeat | src/index.cpp:434-436 | Such a link can: an order allowed by the sort keeps it twice, another once |
| Overcommit.ObserveCapacity | src/conflict.cpp:148-173 | The capacity is at least the true sum over the enabled links of the scope, each counted once, or 2^64-1 if that is less, and exactly that when no two links of the scope share an identity; it is known exactly when some link contributes |
| Overcommit.SumCoversScan | src/conflict.cpp:148-173 | Whatever is found twice, the sum covers the plain scan |
| Overcommit.DetectOvercommit | src/conflict.cpp:470-510 | A conflict is raised, once, only for scopes whose capacity is known and whose true reservation sum exceeds the true capacity, and for every such scope in which no two links share an identity |
| Overcommit.OvercommitDecides | src/conflict.cpp:470-510 | By the declarations alone: a valid scope in which no two links share an identity is in conflict, once, exactly when the amounts of the capacity policies that write it add up to more than the capacities of its enabled links, or 2^64-1 if that is less, and one of these is not zero; with shared identities there is no false conflict |
| Overcommit.SumIsScan | src/conflict.cpp:148-173 | A list without repetitions of the links in scope sums to the plain scan |
| Overcommit.AddUp | src/conflict.cpp:498-507 | The checked sum leaves 64 bits only if the true sum does, and is the true sum otherwise |

## Left out

* Sockets, threads and the dispatcher of src/net.cpp, the command line, rendering, reports and statistics: plumbing.
* Real file-system calls, locks and fsync: only the ordered steps of writing, renaming and removing are modelled.
* An I/O error inside a process followed by a retry: a failed step ends the run of the process.
* The contents of the lineage journal, which recovery never reads, beyond the generation of each line, and files in the record directory that are no records.
* The checks of the envelope's own members and the fields of the head file: they are values whose digests are taken.
* The file name of the store descriptor, `store_id` and the format version: every store modelled has the supported one.
* The conversion between doubles and their literals, by `strtod` and `std::to_chars`: a double stands as a literal, so that rounding, and the equality of two literals of one double, are not modelled.
* The texts of error messages, and which of several errors of one document comes first where that needs them.
* Paths of diff entries as strings, their categories, impacts and summaries, and the final sort by path: paths are lists of steps, and the theorems hold in any order.
* Update in place of JSON trees during migrations: steps are functions on values, so aliasing of subtrees is not modelled.
* Update in place of declarations during normalization: each entry is replaced by its normal form.
* The reader that turns JSON into a document field by field, and the rules of validation other than connectivity.
* The rules of conflict detection other than overcommitted capacity, and the texts of conflicts.
* Time stamps, random numbers and environment variables: parameters or not modelled.
* The wrap-around of counters at 2^64 other than the bit length of SHA-256, capacities and reservations.
* The test of a rejection reason for the word "stale" in src/runtime.cpp:325: whether a reason has it is left arbitrary.
- Migration.UpgradeToCurrent: the steps are the functions the theorems are about; only the loop over versions and the loop over elements are procedures.
- Canonical.Normalize: the tables by kind stand for the field-by-field assignments of the code.

# Arcana: graph queries, Lexicon loading and publication, in Dafny

This project models the graph half of the repository, the Rust crate `arcana`, and proves properties of the model with Dafny 4.11. `dafny verify dfyconfig.toml` checks all of it.

It covers four parts of the system and two encoders that belong to them.

* **Graph search and comparison.** Shortest paths by bounded breadth-first search (`ShortestPath`), the enumeration of simple paths with a limit (`PathSearch`), connected components and the architecture summary built on them (`Components`, `Architecture`, `ArchitectureSummary`, with `AdjacencySteps` for what there is to count), and the merge join that compares two snapshots (`SnapshotDiff`).
* **The Lexicon binary v2 format.** The cursor with its pairs of decoding and skipping readers (`Reader`), the string table and variable-length integers against their encodings (`FrontCoding`), objects decoded in full or by section (`BinaryObject` for what is read, `BinaryDecode` for the loops), what the bytes of an object say according to the format (`ObjectLayout`) and that the decoder reads exactly this (`ObjectBinary`), Lexicon's writer (`ObjectWriter`), and decoding that streams records to callbacks (`BinaryStream`).
* **Loading.** Facts and their order (`Facts`, `FactOrder`), the monolithic builder (`Records`), the two bounded passes (`StreamRecords`), manifests (`SnapshotManifest`), the load of a snapshot (`SnapshotLoad`), the staged nodes and the compact load (`StagedNodes`, `CompactLoad`), its warnings against those of the first (`CompactWarnings`), the incremental load and what the store beneath it must hold (`DeltaLoad`, `BaseStore`), the loops of the last two loads (`CompactVisit`), and path normalisation (`RepositoryPath`).
* **Publication.** What the store and graph of a generation hold and when an update of them is refused (`StoreContents`), what a sync decides and writes (`SyncPlan`), an update against a rebuild (`UpdateCompare`), the protocol any number of processes follow, with a stop possible between any two steps (`SyncProtocol`), runs of it by one process (`SyncRefinement`), and the sync that changes the state directory and records its steps as such a run (`SyncRun`).
* **Encoders.** The preimage of a node signature (`NodeSignature`) and the canonical fact text with its parser (`FactText`, `FactParse`, with `TextSplit` and `Numerals`).

`Wrappers`, `Ordering` and `Lexicon` hold the result types, sorting, and the records shared by the rest. `SampleStorage`, `OneFile`, `SyncSample` and `OwnerSample` are small storages, stores and syncs that serve as instances.

## How to read it

Loops that update state are methods. Each is proved to compute a function of its inputs or of the old state, and the results are lemmas about these functions. `ShortestPath`, `Components`, `ArchitectureSummary` and `SnapshotDiff` state their results directly as postconditions. The streaming decoder hands a context to callbacks; a callback is a function from the context and a record to the next context and an optional error, so the compact pass that these callbacks update is a value.

Strings are sequences of bytes, and integers are unbounded with their widths written out: u64 in the decoder and in identifiers, u32 in spans, a 64-bit `usize` in counts. Hashing, UTF-8 validity, identity parsing and the parsing of labels are opaque total functions, passed in as `Codec` and `Schema`. Adjacency is a function that may fail. Errors are kinds without their texts.

What the model assumes of code it does not contain is said where it is used:

* `Records.Schema.normalize` is arbitrary. `DeltaLoad.Settles` is the one property of normalisation a result needs, and `DeltaLoad.PathsSettle` proves it of `normalize_repository_path`; `BaseStore.UsesPaths` says that it is that function.
* `CompactLoad.NoCollision` asks that the hash does not confuse the signatures of two node records of one snapshot, `BaseStore.KeysTellApart` that no two identities the objects define have the same 64-bit key; `CompactLoad.SortsByKey` describes an unstable sort by key. `SyncPlan.LoadersSound` puts these together.
* `SyncPlan.WritersSound` is the contract of the repository writers: a compiled load opens and holds what was compiled; an update, by the delta that is loaded for it and over a base that opens for it, holds what `StoreContents.Updated` says and opens exactly if that is coherent. `SyncProtocol.RemovalSound` says that a directory that does not open does not open with fewer files either, and that one an update can start from holds what it held with all of them. The files themselves are a black box; both loads of a sync are the modelled ones. `OneFile.KeeperSound` gives repositories that meet both contracts, and `SyncSample` syncs over them that meet every hypothesis on recovery.
* `UpdateCompare.Telling` says that different warnings are different in the file of warnings; only the comparison of these files rests on it.
* Lexicon's storage is the same throughout a run of syncs: its manifests and objects are immutable and named by their content.
* Objects in the formats before binary v2 come from an opaque parser whose relations name their ends by identity, as those parsers do.

## What was found

These properties hold only under a condition, which is proved to be exact.

* **Truncation.** The path enumerator may report truncation although its list is complete, because it tests the limit before looking whether another path exists. It does so exactly when there are as many paths as the limit, and there are none or the last of them leaves some node by another than the last of its neighbours (`PathSearch.TruncatedExactly`; an instance is `PathSearch.TruncatedButComplete`). An untruncated list is always complete.
* **Incremental load.** Normalising "./C:/x" gives "C:/x", which normalisation itself refuses as absolute (`RepositoryPath.DriveExposed`). A file at such a path is indexed and loaded in full, but an incremental load that lists it among the changed paths fails. When the full load succeeds and shared objects are equal, the incremental one fails exactly when a path that differs begins with a drive prefix (`BaseStore.DriveExact`; an instance is `SyncSample.FullButNotDelta`).
* **Recovery.** The documentation says that an update that cannot be made falls back to a rebuild (arcana/docs/LEXICON_CONTRACT.md:51, arcana/docs/ARCHITECTURE.md:201). The code does so only when the previous generation does not open, its store is corrupt, or the nodes that the changed paths own differ. Otherwise the sync fails, changes neither the generations nor `CURRENT`, and so does every further sync of the same snapshot (`SyncPlan.BlockedRepeats`). With Lexicon's snapshot loadable and no I/O errors, a sync fails exactly when it is blocked (`SyncPlan.RecoverySucceeds`, and `SyncProtocol.Recovers` after any run): it plans an update, and either a path that differs begins with a drive prefix; or the changed paths own the same nodes as before, and an end of an edge is not in the base, a node of the changed objects belongs to none of the changed paths, a link that the update adds is in the packed base, or one that it removes is not (`UpdateCompare.BlockedOnRecords`, of the previous generation and Lexicon's records). Instances: `SyncSample.NeverSyncsAgain` (a drive prefix), `SyncSample.ModuleNeverSyncsAgain` (a module node, which belongs to no file), `SyncSample.NeverTakenAway` (an edge that one update adds and the next removes).
* **Publication.** The same documentation has each update write one cumulative overlay relative to the packed base. The code takes the difference to the previous store, and checks and applies it against the packed base, without the previous overlay. The two agree, and the update is accepted and leaves a generation that opens, exactly when the packed base consists of the links of the edges that the changed paths own and of the kept edges that are not read again, and no kept edge is a link that the update removes (`StoreContents.NextUpdate`, `StoreContents.CumulativeExact`). After an overlay that removed a link this never holds, and after one that added links only for an update that adds all of them again (`StoreContents.AfterOverlay`). So a sync may succeed and leave `CURRENT` on a generation whose graph does not show its store's edges and which does not open. From any state that a run leaves, with Lexicon's snapshot loadable and no I/O errors, a sync leaves `CURRENT` on a complete generation exactly when it plans no update, or no path that differs begins with a drive prefix and the update either turns into a rebuild or has all its ends and owners and fits the packed base so (`UpdateCompare.OpensOnRecords`, `UpdateCompare.RunOpensOnRecords`). A further sync of the same snapshot rebuilds a generation that does not open (`SyncPlan.SecondSyncRebuilds`; an instance is `SyncSample.SecondOverlayUnusable`); a sync of another snapshot plans an update over it (`SyncPlan.OtherSyncUpdates`) and may fail, again and again, with `CURRENT` still on it (`SyncSample.UnusableForGood`). That `CURRENT` names a complete generation holds of every run in which what the writers finish opens (`SyncProtocol.PublicationSafe`); that no complete generation is lost or altered holds of every run.
* **Update and rebuild.** Over the compiled previous snapshot an update stores what a rebuild would exactly when every record that is gone and that no changed path owns is still recorded, and every kept record that a changed path owns is read again (`UpdateCompare.UpdateVersusRebuild`; over any base, `UpdateCompare.UpdateOverAny`); the generation it leaves has the warnings of a rebuilt one exactly when the kept records give none (`UpdateCompare.UpdateWarnings`).
* **Warnings.** The two full loads count the same warnings, except that the compact one counts an unrecognised kind once more for every repetition of a node record. They agree exactly when no node record with an unrecognised kind occurs twice (`CompactWarnings.WarningsCompared`; an instance is `SampleStorage.RepeatedNodeCountedTwice`).
* **Objects.** The decoder accepts exactly the bytes that the format describes, and yields exactly the records they say (`ObjectBinary.ObjectExact`). What Lexicon's writer writes is read back, but that a reference to a node of the object comes back as its key and that an optional text or block that is present and empty comes back as missing (`ObjectWriter.WriterReadBack`).
* **Fact text.** Encoding and parsing gives back the sorted facts exactly when `FactParse.Encodable` holds: no optional string or span path is the literal "-", paths are normal, identities are canonical, and labels parse back (`FactParse.RoundTrip`; an instance is `FactParse.DashLost`).

## Model

The main results come first, then what they rest on, component by component, and last the loops of the readers and visitors.

| member | source | states |
|---|---|---|
| ShortestPath.FindShortestPath | arcana/src/traversal.rs:39-83 | a returned path is a walk of real edges with their kinds, with distinct nodes, at most `max_depth` long and no longer than any other walk; `None` means no walk of that length exists; an error names an end or neighbour out of range or a real adjacency failure met on the way |
| ShortestPath.FindShortestPathErrorFree | arcana/src/traversal.rs:39-83 | over error-free in-range adjacency the search returns a path if and only if a walk within the depth exists or start equals target |
| PathSearch.Paths | arcana/src/protocol/path_queries.rs:14-57 | without an adjacency failure, the result is the first `limit` of all simple paths within the depth, complete if not truncated, and the flag is set exactly on the graphs `PathSearch.Truncates` describes; it fails with the failure the search meets |
| PathSearch.AllPathsComplete | arcana/src/protocol/path_queries.rs:14-57 | the unlimited list holds exactly the node-simple paths from start to target within the depth |
| PathSearch.TruncatedExactly | arcana/src/protocol/path_queries.rs:100-136 | the flag is set exactly when the limit is zero, or there are more paths, or as many and the last of them leaves some node by another than the last of its neighbours; and when a complete list is so flagged |
| PathSearch.TruncatedButComplete | arcana/src/protocol/path_queries.rs:119-122 | a query whose answer holds the only path and is still reported as truncated |
| Components.ConnectedComponents | arcana/src/protocol/architecture_queries.rs:171-199 | for symmetric adjacency inside the selection, the components partition it: two nodes share one exactly when a path joins them, `component_of` agrees with membership and is `None` exactly off the selection, each component is strictly ascending |
| ArchitectureSummary.Summarise | arcana/src/protocol/architecture_queries.rs:38-113 | the communities are the parts of the selection that its outgoing lists join; each counts, by relation and node, the entries of its outgoing lists that lead to its own nodes, and by relation and direction those of its outgoing and incoming lists that lead off the selection; all totals conserve; those of two nodes, or of as many as requested and at least one, are kept; it fails exactly when some adjacency of the selection fails, with the failure met first |
| Architecture.Conservation | arcana/src/protocol/architecture_queries.rs:80-103 | all of these totals together, before communities are filtered |
| SnapshotDiff.DiffSnapshot | arcana/src/protocol/diff.rs:10-66 | counts exactly the added, removed, changed and re-linked keys and lists the first `limit` of each in key order, with the limit defaulted and capped; fails exactly when a catalogue breaks off or a common key has unreadable edges, or, if the checksums are equal, when a first entry cannot be read |
| SnapshotDiff.MergeJoin | arcana/src/protocol/diff.rs:20-53 | the two cursors meet every common key and tally each entry in its categories, relationships by the keys and kinds its neighbours lead to; a failure is the first in key order: edges of a common key, the current entry before the other, or a catalogue that breaks off, the current one first |
| SnapshotDiff.GraphChangedExact | arcana/src/protocol/diff.rs:54 | `graph_changed` is false exactly when both catalogues have the same keys, and a neighbour of the same key over an edge of the same kind under the same keys, whatever the node numbers |
| FrontCoding.VarintExact | arcana/src/lexicon/binary_v2_reader.rs:37-50 | the reader yields a value exactly when the bytes there are an unsigned LEB128 encoding of it of at most ten bytes |
| FrontCoding.TableExact | arcana/src/lexicon/binary_v2_reader.rs:105-141 | the reader accepts exactly the bytes that are a count and front-coded entries within the limits, with any sharing and any LEB128 form of at most ten bytes, the first string empty, and ends just behind them |
| ObjectBinary.ObjectExact | arcana/src/lexicon/binary_v2.rs:67-129 | the decoder accepts exactly the bytes that the format says an object consists of, in any of the forms of its fields, codes and numbers, and yields exactly the metadata and records they say |
| ObjectWriter.WriterReadBack | lexicon/src/storage/binary/v2_write.rs:12-40 | whatever the writer writes within the limits is decoded to the same metadata and records by kind, references to nodes of the object as keys, and present but empty optional texts as missing |
| BinaryObject.SelectiveAgrees | arcana/src/lexicon/binary_v2.rs:67-129 | everything decodes exactly when nodes and relations each do; the records are then the nodes followed by the relations, and all passes report the same metadata and counts |
| BinaryObject.CountsExact | arcana/src/lexicon/binary_v2.rs:67-129 | the counts are the numbers of nodes, edges and unresolved references decoded, in this order |
| BinaryObject.NodeKeysAgree | arcana/src/lexicon/binary_v2.rs:212-267 | `decode_node_keys` is the key map of `decode_nodes` |
| BinaryStream.StreamingRefines | arcana/src/lexicon/binary_v2_stream.rs:46-164 | for any callbacks: counts announced once and first, delivered records a prefix of the readable ones folded into the context in order, success exactly when the collecting decoder succeeds and no callback fails |
| BinaryStream.StreamingNeverFails | arcana/src/lexicon/binary_v2_stream.rs:46-164 | with callbacks that never fail, streaming succeeds exactly when collecting does and delivers the same records, relation attributes aside |
| Records.BuildExact | arcana/src/lexicon/records.rs:18-174 | the build succeeds exactly on loadable records and yields precisely the facts they describe, strictly sorted |
| Records.OrderIndependent | arcana/src/lexicon/records.rs:18-55 | permuted records load alike: same success, facts and warnings |
| StreamRecords.TwoPassRefines | arcana/src/lexicon/stream_records.rs:28-123 | both passes over any split give what the monolithic build gives, the same first error included |
| StreamRecords.SplitRefines | arcana/src/lexicon/stream_records.rs:28-123 | for any split of one list: success exactly if the counts fit and the build succeeds, with the same result |
| SnapshotLoad.LoadExact | arcana/src/lexicon/snapshot.rs:46-96 | a load succeeds exactly when the manifest is accepted, its objects are sound and all their records loadable; it then yields the monolithic build of these records |
| SnapshotLoad.LoadClosed | arcana/src/lexicon/snapshot.rs:46-96 | whenever a load succeeds, every edge end and unresolved source is the key of exactly one node |
| SnapshotLoad.LoadOrderIndependent | arcana/src/lexicon/snapshot.rs:183-214 | snapshots holding the same records, however spread and ordered, load alike |
| NodeSignature.PreimageInjective | arcana/src/lexicon/stream_compact_node.rs:11-84 | two records have the same preimage exactly when everything but the identity is equal, `None` told apart from empty |
| CompactLoad.CompactExact | arcana/src/lexicon/snapshot_compact.rs:44-73 | the compact load succeeds exactly when `load` does and holds the same facts |
| CompactWarnings.WarningsCompared | arcana/src/lexicon/stream_compact.rs:48-97 | the compact load counts every warning as often as `load`, and an unrecognised kind once more for every repetition of a node; they are equal exactly when no such node is recorded twice |
| SampleStorage.RepeatedNodeCountedTwice | arcana/src/lexicon/stream_compact.rs:48-97 | a snapshot of which `load` warns once and `load_compact` twice |
| DeltaLoad.RecordsExact | arcana/src/lexicon/snapshot_compact.rs:75-122 | the current records are, with multiplicities, those of the unchanged and shared previous objects and those at the changed paths |
| DeltaLoad.DeltaExact | arcana/src/lexicon/snapshot_compact.rs:75-122 | if the full load succeeds and shared objects are equal, the incremental load succeeds exactly when every changed path is normal, and kept and read parts are the full load's nodes, edges and references |
| DeltaLoad.UnchangedIdentitiesResolve | arcana/src/lexicon/stream_compact.rs:239-278 | if the node identities at the changed paths are unchanged, both resolvers accept the same identities with the same keys, and all key references of the delta |
| BaseStore.DriveExact | arcana/src/lexicon/snapshot_compact.rs:75-122 | if the full load succeeds and shared objects are equal, the incremental load fails exactly when some path that differs begins with a drive prefix |
| BaseStore.DeltaHolds | arcana/src/lexicon/snapshot_compact.rs:75-122 | a store with the nodes of the previous snapshot and of the delta holds every node of the current one |
| SyncSample.FullButNotDelta | arcana/src/lexicon/snapshot_compact.rs:88-94 | a snapshot that loads in full and whose incremental load fails |
| SyncProtocol.PublicationSafe | arcana/src/cli_sync.rs:18-67 | from an empty directory at most one process is past the lock, no complete generation is lost or altered between any two points, and `CURRENT` names a complete generation if what the writers finish opens |
| SyncProtocol.RunSafe | arcana/src/cli_sync.rs:18-67 | so does every run, with processes stopping anywhere |
| SyncProtocol.Recovers | arcana/src/cli_sync.rs:18-67 | from whatever a run left behind, with Lexicon's snapshot loadable and no I/O errors, one uninterrupted sync succeeds exactly when it is not blocked; a further one then leaves a complete generation, and otherwise fails again |
| SyncPlan.RecoveryExact | arcana/src/cli_sync.rs:18-50 | from any consistent state a sync succeeds exactly when planning and, if needed, writing do; success leaves `CURRENT` on the generation found complete or just written and the others as they were, failure leaves `CURRENT` as it was |
| SyncPlan.RecoverySucceeds | arcana/src/cli_sync_build.rs:90-306 | with Lexicon's snapshot loadable and no I/O errors a sync fails exactly when it is blocked |
| SyncPlan.BlockedRepeats | arcana/src/cli_sync_build.rs:255-302 | a blocked sync fails without a rebuild, leaves generations and `CURRENT` as they were, and every further sync of the same snapshot fails alike |
| UpdateCompare.OpensOnRecords | arcana/src/cli_sync_build.rs:206-306 | with Lexicon's snapshot loadable and no I/O errors, from any consistent state, a sync leaves `CURRENT` on a complete generation exactly when it plans no update, or no path that differs begins with a drive prefix and, of the previous generation and Lexicon's records, the store is corrupt, the paths own other nodes than before, or every end is there, every node is owned and the links fit the packed base |
| UpdateCompare.RunOpensOnRecords | arcana/src/cli_sync.rs:18-67 | so it is from whatever a run left behind |
| UpdateCompare.BlockedOnRecords | arcana/src/cli_sync_build.rs:255-302 | a planned update is blocked exactly when a path that differs begins with a drive prefix, or, of the previous generation and the records at these paths, the paths own the same nodes before and after and an end of an edge is missing, a node belongs to no path, or a link is misplaced |
| UpdateCompare.UpdateVersusRebuild | arcana/src/cli_sync_build.rs:206-306 | over the compiled previous snapshot, what an update stores is what a rebuild would exactly when every record that is gone and owned by no changed path is still recorded, and every kept one that a changed path owns is read again |
| UpdateCompare.UpdateWarnings | arcana/src/cli_sync_build.rs:286-322 | of two syncs of one snapshot, one by an update and one by a rebuild, the generations have the same warnings exactly when the kept records give none |
| UpdateCompare.StoreAfterUpdate | arcana/src/cli_sync_build.rs:269-276 | after an update the store holds an edge, or an unresolved reference, exactly when it was read at the paths that differ, or was in the previous store and belongs to the file of none of them |
| StoreContents.RefusedExact | arcana/src/repository/incremental_local.rs:27-56 | an update is refused exactly when the changed paths own the same nodes before and after, and an end of an edge is missing from the base, a node of the delta belongs to none of the paths, or a link is misplaced against the packed base |
| StoreContents.OwnedExact | arcana/src/repository_store/build_ownership.rs:113-132 | an edge belongs to the file of its span, else to that of its source if it has one, else to that of its target; an unresolved reference to that of its span, else to that of its source |
| StoreContents.ChangesExact | arcana/src/repository/incremental_local.rs:29-43 | the overlay adds the links that are read and were not those of owned edges, and removes those of owned edges that are not read |
| StoreContents.FirstUpdate | arcana/src/snapshot/overlay_validation.rs:95-111 | over a compiled generation the graph accepts an update exactly when no kept edge is a link it adds, and the generation it leaves opens exactly when no kept edge is a link it removes |
| StoreContents.NextUpdate | arcana/src/repository/repository_update_base.rs:89-91 | over any base, opening or not, an update is accepted and leaves a generation that opens exactly when the packed base is the links of the owned edges and of the kept ones that are not read again, and no kept edge is a link it removes |
| StoreContents.CumulativeExact | arcana/docs/STATUS.md:55 | the overlay relative to the packed base would always be accepted and open; the one written is that one exactly when the update fits the packed base |
| StoreContents.AfterOverlay | arcana/src/cli_sync_build.rs:246-291 | after an overlay that removed a link no update leaves a generation that opens; after one that added links only an update that adds all of them again |
| SyncSample.NeverSyncsAgain | arcana/src/cli_sync_build.rs:233-255 | two snapshots of which the first is synced and the second, though it could be rebuilt, fails to sync again and again |
| SyncSample.ModuleNeverSyncsAgain | arcana/src/repository_store/build_ownership.rs:147-165 | a file with a module node, one edge of which changes: the rewrite is refused, and no further sync of this snapshot succeeds |
| SyncSample.NeverTakenAway | arcana/src/snapshot/overlay_validation.rs:95-111 | an edge added by one update and removed by the next: the second sync fails, and every further one of this snapshot |
| SyncSample.SecondOverlayUnusable | arcana/src/cli_sync_build.rs:246-291 | two updates that each add an edge: both succeed, and `CURRENT` then names a generation that does not open; a further sync of the same snapshot rebuilds it |
| SyncSample.UnusableForGood | arcana/src/cli_sync_build.rs:101-151 | from there a sync of another snapshot plans an update over the generation that does not open and fails, as does every further one of it, and `CURRENT` stays there |
| SyncRun.StateDirectory.RunSync | arcana/src/cli_sync.rs:18-67 | a sync is refused while the lock is held, and otherwise leaves the specified state directory and report, unlocked; its recorded steps are a run of the protocol in which the writers keep their contract, and after any number of them the disk is consistent and every complete generation untouched |
| SyncRun.StateDirectory.WriteUpdate | arcana/src/cli_sync_build.rs:233-306 | updates in the temporary directory; a rebuild begins only when nothing has been written since entry, and an update that has begun none ends as an overlay or in an error |
| FactText.EncodeCanonical | arcana/src/repository/fact_encode.rs:6-51 | permuted facts have the same text |
| FactParse.RoundTrip | arcana/src/repository/fact_file.rs:16-60 | parsing the encoded text gives the sorted facts exactly when every fact is encodable |
| FactParse.DashLost | arcana/src/repository/fact_encode.rs:65-80 | a candidate name that is the literal dash is read back as missing |
| ShortestPath.BreadthFirst | arcana/src/traversal.rs:58-83 | the same for two different nodes in range |
| ShortestPath.Drain | arcana/src/traversal.rs:63-82 | the queue loop keeps depths layered and settled nodes expanded, and ends with the shortest path or with everything near enough discovered |
| ShortestPath.Expand | arcana/src/traversal.rs:64-80 | expanding one node discovers each unseen neighbour once, one level deeper, with a real edge to its parent, and stops at the target |
| ShortestPath.ReconstructPath | arcana/src/traversal.rs:93-110 | following the parents always reaches the start, and the reversed chain is a walk with distinct nodes and as many edges as the depth of the target |
| ShortestPath.NothingShorter | arcana/src/traversal.rs:68-76 | when the target is first discovered at a depth, no shorter walk reaches it |
| ShortestPath.Exhausted | arcana/src/traversal.rs:63-82 | an empty queue without the target means that no walk within the depth reaches it |
| ShortestPath.WalkDiscovered | arcana/src/traversal.rs:63-82 | every node a walk reaches within the depth has been discovered at no greater depth |
| PathSearch.PathSearch.constructor | arcana/src/protocol/path_queries.rs:27-42 | the search starts at the start node, visited, with no path found |
| PathSearch.PathSearch.Walk | arcana/src/protocol/path_queries.rs:100-136 | leaves paths, flag and error of running the depth-first event list under the limit, and restores nodes, relations and visited unless it fails |
| PathSearch.PathSearch.WalkBranches | arcana/src/protocol/path_queries.rs:113-134 | the loop over the neighbours runs the events of its branches in order |
| PathSearch.PathSearch.Visit | arcana/src/protocol/path_queries.rs:127-133 | one branch pushes, walks and pops, leaving the current path as it was |
| PathSearch.EventsExact | arcana/src/protocol/path_queries.rs:100-136 | the event list finds precisely the node-simple extensions of a path to the target with at most `max_depth` edges |
| PathSearch.EventsDistinct | arcana/src/protocol/path_queries.rs:113-134 | without repeated neighbours, no path is listed twice |
| PathSearch.EventsGuarded | arcana/src/protocol/path_queries.rs:100-122 | the limit is tested before every path is recorded |
| PathSearch.RunKeepsPrefix | arcana/src/protocol/path_queries.rs:101-108 | under a limit the recorded paths are the first ones of the list, and all of them if nothing stopped the run |
| PathSearch.FailuresReal | arcana/src/protocol/path_queries.rs:113-118 | an error is one that the adjacency of a node on some simple path returned |
| PathSearch.EventsEnd | arcana/src/protocol/path_queries.rs:113-134 | the search ends with its last path exactly when that path takes the last way out of every node |
| Components.Grow | arcana/src/protocol/architecture_queries.rs:182-196 | the queue collects exactly the nodes joined to the start, marks them with the index and leaves all others |
| Components.JoinedThrough | arcana/src/protocol/architecture_queries.rs:186-194 | nodes joined to one root are joined to each other |
| Components.FinishedPartition | arcana/src/protocol/architecture_queries.rs:178-197 | components that are closed under adjacency and internally joined are the classes of being joined |
| Architecture.Gather | arcana/src/protocol/architecture_queries.rs:41-64 | the edge list and boundary list are those of all selected nodes in order, and the adjacency mirrors the edges both ways inside the selection; a failure is the first one met |
| Architecture.Account | arcana/src/protocol/architecture_queries.rs:68-103 | every community counts exactly the edges, relations, degrees and boundary events of its own nodes |
| Architecture.AccountEdges | arcana/src/protocol/architecture_queries.rs:80-93 | the edge loop counts each edge once in the community of its source |
| Architecture.AccountEvents | arcana/src/protocol/architecture_queries.rs:95-103 | the event loop counts each boundary event once, by direction and relation |
| Architecture.EdgeInOneComponent | arcana/src/protocol/architecture_queries.rs:80-93 | both ends of an internal edge lie in the same component |
| Architecture.EdgeCountsConserve | arcana/src/protocol/architecture_queries.rs:80-88 | over all communities the edges add up to the internal edges |
| Architecture.BoundaryCountsConserve | arcana/src/protocol/architecture_queries.rs:94-103 | over all communities the boundary events add up to the boundary total |
| Architecture.DegreesConserve | arcana/src/protocol/architecture_queries.rs:89-92 | over all communities the degrees add up to twice the edges less the self-loops |
| Architecture.CommunityTotals | arcana/src/protocol/architecture_queries.rs:84-102 | the relation counts of a community add up to its edge count, its boundary counts to its events |
| Architecture.NodesConserve | arcana/src/protocol/architecture_queries.rs:105-113 | the sizes of the components add up to the selection |
| Architecture.ExcludedNodes | arcana/src/protocol/architecture_queries.rs:108-112 | kept and excluded node counts add up to all nodes of the communities |
| Architecture.AccountedByNodes | arcana/src/protocol/architecture_queries.rs:68-103 | counting an edge at its source and an event at its node gives every community the edges and events of its own nodes |
| Architecture.EdgesInside | arcana/src/protocol/architecture_queries.rs:80-93 | because both ends of an edge share a component, the edges counted at their sources are those inside |
| SnapshotDiff.MetadataChangedExact | arcana/src/protocol/diff.rs:30-32 | the metadata count is zero exactly when common keys have equal facts |
| SnapshotDiff.Round | arcana/src/protocol/diff.rs:28-53 | one round consumes a matched pair or the entry of the lesser key, and keeps the tally that of what is consumed |
| SnapshotDiff.IdenticalReported | arcana/src/protocol/diff.rs:24-27 | equal checksums, taken as equal data, are reported as the loop would report them |
| SnapshotDiff.KeyedNeighborsExact | arcana/src/protocol/diff.rs:80-96 | the outgoing set of a node holds exactly the key and kind of each neighbour |
| SnapshotDiff.OutgoingExact | arcana/src/protocol/diff.rs:80-96 | the outgoing set can be built exactly when the neighbours can be read and each has a key, and is then what they lead to; the failure is that of the neighbours, or of the first without a key |
| FrontCoding.EncodeDecodes | arcana/src/lexicon/binary_v2_reader.rs:37-50 | the LEB128 encoding of every u64 is read back |
| FrontCoding.EntriesWritable | arcana/src/lexicon/binary_v2_reader.rs:105-141 | every list of strings has such entries, for any sharing |
| BinaryObject.NodeKeyExact | arcana/src/lexicon/binary_v2.rs:247-267 | a node record decodes exactly when its key does and its content identity parses, and both readers stop at the same place |
| BinaryObject.EnvelopesAgree | arcana/src/lexicon/binary_v2.rs:148-206 | skipping the external references changes nothing else of the envelope |
| BinaryObject.SkipFieldsFollow | arcana/src/lexicon/binary_v2_reader.rs:221-362 | each skipping reader succeeds exactly when its decoding reader does and moves as far |
| BinaryObject.SkipSpanFollows | arcana/src/lexicon/binary_v2_reader.rs:364-407 | the same for spans |
| BinaryObject.SkipIdentityFollows | arcana/src/lexicon/binary_v2_reader.rs:157-191 | wherever an identity decodes, skipping it moves as far |
| ObjectBinary.NodesExact | arcana/src/lexicon/binary_v2.rs:212-245 | the node section decodes exactly when it is a counted list of node records as the format has them, and to these |
| ObjectBinary.EdgesExact | arcana/src/lexicon/binary_v2.rs:269-291 | so does the edge section, over the keys of the nodes and the external references |
| ObjectBinary.UnresolvedExact | arcana/src/lexicon/binary_v2.rs:293-318 | so does the section of unresolved references |
| ObjectBinary.FactoredDecodes | lexicon/spec/objects-v2.md:106-110 | factor 0 is read as the empty text, 1 as the owner of the object, 2 as the reference behind it |
| ObjectBinary.QualifiedDecodes | lexicon/spec/objects-v2.md:112-117 | factor 0 is read as the reference behind it, 1 as the name, 2 as the path, 3 as the owner of the object |
| ObjectBinary.ReferenceDecodes | lexicon/spec/objects-v2.md:51-60 | tag 0 is read as the key of the node of this ordinal, tag 1 as the external reference of this index, both from one |
| ObjectBinary.RelationNames | lexicon/spec/objects-v2.md:82-98 | the codes of relations name what the format says, and no others do |
| ObjectBinary.KindNames | lexicon/spec/objects-v2.md:66-80 | so do those of node kinds |
| BinaryStream.VisitNodes | arcana/src/lexicon/binary_v2_stream.rs:46-94 | leaves the context and outcome of the streaming specification for nodes |
| BinaryStream.VisitRelations | arcana/src/lexicon/binary_v2_stream.rs:96-164 | leaves the context and outcome of the streaming specification for relations |
| BinaryStream.StreamNodes | arcana/src/lexicon/binary_v2_stream.rs:54-92 | the node loop hands each record to the callback as soon as it is read |
| BinaryStream.StreamEdges | arcana/src/lexicon/binary_v2_stream.rs:106-129 | the edge loop skips attributes and hands each edge over |
| BinaryStream.StreamUnresolved | arcana/src/lexicon/binary_v2_stream.rs:131-161 | the same for unresolved references |
| BinaryStream.StreamingCollects | arcana/src/lexicon/binary_v2_stream.rs:46-164 | a successful visit has folded exactly the collecting decoder's records |
| NodeSignature.FeedSignature | arcana/src/lexicon/stream_compact_node.rs:11-23 | the hasher is fed the preimage of the record, field by field |
| Facts.FactsTotal | arcana/src/repository/model.rs:297-317 | the derived orders on facts are total orders |
| FactOrder.NodeOrder | arcana/src/repository/model.rs:298-308 | the order of nodes is that of their fields as declared, one after the other |
| FactOrder.EdgeOrder | arcana/src/repository/model.rs:312-317 | and so is that of edges |
| FactOrder.UnresolvedOrder | arcana/src/repository/unresolved.rs:77-85 | and that of unresolved references |
| Facts.UnresolvedFieldsInjective | arcana/src/repository/unresolved.rs:76-85 | the fields an unresolved fact is compared by determine it |
| Records.BuildRepositoryFacts | arcana/src/lexicon/records.rs:18-55 | the loops compute the monolithic build |
| Records.CollectExact | arcana/src/lexicon/records.rs:57-71 | collecting nodes succeeds exactly when no two different records share an identity, and holds each record once |
| Records.UnrecognisedKind | arcana/src/lexicon/records.rs:90-112 | a node of an unrecognised kind is loaded as a symbol, with all else it says |
| Records.ConvertNodesExact | arcana/src/lexicon/records.rs:73-112 | converting succeeds exactly when every record converts and no two identities share a key |
| Records.NodesExact | arcana/src/lexicon/records.rs:36-43 | the same for the nodes of a list of records, with the identity table they leave |
| Records.EdgeExact | arcana/src/lexicon/records.rs:114-137 | an edge converts exactly when owner, ends and span are good, and to which fact |
| Records.UnresolvedExact | arcana/src/lexicon/records.rs:139-174 | the same for an unresolved reference |
| Records.GatherExact | arcana/src/lexicon/records.rs:44-53 | a conversion loop succeeds exactly when every record converts, and gathers the facts and warnings of all |
| Records.FinishExact | arcana/src/lexicon/records.rs:176-191 | sorting and deduplication leave strictly ascending lists with the same members |
| Records.WarningsExact | arcana/src/lexicon/records.rs:90-172 | how often each warning is counted |
| Records.LoadCloses | arcana/src/lexicon/records.rs:193-204 | if every key reference is borne by a node record, every edge end and unresolved source is the key of exactly one node |
| Records.AscendingKeys | arcana/src/lexicon/records.rs:36 | the order in which the node map is iterated |
| StreamRecords.NodePass.Ingest | arcana/src/lexicon/stream_records.rs:28-47 | adds counts and nodes unless there is a conflict already, recording an overflow or the first conflict |
| StreamRecords.NodePass.Finish | arcana/src/lexicon/stream_records.rs:49-77 | returns the conflict, or converts the nodes into a fresh relation pass |
| StreamRecords.RelationPass.Ingest | arcana/src/lexicon/stream_records.rs:91-113 | relates each record, keeping the first error of edges and of references apart |
| StreamRecords.RelationPass.Finish | arcana/src/lexicon/stream_records.rs:115-123 | the edge error, then the reference error, then the finished facts |
| StreamRecords.OverflowFails | arcana/src/lexicon/stream_records.rs:32-35 | counts that do not fit end in an error |
| StreamRecords.RelateGathers | arcana/src/lexicon/stream_records.rs:91-113 | the relation pass gathers edges and references side by side |
| SnapshotManifest.ReadSnapshotManifest | arcana/src/lexicon/snapshot.rs:110-181 | checks the manifest in the order of the source and builds its index |
| SnapshotManifest.IndexFiles | arcana/src/lexicon/snapshot.rs:151-170 | the file loop checks order, identifiers and language and indexes each file |
| SnapshotManifest.ManifestExact | arcana/src/lexicon/snapshot.rs:133-180 | the metadata of an accepted manifest list exactly its shared objects and files, each once |
| SnapshotManifest.LanguagesAscend | arcana/src/lexicon/snapshot.rs:135-149 | the languages of an accepted manifest ascend strictly |
| SnapshotManifest.IndexInNormalForm | arcana/src/lexicon/snapshot.rs:160-166 | files are indexed under normalised paths |
| SnapshotManifest.AcceptedExact | arcana/src/lexicon/snapshot.rs:110-181 | a manifest is accepted exactly when its identifier is valid, its version is 1, it names a commit, and languages and files are complete, valid, ascending, and no two files of a language come to the same path |
| SnapshotLoad.LoadSnapshot | arcana/src/lexicon/snapshot.rs:46-96 | both passes over all objects compute the specification of a load |
| SnapshotLoad.VisitLanguageNodes | arcana/src/lexicon/snapshot.rs:183-214 | the node visit of a language: its shared object, then its files, validated |
| SnapshotLoad.VisitLanguageRelations | arcana/src/lexicon/snapshot.rs:183-214 | the relation visit of a language |
| SnapshotLoad.FetchObject | arcana/src/lexicon/snapshot.rs:235-265 | an object read and decoded for a selection, whatever its format |
| SnapshotLoad.ObjectAgrees | arcana/src/lexicon/snapshot.rs:235-265 | an object of any format reads in full exactly when both selections do, with the same nodes, edges and references |
| SnapshotLoad.RelationsKeyed | arcana/src/lexicon/binary_v2_reader.rs:193-219 | a key reference of a decoded relation is a node key of the same object |
| SnapshotLoad.ListedExact | arcana/src/lexicon/snapshot.rs:267-300 | an object passes exactly when version, language, adapter, schema, configuration, owner and content identity are those of its entry |
| SnapshotLoad.LoadMatches | arcana/src/lexicon/snapshot.rs:46-96 | after a successful load every listed object can be read and is what its entry says |
| StagedNodes.CollapseInPlace | arcana/src/repository_store/build_stream_nodes.rs:12-39 | the compaction loop leaves the collapsed list in front of the array and returns its length, or the error |
| StagedNodes.CollapseExact | arcana/src/repository_store/build_stream_nodes.rs:12-39 | collapsing succeeds exactly when no key has two identities or signatures, and keeps one node per key in ascending order |
| CompactLoad.VisitObjectExact | arcana/src/lexicon/snapshot_compact_visit.rs:104-166 | visiting an object, streamed or parsed first, succeeds exactly when it can be read, is valid, fits and all its records are accepted |
| CompactLoad.StageSlotsExact | arcana/src/lexicon/stream_compact.rs:34-97 | the node pass succeeds exactly when all objects are read, their counts fit and all nodes convert; it then holds all nodes staged |
| CompactLoad.RelateSlotsExact | arcana/src/lexicon/stream_compact.rs:46-174 | behind a node pass the relation count never exceeds the plan: the pass fails only for what it reads or converts |
| CompactLoad.CanonicalExact | arcana/src/lexicon/stream_compact.rs:99-104 | canonicalising succeeds exactly when no two records disagree, whatever the unstable sort does |
| CompactLoad.MergeableExact | arcana/src/lexicon/stream_compact_node.rs:11-23 | staged nodes may be merged exactly when their records are equal |
| CompactWarnings.CompactCounts | arcana/src/lexicon/stream_compact.rs:48-174 | the warnings of a compact load: one per node record of an unrecognised kind, and those of the relations |
| CompactWarnings.RepeatsExact | arcana/src/lexicon/records.rs:57-71 | the surplus is never negative, and zero exactly when nothing with the property occurs twice |
| DeltaLoad.ChangedPaths | arcana/src/lexicon/metadata.rs:43-74 | the three lists are strictly ascending and hold exactly the added, changed and removed paths |
| DeltaLoad.ChangesCover | arcana/src/lexicon/metadata.rs:38-74 | the three lists together name exactly the paths under which some language has different objects |
| DeltaLoad.DeltaBuilds | arcana/src/lexicon/snapshot_compact.rs:75-122 | building the kept and the newly read records together is building the current snapshot |
| DeltaLoad.PathsSettle | arcana/src/repository/path.rs:26-61 | normalisation settles, and an indexed path is normal exactly when it has no drive prefix |
| DeltaLoad.AnswersExact | arcana/src/lexicon/stream_compact.rs:239-278 | both resolvers give every identity the same answer exactly when the base holds no identity that is gone |
| DeltaLoad.DeltaConverts | arcana/src/lexicon/stream_compact.rs:126-142 | the delta converts all its relations if the full load converts all of its own |
| DeltaLoad.FilterSound | arcana/src/lexicon/snapshot_compact_visit.rs:43-67 | the selected objects of a sound snapshot are sound |
| BaseStore.FullHolds | arcana/src/lexicon/snapshot_compact.rs:44-73 | a store with the nodes of a full load holds every node of the snapshot |
| BaseStore.StagedRecorded | arcana/src/lexicon/stream_compact.rs:70-104 | the nodes the passes of a load leave are recorded ones, under the keys of their identities |
| StoreContents.RewriteExact | arcana/src/repository_store/rewrite_records.rs:35-94 | the store is rewritten exactly when every node of the delta belongs to a changed path |
| StoreContents.NodeOwnerExact | arcana/src/repository_store/build_ownership.rs:147-165 | a node belongs to the file of its span; without one to none if it is a repository, directory, module or namespace, and otherwise to its path if the file name there has an extension |
| StoreContents.UpdatedExact | arcana/src/repository_store/rewrite_records.rs:35-94 | an update keeps exactly the records that belong to none of its paths, and adds those of the delta |
| OwnerSample.TakenWithItsSource | arcana/src/repository_store/build_ownership.rs:113-122 | an edge between two files, without a span: an update of the file of its source takes it away |
| OwnerSample.LeftWithItsTarget | arcana/src/repository_store/build_ownership.rs:113-122 | and one of the file of its target leaves it |
| UpdateCompare.LoadWarnings | arcana/src/lexicon/snapshot_compact.rs:75-122 | the incremental and the full load count the same warnings exactly when the kept records give none |
| UpdateCompare.DeltaReads | arcana/src/lexicon/snapshot_compact.rs:75-122 | the delta holds and warns of the records at the paths that differ, the full load of the kept ones too |
| UpdateCompare.UpdateOverAny | arcana/src/cli_sync_build.rs:206-306 | over any base, what an update stores is what a rebuild would exactly when what it leaves of the base and the kept records agree up to what is read |
| RepositoryPath.NormalizePath | arcana/src/repository/path.rs:26-56 | the loop computes the normal form or the error |
| RepositoryPath.NormalizeExact | arcana/src/repository/path.rs:26-56 | a path is accepted exactly when it is not empty, not absolute, and without zero bytes, parent components and control characters; its normal form has the components that are neither empty nor ".", in order, or is "." |
| RepositoryPath.NormalizeTwice | arcana/src/repository/path.rs:26-61 | a normal form is a fixed point unless it begins with a drive prefix, which is then refused |
| RepositoryPath.DriveExposed | arcana/src/repository/path.rs:36-39 | a path whose normal form is refused |
| FactText.EncodeFacts | arcana/src/repository/fact_encode.rs:6-51 | the loops append the canonical text |
| FactText.EncodeUnresolvedFacts | arcana/src/repository/fact_encode.rs:54-63 | the text of unresolved references alone |
| FactText.PushField | arcana/src/repository/fact_encode.rs:103-114 | appends the escaped field |
| FactText.PushSpan | arcana/src/repository/fact_encode.rs:82-97 | appends the five fields of a span or five dashes |
| FactText.EscapeClean | arcana/src/repository/fact_encode.rs:103-114 | an escaped field holds no raw tab, newline, carriage return or NUL |
| FactParse.UnescapeField | arcana/src/repository/fact_file.rs:203-227 | unescaping undoes escaping |
| FactParse.LineFields | arcana/src/repository/fact_file.rs:40-52 | the fields of an encoded line are those of its row |
| FactParse.LinesEncoded | arcana/src/repository/fact_file.rs:16-28 | the lines of an encoded text are its header and its rows |
| FactParse.NodeParsed | arcana/src/repository/fact_file.rs:64-124 | a node is read back from its row exactly when it is encodable |
| FactParse.EdgeParsed | arcana/src/repository/fact_file.rs:126-136 | the same for an edge |
| FactParse.UnresolvedParsed | arcana/src/repository/fact_file.rs:138-154 | the same for an unresolved reference |
| FactParse.SpanParsed | arcana/src/repository/fact_file.rs:156-176 | a span is read back exactly when its path is normal and not the dash |
| Numerals.HexRoundTrip | arcana/src/repository/fact_encode.rs:116-118 | every u64 is read back from its sixteen digits |
| Numerals.DecimalRoundTrip | arcana/src/repository/fact_file.rs:193-197 | every number below the limit is read back from its decimal text |
| SyncPlan.SecondSyncExisting | arcana/src/cli_sync_build.rs:188-204 | a sync over a complete generation plans `Existing` and changes nothing |
| SyncPlan.WrittenOpens | arcana/src/cli_sync_build.rs:206-306 | whatever is planned, what is written opens exactly if it is a rebuild or a coherent overlay |
| SyncPlan.OverlayOpens | arcana/src/repository/repository_snapshot_validation.rs:13-52 | an overlay opens exactly if the links of base and delta fit the packed base |
| SyncPlan.OpensExactly | arcana/src/repository/repository_snapshot_validation.rs:13-52 | after a sync that succeeds `CURRENT` names a complete generation exactly when it was found, rebuilt, or written as an overlay of a base and a delta that fit |
| SyncPlan.WarningsPublished | arcana/src/cli_sync_build.rs:171-176 | the warnings that a sync leaves and reports are those of the full load after a rebuild, those of the delta after an update, and otherwise those it finds |
| SyncPlan.FilesPublished | arcana/src/cli_sync_build.rs:154-186 | a generation holds the full load compiled after a rebuild, the rewritten store, the graph and the manifest after an update, and otherwise what was found, under the identity of its snapshot |
| SyncPlan.PlanExact | arcana/src/cli_sync_build.rs:90-152 | each reason for a rebuild is planned exactly when it applies, an update exactly when none does, and nothing exactly over a complete generation |
| SyncPlan.RebuiltWhen | arcana/src/cli_sync_build.rs:256-274 | an update turns into a rebuild exactly when the store is corrupt or the paths own other nodes than before, and for this reason |
| UpdateCompare.PlannedDelta | arcana/src/cli_sync_build.rs:255 | the delta of a planned update holds what is recorded at the paths that differ, with one node for each key |
| StoreContents.OverlaidUpdate | arcana/src/repository/repository_update_base.rs:89-91 | over a generation that opens, an update fits exactly when no kept edge is a link it removes, the links it adds are new to the packed base, and the overlay in place changed only links that it adds again and a kept edge holds |
| SyncPlan.NotComplete | arcana/src/cli_sync_build.rs:188-204 | only a generation that is not complete is ever replaced |
| SyncPlan.ExistingComplete | arcana/src/cli_sync_build.rs:188-204 | `Existing` is planned only for a complete generation |
| SyncPlan.IncrementalOpens | arcana/src/cli_sync_build.rs:101-151 | an update is planned only without output and over a previous generation that opens for it |
| SyncPlan.DriveDecides | arcana/src/cli_sync_build.rs:255 | the delta of a planned update loads exactly when no such path is in the way |
| SyncPlan.WrittenRemembers | arcana/src/cli_sync_build.rs:206-306 | whatever is planned and written for a snapshot, its store holds every node of the snapshot |
| SyncPlan.IncrementalSyncs | arcana/src/cli_sync_build.rs:120-151 | an update is planned over exactly the paths that differ, and over a store with the nodes of the previous snapshot |
| SyncPlan.UpdateExact | arcana/src/cli_sync_build.rs:233-306 | an update that meets no I/O error succeeds exactly when its delta loads and is not refused |
| SyncPlan.SecondSyncRebuilds | arcana/src/cli_sync_build.rs:188-204 | a further sync of a snapshot whose generation does not open rebuilds it |
| SyncPlan.OtherSyncUpdates | arcana/src/cli_sync_build.rs:108-151 | a sync of another snapshot plans an update over what `CURRENT` names, whether that opens or not |
| SyncPlan.HeldThrough | arcana/src/repository_store/rewrite_records.rs:48-71 | replacing nodes by others of the same keys loses no identity, as identities have keys of their own |
| SyncProtocol.StepSafe | arcana/src/cli_sync.rs:18-67 | every step keeps the invariant, as far as what is finished is trusted, and every complete generation |
| SyncProtocol.PastLockStep | arcana/src/cli_sync_build.rs:154-204 | a step past the lock concerns the disk and one process, which knows what its next phase rests on |
| SyncProtocol.AroundLockStep | arcana/src/cli_sync_state.rs:13-31 | starting, locking, being refused and stopping leave the disk alone and the lock exclusive |
| SyncProtocol.RemovingStep | arcana/src/cli_sync.rs:40-43 | removal entry by entry never touches a complete generation |
| SyncProtocol.BuildingStep | arcana/src/cli_sync_build.rs:165-184 | a rename puts in place what the writers finished, under its name |
| SyncProtocol.PublishingStep | arcana/src/cli_sync.rs:92-95 | `CURRENT` is only ever replaced by the identity of a generation in place |
| SyncProtocol.CompleteSurvive | arcana/src/cli_sync.rs:40-43 | between two points of any run no complete generation is lost or altered, whatever the writers leave |
| SyncRefinement.TraceSafe | arcana/src/cli_sync.rs:18-67 | a run from a consistent disk is safe wherever it is stopped |
| SyncRun.MergePaths | arcana/src/cli_sync_build.rs:128-133 | the merged list holds exactly the paths under which some object differs, ascending |
| SyncRun.StateDirectory.constructor | arcana/src/cli_sync.rs:18-23 | an empty state directory, not locked |
| SyncRun.StateDirectory.Acquire | arcana/src/cli_sync_state.rs:13-24 | takes the lock, or is refused while it is held |
| SyncRun.StateDirectory.Release | arcana/src/cli_sync_state.rs:27-31 | gives the lock back |
| SyncRun.StateDirectory.Plan | arcana/src/cli_sync_build.rs:90-152 | decides as specified, in the order of the source |
| SyncRun.StateDirectory.PlanFrom | arcana/src/cli_sync_build.rs:108-151 | decides between an update of the previous generation and a rebuild |
| SyncRun.StateDirectory.WriteOverlay | arcana/src/cli_sync_build.rs:276-305 | refuses or writes store, graph and manifest in turn, and never begins a rebuild |
| SyncRun.StateDirectory.WriteRebuild | arcana/src/cli_sync_build.rs:223-231 | writes a full load with its warnings, and records after how many steps it began |
| SyncRun.StateDirectory.Build | arcana/src/cli_sync_build.rs:154-186 | builds in a fresh temporary directory and renames it, or removes it again |
| SyncRun.StateDirectory.PublishCurrent | arcana/src/cli_sync_state.rs:33-49 | replaces `CURRENT`, or fails on a leftover file of the same process number and removes it |
| SyncRun.StateDirectory.ClearOutput | arcana/src/cli_sync.rs:40-43 | removes an output directory that is in the way, which is not complete |
| SyncRun.StateDirectory.Place | arcana/src/cli_sync_build.rs:177-184 | writes `lexicon.snapshot` and the warnings and renames the directory |
| SyncRun.StateDirectory.RemoveOutput | arcana/src/cli_sync.rs:40-43 | removes the output directory in the way |
| Reader.Reader.Uvarint | arcana/src/lexicon/binary_v2_reader.rs:37-50 | reads what the specification of a variable-length integer reads and moves behind it; no arithmetic overflows and the error behind the loop is unreachable |
| Reader.Reader.Count | arcana/src/lexicon/binary_v2_reader.rs:52-62 | an integer up to a limit |
| Reader.Reader.Byte | arcana/src/lexicon/binary_v2_reader.rs:64-72 | the next byte or truncation |
| Reader.Reader.Take | arcana/src/lexicon/binary_v2_reader.rs:74-89 | exactly the next bytes of a length or truncation |
| Reader.Reader.Bytes | arcana/src/lexicon/binary_v2_reader.rs:91-103 | a length-prefixed byte string up to a limit |
| Reader.Reader.StringTable | arcana/src/lexicon/binary_v2_reader.rs:105-141 | the front-coded strings, each valid UTF-8 and within the limit, the first empty |
| Reader.Reader.StringRef | arcana/src/lexicon/binary_v2_reader.rs:143-155 | a string of the table by index |
| Reader.Reader.CompactIdentity | arcana/src/lexicon/binary_v2_reader.rs:157-173 | an identity, raw or by string |
| Reader.Reader.SkipIdentity | arcana/src/lexicon/binary_v2_reader.rs:175-191 | moves over an identity without parsing it |
| Reader.Reader.NodeRef | arcana/src/lexicon/binary_v2_reader.rs:193-219 | a reference to a node key of the same object or to an external identity |
| Reader.Reader.CodeOrString | arcana/src/lexicon/binary_v2_reader.rs:221-246 | a common label by code or any string |
| Reader.Reader.Factored | arcana/src/lexicon/binary_v2_reader.rs:267-288 | the empty text, the owner of the object, or a string of the table, by the factor |
| Reader.Reader.QualifiedName | arcana/src/lexicon/binary_v2_reader.rs:305-333 | a qualified name, possibly derived from name and path |
| Reader.Reader.Attributes | arcana/src/lexicon/binary_v2_reader.rs:350-357 | optional attribute bytes |
| Reader.Reader.Span | arcana/src/lexicon/binary_v2_reader.rs:364-392 | an optional source span |
| Reader.Reader.Finish | arcana/src/lexicon/binary_v2_reader.rs:409-416 | succeeds only at the end of the bytes |
| Reader.VarintFits | arcana/src/lexicon/binary_v2_reader.rs:37-50 | a decoded integer is below 2^64 and takes one to ten bytes |
| BinaryDecode.DecodeNodes | arcana/src/lexicon/binary_v2.rs:212-245 | the node loop reads the records of the section, all of it |
| BinaryDecode.DecodeNodeKeys | arcana/src/lexicon/binary_v2.rs:247-267 | the key loop reads the keys of the section, all of it |
| BinaryDecode.DecodeEdges | arcana/src/lexicon/binary_v2.rs:269-291 | the edge loop reads the records of the section, all of it |
| BinaryDecode.DecodeUnresolved | arcana/src/lexicon/binary_v2.rs:293-318 | the loop of unresolved references reads the records of the section, all of it |
| BinaryDecode.ParseEnvelope | arcana/src/lexicon/binary_v2.rs:148-206 | reads header, external references and sections, and the counts of the sections |
| BinaryDecode.ParseBinaryObjectSelected | arcana/src/lexicon/binary_v2.rs:67-129 | decodes the selected sections and returns records, metadata and counts |
| CompactVisit.AllSlots | arcana/src/lexicon/snapshot_compact_visit.rs:18-41 | the full visits go through every shared object and file in manifest order |
| CompactVisit.SelectedSlots | arcana/src/lexicon/snapshot_compact_visit.rs:43-67 | the selected visits go through exactly the files at the selected paths, never a shared object |
| CompactVisit.NodePassOver | arcana/src/lexicon/snapshot_compact_visit.rs:18-41 | the node visits compute the node pass |
| CompactVisit.RelationPassOver | arcana/src/lexicon/snapshot_compact_visit.rs:69-102 | the relation visits compute the relation pass |
| CompactVisit.LoadCompactSnapshot | arcana/src/lexicon/snapshot_compact.rs:44-73 | the phases compute the specification of the compact load |
| CompactVisit.LoadCompactDelta | arcana/src/lexicon/snapshot_compact.rs:75-122 | the phases compute the specification of the incremental load |

## Left out

- File, lock and rename calls, timestamps and profiling output are abstract steps. A process may stop between steps; loss of power, which could undo completed writes, is not modelled.
- Registration of the consumer, `.gitignore` editing and the texts `run_sync` prints: the publication does not rest on them.
- SyncRun.StateDirectory.Build: removals succeed and a failed build removes its directory entirely; a removal that stops half-way is a step of `SyncProtocol`.
- SHA-256, `node_key`, content identifiers and dataset checksums are opaque functions.
- JSON and binary v1 objects, and the branch of `parse_facts` for input that begins with a brace, are opaque or not modelled; only the verified content of a file is.
- Parsing and printing of labels: `NodeKind`, `RelationKind` and `UnresolvedReason` are their positions in the declaration, and the two tables of reasons (by name in the facts, by code in the store) are one function.
- ObjectWriter.WriterReadBack: the tables of strings and of external references are given, in any order; the source sorts the first and fills the second by first use. Identities are digests, so the text form of others is not written.
- Lexicon's own decoder, and the older formats it writes no more.
- The string arena of the compact loader, its capacity errors and the reservations of memory.
- The files of stores, packed graphs and overlays: `StoreContents` has what they hold and `SyncPlan.Oracle` the files. The size limits of their formats are not modelled.
- SyncPlan.PlanSnapshot: the reading of `lexicon.snapshot` and `CURRENT` is their trimmed text.
- SyncProtocol.Recovers: assumes a process number without a leftover `CURRENT` file, as the source fails once on such a file before removing it.
- Ordering, limiting and rendering of the communities and of all query responses.
- ArchitectureSummary.Summarise: the selection by path prefix and the parsing of relation names come before it.
- PathSearch.Paths: the rendering of paths and the bounds put on depth and limit come around it.
- The iteration order of ordered sets inside `connected_components`, which its result does not depend on.
- Paging, exact-name lookup, statistics, graph export, analysis queries, embeddings, benchmarks and the Python and Go scripts.

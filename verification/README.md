# A verified model of the Docker 1.10 migrator's core

The migrator moves images from Docker's old store to the content-addressed one. Its
own `main` package is thin; the state it depends on lives in the vendored Docker
packages it drives. This project models these in Dafny and proves what their users
rely on. `dafny verify dfyconfig.toml` checks all of it.

- **Layer store** (`Layer.dfy`, `LayerState.dfy`, `LayerStore.dfy`, `LayerSteps.dfy`,
  `LayerRuns.dfy`, `LayerRestart.dfy`, `ChainID.dfy`). Read-only layers form a forest
  keyed by chain ID, with reference counts kept by hand. Every stretch of code that runs
  under a lock is one method of `LayerStore`, which is one atomic step; a call between two steps is
  in `frames`. `LayerState.dfy` has the invariant and the effect of every elementary
  change as values, and the release cascade as a function; the methods are proved
  against these. `LayerSteps.dfy` says what each step of a call does, and what this means
  for runs; `LayerRuns.dfy` runs any interleaving of any calls with any failures.
  `LayerRestart.dfy` rebuilds a store from its metadata.
- **Digest set** (`DigestSet.dfy`, `Digests.dfy`, `Strings.dfy`). A sorted list with
  binary search, prefix lookup and the generator of short codes.
- **Contexts** (`Context.dfy`, `ContextRuns.dfy`). The cancellation tree over a mutable
  graph, one call after the other; and overlapping cancel calls as steps between which
  the locks of a path are held.
- **Image store** (`ImageStore.dfy`), over its backend, the digest set and the layer
  store, and the **reference store** (`ReferenceStore.dfy`). Both keep an index that
  must stay the exact inverse of something simpler.
- **Command-line parser** (`Pflag.dfy`, `PflagErrors.dfy`), with the printer that it
  inverts and the faults that it reports.
- **Control messages** (`Sockcmsg.dfy`) and **counted device mounts**
  (`Devicemapper.dfy`).

Failures of the outside (drivers, files, the metadata store, saving) are parameters
that range over all choices. The digest function is a parameter of which nothing is
assumed; where a result needs it to be free of collisions, the collision is given.

Some of what the code does is not what one might expect. It is kept as it is:

- `Set.Lookup` tests only one position and its neighbour, so a query with an algorithm
  can miss its match in a set of several algorithms. `MatchesInFront` is the exact
  condition, and `QualifiedLookupCanMiss` an instance.
- `ShortCodeTable` can give an ambiguous code when one hex is the beginning of exactly
  one other, which takes two algorithms (`ShortCodeCanBeAmbiguous`). For a given set and
  length, `AmbiguousAfter` is the exact condition, entry by entry.
- A stack of layers whose bottom is replaced by its chain ID has the same chain ID.
- `CreateRWLayerByGraphID` dereferences the parent of an existing mount that has none.
- `SetParent` changes the children maps before it writes the link, so they disagree if
  the link is not written. `Delete` ignores the backend's errors; the exact condition
  under which nothing is left behind is part of its contract.
- `Create` stores the configuration before it gets the layers. If these are missing the
  configuration stays, and `restore` then fails as a whole until they are there; if the
  ID is refused, for good (`RestoreNeeds`).
- A configuration without `rootfs` makes `Create` panic.
- The reference store's index survives a reload exactly if every stored string parses
  to a reference that prints as it. Normalising strips a host and `library/` once, so
  `library/library/x` is stored as `library/x`, which is read back as `x`; `IsNormal` is
  the exact condition on the stored names.
- `ParseSocketControlMessage` panics on a length that ends in the padding after the
  header, and on one that is negative as an int; `ParseUnixRights` on data whose length
  is not a multiple of four.
- A failing `Tar` without a parent, and a failing fallback directory, leave a device
  mounted for good: `LeakedBy` says exactly which steps do, `LostForGood` that nothing
  brings the count back.

## Model

| member | source | states |
|---|---|---|
| `ChainIDs.ChainIDsCompose` | Godeps/_workspace/src/github.com/docker/docker/layer/layer.go:228-238 | Folding a stack of diff IDs equals folding its lower part and going on from that chain ID |
| `ChainIDs.TopOfChain` | Godeps/_workspace/src/github.com/docker/docker/layer/layer.go:228-238 | A chain ID is the digest of "the chain ID below, a space, the top diff ID", as the image specification writes it; for a single layer it is the diff ID |
| `ChainIDs.ChainIDIsPlain` | Godeps/_workspace/src/github.com/docker/docker/layer/layer.go:228-238 | If digests are non-empty and free of spaces, so is every chain ID of a stack of such diff IDs: the separator stays unambiguous |
| `ChainIDs.EqualChainIDs` | Godeps/_workspace/src/github.com/docker/docker/layer/layer.go:223-238 | Two stacks with equal chain IDs are equal, or a collision of the digest function is produced from them, or one is the other with its bottom collapsed to the chain ID; of equal length they are equal or collide |
| `ChainIDs.CollapsedStackHasSameChainID` | Godeps/_workspace/src/github.com/docker/docker/layer/layer.go:228-238 | The exception is real: replacing the bottom of a stack by its chain ID as a diff ID does not change the chain ID |
| `LayerStates.NewChainIDIsOfStack` | Godeps/_workspace/src/github.com/docker/docker/layer/layer_store.go:291-316 | The key Register makes from the parent's chain ID is the chain ID of the whole stack of the new layer |
| `LayerStates.GraphIDKeyIsTheSame` | Godeps/_workspace/src/github.com/docker/docker/layer/migration.go:170-179 | RegisterByGraphID, which starts from the parent ID as asked for, makes the same key as Register |
| `Layers.RoLayer.Depth` | Godeps/_workspace/src/github.com/docker/docker/layer/ro_layer.go:104-109 | Counts the layers of the whole ancestry |
| `Layers.RoLayer.Size` | Godeps/_workspace/src/github.com/docker/docker/layer/ro_layer.go:59-68 | Adds up the ancestry's sizes: their sum if that fits in a signed 64-bit integer, and else such an integer off by a multiple of 2^64 |
| `Layers.TotalSizeIsSum` | Godeps/_workspace/src/github.com/docker/docker/layer/ro_layer.go:59-68 | The recursion over parents is the plain sum of all sizes of the stack if that fits in a signed 64-bit integer, and else one that differs from it by a multiple of 2^64 |
| `Layers.AncestryLinks` | Godeps/_workspace/src/github.com/docker/docker/layer/ro_layer.go:52-68 | Each layer of an ancestry is the parent of the one before, and has the rest of the list as its own ancestry |
| `Layers.MountedLayer.DeleteReference` | Godeps/_workspace/src/github.com/docker/docker/layer/mounted_layer.go:85-97 | Refused of a reference that is not registered or is in use; else the reference is released and no longer registered |
| `Layers.RWReference.Release` | Godeps/_workspace/src/github.com/docker/docker/layer/mounted_layer.go:106-117 | Only a reference that is not in use is released, for good (-1) |
| `Layers.RWReference.Mount` | Godeps/_workspace/src/github.com/docker/docker/layer/mounted_layer.go:119-129 | Counts a use unless the reference was released |
| `Layers.RWReference.Unmount` | Godeps/_workspace/src/github.com/docker/docker/layer/mounted_layer.go:131-144 | Takes back a use; refused of an unused or released reference |
| `LayerStates.TakeKeeps` | Godeps/_workspace/src/github.com/docker/docker/layer/layer_store.go:319-334 | Counting a layer for a call keeps the invariant: every count is exactly handles + children + other holders, the map is closed under parents, keys are the chain IDs of the stacks, the metadata says the same |
| `LayerStates.DropKeeps` | Godeps/_workspace/src/github.com/docker/docker/layer/layer_store.go:366-376 | Giving up a hold keeps the invariant, and the count was positive: the panic for a layer that is not retained cannot happen |
| `LayerStates.HoldToHandleKeeps` | Godeps/_workspace/src/github.com/docker/docker/layer/ro_layer.go:82-89 | Turning a call's hold into a handle keeps the invariant |
| `LayerStates.HandleToHoldKeeps` | Godeps/_workspace/src/github.com/docker/docker/layer/ro_layer.go:91-102 | Taking a handle back keeps the invariant, the handle's share of the count passing to the call |
| `LayerStates.PassKeeps` | Godeps/_workspace/src/github.com/docker/docker/layer/layer_store.go:417-470 | A call's hold becoming a mount's, or back, keeps the invariant |
| `LayerStates.NobodyHolds` | Godeps/_workspace/src/github.com/docker/docker/layer/layer_store.go:345-390 | A count of zero means no handles, no children, no other holder: the panics for a retained layer and for a layer with handles cannot happen |
| `LayerStates.DeleteKeeps` | Godeps/_workspace/src/github.com/docker/docker/layer/layer_store.go:345-390 | Removing an unheld layer, its hold on the parent passing on, keeps the invariant |
| `LayerStates.InsertKeeps` | Godeps/_workspace/src/github.com/docker/docker/layer/layer_store.go:297-316 | Committing and entering a new layer keeps the invariant |
| `LayerStates.Released` | Godeps/_workspace/src/github.com/docker/docker/layer/layer_store.go:366-399 | Releasing keeps the invariant whatever fails part-way, and takes away exactly the one hold |
| `LayerStates.ReleasedIsRun` | Godeps/_workspace/src/github.com/docker/docker/layer/layer_store.go:366-399 | What is removed is a run of ancestors from the released layer, children first, each with a count of one; the run ends at the bottom, at a layer with another holder or at a failure, where one is taken from the count; nothing else changes |
| `LayerStates.SolelyHeldMeansOne` | Godeps/_workspace/src/github.com/docker/docker/layer/layer_store.go:366-399 | Along the ancestry of a held layer a count of one means exactly: no holder but the child before it, or the release itself |
| `LayerStates.ReleasedKeepsHeld` | Godeps/_workspace/src/github.com/docker/docker/layer/layer_store.go:366-399 | A release leaves every layer that anybody else holds in the store, with its handles |
| `LayerStates.ReportTelescopes` | Godeps/_workspace/src/github.com/docker/docker/layer/layer_store.go:345-399 | In the returned metadata each size is the layer's own size plus the next reported size, in plain addition if that fits in 64 bits |
| `LayerStates.ReportIsSums` | Godeps/_workspace/src/github.com/docker/docker/layer/layer_store.go:345-399 | Each reported size is the sum of the sizes of the removed layer's whole stack, under the same bound |
| `LayerStates.AncestryInMap` | Godeps/_workspace/src/github.com/docker/docker/layer/layer_store.go:230-316 | With a layer, its whole ancestry is in the map |
| `LayerStates.ReleasedLeavesNoneUnheld` | Godeps/_workspace/src/github.com/docker/docker/layer/layer_store.go:366-399 | Without failures a release leaves no layer behind that nothing holds |
| `LayerStates.UnusedIsEmpty` | Godeps/_workspace/src/github.com/docker/docker/layer/layer_store.go:366-399 | A store that leaves no layer unheld is empty when nothing from outside holds any: nothing leaks |
| `LayerStores.LayerStore.constructor` | Godeps/_workspace/src/github.com/docker/docker/layer/layer_store.go:72-80 | An empty store meets the invariant |
| `LayerStores.LayerStore.GetWithoutLock` | Godeps/_workspace/src/github.com/docker/docker/layer/layer_store.go:319-328 | Counts the layer under the ID for the caller, if there is one |
| `LayerStores.LayerStore.ReleaseOne` | Godeps/_workspace/src/github.com/docker/docker/layer/layer_store.go:366-396 | One round of the loop: releasing equals this round's layer followed by releasing the rest |
| `LayerStores.LayerStore.ReleaseLayer` | Godeps/_workspace/src/github.com/docker/docker/layer/layer_store.go:366-399 | The loop does what Released says, reports exactly the removed layers, and returns no report with an error |
| `LayerStores.LayerStore.GetBegin` | Godeps/_workspace/src/github.com/docker/docker/layer/layer_store.go:330-343 | First step of Get: counted, no handle yet; the invariant holds in between |
| `LayerStores.LayerStore.GetFinish` | Godeps/_workspace/src/github.com/docker/docker/layer/layer_store.go:336-343 | Second step of Get: a fresh live handle on that layer, the count unchanged |
| `LayerStores.LayerStore.RegisterBegin` | Godeps/_workspace/src/github.com/docker/docker/layer/layer_store.go:230-262 | First step of Register and RegisterByGraphID: an unknown parent is an error without effect; the depth limit of Register counts the whole ancestry |
| `LayerStores.LayerStore.RegisterAbort` | Godeps/_workspace/src/github.com/docker/docker/layer/layer_store.go:238-289 | After an error the counted parent is still to be released |
| `LayerStores.LayerStore.RegisterFinish` | Godeps/_workspace/src/github.com/docker/docker/layer/layer_store.go:291-316 | Last step: of a layer that is there already one more handle, and the parent is still to be released; if the commit fails nothing changes; else the new layer enters with one handle, taking over the hold on its parent |
| `LayerStores.LayerStore.CleanUp` | Godeps/_workspace/src/github.com/docker/docker/layer/layer_store.go:247-254 | The deferred release of the parent is a release of that one hold |
| `LayerStores.LayerStore.Release` | Godeps/_workspace/src/github.com/docker/docker/layer/layer_store.go:401-415 | An unknown chain ID is no error, a handle that is not registered is refused, both without effect; a live handle is released with what only it held |
| `LayerStores.LayerStore.CreateRWBegin` | Godeps/_workspace/src/github.com/docker/docker/layer/layer_store.go:417-440 | A taken name or unknown parent is refused without effect; else the parent is counted and mountL kept |
| `LayerStores.LayerStore.CreateRWAbort` | Godeps/_workspace/src/github.com/docker/docker/layer/layer_store.go:433-440 | An error gives the counted parent back while mountL is still held |
| `LayerStores.LayerStore.CreateRWFinish` | Godeps/_workspace/src/github.com/docker/docker/layer/layer_store.go:441-470 | The mount is saved under its name and enters with one reference (or none, by graph ID); the call's hold on the parent is now the mount's |
| `LayerStores.LayerStore.CreateRWByGraphIDBegin` | Godeps/_workspace/src/github.com/docker/docker/layer/migration.go:19-45 | Which of the refusals an existing name, a missing graph ID or parent meets, in the code's order, including the dereference of a missing parent |
| `LayerStores.LayerStore.GetRWLayer` | Godeps/_workspace/src/github.com/docker/docker/layer/layer_store.go:472-481 | A new reference, unused and registered, of the mount of that name |
| `LayerStores.LayerStore.ReleaseRWBegin` | Godeps/_workspace/src/github.com/docker/docker/layer/layer_store.go:483-517 | The reference is refused, or released for good; the mount leaves the store exactly if that was its last reference and it could be removed, its hold passing to the call |
| `LayerStores.LayerStore.ReleaseRWFinish` | Godeps/_workspace/src/github.com/docker/docker/layer/layer_store.go:518-525 | Then the parent is released, and mountL given up |
| `LayerStores.LayerStore.UseRWLayer` | Godeps/_workspace/src/github.com/docker/docker/layer/mounted_layer.go:119-144 | Uses of references keep the invariant; a released reference stays released |
| `LayerRuns.CountIsWhatHolds` | Godeps/_workspace/src/github.com/docker/docker/layer/ro_layer.go:82-102 | At any moment of any run a layer's referenceCount is the number of its live handles, child layers, mounts and calls in progress that counted it |
| `LayerRuns.LiveHandleKeepsAncestry` | Godeps/_workspace/src/github.com/docker/docker/layer/layer_store.go:366-399 | A live handle keeps its layer and every layer below in the store |
| `LayerRuns.MountInUseStays` | Godeps/_workspace/src/github.com/docker/docker/layer/mounted_layer.go:72-144 | A reference with a positive count keeps its mount in the store, is registered there, and keeps the whole parent chain in the store |
| `LayerRuns.UnusedStoreIsEmpty` | Godeps/_workspace/src/github.com/docker/docker/layer/layer_store.go:366-399 | With no calls, mounts or handles left, a store that left no layer unheld is empty, and so is its metadata |
| `LayerRuns.Do` | Godeps/_workspace/src/github.com/docker/docker/layer/layer_store.go:230-525 | Any one step of any call does to calls, counts, handles, layers, mounts and their references exactly what its code does, or nothing if the call is not at that place; it keeps the invariant, every live handle it does not release and every other call's place |
| `LayerRuns.Run` | Godeps/_workspace/src/github.com/docker/docker/layer/layer_store.go:230-525 | Every interleaving of the steps of all calls, with any failures, is a trace of such steps; it keeps the same, and without failures it leaves no layer unheld |
| `LayerSteps.StepMakesLive` | Godeps/_workspace/src/github.com/docker/docker/layer/layer_store.go:230-415 | A step makes live exactly the handle it hands out, and ends exactly the one it releases |
| `LayerSteps.LiveUntilReleased` | Godeps/_workspace/src/github.com/docker/docker/layer/layer_store.go:230-415 | In any run a handle is live at the end exactly if it was live before or was handed out, and no step released it |
| `LayerSteps.HandsOutExactly` | Godeps/_workspace/src/github.com/docker/docker/layer/layer_store.go:291-343 | A handle is handed out exactly by the end of a Get, on the layer counted, and by that of a Register whose layer is there or is committed, on its chain ID; it is live |
| `LayerSteps.EntersExactly` | Godeps/_workspace/src/github.com/docker/docker/layer/layer_store.go:297-316 | A layer enters the store exactly by the end of a Register that commits it |
| `LayerSteps.BeginsExactly` | Godeps/_workspace/src/github.com/docker/docker/layer/layer_store.go:230-525 | A call comes to be in progress exactly if its names and parent are in order and mountL is free where it is needed |
| `LayerSteps.FinishEnds` | Godeps/_workspace/src/github.com/docker/docker/layer/layer_store.go:238-525 | The last step of a call ends it; a Register that fails still has its parent to release |
| `LayerSteps.StepUses` | Godeps/_workspace/src/github.com/docker/docker/layer/mounted_layer.go:119-144 | A reference's uses go up and down one by one, and while in use it stays one of its mount in the store |
| `LayerSteps.StepReleasesMount` | Godeps/_workspace/src/github.com/docker/docker/layer/layer_store.go:486-525 | A reference not in use is released for good, and the mount goes with the last one if it can be removed |
| `LayerSteps.UsedMountStays` | Godeps/_workspace/src/github.com/docker/docker/layer/layer_store.go:486-525 | In any run a mount reference with more uses than are ended in it stays in use and keeps its mount in the store |
| `LayerRuns.EverythingReturned` | Godeps/_workspace/src/github.com/docker/docker/layer/layer_store.go:230-525 | A run without failures from an empty store, whose calls have ended, whose mounts are gone and whose handles were all released, leaves the store and its metadata empty |
| `LayerRuns.GetAmongOthers` | Godeps/_workspace/src/github.com/docker/docker/layer/layer_store.go:336-343 | Get gives a live handle on the layer asked for whatever other calls do between its two steps |
| `LayerRuns.ReleaseLive` | Godeps/_workspace/src/github.com/docker/docker/layer/layer_store.go:401-415 | After releasing a live handle it is not live, and every other handle still is; what is released and returned is that of the handle's share of the count |
| `LayerRestarts.Loader.LoadLayer` | Godeps/_workspace/src/github.com/docker/docker/layer/layer_store.go:105-151 | A layer loads exactly if its whole ancestry can be read; then exactly its stack is added, as stored, and a failed load adds nothing |
| `LayerRestarts.Loader.LoadMount` | Godeps/_workspace/src/github.com/docker/docker/layer/layer_store.go:153-194 | A mount loads exactly if it and its parent's ancestry can be read, and adds one to its parent's count |
| `LayerRestarts.NewStoreFromGraphDriver` | Godeps/_workspace/src/github.com/docker/docker/layer/layer_store.go:72-103 | For any lists: what is loaded, and that each count is the number of times children are listed plus the mounts on the layer |
| `LayerRestarts.LoadedAreReadable` | Godeps/_workspace/src/github.com/docker/docker/layer/layer_store.go:72-151 | With every readable parent listed, exactly the listed layers with readable ancestry are loaded |
| `LayerRestarts.LoadedCounts` | Godeps/_workspace/src/github.com/docker/docker/layer/layer_store.go:88-103 | With distinct IDs too, each count is the number of loaded child layers and mounts |
| `LayerRestarts.OrderDoesNotMatter` | Godeps/_workspace/src/github.com/docker/docker/layer/layer_store.go:72-103 | The order of the lists does not matter: same layers, same descriptions, same counts, same mounts |
| `LayerRestarts.CommittedIsReadable` | Godeps/_workspace/src/github.com/docker/docker/layer/ro_layer.go:111-128 | Everything a running store has committed can be read back |
| `LayerRestarts.ReloadedLayer` | Godeps/_workspace/src/github.com/docker/docker/layer/layer_store.go:105-151 | Reloading what a running store committed gives every layer the diff ID, size, cache ID and parent it had |
| `LayerRestarts.ReloadedMount` | Godeps/_workspace/src/github.com/docker/docker/layer/layer_store.go:153-194 | And every mount its IDs and parent |
| `LayerRestarts.ReloadedCount` | Godeps/_workspace/src/github.com/docker/docker/layer/layer_store.go:88-103 | Each reloaded count is the old one less the live handles and the calls in progress |
| `LayerRestarts.ReloadedIsSound` | Godeps/_workspace/src/github.com/docker/docker/layer/layer_store.go:72-103 | The reloaded layers meet the whole invariant again, chain IDs included |
| `LayerRestarts.Restart` | Godeps/_workspace/src/github.com/docker/docker/layer/layer_store.go:72-103 | So a store stopped at any moment and restarted from its committed metadata is a valid store with the same metadata, from which runs can go on |
| `Digests.ValidExactly` | Godeps/_workspace/src/github.com/docker/distribution/digest/digest.go:85-113 | Valid are exactly the strings of `sha256:`, `sha384:` or `sha512:` and 64, 96 or 128 hexadecimal characters |
| `Digests.RefusedExactly` | Godeps/_workspace/src/github.com/docker/distribution/digest/digest.go:85-113 | Which error every other string with a colon gets: the format by what is before and behind the first colon, the length for a known algorithm only |
| `Digests.HexFixesDigest` | Godeps/_workspace/src/github.com/docker/distribution/digest/digest.go:85-125 | Among valid digests the hex alone fixes the digest, because the algorithms have different lengths |
| `Digests.ComposedDigest` | Godeps/_workspace/src/github.com/docker/distribution/digest/digest.go:43-45 | A known algorithm and a hex of its length make a valid digest with these parts |
| `Digests.DigestParts` | Godeps/_workspace/src/github.com/docker/distribution/digest/digest.go:117-139 | A digest is its algorithm, a colon and its hex |
| `Digests.NoColonNoDigest` | Godeps/_workspace/src/github.com/docker/distribution/digest/digest.go:85-95 | A string without a colon is refused for its format, which decides that Lookup searches by hex alone |
| `DigestSets.SearchIsScan` | Godeps/_workspace/src/github.com/docker/distribution/digest/set.go:67-106 | The binary search's answer is that of a full scan (the exact or only match, ambiguous for several, not found for none) exactly if all matches from the search position on include that position |
| `DigestSets.QueryIs` | Godeps/_workspace/src/github.com/docker/distribution/digest/set.go:67-90 | A query in the format of a digest asks for its algorithm too, even if it is no valid digest; without a colon it asks for a hex only |
| `DigestSets.ScanAnswerUnique` | Godeps/_workspace/src/github.com/docker/distribution/digest/set.go:67-106 | The scan's answer is determined |
| `DigestSets.UnqualifiedMatchesInFront` | Godeps/_workspace/src/github.com/docker/distribution/digest/set.go:67-106 | Queries without an algorithm always meet that condition |
| `DigestSets.SingleAlgorithmMatchesInFront` | Godeps/_workspace/src/github.com/docker/distribution/digest/set.go:67-106 | So do all queries on a set with one algorithm |
| `DigestSets.QualifiedLookupCanMiss` | Godeps/_workspace/src/github.com/docker/distribution/digest/set.go:67-106 | A set of two algorithms and a query with an algorithm for which it fails: a match is there and is not found |
| `DigestSets.DigestSet.Lookup` | Godeps/_workspace/src/github.com/docker/distribution/digest/set.go:67-106 | The method gives the search's answer, and the scan's exactly under the condition |
| `DigestSets.DigestSet.Add` | Godeps/_workspace/src/github.com/docker/distribution/digest/set.go:111-137 | The entries stay strictly sorted; the contents gain the digest, or the digest is refused and nothing changes |
| `DigestSets.DigestSet.Remove` | Godeps/_workspace/src/github.com/docker/distribution/digest/set.go:142-167 | The entries stay strictly sorted; the contents lose exactly the digest |
| `DigestSets.DigestSet.All` | Godeps/_workspace/src/github.com/docker/distribution/digest/set.go:170-179 | Lists the contents, each digest once |
| `DigestSets.IdentifyingCodeResolves` | Godeps/_workspace/src/github.com/docker/distribution/digest/set.go:186-222 | A code that is the whole digest, or a hex prefix of no other entry, is looked up to its entry |
| `DigestSets.SingleAlgorithmHasNoLoneExtension` | Godeps/_workspace/src/github.com/docker/distribution/digest/set.go:186-222 | In a set with one algorithm no hex is the beginning of exactly one other |
| `DigestSets.LoneCodeIsAmbiguous` | Godeps/_workspace/src/github.com/docker/distribution/digest/set.go:186-222 | A hex that is the beginning of exactly one other hex is ambiguous as a code |
| `DigestSets.ShortCodeCanBeAmbiguous` | Godeps/_workspace/src/github.com/docker/distribution/digest/set.go:186-222 | A set of two algorithms in which it happens: the shorter hex is ambiguous as the longer one's code |
| `DigestSets.DigestSet.ExtendCode` | Godeps/_workspace/src/github.com/docker/distribution/digest/set.go:196-216 | The inner loop ends, with a code no later entry begins with, and leaves the length and reset index the outer loop needs |
| `DigestSets.DigestSet.ShortCodeTable` | Godeps/_workspace/src/github.com/docker/distribution/digest/set.go:186-222 | Codes for exactly the contents, each the digest or a prefix of the hex of at least the asked length. A code is looked up to its digest, and begins no other hex, except in exactly one case, where it is the hex before and is ambiguous: that hex begins this one and no other, the asked length is not more than it, and no earlier entry with the same first characters has taken the minimum past it |
| `DigestSets.TableIsGood` | Godeps/_workspace/src/github.com/docker/distribution/digest/set.go:186-222 | Of any table filled with good codes: looking one up gives its digest or, in exactly that case, is ambiguous |
| `DigestSets.InheritedStep` | Godeps/_workspace/src/github.com/docker/distribution/digest/set.go:191-219 | The minimum length carried from entry to entry, reset or not, is always exactly the longest that the earlier entries with the same first characters have come to, or the asked length |
| `DigestSets.CodeOfEntry` | Godeps/_workspace/src/github.com/docker/distribution/digest/set.go:191-216 | With that minimum the chosen code identifies its entry, or is the ambiguous hex before in exactly the stated case |
| `DigestSets.AllCodesGoodExactly` | Godeps/_workspace/src/github.com/docker/distribution/digest/set.go:181-222 | Every code is looked up to its digest at every length exactly if no hex is the beginning of exactly one other |
| `ImageStores.MovedKeepsInverse` | Godeps/_workspace/src/github.com/docker/docker/image/store.go:227-239 | Moving a child and writing its link keeps the children maps the exact inverse of the links |
| `ImageStores.MovedWithoutLink` | Godeps/_workspace/src/github.com/docker/docker/image/store.go:227-239 | Moving it without writing the link does so exactly if it was that parent's child before |
| `ImageStores.ImageStore.SetParent` | Godeps/_workspace/src/github.com/docker/docker/image/store.go:227-239 | An unknown parent is an error without effect; with a known one the maps stay the inverse exactly if the link was written or was there before |
| `ImageStores.DroppedKeepsInverse` | Godeps/_workspace/src/github.com/docker/docker/image/store.go:200-218 | Deleting keeps the inverse exactly if no link from or to the image is left |
| `ImageStores.ImageStore.Create` | Godeps/_workspace/src/github.com/docker/docker/image/store.go:106-165 | All outcomes in the code's order; a new image owns one fresh live handle exactly if its chain ID is not empty; the store stays valid whatever others do to the layer store meanwhile. The configuration is in the backend afterwards also if the layers are missing or the ID is refused |
| `ImageStores.ImageStore.StoredIsNeeded` | Godeps/_workspace/src/github.com/docker/docker/image/store.go:63-165 | With a stored configuration in the backend, restore fails as a whole until its chain ID is in the layer store, and always if its ID is refused |
| `ImageStores.ImageStore.Delete` | Godeps/_workspace/src/github.com/docker/docker/image/store.go:200-225 | The image and its digest go, no kept image names it, its handle is released once, with that release's metadata or error returned; valid afterwards exactly if the backend left no link from or to it |
| `ImageStores.ImageStore.Restore` | Godeps/_workspace/src/github.com/docker/docker/image/store.go:63-104 | restore succeeds exactly if every image that can be read has a valid ID and its layers; then the images are exactly those, the children maps what the links say, and the store is valid exactly if the links stay among the images |
| `ImageStores.KidsAreInverse` | Godeps/_workspace/src/github.com/docker/docker/image/store.go:92-101 | The second loop's maps are the inverse of the links exactly if these stay among the images |
| `ImageStores.RestoreRebuilds` | Godeps/_workspace/src/github.com/docker/docker/image/store.go:63-104 | For a running store whose links are from images, restore makes the same children maps |
| `ImageStores.ImageStore.ImagesMap` | Godeps/_workspace/src/github.com/docker/docker/image/store.go:266-292 | Heads is exactly the readable images that no link names as a parent; Map all readable images |
| `ImageStores.ImageStore.Search` | Godeps/_workspace/src/github.com/docker/docker/image/store.go:167-176 | The digest set's answer, which is that of a scan of all images exactly if the matches start at the position searched for; so for every term without an algorithm; what is found is an image |
| `ImageStores.ImageStore.LetOthersRun` | Godeps/_workspace/src/github.com/docker/docker/image/store.go:63-165 | Any run of others on the layer store, who were not given an image's handle, leaves the image store valid |
| `ImageStores.ImageStore.ImageChainStays` | Godeps/_workspace/src/github.com/docker/docker/image/store.go:119-165 | While an image is in the store, its whole chain of layers is in the layer store, under the image's chain ID |
| `ReferenceStores.StringIsInjective` | Godeps/_workspace/src/github.com/docker/docker/reference/reference.go:75-156 | Stored references with the same string are the same |
| `ReferenceStores.NameOfString` | Godeps/_workspace/src/github.com/docker/docker/reference/store.go:105-131 | The string of a stored reference fixes the repository it is kept under, and whether it is a digest reference |
| `ReferenceStores.PutBinds` | Godeps/_workspace/src/github.com/docker/docker/reference/store.go:114-139 | Writing one inner map binds exactly that reference |
| `ReferenceStores.DropUnbinds` | Godeps/_workspace/src/github.com/docker/docker/reference/store.go:151-180 | Deleting unbinds exactly that reference and leaves no empty repository |
| `ReferenceStores.PutKeepsInverse` | Godeps/_workspace/src/github.com/docker/docker/reference/store.go:139-146 | Caching a newly bound reference keeps the cache the inverse of the bindings |
| `ReferenceStores.DropKeepsInverse` | Godeps/_workspace/src/github.com/docker/docker/reference/store.go:131-137 | Uncaching an unbound one does, leaving no empty inner map |
| `ReferenceStores.ReferenceStore.AddTag` | Godeps/_workspace/src/github.com/docker/docker/reference/store.go:93-98 | A digest reference is refused; else as addReference, with the default tag |
| `ReferenceStores.ReferenceStore.AddReference` | Godeps/_workspace/src/github.com/docker/docker/reference/store.go:105-147 | The refusals in the code's order, without effect: the name of an algorithm, a bound digest, a bound tag without force; else exactly this reference is bound to the image, and the cache is the exact inverse again, even if saving fails |
| `ReferenceStores.ReferenceStore.Delete` | Godeps/_workspace/src/github.com/docker/docker/reference/store.go:151-180 | Exactly this reference is unbound, if it was bound; the cache follows |
| `ReferenceStores.ReferenceStore.Get` | Godeps/_workspace/src/github.com/docker/docker/reference/store.go:183-200 | The image the reference is bound to |
| `ReferenceStores.ReferenceStore.References` | Godeps/_workspace/src/github.com/docker/docker/reference/store.go:204-220 | Exactly the references bound to the image, in ascending order of their strings |
| `ReferenceStores.DigestStays` | Godeps/_workspace/src/github.com/docker/docker/reference/store.go:119-125 | Through any calls, forced or not, a digest reference keeps its image until it is deleted |
| `ReferenceStores.UnforcedKeeps` | Godeps/_workspace/src/github.com/docker/docker/reference/store.go:126-130 | Without force no binding changes to another image, and a bound tag is refused |
| `ReferenceStores.BareNameIsLatest` | Godeps/_workspace/src/github.com/docker/docker/reference/reference.go:140-158 | Adding or deleting a bare name is doing it to its tag `latest` |
| `ReferenceStores.ForcedBinds` | Godeps/_workspace/src/github.com/docker/docker/reference/store.go:126-139 | With force a tag gets the new image, bound before or not, and nothing else changes |
| `ReferenceStores.TagStays` | Godeps/_workspace/src/github.com/docker/docker/reference/store.go:93-180 | Through any calls but deleting it or forcing another image on it a tag keeps its image |
| `ReferenceStores.ReferenceStore.Run` | Godeps/_workspace/src/github.com/docker/docker/reference/store.go:93-180 | Any sequence of calls does to the bindings what each should, and keeps the cache their inverse |
| `ReferenceStores.ReferenceStore.Reload` | Godeps/_workspace/src/github.com/docker/docker/reference/store.go:273-298 | The reloaded store is valid exactly if every stored string is parsed to a reference that prints as it; for names that were normalised when they were stored, exactly if none still begins with `docker.io/`, `index.docker.io/` or `library/` |
| `ReferenceStores.FilledIsInverse` | Godeps/_workspace/src/github.com/docker/docker/reference/store.go:273-298 | The rebuilt cache is the inverse exactly then |
| `ReferenceStores.NormalExactly` | Godeps/_workspace/src/github.com/docker/docker/reference/reference.go:161-191 | A name is its own normal form exactly if it has none of the three prefixes and is in lower case behind its host |
| `ReferenceStores.NormalizedAgain` | Godeps/_workspace/src/github.com/docker/docker/reference/reference.go:161-191 | A normalised name is its own normal form exactly if it has none of the three prefixes |
| `ReferenceStores.LibraryIsStripped` | Godeps/_workspace/src/github.com/docker/docker/reference/reference.go:177-191 | A name in `library/` is normalised to what follows, whatever that begins with |
| `ReferenceStores.HostIsStripped` | Godeps/_workspace/src/github.com/docker/docker/reference/reference.go:161-191 | So is a name with the default host or its legacy form, unless `library/` follows |
| `ReferenceStores.RefusesExactly` | Godeps/_workspace/src/github.com/docker/docker/reference/reference.go:161-191 | Normalising refuses a name exactly for an upper-case letter that is not in its host, and says what is a host: a first component with a dot or a colon, or `localhost` |
| `ReferenceStores.FullNameIsSame` | Godeps/_workspace/src/github.com/docker/docker/reference/reference.go:120-131 | The full name of any name splits as the name does and is normalised to the same |
| `ReferenceStores.NoNameIsImageID` | Godeps/_workspace/src/github.com/docker/docker/reference/reference.go:193-198 | What is parsed has no name that could be an image ID |
| `ReferenceStores.NormalizedOnlyOnce` | Godeps/_workspace/src/github.com/docker/docker/reference/reference.go:177-191 | Both leave names that are not normal: `library/library/x` and `docker.io/docker.io/x` |
| `ReferenceStores.ReparsesExactly` | Godeps/_workspace/src/github.com/docker/docker/reference/reference.go:60-92 | A stored string is parsed to a reference that prints as it exactly if its name has none of the prefixes |
| `Contexts.KidsAreApart` | Godeps/_workspace/src/golang.org/x/net/context/context.go:256-269 | A context is at or below at most one of the contexts that a context lists |
| `Contexts.KidAbove` | Godeps/_workspace/src/golang.org/x/net/context/context.go:319-340 | Everything live below a context is at or below one of the contexts it lists |
| `Contexts.CancelLive` | Godeps/_workspace/src/golang.org/x/net/context/context.go:319-340 | The recursion ends, and gives every live context below the error, closes its done once, clears its children and stops its timer; the context itself keeps its timer |
| `Contexts.CancelAny` | Godeps/_workspace/src/golang.org/x/net/context/context.go:394-406 | Of a timerCtx the timer is stopped too |
| `Contexts.CancelledBelow` | Godeps/_workspace/src/golang.org/x/net/context/context.go:211-340 | Below a cancelled context everything is cancelled |
| `Contexts.DeadlineNeverLater` | Godeps/_workspace/src/golang.org/x/net/context/context.go:351-388 | A context's deadline is not later than that of any context above it |
| `Contexts.ParentCancelCtx` | Godeps/_workspace/src/golang.org/x/net/context/context.go:256-269 | Finds the nearest context above that can be cancelled, through any number of value contexts |
| `Contexts.CancelContext` | Godeps/_workspace/src/golang.org/x/net/context/context.go:319-406 | A cancel call keeps the invariant: uncancelled contexts are listed by their nearest uncancelled ancestor. Exactly the uncancelled contexts at and below get the error; no other error changes |
| `Contexts.PropagateCancel` | Godeps/_workspace/src/golang.org/x/net/context/context.go:226-251 | A new context is cancelled at once with the nearest ancestor's error, or listed by that ancestor |
| `Contexts.WithCancel` | Godeps/_workspace/src/golang.org/x/net/context/context.go:211-215 | A new context is cancelled from the start exactly if its nearest cancellable ancestor is, with that error; nothing else changes |
| `Contexts.WithDeadline` | Godeps/_workspace/src/golang.org/x/net/context/context.go:351-374 | The new deadline is the earlier of the parent's and the one asked for; the context is cancelled from the start exactly if an ancestor is or the time is past; else its timer runs |
| `Contexts.WithValue` | Godeps/_workspace/src/golang.org/x/net/context/context.go:427-427 | A value context is transparent: the tree stays valid |
| `Contexts.Do` | Godeps/_workspace/src/golang.org/x/net/context/context.go:211-406 | A cancel call gives Canceled, and a timer DeadlineExceeded, to exactly the live contexts at and below; a new context has the parent and kind asked for and changes no error |
| `Contexts.Background` | Godeps/_workspace/src/golang.org/x/net/context/context.go:187-189 | A context without a parent can stand beside any tree, which stays valid |
| `Contexts.Run` | Godeps/_workspace/src/golang.org/x/net/context/context.go:211-406 | Any sequence of calls, one after the other, keeps the tree valid, and no error changes once it is set |
| `ContextRuns.NextKeeps` | Godeps/_workspace/src/golang.org/x/net/context/context.go:226-340 | With calls overlapping and a lock for each context, every step keeps: done is closed with the error, a call holds exactly the locks of a path down the tree, and a context is listed by an uncancelled parent, is still to do or being done by the call cancelling its parent, or is done |
| `ContextRuns.RunKeeps` | Godeps/_workspace/src/golang.org/x/net/context/context.go:226-340 | So does every interleaving |
| `ContextRuns.CancelledOnReturn` | Godeps/_workspace/src/golang.org/x/net/context/context.go:319-340 | When a cancel call has given up its locks, everything below its context is cancelled, whichever call did it, and so is everything made there later |
| `ContextRuns.DoneBelow` | Godeps/_workspace/src/golang.org/x/net/context/context.go:319-340 | Below a cancelled and unlocked context everything is |
| `ContextRuns.RunKeepsErrors` | Godeps/_workspace/src/golang.org/x/net/context/context.go:319-340 | In every interleaving an error stays as it was set |
| `ContextRuns.ErrorComesFrom` | Godeps/_workspace/src/golang.org/x/net/context/context.go:226-330 | An error that a step sets is that of the call taking the context's lock, or, of a new context, that of its cancelled parent |
| `ContextRuns.EveryErrorIsCaused` | Godeps/_workspace/src/golang.org/x/net/context/context.go:226-340 | In every reachable state a context's error is that of a cancel call made on it or on a context above it |
| `ContextRuns.AloneCancelsExactly` | Godeps/_workspace/src/golang.org/x/net/context/context.go:319-340 | A cancel call that runs alone gives its error to exactly the uncancelled contexts at and below its own |
| `ContextRuns.RemovedIsUnlisted` | Godeps/_workspace/src/golang.org/x/net/context/context.go:271-283 | Its last step takes the context off its parent's list |
| `ContextRuns.ClosedOnce` | Godeps/_workspace/src/golang.org/x/net/context/context.go:319-330 | Done is closed exactly once, with the error |
| `ContextRuns.SomeCallGoesOn` | Godeps/_workspace/src/golang.org/x/net/context/context.go:271-340 | No deadlock: while a call has not returned, the call with the deepest lock can go on |
| `ContextRuns.StepIsProgress` | Godeps/_workspace/src/golang.org/x/net/context/context.go:271-340 | Every step of a cancel call leaves less to do |
| `ContextRuns.AllCanReturn` | Godeps/_workspace/src/golang.org/x/net/context/context.go:271-340 | From every reachable state all calls can be run to their return by their own steps |
| `Pflags.FlagSet.SetFlag` | Godeps/_workspace/src/github.com/spf13/pflag/flag.go:703-720 | The value is set and the flag visited, or refused without effect |
| `Pflags.FlagSet.ParseLongArg` | Godeps/_workspace/src/github.com/spf13/pflag/flag.go:731-767 | Of one long flag: the Set call, the arguments used up and the error that the parser as a whole is specified by |
| `Pflags.FlagSet.ParseSingleShortArg` | Godeps/_workspace/src/github.com/spf13/pflag/flag.go:769-803 | Of one shorthand: the same, and what is left of its cluster, which is less and is nothing if an argument was used up |
| `Pflags.FlagSet.ParseShortArg` | Godeps/_workspace/src/github.com/spf13/pflag/flag.go:805-817 | The cluster's loop, in which every shorthand is given the same arguments: only the last can use one |
| `Pflags.FlagSet.ParseArgs` | Godeps/_workspace/src/github.com/spf13/pflag/flag.go:819-848 | The loop makes the Set calls, keeps the positionals and the position of "--" as specified, with whatever was done before an error |
| `Pflags.FlagSet.Parse` | Godeps/_workspace/src/github.com/spf13/pflag/flag.go:854-869 | Positionals of earlier parses are forgotten |
| `Pflags.ParsesRendered` | Godeps/_workspace/src/github.com/spf13/pflag/flag.go:731-848 | Every command line written in order is parsed as exactly its assignments, in order, and exactly its positionals |
| `Pflags.ReadAll` | Godeps/_workspace/src/github.com/spf13/pflag/flag.go:731-848 | Conversely the arguments of a command line that parses are all accounted for, once each, by such a writing |
| `Pflags.ParsesExactlyRendered` | Godeps/_workspace/src/github.com/spf13/pflag/flag.go:731-848 | Parsing succeeds on exactly the command lines that can be written in order |
| `PflagErrors.FailsExactly` | Godeps/_workspace/src/github.com/spf13/pflag/flag.go:731-848 | Parsing fails with a given error on exactly the command lines that are items in order, an argument with that fault, and anything after it |
| `PflagErrors.FailsSo` | Godeps/_workspace/src/github.com/spf13/pflag/flag.go:731-848 | Before the error exactly the items in order are set, and of a cluster the letters before the fault |
| `PflagErrors.BadFails` | Godeps/_workspace/src/github.com/spf13/pflag/flag.go:731-817 | An argument with a fault fails on its own, whatever follows, with the error for that fault |
| `PflagErrors.ReadFailure` | Godeps/_workspace/src/github.com/spf13/pflag/flag.go:731-848 | Conversely every command line that fails is such a one |
| `Pflags.OneItem` | Godeps/_workspace/src/github.com/spf13/pflag/flag.go:731-817 | One assignment or cluster, whatever follows it, is parsed as its own Set calls and uses up its own arguments |
| `Pflags.ReadShorts` | Godeps/_workspace/src/github.com/spf13/pflag/flag.go:769-817 | A cluster that parses is letters without values followed by at most one value in one of its three forms |
| `Sockcmsgs.MaskRounds` | Godeps/_workspace/src/golang.org/x/sys/unix/sockcmsg_unix.go:14-22 | The mask is rounding down to a multiple of the alignment |
| `Sockcmsgs.AlignIsLeast` | Godeps/_workspace/src/golang.org/x/sys/unix/sockcmsg_unix.go:14-22 | cmsgAlignOf is the least multiple of the alignment that is not less |
| `Sockcmsgs.AlignOfSum` | Godeps/_workspace/src/golang.org/x/sys/unix/sockcmsg_unix.go:26-34 | CMSG_SPACE is the aligned CMSG_LEN |
| `Sockcmsgs.HeaderPanicsExactly` | Godeps/_workspace/src/golang.org/x/sys/unix/sockcmsg_unix.go:63-69 | Slicing is out of range exactly for a length that ends in the padding after the header, or that is no int; the header is refused exactly for a length below its own or above what there is |
| `Sockcmsgs.UnixRights` | Godeps/_workspace/src/golang.org/x/sys/unix/sockcmsg_unix.go:73-86 | The buffer holds header, padding, descriptors and padding, every byte |
| `Sockcmsgs.ParseSocketControlMessage` | Godeps/_workspace/src/golang.org/x/sys/unix/sockcmsg_unix.go:48-61 | The loop ends, in bounds, with what the specification says |
| `Sockcmsgs.ParseUnixRights` | Godeps/_workspace/src/golang.org/x/sys/unix/sockcmsg_unix.go:90-103 | Each descriptor of the data in its place; refused exactly for another level or type; an index out of range exactly if the length is then not a multiple of four |
| `Sockcmsgs.OneMessage` | Godeps/_workspace/src/golang.org/x/sys/unix/sockcmsg_unix.go:48-86 | A buffer of UnixRights, whatever follows it, is read as its message, and the next one starts where it ends |
| `Sockcmsgs.MessagesRoundTrip` | Godeps/_workspace/src/golang.org/x/sys/unix/sockcmsg_unix.go:48-86 | Any number of buffers of UnixRights, one after the other, are parsed as their messages |
| `Sockcmsgs.RightsRoundTrip` | Godeps/_workspace/src/golang.org/x/sys/unix/sockcmsg_unix.go:73-103 | Each such message gives its descriptors back, if they fit in 32 bits |
| `Sockcmsgs.LeastFirst` | Godeps/_workspace/src/golang.org/x/sys/unix/sockcmsg_unix.go:73-77 | The number in four bytes, the least significant first |
| `Sockcmsgs.Bits32RoundTrip` | Godeps/_workspace/src/golang.org/x/sys/unix/sockcmsg_unix.go:81-84 | A descriptor stored as int32 reads back as itself if it fits |
| `Devicemappers.Devicemapper.Mount` | devicemapper.go:39-74 | Succeeds exactly if the directory, the device and the fallback do not fail where they are needed; the device is counted exactly if the first two do not, so a failing fallback leaves a count without a release |
| `Devicemappers.Devicemapper.Umount` | devicemapper.go:76-88 | A release takes one count; with the last the entry goes, and the device unless unmounting fails |
| `Devicemappers.NextLoses` | devicemapper.go:39-123 | A step loses a count exactly if Mount fails after counting or a tar without a parent fails; no step gets a lost count back |
| `Devicemappers.OwedIsCounted` | devicemapper.go:76-88 | A release to be called finds its device counted: no nil dereference |
| `Devicemappers.NextSticks` | devicemapper.go:39-88 | A device is left mounted without a count exactly by a last release that fails to unmount it, until it is mounted again |
| `Devicemappers.RunLoses` | devicemapper.go:39-123 | In every interleaving of Mounts and streams the counts without a release are those leaked, one for each leaking step |
| `Devicemappers.LostForGood` | devicemapper.go:39-123 | A device with a lost count stays counted and mounted whatever is called later |
| `Devicemappers.MountedExactly` | devicemapper.go:39-123 | In every reachable state a device is mounted exactly if a release of it is outstanding, a step has leaked one, or its last unmount failed; its count is the outstanding releases and the leaks |
| `Devicemappers.OpensExactly` | devicemapper.go:70-123 | A release or stream is handed out exactly by a Mount that succeeds or a tar or diff that does, with its releases in order |
| `Devicemappers.AllCanBeGivenBack` | devicemapper.go:39-123 | From every state all callers and streams can be brought to their end; then every count is back but for those lost, and every device unmounted but for those lost or stuck |
| `Devicemappers.StreamRuns` | devicemapper.go:90-123 | The steps of one stream, run one after the other, are what TarStream does on its own |
| `Devicemappers.TarStreamIsExact` | devicemapper.go:90-123 | On its own TarStream leaves the counts as before but for the stream's releases or the one lost, and the devices but for what it gave back and could not unmount |
| `Devicemappers.Devicemapper.TarStream` | devicemapper.go:90-123 | Returns a stream exactly if the mount of the image and then that of a parent find what they need and the tar or diff succeeds; its releases are the parent's and then the image's; counts and devices are exactly those stated |
| `Devicemappers.Devicemapper.CloseStream` | devicemapper.go:112-122 | Closing a stream gives back exactly its counts, and unmounts what then has none unless that fails |
| `Devicemappers.Devicemapper.Do` | devicemapper.go:39-123 | A step of a caller or a stream does to the mounts what the run as a value says |
| `Devicemappers.Devicemapper.Run` | devicemapper.go:39-123 | So does any interleaving, with any failures |

## Left out

- Real files in `filestore.go` and `image/fs.go`: the metadata store and the image backend are maps, a transaction is private until it commits, and a call takes effect or fails without any.
- Graph drivers, tar and tar-split streams, gzip and hashing: a driver's calls succeed or fail, and digests are a function parameter.
- A `saveMount` that fails half-way: saving a mount takes effect as a whole.
- The data race on a layer's `references` in `Get`: adding a handle is one atomic step.
- The depth limit of 125 as an invariant of the store: `RegisterByGraphID` does not check it.
- LayerRestarts.NewStoreFromGraphDriver: requires parents in the metadata to be acyclic, because the recursion follows a cycle without end.
- A negative length given to `ShortCodeTable`, which panics on any set that is not empty.
- Contents damaged behind the image store's back and repaired later: a store is called valid only while every recorded parent belongs to an image whose contents can be read.
- Release functions and streams closed twice; the directories that devices are mounted in, and what closing a tar returns.
- Context implementations from outside the package and the goroutine that watches them; the clock, which is a number; and, where cancel calls overlap, timers and deadlines. Overlapping calls are modelled on values, not on the objects of `Context.dfy`.
- `valueCtx.Value`: the values themselves.
- `ReferencesByName`, whose loop only lists one repository, and the grammar of references, which is a parameter; references are ASCII.
- What `Parse` does with an error (exit, panic or return), usage texts, deprecation messages and the typed flag values: a value is accepted or not.
- Big-endian platforms and descriptors outside 32 bits in control messages.
- Image fields other than the layers and the number of history entries, which `Create` looks at.
- The migrator's own walk over the graph directory, the other drivers' path wrappers, logging, `go-units`, `nat` and system call stubs.

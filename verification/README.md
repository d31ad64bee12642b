# Verification of the factory analysers, dialogs, shell cache and canvas protocols

This project models the parts of the repository that carry real state and states what they guarantee, with proofs
checked by the Dafny verifier. `dafny verify dfyconfig.toml` checks the whole project.

* **Factory contracts** (`scripts/analyze-factory-contracts.ts`). The analyser diffs factory states into leaf
  operations, splits the belt graph into components bounded by stations, detects a repeating pattern per component,
  validates it against a further run, and then replays the pattern instead of simulating the component. The engine
  is any function on states and working data, with windows around belt input, production per planet and belt output and
  gaps between them, all of which may depend on the belts and producers that are skipped; the main theorems assume
  nothing else of it. Main results: diff and patch undo each other; the decomposition is exactly the connection classes;
  replay of validated contracts refines the real run under an exact condition on what skipping leaves.
  Modules: `Json`, `Patch`, `Decimal`, `StateDiff`, `DiffLaws`, `LeafLaws`, `Period`, `Paths`, `UnionFind`, `Factory`,
  `Numbering`, `Components`, `ComponentLaws`, `Windows`, `Contracts`, `Collector`, `Observing`, `ContractTracking`,
  `ReplayWindowLaws`, `ReplayExactness`, `ReplayRun`, `ReplayLimits`, `ReplayOrder`, `ContractScopes`, `PlantReplay`,
  `SharedStations`, `SkippedGaps`, `Replaying`.
* **Hibernation** (`scripts/analyze-factory-hibernation.ts`). A shadow prediction per record, with its drift bound.
  Module: `Hibernation`.
* **Modal dialogs** (`src/components/AccessibleDialog.tsx`). Which elements become inert, how attributes and scroll
  styles are restored, and where the focus goes. The document is a finite tree.
  Modules: `Dom`, `Isolation`, `Inert`, `FocusReturn`, `Modals`.
* **Service worker shell** (`public/sw.js`). Cache names, the bounded asset worklist, and installs and activations of
  many workers as a step machine in which any step can fail and any worker can die.
  Modules: `CacheNames`, `Precache`, `ShellInstall`, `ShellLifecycle`, `ShellLimits`, `ShellActivation`.
* **Canvas worker** (`src/components/CanvasBeltLayer.tsx`, `src/game/canvasBeltRender.worker.ts`). Two FIFO channels,
  one frame in flight, the newest frame pending. Module: `CanvasProtocol`.
* **Blueprint grid** (`src/components/BlueprintWorkspace.tsx`). A bucket index against a linear scan. Module:
  `BlueprintGrid`.
* **Planet ledgers** (`scripts/analyze-planet-contracts.ts`). Conservation, flattening and telescoping windows. Module:
  `PlanetLedger`.

## What the code does not promise

Some statements one would like to make are false of the code. The project keeps the code's behaviour, shows an input
or a run where the statement fails, and proves the exact condition under which it holds.

* A validated contract does not guarantee a right replay. A window's replay is right if and only if the state that the
  engine leaves with the contracted parts skipped agrees with the real one apart from the recorded leaves, and the
  operations of all contracts on each recorded leaf, rounding included, together reach its real value
  (`ReplayExactness.WindowReplayIff`); a run is replayed rightly if and only if that holds in each of its windows, the
  gaps between them run with skips too (`ReplayRun.ReplayRefinesRun`, `ContractTracking.ValidatedContractsReplay`). If the
  recorded amounts recur, the second part speaks of numbers only: each number that changes is taken from what skipping
  left to its real value by its change, counted and rounded once per contract that covers it
  (`ReplayLimits.ReplayCountsNumbers`, `ReplayRun.RunCountsNumbers`). Four ways to fail:
  * `entityIds` includes boundary stations, and two components may share one. Both record its change, and both replay it
    (`SharedStations.StationIsShared`, `SharedStations.SharedStationMisses`).
  * Only the belts of contracted components are skipped, by identifier (`src/game/engine.ts:4966`). Any other belt still
    moves the stations it touches, also those that a contract covers and whose whole change it replays
    (`SharedStations.TransferIsOutside`, `SharedStations.MovedStationMisses`).
  * Skipping also acts between the windows: a skipped belt reserves no output capacity (`src/game/engine.ts:5334`), on
    which orbital collectors and ray receivers depend. A full receiver whose belt is contracted makes nothing, and replay
    takes its output away all the same, although every window by itself would fit (`SkippedGaps.SkippedGapMisses`).
  * A step signature shows normalised amounts but not the decimal digits that an operation records, and replay rounds to
    those digits: 0.5 to 1.5 recorded, 0.25 to 1.25 replayed gives 1.3 (`ReplayOrder.CoarseGridMisses`). Rounding can
    also absorb one of the misses above, if a number has more decimals than were recorded; where it has not, rounding
    changes nothing (`ReplayLimits.CountedOnGrid`).
* When all windows fit, the state at the end is right, and the analyser keeps all contracts selected, if and only if the
  last gap, run with skips, leaves the real state (`ReplayRun.ReplayedSecond`, `Replaying.ValidatedReproduce`).
* Simpler conditions follow for windows in which the recorded amounts recur (`ReplayWindowLaws.Recurs`) and skipping does
  what its name says (`ReplayWindowLaws.Skips`): whatever a contract covers, boundary stations included, stays as it was,
  everything else is as in the full phase, and the real production totals are the skipped ones plus what the contracted
  components produced. In a run this speaks of a window together with the gap before it, both run with skips, against
  the real state at the start and the end of the window (`ReplayRun.WindowApart`). The code guarantees neither. Under
  both, exact replay is right if and only if no number changes in what two contracts share
  (`ReplayLimits.ReplayExactIffUntangled`), which for components of the decomposition concerns boundary stations in belt
  windows only (`ContractScopes.DecompositionUntangled`, `PlantReplay.PlantWindowExact`); and where nothing shared
  changes, replay with rounding is right if and only if every recorded addition lands on its recorded grid
  (`ReplayRun.ApartRunLands`, `PlantReplay.PlantReplaysRun`).
* A boundary owner with an empty identifier counts as missing and is not joined (`ComponentLaws.EmptyIdentifierEscapes`).
* The block of the whole-trace fallback period can be a power of a shorter word, but only of one that occurs twice or is
  longer than the search bound (`Period.FallbackBlock`, `Period.FallbackNotPrimitive`).
* An HTML element below a non-HTML one, such as content embedded in an SVG element, is not isolated. The default
  background covers an element apart from the roots if and only if, off the dialog's branch, everything from it upwards
  that hangs right below something around a root is an HTML element (`Isolation.DefaultCoverageExact`,
  `Isolation.ForeignContentEscapes`).
* An activation does not look at its own cache. It deletes every other shell of its route that existed when it started,
  even one that is being installed, and that install still ends well; its own activation then publishes a registry whose
  current shell is gone (`ShellLimits.CompleteCacheNeeded`). The registries are in order throughout a run if and only if
  every publication finds the publishing worker's own cache complete (`ShellLifecycle.RegistryOkIffCompletePublished`),
  as it does when every activation starts on its own complete cache (`ShellLifecycle.RegistryCrashSafe`). The results on
  completed activations (`ShellActivation`) take that for granted.
* The twelve significant digits that the signatures keep cannot tell large amounts apart, so a prediction can drift from
  its record without waking. It drifts by at most the gaps between recorded and real amounts
  (`Hibernation.FollowsOn`), which for amounts up to a bound are at most twice the normaliser's error there
  (`Hibernation.DriftWithin`, `DiffLaws.DigitsResolve`).
* A build that was installed but never active can be kept as the previous one
  (`ShellActivation.LeftoverBecomesPrevious`), but only by a route's first activation
  (`ShellActivation.FirstActivationPrevious`) or one that re-activates a build without a previous one. As soon as two
  different builds were active, the previous one is the last different one (`ShellActivation.KeepsLastTwo`).

## Model

| member | source | states |
|---|---|---|
| `StateDiff.TransitionBetween` | scripts/analyze-factory-contracts.ts:150-220 | the visitor that pushes operations and signature parts returns exactly the reference diff of the two trees |
| `StateDiff.TransitionRecorder.Visit` | scripts/analyze-factory-contracts.ts:155-212 | visiting a subtree appends that subtree's reference diff, moved below the visited path, to what was recorded before |
| `Decimal.SearchDigits` | scripts/analyze-factory-contracts.ts:131-138 | the bounded search finds the least number of digits, at most twelve, whose grid holds the number within 1e-12 |
| `Decimal.FinerGrid` | scripts/analyze-factory-contracts.ts:131-144 | rounding to at least the recorded digits moves a number by at most 1e-12, and a whole number not at all |
| `DiffLaws.DiffPrefixFree` | scripts/analyze-factory-contracts.ts:150-220 | no two operations of a diff share a path and none lies below another |
| `DiffLaws.DiffRecords` | scripts/analyze-factory-contracts.ts:155-212 | every operation addresses a leaf present in both trees and records exactly that leaf's change |
| `DiffLaws.AddsIffNumbersChange` | scripts/analyze-factory-contracts.ts:156-168 | a diff contains an addition exactly when some number differs at a place both trees share |
| `DiffLaws.EmptyDiff` | scripts/analyze-factory-contracts.ts:150-220 | a diff is empty and not structural exactly when the trees are equal |
| `DiffLaws.PatchRestores` | scripts/analyze-factory-contracts.ts:150-220 | applying a non-structural diff to the first tree, in exact arithmetic, gives the second |
| `DiffLaws.RoundedPatchClose` | scripts/analyze-factory-contracts.ts:537-555 | with rounding to the recorded digits, the patched tree has the second tree's shape and non-numeric leaves and every number within 1e-12 |
| `DiffLaws.RoundedPatchExact` | scripts/analyze-factory-contracts.ts:537-555 | the rounding patch gives the second tree if and only if every changed number lies on the decimal grid recorded for it |
| `DiffLaws.SameSignatureAlike` | scripts/analyze-factory-contracts.ts:214-220 | equal signatures mean the same paths, the same new values, and amounts that differ by at most the slack up to which number normalisation keeps the amounts at hand apart |
| `DiffLaws.DigitsResolve` | scripts/analyze-factory-hibernation.ts:78-82 | a normaliser that keeps significant digits and takes tiny amounts to zero keeps bounded amounts apart up to twice its error there; twelve digits are a relative error of 5e-12 |
| `DiffLaws.KeptResolve` | scripts/analyze-factory-hibernation.ts:78-82 | amounts that the normaliser leaves alone, such as those of at most twelve digits, are kept apart without slack |
| `LeafLaws.PatchReaches` | scripts/analyze-factory-contracts.ts:537-555 | a list of leaf operations takes one tree to another if and only if the trees agree apart from the addressed leaves and each leaf is taken to its value by its own operations, in both modes |
| `Patch.WritesCommute` | scripts/analyze-factory-contracts.ts:537-555 | two operations on incomparable paths can be exchanged, failures included |
| `Patch.OrderIrrelevant` | scripts/analyze-factory-contracts.ts:537-555 | a prefix-free list of operations has the same effect in any order |
| `Patch.RoundingHarmless` | scripts/analyze-factory-contracts.ts:546-548 | replay with rounding equals exact replay if and only if every sum lands on the grid its operation recorded |
| `Period.FindPeriod` | scripts/analyze-factory-contracts.ts:239-257 | the result is the least length within the bound whose last three blocks are calm and equal, and none only if there is none |
| `Period.FindContractPeriod` | scripts/analyze-factory-contracts.ts:259-272 | the same, with the whole calm trace as fallback |
| `Period.DetectedBlockPrimitive` | scripts/analyze-factory-contracts.ts:239-257 | the block of a detected period is never a power of a shorter word |
| `Period.FallbackBlock` | scripts/analyze-factory-contracts.ts:259-272 | the fallback block can be a power of a word only if that word occurs exactly twice or is longer than the bound |
| `Period.FallbackNotPrimitive` | scripts/analyze-factory-contracts.ts:259-272 | a trace that shows its word only twice does fall back to a block that is a power |
| `UnionFind.DisjointSets.Find` | scripts/analyze-factory-contracts.ts:300-307 | the recursive, path-compressing search terminates, returns the element's root and changes no element's root |
| `UnionFind.DisjointSets.Union` | scripts/analyze-factory-contracts.ts:308-312 | after a union exactly the classes of the two elements are one |
| `UnionFind.Compress` | scripts/analyze-factory-contracts.ts:304-306 | redirecting an element to its root keeps the parent map a forest with the same roots |
| `UnionFind.SameRootIffConnected` | scripts/analyze-factory-contracts.ts:308-312 | two elements have one root exactly when the unions made so far connect them |
| `Components.JoinBelts` | scripts/analyze-factory-contracts.ts:314-321 | the belt pass knows exactly the non-station ends of belts with two known ends, joined along belts without stations |
| `Components.JoinBoundaries` | scripts/analyze-factory-contracts.ts:323-343 | the boundary pass joins all internal ends whose belts leave, or enter, one station with one item |
| `Factory.OneKeyIffCompete` | scripts/analyze-factory-contracts.ts:328-338 | two belts get one boundary key exactly when both leave, or both enter, one station with one item, their other ends being known, no stations and identified |
| `Components.GroupByRoot` | scripts/analyze-factory-contracts.ts:345-351 | grouping by root yields every class once, in order of first appearance |
| `Components.ComponentOf` | scripts/analyze-factory-contracts.ts:353-381 | a group becomes a component exactly when it has allowed entities and belts of one planet and only stations of that planet as boundary |
| `Components.BuildProductionComponents` | scripts/analyze-factory-contracts.ts:294-383 | the components are exactly the contractable connection classes, numbered in order |
| `ComponentLaws.TogetherIffConnected` | scripts/analyze-factory-contracts.ts:314-351 | two entities share a component exactly when a chain leads from one to the other, each link a belt between entities that are no stations, or two belts that carry one item out of one station or into it |
| `ComponentLaws.ComponentInFields` | scripts/analyze-factory-contracts.ts:353-380 | the members, belts, boundaries and producers of a component, each said in fields of the entities and belts |
| `ComponentLaws.GroupIsCovered` | scripts/analyze-factory-contracts.ts:353-370 | a connected group whose entities and belts meet those conditions on one planet is a component |
| `ComponentLaws.LastEntityWins` | scripts/analyze-factory-contracts.ts:295 | the lookup knows exactly the listed identifiers and gives the last entity with an identifier |
| `ComponentLaws.ComponentsShareNothing` | scripts/analyze-factory-contracts.ts:353-382 | distinct components share no internal entity, no belt and no production entity |
| `ComponentLaws.BoundaryBeltsTogether` | scripts/analyze-factory-contracts.ts:323-343 | all belts that carry one item out of one station, or into it, fall into one component |
| `ComponentLaws.SharedStationDiffers` | scripts/analyze-factory-contracts.ts:323-343 | belts of two components with one item never both leave, or both enter, one station |
| `ComponentLaws.EnclosedByStations` | scripts/analyze-factory-contracts.ts:367-379 | a belt that touches a component belongs to it and to its planet; its ends are internal or boundary stations of that planet |
| `ComponentLaws.EmptyIdentifierEscapes` | scripts/analyze-factory-contracts.ts:337-346 | an entity with an empty identifier is not joined through its boundary key, because an empty string counts as missing |
| `Contracts.ProducedDuringPhase` | scripts/analyze-factory-contracts.ts:408-423 | an item is listed exactly if the output of some listed entity holds a whole unit more of it than before; where outputs are whole and only grow, its amount is the increase of their outputs |
| `Windows.SnapshotShows` | scripts/analyze-factory-contracts.ts:392-406 | a snapshot shows the component's entities and belts in belt windows and only its producers in production windows, each as it is in the world |
| `Collector.PhaseCollector.CaptureBefore` | scripts/analyze-factory-contracts.ts:447-453 | every concerned component gets a snapshot of the phase; all others keep theirs |
| `Collector.PhaseCollector.CaptureAfter` | scripts/analyze-factory-contracts.ts:455-466 | fails exactly when a concerned component has no snapshot; otherwise every concerned component gets the transition and production since its snapshot |
| `Collector.PhaseCollector.FinishStep` | scripts/analyze-factory-contracts.ts:468-474 | hands out one combined step per component and forgets the second |
| `Observing.ObserveSecond` | scripts/analyze-factory-contracts.ts:425-474 | the hooks around all windows of a second never fail and leave, per component, exactly what the windows show of it |
| `ContractTracking.ComponentTracker.Finalize` | scripts/analyze-factory-contracts.ts:519-524 | the pattern is the last detected period of the observation |
| `ContractTracking.ComponentTracker.Validate` | scripts/analyze-factory-contracts.ts:729-737 | a tracker that has not woken wakes exactly when the second's step is structural or differs in signature from the pattern element at (second - 1) mod period |
| `ContractTracking.ComponentTracker.ValidateAll` | scripts/analyze-factory-contracts.ts:729-740 | the tracker records the first unexpected second of the whole validation, and none exactly when every second was as expected |
| `Windows.PatchComponent` | scripts/analyze-factory-contracts.ts:392-406 | a component's transition, applied to any live view that shows the component as it was, replaces exactly the component's entities and belts |
| `ReplayExactness.WindowReplayIff` | scripts/analyze-factory-contracts.ts:589-602 | if no contract wakes, the replayed window is the real one if and only if the skipped state agrees with the real one apart from the recorded leaves, all operations on each recorded leaf together reach its real value, rounding included, and totals and rest agree; for any engine, sharing and normalisation |
| `ReplayLimits.ReplayCountsNumbers` | scripts/analyze-factory-contracts.ts:537-603 | for contracts whose recorded amounts recur, with or without rounding, the replayed window is the real one if and only if the skipped state agrees apart from the recorded leaves, totals and rest included, and every number that changes is taken from what skipping left to its real value by its change, counted once per covering contract and rounded to that contract's digits each time; for any engine |
| `ReplayLimits.ReplayCountsChanges` | scripts/analyze-factory-contracts.ts:374-387 | in exact arithmetic, for every number that changes, what skipping left plus the change once per covering contract is the real value |
| `ReplayLimits.CountedOnGrid` | scripts/analyze-factory-contracts.ts:546-548 | where a number and its change lie on the grids that the covering contracts recorded, rounding changes nothing in that count |
| `ReplayLimits.MovedNumberMisses` | scripts/analyze-factory-contracts.ts:374-387 | where something that was not skipped moved a number that one contract covers, replay is wrong, without rounding in any case and with rounding if the numbers lie on the recorded grids |
| `ReplayLimits.SharedNumberMisses` | scripts/analyze-factory-contracts.ts:374-387 | where skipping left a number alone and two contracts cover it, replay of its change is wrong, without rounding in any case and with rounding if the numbers lie on the recorded grids |
| `ReplayWindowLaws.ResolvingRecurs` | scripts/analyze-factory-contracts.ts:214-220 | where normalisation keeps the amounts at hand apart, a contract that does not wake repeats its recorded amounts |
| `ReplayWindowLaws.ExactWindow` | scripts/analyze-factory-contracts.ts:589-602 | if the recorded amounts recur, skipping stands the contracted parts still and shared parts keep their numbers, exact replay on the skipped state gives the state of the full engine phase, totals included |
| `ReplayWindowLaws.WindowReplayExact` | scripts/analyze-factory-contracts.ts:589-602 | in the same windows, replay with rounding gives the real state if and only if every recorded addition lands on its recorded grid |
| `ReplayRun.ReplayRefinesRun` | scripts/analyze-factory-contracts.ts:557-626 | over any number of seconds in which no contract wakes, the replayed run equals the real run after every window if and only if each window's skipped state fits in the sense of WindowReplayIff, the gap before the window run with skips too; for any engine, whose work in and between the windows may depend on what is skipped |
| `ReplayRun.ReplayedSecond` | scripts/analyze-factory-contracts.ts:605-626 | if every window fits, the replayed state at the end of a second is the real one if and only if the last gap, run with skips, leaves the real state |
| `ReplayRun.RunCountsNumbers` | scripts/analyze-factory-contracts.ts:557-626 | if the recorded amounts recur, the replayed run equals the real run after every window if and only if each window is right number by number in the sense of ReplayCountsNumbers, rounding included |
| `ReplayRun.ApartRunLands` | scripts/analyze-factory-contracts.ts:557-603 | in runs whose windows recur, change no shared number and, run with skips together with the gap before them, keep the contracted parts still, the replayed run equals the real one after every window if and only if every recorded addition lands on its recorded grid |
| `ReplayRun.DisjointUntangled` | scripts/analyze-factory-contracts.ts:557-603 | components with pairwise disjoint footprints meet the sharing hypothesis in every window |
| `ContractTracking.ValidatedContractsReplay` | scripts/analyze-factory-contracts.ts:711-745 | contracts whose patterns were detected in an observed run and validated in a second one replay that second run, window by window, if and only if each window's skipped state fits, gaps included; for any engine and normalisation |
| `ReplayLimits.ReplayExactIffUntangled` | scripts/analyze-factory-contracts.ts:537-603 | for recurring amounts and an engine that keeps everything the contracts cover still, exact replay is right if and only if no number changes in anything two contracts share |
| `SharedStations.StationIsShared` | scripts/analyze-factory-contracts.ts:323-387 | a machine that delivers iron to a station and one that takes copper from it become two components with that station as the boundary of both |
| `SharedStations.SharedStationMisses` | scripts/analyze-factory-contracts.ts:374-387 | in that plant, whenever a number changes at the shared station, both components' contracts recur, and replaying them misses the real state, without rounding in any case and with rounding if the number keeps to the decimals that are recorded |
| `SharedStations.SharedStockMisses` | scripts/analyze-factory-contracts.ts:537-555 | for every change of a whole stock, such as from zero to one, the rounding replay of both contracts misses the real state |
| `SharedStations.TransferIsOutside` | scripts/analyze-factory-contracts.ts:353-387 | a belt between stations belongs to no component, although a component covers the station it starts from |
| `SharedStations.MovedStationMisses` | scripts/analyze-factory-contracts.ts:374-387 | whenever such a belt has moved a number of the covered station that the window changes, the contract recurs, nothing is shared, and its replay misses the real state, without rounding in any case and with rounding if the numbers keep to the decimals that are recorded |
| `SharedStations.MovedStockMisses` | scripts/analyze-factory-contracts.ts:537-555 | for every change of a whole stock of which the belt has moved a whole part, such as one of five, the rounding replay misses the real state |
| `SkippedGaps.ReceiverIsComponent` | scripts/analyze-factory-contracts.ts:294-383 | a ray receiver with one belt to a station is a component, but the receiver is not among its producers |
| `SkippedGaps.WholeReplays` | scripts/analyze-factory-contracts.ts:537-603 | one contract that covers everything a window of whole numbers changes replays that window rightly |
| `SkippedGaps.SkippedGapMisses` | src/game/engine.ts:7307-7312 | with the receiver full, its contract does not wake and every window, run with skips from the real state at its own start, fits; yet the replayed second is wrong, because with the belt skipped no capacity is reserved for the receiver between the windows |
| `ContractScopes.DecompositionUntangled` | scripts/analyze-factory-contracts.ts:353-387 | contracts for any selection of the components never interfere in production windows, and in belt windows only through boundary stations whose numbers change |
| `PlantReplay.PlantWindowExact` | scripts/analyze-factory-contracts.ts:353-603 | for any selection of a plant's components, an engine that keeps covered parts still and recurring amounts, exact replay of a window is right if and only if it is a production window or every station bounding two selected components is calm |
| `PlantReplay.PlantReplaysRun` | scripts/analyze-factory-contracts.ts:294-745 | from a plant to a replayed run: detected and validated contracts for any selection of its components replay the run exactly if and only if the recorded additions land, under the conditions of PlantWindowExact in every window, the gap before it included |
| `ReplayOrder.ReplayOrderIrrelevant` | scripts/analyze-factory-contracts.ts:589-602 | contracts with disjoint footprints give the same window in any order, failures and production totals included |
| `ReplayOrder.RecordedStaysInScope` | scripts/analyze-factory-contracts.ts:392-406 | what is recorded for a component is prefix-free and stays below the component's own entities and belts |
| `ReplayOrder.CoarseGridMisses` | scripts/analyze-factory-contracts.ts:140-166 | two steps with one signature, of which the second is replayed to 1.3 instead of 1.25 because the signature omits the digits |
| `Replaying.ApplyTransition` | scripts/analyze-factory-contracts.ts:537-555 | applies all operations in order, or fails at a root-level operation or a path that leads nowhere |
| `Replaying.ContractReplayer.Replay` | scripts/analyze-factory-contracts.ts:589-602 | one hook turns the live state into the replay of that window, or fails when that replay does; after a production hook every item's total has grown by what the given contracts recorded of it for this second, belt hooks leave the totals alone, and no total disappears |
| `Replaying.RecordedReplayable` | scripts/analyze-factory-contracts.ts:537-602 | detected patterns of observed seconds are never empty and never patch the root, so a replayer can take them |
| `Contracts.ReplayedTotals` | scripts/analyze-factory-contracts.ts:594-599 | the same of any replayed window, with and without rounding |
| `Replaying.ContractReplayer.constructor` | scripts/analyze-factory-contracts.ts:569-583 | the skipped belts and producers are exactly those of the given contracts |
| `Replaying.RunSecond` | scripts/analyze-factory-contracts.ts:605-626 | the gaps, windows and hooks of one second take the replayed run from the end of the second before to the end of this one |
| `Replaying.RunTimed` | scripts/analyze-factory-contracts.ts:605-636 | a timed run ends where the replayed run of the selected contracts ends; without any, where the real run ends |
| `Replaying.NothingIsReal` | scripts/analyze-factory-contracts.ts:605-636 | replaying nothing is running the engine |
| `Replaying.ChooseTier` | scripts/analyze-factory-contracts.ts:742-757 | whatever is selected ends in the state of the real run; everything stays selected if and only if replaying all contracts does so, and a later tier is chosen only when the earlier ones do not; no choice means that a replay failed |
| `Replaying.ValidatedReproduce` | scripts/analyze-factory-contracts.ts:711-757 | if every window of the run fits, detected and validated contracts stay selected if and only if the last gap, run with skips, leaves the real state |
| `Hibernation.RecordTracker.constructor` | scripts/analyze-factory-hibernation.ts:210-222 | a new tracker predicts its record |
| `Hibernation.RecordTracker.Observe` | scripts/analyze-factory-hibernation.ts:224-236 | an absent record adds a structural observation and keeps the snapshot; a present one adds the transition since the snapshot |
| `Hibernation.RecordTracker.Finalize` | scripts/analyze-factory-hibernation.ts:238-245 | a detected period fixes the pattern and starts the prediction at the last snapshot |
| `Hibernation.RecordTracker.Validate` | scripts/analyze-factory-hibernation.ts:247-271 | an absent, unstable or woken record is left alone; an unexpected one wakes the tracker with its reason; an expected one advances the prediction, which never fails |
| `Hibernation.RecordTracker.FinishValidation` | scripts/analyze-factory-hibernation.ts:273-278 | a tracker matches exactly when it is stable, has not woken and its prediction is within 1e-6 of the record; it always matches while the gaps of its accepted steps sum to at most 1e-6 |
| `Hibernation.RecordTracker.Run` | scripts/analyze-factory-hibernation.ts:247-278 | over any validation, with the record absent in any seconds and any slack up to which normalisation keeps the amounts that occurred apart, an unwoken prediction is within one slack per accepted step, and equal to the record, hence matched, without slack |
| `Hibernation.FollowsOn` | scripts/analyze-factory-hibernation.ts:247-271 | one more step with an equal signature never fails and adds at most the gap between its recorded and its real amounts, whatever the normaliser |
| `Hibernation.DriftWithin` | scripts/analyze-factory-hibernation.ts:247-271 | the gaps of the accepted steps sum to at most one slack per step, for any slack up to which normalisation keeps their amounts apart |
| `Hibernation.DriftIs` | scripts/analyze-factory-hibernation.ts:247-271 | the drift bound after n steps is n times the slack |
| `Hibernation.FollowsExactly` | scripts/analyze-factory-hibernation.ts:190-208 | without slack, following the record means being equal to it |
| `StateDiff.NoRootOps` | scripts/analyze-factory-hibernation.ts:174-177 | the root-level error cannot occur for records, because they are objects |
| `Hibernation.SummaryPartitions` | scripts/analyze-factory-hibernation.ts:280-290 | every stable tracker is validated, woken or mismatched, exactly one of them; there is no mismatch exactly when every unwoken stable tracker matched |
| `Hibernation.SummarizeTrackers` | scripts/analyze-factory-hibernation.ts:280-290 | the counts of any population of trackers in a valid state are those of the stable, matched and woken ones and add up in that way; there is no mismatch exactly when every unwoken stable tracker matched |
| `DiffLaws.PatchDrift` | scripts/analyze-factory-hibernation.ts:174-188 | replaying amounts within e of the real ones on a tree within d of the real one ends within d + e |
| `Dom.CollectBackgroundElements` | src/components/AccessibleDialog.tsx:299-312 | the walk from the boundary collects exactly the set of siblings defined level by level |
| `Dom.CollectIs` | src/components/AccessibleDialog.tsx:299-312 | an element is collected exactly when it is an HTML element off the boundary's branch whose parent is a proper ancestor of the boundary, up to the body |
| `Isolation.Isolate` | src/components/AccessibleDialog.tsx:248-259 | the recursive closure adds exactly the outermost parts of an element that are apart from all roots |
| `Isolation.IsolatedIff` | src/components/AccessibleDialog.tsx:248-259 | an element becomes inert exactly when it is apart from all roots, is reached through HTML elements, and everything above it up to the start holds a root |
| `Isolation.IsolatedClear` | src/components/AccessibleDialog.tsx:248-259 | no inert element contains, or lies inside, an interaction root |
| `Isolation.DefaultCoverage` | src/components/AccessibleDialog.tsx:243-312 | with the default background, an element with only HTML ancestors off the dialog's branch is inside a root, around a root, or below an inert element |
| `Isolation.DefaultCoverageExact` | src/components/AccessibleDialog.tsx:243-312 | the default background of one dialog covers an element apart from the roots if and only if, off the dialog's branch, everything from the element upwards that hangs right below something around a root is an HTML element |
| `Isolation.ForeignContentEscapes` | src/components/AccessibleDialog.tsx:253-256 | an HTML element inside an SVG element beside the dialog is covered by nothing |
| `Isolation.ResolveDefault` | src/components/AccessibleDialog.tsx:314-331 | for a boundary below the body the filter keeps the whole default background |
| `Inert.SealPutBack` | src/components/AccessibleDialog.tsx:169-198 | sealing and putting back restores attribute and property exactly when they were consistent, whether or not the browser reflects one in the other |
| `Inert.InertRegistry.Acquire` | src/components/AccessibleDialog.tsx:169-184 | the first acquisition snapshots the attributes, later ones count, all of them seal the element |
| `Inert.InertRegistry.Release` | src/components/AccessibleDialog.tsx:186-198 | releases count down; the last one puts the snapshot back and forgets it |
| `Inert.InertRegistry.Replace` | src/components/AccessibleDialog.tsx:265-268 | afterwards exactly the new elements are sealed, each snapshot once, and every other element carries its original attributes |
| `Inert.ScrollLock.Lock` | src/components/AccessibleDialog.tsx:200-219 | the first lock remembers the styles and hides overflow, later ones count |
| `Inert.ScrollLock.Unlock` | src/components/AccessibleDialog.tsx:221-231 | the last unlock restores the original styles |
| `Modals.TopModal` | src/components/AccessibleDialog.tsx:233-240 | the top modal is the last opened one whose surface is connected, the closing one counting in any case |
| `Modals.CollectInert` | src/components/AccessibleDialog.tsx:243-264 | inert is exactly what is reached through HTML elements below a candidate that some attached modal offers, apart from the last attached modal's boundary, surface and attached extra roots, right below something around one of these |
| `Modals.InertApartFromTop` | src/components/AccessibleDialog.tsx:243-410 | nothing that any open modal contributes contains or lies inside the last attached modal's boundary, surface or an attached extra root outside the surface |
| `Modals.NextInertAs` | src/components/AccessibleDialog.tsx:243-410 | an element is inert exactly when some attached modal offers an element of which it is an outermost part apart from all that belongs to the last attached modal; nothing is inert when no modal is attached |
| `Modals.TopCovers` | src/components/AccessibleDialog.tsx:243-410 | whatever other modals are open, the last attached modal with the default background covers every element with only HTML ancestors off its branch, apart from what lies in or around its boundary, surface and extra roots |
| `Modals.ModalHost.Open` | src/components/AccessibleDialog.tsx:271-276 | opening pushes the modal with a new sequence number, makes exactly what CollectInert says inert and locks scrolling |
| `Modals.ModalHost.Close` | src/components/AccessibleDialog.tsx:278-506 | closing any modal rethreads return targets and makes exactly what CollectInert says inert; if no later modal is attached, focus goes to its return target, or when that takes none to the first tabbable element or the surface of the last attached modal; the last one restores all attributes and styles |
| `Modals.FallbackOperable` | src/components/AccessibleDialog.tsx:243-506 | nothing inert contains an element of the remaining top modal's surface, so the fallback of the focus stays operable |
| `FocusReturn.Unregister` | src/components/AccessibleDialog.tsx:278-287 | a remaining modal that would return into the closed surface gets the closed modal's target; all others stay as they are |
| `FocusReturn.CloseKeepsThreads` | src/components/AccessibleDialog.tsx:278-287 | closing any modal keeps every return target outside all surfaces or inside an earlier open modal |
| `FocusReturn.OpenKeepsThreads` | src/components/AccessibleDialog.tsx:271-276 | so does opening one with a target outside all surfaces or inside an open one |
| `FocusReturn.RunKeepsOrigin` | src/components/AccessibleDialog.tsx:271-288 | over any run of opens and closes a modal that stays open keeps the outside element its chain of openers started from |
| `FocusReturn.LastReturnsToOrigin` | src/components/AccessibleDialog.tsx:271-288 | when all others have closed, in whatever order, the last modal returns to that element |
| `FocusReturn.OpenerCloses` | src/components/AccessibleDialog.tsx:271-288 | a dialog whose opener lies in another dialog returns to where that one came from, if that one closes first |
| `CacheNames.SanitizeToken` | public/sw.js:35-37 | a sanitized token is non-empty and holds the first 160 characters with every other character replaced by an underscore; a short token stays as it is |
| `CacheNames.RouteKey` | public/sw.js:50-57 | every route key is a non-empty token, so it has no colon |
| `CacheNames.RouteKeysApart` | public/sw.js:50-57 | different base paths have different keys, only the root path has the root's key, and an explicit token is its own key |
| `CacheNames.NamesByExample` | public/sw.js:15-18 | the names of the shell, version and metadata caches of the root |
| `CacheNames.LegacyOfRoot` | public/sw.js:59-72 | a legacy shell belongs to the root only and is owned |
| `CacheNames.ShellsApart` | public/sw.js:15-18 | a shell name starts with a route's shell prefix exactly when it is that route's |
| `CacheNames.RoutesApart` | public/sw.js:59-72 | what a route may treat as its shells never includes another route's shell, nor any version or metadata cache |
| `Precache.PrecacheDiscovered` | public/sw.js:126-147 | success adds exactly the assets reachable from the index: every reference of the index or of a cached html, js or css asset outside the fixed shell is there, and nothing else; failure means a reachable asset is not served or not stored or there are too many, and leaves a part of them; never more than 513 less the fixed shell are fetched, none twice, on any graph |
| `ShellInstall.ShellCaches.InstallShell` | public/sw.js:228-261 | a marked cache is reused; otherwise success leaves a marked cache with the whole shell and every asset that the index or a cached html, js or css asset refers to; failure has a reason among fetches, storage and the limit and leaves nothing marked, and no cache unless storage refuses to delete it; other caches are untouched |
| `ShellInstall.ShellCaches.MatchShell` | public/sw.js:297-310 | a response is found exactly if the worker's own cache or a shell of the route among the registry's current and previous ones holds it, and comes from the first of them in that order; the fallback flag says that it was not the own one |
| `ShellLifecycle.StepKeeps` | public/sw.js:228-279 | every step of an install or activation, failure or death keeps the invariant, except a publication that finds its own cache incomplete |
| `ShellLifecycle.RegistryOkIffCompletePublished` | public/sw.js:228-279 | from any state in order, over any run of installs and activations on any routes, every registry names two different existing caches with completion evidence at every step if and only if every publication finds the publishing worker's own cache complete |
| `ShellLifecycle.RegistryCrashSafe` | public/sw.js:228-279 | if every activation of a run starts on a complete cache of its own build, the registries are in order at every step |
| `ShellLimits.DeletionStaysInRoute` | public/sw.js:273-277 | an activation deletes no other route's shell and nobody's version or metadata cache |
| `ShellLimits.InstallSparesComplete` | public/sw.js:228-261 | an install never removes completion evidence |
| `ShellLimits.AttachedUnlessDeleted` | public/sw.js:228-279 | while other workers act, an install keeps its cache and can still complete it, unless that very cache is deleted |
| `ShellLimits.CompleteCacheNeeded` | public/sw.js:263-271 | a run in which one build's activation deletes the cache that another build's install is filling, that install still ends well, and its activation publishes a registry whose current shell does not exist |
| `ShellActivation.ShellStore.FindPreviousStable` | public/sw.js:198-226 | the first complete cache among the registry's suggestion, legacy shells and other shells, newest first |
| `ShellActivation.ShellStore.ActivateShell` | public/sw.js:263-279 | publishes the pair and deletes exactly the route's other shells |
| `ShellActivation.ActivatedRegistry` | public/sw.js:198-226 | another build becomes the previous one, and re-activating the current build keeps its previous one |
| `ShellActivation.ActivatePreviousSwaps` | public/sw.js:198-226 | activating the previous build swaps the pair |
| `ShellActivation.ActivatedCaches` | public/sw.js:273-277 | of the route's shells exactly the current and the previous one remain, and no other cache changes |
| `ShellActivation.FirstActivationPrevious` | public/sw.js:216-225 | while the registry knows no other build, an activation names a previous one exactly when another complete shell of the route is there |
| `ShellActivation.LeftoverBecomesPrevious` | public/sw.js:221-225 | a build that was installed but never active becomes the previous one of a first activation |
| `ShellActivation.KeepsLastTwo` | public/sw.js:198-279 | after any run of activations the registry names the last build, and as the previous one the last different build before it; while there is none, it names one exactly if another complete shell of the route was there at some activation |
| `CanvasProtocol.BeltRenderer.DrawBase` | src/components/CanvasBeltLayer.tsx:268-298 | a redraw requests one frame of the published topology, sent at once or kept as the pending one, and keeps the protocol invariant |
| `CanvasProtocol.BeltRenderer.PublishWorkerTopology` | src/components/CanvasBeltLayer.tsx:251-266 | afterwards the last topology on the channel is the current one; it is sent only if it was not there yet |
| `CanvasProtocol.BeltRenderer.DispatchWorkerFrame` | src/components/CanvasBeltLayer.tsx:183-186 | a frame is sent only when none is in flight, carries the last topology's revision and the largest sequence number so far |
| `CanvasProtocol.BeltRenderer.TakeDraw` | src/game/canvasBeltRender.worker.ts:57-79 | a worker with a context draws every frame it receives, on the geometry of the frame's revision; it never rejects one for its revision |
| `CanvasProtocol.BeltRenderer.OnMessage` | src/components/CanvasBeltLayer.tsx:204-232 | a completed frame clears the flight and sends the pending frame if there is one; anything else ends the renderer |
| `CanvasProtocol.BeltRenderer.FailRenderer` | src/components/CanvasBeltLayer.tsx:162-169 | a failed renderer has nothing in flight, nothing pending and no worker |
| `CanvasProtocol.BeltRenderer.NewestFrameShown` | src/components/CanvasBeltLayer.tsx:282-297 | with nothing in flight and no failure, the last frame completed is the last one requested and the channels hold no frame |
| `BlueprintGrid.BuildBuckets` | src/components/BlueprintWorkspace.tsx:318-325 | every bucket lists exactly the nodes of its cell |
| `BlueprintGrid.BuildLines` | src/components/BlueprintWorkspace.tsx:326-346 | under each key exactly the belts between existing nodes with that endpoint |
| `BlueprintGrid.VisibleNodes` | src/components/BlueprintWorkspace.tsx:403-421 | exactly the nodes in bounds, each once, unless the limit is reached; then a part of them |
| `BlueprintGrid.VisibleLines` | src/components/BlueprintWorkspace.tsx:422-436 | exactly the lines with a visible end, each once, unless the limit is reached; then a part of them |
| `BlueprintGrid.RenderQueue` | src/components/BlueprintWorkspace.tsx:382-438 | below the limits every queued blueprint shows exactly what a linear scan would of the blueprint its key stands for, which the cache held before or an entry up to this one brought; the whole queue never exceeds 900 nodes and 1400 lines |
| `BlueprintGrid.SteadyShown` | src/components/BlueprintWorkspace.tsx:393-399 | if every key stands for one blueprint, in the cache and in the queue, then these are the queued blueprints themselves |
| `BlueprintGrid.GeometryCache.Get` | src/components/BlueprintWorkspace.tsx:299-351 | a cached key answers with the geometry of the blueprint it stood for when it was added, and a new one with that of the given blueprint; at most 32 entries stay, the oldest is dropped |
| `PlanetLedger.BeltLedger.AggregateBelts` | scripts/analyze-planet-contracts.ts:99-113 | the three records hold, per item, exactly the sums of the planet's belts in total, out of stations, from elsewhere into stations, and between other entities |
| `PlanetLedger.TransfersConserved` | scripts/analyze-planet-contracts.ts:99-113 | per item, the total equals station-out plus station-in plus internal |
| `PlanetLedger.FlattenAggregate` | scripts/analyze-planet-contracts.ts:127-133 | the flat record holds every entry of every section under its own key and nothing else |
| `PlanetLedger.FlattenLossless` | scripts/analyze-planet-contracts.ts:127-133 | aggregates with the same sections and the same flat record are equal |
| `PlanetLedger.WindowsTelescope` | scripts/analyze-planet-contracts.ts:135-140 | at every key the deltas of consecutive windows add up to the delta of the whole run, absent keys read as zero |
| `PlanetLedger.CompareWindows` | scripts/analyze-planet-contracts.ts:142-169 | exact means that every selected amount agrees within 1e-6; the normalized error is the summed difference over the summed reference, at least one, and zero only for full agreement; the significant error is the largest difference, relative to the reference, among selected amounts of ten or more, or zero |

## Left out

Conventions of the model:

- Numbers are exact reals; NaN, infinities, negative zero and the rounding of `toPrecision` are not modelled. Number
  normalisation is a parameter, of which most lemmas assume nothing and some that it maps zero to zero, or up to which
  slack it keeps a given set of amounts apart. Whole-unit production totals are integers.
- Signatures are lists of marks with their paths instead of joined strings, and boundary keys are tuples instead of
  strings joined with `|`; collisions between joined strings are not modelled.
- State trees and the live view are values. Applying a transition gives a new tree; aliasing between the live view and
  the state, which the code uses to write through, is not modelled.
- A path that leads to no leaf is a failure; the code would throw or create a property.
- Absent optional identifiers are empty strings, as the code treats both alike.

What the repository does and the model does not:

- The simulation engine, save migration, state hashing and the native core: they appear as arbitrary functions of the
  state. State hashes are compared as the states themselves.
- Seconds without windows or with shortened steps: one second is one engine step with all its windows. The fast forward
  of quiescent states, steps cut at an activity boundary, and the rest of the time that the end of a session makes up for
  are not modelled.
- The whole-planet trackers of the contract analyser: they repeat the component trackers on another snapshot.
- The loops over the tables of hibernation trackers that observe and validate: each tracker is modelled on its own.
- Timing statistics, profiling, reports and command-line handling of the analysers.
- React effects and rendering, key handling, the Tab cycle and the choice of the initial focus of a dialog. Which elements
  take focus, and which is the first tabbable one of a surface, are functions. Several documents: the model has one.
- Focus surfaces that move between documents, or elements that move between surfaces, while modals are open.
- The service worker's fetch handling, version checks, status broadcasts and URL expressions: discovery is a function
  from a body and its address to references, and fetching and storing are functions during one install.
- Reading completion evidence is reliable, and at most one install and one activation per route are in progress, as
  registrations serialise them. A deletion takes effect in its own step or not at all; one that outlives its worker is
  not modelled.
- Legacy workers: their shells are caches that may exist with or without an index page.
- The painting code, hit testing, overlay layer and viewport scheduling of the belt layer.
- Rotation and mirroring of blueprint offsets, positions in the construction queue and the drawn markup: nodes come with
  their transformed coordinates, bounds with their offset.
- Inventories, reserves, scalars and metrics of the planet aggregate: they are sums without a law between them.

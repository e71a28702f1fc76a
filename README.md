# ewoms core: overlapping block vectors, stencils, element contexts, wells, rate vectors

A Dafny model of several small cores of the ewoms porous-media simulation
framework. Each one is modelled with the proofs about it.

- **Overlapping block vector** (`ewoms/linear/overlappingblockvector.hh`).
  This is the vector that a process of a parallel linear solver holds
  over its domestic index space: its own rows plus the rows it shares
  with its peers. It can be filled from a non-overlapping native vector,
  and it can be copied back to one. It keeps its shared rows consistent
  with its peers under three receive policies:
  - overwrite from the master;
  - add on border rows, overwrite elsewhere;
  - add always.

  The overlap descriptor is an abstract record of total functions
  (`OverlapTopology`). Every operation is specified by functions on
  sequences (`BlockVectorSpec`). A system of two processes
  (`TwoProcessSync`) connects the sender of one process to the receiver
  of the other. It is used to state owner consistency, idempotence and
  border summation.
- **Element-centred finite-volume stencil** (`ewoms/disc/ecfv/ecfvstencil.hh`).
  This covers the list of degrees of freedom and faces that
  `updateTopology` builds from the intersections of an element. An
  intersection is seen only as "has a neighbour" or "boundary".
- **Element context** (`ewoms/disc/common/fvbaseelementcontext.hh`).
  This is the per-element store of intensive quantities, primary
  variables and hints for each history index, plus the extensive
  quantities of the faces. Around it sits the save/restore state machine
  of the evaluation point used by numerical differentiation.
- **ECL well manager** (`applications/ebos/eclwellmanager.hh`). The model
  keeps its logic-only parts:
  - the well-name registry;
  - the status, injector and producer decision tables of `beginEpisode`;
  - the test for changed wells over an abstract schedule;
  - the accounting of injected and produced totals in `endTimeStep`.
- **Rate vectors** of the black-oil, flash and Richards models
  (`blackoilratevector.hh`, `flashratevector.hh`, `richardsratevector.hh`).
  The model covers their mass/molar conversions and which entries each
  setter writes (`RateVectorSpec`, `RateConversion`).
- **Groundwater lecture problem** (`appl/lecture/mhs/groundwater/groundwater_problem.hh`).
  The model covers:
  - parsing the flat parameter arrays into sources and boundary segments;
  - the cell index of a source;
  - the look-up of boundary side and segment;
  - the source term.

Blocks, rates, volumes and coordinates are `real`. Element identifiers,
intensive and extensive quantities, primary variables and hints are
opaque. Messages between processes, the model's cache of intensive
quantities, the global solutions and the computations of quantities are
parameters.

## Model

| member | source | states |
|---|---|---|
| OverlappingBlockVector.OverlappingBlockVector.constructor | ewoms/linear/overlappingblockvector.hh:59-61 | the vector is sized to the domestic rows, and its send and receive plans are the ones createBuffers_ builds |
| OverlappingBlockVector.OverlappingBlockVector.CreateBuffers | ewoms/linear/overlappingblockvector.hh:258-334 | send plan of peer p = p's foreign overlap rows made domestic through their global index; receive plan = the indices p announced, translated from global to domestic |
| OverlappingBlockVector.OverlappingBlockVector.AnnounceIndices | ewoms/linear/overlappingblockvector.hh:266-281 | the global indices sent to each peer are those of the rows in that peer's foreign overlap, in offset order |
| OverlappingBlockVector.OverlappingBlockVector.TranslatePlans | ewoms/linear/overlappingblockvector.hh:291-316 | every peer's received global indices are translated to domestic ones |
| OverlappingBlockVector.OverlappingBlockVector.TranslateInPlace | ewoms/linear/overlappingblockvector.hh:311-316 | the in-place loop leaves each entry replaced by globalToDomestic of itself |
| OverlappingBlockVector.OverlappingBlockVector.CopyFromNative | ewoms/linear/overlappingblockvector.hh:113-119 | row r becomes native[domesticToNative(r)], or 0 when that index is negative |
| OverlappingBlockVector.OverlappingBlockVector.Assign | ewoms/linear/overlappingblockvector.hh:130-146 | assign = the local copy followed by sync; the new contents are SyncSpec with overwrite-from-master applied to the local copy, and every peer is sent its plan's entries of the local copy |
| OverlappingBlockVector.OverlappingBlockVector.AssignAddBorder | ewoms/linear/overlappingblockvector.hh:108-124 | the local copy followed by syncAddBorder, stated through SyncSpec with the add-on-border policy |
| OverlappingBlockVector.OverlappingBlockVector.AssignTo | ewoms/linear/overlappingblockvector.hh:152-165 | the result has numNative entries; entry n is this[nativeToDomestic(n)], or 0 when that index is negative; the vector itself is not changed |
| OverlappingBlockVector.OverlappingBlockVector.Sync | ewoms/linear/overlappingblockvector.hh:171-192 | all sends read the vector before any receive; the result merges every peer's message by overwrite-from-master, in peer order |
| OverlappingBlockVector.OverlappingBlockVector.SyncAdd | ewoms/linear/overlappingblockvector.hh:198-219 | the same, with the add-always policy |
| OverlappingBlockVector.OverlappingBlockVector.SyncAddBorder | ewoms/linear/overlappingblockvector.hh:225-247 | the same, with the add-on-border policy |
| OverlappingBlockVector.OverlappingBlockVector.Synchronize | ewoms/linear/overlappingblockvector.hh:171-247 | the shared send-then-receive shape of the three sync operations, for any policy |
| OverlappingBlockVector.OverlappingBlockVector.SendAll | ewoms/linear/overlappingblockvector.hh:176-181 | every peer receives its send plan's entries of the current vector |
| OverlappingBlockVector.OverlappingBlockVector.ReceiveAll | ewoms/linear/overlappingblockvector.hh:183-188 | receives are applied peer by peer in peer order; the result is SyncSpec of the old contents |
| OverlappingBlockVector.OverlappingBlockVector.SendEntries | ewoms/linear/overlappingblockvector.hh:336-345 | values[i] = this[sendIdx[i]] in plan order; the vector is unchanged |
| OverlappingBlockVector.OverlappingBlockVector.ReceiveFromMaster | ewoms/linear/overlappingblockvector.hh:360-375 | the vector becomes Merge with the overwrite-from-master policy over the peer's receive plan |
| OverlappingBlockVector.OverlappingBlockVector.ReceiveAddBorder | ewoms/linear/overlappingblockvector.hh:377-393 | the vector becomes Merge with the add-on-border policy |
| OverlappingBlockVector.OverlappingBlockVector.ReceiveAdd | ewoms/linear/overlappingblockvector.hh:395-408 | the vector becomes Merge with the add-always policy |
| BlockVectorSpec.MergeRow | ewoms/linear/overlappingblockvector.hh:371-373 | one received value applied to one row keeps the vector's length |
| BlockVectorSpec.Merge | ewoms/linear/overlappingblockvector.hh:369-374 | the receive loop over a plan keeps the vector's length |
| LastOccurrence.LastIndex | ewoms/linear/overlappingblockvector.hh:369-374 | the last position holding a value, or -1 when none does; the last plan entry for a row wins, as does the last deck entry for a well name |
| BlockVectorSpec.ContributionAbsent | ewoms/linear/overlappingblockvector.hh:395-408 | a row missing from the plan receives nothing |
| BlockVectorSpec.ContributionCounts | ewoms/linear/overlappingblockvector.hh:395-408 | a row listed k times with the same value c accumulates k times c |
| BlockVectorSpec.MergeFromMasterAt | ewoms/linear/overlappingblockvector.hh:360-375 | row r takes the last value received for it exactly when the peer is r's master and r is in the plan; every other row is unchanged |
| BlockVectorSpec.MergeAddAt | ewoms/linear/overlappingblockvector.hh:395-408 | row r becomes its old value plus the sum of the values received for it |
| BlockVectorSpec.MergeAddBorderAt | ewoms/linear/overlappingblockvector.hh:377-393 | rows outside the plan are unchanged; a row bordering the peer adds what it received; any other row takes the last value received |
| BlockVectorSpec.MergeFromMasterDependsOnOwned | ewoms/linear/overlappingblockvector.hh:360-375 | the values received for rows the peer does not own have no effect |
| BlockVectorSpec.MergeFromMasterIdempotent | ewoms/linear/overlappingblockvector.hh:360-375 | receiving the same overwrite-from-master message twice equals receiving it once |
| BlockVectorSpec.SyncSpec | ewoms/linear/overlappingblockvector.hh:171-247 | peer-by-peer merging keeps the vector's length; with no peers the vector is unchanged |
| BlockVectorSpec.SyncKeepsRowsOfNonPeers | ewoms/linear/overlappingblockvector.hh:171-192 | after sync, a row whose master is not a peer keeps its value |
| BlockVectorSpec.AssignRoundTrip | ewoms/linear/overlappingblockvector.hh:130-165 | assigning a native vector and copying back yields that vector when the native rows are owned locally |
| BlockVectorSpec.LocalCopy | ewoms/linear/overlappingblockvector.hh:113-119 | the local copy of assign, whose rows CopyFromNative states; AssignRoundTrip inverts it through Project |
| BlockVectorSpec.Project | ewoms/linear/overlappingblockvector.hh:152-165 | the native vector that assignTo produces, stated by AssignTo; AssignRoundTrip inverts LocalCopy with it |
| BlockVectorSpec.Gather | ewoms/linear/overlappingblockvector.hh:336-345 | the plan's entries in plan order, as SendEntries states |
| BlockVectorSpec.SendPlan | ewoms/linear/overlappingblockvector.hh:274-331 | the announced global indices of a peer's foreign overlap, localised; CreateBuffers states it is the send plan |
| TwoProcessSync.Step | ewoms/linear/overlappingblockvector.hh:171-247 | one exchange between two processes keeps both vectors' lengths |
| TwoProcessSync.SyncSpecSinglePeer | ewoms/linear/overlappingblockvector.hh:171-247 | with one peer, sync is a single merge of that peer's message |
| TwoProcessSync.StepIsSync | ewoms/linear/overlappingblockvector.hh:171-247 | the exchange is each process's sync applied to the other's sent entries |
| TwoProcessSync.SyncTakesMasterValue | ewoms/linear/overlappingblockvector.hh:360-375 | after sync, a row that B receives from its master A holds A's value of the same global row |
| TwoProcessSync.SyncKeepsOthersRows | ewoms/linear/overlappingblockvector.hh:360-375 | a row of B whose master is not A keeps its value |
| TwoProcessSync.SyncIdempotent | ewoms/linear/overlappingblockvector.hh:171-192 | when the two processes agree on owners, syncing twice equals syncing once |
| TwoProcessSync.ContributionSingle | ewoms/linear/overlappingblockvector.hh:395-408 | a row listed once receives exactly its one value |
| TwoProcessSync.BorderRowsSum | ewoms/linear/overlappingblockvector.hh:377-393 | a border row shared by both processes holds the sum of both contributions on both processes after syncAddBorder |
| TwoProcessSync.SyncAddBorderTakesMasterValue | ewoms/linear/overlappingblockvector.hh:377-393 | after syncAddBorder, a non-border row of B that A masters and sends holds A's value of the same global row, as the comment at lines 222-223 promises |
| TwoProcessSync.SyncAddBorderOverwritesMasteredRow | ewoms/linear/overlappingblockvector.hh:377-393 | after syncAddBorder, a non-border row that B masters but A lists also takes A's value, so B's own value is lost when the two differ |
| TwoProcessSync.SyncPair | ewoms/linear/overlappingblockvector.hh:171-247 | running the two objects' send and receive routines against each other produces Step |
| EcfvStencil.Neighbors | ewoms/disc/ecfv/ecfvstencil.hh:261-274 | the neighbours across the intersections are no more than the intersections |
| EcfvStencil.FacesCoverIntersections | ewoms/disc/ecfv/ecfvstencil.hh:261-274 | each intersection gives either one neighbour or one boundary face |
| EcfvStencil.NeighborsAreOutsides | ewoms/disc/ecfv/ecfvstencil.hh:266-270 | an element is a neighbour exactly when some intersection has it outside |
| EcfvStencil.Stencil.constructor | ewoms/disc/ecfv/ecfvstencil.hh:231-234 | an empty stencil over the given element mapper |
| EcfvStencil.Stencil.UpdateTopology | ewoms/disc/ecfv/ecfvstencil.hh:236-275 | the old contents are discarded; element 0 is the centre, then one element, sub-control volume and interior face per neighbour, and one boundary face per other intersection |
| EcfvStencil.Stencil.UpdatePrimaryTopology | ewoms/disc/ecfv/ecfvstencil.hh:277-294 | exactly one DOF, the given element, remains; the face lists are untouched |
| EcfvStencil.Stencil.Update | ewoms/disc/ecfv/ecfvstencil.hh:296-299 | update builds the same stencil as updateTopology |
| EcfvStencil.BuiltCounts | ewoms/disc/ecfv/ecfvstencil.hh:258-274 | numDof = 1 + numInteriorFaces, and interior plus boundary faces = intersections visited |
| EcfvStencil.BuiltFacesJoinCenterAndNeighbor | ewoms/disc/ecfv/ecfvstencil.hh:184-199 | interior face i joins DOF 0 (the centre) to DOF i+1 (its neighbour); interiorIndex is 0 |
| EcfvStencil.BoundaryFacesPointOutside | ewoms/disc/ecfv/ecfvstencil.hh:272 | the exterior index of a boundary face lies beyond every DOF |
| EcfvStencil.Stencil.NumDof | ewoms/disc/ecfv/ecfvstencil.hh:323-324 | the number of sub-control volumes; BuiltCounts states it is one more than the interior faces |
| EcfvStencil.Stencil.NumPrimaryDof | ewoms/disc/ecfv/ecfvstencil.hh:335-336 | always 1: only the centre is primary |
| EcfvStencil.Stencil.NumInteriorFaces | ewoms/disc/ecfv/ecfvstencil.hh:396-397 | the number of interior faces; BuiltCounts relates it to the intersections |
| EcfvStencil.Stencil.NumBoundaryFaces | ewoms/disc/ecfv/ecfvstencil.hh:409-410 | the number of boundary faces; BuiltCounts relates it to the intersections |
| EcfvStencil.Stencil.ElementAt | ewoms/disc/ecfv/ecfvstencil.hh:366-375 | defined only for an existing DOF, as the source asserts; UpdateTopology states which element each DOF is |
| EcfvStencil.Stencil.GlobalSpaceIndex | ewoms/disc/ecfv/ecfvstencil.hh:342-351 | the mapper's index of the DOF's element, defined only for an existing DOF |
| EcfvStencil.SubControlVolumeFace.InteriorIndex | ewoms/disc/ecfv/ecfvstencil.hh:184-192 | always 0, the centre; BuiltFacesJoinCenterAndNeighbor relies on it |
| EcfvStencil.SubControlVolumeFace.ExteriorIndex | ewoms/disc/ecfv/ecfvstencil.hh:198-199 | the stored exterior index; BuiltFacesJoinCenterAndNeighbor and BoundaryFacesPointOutside state its values |
| FvBaseElementContext.RestoreUndoesPerturbation | ewoms/disc/common/fvbaseelementcontext.hh:455-475 | restoring the snapshot of history index 0 undoes any change made to that index since the save |
| FvBaseElementContext.Resize | ewoms/disc/common/fvbaseelementcontext.hh:128-129 | std::vector::resize: the new length, the kept prefix and the blank new entries |
| FvBaseElementContext.FvBaseElementContext.constructor | ewoms/disc/common/fvbaseelementcontext.hh:86-92 | an empty context with no evaluation point and no saved DOF |
| FvBaseElementContext.FvBaseElementContext.UpdateAll | ewoms/disc/common/fvbaseelementcontext.hh:101-106 | the stencil is rebuilt, every history index of every DOF is updated, the saved DOF is forgotten, and every interior face gets its history-0 extensive quantities |
| FvBaseElementContext.FvBaseElementContext.UpdateStencil | ewoms/disc/common/fvbaseelementcontext.hh:114-130 | the stencil is rebuilt, the DOF store is resized to numDof and the extensive quantities to numInteriorFaces |
| FvBaseElementContext.FvBaseElementContext.UpdateStencilTopology | ewoms/disc/common/fvbaseelementcontext.hh:138-145 | only the stencil's topology is rebuilt |
| FvBaseElementContext.FvBaseElementContext.UpdateIntensiveQuantities | ewoms/disc/common/fvbaseelementcontext.hh:165-198 | every DOF at t gets the solution at its global index and the model's hint; its intensive quantities are the cached ones if present, else computed and cached when caching is on |
| FvBaseElementContext.FvBaseElementContext.UpdateAllIntensiveQuantities | ewoms/disc/common/fvbaseelementcontext.hh:151-156 | every history index of every DOF is updated from its own solution, and the saved DOF index becomes -1 |
| FvBaseElementContext.FvBaseElementContext.UpdateSingleIntensiveQuantities | ewoms/disc/common/fvbaseelementcontext.hh:211-222 | one DOF at one history index is recomputed from the given primary variables; perturbing the saved DOF does not move any evaluation point |
| FvBaseElementContext.FvBaseElementContext.SaveIntensiveQuantities | ewoms/disc/common/fvbaseelementcontext.hh:455-462 | records d, snapshots d's history-0 quantities and primary variables; right after, every evaluation point equals the current value |
| FvBaseElementContext.FvBaseElementContext.RestoreIntensiveQuantities | ewoms/disc/common/fvbaseelementcontext.hh:470-475 | the snapshot is written back into DOF d at history 0 and the saved index becomes -1 |
| FvBaseElementContext.FvBaseElementContext.UpdateExtensiveQuantities | ewoms/disc/common/fvbaseelementcontext.hh:240-251 | the current list becomes the evaluation point and every interior face is recomputed |
| FvBaseElementContext.FvBaseElementContext.UpdateAllExtensiveQuantities | ewoms/disc/common/fvbaseelementcontext.hh:228-231 | the extensive quantities of history index 0 |
| FvBaseElementContext.FvBaseElementContext.SaveExtensiveQuantities | ewoms/disc/common/fvbaseelementcontext.hh:364-370 | the current list is copied and the copy becomes the evaluation point, so every evaluation point reads the current values |
| FvBaseElementContext.FvBaseElementContext.RestoreExtensiveQuantities | ewoms/disc/common/fvbaseelementcontext.hh:375-381 | the evaluation point is the current list again and nothing is copied |
| FvBaseElementContext.FvBaseElementContext.IntensiveQuantities | ewoms/disc/common/fvbaseelementcontext.hh:397-401 | an accessor, defined only for an existing DOF and history index; its values after an update are stated by UpdateIntensiveQuantities |
| FvBaseElementContext.FvBaseElementContext.ThermodynamicHint | ewoms/disc/common/fvbaseelementcontext.hh:413-417 | an accessor, defined only for an existing DOF and history index; the hint stored there is stated by UpdateIntensiveQuantities |
| FvBaseElementContext.FvBaseElementContext.PrimaryVars | ewoms/disc/common/fvbaseelementcontext.hh:435-439 | an accessor, defined only for an existing DOF and history index; its value after an update is the solution at the DOF's global index, as UpdateIntensiveQuantities states |
| FvBaseElementContext.FvBaseElementContext.EvalPointIntensiveQuantities | ewoms/disc/common/fvbaseelementcontext.hh:521-528 | history indices other than 0 read the current value; at index 0 the saved DOF reads its snapshot (see SaveIntensiveQuantities and UpdateSingleIntensiveQuantities) |
| FvBaseElementContext.FvBaseElementContext.EvalPointExtensiveQuantities | ewoms/disc/common/fvbaseelementcontext.hh:505-510 | history indices other than 0 read the current list; index 0 reads the evaluation point's list (see SaveExtensiveQuantities and UpdateExtensiveQuantities) |
| EclWellManager.StatusOf | applications/ebos/eclwellmanager.hh:147-160 | AUTO and OPEN give Open, STOP gives Closed, and SHUT gives Shut |
| EclWellManager.Configure | applications/ebos/eclwellmanager.hh:142-310 | it throws exactly for MULTI/GRUP injectors and CRAT/GRUP producers; an undefined control gives Shut, otherwise the deck status; the well type follows the deck role; the name is kept |
| EclWellManager.InjectorWeighsItsPhase | applications/ebos/eclwellmanager.hh:174-240 | a WATER, GAS or OIL injector injects that phase with unit weight on it; RATE, RESV, BHP and THP give surface-rate, reservoir-rate, bottom-hole-pressure and tubing-head-pressure control; the maximum surface and reservoir rates and the BHP target are the deck's injection rates and BHP limit, and the THP target is 1e30 |
| EclWellManager.ProducerRateWeights | applications/ebos/eclwellmanager.hh:250-307 | ORAT, GRAT, WRAT and LRAT give surface-rate control with weights (1,0,0), (0,1,0), (0,0,1) and (1,0,1) and maximum surface rate oilRate, gasRate, waterRate and liquidRate; RESV gives reservoir-rate control with weights (1,1,1) and maximum surface rate resvRate; the reservoir limit is kept, the BHP target is the deck limit and the THP target -1e30 |
| EclWellManager.ProducerPressureKeepsRates | applications/ebos/eclwellmanager.hh:285-307 | BHP gives bottom-hole-pressure control and THP tubing-head-pressure control; both keep their weights and rate limits; the BHP target is the deck limit and the THP target -1e30 |
| EclWellManager.UndefinedControlSkipsSetup | applications/ebos/eclwellmanager.hh:210-214 | an undefined control shuts the well and leaves the rest of its setup as it was |
| EclWellManager.RegisterKeepsNames | applications/ebos/eclwellmanager.hh:113-114 | proof helper of Init: registering one more well under its name keeps every registered name mapped to a well of that name |
| EclWellManager.NameMapAt | applications/ebos/eclwellmanager.hh:101-115 | after init a name is mapped iff it was mapped before or is in the deck; a deck name maps to its last position |
| EclWellManager.WellTopologyChanged | applications/ebos/eclwellmanager.hh:587-604 | always at step 0, never from numTimesteps on, otherwise iff NEW_WELL or COMPLETION_CHANGE happens |
| EclWellManager.WellsChanged | applications/ebos/eclwellmanager.hh:569-584 | iff the topology changed, or within the schedule a PRODUCTION_UPDATE, INJECTION_UPDATE or WELL_STATUS_CHANGE happens |
| EclWellManager.HasEvent | applications/ebos/eclwellmanager.hh:580-583 | some event of the mask happens at the step |
| EclWellManager.WellsChangedCharacterised | applications/ebos/eclwellmanager.hh:569-604 | a changed topology implies changed wells; wells changed iff step 0, or a step within the schedule with a relevant event |
| EclWellManager.SignedVolumeSplits | applications/ebos/eclwellmanager.hh:476-481 | a signed volume splits into non-negative injected and produced parts, at most one of them non-zero, whose difference is the volume |
| EclWellManager.AddVolumes | applications/ebos/eclwellmanager.hh:472-482 | each phase's total grows by the produced or the injected part of dt*rate |
| EclWellManager.StepVolumes | applications/ebos/eclwellmanager.hh:476 | the volume of each phase in one step is dt*rate |
| EclWellManager.TotalsOf | applications/ebos/eclwellmanager.hh:457-470 | a well seen before has its stored totals; a new well starts from zero totals of every phase |
| EclWellManager.Accumulate | applications/ebos/eclwellmanager.hh:451-483 | the loop over the wells keeps every total sized to the phases |
| EclWellManager.AccumulateStep | applications/ebos/eclwellmanager.hh:452-482 | one more well of the loop updates the totals of its name by that well's step |
| EclWellManager.TotalsNeverDecrease | applications/ebos/eclwellmanager.hh:456-482 | no total decreases at the end of a time step, and no seen well disappears |
| EclWellManager.TotalsOfOthersUnchanged | applications/ebos/eclwellmanager.hh:451-483 | the totals of a well not in the loop are unchanged |
| EclWellManager.NetVolumeOfOneWell | applications/ebos/eclwellmanager.hh:472-482 | for a uniquely named well, injected minus produced grows by exactly dt*rate |
| EclWellManager.AccumulateOneWell | applications/ebos/eclwellmanager.hh:451-483 | a uniquely named well's totals grow by its one step |
| EclWellManager.AddTimeStep | applications/ebos/eclwellmanager.hh:472-482 | the loop over the phases adds each phase's volume to the produced or the injected total |
| EclWellManager.EpisodeSpec | applications/ebos/eclwellmanager.hh:137-311 | configuring the deck wells keeps the number of wells; what a registered well becomes is stated by EpisodeConfiguresDeckWell |
| EclWellManager.EpisodeFailsIffNotImplemented | applications/ebos/eclwellmanager.hh:184-187 | beginEpisode fails exactly when some registered deck well has an unimplemented control |
| EclWellManager.EpisodeKeepsNames | applications/ebos/eclwellmanager.hh:139-145 | configuring never renames a well |
| EclWellManager.EpisodeKeepsUnnamedWells | applications/ebos/eclwellmanager.hh:139-145 | a well no deck entry names is left as it was; unregistered deck wells are skipped |
| EclWellManager.EpisodeStaysFailed | applications/ebos/eclwellmanager.hh:139-311 | once an exception is thrown, later deck wells change nothing |
| EclWellManager.EpisodeConfiguresDeckWell | applications/ebos/eclwellmanager.hh:139-311 | when no deck well throws, a registered well named by exactly one deck entry ends the episode as Configure makes it from its state before the episode |
| EclWellManager.WellManager.constructor | applications/ebos/eclwellmanager.hh:87-89 | no wells, no names, no totals |
| EclWellManager.WellManager.Init | applications/ebos/eclwellmanager.hh:96-116 | one Shut well per deck well, in deck order and named after it, is appended, and the names are mapped to their positions |
| EclWellManager.WellManager.WellIndex | applications/ebos/eclwellmanager.hh:338-348 | the index of a registered name, whose well has that name; an error exactly for an unknown name |
| EclWellManager.WellManager.HasWell | applications/ebos/eclwellmanager.hh:322-325 | a known name is the name of some well |
| EclWellManager.WellManager.TotalProducedVolume | applications/ebos/eclwellmanager.hh:495-500 | 0 for a well not yet seen, otherwise the stored produced total of the phase |
| EclWellManager.WellManager.TotalInjectedVolume | applications/ebos/eclwellmanager.hh:505-510 | 0 for a well not yet seen, otherwise the stored injected total of the phase |
| EclWellManager.WellManager.BeginEpisode | applications/ebos/eclwellmanager.hh:137-311 | the wells become EpisodeSpec of the deck, including the error and the partial state it leaves |
| EclWellManager.WellManager.EndTimeStep | applications/ebos/eclwellmanager.hh:444-484 | the injected and produced totals become Accumulate over the wells in order |
| EclWellManager.WellManager.AddWellStep | applications/ebos/eclwellmanager.hh:452-482 | one iteration of the loop updates both total maps at the well's name |
| EclWellManager.WellManager.WellNames | applications/ebos/eclwellmanager.hh:450-452 | the well names in well order |
| BlackOilRateVector.BlackOilRateVector.constructor | ewoms/models/blackoil/blackoilratevector.hh:67-68 | a vector of the given number of equations |
| BlackOilRateVector.BlackOilRateVector.SetMassRate | ewoms/models/blackoil/blackoilratevector.hh:90-91 | the vector becomes the given mass rates |
| BlackOilRateVector.BlackOilRateVector.SetMolarRate | ewoms/models/blackoil/blackoilratevector.hh:96-104 | component entries become molar rate times molar mass; the other entries equal the argument |
| BlackOilRateVector.BlackOilRateVector.SetVolumetricRate | ewoms/models/blackoil/blackoilratevector.hh:109-119 | each component entry becomes density*massFraction*volume; non-component entries are unchanged |
| BlackOilRateVector.BlackOilRateVector.AssignScalar | ewoms/models/blackoil/blackoilratevector.hh:124-130 | every entry becomes the scalar |
| BlackOilRateVector.BlackOilRateVector.Assign | ewoms/models/blackoil/blackoilratevector.hh:135-140 | an element-by-element copy of the other vector |
| FlashRateVector.FlashRateVector.constructor | ewoms/models/flash/flashratevector.hh:64-65 | a vector of the given number of equations |
| FlashRateVector.FlashRateVector.SetMolarRate | ewoms/models/flash/flashratevector.hh:96-97 | the vector becomes the given molar rates |
| FlashRateVector.FlashRateVector.SetMassRate | ewoms/models/flash/flashratevector.hh:83-91 | component entries become mass rate divided by molar mass; the other entries equal the argument, which is not modified |
| FlashRateVector.FlashRateVector.SetVolumetricRate | ewoms/models/flash/flashratevector.hh:108-118 | each component entry becomes density(phase, c)*moleFraction*volume; non-component entries are unchanged |
| FlashRateVector.FlashRateVector.AssignScalar | ewoms/models/flash/flashratevector.hh:123-129 | every entry becomes the scalar |
| FlashRateVector.FlashRateVector.Assign | ewoms/models/flash/flashratevector.hh:134-139 | an element-by-element copy of the other vector |
| RichardsRateVector.RichardsMolarUpdate | ewoms/models/richards/richardsratevector.hh:93-98 | only the continuity entry changes, to its molar rate times the liquid's molar mass |
| RichardsRateVector.RichardsMolarIsSingleComponentConversion | ewoms/models/richards/richardsratevector.hh:93-98 | on a vector already holding the rates, this is the black-oil conversion for one component at the continuity equation |
| RichardsRateVector.RichardsMolarReadsOnlyContinuityEntry | ewoms/models/richards/richardsratevector.hh:93-98 | two arguments give the same result iff their converted continuity entries agree, and setting twice equals setting once |
| RichardsRateVector.RichardsRateVector.constructor | ewoms/models/richards/richardsratevector.hh:66-67 | a vector of the given number of equations |
| RichardsRateVector.RichardsRateVector.SetMassRate | ewoms/models/richards/richardsratevector.hh:87-88 | the vector becomes the given mass rates |
| RichardsRateVector.RichardsRateVector.SetMolarRate | ewoms/models/richards/richardsratevector.hh:93-98 | the vector becomes RichardsMolarUpdate of its old contents |
| RichardsRateVector.RichardsRateVector.SetVolumetricRate | ewoms/models/richards/richardsratevector.hh:110-119 | the continuity entry becomes density*massFraction(liquid)*volume; every other entry is unchanged |
| RichardsRateVector.RichardsRateVector.AssignScalar | ewoms/models/richards/richardsratevector.hh:125-131 | every entry becomes the scalar |
| RichardsRateVector.RichardsRateVector.Assign | ewoms/models/richards/richardsratevector.hh:136-141 | an element-by-element copy of the other vector |
| RateVectorSpec.MassFromMolar | ewoms/models/blackoil/blackoilratevector.hh:96-104 | component entries are multiplied by their molar mass; the other entries are kept |
| RateVectorSpec.MolarFromMass | ewoms/models/flash/flashratevector.hh:83-91 | component entries are divided by their molar mass; the other entries are kept |
| RateVectorSpec.MassMolarRoundTrip | ewoms/models/flash/flashratevector.hh:83-91 | mass to molar and back is the identity when molar masses are non-zero |
| RateVectorSpec.MolarMassRoundTrip | ewoms/models/blackoil/blackoilratevector.hh:96-104 | molar to mass and back is the identity when molar masses are non-zero |
| RateVectorSpec.VolumetricRatesAddUp | ewoms/models/blackoil/blackoilratevector.hh:109-119 | the component mass rates set from a volume sum to density*volume*(sum of the mass fractions) |
| RateConversion.MassThroughMolar | ewoms/models/flash/flashratevector.hh:83-91 | a flash vector gets the molar rates of a mass rate; a black-oil vector set from those molar rates holds the mass rate again |
| GroundwaterProblem.CoordinateInRange | appl/lecture/mhs/groundwater/groundwater_problem.hh:159-162 | a position inside the domain gives a cell coordinate within the resolution |
| GroundwaterProblem.RowMajorSplit | appl/lecture/mhs/groundwater/groundwater_problem.hh:159-162 | a row-major index splits back into its column and row |
| GroundwaterProblem.MulAtLeast | appl/lecture/mhs/groundwater/groundwater_problem.hh:159-162 | proof helper of RowMajorSplit: a factor of at least 1 does not shrink a positive resolution |
| GroundwaterProblem.CellIndexIsRowMajor | appl/lecture/mhs/groundwater/groundwater_problem.hh:159-162 | a source inside the domain lies in a cell of the grid; its index modulo res0 is its x cell and its quotient is its y cell |
| GroundwaterProblem.RowMajorBound | appl/lecture/mhs/groundwater/groundwater_problem.hh:159-162 | proof helper of CellIndexIsRowMajor: a row-major index of a cell in the grid is below res0*res1 |
| GroundwaterProblem.ParsedSources | appl/lecture/mhs/groundwater/groundwater_problem.hh:149-164 | len/3 sources, source k from entries 3k, 3k+1 and 3k+2 with its cell index; a trailing incomplete group is ignored |
| GroundwaterProblem.FlattenSources | appl/lecture/mhs/groundwater/groundwater_problem.hh:149-164 | a parameter array of three entries per source |
| GroundwaterProblem.FlattenSourcesAt | appl/lecture/mhs/groundwater/groundwater_problem.hh:149-164 | entries 3k, 3k+1 and 3k+2 are source k's x, y and q |
| GroundwaterProblem.SourcesRoundTrip | appl/lecture/mhs/groundwater/groundwater_problem.hh:149-164 | parsing the flattened sources gives the sources back |
| GroundwaterProblem.ReadSources | appl/lecture/mhs/groundwater/groundwater_problem.hh:149-164 | the push_back loop produces ParsedSources |
| GroundwaterProblem.ParsedSegments | appl/lecture/mhs/groundwater/groundwater_problem.hh:166-210 | len/4 segments (from, to, third entry != 0, value) |
| GroundwaterProblem.FlattenSegments | appl/lecture/mhs/groundwater/groundwater_problem.hh:166-210 | a parameter array of four entries per segment |
| GroundwaterProblem.FlattenSegmentsAt | appl/lecture/mhs/groundwater/groundwater_problem.hh:166-210 | entries 4k to 4k+3 are segment k's from, to, neumann flag and value |
| GroundwaterProblem.SegmentsRoundTrip | appl/lecture/mhs/groundwater/groundwater_problem.hh:166-210 | parsing the flattened segments gives the segments back |
| GroundwaterProblem.ReadSegments | appl/lecture/mhs/groundwater/groundwater_problem.hh:166-210 | the push_back loop produces ParsedSegments |
| GroundwaterProblem.BoundarySide | appl/lecture/mhs/groundwater/groundwater_problem.hh:272-297 | sides are tested left, bottom, right, top with later ones overriding; no match gives slot 0 and coordinate 0 |
| GroundwaterProblem.FirstSegment | appl/lecture/mhs/groundwater/groundwater_problem.hh:299-311 | the first segment in list order with from < coordinate < to, or none when no segment contains it |
| GroundwaterProblem.GroundwaterProblem.constructor | appl/lecture/mhs/groundwater/groundwater_problem.hh:140-212 | the sources and the segments of the slots left 2, right 3, bottom 1 and top 0 are parsed from the arrays |
| GroundwaterProblem.GroundwaterProblem.SegmentAt | appl/lecture/mhs/groundwater/groundwater_problem.hh:299-311 | the first segment of the position's side containing its coordinate, or none |
| GroundwaterProblem.GroundwaterProblem.BoundaryTypesAtPos | appl/lecture/mhs/groundwater/groundwater_problem.hh:268-312 | Dirichlet iff the matching segment exists and is not Neumann |
| GroundwaterProblem.GroundwaterProblem.DirichletAtPos | appl/lecture/mhs/groundwater/groundwater_problem.hh:316-357 | 0 when no segment matches |
| GroundwaterProblem.GroundwaterProblem.NeumannAtPos | appl/lecture/mhs/groundwater/groundwater_problem.hh:360-400 | 0 when no segment matches |
| GroundwaterProblem.BoundaryValuesAgree | appl/lecture/mhs/groundwater/groundwater_problem.hh:347-397 | no match gives Neumann with Dirichlet and Neumann values 0; any matching segment, whatever its kind, gives the Dirichlet value value*density*9.81 and the Neumann value -value*density |
| GroundwaterProblem.SourceSum | appl/lecture/mhs/groundwater/groundwater_problem.hh:251-261 | 0 when no source lies in the element |
| GroundwaterProblem.SourceSumAppend | appl/lecture/mhs/groundwater/groundwater_problem.hh:251-261 | the source term of two source lists is the sum of theirs |
| GroundwaterProblem.LoneSourceSum | appl/lecture/mhs/groundwater/groundwater_problem.hh:251-261 | a source alone in its cell is the cell's whole source term |
| GroundwaterProblem.SingleSourceOfCell | appl/lecture/mhs/groundwater/groundwater_problem.hh:251-261 | that term is q*density/volume/depth |
| GroundwaterProblem.CellIndex | appl/lecture/mhs/groundwater/groundwater_problem.hh:159-162 | column floor plus row floor times res0; CellIndexIsRowMajor states it is a grid cell index |
| GroundwaterProblem.GroundwaterProblem.SourceAt | appl/lecture/mhs/groundwater/groundwater_problem.hh:251-261 | the source term of an element, SourceSum over the parsed sources, whose properties SourceSumAppend, LoneSourceSum and SingleSourceOfCell state |

## Behaviour kept as written

- `receiveAddBorder_` overwrites a non-border row with the value of *any* peer that lists it, not only its master's. A non-border shared row therefore ends up with the last such peer's value in peer order. The model follows the code (`BlockVectorSpec.MergeAddBorderAt`). The comments of `assignAddBorder` and `syncAddBorder` (overlappingblockvector.hh:121-122 and 222-223) say such rows take their master's value. When the sender is the row's master, the row does take its value (`TwoProcessSync.SyncAddBorderTakesMasterValue`). A row the receiver masters itself is still overwritten by the sender's value (`TwoProcessSync.SyncAddBorderOverwritesMasteredRow`).
- The exterior index of a boundary face is the constant -10000 stored in an unsigned 32-bit index, that is 2^32 - 10000 (`EcfvStencil.BoundaryExteriorIdx`).
- For a RESV producer the source sets the maximum *surface* rate from the deck's reservoir rate. The model keeps that assignment.
- The flash `setVolumetricRate` uses the two-argument density of a component in a phase, not the phase density.
- The `wellIndex` error text is kept verbatim, including the missing space before "found".

## Left out

- The MPI transport (`MpiBuffer` send/receive/wait, non-blocking pipelining, `waitSendFinished_`) is left out. Messages are the `incoming`/`outgoing` maps of sequences passed between process states.
- `print()` of the overlapping block vector is console output.
- The copy constructor and `operator=` of the overlapping block vector are left out, and so is their sharing of the buffer plans through shared pointers. The model has no aliasing between vectors.
- The construction of the overlap descriptor is not part of this model. It is an abstract record whose consistency requirements are preconditions.
- Floating point is not modelled. Blocks and rates are `real`, so summation order and rounding do not matter.
- The geometry of the stencil (centres, volumes, normals, areas), `updateScvGradients` and `updateCenterGradients` are left out. The Dune element mapper is an abstract function.
- The actual computation of intensive and extensive quantities, the gradient calculator, and the simulator and model references are left out. They are opaque values and functions passed in, and the model's cache is a map passed in and returned.
- `dofIdxSaved_` is uninitialised at construction. The ghost flag `dofIdxSavedSet` records whether it has been assigned, and `EvalPointIntensiveQuantities` at history index 0 requires it.
- An `extensiveQuantitiesEval_` that was never set is the `Unset` evaluation point, which history index 0 must not read.
- FvBaseElementContext.FvBaseElementContext.UpdateAllIntensiveQuantities: the model forgets the saved DOF before updating rather than after. No update reads or writes the saved index, so the final state is the same.
- FvBaseElementContext.FvBaseElementContext.UpdateStencilTopology: it does not promise the context invariant. As in the source, the DOF store is not resized until the next `updateStencil`.
- The Peaceman well internals are left out, and so are `beginIteration`, `endIteration`, `computeTotalRatesForDof` and the per-completion data.
- The grid traversal in `updateWellTopology_` and `updateWellParameters_`, and `computeWellCompletionsMap_`, are left out.
- OpenMP threading, `serialize`/`deserialize`, console warnings and the `setRadius` exception are left out.
- The Opm parser types are replaced by enumerations and records. Schedule events other than the five the well manager tests are lumped into `OTHER_EVENT`.
- `beginTimeStep` only notifies the wells and `endEpisode` is empty, so both are left out. The `wasRestarted` flag of `beginEpisode` only forces `updateWellTopology_`, which is left out.
- `EnergyModule::setEnthalpyRate` and the energy part of `setVolumetricRate` in the three rate vectors are left out. The energy module is not part of this model.
- `writeOutput`, `exact` and `exactGrad` of the groundwater problem are left out, and so are its `Params::tree()` reads. The arrays read from the parameter tree are inputs.
- The groundwater problem divides by the domain size, the cell volume and the depth, and the flash rate vector's `setMassRate` divides by the component molar masses. Those operations require these values to be non-zero (the flash vector keeps its molar masses positive in its invariant), as the source assumes of its inputs.
- GroundwaterProblem.GroundwaterProblem.DirichletAtPos: its own contract states only the no-match case. The value for any matching segment, value*density*9.81, is stated in `GroundwaterProblem.BoundaryValuesAgree`.
- GroundwaterProblem.GroundwaterProblem.NeumannAtPos: its own contract states only the no-match case. The value for any matching segment, -value*density, is stated in `GroundwaterProblem.BoundaryValuesAgree`.

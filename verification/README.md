# The animation runtime, modelled and proved

This project models the animation runtime under `src/animation`: how a DObj is
assembled from models and its skeleton evaluated part by part, how weighted
animation trees live in one shared node pool, how animation samples are found,
blended and written, how notes are delivered, and what the bounded asset loaders
guarantee to the unchecked code behind them. Each module states the behaviour of
one component on values and proves its properties over every input or every run;
where the source updates memory step by step, a class or an array method does
the same steps and is proved against that statement.

| module | component |
|---|---|
| `Outcomes`, `Words` | optional values and failures; 16-bit words |
| `DObjLayout` | models in a DObj, part lookup, duplicate parts, construction |
| `Hierarchy` | the hierarchy bit masks |
| `Skeleton`, `PoseRuns`, `PoseMeaning` | `DObjCalcSkel` as an in-place evaluator, whole runs of pose calls, and what a finished pose is made of |
| `AnimPool`, `AnimWeights`, `AnimUpdates`, `AnimRuntime` | the node pool, lane weights and clocks, what an update of a subtree does, and every operation that takes or frees nodes |
| `AnimGoals`, `AnimClocks` | what a goal comes to for a node and its relatives; how far a frame moves every node of a tree |
| `AnimTransfer`, `AnimRuns` | clone, save and load of trees; whole runs, ending in no leak |
| `PartRemap`, `RemapCache` | the animation-part remap and its generation-stamped cache |
| `PoseBlend` | `XAnimCalc` and `DObjCalcAnim` over a weighted tree |
| `ServerNotify` | server note delivery over frames, windows, loops and time changes |
| `NotifyQueue` | the sorted queue of client notes |
| `SyncNodes` | marking sync nodes of a source tree |
| `Bytes`, `KeySearch`, `QuatDecode` | the bounded animation loader, the key search it feeds, packed rotations |
| `TriangleStrips`, `SurfaceFormat`, `SurfaceValidator`, `SurfaceReader`, `SurfaceWriter` | the surface file: validator, unchecked reader, triangle strips, and a writer whose records the reader gets back |
| `SurfaceMasks` | surface lists and part masks across 32-bit words |
| `DObjSlots` | the slot allocator with two packed owners per slot |

Modelling choices:

- Quaternions, vectors and matrices of the skeleton are symbolic terms, so that
  equality of poses means the same compositions in the same order. Weights,
  times and blended lanes are reals; products, quotients and lengths of the
  blender are parameters.
- A script-string, a pool record or a slot is a number; reference counts and
  constructed DObjs are explicit state, so that releasing twice or freeing twice
  is a failed precondition.
- `Com_Error(ERR_DROP)` does not return: it is a failed step, an `ok` that is
  false or an `Error` result, and each contract says exactly when it comes.
- Part masks are vectors of 128 booleans, and mask words in `SurfaceMasks` are
  the sets of their one bits. Ownership bytes in `DObjSlots` are 8-bit vectors.
- What a definition that both a method and its contract use comes to is stated
  once more without it: `PoseMeaning` reads the symbolic poses as words of
  rotations and sums of translations, `AnimGoals` and `AnimClocks` speak of
  targets, distances and times, `PoseBlend.RootBrings` of lanes and lengths,
  `TriangleStrips.Wound` of corners and edges.
- Bone names inside one model are assumed distinct where a statement needs it
  (`DistinctPerModel`), because the loader does not check it.

Where the code is not what one would expect, the code is followed:

- A duplicate part that is also a control part stalls the remap cursor of
  `DObjCalcSkel` (src/animation/dobj_core.c:768-776). `PoseRuns.RightIffNoStall`
  gives the exact condition, and `PoseRuns.TagRunIsAllowed` shows that callers
  who set control poses by tag never meet it.
- `DObjCompleteHierarchyBits` does not test a bone's own bit
  (src/animation/dobj_core.c:656-662): the result is closed and contains the
  request but may be larger than needed (`Hierarchy.NotLeast`).
  `Hierarchy.LeastIff` says exactly when it is not, and
  `Hierarchy.PredecessorsSet` names parts that are set whatever was requested.
- A server window of a full cycle or more does not deliver every crossed note
  (`ServerNotify.RightIffUnderOneCycle`). `XAnimSetTime` does not look the note
  index up again and can lose a note (`ServerNotify.SetTimeLosesNote`); for any
  index `WindowRightIff` and `LoopRightIff` say exactly which windows are right.
  At the largest 16-bit cycle the loop point is never passed
  (`ServerNotify.AcceptedIff`, `LastCycleRefuses`).
- Two remap tables keep live DObjs apart exactly while at most two are live
  (`RemapCache.ApartIffTwo`); with more of them, the last taker of a table still
  gets its own remap, and `RemapCache.SharedTableIff` says when another one does.
- Creating a DObj over a live handle loses the old slot for good
  (`DObjSlots.CreateTwiceLoses`); `DObjSlots.StepLeaks` says exactly when
  ownership is lost or taken back.
- `ReadQuat` wraps for one input only, all three lanes at -32768
  (`QuatDecode.LastLaneMeaning`), and the continuity pass is right against every
  predecessor exactly for frames without a lane at -32768
  (`QuatDecode.FollowRightIff`).
- When an animation repeats a part name, the remap differs from the part lookup
  exactly for the earlier occurrences (`PartRemap.TableAgreesWithLookup`).

## Model

| member | source | states |
|---|---|---|
| DObjLayout.GetBoneIndex | src/animation/xmodel_accessors.c:50-62 | the last part of a model with a name, or none |
| DObjLayout.FindPartIndex | src/animation/dobj_accessors.c:197-212 | the part found in the first model that has the name |
| DObjLayout.FindOwnName | src/animation/dobj_accessors.c:197-212 | looking up a part's own name finds the part itself or one of an earlier model |
| DObjLayout.LookupIsNotDuplicate | src/animation/dobj_accessors.c:197-212 | a part found by name is never a duplicate |
| DObjLayout.CreateDuplicateParts | src/animation/dobj_core.c:410-489 | the remap lists exactly the duplicate parts, in part order, each with the part its name resolves to |
| DObjLayout.RemapBytesNonZero | src/animation/dobj_core.c:410-489 | every byte of the remap fits and only the terminator is zero, so it survives as a zero-terminated string |
| DObjLayout.Create | src/animation/dobj_core.c:940-1074 | fails exactly when there are more than eight models or the models it keeps have more than 127 bones together; else the DObj holds, in order, the models whose tag resolves against those placed before, and satisfies every construction invariant |
| DObjLayout.PlaceModel | src/animation/dobj_core.c:989-1073 | one construction round places a model, leaves no trace of it, or fails exactly when the kept model does not fit |
| DObjLayout.ResolveParent | src/animation/dobj_core.c:1006-1045 | the tag search finds the first placed model that has the tag |
| DObjLayout.AttachedCarriesTag | src/animation/dobj_core.c:989-1073 | a later model is melded exactly when it has no tag, else it hangs on the part a lookup of the tag finds |
| Hierarchy.TargetForSource | src/animation/dobj_core.c:559-562 | the remap walk finds the target of a duplicate |
| Hierarchy.GetHierarchyBits | src/animation/dobj_core.c:494-593 | terminates and sets exactly the chain of parts that must be evaluated before the bone, and nothing for an index out of range |
| Hierarchy.ChainMaskClosed | src/animation/dobj_core.c:494-593 | that mask is the least closed one with the bone |
| Hierarchy.CompleteHierarchyBits | src/animation/dobj_core.c:598-691 | the result is closed and contains the request; a part is in it exactly if requested or pulled in by a marked part |
| Hierarchy.LeastExists | src/animation/dobj_core.c:598-691 | every request has a least closed mask: what the requested parts are evaluated from |
| Hierarchy.LeastIff | src/animation/dobj_core.c:598-691 | the sweep gives the least closed mask if and only if that mask already has the predecessor of every part the sweep does not skip on it |
| Hierarchy.PredecessorsSet | src/animation/dobj_core.c:656-662 | whatever is requested, the predecessor of every part whose number is not a multiple of eight is set |
| Hierarchy.NotLeast | src/animation/dobj_core.c:656-662 | on two bones the empty request, closed as it is, comes back with the root set |
| Skeleton.ComputeMasks | src/animation/dobj_core.c:695-748 | the per-call masks: what is fresh, what needs its rotation, its matrix, or a copy |
| Skeleton.CursorStep | src/animation/dobj_core.c:169-182 | the remap cursor stays on the next duplicate unless a control duplicate stalled it |
| Skeleton.SkelStore.constructor | src/animation/dobj_accessors.c:74-83 | new storage has no part evaluated, controlled or finished |
| Skeleton.SkelStore.SetPose | src/animation/dobj_accessors.c:146-194 | a caller's pose is accepted exactly for a requested, unfinished part in range, and marks it |
| Skeleton.SkelStore.QuatPass | src/animation/dobj_core.c:750-837 | the rotation pass leaves every part with its final rotation, composed once |
| Skeleton.SkelStore.MatPass | src/animation/dobj_core.c:839-931 | the matrix pass leaves every part with its final matrix and position |
| Skeleton.SkelStore.CalcSkel | src/animation/dobj_core.c:695-932 | the whole call turns the storage into the recursive evaluation of the request, stall included |
| PoseRuns.EvalIsWorld | src/animation/dobj_core.c:695-932 | without a stall every requested part gets its recursive world pose |
| PoseRuns.WorldFrame | src/animation/dobj_core.c:695-932 | the world poses of a closed set depend on the poses inside the set only |
| PoseRuns.StepSettles | src/animation/dobj_core.c:695-932 | every pose call keeps: finished parts hold their world pose, others their local pose |
| PoseRuns.RunSettles | src/animation/dobj_core.c:695-932 | the same over any run of animation, control and skeleton calls |
| PoseRuns.FreshSkelSettled | src/animation/dobj_accessors.c:74-83 | new storage starts a run |
| PoseRuns.TagRunIsAllowed | src/animation/dobj_accessors.c:171-212 | runs that set control poses on parts found by name never stall |
| PoseRuns.TwoCallsAreOne | src/animation/dobj_core.c:695-932 | two skeleton calls do what one call with both requests does, to the last field |
| PoseRuns.SplitIndependent | src/animation/dobj_core.c:695-932 | however a request is split into calls, the storage ends up the same |
| PoseRuns.RightIffNoStall | src/animation/dobj_core.c:768-776 | a call is right for all poses if and only if no fresh requested part is both a duplicate and a control part |
| PoseMeaning.WorldMeans | src/animation/dobj_core.c:750-931 | read as a word, the rotation of a world pose lists the parts of the chain from the part to the root, control parts on the other side; its position sums, each once, the local translations and the base translations of the non-root parts, turned by what they hang on |
| PoseMeaning.FinishedMeans | src/animation/dobj_core.c:695-932 | that is what a settled storage holds for every finished part |
| PoseMeaning.FreshCallMeans | src/animation/dobj_core.c:695-932 | that is what one call without a stall leaves at every requested part of fresh storage |
| PoseMeaning.RunMeans | src/animation/dobj_core.c:695-932 | and what any run of pose calls leaves at every finished part |
| PoseMeaning.PositionTotal | src/animation/dobj_core.c:905-925 | where rotations do nothing, the position is the plain sum along the chain: every local translation and every base translation of a non-root part exactly once |
| AnimPool.DeadRootDeadTree | src/animation/xanim_tree_clear.c:16-32 | in a closed tree a dead root means a dead tree |
| AnimPool.Conservation | src/animation/xanim_pool_nodes.c:49-84 | free records, records in use and record 0 make up the pool of 2048 |
| AnimPool.Census | src/animation/xanim_pool_nodes.c:49-84 | free records, the live nodes of all trees and record 0 make up the pool: no record is shared or lost |
| AnimPool.PushRing | src/animation/xanim_pool_nodes.c:49-62 | freeing relinks the doubly linked ring through record 0 |
| AnimPool.PopRing | src/animation/xanim_pool_nodes.c:64-84 | taking the head keeps the ring |
| AnimPool.NamesFree | src/animation/xanim_pool_nodes.c:20-62 | freeing a record releases its one reference, though the stale name stays |
| AnimWeights.StepKeepsSlope | src/animation/xanim_runtime.c:247-266 | a blend step shrinks the distance to the goal and the time left in proportion; `AnimGoals.HeadingSteady` gives the speed |
| AnimWeights.StepsAdd | src/animation/xanim_runtime.c:247-266 | two short frames blend as far as one long one |
| AnimWeights.BlendArrives | src/animation/xanim_runtime.c:247-266 | however the frames fall, the goal is reached once the blend time has passed, and kept |
| AnimWeights.TicksAdd | src/animation/xanim_runtime.c:367-391 | however the frames fall, a looping or stopping animation reaches the same time and 16-bit cycle |
| AnimWeights.GreatestIsWanted | src/animation/xanim_runtime.c:1201-1232 | the search finds a leaf if and only if some leaf below is reached by goal weights alone, and what it finds is such a leaf |
| AnimWeights.GreatestOfWanted | src/animation/xanim_runtime.c:1212-1231 | no child that outweighs the choice among the first children has such a leaf |
| AnimWeights.DeadAboveCounts | src/animation/xanim_runtime.c:1325-1337 | the records a goal takes for ancestors are as many as the node has dead ancestors |
| AnimWeights.RaiseOne | src/animation/xanim_runtime.c:1325-1337 | creating one more missing ancestor extends the created chain and touches nothing else |
| AnimWeights.GoalThenParents | src/animation/xanim_runtime.c:1341-1359 | setting a goal and then raising the parents changes that record and the missing ancestors only |
| AnimWeights.CompleteOne | src/animation/xanim_runtime.c:1376-1389 | one step of the complete walk extends it by exactly the next ancestor |
| AnimWeights.ClearOne | src/animation/xanim_runtime.c:1093-1100 | clearing one more sibling extends the cleared range by exactly that sibling |
| AnimWeights.EffectiveKept | src/animation/xanim_runtime.c:1093-1100 | whether a sibling has an effect does not depend on the siblings cleared before it |
| AnimGoals.HeadingArrives | src/animation/xanim_runtime.c:1271-1295 | a lane given a goal is at its weight after any frames that last the distance times the blend time, and at once for a blend time of zero |
| AnimGoals.HeadingSteady | src/animation/xanim_runtime.c:247-266 | until then the share of the way done is the share of the time passed, however the frames fall |
| AnimGoals.HeadingVisible | src/animation/xanim_runtime.c:1287-1295 | a lane that heads for a weight has one after every frame |
| AnimGoals.FadesClean | src/animation/xanim_runtime.c:247-266 | a lane that heads for nothing never keeps a weight too small to see |
| AnimGoals.LettingGoArrives | src/animation/xanim_runtime.c:966-993 | a cleared lane is at zero after any frames that last the blend time |
| AnimGoals.GoalMeans | src/animation/xanim_runtime.c:1237-1359 | after a goal is set the lane heads for the weight at the rate (the root for full weight), from where it was, over distance times blend time; clock and other lane are untouched, name and notify child are exact; missing ancestors are live without weight, all else is kept |
| AnimGoals.CompleteMeans | src/animation/xanim_runtime.c:1364-1395 | after a complete goal every ancestor is live: one that was idle or missing heads for full weight, any other is kept |
| AnimGoals.EffectiveMeans | src/animation/xanim_runtime.c:966-993 | a node has an effect exactly if some leaf at or below it has weight all the way up to the root |
| AnimGoals.KnobMeans | src/animation/xanim_runtime.c:1041-1101 | the live siblings of a knob, and nothing else, let go within the time that the longest way of the family takes |
| AnimGoals.KnobAllMeans | src/animation/xanim_runtime.c:1123-1162 | after a knob up to an ancestor the node has its goal, every ancestor on the way heads for full weight and its live siblings for none, and nothing apart from these families changed |
| AnimUpdates.AdvanceTouches | src/animation/xanim_runtime.c:471-542 | an update touches nothing outside its subtree; nodes only die |
| AnimUpdates.SnapTidies | src/animation/xanim_state.c:231-266 | after the no-weight walk a lane or a live child supports every live node of the subtree |
| AnimUpdates.AdvanceTidies | src/animation/xanim_runtime.c:312-467 | the same after an update: whatever no lane and no child supports has been freed |
| AnimUpdates.AdvanceBlends | src/animation/xanim_runtime.c:230-542 | every surviving node on a path of nodes that carry on has taken exactly one step of the walk that reaches it, weight, time and cycle, and nothing else of its record changed |
| AnimUpdates.SweptWhole | src/animation/xanim_runtime.c:1399-1410 | support and steps for a whole closed tree |
| AnimUpdates.SyncedTogether | src/animation/xanim_runtime.c:424-466 | below a sync node that keeps its own time every survivor on such a path ends the frame with the time and cycle of the sync node |
| AnimUpdates.WalkSplit | src/animation/xanim_runtime.c:312-467 | the rates and clocks a node is reached with can be followed in any two stretches of the path |
| AnimClocks.FrequencyRuns | src/animation/xanim_runtime.c:23-62 | the frequency of a leaf is its own; that of any other node times the weights of its children with weight and frequency is the sum of weight times frequency times rate, at every depth |
| AnimClocks.SweptTravels | src/animation/xanim_runtime.c:312-467 | in a client frame a surviving leaf or sync node on a carrying path with no sync node above moves by frequency, its rate, the frame and the rates above multiplied: a loop's cycle and time grow by exactly that, modulo 65536 cycles, and anything else stays at the end; the old time and cycle are those before the frame |
| AnimClocks.SweptFollows | src/animation/xanim_runtime.c:268-310 | below the first sync node of its path a survivor ends the frame on that node's clock |
| AnimClocks.SweptStamps | src/animation/xanim_runtime.c:471-497 | in a server frame a survivor remembers where the frame found it and stays there |
| AnimClocks.SnapJumps | src/animation/xanim_state.c:231-266 | below a node without weight every survivor has jumped to its goal and nothing else of it changed |
| AnimClocks.AdvanceJumps | src/animation/xanim_runtime.c:400-421 | the same below a node that comes to rest inside an update |
| AnimClocks.MovingOrResting | src/animation/xanim_runtime.c:312-467 | every live node of a closed tree is on a path of weights or below one that ends |
| AnimClocks.AdvanceMoves | src/animation/xanim_runtime.c:1399-1477 | together: what a whole frame makes of every node that is left |
| AnimRuntime.Runtime.constructor | src/animation/xanim_pool_lifecycle.c:25-51 | the initial pool is one ring of all records but record 0 |
| AnimRuntime.Runtime.FreeInfo | src/animation/xanim_pool_nodes.c:49-62 | a node's record goes back, its handle, counters and name reference with it, all invariants kept |
| AnimRuntime.Runtime.AllocInfo | src/animation/xanim_pool_nodes.c:64-84 | a dead node gets the head of the free list, or exactly when all 2048 records are in use nothing changes |
| AnimRuntime.Runtime.ClearTreeWeights | src/animation/xanim_tree_clear.c:16-32 | stops at dead nodes, yet leaves nothing live below |
| AnimRuntime.Runtime.ClearTree | src/animation/xanim_tree_clear.c:45-77 | every node of the tree goes back to the pool and its active count is zero |
| AnimRuntime.Runtime.UpdateNoWeight | src/animation/xanim_runtime.c:66-101 | below a weightless node every lane jumps to its goal and what nothing holds is freed; live nodes keep live parents |
| AnimRuntime.Runtime.UpdateSync | src/animation/xanim_runtime.c:230-542 | handles and records after the update, frame stamps and handed-down times included, are exactly the recursive walk of the subtree; freed nodes are weightless, no live node loses its parent |
| AnimRuntime.Runtime.UpdateClient | src/animation/xanim_runtime.c:312-467 | the client walk is exact in the same way: leaves and sync nodes move their own time, everything below a sync node takes its clock |
| AnimRuntime.Tick | src/animation/xanim_runtime.c:367-391 | the wrap loop or the clamp gives the fractional time and the 16-bit cycle |
| AnimRuntime.Runtime.AverageFrequency | src/animation/xanim_runtime.c:23-62 | the weighted mean frequency over the children that have a weight and a frequency |
| AnimRuntime.Runtime.GreatestDescendant | src/animation/xanim_runtime.c:1201-1232 | the loop finds the leaf down the heaviest goals |
| AnimRuntime.Runtime.ClearGoalWeight | src/animation/xanim_runtime.c:966-993 | exactly one record changes: it lets go at once if the node has no effect, else over the blend time; the server lane drops the notify |
| AnimRuntime.Runtime.SetGoalWeightInternal | src/animation/xanim_runtime.c:1237-1321 | the node's whole new record, a new one or the old one aimed at the goal, with its notify child and the result code; nothing else changes, and it fails exactly when it needs a record and none is free |
| AnimRuntime.Runtime.EnsureGoalWeightParent | src/animation/xanim_runtime.c:1325-1337 | exactly the missing ancestors are created, so live nodes have live parents again; it fails exactly when there are more of them than free records |
| AnimRuntime.Runtime.SetGoalWeight | src/animation/xanim_runtime.c:1341-1359 | it fails exactly when the node, if it needs a record, and its dead ancestors outnumber the free records; else the node has its goal, the node heads for the clipped weight at the rate, clock and other lane untouched, exactly the missing ancestors were created, all else is as before, the tree is closed, and the code is exact |
| AnimRuntime.Runtime.ClearKnob | src/animation/xanim_runtime.c:1041-1101 | exactly the live siblings let go, each at once or over a time set by the longest way in the family, depending on its effect before the call |
| AnimRuntime.Runtime.SetGoalWeightKnob | src/animation/xanim_runtime.c:1105-1180 | siblings let go, over a time that follows the clipped weight in the plain form and the given one in the complete form, then the plain or the complete goal is set; it fails exactly when that does |
| AnimRuntime.Runtime.SetGoalWeightKnobAll | src/animation/xanim_runtime.c:1123-1162 | after the node itself each ancestor below the given one is set as a full-weight knob, in order; the code tells whether that one is an ancestor; only the head can fail, exactly when its records are missing |
| AnimRuntime.Runtime.SetCompleteGoalWeight | src/animation/xanim_runtime.c:1363-1395 | every ancestor ends up live and heading for a weight; idle ones get full weight, the others are untouched; it fails exactly when the dead ones outnumber the free records |
| AnimTransfer.CloneTree | src/animation/xanim_serialization.c:138-164 | from any starting destination the destination equals the source, which is left alone; it fails exactly when at some node no record is left |
| AnimTransfer.CloneRoom | src/animation/xanim_serialization.c:138-164 | a free record per live source node is enough, and for an empty destination also needed |
| AnimTransfer.InfoRoundTrip | src/animation/xanim_serialization.c:17-77 | a saved node record loads back exactly |
| AnimTransfer.RecordLayout | src/animation/xanim_serialization.c:29-77 | which token of a saved record holds which field, of the node and of both lanes |
| AnimTransfer.ParseSaved | src/animation/xanim_serialization.c:97-136 | parsing a saved tree gives the record of every live node |
| AnimTransfer.LoadTree | src/animation/xanim_serialization.c:97-113 | an empty tree ends up with exactly the records the stream holds; it fails exactly when the stream has another form or more records than the pool has left |
| AnimTransfer.SaveAndLoad | src/animation/xanim_serialization.c:97-136 | saving and loading into an empty tree restores the live nodes and their records, if and only if the pool has a record left for each |
| AnimTransfer.SameIsClosed | src/animation/xanim_serialization.c:138-164 | a copy of a closed tree is closed |
| AnimRuns.Frame | src/animation/xanim_runtime.c:1399-1477 | a client or server frame over a valid runtime tree keeps it valid and closed, leaves every live node supported and every survivor on a carrying path one step further in weight, time and cycle, as far as its frequency and rates say; survivors below a path that ends have jumped to their goals |
| AnimRuns.Do | src/animation/xanim_runtime.c:66-1395 | every operation keeps every tree closed, or stops at a full pool with a dead node left; pool and references are intact either way |
| AnimRuns.RunAll | src/animation/xanim_runtime.c:66-1395 | the same over any run |
| AnimRuns.ExhaustedTooBig | src/animation/xanim_pool_nodes.c:64-84 | a run can only stop if the trees have more nodes than the pool has records |
| AnimRuns.ClearAll | src/animation/xanim_tree_clear.c:45-77 | clearing every tree gives the whole pool and every name reference back |
| AnimRuns.RunAndClear | src/animation/xanim_tree_clear.c:45-77 | from the initial pool, a run over trees of at most 2047 nodes in all never fails, and clearing after any run that did not fail leaves no record and no reference behind |
| PartRemap.SetModel | src/animation/xanim_asset_load.c:732-786 | table and mask of the remap, the mask being exactly the image of the table |
| PartRemap.FirstIsFound | src/animation/dobj_accessors.c:197-212 | the first bone with a name is the part a lookup finds |
| PartRemap.TableAgreesWithLookup | src/animation/xanim_asset_load.c:732-786 | the table agrees with the part lookup if and only if the name is not repeated later or is missing |
| RemapCache.BumpAllStale | src/animation/dobj_core.c:969-981 | after a create nothing in the table counts as current, past the wrap too |
| RemapCache.StepKeeps | src/animation/dobj_core.c:963-1097 | creates, frees, lookups and clears keep stamps, handles and strings consistent, with any number of DObjs alive or forgotten |
| RemapCache.LookupIsFresh | src/animation/xanim_eval.c:747-773 | over any run a lookup yields what a fresh XAnimSetModel would build for the DObj that last took the table |
| RemapCache.SharedTableIff | src/animation/xanim_eval.c:747-773 | a DObj whose table another one took later gets its own remap if and only if the two remaps agree |
| RemapCache.PairedKeeps | src/animation/dobj_core.c:963-1097 | with at most two DObjs alive each stays the last taker of a table of its own, over every order of creates and frees |
| RemapCache.ApartIffTwo | src/animation/dobj_core.c:969-985 | a create leaves live DObjs on distinct tables if and only if fewer than two were live |
| RemapCache.HandleStored | src/animation/xanim_compat.h:48-60 | the unaligned handle store changes one handle of one table |
| RemapCache.StampStored | src/animation/xanim_compat.h:25-60 | a stamp store changes one stamp of one table |
| RemapCache.TreeTail.TakeTable | src/animation/dobj_core.c:969-985 | the byte code bumps the generation, clears the stamps on a wrap and flips the selector |
| RemapCache.TreeTail.Lookup | src/animation/xanim_eval.c:747-773 | a current stamp reuses the handle, else handle and stamp are rebuilt |
| RemapCache.TreeTail.ClearHandles | src/animation/xanim_tree_clear.c:45-77 | both handle tables end up empty, generations and stamps stay |
| PoseBlend.RemapIsSound | src/animation/xanim_asset_load.c:732-786 | a remap sends no two animation parts to one DObj part, stays inside the DObj, and its mask has exactly the animated parts |
| PoseBlend.AnimatedByName | src/animation/xanim_eval.c:285-319 | a part is animated exactly if it is what a lookup of its own name finds and an active leaf has that name |
| PoseBlend.BlendWeight | src/animation/xanim_eval.c:735-869 | a subtree gives a part its own weight if some active leaf animates it and nothing otherwise |
| PoseBlend.Evaluator.Calc | src/animation/xanim_eval.c:735-869 | whatever the clear and normalize flags, the buffer gets exactly the contribution of the subtree, skipped parts stay, and the masks of the leaf remaps mark exactly the animated parts |
| PoseBlend.Evaluator.SumChildren | src/animation/xanim_eval.c:827-856 | the child loop leaves the sum over the active children |
| PoseBlend.MergeAdds | src/animation/xanim_eval.c:643-686 | merging a child buffer adds its rescaled contribution |
| PoseBlend.ScaleInRescales | src/animation/xanim_eval.c:690-731 | scaling in place gives the same rescaled contribution |
| PoseBlend.FillBase | src/animation/xanim_eval.c:920-979 | exactly the unmarked parts take the base pose of their model |
| PoseBlend.BaseTurnAt | src/animation/xanim_eval.c:926-977 | a root part's base rotation is the identity, any other part's is its own in its model |
| PoseBlend.PoseStorage.CalcAnim | src/animation/xanim_eval.c:881-980 | unrequested or already posed parts are untouched; each other part gets its blend if animated, else the base pose; with real arithmetic the blend is what `RootBrings` says lane by lane; the evaluated mask grows by the request |
| PoseBlend.BlendBrings | src/animation/xanim_eval.c:616-869 | what a subtree adds to a part, lane by lane: a leaf its sample, one active child all of it, several the sum of what they bring, turned to a rotation of length exactly the weight and a weighted mean translation |
| PoseBlend.RootIsBrought | src/animation/xanim_eval.c:616-641 | at the root several active children are averaged: rotation and translation times the total weight are the sums of what the children bring, in every lane |
| PoseBlend.RootInCone | src/animation/xanim_eval.c:616-869 | a blended rotation lies in every set with sums and positive multiples that holds the samples feeding it |
| PoseBlend.OneRotation | src/animation/xanim_eval.c:616-869 | samples that are positive multiples of one rotation blend to a positive multiple of it |
| PoseBlend.SideKept | src/animation/xanim_eval.c:616-869 | a blended rotation is on the side of any plane on which its samples are; with a unit vector, lanes keep their sign |
| PoseBlend.RootBetween | src/animation/xanim_eval.c:616-639 | a blended translation never leaves the range of the samples that feed it |
| ServerNotify.GetNextNotifyTime | src/animation/xanim_notetrack.c:14-45 | the earliest note at or after a time, the first of equals |
| ServerNotify.BestIsNext | src/animation/xanim_notetrack.c:14-45 | on sorted notes that is the next note |
| ServerNotify.WindowContinues | src/animation/xanim_runtime.c:714-796 | a window delivers exactly the crossed notes, in order, through the loop point or not, and refreshes the index |
| ServerNotify.StopsWithEnd | src/animation/xanim_runtime.c:714-796 | an animation that stops delivers the rest of its notes with the window that reaches the end, and the end note with every window after |
| ServerNotify.WindowRightIff | src/animation/xanim_runtime.c:714-796 | whatever the stored index, a window inside a cycle delivers the crossed notes if and only if the index is current or nothing is crossed |
| ServerNotify.LoopRightIff | src/animation/xanim_runtime.c:714-796 | a window through the loop point does if and only if the index is current |
| ServerNotify.SetTimeCurrentIff | src/animation/xanim_state.c:45-62 | setting the time leaves the index current if and only if it already names the next note after the new time |
| ServerNotify.SetTimeLosesNote | src/animation/xanim_state.c:45-62 | one time change and one window lose a crossed note |
| ServerNotify.StepContinues | src/animation/xanim_runtime.c:846-912 | one frame or window keeps the index current and continues the sequence |
| ServerNotify.RunDeliversAll | src/animation/xanim_runtime.c:846-912 | over any run the delivered notes are those between the first and the last position: none lost, repeated or out of order |
| ServerNotify.RightIffUnderOneCycle | src/animation/xanim_runtime.c:714-796 | an accepted window delivers the crossed notes if and only if it is shorter than one cycle |
| ServerNotify.AcceptedIff | src/animation/xanim_runtime.c:893-909 | a step of less than a cycle is accepted if and only if its target lies before cycle 32768 |
| ServerNotify.StaleIndexSilences | src/animation/xanim_state.c:45-62 | an index left behind by a time change keeps a window silent |
| ServerNotify.LastCycleRefuses | src/animation/xanim_runtime.c:893-909 | a step past the largest 16-bit cycle changes nothing; any other step of less than a cycle moves to its target |
| ServerNotify.ServerLeaf.ProcessServerNotify | src/animation/xanim_runtime.c:714-796 | the branches and loops deliver what the definition of a window says |
| ServerNotify.ServerLeaf.WrapTime | src/animation/xanim_runtime.c:883-891 | the wrap loops compute the fractional time and the 16-bit cycle |
| ServerNotify.ServerLeaf.UpdateWindow | src/animation/xanim_runtime.c:846-912 | the leaf branch takes exactly the window step |
| SyncNodes.XAnim.FillInSyncNodes | src/animation/xanim_tree.c:124-171 | succeeds if and only if the whole subtree agrees with the kind, then marks exactly its interior nodes |
| SyncNodes.XAnim.SetupNode | src/animation/xanim_tree.c:175-204 | the same for the search of topmost sync nodes below an unsynced path |
| SyncNodes.XAnim.SetupSyncNodes | src/animation/xanim_tree.c:208-211 | succeeds if and only if the tree is consistent with its topmost sync nodes, and gives every node its exact flags |
| SyncNodes.OneKindBelow | src/animation/xanim_tree.c:124-204 | every interior node under a sync node has its one kind, every leaf loops accordingly |
| SyncNodes.NotifySourceIsTopmost | src/animation/xanim_tree.c:175-204 | a node is a notify source exactly when it is a topmost sync node, so a path has at most one |
| SyncNodes.SyncedHasSource | src/animation/xanim_tree.c:175-204 | every marked node has a notify source of its kind above it or is one |
| KeySearch.FindKey | src/animation/xanim_keys.c:22-112 | for any seed in range the search ends in the one interval that holds the target, the same as a linear scan |
| KeySearch.BracketUnique | src/animation/xanim_keys.c:22-112 | at most one interval holds a target |
| KeySearch.ValidateKeys | src/animation/xanim_asset_load.c:313-335 | accepts exactly the key lists that increase from zero to the last frame |
| KeySearch.ParseStream | src/animation/xanim_asset_load.c:379-496 | succeeds exactly on the byte sequences of the format and reads exactly count, keys and frames; sparse streams cover the animation |
| KeySearch.WidthAgrees | src/animation/xanim_asset_load.c:664-667 | loader and evaluator choose the same key width |
| KeySearch.Sample | src/animation/xanim_eval.c:152-226 | for every accepted stream and time below one both frames exist and the fraction divides the interval |
| QuatDecode.RootIsRounded | src/animation/xanim_asset_load.c:139-161 | the integer root is the real root rounded to the nearest |
| QuatDecode.LastLaneMeaning | src/animation/xanim_asset_load.c:139-161 | the fourth lane is the rounded root of what is left, or zero, for every input but one |
| QuatDecode.NormError | src/animation/xanim_asset_load.c:139-161 | inside the unit ball the squared norm is within 32767 of the unit square |
| QuatDecode.DotFits | src/animation/xanim_asset_load.c:235-254 | dot products of short quaternions fit 32 bits |
| QuatDecode.FollowRightIff | src/animation/xanim_asset_load.c:235-254 | a pass step is right against every short predecessor if and only if no lane is the minimum |
| QuatDecode.SmoothedIsContinuous | src/animation/xanim_asset_load.c:235-254 | every frame keeps its value up to sign and all consecutive dot products are non-negative |
| QuatDecode.SignsForced | src/animation/xanim_asset_load.c:235-254 | no other choice of signs with the same first frame does that |
| QuatDecode.FixContinuity | src/animation/xanim_asset_load.c:235-254 | the in-place pass computes the smoothed frames |
| QuatDecode.ReadFrames | src/animation/xanim_asset_load.c:436-448 | a decoded stream inside the unit ball is continuous, faithful up to sign and almost of unit length |
| TriangleStrips.CountStrip | src/animation/xmodel_assets.c:252-299 | the validator counts the triangles the writers write |
| TriangleStrips.WriteStrip | src/animation/xmodel_assets.c:669-716 | one strip is written inside the buffer: exactly its proper corner triples, in order, the first two corners swapped at every second one |
| TriangleStrips.StripWound | src/animation/xmodel_assets.c:609-716 | that is what the triangles of a strip are |
| TriangleStrips.NeighboursOppose | src/animation/xmodel_assets.c:609-716 | the first triple is written in its order, and neighbouring ones run through their shared edge in opposite directions, so a strip faces one way |
| TriangleStrips.TrianglesWound | src/animation/xmodel_assets.c:609-716 | a strip list is written strip after strip |
| TriangleStrips.Unstrip | src/animation/xmodel_assets.c:609-664 | the form with a flat index list writes the triangles of the strips it is cut into |
| TriangleStrips.CutFlatten | src/animation/xmodel_assets.c:609-664 | cutting a flattened strip list gives the strips back |
| TriangleStrips.TriangleCorners | src/animation/xmodel_assets.c:669-716 | written corners are strip indices and no triangle is degenerate |
| SurfaceFormat.SurfaceFits | src/animation/xmodel_assets.c:213-347 | a well-formed record lies inside the file |
| SurfaceFormat.TrianglesInRange | src/animation/xmodel_assets.c:213-347 | every triangle index is below the vertex count |
| SurfaceValidator.ValidateSurface | src/animation/xmodel_assets.c:213-347 | accepts a record if and only if it is well formed, and stops right behind it |
| SurfaceValidator.OverTotal | src/animation/xmodel_assets.c:300-330 | the early exit on a running total rejects no well-formed record |
| SurfaceValidator.ValidateFile | src/animation/xmodel_assets.c:349-370 | accepts a file if and only if version, count and every record are well formed |
| SurfaceReader.OffsetCounts | src/animation/xmodel_assets.c:736-756 | the blend stream allocated from the header is exactly filled by the records |
| SurfaceReader.BonesFit | src/animation/xmodel_assets.c:581-606 | every bone a well-formed record uses fits the usage mask |
| SurfaceReader.UnstripSerialized | src/animation/xmodel_assets.c:669-716 | the serialized form writes the triangles of the strips of the record |
| SurfaceReader.FormsAgree | src/animation/xmodel_assets.c:609-716 | both unstrip forms give the same triangle list |
| SurfaceReader.ReadTriangles | src/animation/xmodel_assets.c:826-847 | the buffer holds the declared triangles, padded to an even number by a point on the last corner |
| SurfaceReader.Surface.Read | src/animation/xmodel_assets.c:720-849 | on every record the validator accepts the unchecked reader stays in bounds, ends where the validator ended and loads what the record says; its triangle buffer shows the record's strips, wound as above, and an odd one a point at the end |
| SurfaceWriter.RecordReads | src/animation/xmodel_assets.c:581-849 | a record laid out byte by byte is well formed, ends where it ends and reads back as what was laid out: header, strips, vertices, stream offsets, weighted points and used bones |
| SurfaceReader.LoadFile | src/animation/xmodel_assets.c:1641-1676 | a file is rejected as malformed or all its surfaces are loaded |
| SurfaceMasks.ReferencesFit | src/animation/xmodel_assets.c:543-561 | accepts exactly the usage masks without bones the model lacks |
| SurfaceMasks.ShareShifts | src/animation/dobj_surfaces.c:103-130 | the share of a mask word comes from two neighbouring usage words by shifts |
| SurfaceMasks.DroppedCarryIsZero | src/animation/dobj_surfaces.c:124-130 | the carry the guard drops is empty |
| SurfaceMasks.AddSurface | src/animation/dobj_surfaces.c:91-131 | one surface adds exactly its bones moved to the DObj's parts |
| SurfaceMasks.GetNumSurfaces | src/animation/dobj_surfaces.c:7-28 | counts what the list will hold |
| SurfaceMasks.GetSurfaces | src/animation/dobj_surfaces.c:67-133 | lists the surfaces in order within the counted size and sets exactly their parts |
| SurfaceMasks.PartsAreUsedBones | src/animation/dobj_surfaces.c:67-133 | a part is set exactly if some shown surface uses it as a bone of its model |
| DObjSlots.SetOwner | src/animation/dobj_pool.c:35-57 | setting one owner's bits disturbs no other slot and not the other owner |
| DObjSlots.ClearOwner | src/animation/dobj_pool.c:35-66 | clearing them disturbs nothing else either |
| DObjSlots.StepKeeps | src/animation/dobj_pool.c:109-196 | every call keeps: handles name owned slots, no table shares one, tables share only for one entity number, and exactly the owned slots hold a DObj |
| DObjSlots.RunKeeps | src/animation/dobj_pool.c:109-196 | the same over any run |
| DObjSlots.StepLeaks | src/animation/dobj_pool.c:109-196 | exactly which ownership a call loses or takes back |
| DObjSlots.CarefulRunsLoseNothing | src/animation/dobj_pool.c:109-196 | runs whose creates meet empty handles lose no slot |
| DObjSlots.CreateTwiceLoses | src/animation/dobj_pool.c:118-122 | two creates for one entity lose the first slot for good |
| DObjSlots.EmptyTables | src/animation/dobj_pool.c:141-181 | once every handle is gone the DObjs left are exactly the lost ones |
| DObjSlots.MirrorCopies | src/animation/dobj_pool.c:183-196 | the mirror makes the client table equal the server table on the server range and keeps the rest |
| DObjSlots.DObjPool.constructor | src/animation/dobj_pool.c:68-77 | the initial pool owns nothing |
| DObjSlots.DObjPool.GetFreeDObjIndex | src/animation/dobj_pool.c:86-107 | the cyclically next free slot, and none only when every slot but 0 is owned |
| DObjSlots.DObjPool.Create | src/animation/dobj_pool.c:109-139 | takes the next free slot and never builds over a constructed DObj; fails exactly when no slot is free |
| DObjSlots.DObjPool.SafeFree | src/animation/dobj_pool.c:141-181 | drops the handle and frees the DObj exactly when its last owner goes |
| DObjSlots.DObjPool.MirrorServerDObjsToClient | src/animation/dobj_pool.c:183-196 | the loop performs the mirror step |
| NotifyQueue.Queue.Add | src/animation/xanim_runtime.c:105-135 | a note enters a queue with room and a full queue of 128 refuses it; the buffer holds exactly the queued arrivals |
| NotifyQueue.Queue.Shift | src/animation/xanim_runtime.c:120-133 | the shifting loop opens the gap behind everything that is not later |
| NotifyQueue.QueuedIsStableSort | src/animation/xanim_runtime.c:105-135 | the queue is sorted by time and keeps the arrivals of every time in order |
| NotifyQueue.StableSortUnique | src/animation/xanim_runtime.c:105-135 | no other list is sorted and does that |

## Left out

- AnimRuntime.Runtime.UpdateClient: the notes a client frame collects (`XAnimSetClientTime`) are not part of the walk; its wrap loop skips entries by design, and `NotifyQueue` covers the queue it fills.
- AnimRuntime.Runtime.AverageFrequency: it reads the client lane, the lane that is active in a client frame.
- AnimRuntime.Runtime.SetGoalWeight: `XAnimUpdateSyncTime` and `XAnimUpdateServerNotify`, which follow the setter, are not modelled; they change times and note indices only.
- AnimRuntime.Runtime.SetGoalWeightKnob: the same two calls are left out.
- AnimRuntime.Runtime.SetGoalWeightKnobAll: the same two calls, made for the node and for every ancestor, are left out.
- AnimRuntime.Runtime.SetCompleteGoalWeight: the same two calls are left out.
- AnimTransfer.LoadTree: a record is read before it is created, while the original creates it first; a load that fails is dropped either way.
- Non-looped and synchronised server windows and `XAnimFindServerNoteTrack`: `ServerNotify` follows one looped leaf, and the server lane of the pool takes its frame stamps but no windows.
- `XAnimClearTreeGoalWeights`, its strict form and `XAnimClearChildGoalWeights`: they repeat `ClearGoalWeight` over a subtree or the children.
- RemapCache.LookupIsFresh: the string table hands out one number per content; its own reference counts are not modelled here.
- QuatDecode.SmoothedIsContinuous: dot products of frames longer than the bound may overflow a signed 32-bit sum; the model wraps there, and the property covers frames whose squared norm fits.
- QuatDecode.ReadFrames: the two-lane form of the decoder and of the pass is the same with two lanes fixed at zero.
- PoseBlend.Evaluator.Calc: addition is exact and current weights are not negative; rounding of sums is not modelled.
- PoseBlend.PoseStorage.CalcAnim: the sampled streams of a leaf are functions of the weight; `KeySearch.Sample` covers where the samples come from.
- KeySearch.Sample: the seed is a parameter, because it is a rounded product; any seed in range works.
- SurfaceReader.Surface.Read: float payloads are byte strings, the usage mask is a set of bones, and vertex buffers are sequences; only the triangle buffer is an array.
- AnimRuntime.Runtime.AllocInfo: the pool and the handle tables are sequences in fields, so aliasing between records is excluded by construction, not by addresses.
- Delta motion (`XAnimCalcDelta` and relatives), trace and bounds code, skinning output and static base poses: float geometry.
- The model-parts and model-file validators, precache bookkeeping, clone lists, file system and hunk allocation.
- `src/bg` movement and the animation script parser.

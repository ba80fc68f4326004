# Models of the continuous-collision port

A Dafny 4.11 project that models three parts of the `cspace-bullet` and `cspace-bullet-cast` crates and proves what they
are for. `dafny verify dfyconfig.toml` checks all of it.

* **The compound traversal** (`compound_algorithm.rs` over `compound.rs` and the bounding-volume tree). Queries between
  nested shapes dispatch pairs of convex leaves. The main results: culling loses no pair that shares a point
  (`CullingIsConservative`), no pair is dispatched twice (`NoneTwice`), and the wrapper slots name the dispatched objects
  at every depth (`SlotsNameTheDispatched`). `CompoundAlgorithm.dfy` holds the code, with its explicit stacks, latched
  failures and slot writes, proved equal to a value-level dispatch; `CompoundProperties.dfy` holds the theorems about
  that dispatch.
* **The cast layer** (manager, callbacks, cast object, accumulation policy, swept support function). A state machine over
  add, remove, re-pose and query. The main results: the manager's invariant survives every call, the query never fails
  and equals the accumulation policy over the reports of the stored pairs (`ContactTest`), boxes stay true over every run
  so that no touching pair is missed (`QueryMissesNothing`), budgeted runs are truncations of the unbounded one
  (`RunIsTruncation`), the verdict does not depend on budgets or order (`VerdictIsStable`), and `CastHullShape` is the
  support function of the convex hull of both placements (`SweptSupport`).
* **The convex hull computer** (`convex_hull_computer.rs`). Exact 128/256-bit predicates, sort and split, the recycling
  half-edge arena with its rings, the merge of outlines, the turn search, the vertex solve of `shift_face`, and the output
  pass. The main results: the output is an isomorphic copy of the reachable half-edge structure with one edge per face
  loop (`ReadOut`), the arena invariant survives creation, removal and splicing, merging two convex outlines leaves the
  convex hull of both (`MergeOutlines`, `WholeHull`), comparisons are exact or wrong under an exact condition
  (`CompareI64WrapsExactly`), and the synthesised vertex tests as lying on its three planes under an exact condition
  (`ShiftedTestsOnPlanes`).

Geometry is over `real`; hull coordinates are `int` with the machine width stated where it matters. Rigid transforms are
used through what they do to points. The narrow phase is a parameter: a function from the two wrappers of a dispatch to
the points it reports.

Where the code falls short of what one might expect of it, the model keeps the code and states exactly when it meets the
expectation:

* a per-pair budget of zero stores two contacts and an overall budget of zero stores one (`PairBudgetMetExactly`,
  `OverallBudgetMetExactly`, `ZeroPerPairStoresTwo`, `ZeroBudgetStoresOne`);
* a request for distance and contacts sees no more of a pair than it may store, so its distance is not always the least
  of the scene, as its comment says (`StoredDistanceExactly`, `CapHidesNearer`);
* re-posing a two-level compound takes the delta from the inner transform alone, which is right exactly when the outer
  transform commutes with the motion (`NestedPlacementExact`, `NestedPlacementMisses`);
* it also leaves the outer tree leaf of a compound child as it was, so that over a whole run culling is safe exactly
  when the volume filed at the start holds the box needed now; otherwise touching pairs are lost (`RunCoversExactly`,
  `RunFindsExactly`, `RunFindsPairsExactly`, `NestedPairLost`);
* the solve of `shift_face` forms products in 64 bits before it widens them, so a shift that carries the origin far off
  the grid can wrap them and put the vertex off its planes; they fit exactly when four extreme ones do
  (`ProductsFitExactly`, `FarShiftMissesPlanes`).

## Model

| member | source | states |
|---|---|---|
| `CompoundProperties.CullingIsConservative` | crates/cspace-bullet/src/compound_algorithm.rs:145-310 | At every nesting depth, through the tree, no-tree, swapped and compound-compound arms: with a threshold of at least zero, leaves whose boxes hold them under rigid placement, and boxes and tree volumes that hold the children they stand for, any two convex leaves that share a world point are dispatched unless the query answers with an unported algorithm |
| `CompoundProperties.TreeLeafDecides` | crates/cspace-bullet/src/compound_algorithm.rs:245-284 | Where a tree may be stale, a touching pair of leaves is dispatched if and only if the volume the child is filed under meets the query volume |
| `CompoundProperties.TreeLeavesDecide` | crates/cspace-bullet/src/compound_algorithm.rs:354-404 | The same for the two-tree arm: the pair is dispatched if and only if the volumes both parents are filed under pass the transformed test |
| `CompoundProperties.NoneTwice` | crates/cspace-bullet/src/compound_algorithm.rs:354-484 | No pair of convex leaves is dispatched twice in one query, whichever way round; all it takes is that each tree files each child once |
| `CompoundProperties.DispatchesLeaves` | crates/cspace-bullet/src/compound_algorithm.rs:145-197 | Whatever is dispatched is a pair of convex leaves, one of each operand, with the transforms their paths compose to |
| `CompoundProperties.SlotsNameTheDispatched` | crates/cspace-bullet/src/compound_algorithm.rs:315-349 | At every dispatch the slot of an object id holds exactly the wrapper dispatched for that id, with that object's transform and its innermost child index; the manifold names the two dispatched ids in dispatch order |
| `CompoundProperties.SweptNeverUnported` | crates/cspace-bullet/src/compound_algorithm.rs:155-184 | When one side consists of swept hulls and the other of convex types, no pair resolves to an unported algorithm, so the query cannot fail |
| `CompoundProperties.FiledIndexed` | crates/cspace-bullet/src/compound_algorithm.rs:264-264 | Trees that file each child once hold only indices of existing children, so the index conversion and look-up cannot panic |
| `CompoundCulling.DispatchedMeets` | crates/cspace-bullet/src/compound_algorithm.rs:286-310 | Every dispatched pair was reached by steps into children whose world boxes, the first grown by the threshold, overlap on every axis after each step |
| `CompoundCulling.LeavesMeet` | crates/cspace-bullet/src/compound_algorithm.rs:420-450 | So the boxes of the two dispatched leaves overlap, unless the query was about two convex shapes to begin with |
| `CompoundCulling.LeavesResolve` | crates/cspace-bullet/src/dispatch.rs:120-160 | Two convex leaves reach the narrow phase if and only if their types are convex, not two spheres or sphere and triangle, and not two boxes looked up among contact points |
| `CompoundCulling.OthersNamed` | crates/cspace-bullet/src/dispatch.rs:120-182 | and the others are reported under the algorithm their two types call for, in the order of the operands |
| `CompoundCulling.BoxChild` | crates/cspace-bullet/src/compound_algorithm.rs:82-98 | A box child against a box reaches the narrow phase only for a positive threshold; at zero the query ends with the unported box algorithm, though the same two boxes asked directly do not |
| `CompoundCulling.LaterChildFirst` | crates/cspace-bullet/src/dbvt.rs:415-441 | Of two children added to a compound with a tree, the later one is offered first |
| `CompoundAlgorithm.ProcessCollision` | crates/cspace-bullet/src/compound_algorithm.rs:145-197 | Equals the value-level dispatch: same pairs, same order, same error; both wrapper slots are back afterwards on success and on error; a convex operand keeps its identifier |
| `CompoundAlgorithm.CompoundProcessCollision` | crates/cspace-bullet/src/compound_algorithm.rs:217-284 | The compound arm dispatches the children of one operand in the order of the tree walk or of the indices, and restores both slots |
| `CompoundAlgorithm.CollideInIndexOrder` | crates/cspace-bullet/src/compound_algorithm.rs:230-243 | Without a tree: every child in index order, stopping at the first error |
| `CompoundAlgorithm.CollideThroughTree` | crates/cspace-bullet/src/compound_algorithm.rs:245-284 | With a tree: the explicit-stack walk with its latched failure equals dispatching the culled leaves in visit order and stopping at the first error |
| `CompoundAlgorithm.ProcessChildShape` | crates/cspace-bullet/src/compound_algorithm.rs:286-350 | One child: culled by its box, dispatched with the child wrapper in the slot of its object, slot and outcome as specified, restored on both outcomes |
| `CompoundAlgorithm.CompoundCompoundProcessCollision` | crates/cspace-bullet/src/compound_algorithm.rs:354-404 | Two compounds: the two-tree walk, or the fall-back to the first operand's children when a tree is missing |
| `CompoundAlgorithm.MyCollideTt` | crates/cspace-bullet/src/compound_algorithm.rs:494-533 | The explicit-stack double traversal terminates and processes exactly the pairs of the recursive one, in its order, stopping at the first error |
| `CompoundAlgorithm.ProcessLeafPair` | crates/cspace-bullet/src/compound_algorithm.rs:430-484 | The leaf callback writes both slots and identifiers unconditionally and that is right, because it only ever runs unswapped; both slots are restored on success and on error |
| `CompoundAlgorithm.ChildListIndexed` | crates/cspace-bullet/src/compound_algorithm.rs:253-270 | Every child index the tree walk yields is in range, or the list is the index order |
| `CompoundAlgorithm.PairListIndexed` | crates/cspace-bullet/src/compound_algorithm.rs:391-403 | Every index pair the double walk yields is in range |
| `Dbvt.TtIsDoubleLoop` | crates/cspace-bullet/src/compound_algorithm.rs:494-533 | On trees whose parents hold their children the two-tree traversal visits exactly the pairs of the double loop over leaves that pass the test, with multiplicity |
| `Dbvt.TtExact` | crates/cspace-bullet/src/compound_algorithm.rs:494-533 | A pair is visited if and only if it is a pair of leaves passing the test |
| `Dbvt.TtDistinct` | crates/cspace-bullet/src/compound_algorithm.rs:494-533 | With distinct child indices no pair is visited twice |
| `Dbvt.MyIntersectMonotone` | crates/cspace-bullet/src/compound_algorithm.rs:543-554 | The transformed, expanded box test is monotone: boxes around an intersecting pair intersect |
| `Dbvt.TvIsScan` | crates/cspace-bullet/src/dbvt.rs:421-441 | On a nested tree the volume query yields exactly the leaves whose box meets the volume, in visit order |
| `Dbvt.InsertKeeps` | crates/cspace-bullet/src/dbvt.rs:278-336 | Insertion keeps the nesting and adds exactly the new leaf |
| `Dbvt.InsertBeside` | crates/cspace-bullet/src/dbvt.rs:278-336 | The new leaf goes beside the leaf found by choosing at each branching the child whose box has the nearer centre, the second on a tie, and is visited just before it; the others keep their order |
| `Dbvt.RemoveLeaves` | crates/cspace-bullet/src/dbvt.rs:342-382 | Removal drops exactly the leaf of that index and keeps the order of the others |
| `Dbvt.UpdateKeeps` | crates/cspace-bullet/src/dbvt.rs:394-401 | Re-inserting a leaf with a new volume keeps the nesting and changes exactly that leaf |
| `Compound.AabbHolds` | crates/cspace-bullet/src/compound.rs:320-335 | The box a shape answers with holds every point of every convex leaf, at any depth and wherever it is rigidly placed |
| `Compound.InSyncCovers` | crates/cspace-bullet/src/compound.rs:202-226 | Exact boxes and trees are in particular fit for culling |
| `Compound.UnionContains` | crates/cspace-bullet/src/compound.rs:296-312 | The recalculated local box holds every child's box |
| `Compound.UnionLeast` | crates/cspace-bullet/src/compound.rs:296-312 | and is the least such box above the inverted start value |
| `Compound.WithChildInSync` | crates/cspace-bullet/src/compound.rs:202-226 | Adding an in-sync child keeps local box and tree in sync, and the local box the exact union |
| `Compound.CompoundShape.AddChildShape` | crates/cspace-bullet/src/compound.rs:202-226 | Equals the value-level addition: child appended, box grown, leaf inserted under its index |
| `Compound.CompoundShape.ReplaceChildShape` | crates/cspace-bullet/src/compound.rs:247-250 | Only the child's shape changes; box and tree are left as they were |
| `Compound.CompoundShape.UpdateChildTransform` | crates/cspace-bullet/src/compound.rs:268-292 | Child moved, its leaf re-inserted with its new box, local box recalculated only when asked |
| `Compound.CompoundShape.RecalculateLocalAabb` | crates/cspace-bullet/src/compound.rs:296-312 | The local box becomes the union of the children's boxes |
| `LinearMath.RefitHas` | crates/cspace-bullet/src/linear_math.rs:629-643 | The re-fit of a box under a transform holds the image of every point of the box, for any matrix |
| `LinearMath.RefitMonotone` | crates/cspace-bullet/src/linear_math.rs:629-643 | The re-fit of a larger box contains the re-fit of a smaller one |
| `LinearMath.ApplyTimes` | crates/cspace-bullet/src/linear_math.rs:606-608 | Composition of transforms is composition of maps |
| `LinearMath.InverseApply` | crates/cspace-bullet/src/linear_math.rs:570-586 | The inverse undoes a rigid transform on both sides |
| `LinearMath.DeltaReaches` | crates/cspace-bullet/src/linear_math.rs:592-598 | From a rigid first pose, the stored delta leads exactly to the second pose |
| `LinearMath.RigidInverseTimes` | crates/cspace-bullet/src/linear_math.rs:592-598 | The delta between two rigid poses is rigid |
| `LinearMath.SameMap` | crates/cspace-bullet/src/linear_math.rs:606-608 | Two transforms act alike on every point if and only if they are equal |
| `LinearMath.OrthonormalIsRigid` | crates/cspace-bullet/src/linear_math.rs:570-598 | A basis with orthonormal rows gives a rigid transform, the hypothesis used throughout |
| `Primitives.SphereSound` | crates/cspace-bullet/src/shapes.rs:493-499 | The sphere's box, which ignores the basis, holds the sphere under every rigid placement |
| `Primitives.SphereLosesScaled` | crates/cspace-bullet/src/shapes.rs:493-499 | and does not under one that scales |
| `Primitives.BoxSound` | crates/cspace-bullet/src/shapes.rs:413-415 | The box's re-fitted half extents hold the box under every placement |
| `Primitives.BoxSupport` | crates/cspace-bullet/src/shapes.rs:388-395 | The corner selected sign by sign is the support point of the box with its margin |
| `Primitives.HalfExtentsSound` | crates/cspace-bullet/src/shapes.rs:618-620 | Any shape answering with re-fitted half extents around its points, as the cylinder does, is held by its box |
| `Primitives.LocalBoxSound` | crates/cspace-bullet/src/shapes.rs:857-859 | So is one answering with a re-fitted local box around its points, as the hull does |
| `Primitives.SlowSound` | crates/cspace-bullet/src/shapes.rs:276-294 | So is one answering with six support queries, as the cone does, when its support function is right |
| `Primitives.CornersSound` | crates/cspace-bullet/src/shapes.rs:966-981 | and one that boxes its placed corners, as the triangle does |
| `Primitives.BoxReaches` | crates/cspace-bullet/src/shapes.rs:423-440 | In every direction some corner is not below the origin, so a box always has a support average |
| `CastHullShape.SweptSupport` | crates/cspace-bullet-cast/src/cast_hull_shape.rs:166-177 | If the inner shape's support function is right, the swept one returns a point of one placement that no convex combination of points of the two placements beats |
| `CastHullShape.IdentityDelta` | crates/cspace-bullet-cast/src/cast_hull_shape.rs:166-177 | An identity delta gives back the inner support point |
| `CastHullShape.CastHullSound` | crates/cspace-bullet-cast/src/cast_hull_shape.rs:206-221 | For a rigid delta the box of the swept shape holds the convex hull of both placements, wherever it is rigidly placed |
| `CastHullShape.GetAverageSupport` | crates/cspace-bullet-cast/src/cast_hull_shape.rs:257-283 | The loop over band, sum and count equals its recursive specification; a swept shape or a primitive without vertices takes the plain support |
| `CastHullShape.AverageIsNearMaximum` | crates/cspace-bullet-cast/src/cast_hull_shape.rs:257-283 | The point returned is the mean of a nonempty set of vertices all within twice the tolerance of the true maximum; the mean is undefined exactly when every vertex lies below the start value by more than the tolerance |
| `CastHullShape.BandKeeps` | crates/cspace-bullet-cast/src/cast_hull_shape.rs:262-280 | The accumulated sum and count are those of a set of vertex indices that stay within the band of the running maximum |
| `CastHullShape.BandEmpty` | crates/cspace-bullet-cast/src/cast_hull_shape.rs:262-280 | Nothing is accumulated exactly when every support value lies below the start value by more than the tolerance |
| `CastHullShape.AverageExists` | crates/cspace-bullet-cast/src/cast_hull_shape.rs:257-283 | The average exists if and only if there is no vertex list or some vertex is not below the start value by more than the tolerance |
| `CastContact.ApplyCastResult` | crates/cspace-bullet-cast/src/cast_contact.rs:91-145 | A swept first side swaps names and types and negates only the normal; position and depth stay; the fraction is computed from the two poses' average supports |
| `CastContact.FractionInUnit` | crates/cspace-bullet-cast/src/cast_contact.rs:104-144 | The interpolation fraction exists if and only if at both poses the shape has no vertex list or some vertex is not below the start value by more than the tolerance; then it lies in [0, 1] |
| `CastContact.FractionReversed` | crates/cspace-bullet-cast/src/cast_contact.rs:104-144 | Exchanging the two poses of a rigid sweep turns the fraction into one minus itself |
| `CastContact.LeadDecides` | crates/cspace-bullet-cast/src/cast_contact.rs:104-127 | Along the normal that leaves the swept shape the fraction is 0 when some vertex at the first pose is ahead of every vertex at the second by more than tolerance and band, and 1 with the poses exchanged; for a shape without vertices its two support points decide |
| `CastContact.DistancesDecide` | crates/cspace-bullet-cast/src/cast_contact.rs:128-142 | With the two averages level the fraction is 0 for a contact at the first average, 1 for one at the second, one half for one as good as at both, and does not fall as the contact moves away from the first towards the second |
| `ContactTestData.KeyIdentifiesPair` | crates/cspace-bullet-cast/src/contact_test_data.rs:193-199 | Two ordered name pairs have the same key exactly when they are the same unordered pair |
| `ContactTestData.KeyIsOrdered` | crates/cspace-bullet-cast/src/contact_test_data.rs:193-199 | A key is the two names with the one that comes later in dictionary order second |
| `ContactTestData.CastResult.ProcessResult` | crates/cspace-bullet-cast/src/contact_test_data.rs:246-304 | Equals the policy as a function of the old value; what it reports as stored is the last contact of its pair |
| `ContactTestData.StoreThenFinish` | crates/cspace-bullet-cast/src/cast_callback.rs:257-293 | Storing a pending contact and overwriting it through the mutable access equals storing the finished one |
| `ContactTestData.RunIsTruncation` | crates/cspace-bullet-cast/src/contact_test_data.rs:246-304 | After any run the stored contacts are the per-pair-capped stream cut at the overall budget, the count is its length, and `done` holds exactly when the budget is spent |
| `ContactTestData.BudgetTruncatesUnbounded` | crates/cspace-bullet-cast/src/contact_test_data.rs:246-304 | With a positive budget the stored contacts are the first so many of what an unbounded run stores |
| `ContactTestData.OverallBudgetMetExactly` | crates/cspace-bullet-cast/src/contact_test_data.rs:262-300 | The count stays within the overall budget if and only if the budget is at least one or no pair reports a contact within the limit; a distance request has no overall budget and stores exactly what its pairs offer under their caps |
| `ContactTestData.PairBudgetMetExactly` | crates/cspace-bullet-cast/src/contact_test_data.rs:262-300 | Every stored vector stays within the per-pair budget if and only if that is at least one or no pair reports a contact within the limit |
| `ContactTestData.ZeroBudgetStoresOne` | crates/cspace-bullet-cast/src/contact_test_data.rs:274-279 | A run with an overall budget of zero stores its one contact |
| `ContactTestData.ZeroPerPairStoresTwo` | crates/cspace-bullet-cast/src/contact_test_data.rs:281-294 | A run with a per-pair budget of zero stores two of three contacts of a pair |
| `ContactTestData.CountIsSum` | crates/cspace-bullet-cast/src/contact_test_data.rs:246-304 | The contact count is the sum of the lengths of the stored vectors |
| `ContactTestData.VerdictIsExistence` | crates/cspace-bullet-cast/src/contact_test_data.rs:250-262 | At contact distance zero the collision verdict says that some reported contact is within the distance |
| `ContactTestData.VerdictIsStable` | crates/cspace-bullet-cast/src/contact_test_data.rs:250-262 | so it is the same for every budget, every request kind and every pair order |
| `ContactTestData.VerdictOfOne` | crates/cspace-bullet-cast/src/contact_test_data.rs:260-263 | At any contact distance one reported contact makes a collision exactly when its depth is not positive |
| `ContactTestData.UnstoredRun` | crates/cspace-bullet-cast/src/contact_test_data.rs:253-277 | A request without contacts stores none; without distance it is done if and only if some pair reports a contact within the limit; with distance it ends with a depth that is no greater than any reported within the limit and is one of them, or with none if there is none |
| `ContactTestData.StoredDistanceExactly` | crates/cspace-bullet-cast/src/contact_test_data.rs:246-258 | A request for distance and contacts ends with the least depth of the scene if and only if no contact beyond its pair's cap is nearer than all within the caps |
| `ContactTestData.CapHidesNearer` | crates/cspace-bullet-cast/src/contact_test_data.rs:281-294 | With a cap of one, a pair that reports a deeper second contact leaves the depth of the first |
| `CollisionObject.FilterIsSymmetric` | crates/cspace-bullet-cast/src/cast_callback.rs:134-177 | The broadphase filter does not depend on the order of the two objects |
| `CollisionObject.FilterByKind` | crates/cspace-bullet-cast/src/cast_callback.rs:134-177 | Pair by pair of body types: which enabled objects whose filter words meet are stored; touch links exempt an attached body and a link in either order, and two attached bodies only when they have the same links |
| `CollisionObject.ExactlyOneKinematic` | crates/cspace-bullet-cast/src/cast_callback.rs:205-213 | Of two objects with the constructor's filter words, a pair that passes both filters has exactly one kinematic side |
| `CollisionObject.FilterBits` | crates/cspace-bullet-cast/src/collision_object.rs:317-329 | The two filter words meet as intended: static never meets static, kinematic meets both |
| `CollisionObject.FilterWords` | crates/cspace-bullet-cast/src/collision_object.rs:317-329 | The constructor's words: group 4 and mask 6 for an active object, group 2 and mask 4 for a static one, and which groups each mask lets in |
| `CollisionObject.CloneInSync` | crates/cspace-bullet-cast/src/collision_object.rs:362-377 | Cloning rebuilds boxes and trees in sync whatever state they were in |
| `CollisionObject.CloneHas` | crates/cspace-bullet-cast/src/collision_object.rs:362-377 | A clone has the same points, leaf by leaf |
| `CollisionObject.BuiltInSync` | crates/cspace-bullet-cast/src/cast_object.rs:219-262 | A compound built up child by child is in sync and its local box is the exact union |
| `CastObject.ErrorExact` | crates/cspace-bullet-cast/src/cast_object.rs:202-267 | Building fails exactly on shapes that hold a swept shape already or nest compounds more than two deep |
| `CastObject.Build` | crates/cspace-bullet-cast/src/cast_object.rs:202-267 | The loops build the swept twin and its handles, or report the first error met |
| `CastObject.BuildChild` | crates/cspace-bullet-cast/src/cast_object.rs:219-258 | One child, swept or rebuilt one level down |
| `CastObject.BuildSecond` | crates/cspace-bullet-cast/src/cast_object.rs:229-255 | A second-level compound: every leaf swept, margin set after the last child |
| `CastObject.BuildChildren` | crates/cspace-bullet-cast/src/cast_object.rs:212-265 | All children in order, stopping at the first error |
| `CastObject.SweepShapeKeeps` | crates/cspace-bullet-cast/src/cast_object.rs:202-267 | The swept twin of a sound shape is in sync, every convex leaf of it is a swept hull, and the handles fit it |
| `CastObject.NewCastObject` | crates/cspace-bullet-cast/src/cast_object.rs:102-113 | A cast object exists exactly for sweepable shapes and keeps everything but the shape |
| `CastObject.CastCollisionObject.SetCastTransforms` | crates/cspace-bullet-cast/src/cast_object.rs:138-191 | A disabled object changes only its world transform; an enabled one also has its shape re-posed |
| `CastObject.ReposeEachChild` | crates/cspace-bullet-cast/src/cast_object.rs:155-186 | The loop over handles equals re-posing child after child and recalculating the local box once |
| `CastObject.ReposeInPlace` | crates/cspace-bullet-cast/src/cast_object.rs:171-182 | A second-level compound is re-posed leaf by leaf and its local box recalculated |
| `SweptTwin.SameLeaves` | crates/cspace-bullet-cast/src/cast_object.rs:202-267 | Path by path the leaf of the twin is a hull over the original's own leaf, reached by the same transforms |
| `SweptTwin.TwinHas` | crates/cspace-bullet-cast/src/cast_object.rs:202-267 | Every point of the original is a point of the twin, leaf by leaf |
| `SweptTwin.SweepTwins` | crates/cspace-bullet-cast/src/cast_object.rs:202-267 | Building makes such a twin, at both levels of nesting |
| `SweptTwin.ReposeTwins` | crates/cspace-bullet-cast/src/cast_object.rs:138-186 | Re-posing keeps it one: every leaf gets the handle of its own shape and stays where it was placed |
| `SweptTwin.AfterRun` | crates/cspace-bullet-cast/src/cast_object.rs:138-186 | and so does any sequence of re-posings |
| `CastReposing.ReposeCompoundExact` | crates/cspace-bullet-cast/src/cast_object.rs:159-170 | One level: every hull's placements sit at `tf1*local` and `tf2*local`, the tree leaves are the children's new boxes and the local box is their union |
| `CastReposing.ReposeSingleExact` | crates/cspace-bullet-cast/src/cast_object.rs:156-158 | A single shape: its two placements sit exactly at the two poses |
| `CastReposing.ReposeInSync` | crates/cspace-bullet-cast/src/cast_object.rs:138-191 | Re-posing a single shape or a compound of convex shapes between rigid poses leaves boxes, trees and leaves in agreement |
| `CastReposing.ReposeKeepsSwept` | crates/cspace-bullet-cast/src/cast_object.rs:138-191 | Re-posing keeps every leaf a swept hull and the handles fitting |
| `NestedReposing.NestedPlacementExact` | crates/cspace-bullet-cast/src/cast_object.rs:171-182 | Two levels: the second placement is exact for every point if and only if the outer child transform commutes with the object's motion, because the delta is taken from the inner transform alone |
| `NestedReposing.NestedPlacementMisses` | crates/cspace-bullet-cast/src/cast_object.rs:171-182 | An object on which it is not: the outer child makes a quarter turn, the object moves ten along x, and the second placement lands ten along y |
| `NestedReposing.ReposeCoversExactly` | crates/cspace-bullet-cast/src/cast_object.rs:156-185 | Mixed compounds, whatever the tree held before: leaves of hulls are refreshed, leaves of compound children stay; the tree is exact if and only if the volumes kept are the boxes that placements, inner shapes and poses call for, and culling stays safe if and only if they hold them |
| `NestedReposing.RunCoversExactly` | crates/cspace-bullet-cast/src/cast_object.rs:156-185 | After any sequence of re-posings the volumes of compound children are those the tree started with, and culling is safe if and only if these hold the boxes the last pair of poses calls for |
| `NestedReposing.RunFindsExactly` | crates/cspace-bullet-cast/src/cast_object.rs:156-185 | After any such sequence a touching pair is dispatched if its leaf is a child of its own, and otherwise if and only if its parent's starting volume meets the query volume |
| `NestedReposing.RunFindsPairsExactly` | crates/cspace-bullet/src/compound_algorithm.rs:354-404 | The same against a compound with a tree of its own, whichever operand comes first: otherwise if and only if the starting volume and the other child's pass the two-tree test |
| `NestedReposing.SweptReposable` | crates/cspace-bullet-cast/src/cast_object.rs:202-267 | A cast object as it is built meets everything these results ask of a start |
| `NestedReposing.NestedPairLost` | crates/cspace-bullet-cast/src/cast_object.rs:171-182 | A box of side one, an octree cell, two compounds deep, swept ten along x into a ball standing there: both leaves have a common point and the query dispatches nothing |
| `CastCallback.BridgedManifoldResult.AddContactPoint` | crates/cspace-bullet-cast/src/cast_callback.rs:360-428 | Equals the bridge as a function: depth guard, operand order, object-frame points, and an error that is recorded once |
| `CastCallback.BridgedManifoldResult.AddCastSingleResult` | crates/cspace-bullet-cast/src/cast_callback.rs:238-294 | Stores first, then finishes the stored contact; refuses exactly when the swept side is not a swept hull |
| `CastCallback.ProcessOverlap` | crates/cspace-bullet-cast/src/cast_callback.rs:458-503 | One broadphase pair: per-pair flag cleared, both filters, traversal, contacts in dispatch order |
| `CastCallback.HandOver` | crates/cspace-bullet-cast/src/cast_callback.rs:366-428 | Every point of every dispatch reaches the policy in order |
| `CastCallback.PairNamesItsObjects` | crates/cspace-bullet-cast/src/cast_callback.rs:378-423 | The pair a contact is filed under names the objects that produced it, at every depth and whichever way round the dispatch was |
| `CastCallback.PointUsesObjectFrames` | crates/cspace-bullet-cast/src/cast_callback.rs:385-420 | Local points are taken in the frames of the objects they are filed under |
| `CastCallback.SweptSideIsAHull` | crates/cspace-bullet-cast/src/cast_callback.rs:268-280 | For managed objects with one kinematic side the swept wrapper of every dispatch is a swept hull |
| `CastCallback.OverlapNeverFails` | crates/cspace-bullet-cast/src/cast_callback.rs:458-503 | `SweptSideIsNotAHull` and unported algorithms are unreachable for managed pairs that pass the broadphase filter, and the pair's effect is the accumulation policy applied to its report |
| `CastCallback.SweptPairCoversAll` | crates/cspace-bullet-cast/src/cast_callback.rs:458-503 | For a managed pair whose boxes and trees cover their children every two leaves that share a point are dispatched, none twice |
| `CastCallback.TouchingIsReported` | crates/cspace-bullet-cast/src/cast_callback.rs:458-503 | With a narrow phase that reports a depth of at most zero for leaves with a common point, such a pair reports a contact that counts as a collision |
| `CastCallback.ContactTellsItsPoint` | crates/cspace-bullet-cast/src/cast_callback.rs:246-285 | Every reported contact names as body 1 the object that stands still and as body 2 the one that sweeps, with their types, whichever came first; its normal runs from body 1 to body 2; depth and position are the raw point's, and its fraction is that of the dispatched hull of body 2 |
| `CastCallback.MatrixDecides` | crates/cspace-bullet-cast/src/cast_callback.rs:107-120 | A pair the matrix allows always or conditionally reports nothing; one marked never or not listed is asked, so two touching leaves of it are reported |
| `CastBvhManager.BulletCastBvhManager.constructor` | crates/cspace-bullet-cast/src/cast_bvh_manager.rs:240-247 | An empty manager satisfies the invariant, and its boxes are in order |
| `CastBvhManager.BulletCastBvhManager.AddCollisionObject` | crates/cspace-bullet-cast/src/cast_bvh_manager.rs:259-300 | Keeps the invariant; a failed add changes nothing; a successful one fills the next slot, swept exactly when kinematic; boxes stay in order when the object's are, or, for one that sweeps, when it is at most one compound deep over sound leaves |
| `CastBvhManager.BulletCastBvhManager.File` | crates/cspace-bullet-cast/src/cast_bvh_manager.rs:284-299 | The slot is occupied before its proxy is inserted, so the filter running mid-insertion finds it |
| `CastBvhManager.BulletCastBvhManager.RemoveCollisionObject` | crates/cspace-bullet-cast/src/cast_bvh_manager.rs:309-333 | Keeps the invariant and boxes in order; empties the slot for good and takes its proxy and pairs with it |
| `CastBvhManager.BulletCastBvhManager.SetCastCollisionObjectsTransform` | crates/cspace-bullet-cast/src/cast_bvh_manager.rs:349-379 | Keeps the invariant; touches one slot; refreshes the broadphase box only of an enabled object; rigid poses keep boxes in order |
| `CastBvhManager.BulletCastBvhManager.ContactTest` | crates/cspace-bullet-cast/src/cast_bvh_manager.rs:395-436 | The query never fails and its result is the accumulation policy applied to the reports of the stored pairs, in order; with boxes in order, a broadphase that stores or finds every pair of boxes that meet, and a narrow phase that sees contact, it answers "collision" whenever two leaves of unexempted objects share a point |
| `CastBvhManager.BulletCastBvhManager.ProcessAllPairs` | crates/cspace-bullet-cast/src/cast_bvh_manager.rs:411-430 | The stored pairs are handed over in order and the result is the policy run over their reports from the old value |
| `CastBvhManager.BulletCastBvhManager.ProcessPair` | crates/cspace-bullet-cast/src/cast_bvh_manager.rs:413-430 | One stored pair: both slots are occupied, no error, policy applied to its report |
| `CastBvhManager.ReportsDistinct` | crates/cspace-bullet-cast/src/cast_bvh_manager.rs:402-430 | No two stored pairs of one query share a key |
| `CastBvhManager.TouchingPairCollides` | crates/cspace-bullet-cast/src/cast_bvh_manager.rs:395-435 | The query's verdict is collision whenever a stored pair the matrix does not allow has two leaves with a common point, for every request, budget and order |
| `CastBvhManager.QueryMissesNothing` | crates/cspace-bullet-cast/src/cast_bvh_manager.rs:395-435 | Boxes in order put such a pair's boxes in touch, so the stored pairs include it and the verdict is collision |
| `CastBvhManager.ProxyHasPoint` | crates/cspace-bullet-cast/src/cast_bvh_manager.rs:375-378 | With boxes in order the broadphase box of every enabled object holds the points of all its leaves |
| `CastBvhManager.EvolvesTransitive` | crates/cspace-bullet-cast/src/cast_bvh_manager.rs:176-195 | Across any sequence of calls slots are only appended or emptied: none is reused and no name moves in |
| `CastBvhManager.ReposeKeepsManaged` | crates/cspace-bullet-cast/src/cast_object.rs:138-191 | Re-posing keeps an object fit to be queried |
| `CastBvhManager.SweepShapeIndexed` | crates/cspace-bullet-cast/src/cast_object.rs:202-267 | The swept twin can be walked without an index error |
| `CastBvhManager.FiledKeeps` | crates/cspace-bullet-cast/src/cast_bvh_manager.rs:284-299 | Names stay a bijection onto the occupied slots, and every slot knows its proxy, when one is appended |
| `CastBvhManager.EmptiedKeeps` | crates/cspace-bullet-cast/src/cast_bvh_manager.rs:309-333 | the same when a slot is emptied and its proxy retired |
| `CastBvhManager.ReplacedKeeps` | crates/cspace-bullet-cast/src/cast_bvh_manager.rs:349-379 | the same when an object is re-posed in place |
| `CastBvhManager.Broadphase.CreateProxy` | crates/cspace-bullet/src/dbvt_broadphase.rs:507-563 | The pair set stays sound: filtered, of live proxies naming occupied slots, none stored twice; it gains exactly the announced pairs the filter lets in |
| `CastBvhManager.Broadphase.SetAabb` | crates/cspace-bullet/src/dbvt_broadphase.rs:589-675 | A refreshed box adds exactly the announced pairs the filter lets in, and drops none |
| `CastBvhManager.Broadphase.DestroyProxy` | crates/cspace-bullet/src/dbvt_broadphase.rs:565-587 | Exactly the pairs of the proxy go |
| `CastBvhManager.Broadphase.CalculateOverlappingPairs` | crates/cspace-bullet/src/dbvt_broadphase.rs:678-807 | Keeps the pair set sound: what remains are the pairs not dropped, and the found ones the filter lets in |
| `Int128.DmulIsExact` | crates/cspace-bullet/src/convex_hull_computer.rs:311-330 | The two halves are the exact 256-bit product |
| `Int128.MulByPattern` | crates/cspace-bullet/src/convex_hull_computer.rs:208-218 | The sign-and-magnitude multiplication is multiplication modulo 2^128 of the signed readings |
| `Int128.SmallPattern` | crates/cspace-bullet/src/convex_hull_computer.rs:227-262 | Below 2^127 the pattern, its sign and its negation read back the integer |
| `Rationals.Compare64Exact` | crates/cspace-bullet/src/convex_hull_computer.rs:355-397 | With finite values the comparison has the sign of the difference of the fractions |
| `Rationals.Compare64Transitive` | crates/cspace-bullet/src/convex_hull_computer.rs:388-397 | Transitive on everything the constructor builds, infinities and 0/0 included |
| `Rationals.Compare64Reversed` | crates/cspace-bullet/src/convex_hull_computer.rs:388-397 | Antisymmetric: exchanging the operands negates the answer |
| `Rationals.OverZero` | crates/cspace-bullet/src/convex_hull_computer.rs:355-386 | Over a zero denominator: not a number exactly for a zero numerator, else the infinity of its sign |
| `Rationals.InfinitiesBound` | crates/cspace-bullet/src/convex_hull_computer.rs:374-397 | The infinities bound everything, strictly unless it is the same infinity |
| `Rationals.FromIntegerExact` | crates/cspace-bullet/src/convex_hull_computer.rs:418-430 | Every integer but the least keeps its value |
| `Rationals.FromRatioExact` | crates/cspace-bullet/src/convex_hull_computer.rs:434-449 | A ratio of patterns keeps the value of its signed reading |
| `Rationals.CompareI64Exact` | crates/cspace-bullet/src/convex_hull_computer.rs:480-506 | The comparison with an integer is the sign of the difference while denominator times integer stays below 2^128 |
| `Rationals.CompareI64WrapsExactly` | crates/cspace-bullet/src/convex_hull_computer.rs:480-506 | Where that product wraps, the answer is right if and only if the wrapped product still exceeds the numerator |
| `Rationals.CompareExact` | crates/cspace-bullet/src/convex_hull_computer.rs:455-473 | For all mixes of integers and ratios the comparison is the sign of the exact difference, under the same bound |
| `GridSort.QuickSort` | crates/cspace-bullet/src/convex_hull_computer.rs:941-982 | Terminates, stays in bounds, permutes, and orders by (y, x, z) |
| `GridSort.SortSegment` | crates/cspace-bullet/src/convex_hull_computer.rs:946-976 | The recursion sorts its segment and moves nothing outside it |
| `GridSort.Partition` | crates/cspace-bullet/src/convex_hull_computer.rs:946-969 | Both inner scans stop inside the segment; afterwards the left part is at most and the right part at least the pivot |
| `GridSort.ComputeInternal` | crates/cspace-bullet/src/convex_hull_computer.rs:1698-1804 | The recursion retains exactly the first copy of every cell, in order, and merges only halves that are strictly separated in the sort order |
| `GridSort.ComputePair` | crates/cspace-bullet/src/convex_hull_computer.rs:1705-1776 | Two points: a vertical stack, a segment, or one point when they share a cell |
| `GridSort.OnePerCell` | crates/cspace-bullet/src/convex_hull_computer.rs:1792-1799 | Every input point shares its cell with exactly one retained vertex |
| `GridSort.FirstsSplit` | crates/cspace-bullet/src/convex_hull_computer.rs:1792-1799 | Dropping the copies of the split point loses no cell |
| `GridSort.StrictlySplit` | crates/cspace-bullet/src/convex_hull_computer.rs:1792-1803 | Everything the left half keeps lies strictly before everything the right half keeps |
| `GridSort.SortAndSplit` | crates/cspace-bullet/src/convex_hull_computer.rs:2136-2152 | Sorting and then splitting |
| `HalfEdges.HullInternal.constructor` | crates/cspace-bullet/src/convex_hull_computer.rs:987-1003 | A pool-empty hull satisfies the arena invariant |
| `HalfEdges.HullInternal.NewVertexObject` | crates/cspace-bullet/src/convex_hull_computer.rs:1030-1034 | A new vertex has an empty ring |
| `HalfEdges.HullInternal.NewEdgeObject` | crates/cspace-bullet/src/convex_hull_computer.rs:1056-1079 | Pops the most recently freed slot, or carves a block in ascending order; the slot is cleared, pending and unused by any ring |
| `HalfEdges.HullInternal.CarveBlock` | crates/cspace-bullet/src/convex_hull_computer.rs:1057-1072 | An exhausted pool grows by one block of free slots linked in ascending order |
| `HalfEdges.HullInternal.FreeEdgeObject` | crates/cspace-bullet/src/convex_hull_computer.rs:1086-1095 | The slot goes on top of the free list with every link cleared and its stamp kept |
| `HalfEdges.HullInternal.NewEdgePair` | crates/cspace-bullet/src/convex_hull_computer.rs:1149-1168 | Two paired, stamped, pending half-edges out of the two top slots; everything else unchanged |
| `HalfEdges.HullInternal.UnlinkHalf` | crates/cspace-bullet/src/convex_hull_computer.rs:1175-1196 | The ring closes over one edge and the vertex starts at the edge after it |
| `HalfEdges.HullInternal.RemoveEdgePair` | crates/cspace-bullet/src/convex_hull_computer.rs:1172-1201 | Both halves leave exactly their own rings and join the free list, the reverse on top; all other edges keep pairing, target, face and stamp |
| `HalfEdges.HullInternal.RemoveThenCreate` | crates/cspace-bullet/src/convex_hull_computer.rs:1149-1201 | Creating a pair right after removing one reuses the two slots with the roles exchanged and restores the free list |
| `HalfEdges.HullInternal.BridgeLoneVertices` | crates/cspace-bullet/src/convex_hull_computer.rs:1920-1931 | Two edgeless vertices end up with one-edge rings that are each other's reverse |
| `HalfEdges.HullInternal.CloseRing` | crates/cspace-bullet/src/convex_hull_computer.rs:2035-2053 | A pending chain becomes the whole ring of an edgeless vertex |
| `HalfEdges.HullInternal.SpliceChain` | crates/cspace-bullet/src/convex_hull_computer.rs:1983-1997 | A pending chain is linked in after one ring edge; the ring is otherwise unchanged |
| `HalfEdges.HullInternal.AppendBridge` | crates/cspace-bullet/src/convex_hull_computer.rs:1949-1967 | One bridge of a merge: the new pair is filed in front of one pending list and behind the other, both stay chains that can be spliced or closed, and everything else is as it was |
| `HalfEdges.HullInternal.RemoveBetween` | crates/cspace-bullet/src/convex_hull_computer.rs:1974-1981 | The removal walk by `next` removes exactly the pairs strictly between its two ends |
| `HalfEdges.HullInternal.RemoveBetweenBack` | crates/cspace-bullet/src/convex_hull_computer.rs:2005-2011 | and the walk by `prev` likewise |
| `HalfEdges.RestIsPaired` | crates/cspace-bullet/src/convex_hull_computer.rs:1149-1201 | With nothing pending `reverse` is a fixpoint-free involution on the linked half-edges |
| `HalfEdges.UnlinkKeeps` | crates/cspace-bullet/src/convex_hull_computer.rs:1172-1196 | Unlinking one half keeps the arena invariant: free list acyclic and disjoint from the rings, `next` and `prev` inverse around every ring, heads nil exactly for empty rings |
| `HalfEdges.PopKeeps` | crates/cspace-bullet/src/convex_hull_computer.rs:1073-1079 | Taking a slot off the free list keeps the invariant |
| `HalfEdges.PushKeeps` | crates/cspace-bullet/src/convex_hull_computer.rs:1086-1095 | Freeing a slot no ring refers to keeps the invariant |
| `HalfEdges.GrownKeeps` | crates/cspace-bullet/src/convex_hull_computer.rs:1057-1072 | Appending a block keeps the invariant |
| `HalfEdges.InsertKeeps` | crates/cspace-bullet/src/convex_hull_computer.rs:1983-2064 | Relinking one ring around itself and pending edges of its vertex keeps the invariant |
| `HalfEdges.ChainSplices` | crates/cspace-bullet/src/convex_hull_computer.rs:1983-1997 | Two links put a chain into a ring |
| `HalfEdges.ChainCloses` | crates/cspace-bullet/src/convex_hull_computer.rs:2035-2053 | One link closes a chain into a ring, read from any of its edges |
| `HullOutput.ConvexHullComputer.ReadOut` | crates/cspace-bullet/src/convex_hull_computer.rs:2864-2943 | The whole output pass: the output is a copy of the half-edge structure reachable from the vertex list, with one vertex row per output vertex and exactly one edge of every face loop in `faces` |
| `HullOutput.ConvexHullComputer.EmitAll` | crates/cspace-bullet/src/convex_hull_computer.rs:2869-2912 | The first pass emits every reachable vertex and every one of its half-edges exactly once |
| `HullOutput.ConvexHullComputer.EmitVertex` | crates/cspace-bullet/src/convex_hull_computer.rs:2874-2911 | One vertex row and the edges of its ring |
| `HullOutput.ConvexHullComputer.EmitRing` | crates/cspace-bullet/src/convex_hull_computer.rs:2879-2909 | Every `next` offset of the ring leads to the edge walked just before, the first one to the last |
| `HullOutput.ConvexHullComputer.EmitPair` | crates/cspace-bullet/src/convex_hull_computer.rs:2883-2896 | Both halves of an edge are appended together, with opposite offsets and the output indices of their targets |
| `HullOutput.ConvexHullComputer.GetVertexCopy` | crates/cspace-bullet/src/convex_hull_computer.rs:2763-2771 | Indices are handed out in order of first sight; a seen vertex keeps its own |
| `HullOutput.ConvexHullComputer.CollectFaces` | crates/cspace-bullet/src/convex_hull_computer.rs:2920-2942 | The second pass leaves exactly one edge of every orbit of `next_edge_of_face` |
| `HullOutput.ConvexHullComputer.CollectRing` | crates/cspace-bullet/src/convex_hull_computer.rs:2923-2940 | A face is reported at the first of its edges that is met and never again |
| `HullOutput.ConvexHullComputer.ClearLoop` | crates/cspace-bullet/src/convex_hull_computer.rs:2927-2934 | Walking one loop clears the marks of exactly the edges of that face, and terminates |
| `HullOutput.FirstPassCopies` | crates/cspace-bullet/src/convex_hull_computer.rs:2869-2912 | The marks of the first pass make the output an isomorphic copy |
| `HullOutput.ReverseIsInvolution` | crates/cspace-bullet/src/convex_hull_computer.rs:2788-2825 | `reverse_edge` is an involution without fixpoints and `edge_source_vertex` is the true source |
| `HullOutput.ReachableExactly` | crates/cspace-bullet/src/convex_hull_computer.rs:2869-2912 | A vertex is emitted if and only if a path of ring edges leads to it from the vertex list |
| `HullOutput.CopyHasFaceLoops` | crates/cspace-bullet/src/convex_hull_computer.rs:2799-2816 | `next_edge_of_vertex` is the internal `prev`; a step around an output face is `reverse.prev` inside the hull, and the step is injective |
| `HullOutput.FacesClose` | crates/cspace-bullet/src/convex_hull_computer.rs:2927-2934 | Every walk around a face comes back after at most as many steps as there are edges |
| `HullOutput.SameFaceSymmetric` | crates/cspace-bullet/src/convex_hull_computer.rs:2813-2816 | Lying on one face loop is symmetric |
| `HullOutput.AllCollected` | crates/cspace-bullet/src/convex_hull_computer.rs:2920-2942 | When every mark is cleared each edge lies on exactly one of the reported faces |
| `Outlines.WithoutVertex` | crates/cspace-bullet/src/convex_hull_computer.rs:1323-1325 | Joining a vertex's neighbours leaves the cycle without it |
| `Plane.ClosedConvex` | crates/cspace-bullet/src/convex_hull_computer.rs:1484-1488 | Two convex chains, one before the other, closed by two bridges outside which none of their points lie, are one convex polygon |
| `ConvexOutlines.SlidingEnds` | crates/cspace-bullet/src/convex_hull_computer.rs:1356-1435 | On convex outlines, where neither end of a tangent search moves on, no vertex of either outline lies outside the bridge and one on its line lies between its ends |
| `ConvexOutlines.ColumnIsBridge` | crates/cspace-bullet/src/convex_hull_computer.rs:1436-1472 | and so it is with a vertical bridge once both ends have slid to the ends of their runs |
| `ConvexOutlines.MergedConvex` | crates/cspace-bullet/src/convex_hull_computer.rs:1484-1488 | The arcs kept, closed by the two bridges, turn left at every vertex with no three in line |
| `ConvexOutlines.MergedEncloses` | crates/cspace-bullet/src/convex_hull_computer.rs:1484-1488 | No vertex of either outline lies outside the merged one |
| `ConvexOutlines.CornersKept` | crates/cspace-bullet/src/convex_hull_computer.rs:1484-1488 | A vertex that is the only highest one of some linear function among both outlines is kept |
| `ConvexOutlines.NextHighest` | crates/cspace-bullet/src/convex_hull_computer.rs:1326-1344 | Next to the highest vertex of a convex outline no other is higher than both its neighbours |
| `MergeProjection.MergeOutlines` | crates/cspace-bullet/src/convex_hull_computer.rs:1298-1502 | Given convex outlines with right extremes, one half before the other: a true answer leaves one cycle of an arc of each, convex, made of their vertices, none of either lying outside, with the four extremes of both; false exactly when the second hull is a lone vertex on top of the first, and then nothing is written and the first outline is the hull of both |
| `MergeProjection.DropCoincident` | crates/cspace-bullet/src/convex_hull_computer.rs:1323-1345 | The coincident vertex leaves its cycle; extremes it held pass to the better of its neighbours |
| `MergeProjection.Tangents` | crates/cspace-bullet/src/convex_hull_computer.rs:1348-1482 | Both searches terminate on vertices of their own outlines; on convex outlines nothing of either lies outside the two bridges they end on |
| `MergeProjection.SlideDown` | crates/cspace-bullet/src/convex_hull_computer.rs:1356-1395 | Terminates without 32-bit overflow; on convex outlines no vertex of either lies outside the bridge it ends on |
| `MergeProjection.SlideUp` | crates/cspace-bullet/src/convex_hull_computer.rs:1396-1435 | The mirror search, likewise |
| `MergeProjection.SlideColumn` | crates/cspace-bullet/src/convex_hull_computer.rs:1436-1472 | On equal x each side ends at the end of its vertical run |
| `MergeProjection.SpliceArcs` | crates/cspace-bullet/src/convex_hull_computer.rs:1484-1488 | The four writes turn an arc of each of two disjoint cycles into one cycle |
| `MergeProjection.JoinOutlines` | crates/cspace-bullet/src/convex_hull_computer.rs:1484-1488 | and change nothing but `next` and `prev` |
| `MergeProjection.MergedDistinct` | crates/cspace-bullet/src/convex_hull_computer.rs:1305-1325 | Given the order of the halves, taking off the one coincident vertex keeps all projections of the two hulls distinct, and that vertex lies strictly above |
| `MergeProjection.MergedExtremes` | crates/cspace-bullet/src/convex_hull_computer.rs:1490-1497 | The tie-breaks on equal x are right: the merged extremes are extreme over both outlines together |
| `MergeProjection.NextFirst` | crates/cspace-bullet/src/convex_hull_computer.rs:1326-1335 | After the coincident vertex leaves, the better of its neighbours is the new minimum of a convex outline |
| `MergeProjection.NextLast` | crates/cspace-bullet/src/convex_hull_computer.rs:1336-1344 | and the new maximum |
| `MergeProjection.WholeHull` | crates/cspace-bullet/src/convex_hull_computer.rs:1298-1502 | With searches, bridges, splice and extremes together: the merged outline is the convex hull of the projections of both hulls and its four extremes are theirs |
| `MergeProjection.LoneHull` | crates/cspace-bullet/src/convex_hull_computer.rs:1305-1322 | A lone vertex on top of the first hull adds nothing to its outline |
| `MergeProjection.ThreeCorners` | crates/cspace-bullet/src/convex_hull_computer.rs:1349-1488 | (0,0) merged with (4,1) and (6,2): all three stay corners |
| `MergeProjection.PairHull` | crates/cspace-bullet/src/convex_hull_computer.rs:1712-1761 | Two vertices: a convex outline, four correct extremes and one edge pair |
| `MergeProjection.SingleHull` | crates/cspace-bullet/src/convex_hull_computer.rs:1777-1788 | A single vertex: its own convex outline and extremes |
| `MergeAngles.CotOrders` | crates/cspace-bullet/src/convex_hull_computer.rs:1258-1266 | Two edges are compared by the quotients of their projections, taken over the integers, and an edge is left out exactly when both its projections vanish |
| `MergeAngles.FindMaxAngle` | crates/cspace-bullet/src/convex_hull_computer.rs:1245-1288 | The walk around the ring is the fold of its edges from the head on, tie-breaks included; so it returns an edge exactly when there is one from an earlier round that does not point straight back, and then none of them has a smaller cotangent |
| `MergeAngles.ScanIsLeast` | crates/cspace-bullet/src/convex_hull_computer.rs:1256-1287 | Over any part of a ring the walk ends on an edge of least cotangent among the eligible ones, and on none only when none is eligible, whichever way ties were broken |
| `MergeAngles.LeastTakes` | crates/cspace-bullet/src/convex_hull_computer.rs:1266-1276 | A candidate that turns less takes over; transitivity carries the bound over the others |
| `MergeAngles.LeastTies` | crates/cspace-bullet/src/convex_hull_computer.rs:1277-1282 | On a tie the name may change without changing the angle |
| `MergeAngles.TieTaken` | crates/cspace-bullet/src/convex_hull_computer.rs:1272-1282 | On a ring of three edges or more a tied candidate takes over exactly when it follows the best edge on the ring, looking counter-clockwise, and exactly when it does not, looking clockwise |
| `MergeAngles.OrientationFlips` | crates/cspace-bullet/src/convex_hull_computer.rs:1211-1232 | Exchanging the two edges exchanges the two directions unless the triple product of a two-edge ring vanishes |
| `MergeAngles.RingOrientation` | crates/cspace-bullet/src/convex_hull_computer.rs:1211-1231 | On a ring of three edges or more the next edge is counter-clockwise, the one before clockwise, and no other is either |
| `MergeAngles.PairOrientation` | crates/cspace-bullet/src/convex_hull_computer.rs:1213-1224 | On a ring of two, the other edge is counter-clockwise exactly when `t` and `s` turn the way the two edges do |
| `MergeAngles.FlatTieInLine` | crates/cspace-bullet/src/convex_hull_computer.rs:1270-1283 | In the tie-break of the turn search it vanishes only if the two edges leave in one line |
| `HullBounds.OrientationFits` | crates/cspace-bullet/src/convex_hull_computer.rs:1211-1232 | Every difference, product, partial sum and result of the orientation test stays below 2^57 |
| `HullBounds.SetUpFits` | crates/cspace-bullet/src/convex_hull_computer.rs:1840-1880 | The same for the vertical plane through the bridge and the edges measured against it before the loop |
| `HullBounds.AngleFits` | crates/cspace-bullet/src/convex_hull_computer.rs:1899-1914 | The same for the turn and its cotangents, with the nudged previous point included |
| `HullBounds.CoplanarFits` | crates/cspace-bullet/src/convex_hull_computer.rs:1517-1693 | The same for the coplanar walk, both walks' dot products and their difference included |
| `ShiftFace.VertexOnPlanes` | crates/cspace-bullet/src/convex_hull_computer.rs:2510-2553 | The synthesised vertex satisfies the equations of the shifted plane and of both adjacent planes exactly, less 2^64 times what the wraps of its 64-bit products leave out along each normal |
| `ShiftFace.OnGridTestsOnPlane` | crates/cspace-bullet/src/convex_hull_computer.rs:739-750 | With faces and shift on the grid and a determinant that is not zero, the code's own comparison answers "on the plane" for the shifted plane and for both neighbours' planes |
| `ShiftFace.ShiftedTestsOnPlanes` | crates/cspace-bullet/src/convex_hull_computer.rs:2379-2385 | For a shift that leaves the grid, with its plane no further out than planes through grid points are, it does so if and only if what the wraps leave out is a multiple of 2^64 along all three normals; in particular when the products fit |
| `ShiftFace.VertexComparesExactly` | crates/cspace-bullet/src/convex_hull_computer.rs:739-750 | Tested against any other plane along whose normal the wraps leave nothing out, a synthesised vertex inside the box of the grid is found above, on or below it as it is |
| `ShiftFace.SolvedVertexTestsOnPlane` | crates/cspace-bullet/src/convex_hull_computer.rs:739-750 | Plane by plane, for distances within 64 and a determinant within 128 bits: the test answers "on the plane" if and only if the wraps leave a multiple of 2^64 out along its normal and determinant times distance keeps its sign in 128 bits |
| `ShiftFace.TripleWithin` | crates/cspace-bullet/src/convex_hull_computer.rs:2510-2530 | The volume three integer vectors span is at most four times the product of their bounds, which is what keeps the determinant and the distances small |
| `ShiftFace.EqualExactly` | crates/cspace-bullet/src/convex_hull_computer.rs:480-506 | Comparing `x` over `det` with `k` answers equal if and only if `x` is `det*k` modulo 2^128 and reads with the sign of `det*k` |
| `ShiftFace.DegenerateVertex` | crates/cspace-bullet/src/convex_hull_computer.rs:480-506 | A zero determinant tests as on the plane only for distance zero |
| `ShiftFace.SolveExact` | crates/cspace-bullet/src/convex_hull_computer.rs:2510-2553 | The 128-bit coordinates are the patterns of the integer solution scaled by the determinant, less 2^64 times what the 64-bit products wrapped |
| `ShiftFace.OnThreePlanes` | crates/cspace-bullet/src/convex_hull_computer.rs:2510-2540 | Over the integers the scaled solution lies on all three planes |
| `ShiftFace.SolveFits` | crates/cspace-bullet/src/convex_hull_computer.rs:2520-2534 | With faces on the grid and a shifted origin within two million steps, wherever its plane lies, no 64-bit product overflows and the determinant stays below 2^127 |
| `ShiftFace.ProductsFitExactly` | crates/cspace-bullet/src/convex_hull_computer.rs:2533-2548 | All twelve 64-bit products fit if and only if four do: the extreme direction coordinates times the extreme distances of the neighbours' planes from the shifted origin |
| `ShiftFace.RightHandFits` | crates/cspace-bullet/src/convex_hull_computer.rs:2520-2526 | The right-hand sides themselves are formed without overflow wherever 32 bits can put the shifted origin |
| `ShiftFace.FarShiftMissesPlanes` | crates/cspace-bullet/src/convex_hull_computer.rs:2531-2540 | An input on which they do not fit: three faces with corners on the grid, a shift of fifty million steps along x that passes the guard, and a vertex that tests as off the shifted plane and off a neighbour's |

## Left out

- The gift-wrapping loop of `merge` and the correctness of the three-dimensional hull it produces, and that its loop leaves `next` and `prev` of vertices alone.
- MergeOutlines: takes the two outlines' cycles, their distinct projections and the grid bounds as hypotheses; they hold of single vertices and pairs (`SingleHull`, `PairHull`) and of what a merge leaves.
- The advance loops of `find_edge_for_coplanar_faces` and the crossing and deletion loops of `shift_face` and `shrink`: only their arithmetic is modelled.
- Face lists (`face_init`, `receive_nearby_faces`) and the quantization to and from the grid, which are `f32`.
- ReadOut: vertex rows hold the grid point instead of its scaling back to metres; the early return for empty input is not modelled.
- BridgeLoneVertices: for two vertices without edges; the original overwrites the head of a ring whose edges were all skipped, which is not modelled.
- CloseRing: for a vertex without edges, for the same reason.
- ComputeInternal: the merge of two halves is recorded, not performed.
- GJK, EPA, the simplex solver and contact geometry: the narrow phase is a function parameter.
- `f32` rounding and not-a-number: geometry is over `real`; a fraction or a mean that the original would make not-a-number, and the distance it initialises to the largest double, are `None`.
- The Euclidean norm: a parameter known only to be non-negative.
- Node identity, parent links and the free slot of the bounding-volume tree; the path from the root stands for the identity of a borrowed shape.
- Broadphase.CreateProxy: the two-tree broadphase and the hashed pair cache are modelled by a contract in which the overlaps found are an input; which of them are stored follows, their order does not.
- Broadphase.SetAabb: the same; velocity prediction, margins and deferred clean-up are not modelled.
- Broadphase.CalculateOverlappingPairs: the same; the incremental optimisation and its schedule are not modelled.
- CompoundShape.ReplaceChildShape: compounds are owned by value and taken up for editing, so mutation through a borrowed child is a replacement.
- ProcessOverlap: contacts are handed to the policy after the traversal of their pair in dispatch order, not from inside the narrow phase; the stored contact is finished by writing it back.
- SetCastCollisionObjectsTransform: re-posing a name that is not swept, on which the original panics, is outside the contract.
- FractionReversed: stated for rigid deltas, without rounding.
- ContactTest: that the broadphase finds every pair of boxes that meet is a hypothesis of the last clause, since its trees are not modelled; objects that sweep compounds of compounds are outside that clause, and `RunCoversExactly` and `RunFindsExactly` speak of them.
- CullingIsConservative: takes trees and boxes that cover their children as a hypothesis; `RunCoversExactly` says when re-posing a two-level compound leaves them so.
- Cylinder, cone, hull and triangle: their point sets and support functions are not written out; their boxes are shown sound from what the point sets are contained in.
- SolveFits: a shift beyond two million steps, which axes of very different scale allow, is outside; `ProductsFitExactly` decides it for any shift.
- SolveExact: follows a build without overflow checks, in which a 64-bit product wraps; one with them stops there.
- VertexComparesExactly: that a synthesised vertex lies inside the box of the grid, as every point of the hull does, is a hypothesis, since `shift_face`'s crossing search is not modelled.
- `shape_primitive.rs`, constructors' argument checks, setters and accessors: easy members only.
- QuickSort: which of several points in one grid cell comes first is not stated.
- Index widths: sizes and indices are unbounded, so the casts to 32 bits in the sort, the pool and the output are not modelled.

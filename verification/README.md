# Yapp brush core: Unity terrain trees and brush distribution

This project models two parts of the Yapp prefab painter for the Unity editor.

The first is the **Unity terrain tree manager**. It paints terrain trees with the brush:

- It places one tree at a world position when the prefab is a registered tree prototype, the position lies on the terrain, and no tree lies within the brush radius.
- It removes every tree within the brush.
- It grows or shrinks, or sets, the scale of every tree within the brush. It then writes the trees back with the engine's height snap, which puts every tree, selected or not, on the terrain's heightmap.
- It clears all trees.
- Each operation registers its undo record.

Overlap is tested in the terrain's normalized local space, where the terrain spans the unit square. There are two implementations, selected by the manager's `useLinq` switch:

- a "fast" query that compares the distance against a radius divided by the terrain width;
- a "slow" loop that multiplies the distance by the terrain width.

Removal also has two implementations:

- a filter that keeps the trees farther than the radius;
- a list of overlapping trees that is then subtracted with `Except`.

The second is the **brush distribution**, which decides where the brush puts prefabs:

- **Center** mode places one prefab at the brush centre unless a child of the container is within the brush radius.
- The two **Poisson** modes scatter Poisson-disc samples and keep only those inside the brush disc. Each sample takes its height from a physics raycast or from the active terrain. A sample is dropped when a child lies within one disc radius.
- Every placed prefab receives a position with its offset and the auto-physics height offset.
- It also receives a scale: the prefab's own, a random uniform one, or the uniform factor that fits its bounds to the brush size.

Both parts compare Euclidean distances with radii. The `Geometry` module states every comparison on the squared distance and proves that this is equivalent to comparing the distance itself. The `Linq` module gives the .NET sequence operators the queries are built from: `Where`, `FirstOrDefault`, `Except`, the selection of indices, and the loop that rewrites the selected entries.

`Scenarios` works through concrete situations. The tree examples use a 100-unit terrain and a 20-unit brush (radius 10); the Center-mode examples use a 10-unit brush (radius 5):

- a tree is planted in the middle;
- a neighbour one unit away is refused;
- an unregistered prefab is refused;
- trees are grown and shrunk by ten percent;
- a tree stored above the flat ground is out of reach of one `SetScale`, is snapped down into the brush by it, and is rescaled by the next;
- removal differs with repeated trees;
- a child on the radius blocks Center mode, but one beyond it does not;
- a tall prefab is fitted to the brush.

Modules and files:

| module | file | models |
|---|---|---|
| `Wrappers` | `wrappers.dfy` | optional values |
| `Geometry` | `geometry.dfy` | vectors, squared distances, exact distance comparisons |
| `Linq` | `linq.dfy` | the enumerable operators used by the queries |
| `UnityTerrainTreeManager` | `terrain_tree_manager.dfy` | `UnityTerrainTreeManager.cs` |
| `BrushDistribution` | `brush_distribution.dfy` | `BrushDistribution.cs` |
| `Scenarios` | `scenarios.dfy` | concrete instances of both |

Differences between the code and its own description, and the model's choices:

- **The Center boundary is inclusive.** A child exactly at the brush radius blocks the placement, because the code compares with `<=`. The Poisson overlap check is inclusive as well, against the disc radius.
- **The undo record is registered before the overlap check.** "Add tree" is registered whenever the prototype is known and the position lies in the unit square, even when the overlap check then refuses the tree.
- **The two removal paths differ, and the model keeps both as written:**
  - the fast path removes a tree exactly on the radius, because it keeps only trees strictly farther away; the slow path keeps it, because it lists only trees strictly closer;
  - with a prototype filter, the fast path drops every tree of another prototype, but the slow path keeps them;
  - the slow path's `Except` also collapses repeated identical trees, while the fast path keeps every copy. The fast path's guarantee is stated on multiplicities, so it holds in whatever order `AsParallel` yields the trees.
- **The fast overlap query can miss a default tree.** It takes the first match and compares it with `default(TreeInstance)`. So when the first overlapping tree equals the default value, it reports no overlap. The slow query still finds it. On trees painted by the manager this cannot happen, because their lightmap colour is white.
- **The auto-physics offset is applied twice in the Poisson modes.** The Poisson loops apply it to the sampled position, and `CreateAppliedTransform` applies it again when `AddNewPrefab` builds the transform. The model keeps both applications: `PoissonTerrainPrefabRaisedTwice` and `PoissonAnyPrefabRaisedTwice` show the doubled offset, while `CenterPrefabRaisedOnce` shows that Center mode adds it once.
- **Rescaling moves trees vertically.** `ChangeScale` and `SetScale` store the trees with `SetTreeInstances(trees, true)`, which snaps every tree to the heightmap. So `SetScale` is idempotent only on trees already on the heightmap; in general it settles after one repeat.
- **Float arithmetic is modelled as exact real arithmetic.** Distances are never square-rooted.
- **A terrain must have positive width and length.** The code divides by them.

## Model

| member | source | states |
|---|---|---|
| Geometry.DistanceComparisons | Assets/Yapp/Editor/Scripts/Integrations/UnityTerrain/UnityTerrainTreeManager.cs:453-457 | comparing the squared distance with the squared radius is exactly comparing the distance with the radius, for `<`, `<=` and `>`, whatever the radius's sign |
| Geometry.DistLtRescaled | Assets/Yapp/Editor/Scripts/Integrations/UnityTerrain/UnityTerrainTreeManager.cs:475-501 | a distance is below `r / k` exactly when the distance times `k` is below `r`, for positive `k`: the fast query's divided radius and the slow loop's multiplied distance are one test |
| Linq.Where | Assets/Yapp/Editor/Scripts/Integrations/UnityTerrain/UnityTerrainTreeManager.cs:391 | the result holds exactly the elements of the input that satisfy the predicate, each as often as in the input, and no others |
| Linq.FirstMatch | Assets/Yapp/Editor/Scripts/Integrations/UnityTerrain/UnityTerrainTreeManager.cs:480-483 | no result exactly when no element satisfies the predicate; otherwise the result is a matching element with no match before it |
| Linq.Except | Assets/Yapp/Editor/Scripts/Integrations/UnityTerrain/UnityTerrainTreeManager.cs:433 | the result has no repeated element and holds exactly the elements of the first sequence that are absent from the second |
| Linq.ExceptOfDistinct | Assets/Yapp/Editor/Scripts/Integrations/UnityTerrain/UnityTerrainTreeManager.cs:433 | on a sequence without repeats, `Except` is the order-preserving filter of the non-excluded elements |
| Linq.IndicesWhere | Assets/Yapp/Editor/Scripts/Integrations/UnityTerrain/UnityTerrainTreeManager.cs:262 | the selected indices are exactly the in-range positions whose element satisfies the predicate, each listed once |
| Linq.ApplyAt | Assets/Yapp/Editor/Scripts/Integrations/UnityTerrain/UnityTerrainTreeManager.cs:270-281 | every listed position is transformed exactly once and every other position is untouched |
| UnityTerrainTreeManager.GetTreePrototypeIndex | Assets/Yapp/Editor/Scripts/Integrations/UnityTerrain/UnityTerrainTreeManager.cs:63-76 | -1 exactly when the prefab is not a prototype; otherwise the index of its first occurrence |
| UnityTerrainTreeManager.GetLocalPosition | Assets/Yapp/Editor/Scripts/Integrations/UnityTerrain/UnityTerrainTreeManager.cs:401-411 | the local x and z, scaled by the terrain size, are the offsets from the terrain origin; the local height is zero |
| UnityTerrainTreeManager.LocalPositionRoundTrip | Assets/Yapp/Editor/Scripts/Integrations/UnityTerrain/UnityTerrainTreeManager.cs:401-411 | mapping a world position to local space and back returns it unchanged |
| UnityTerrainTreeManager.WorldPositionRoundTrip | Assets/Yapp/Editor/Scripts/Integrations/UnityTerrain/UnityTerrainTreeManager.cs:401-411 | mapping a ground-level local position to world space and back returns it unchanged |
| UnityTerrainTreeManager.GetLocalBrushRadius | Assets/Yapp/Editor/Scripts/Integrations/UnityTerrain/UnityTerrainTreeManager.cs:413-423 | the local radius scaled by the terrain width is half the brush size, and is non-negative for a non-negative brush |
| UnityTerrainTreeManager.LocalRadiusExactOnSquareTerrain | Assets/Yapp/Editor/Scripts/Integrations/UnityTerrain/UnityTerrainTreeManager.cs:413-423 | on a square terrain, a tree stored at height zero is within the local radius exactly when its world ground distance from the brush is below half the brush size |
| UnityTerrainTreeManager.IsOverlappingFast | Assets/Yapp/Editor/Scripts/Integrations/UnityTerrain/UnityTerrainTreeManager.cs:472-485 | an overlap reported means some tree passes the filter within the divided radius; when no matching tree equals the default value at all, the report is exactly that |
| UnityTerrainTreeManager.IsOverlappingSlow | Assets/Yapp/Editor/Scripts/Integrations/UnityTerrain/UnityTerrainTreeManager.cs:489-509 | overlap exactly when some tree passes the filter and its distance times the terrain width is below the minimum distance |
| UnityTerrainTreeManager.OverlapTestsAgreePerTree | Assets/Yapp/Editor/Scripts/Integrations/UnityTerrain/UnityTerrainTreeManager.cs:475-501 | for a single tree the fast and the slow distance tests accept the same trees |
| UnityTerrainTreeManager.IsOverlappingFastAgreesWithSlow | Assets/Yapp/Editor/Scripts/Integrations/UnityTerrain/UnityTerrainTreeManager.cs:472-509 | when no matching tree equals the default value at all, the fast and slow queries give the same answer |
| UnityTerrainTreeManager.IsOverlappingFastMissesDefaultTree | Assets/Yapp/Editor/Scripts/Integrations/UnityTerrain/UnityTerrainTreeManager.cs:480-483 | when the first overlapping tree equals `default(TreeInstance)`, the slow query reports overlap and the fast one does not |
| UnityTerrainTreeManager.IsOverlappingAgreesOnPaintedTrees | Assets/Yapp/Editor/Scripts/Integrations/UnityTerrain/UnityTerrainTreeManager.cs:472-509 | on trees whose lightmap colour is white, as the manager paints them, the two queries always agree |
| UnityTerrainTreeManager.IsOverlapping | Assets/Yapp/Editor/Scripts/Integrations/UnityTerrain/UnityTerrainTreeManager.cs:341-351 | with the slow query, and with the fast query when no matching tree equals the default value, an overlap is reported exactly when some tree passes the filter strictly within the divided radius |
| UnityTerrainTreeManager.GetTreeColor | Assets/Yapp/Editor/Scripts/Integrations/UnityTerrain/UnityTerrainTreeManager.cs:176-182 | the colour is an opaque grey whose three channels are the random draw |
| UnityTerrainTreeManager.PlaceTreeInstance | Assets/Yapp/Editor/Scripts/Integrations/UnityTerrain/UnityTerrainTreeManager.cs:139-152 | exactly one tree is appended; it has the given position, prototype, width and height scales, rotation and colour, and a white lightmap colour; the earlier trees and the terrain are unchanged |
| UnityTerrainTreeManager.PlaceTreeOnTerrain | Assets/Yapp/Editor/Scripts/Integrations/UnityTerrain/UnityTerrainTreeManager.cs:86-127 | a tree is added exactly when the prefab is a prototype, the local position is in the unit square and nothing overlaps; the added tree has that prototype, position, scales, radian rotation and colour; "Add tree" is registered whenever the first two hold; otherwise the trees are unchanged |
| UnityTerrainTreeManager.PlaceTree | Assets/Yapp/Editor/Scripts/Integrations/UnityTerrain/UnityTerrainTreeManager.cs:79-85 | without a target terrain nothing changes; otherwise the terrain step is committed and its undo records appended |
| UnityTerrainTreeManager.PlaceTreeAddsIffSpaceIsFree | Assets/Yapp/Editor/Scripts/Integrations/UnityTerrain/UnityTerrainTreeManager.cs:106-126 | with the slow query on any trees, and with the fast query on trees painted by the manager, a tree is added exactly when the prefab is registered, the position is on the terrain and no tree lies strictly within the local brush radius |
| UnityTerrainTreeManager.PlaceTreeKeepsTreesSpaced | Assets/Yapp/Editor/Scripts/Integrations/UnityTerrain/UnityTerrainTreeManager.cs:112-126 | on trees painted by the manager, if no two trees are within the local brush radius of each other before placing, the same holds afterwards, and the trees are still all painted by the manager |
| UnityTerrainTreeManager.RemoveAllTreeInstances | Assets/Yapp/Editor/Scripts/Integrations/UnityTerrain/UnityTerrainTreeManager.cs:159-169 | the target terrain ends with no trees and is otherwise unchanged; "Remove all trees" is registered; without a target nothing changes |
| UnityTerrainTreeManager.RemoveAllLeavesNothingToOverlap | Assets/Yapp/Editor/Scripts/Integrations/UnityTerrain/UnityTerrainTreeManager.cs:159-169 | after clearing, no overlap query reports anything anywhere |
| UnityTerrainTreeManager.RemoveOverlappingFast | Assets/Yapp/Editor/Scripts/Integrations/UnityTerrain/UnityTerrainTreeManager.cs:380-393 | a tree is kept exactly when it passes the filter and lies farther than the local radius, and each kept tree keeps all its copies |
| UnityTerrainTreeManager.GetOverlappingInstancesSlow | Assets/Yapp/Editor/Scripts/Integrations/UnityTerrain/UnityTerrainTreeManager.cs:436-465 | the trees listed are exactly those that pass the filter and lie strictly within the local radius |
| UnityTerrainTreeManager.RemoveOverlappingSlow | Assets/Yapp/Editor/Scripts/Integrations/UnityTerrain/UnityTerrainTreeManager.cs:425-434 | the trees kept are those of the terrain that are not listed as overlapping, each once |
| UnityTerrainTreeManager.RemoveOverlappingOnTerrain | Assets/Yapp/Editor/Scripts/Integrations/UnityTerrain/UnityTerrainTreeManager.cs:363-375 | "Remove trees" is registered; without a filter, every tree left was there before and lies outside the brush, and every tree farther than the radius is left |
| UnityTerrainTreeManager.RemoveOverlapping | Assets/Yapp/Editor/Scripts/Integrations/UnityTerrain/UnityTerrainTreeManager.cs:353-361 | without a target nothing changes; otherwise all prototypes are removed from the brush and "Remove trees" is appended |
| UnityTerrainTreeManager.RemoveOverlappingUnblocksPlacement | Assets/Yapp/Editor/Scripts/Integrations/UnityTerrain/UnityTerrainTreeManager.cs:353-375 | after removing at a position, neither overlap query blocks a placement there with the same brush |
| UnityTerrainTreeManager.RemoveBoundaryDivergence | Assets/Yapp/Editor/Scripts/Integrations/UnityTerrain/UnityTerrainTreeManager.cs:391 | a tree exactly on the local radius is removed by the fast path and kept by the slow path |
| UnityTerrainTreeManager.RemoveFilterDivergence | Assets/Yapp/Editor/Scripts/Integrations/UnityTerrain/UnityTerrainTreeManager.cs:380-393 | with a prototype filter, the fast path keeps only trees of that prototype, while the slow path keeps every tree of another prototype |
| UnityTerrainTreeManager.RemoveFastAgreesWithSlow | Assets/Yapp/Editor/Scripts/Integrations/UnityTerrain/UnityTerrainTreeManager.cs:380-465 | without a filter, with no repeated trees and no tree exactly on the radius, both removal paths give the same trees in the same order |
| UnityTerrainTreeManager.RescaleIsAdjusted | Assets/Yapp/Editor/Scripts/Integrations/UnityTerrain/UnityTerrainTreeManager.cs:277-278 | adding the scale times the factor times plus or minus one is growing or shrinking both scales by that fraction, with every other field unchanged |
| UnityTerrainTreeManager.ChangeScaleOnTerrain | Assets/Yapp/Editor/Scripts/Integrations/UnityTerrain/UnityTerrainTreeManager.cs:251-285 | when no tree lies strictly inside the brush, nothing changes and nothing is registered; otherwise "Scale tree" is registered, every tree inside the brush, of any prototype, is rescaled, and every tree is then snapped to the heightmap |
| UnityTerrainTreeManager.ChangeScale | Assets/Yapp/Editor/Scripts/Integrations/UnityTerrain/UnityTerrainTreeManager.cs:233-241 | without a target nothing changes; otherwise the terrain step is committed with its undo records |
| UnityTerrainTreeManager.ChangeScaleKeepsScalesPositive | Assets/Yapp/Editor/Scripts/Integrations/UnityTerrain/UnityTerrainTreeManager.cs:277-278 | positive scales stay positive when growing, or when shrinking by less than the whole |
| UnityTerrainTreeManager.RelativeChangeKeepsPositive | Assets/Yapp/Editor/Scripts/Integrations/UnityTerrain/UnityTerrainTreeManager.cs:277-278 | a single positive scale stays positive under such an adjustment |
| UnityTerrainTreeManager.SetScaleOnTerrain | Assets/Yapp/Editor/Scripts/Integrations/UnityTerrain/UnityTerrainTreeManager.cs:305-339 | when no tree lies strictly inside the brush, nothing changes and nothing is registered; otherwise "Scale tree" is registered, every tree inside the brush takes the given width and height scales, and every tree is then snapped to the heightmap |
| UnityTerrainTreeManager.SetScale | Assets/Yapp/Editor/Scripts/Integrations/UnityTerrain/UnityTerrainTreeManager.cs:287-295 | without a target nothing changes; otherwise the terrain step is committed with its undo records |
| UnityTerrainTreeManager.SetScaleIdempotent | Assets/Yapp/Editor/Scripts/Integrations/UnityTerrain/UnityTerrainTreeManager.cs:305-339 | on trees that sit on the heightmap, setting the same scales twice at the same place leaves the trees as setting them once |
| UnityTerrainTreeManager.SetScaleSettlesAfterOneRepeat | Assets/Yapp/Editor/Scripts/Integrations/UnityTerrain/UnityTerrainTreeManager.cs:305-339 | for any trees, a third identical `SetScale` changes nothing after the second |
| UnityTerrainTreeManager.SetScaleReachesSnappedTree | Assets/Yapp/Editor/Scripts/Integrations/UnityTerrain/UnityTerrainTreeManager.cs:305-339 | when the brush selects some tree, a tree it misses but would reach once snapped to the heightmap keeps its scales through one `SetScale` and takes the new ones on the next |
| UnityTerrainTreeManager.SnapToHeightmap | Assets/Yapp/Editor/Scripts/Integrations/UnityTerrain/UnityTerrainTreeManager.cs:284 | the snapped tree sits on the heightmap, keeps its X, Z and every other field, and a tree already on the heightmap is not moved |
| UnityTerrainTreeManager.SetTreeInstances | Assets/Yapp/Editor/Scripts/Integrations/UnityTerrain/UnityTerrainTreeManager.cs:284 | the store holds the given trees in order, each snapped to the heightmap, and the rest of the terrain is unchanged |
| BrushDistribution.ApplyAutoPhysicsHeightOffset | Assets/Yapp/Editor/Scripts/Modules/BrushModule/BrushDistribution.cs:306-315 | without simulation the position is unchanged; otherwise only the height rises by the configured offset |
| BrushDistribution.ChildWithin | Assets/Yapp/Editor/Scripts/Modules/BrushModule/BrushDistribution.cs:36-50 | true exactly when some container child is at most the radius away |
| BrushDistribution.AddPrefabsCenter | Assets/Yapp/Editor/Scripts/Modules/BrushModule/BrushDistribution.cs:23-56 | at most one prefab, at the brush centre; always one when overlap is allowed; otherwise one exactly when every child is farther than the brush radius |
| BrushDistribution.SampleInDiscLandsInBrush | Assets/Yapp/Editor/Scripts/Modules/BrushModule/BrushDistribution.cs:174-180 | a sample inside the brush disc maps to a world point at most the brush radius from the centre on the ground plane |
| BrushDistribution.PoissonCandidate | Assets/Yapp/Editor/Scripts/Modules/BrushModule/BrushDistribution.cs:171-204 | a sample yields a position exactly when it lies in the disc and a height is found for it; the position is within the brush radius on the ground plane |
| BrushDistribution.ScatterPlacesExactlyFreeCandidates | Assets/Yapp/Editor/Scripts/Modules/BrushModule/BrushDistribution.cs:171-231 | a placement is emitted exactly when it carries the brush normal, comes from some sample's candidate, and no child lies within the disc radius of it (or overlap is allowed) |
| BrushDistribution.ScatterStaysInBrush | Assets/Yapp/Editor/Scripts/Modules/BrushModule/BrushDistribution.cs:171-231 | every placement lies within the brush radius on the ground plane and is free of children |
| BrushDistribution.ScatterAppend | Assets/Yapp/Editor/Scripts/Modules/BrushModule/BrushDistribution.cs:171-231 | scattering two runs of samples emits the placements of the first run followed by those of the second |
| BrushDistribution.SkippedSampleEmitsNothing | Assets/Yapp/Editor/Scripts/Modules/BrushModule/BrushDistribution.cs:175-198 | a sample outside the disc, or with no height, can be removed from the run without changing what is placed |
| BrushDistribution.RaycastHeight | Assets/Yapp/Editor/Scripts/Modules/BrushModule/BrushDistribution.cs:187-198 | no height exactly when both rays miss; the downward hit wins when there is one, and otherwise the upward hit is taken |
| BrushDistribution.AddPrefabsPoissonAny | Assets/Yapp/Editor/Scripts/Modules/BrushModule/BrushDistribution.cs:161-232 | at most one prefab per sample |
| BrushDistribution.PoissonAnyPlacesAtRayHits | Assets/Yapp/Editor/Scripts/Modules/BrushModule/BrushDistribution.cs:178-204 | every placement comes from an in-disc sample whose ray from the raycast offset height hit: the hit below, else the hit above, raised by the auto-physics offset |
| BrushDistribution.AddPrefabsPoissonTerrain | Assets/Yapp/Editor/Scripts/Modules/BrushModule/BrushDistribution.cs:237-299 | nothing is placed without an active terrain; at most one prefab per sample |
| BrushDistribution.PoissonTerrainPlacesOnTerrain | Assets/Yapp/Editor/Scripts/Modules/BrushModule/BrushDistribution.cs:257-271 | every placement sits at the sampled terrain height plus the terrain's own height and the auto-physics offset, and every in-disc sample yields a candidate |
| BrushDistribution.Min3IsLeast | Assets/Yapp/Editor/Scripts/Modules/BrushModule/BrushDistribution.cs:132 | the minimum of three ratios is one of them and none is smaller |
| BrushDistribution.ScaleToBrushSizeFactor | Assets/Yapp/Editor/Scripts/Modules/BrushModule/BrushDistribution.cs:123-132 | the factor is positive, no scaled bounds extent exceeds the brush size, and one of them equals it |
| BrushDistribution.SmallestRatioFits | Assets/Yapp/Editor/Scripts/Modules/BrushModule/BrushDistribution.cs:128-132 | the smallest of the three brush-to-extent ratios is finite and fits the bounds to the brush |
| BrushDistribution.AppliedPosition | Assets/Yapp/Editor/Scripts/Modules/BrushModule/BrushDistribution.cs:64-71 | the position is moved by the prefab offset, and its height also by the auto-physics offset when simulation is on |
| BrushDistribution.AppliedScale | Assets/Yapp/Editor/Scripts/Modules/BrushModule/BrushDistribution.cs:73-138 | with scale-to-brush the local scale is multiplied by a factor fitting the bounds to the brush; otherwise a uniform random scale when scale changing is on, else the prefab's own |
| BrushDistribution.CreateAppliedTransform | Assets/Yapp/Editor/Scripts/Modules/BrushModule/BrushDistribution.cs:58-144 | the transform's position carries both offsets; its scale fits the prefab's bounds to the brush under scale-to-brush, and is otherwise the uniform random scale or the prefab's own scale |
| BrushDistribution.AddNewPrefab | Assets/Yapp/Editor/Scripts/Modules/BrushModule/BrushDistribution.cs:146-156 | the transform a placement is persisted with is the placement's position moved by the prefab offset and the auto-physics height offset, and under scale-to-brush its scale fits the prefab's bounds to the brush |
| BrushDistribution.CenterPrefabRaisedOnce | Assets/Yapp/Editor/Scripts/Modules/BrushModule/BrushDistribution.cs:23-71 | a prefab placed in Center mode ends at the brush height plus its offset plus the auto-physics offset once |
| BrushDistribution.PoissonTerrainPrefabRaisedTwice | Assets/Yapp/Editor/Scripts/Modules/BrushModule/BrushDistribution.cs:237-299 | a prefab placed in `Poisson_Terrain` mode ends at the terrain height plus its offset plus twice the auto-physics offset |
| BrushDistribution.PoissonAnyPrefabRaisedTwice | Assets/Yapp/Editor/Scripts/Modules/BrushModule/BrushDistribution.cs:161-232 | a prefab placed in `Poisson_Any` mode ends at the ray height of one of the samples plus its offset plus twice the auto-physics offset |
| Scenarios.PlantInTheMiddle | Assets/Yapp/Editor/Scripts/Integrations/UnityTerrain/UnityTerrainTreeManager.cs:86-127 | on an empty 100-unit terrain, an oak placed at the centre becomes one white tree at local (0.5, 0, 0.5), with "Add tree" registered |
| Scenarios.NeighbourIsBlocked | Assets/Yapp/Editor/Scripts/Integrations/UnityTerrain/UnityTerrainTreeManager.cs:106-126 | a second oak one unit diagonally away is refused by either query, while "Add tree" is still registered |
| Scenarios.UnregisteredPrefabPlantsNothing | Assets/Yapp/Editor/Scripts/Integrations/UnityTerrain/UnityTerrainTreeManager.cs:94-100 | a prefab that is not a prototype plants nothing and registers nothing |
| Scenarios.GrowAndShrink | Assets/Yapp/Editor/Scripts/Integrations/UnityTerrain/UnityTerrainTreeManager.cs:262-284 | a ten percent adjustment turns the selected tree's unit scales into 1.1 or 0.9 and leaves the tree outside the brush as it was |
| Scenarios.SetScaleTwiceReachesSnappedTree | Assets/Yapp/Editor/Scripts/Integrations/UnityTerrain/UnityTerrainTreeManager.cs:305-339 | a tree stored above flat ground at the brush centre keeps its scale through one `SetScale` but takes the new scale on the second |
| Scenarios.ParallelRemovalKeepsRepeats | Assets/Yapp/Editor/Scripts/Integrations/UnityTerrain/UnityTerrainTreeManager.cs:391 | the fast removal keeps both copies of a repeated tree outside the brush |
| Scenarios.SequentialRemovalDropsRepeats | Assets/Yapp/Editor/Scripts/Integrations/UnityTerrain/UnityTerrainTreeManager.cs:433 | on a field holding the same tree twice outside the brush, the slow removal leaves exactly one copy of that tree |
| Scenarios.CenterBlockedOnTheRadius | Assets/Yapp/Editor/Scripts/Modules/BrushModule/BrushDistribution.cs:36-50 | a child exactly on the brush radius blocks a Center placement |
| Scenarios.CenterFreeBeyondTheRadius | Assets/Yapp/Editor/Scripts/Modules/BrushModule/BrushDistribution.cs:36-56 | a child just beyond the brush radius does not |
| Scenarios.FitTallPrefab | Assets/Yapp/Editor/Scripts/Modules/BrushModule/BrushDistribution.cs:128-134 | bounds (2, 4, 1) fitted to an 8-unit brush are scaled by 2 |

## Left out

- Concurrency of `AsParallel`: the fast queries are modelled as sequential and ordered. `FirstOrDefault` on a parallel query may return any match, and the filtered array may come out in any order. The model takes the first match and keeps source order, so the fast/slow divergences it proves hold for any order only where they concern which trees are kept.
- Tree rotation beyond the radian conversion, and the prefab rotation in `CreateAppliedTransform` (brush, object and normal alignment quaternions): quaternion algebra is outside the model. For scale-to-brush, the world bounds of the rotated prefab are a parameter.
- `Color32` byte rounding of the tree colour, the source's unused temporary distance, and single-precision float rounding: colours and all arithmetic are exact reals.
- `Random.Range` for colours and scales: the random draw is a parameter.
- The `PoissonDiscSampler` internals: the samples are a parameter.
- `Physics.Raycast` and `Terrain.SampleHeight` are engine calls: they are parameters.
- `PersistPrefab` is an engine call; `AddNewPrefab` is modelled as the transform it passes on. Its effect on the container is not modelled, so container children stay fixed during one brush stroke.
- `Undo.RegisterCompleteObjectUndo`, `Debug.Log` and `LogTreePrototypes`: undo is reduced to the list of its record labels, and logging is left out.
- `ExtractPrefabs` and the editor GUI around the manager are not part of this model.
- UnityTerrainTreeManager.GetLocalPosition: requires a terrain with positive width and length, since the source divides by them and would produce infinity or NaN.
- BrushDistribution.ScaleToBrushSizeFactor: requires a positive brush size and bounds with no negative extent and at least one positive one. A zero brush gives the factor 0 and a negative brush a negative factor; neither fits the bounds to the brush, so the contract cannot describe them. Bounds with no positive extent divide by zero.
- BrushDistribution.AddPrefabsPoissonAny, BrushDistribution.AddPrefabsPoissonTerrain: these only bound the number of placements. What they place is stated by BrushDistribution.PoissonAnyPlacesAtRayHits, BrushDistribution.PoissonTerrainPlacesOnTerrain and BrushDistribution.ScatterPlacesExactlyFreeCandidates.
- UnityTerrainTreeManager.PlaceTreeInstance: `terrain.AddTreeInstance` is an engine call. It is taken to store the instance unchanged, at local height 0, without snapping it to the heightmap. The placement results that compare 3-D local distances (`PlaceTreeKeepsTreesSpaced`, `Scenarios.PlantInTheMiddle`, `Scenarios.NeighbourIsBlocked`) rely on that stored height.
- The terrain heightmap behind `SetTreeInstances(trees, true)` is an engine query: it is a parameter mapping a local X/Z position to the stored height.
- UnityTerrainTreeManager.SetScaleIdempotent: requires the trees to sit on the heightmap already. Otherwise the snap of the first call can move a tree into the brush, and the second call then rescales it (`SetScaleReachesSnappedTree`, with a concrete instance in `Scenarios.SetScaleTwiceReachesSnappedTree`). `SetScaleSettlesAfterOneRepeat` covers every input.

/** Worked examples on a small field: a 100 x 50 x 100 terrain at the origin with a
    single registered tree prefab, and a brush of size 20 (local radius 0.1). Each
    numeric fact is a lemma of its own, so that every step stays small. */
module Scenarios {
  import opened Geometry
  import opened UnityTerrainTreeManager
  import BrushDistribution

  const Oak: PrefabId := 7

  const Unit := Vec3(1.0, 1.0, 1.0)

  /** The middle of the field, and a point one unit further along X and Z */
  const Middle := Vec3(50.0, 0.0, 50.0)

  const Neighbour := Vec3(51.0, 0.0, 51.0)

  /** The tree a 20-unit brush plants at the middle of the field */
  const Planted := TreeInstance(Vec3(0.5, 0.0, 0.5), 1.0, 1.0, 0.0, White, White, 0)

  /** A tree of the same kind near the field's far corner, well outside the brush */
  const Remote := TreeInstance(Vec3(0.9, 0.0, 0.9), 1.0, 1.0, 0.0, White, White, 0)

  /** A tree stored a fifth of the terrain height above the ground at the middle */
  const Raised := TreeInstance(Vec3(0.5, 0.2, 0.5), 1.0, 1.0, 0.0, White, White, 0)

  /** The field is flat: its heightmap is zero everywhere. */
  const Flat: Heightmap := (xz: Vec2) => 0.0

  /** The field holding `trees` */
  function FieldWith(trees: seq<TreeInstance>): (r: Terrain)
    ensures ValidTerrain(r) && Trees(r) == trees
    ensures r.terrainData.size.x == 100.0 && r.terrainData.treePrototypes == [Oak]
  {
    Terrain(Vec3(0.0, 0.0, 0.0), TerrainData(Vec3(100.0, 50.0, 100.0), [Oak], trees))
  }

  // ---------------------------------------------------------------------------
  // Numeric facts
  // ---------------------------------------------------------------------------

  lemma MiddleLocal(trees: seq<TreeInstance>)
    ensures GetLocalPosition(FieldWith(trees), Middle) == Vec3(0.5, 0.0, 0.5)
  {
  }

  lemma NeighbourLocal(trees: seq<TreeInstance>)
    ensures GetLocalPosition(FieldWith(trees), Neighbour) == Vec3(0.51, 0.0, 0.51)
  {
  }

  lemma BrushRadiusOnField(trees: seq<TreeInstance>)
    ensures GetLocalBrushRadius(FieldWith(trees).terrainData, 20.0) == 0.1
  {
  }

  lemma PlantedInside()
    ensures InBrush(Vec3(0.5, 0.0, 0.5), 0.1, Planted)
  {
  }

  lemma RemoteDistance()
    ensures Dist2(Vec3(0.5, 0.0, 0.5), Remote.position) == 0.32
  {
    assert Sq(0.5 - 0.9) == 0.16;
  }

  lemma RemoteOutside()
    ensures DistGt(Dist2(Vec3(0.5, 0.0, 0.5), Remote.position), 0.1)
  {
    RemoteDistance();
    assert !(0.32 <= 0.1 * 0.1);
  }

  lemma RemoteNotInBrush()
    ensures !InBrush(Vec3(0.5, 0.0, 0.5), 0.1, Remote)
  {
    RemoteDistance();
    assert !(0.32 < 0.1 * 0.1);
  }

  lemma NeighbourDistance()
    ensures Dist2(Vec3(0.51, 0.0, 0.51), Planted.position) == 0.0002
  {
    assert Sq(0.51 - 0.5) == 0.0001;
  }

  /** Scaled back to world units, the neighbour is about 1.41 from the planted tree,
      less than the 10-unit half brush. */
  lemma NeighbourTooClose()
    ensures ScaledDistLt(Dist2(Vec3(0.51, 0.0, 0.51), Planted.position), 100.0, 10.0)
  {
    NeighbourDistance();
    assert 0.0002 * (100.0 * 100.0) == 2.0;
  }

  // ---------------------------------------------------------------------------
  // Placement
  // ---------------------------------------------------------------------------

  lemma EmptyFieldIsFree(useLinq: bool)
    ensures !IsOverlapping(FieldWith([]).terrainData, Vec3(0.5, 0.0, 0.5), PrototypeDefaultFilterIndex, 10.0, useLinq)
  {
  }

  /** Painting at the middle of the empty field plants one tree at local (0.5, 0, 0.5)
      and registers one undo step. */
  lemma PlantInTheMiddle()
    ensures var step := PlaceTreeOnTerrain(FieldWith([]), Oak, Middle, Unit, 0.0, 20.0, false, 0.0, true);
            step.terrain == FieldWith([Planted]) && step.undo == [AddTreeLabel]
  {
    var field := FieldWith([]);
    MiddleLocal([]);
    EmptyFieldIsFree(true);
    assert 20.0 * 0.5 == 10.0;
    var step := PlaceTreeOnTerrain(field, Oak, Middle, Unit, 0.0, 20.0, false, 0.0, true);
    assert |Trees(step.terrain)| == 1;
    var added := Trees(step.terrain)[0];
    assert added.prototypeIndex == 0;
    assert added.rotation == 0.0;
    assert added == Planted;
    assert Trees(step.terrain) == [Planted];
  }

  lemma NeighbourOverlaps(useLinq: bool)
    ensures IsOverlapping(FieldWith([Planted]).terrainData, Vec3(0.51, 0.0, 0.51), PrototypeDefaultFilterIndex, 10.0, useLinq)
  {
    var data := FieldWith([Planted]).terrainData;
    NeighbourTooClose();
    assert data.treeInstances[0] == Planted;
    assert IsOverlappingSlow(data, Vec3(0.51, 0.0, 0.51), PrototypeDefaultFilterIndex, 10.0);
    IsOverlappingAgreesOnPaintedTrees(data, Vec3(0.51, 0.0, 0.51), PrototypeDefaultFilterIndex, 10.0);
  }

  /** One world unit further along both axes, the same brush is blocked by the planted
      tree, with either overlap query: the store is unchanged, yet an undo step is
      registered (it is recorded before the overlap test). */
  lemma NeighbourIsBlocked(useLinq: bool)
    ensures var step := PlaceTreeOnTerrain(FieldWith([Planted]), Oak, Neighbour, Unit, 0.0, 20.0, false, 0.0, useLinq);
            Trees(step.terrain) == [Planted] && step.undo == [AddTreeLabel]
  {
    NeighbourLocal([Planted]);
    NeighbourOverlaps(useLinq);
    assert 20.0 * 0.5 == 10.0;
  }

  /** A prefab that is not registered as a tree prototype plants nothing and leaves no
      undo step. */
  lemma UnregisteredPrefabPlantsNothing()
    ensures var step := PlaceTreeOnTerrain(FieldWith([]), 8, Middle, Unit, 0.0, 20.0, false, 0.0, true);
            Trees(step.terrain) == [] && step.undo == []
  {
  }

  // ---------------------------------------------------------------------------
  // Rescaling and removal
  // ---------------------------------------------------------------------------

  /** On the field with the planted and the remote tree, the brush at the middle selects
      the planted tree only. */
  lemma MiddleBrushSelectsPlanted()
    ensures var field := FieldWith([Planted, Remote]);
            var center := GetLocalPosition(field, Middle);
            var radius := GetLocalBrushRadius(field.terrainData, 20.0);
            InBrush(center, radius, Planted) && !InBrush(center, radius, Remote)
  {
    MiddleLocal([Planted, Remote]);
    BrushRadiusOnField([Planted, Remote]);
    PlantedInside();
    RemoteNotInBrush();
  }

  lemma AdjustedByTenPercent(grow: bool)
    ensures Adjusted(1.0, grow, 0.1) == if grow then 1.1 else 0.9
  {
  }

  /** Growing by 10% and shrinking by 10% act only on the tree inside the brush; on the
      flat field the snap leaves both trees where they are. */
  lemma GrowAndShrink(grow: bool)
    ensures var after := Trees(ChangeScaleOnTerrain(FieldWith([Planted, Remote]), Middle, 20.0, grow, 0.1, Flat).terrain);
            var s := if grow then 1.1 else 0.9;
            after == [Planted.(widthScale := s, heightScale := s), Remote]
  {
    var trees := [Planted, Remote];
    var field := FieldWith(trees);
    MiddleBrushSelectsPlanted();
    AdjustedByTenPercent(grow);
    assert Selected(field, Middle, 20.0, trees[0]);
    var after := Trees(ChangeScaleOnTerrain(field, Middle, 20.0, grow, 0.1, Flat).terrain);
    assert |after| == 2;
    assert after[0] == SnapToHeightmap(AdjustTree(Planted, grow, 0.1), Flat) by { assert trees[0] == Planted; }
    assert after[1] == SnapToHeightmap(Remote, Flat) by { assert trees[1] == Remote; }
  }

  lemma RaisedOutside()
    ensures !InBrush(Vec3(0.5, 0.0, 0.5), 0.1, Raised)
  {
    assert Sq(0.5 - 0.5) == 0.0 && Sq(0.0 - 0.2) == 0.04;
    assert Dist2(Vec3(0.5, 0.0, 0.5), Raised.position) == 0.04;
  }

  lemma RaisedSnapsIntoBrush()
    ensures InBrush(Vec3(0.5, 0.0, 0.5), 0.1, SnapToHeightmap(Raised, Flat))
  {
    assert SnapToHeightmap(Raised, Flat).position == Vec3(0.5, 0.0, 0.5);
  }

  lemma PlantedSelected(field: Terrain)
    requires SameExceptTrees(field, FieldWith([]))
    ensures ValidTerrain(field) && Selected(field, Middle, 20.0, Planted)
  {
    SameFrame(field, FieldWith([]), Middle, 20.0);
    MiddleLocal([]);
    BrushRadiusOnField([]);
    PlantedInside();
  }

  lemma RaisedNotSelected(field: Terrain)
    requires SameExceptTrees(field, FieldWith([]))
    ensures ValidTerrain(field) && !Selected(field, Middle, 20.0, Raised)
  {
    SameFrame(field, FieldWith([]), Middle, 20.0);
    MiddleLocal([]);
    BrushRadiusOnField([]);
    RaisedOutside();
  }

  lemma SnappedRaisedSelected(field: Terrain)
    requires SameExceptTrees(field, FieldWith([]))
    ensures ValidTerrain(field) && Selected(field, Middle, 20.0, SnapToHeightmap(Raised, Flat))
  {
    SameFrame(field, FieldWith([]), Middle, 20.0);
    MiddleLocal([]);
    BrushRadiusOnField([]);
    RaisedSnapsIntoBrush();
  }

  /** Off the heightmap, `SetScale` is not idempotent: a tree stored above the flat ground
      at the brush centre is out of reach of the first call, which selects the planted tree
      and so snaps the raised one down into the brush, where the second call rescales it. */
  lemma SetScaleTwiceReachesSnappedTree()
    ensures var once := SetScaleOnTerrain(FieldWith([Planted, Raised]), Middle, 20.0, 2.0, 2.0, Flat).terrain;
            var twice := SetScaleOnTerrain(once, Middle, 20.0, 2.0, 2.0, Flat).terrain;
            Trees(once)[1].widthScale == 1.0 && Trees(twice)[1].widthScale == 2.0
  {
    var field := FieldWith([Planted, Raised]);
    PlantedSelected(field);
    RaisedNotSelected(field);
    SnappedRaisedSelected(field);
    SetScaleReachesSnappedTree(field, Middle, 20.0, 2.0, 2.0, Flat, 0, 1);
  }

  /** On the field holding the remote tree twice, the brush at the middle selects
      neither copy. */
  lemma MiddleBrushMissesRemote()
    ensures var field := FieldWith([Remote, Remote]);
            var center := GetLocalPosition(field, Middle);
            var radius := GetLocalBrushRadius(field.terrainData, 20.0);
            !InBrush(center, radius, Remote) && DistGt(Dist2(center, Remote.position), radius)
  {
    MiddleLocal([Remote, Remote]);
    BrushRadiusOnField([Remote, Remote]);
    RemoteNotInBrush();
    RemoteOutside();
  }

  /** A repeated instance outside the brush: the parallel removal keeps both copies. */
  lemma ParallelRemovalKeepsRepeats()
    ensures Trees(RemoveOverlappingFast(FieldWith([Remote, Remote]), Middle, PrototypeDefaultFilterIndex, 20.0))
         == [Remote, Remote]
  {
    var field := FieldWith([Remote, Remote]);
    MiddleBrushMissesRemote();
    var center := GetLocalPosition(field, Middle);
    var radius := GetLocalBrushRadius(field.terrainData, 20.0);
    var keep := (t: TreeInstance) => PassesFilter(PrototypeDefaultFilterIndex, t)
                                     && DistGt(Dist2(center, t.position), radius);
    assert keep(Remote);
    assert Linq.Where([Remote], keep) == [Remote];
    assert [Remote, Remote][1..] == [Remote];
    assert Linq.Where([Remote, Remote], keep) == [Remote, Remote];
  }

  /** The same store under the sequential removal: `Except` keeps one copy. */
  lemma SequentialRemovalDropsRepeats()
    ensures Trees(RemoveOverlappingSlow(FieldWith([Remote, Remote]), Middle, PrototypeDefaultFilterIndex, 20.0))
         == [Remote]
  {
    var field := FieldWith([Remote, Remote]);
    MiddleBrushMissesRemote();
    var slow := Trees(RemoveOverlappingSlow(field, Middle, PrototypeDefaultFilterIndex, 20.0));
    assert Remote in Trees(field);
    assert Remote in slow;
    assert forall k :: 0 <= k < |slow| ==> slow[k] == Remote by {
      forall k | 0 <= k < |slow| ensures slow[k] == Remote { assert slow[k] in Trees(field); }
    }
    SingleValueDistinct(slow, Remote);
  }

  lemma DistinctHeadDiffers<T>(xs: seq<T>)
    requires Linq.Distinct(xs) && |xs| > 1
    ensures xs[0] != xs[1]
  {
  }

  /** A sequence without repeats whose entries all equal `x` has at most one entry. */
  lemma SingleValueDistinct<T>(xs: seq<T>, x: T)
    requires Linq.Distinct(xs)
    requires forall k :: 0 <= k < |xs| ==> xs[k] == x
    ensures |xs| <= 1
  {
    if |xs| > 1 {
      DistinctHeadDiffers(xs);
      assert false;
    }
  }

  // ---------------------------------------------------------------------------
  // Brush distribution
  // ---------------------------------------------------------------------------

  const Brush10 := BrushDistribution.BrushSettings(10.0, false, 1.0, 0.0, BrushDistribution.Center)

  const Still := BrushDistribution.SpawnSettings(BrushDistribution.NoSimulation, 0.0)

  const Up := Vec3(0.0, 1.0, 0.0)

  const Origin := Vec3(0.0, 0.0, 0.0)

  lemma ChildOnTheRadius()
    ensures BrushDistribution.BrushRadius(Brush10) == 5.0
    ensures BrushDistribution.ChildWithin([Vec3(5.0, 0.0, 0.0)], Origin, 5.0)
  {
    assert Dist2(Origin, Vec3(5.0, 0.0, 0.0)) == 25.0;
    assert DistLe(25.0, 5.0);
  }

  lemma ChildBeyondTheRadius()
    ensures BrushDistribution.BrushRadius(Brush10) == 5.0
    ensures !BrushDistribution.ChildWithin([Vec3(6.0, 0.0, 0.0)], Origin, 5.0)
  {
    assert Dist2(Origin, Vec3(6.0, 0.0, 0.0)) == 36.0;
    assert !DistLe(36.0, 5.0);
  }

  /** Center mode with overlap off: a child exactly 5 units away blocks a 10-unit brush
      (the radius is inclusive). */
  lemma CenterBlockedOnTheRadius()
    ensures BrushDistribution.AddPrefabsCenter(BrushDistribution.Painter(Brush10, Still, [Vec3(5.0, 0.0, 0.0)]), Origin, Up) == []
  {
    ChildOnTheRadius();
  }

  /** A child 6 units away does not block the same brush. */
  lemma CenterFreeBeyondTheRadius()
    ensures BrushDistribution.AddPrefabsCenter(BrushDistribution.Painter(Brush10, Still, [Vec3(6.0, 0.0, 0.0)]), Origin, Up)
         == [BrushDistribution.Placement(Origin, Up)]
  {
    ChildBeyondTheRadius();
  }

  /** Scaling to the brush size: a 2 x 4 x 1 bounds box under an 8-unit brush is scaled by
      2, which makes its tallest extent exactly 8. */
  lemma FitTallPrefab()
    ensures BrushDistribution.ScaleToBrushSizeFactor(8.0, Vec3(2.0, 4.0, 1.0)) == 2.0
  {
  }
}

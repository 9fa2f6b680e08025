/** The tree-instance store of a Unity terrain and the brush operations on it:
    guarded placement, overlap queries, removal, rescaling and clearing.

    Tree positions are stored in terrain-local normalised coordinates (the terrain
    footprint is the unit square in X and Z). A brush is a world position and a
    world brush size; its radius is converted to local space with the X extent of
    the terrain only. Undo registration is recorded as a log of labels. */
module UnityTerrainTreeManager {
  import opened Wrappers
  import opened Geometry
  import Linq

  /** Identity of a prefab (a `GameObject` reference) */
  type PrefabId = nat

  datatype Color = Color(r: real, g: real, b: real, a: real)

  const White := Color(1.0, 1.0, 1.0, 1.0)

  /** `default(Color)` */
  const Transparent := Color(0.0, 0.0, 0.0, 0.0)

  /** Unity's `TreeInstance` struct */
  datatype TreeInstance = TreeInstance(
    position: Vec3,
    widthScale: real,
    heightScale: real,
    rotation: real,
    color: Color,
    lightmapColor: Color,
    prototypeIndex: int)

  /** `default(TreeInstance)`: every field zero */
  const DefaultTreeInstance := TreeInstance(Vec3(0.0, 0.0, 0.0), 0.0, 0.0, 0.0, Transparent, Transparent, 0)

  /** Prototype filter value meaning "trees of every prototype" */
  const PrototypeDefaultFilterIndex: int := -1

  /** `Mathf.Deg2Rad` as a single-precision constant */
  const Deg2Rad: real := 0.0174532924

  /** Labels passed to the undo system before each mutation */
  const AddTreeLabel := "Add tree"
  const RemoveAllTreesLabel := "Remove all trees"
  const ScaleTreeLabel := "Scale tree"
  const RemoveTreesLabel := "Remove trees"

  datatype TerrainData = TerrainData(size: Vec3, treePrototypes: seq<PrefabId>, treeInstances: seq<TreeInstance>)

  /** A terrain: its transform position (the world origin of its footprint) and its data */
  datatype Terrain = Terrain(position: Vec3, terrainData: TerrainData)

  /** Terrains have a positive footprint in X and Z. */
  predicate ValidTerrain(terrain: Terrain) {
    terrain.terrainData.size.x > 0.0 && terrain.terrainData.size.z > 0.0
  }

  /** The manager's view of the editor: the brush's target terrain, which may be unset,
      and the undo records registered so far, oldest first. */
  datatype Editor = Editor(targetTerrain: Option<Terrain>, undo: seq<string>)

  predicate ValidEditor(editor: Editor) {
    editor.targetTerrain.Some? ==> ValidTerrain(editor.targetTerrain.value)
  }

  /** The effect of one operation on a given terrain: the terrain afterwards and the
      undo records the operation registered. */
  datatype Step = Step(terrain: Terrain, undo: seq<string>)

  function Trees(terrain: Terrain): seq<TreeInstance> {
    terrain.terrainData.treeInstances
  }

  function WithTrees(terrain: Terrain, trees: seq<TreeInstance>): (r: Terrain)
    ensures Trees(r) == trees
  {
    terrain.(terrainData := terrain.terrainData.(treeInstances := trees))
  }

  /** Everything but the tree instances is the same. */
  predicate SameExceptTrees(a: Terrain, b: Terrain) {
    a.position == b.position
    && a.terrainData.size == b.terrainData.size
    && a.terrainData.treePrototypes == b.terrainData.treePrototypes
  }

  /** Applies a terrain-level step to the editor's target terrain. */
  function Commit(editor: Editor, step: Step): Editor {
    Editor(Some(step.terrain), editor.undo + step.undo)
  }

  // ---------------------------------------------------------------------------
  // Prototypes and coordinates
  // ---------------------------------------------------------------------------

  /** Linear search for `prefab` among the terrain's tree prototypes. */
  function GetTreePrototypeIndex(terrainData: TerrainData, prefab: PrefabId): (r: int)
    ensures -1 <= r < |terrainData.treePrototypes|
    ensures r == -1 <==> prefab !in terrainData.treePrototypes
    ensures r != -1 ==> terrainData.treePrototypes[r] == prefab
    ensures r != -1 ==> forall j :: 0 <= j < r ==> terrainData.treePrototypes[j] != prefab
  {
    PrototypeIndexFrom(terrainData.treePrototypes, prefab, 0)
  }

  /** The search loop from position `i` on. */
  function PrototypeIndexFrom(trees: seq<PrefabId>, prefab: PrefabId, i: nat): (r: int)
    requires i <= |trees|
    ensures r == -1 || i <= r < |trees|
    ensures r == -1 <==> prefab !in trees[i..]
    ensures r != -1 ==> trees[r] == prefab && forall j :: i <= j < r ==> trees[j] != prefab
    decreases |trees| - i
  {
    if i == |trees| then -1
    else if trees[i] == prefab then i
    else
      assert trees[i..] == [trees[i]] + trees[i + 1..];
      PrototypeIndexFrom(trees, prefab, i + 1)
  }

  /** World position to terrain-local position: X and Z are normalised by the terrain
      footprint, the height channel is zero. */
  function GetLocalPosition(terrain: Terrain, position: Vec3): (r: Vec3)
    requires ValidTerrain(terrain)
    ensures r.y == 0.0
    ensures r.x * terrain.terrainData.size.x == position.x - terrain.position.x
    ensures r.z * terrain.terrainData.size.z == position.z - terrain.position.z
  {
    Vec3((position.x - terrain.position.x) / terrain.terrainData.size.x,
         0.0,
         (position.z - terrain.position.z) / terrain.terrainData.size.z)
  }

  /** The inverse map, from a local position and a world height back to world space. */
  function GetWorldPosition(terrain: Terrain, local: Vec3, height: real): Vec3 {
    Vec3(terrain.position.x + local.x * terrain.terrainData.size.x,
         height,
         terrain.position.z + local.z * terrain.terrainData.size.z)
  }

  /** Mapping to local space and back is the identity on world positions. */
  lemma LocalPositionRoundTrip(terrain: Terrain, position: Vec3)
    requires ValidTerrain(terrain)
    ensures GetWorldPosition(terrain, GetLocalPosition(terrain, position), position.y) == position
  {
    var local := GetLocalPosition(terrain, position);
    var world := GetWorldPosition(terrain, local, position.y);
    assert world.x == position.x && world.y == position.y && world.z == position.z;
  }

  /** Mapping to world space and back is the identity on local positions of height zero. */
  lemma WorldPositionRoundTrip(terrain: Terrain, local: Vec3, height: real)
    requires ValidTerrain(terrain) && local.y == 0.0
    ensures GetLocalPosition(terrain, GetWorldPosition(terrain, local, height)) == local
  {
    var back := GetLocalPosition(terrain, GetWorldPosition(terrain, local, height));
    var s := terrain.terrainData.size;
    assert back.x * s.x == local.x * s.x;
    assert back.z * s.z == local.z * s.z;
  }

  /** Half the brush size, converted to local units with the X extent only. */
  function GetLocalBrushRadius(terrainData: TerrainData, brushSize: real): (r: real)
    requires terrainData.size.x > 0.0
    ensures r * terrainData.size.x == brushSize * 0.5
    ensures brushSize >= 0.0 ==> r >= 0.0
  {
    brushSize * 0.5 / terrainData.size.x
  }

  /** On a square terrain the local radius is exact: a tree whose stored position has
      height zero is inside the local brush exactly when the ground distance between
      the brush centre and the tree's world position is less than half the brush size. */
  lemma LocalRadiusExactOnSquareTerrain(terrain: Terrain, position: Vec3, tree: TreeInstance, brushSize: real)
    requires ValidTerrain(terrain)
    requires terrain.terrainData.size.x == terrain.terrainData.size.z
    requires tree.position.y == 0.0
    ensures DistLt(Dist2(GetLocalPosition(terrain, position), tree.position),
                   GetLocalBrushRadius(terrain.terrainData, brushSize))
        <==> DistLt(HorizontalDist2(position, GetWorldPosition(terrain, tree.position, position.y)),
                    brushSize * 0.5)
  {
    var s := terrain.terrainData.size.x;
    var local := GetLocalPosition(terrain, position);
    var world := GetWorldPosition(terrain, tree.position, position.y);
    var d2 := Dist2(local, tree.position);
    assert position.x - world.x == (local.x - tree.position.x) * s;
    assert position.z - world.z == (local.z - tree.position.z) * s;
    assert HorizontalDist2(position, world) == d2 * (s * s) by {
      assert Sq((local.x - tree.position.x) * s) == Sq(local.x - tree.position.x) * (s * s);
      assert Sq((local.z - tree.position.z) * s) == Sq(local.z - tree.position.z) * (s * s);
    }
    DistLtRescaled(d2, brushSize * 0.5, s);
  }

  // ---------------------------------------------------------------------------
  // Overlap queries
  // ---------------------------------------------------------------------------

  /** The prototype filter: the default filter index admits every tree. */
  predicate PassesFilter(filter: int, tree: TreeInstance) {
    filter == PrototypeDefaultFilterIndex || filter == tree.prototypeIndex
  }

  /** The tree lies strictly inside the local disc of radius `localRadius` around `center`. */
  predicate InBrush(center: Vec3, localRadius: real, tree: TreeInstance) {
    DistLt(Dist2(center, tree.position), localRadius)
  }

  /** Some tree passes the filter and lies strictly within `minDistanceWorld / size.x`. */
  predicate FastOverlapMatchExists(terrainData: TerrainData, position: Vec3, filter: int, minDistanceWorld: real)
    requires terrainData.size.x > 0.0
  {
    exists i :: 0 <= i < |terrainData.treeInstances| && FastOverlapMatch(terrainData, position, filter, minDistanceWorld, terrainData.treeInstances[i])
  }

  predicate FastOverlapMatch(terrainData: TerrainData, position: Vec3, filter: int, minDistanceWorld: real, tree: TreeInstance)
    requires terrainData.size.x > 0.0
  {
    PassesFilter(filter, tree) && InBrush(position, minDistanceWorld / terrainData.size.x, tree)
  }

  /** No tree that matches the query equals `default(TreeInstance)`. */
  predicate NoDefaultMatch(terrainData: TerrainData, position: Vec3, filter: int, minDistanceWorld: real)
    requires terrainData.size.x > 0.0
  {
    forall i :: 0 <= i < |terrainData.treeInstances| && FastOverlapMatch(terrainData, position, filter, minDistanceWorld, terrainData.treeInstances[i])
      ==> terrainData.treeInstances[i] != DefaultTreeInstance
  }

  /** Parallel query: the first tree that passes the filter and lies strictly within
      `minDistanceWorld / size.x` of `position`, compared against `default(TreeInstance)`.
      A match that happens to equal the default struct reads as "no overlap". */
  function IsOverlappingFast(terrainData: TerrainData, position: Vec3, filter: int, minDistanceWorld: real): (r: bool)
    requires terrainData.size.x > 0.0
    ensures r ==> FastOverlapMatchExists(terrainData, position, filter, minDistanceWorld)
    ensures NoDefaultMatch(terrainData, position, filter, minDistanceWorld)
      ==> (r <==> FastOverlapMatchExists(terrainData, position, filter, minDistanceWorld))
  {
    var localMinDistance := minDistanceWorld / terrainData.size.x;
    var first := Linq.FirstOrDefault(terrainData.treeInstances,
                                     t => PassesFilter(filter, t) && InBrush(position, localMinDistance, t),
                                     DefaultTreeInstance);
    first != DefaultTreeInstance
  }

  /** Sequential query: some tree passes the filter and its local distance, scaled back to
      world units by `size.x`, is strictly less than `minDistanceWorld`. */
  function IsOverlappingSlow(terrainData: TerrainData, position: Vec3, filter: int, minDistanceWorld: real): (r: bool)
    requires terrainData.size.x > 0.0
    ensures r <==> exists i :: (0 <= i < |terrainData.treeInstances|
      && PassesFilter(filter, terrainData.treeInstances[i])
      && ScaledDistLt(Dist2(position, terrainData.treeInstances[i].position), terrainData.size.x, minDistanceWorld))
  {
    SlowOverlapScan(terrainData.treeInstances, position, filter, terrainData.size.x, minDistanceWorld)
  }

  /** The loop of the sequential query, returning on the first overlapping tree. */
  function SlowOverlapScan(trees: seq<TreeInstance>, position: Vec3, filter: int, sizeX: real, minDistanceWorld: real): (r: bool)
    requires sizeX > 0.0
    ensures r <==> exists i :: (0 <= i < |trees|
      && PassesFilter(filter, trees[i])
      && ScaledDistLt(Dist2(position, trees[i].position), sizeX, minDistanceWorld))
  {
    if trees == [] then false
    else
      var rest := SlowOverlapScan(trees[1..], position, filter, sizeX, minDistanceWorld);
      assert forall i :: 1 <= i < |trees| ==> trees[i] == trees[1..][i - 1];
      if !PassesFilter(filter, trees[0]) then rest
      else if ScaledDistLt(Dist2(position, trees[0].position), sizeX, minDistanceWorld) then true
      else rest
  }

  /** The strategy switch between the two queries. Either way it reports an overlap exactly
      when some tree passes the filter strictly within the divided radius, provided, for the
      parallel query, that no such tree equals the default struct. */
  function IsOverlapping(terrainData: TerrainData, position: Vec3, filter: int, minDistanceWorld: real, useLinq: bool): (r: bool)
    requires terrainData.size.x > 0.0
    ensures (useLinq ==> NoDefaultMatch(terrainData, position, filter, minDistanceWorld))
            ==> (r <==> FastOverlapMatchExists(terrainData, position, filter, minDistanceWorld))
  {
    if useLinq then IsOverlappingFast(terrainData, position, filter, minDistanceWorld)
    else
      assert forall i :: 0 <= i < |terrainData.treeInstances| ==>
        (InBrush(position, minDistanceWorld / terrainData.size.x, terrainData.treeInstances[i])
         <==> ScaledDistLt(Dist2(position, terrainData.treeInstances[i].position), terrainData.size.x, minDistanceWorld)) by {
        forall i | 0 <= i < |terrainData.treeInstances|
          ensures InBrush(position, minDistanceWorld / terrainData.size.x, terrainData.treeInstances[i])
              <==> ScaledDistLt(Dist2(position, terrainData.treeInstances[i].position), terrainData.size.x, minDistanceWorld)
        {
          OverlapTestsAgreePerTree(terrainData, position, minDistanceWorld, terrainData.treeInstances[i]);
        }
      }
      IsOverlappingSlow(terrainData, position, filter, minDistanceWorld)
  }

  /** The two ways of comparing a tree's distance with the threshold agree tree by tree. */
  lemma OverlapTestsAgreePerTree(terrainData: TerrainData, position: Vec3, minDistanceWorld: real, tree: TreeInstance)
    requires terrainData.size.x > 0.0
    ensures InBrush(position, minDistanceWorld / terrainData.size.x, tree)
        <==> ScaledDistLt(Dist2(position, tree.position), terrainData.size.x, minDistanceWorld)
  {
    DistLtRescaled(Dist2(position, tree.position), minDistanceWorld, terrainData.size.x);
  }

  /** The parallel and the sequential query give the same answer whenever no tree that
      matches the query equals the default struct. */
  lemma IsOverlappingFastAgreesWithSlow(terrainData: TerrainData, position: Vec3, filter: int, minDistanceWorld: real)
    requires terrainData.size.x > 0.0
    requires NoDefaultMatch(terrainData, position, filter, minDistanceWorld)
    ensures IsOverlappingFast(terrainData, position, filter, minDistanceWorld)
         == IsOverlappingSlow(terrainData, position, filter, minDistanceWorld)
  {
    forall i | 0 <= i < |terrainData.treeInstances|
      ensures InBrush(position, minDistanceWorld / terrainData.size.x, terrainData.treeInstances[i])
          <==> ScaledDistLt(Dist2(position, terrainData.treeInstances[i].position), terrainData.size.x, minDistanceWorld)
    {
      OverlapTestsAgreePerTree(terrainData, position, minDistanceWorld, terrainData.treeInstances[i]);
    }
  }

  /** The default-struct sentinel: when the first matching tree equals `default(TreeInstance)`,
      the parallel query reports no overlap although the sequential one reports one. */
  lemma IsOverlappingFastMissesDefaultTree(terrainData: TerrainData, position: Vec3, filter: int, minDistanceWorld: real, k: nat)
    requires terrainData.size.x > 0.0
    requires k < |terrainData.treeInstances| && terrainData.treeInstances[k] == DefaultTreeInstance
    requires PassesFilter(filter, DefaultTreeInstance)
    requires InBrush(position, minDistanceWorld / terrainData.size.x, DefaultTreeInstance)
    requires forall j :: 0 <= j < k ==>
      !FastOverlapMatch(terrainData, position, filter, minDistanceWorld, terrainData.treeInstances[j])
    ensures IsOverlappingSlow(terrainData, position, filter, minDistanceWorld)
    ensures !IsOverlappingFast(terrainData, position, filter, minDistanceWorld)
  {
    var trees := terrainData.treeInstances;
    var p := t => PassesFilter(filter, t) && InBrush(position, minDistanceWorld / terrainData.size.x, t);
    assert forall j :: 0 <= j < |trees| ==> (p(trees[j]) <==> FastOverlapMatch(terrainData, position, filter, minDistanceWorld, trees[j]));
    OverlapTestsAgreePerTree(terrainData, position, minDistanceWorld, trees[k]);
    var m := Linq.FirstMatch(trees, p);
    assert p(trees[k]);
    assert m.Some?;
    var i :| 0 <= i < |trees| && trees[i] == m.value && p(trees[i]) && forall j :: 0 <= j < i ==> !p(trees[j]);
    assert i == k;
  }

  /** Every tree this manager places carries a white lightmap colour (the default struct's
      is transparent), so a store filled by `PlaceTree` never contains the sentinel. */
  predicate PaintedByManager(trees: seq<TreeInstance>) {
    forall i :: 0 <= i < |trees| ==> trees[i].lightmapColor == White
  }

  /** On a store filled by the manager the two overlap queries always agree. */
  lemma IsOverlappingAgreesOnPaintedTrees(terrainData: TerrainData, position: Vec3, filter: int, minDistanceWorld: real)
    requires terrainData.size.x > 0.0
    requires PaintedByManager(terrainData.treeInstances)
    ensures IsOverlappingFast(terrainData, position, filter, minDistanceWorld)
         == IsOverlappingSlow(terrainData, position, filter, minDistanceWorld)
  {
    IsOverlappingFastAgreesWithSlow(terrainData, position, filter, minDistanceWorld);
  }

  // ---------------------------------------------------------------------------
  // Placement
  // ---------------------------------------------------------------------------

  /** `GetTreeColor`: white scaled by the random draw, with alpha forced to one. */
  function GetTreeColor(draw: real): (c: Color)
    ensures c.a == 1.0
    ensures c.r == draw && c.g == draw && c.b == draw
  {
    var scaled := Color(draw, draw, draw, draw);
    scaled.(a := 1.0)
  }

  /** The private `PlaceTree` overload: appends one fully initialised instance. */
  function PlaceTreeInstance(terrain: Terrain, prototypeIndex: int, position: Vec3, color: Color,
                             height: real, width: real, rotation: real): (r: Terrain)
    ensures SameExceptTrees(r, terrain)
    ensures |Trees(r)| == |Trees(terrain)| + 1 && Trees(r)[..|Trees(terrain)|] == Trees(terrain)
    ensures var added := Trees(r)[|Trees(terrain)|];
            && added.position == position
            && added.prototypeIndex == prototypeIndex
            && added.widthScale == width && added.heightScale == height
            && added.rotation == rotation
            && added.color == color && added.lightmapColor == White
  {
    var instance := TreeInstance(position, width, height, rotation, color, White, prototypeIndex);
    WithTrees(terrain, Trees(terrain) + [instance])
  }

  /** Both local coordinates lie in [0, 1]. */
  predicate InUnitSquare(local: Vec3) {
    0.0 <= local.x <= 1.0 && 0.0 <= local.z <= 1.0
  }

  /** The public `PlaceTree` on a given terrain. The tree is added only when its prefab is a
      registered prototype, its local position lies in the unit square, and no tree of any
      prototype overlaps it at the local brush radius. */
  function PlaceTreeOnTerrain(terrain: Terrain, prefab: PrefabId, worldPosition: Vec3, worldScale: Vec3,
                              yawDegrees: real, brushSize: real, randomTreeColor: bool, colorDraw: real,
                              useLinq: bool): (r: Step)
    requires ValidTerrain(terrain)
    ensures ValidTerrain(r.terrain) && SameExceptTrees(r.terrain, terrain)
    ensures Trees(r.terrain) == Trees(terrain)
         || (|Trees(r.terrain)| == |Trees(terrain)| + 1 && Trees(r.terrain)[..|Trees(terrain)|] == Trees(terrain))
    ensures |Trees(r.terrain)| == |Trees(terrain)| + 1
        <==> (prefab in terrain.terrainData.treePrototypes
              && InUnitSquare(GetLocalPosition(terrain, worldPosition))
              && !IsOverlapping(terrain.terrainData, GetLocalPosition(terrain, worldPosition),
                                PrototypeDefaultFilterIndex, brushSize * 0.5, useLinq))
    ensures |Trees(r.terrain)| == |Trees(terrain)| + 1 ==>
      var added := Trees(r.terrain)[|Trees(terrain)|];
      && added.position == GetLocalPosition(terrain, worldPosition)
      && added.position.y == 0.0
      && added.prototypeIndex == GetTreePrototypeIndex(terrain.terrainData, prefab)
      && 0 <= added.prototypeIndex < |terrain.terrainData.treePrototypes|
      && terrain.terrainData.treePrototypes[added.prototypeIndex] == prefab
      && added.widthScale == worldScale.x
      && added.heightScale == worldScale.y
      && added.rotation == yawDegrees * Deg2Rad
      && added.color == (if randomTreeColor then GetTreeColor(colorDraw) else White)
      && added.lightmapColor == White
    ensures r.undo == (if prefab in terrain.terrainData.treePrototypes
                          && InUnitSquare(GetLocalPosition(terrain, worldPosition))
                       then [AddTreeLabel] else [])
    ensures PaintedByManager(Trees(terrain)) ==> PaintedByManager(Trees(r.terrain))
  {
    var localPosition := GetLocalPosition(terrain, worldPosition);
    var prototypeIndex := GetTreePrototypeIndex(terrain.terrainData, prefab);
    if prototypeIndex == -1 then
      Step(terrain, [])
    else
      var color := if randomTreeColor then GetTreeColor(colorDraw) else White;
      var rotationYRad := yawDegrees * Deg2Rad;
      if InUnitSquare(localPosition) then
        var minDistance := brushSize * 0.5;
        if IsOverlapping(terrain.terrainData, localPosition, PrototypeDefaultFilterIndex, minDistance, useLinq) then
          Step(terrain, [AddTreeLabel])
        else
          var widthScale := worldScale.x;
          var heightScale := worldScale.y;
          var placed := PlaceTreeInstance(terrain, prototypeIndex, localPosition, color, heightScale, widthScale, rotationYRad);
          assert Trees(placed)[..|Trees(terrain)|] == Trees(terrain);
          Step(placed, [AddTreeLabel])
      else
        Step(terrain, [])
  }

  /** The public `PlaceTree`: a no-op when the brush has no target terrain. */
  function PlaceTree(editor: Editor, prefab: PrefabId, worldPosition: Vec3, worldScale: Vec3,
                     yawDegrees: real, brushSize: real, randomTreeColor: bool, colorDraw: real,
                     useLinq: bool): (r: Editor)
    requires ValidEditor(editor)
    ensures ValidEditor(r)
    ensures editor.targetTerrain.None? ==> r == editor
    ensures editor.targetTerrain.Some? ==>
      var step := PlaceTreeOnTerrain(editor.targetTerrain.value, prefab, worldPosition, worldScale,
                                     yawDegrees, brushSize, randomTreeColor, colorDraw, useLinq);
      r.targetTerrain == Some(step.terrain) && r.undo == editor.undo + step.undo
  {
    match editor.targetTerrain
    case None => editor
    case Some(terrain) =>
      Commit(editor, PlaceTreeOnTerrain(terrain, prefab, worldPosition, worldScale,
                                        yawDegrees, brushSize, randomTreeColor, colorDraw, useLinq))
  }

  /** Placement in terms of distances alone: on a store filled by the manager, or with the
      sequential query, a tree is added exactly when its prefab is registered, it lies in
      the unit square, and every existing tree is at least the local brush radius away. */
  lemma PlaceTreeAddsIffSpaceIsFree(terrain: Terrain, prefab: PrefabId, worldPosition: Vec3, worldScale: Vec3,
                                    yawDegrees: real, brushSize: real, randomTreeColor: bool, colorDraw: real,
                                    useLinq: bool)
    requires ValidTerrain(terrain)
    requires useLinq ==> PaintedByManager(Trees(terrain))
    ensures var r := PlaceTreeOnTerrain(terrain, prefab, worldPosition, worldScale, yawDegrees, brushSize,
                                        randomTreeColor, colorDraw, useLinq);
            var center := GetLocalPosition(terrain, worldPosition);
            var radius := GetLocalBrushRadius(terrain.terrainData, brushSize);
            |Trees(r.terrain)| == |Trees(terrain)| + 1
            <==> (prefab in terrain.terrainData.treePrototypes
                  && InUnitSquare(center)
                  && forall i :: 0 <= i < |Trees(terrain)| ==> !InBrush(center, radius, Trees(terrain)[i]))
  {
    var data := terrain.terrainData;
    var center := GetLocalPosition(terrain, worldPosition);
    var radius := GetLocalBrushRadius(data, brushSize);
    assert radius == brushSize * 0.5 / data.size.x;
    if PaintedByManager(Trees(terrain)) {
      IsOverlappingAgreesOnPaintedTrees(data, center, PrototypeDefaultFilterIndex, brushSize * 0.5);
    }
    forall i | 0 <= i < |Trees(terrain)|
      ensures InBrush(center, radius, Trees(terrain)[i])
          <==> ScaledDistLt(Dist2(center, Trees(terrain)[i].position), data.size.x, brushSize * 0.5)
    {
      OverlapTestsAgreePerTree(data, center, brushSize * 0.5, Trees(terrain)[i]);
    }
  }

  /** Trees no two of which are closer than `radius` (in local units). */
  predicate Spaced(trees: seq<TreeInstance>, radius: real) {
    forall i, j :: 0 <= i < |trees| && 0 <= j < |trees| && i != j ==> !InBrush(trees[i].position, radius, trees[j])
  }

  lemma Dist2Symmetric(a: Vec3, b: Vec3)
    ensures Dist2(a, b) == Dist2(b, a)
  {
    assert Sq(a.x - b.x) == Sq(b.x - a.x);
    assert Sq(a.y - b.y) == Sq(b.y - a.y);
    assert Sq(a.z - b.z) == Sq(b.z - a.z);
  }

  /** Painting with one brush size keeps the trees of a manager-filled store at least one
      local brush radius apart. */
  lemma PlaceTreeKeepsTreesSpaced(terrain: Terrain, prefab: PrefabId, worldPosition: Vec3, worldScale: Vec3,
                                  yawDegrees: real, brushSize: real, randomTreeColor: bool, colorDraw: real,
                                  useLinq: bool)
    requires ValidTerrain(terrain)
    requires PaintedByManager(Trees(terrain))
    requires Spaced(Trees(terrain), GetLocalBrushRadius(terrain.terrainData, brushSize))
    ensures var r := PlaceTreeOnTerrain(terrain, prefab, worldPosition, worldScale, yawDegrees, brushSize,
                                        randomTreeColor, colorDraw, useLinq);
            PaintedByManager(Trees(r.terrain))
            && Spaced(Trees(r.terrain), GetLocalBrushRadius(terrain.terrainData, brushSize))
  {
    var r := PlaceTreeOnTerrain(terrain, prefab, worldPosition, worldScale, yawDegrees, brushSize,
                                randomTreeColor, colorDraw, useLinq);
    var radius := GetLocalBrushRadius(terrain.terrainData, brushSize);
    var before := Trees(terrain);
    var after := Trees(r.terrain);
    PlaceTreeAddsIffSpaceIsFree(terrain, prefab, worldPosition, worldScale, yawDegrees, brushSize,
                                randomTreeColor, colorDraw, useLinq);
    if |after| == |before| + 1 {
      var n := |before|;
      var center := GetLocalPosition(terrain, worldPosition);
      assert after[n].position == center;
      forall i, j | 0 <= i < |after| && 0 <= j < |after| && i != j
        ensures !InBrush(after[i].position, radius, after[j])
      {
        if i < n && j < n {
          assert after[i] == before[i] && after[j] == before[j];
        } else if i == n {
          assert after[j] == before[j];
          assert !InBrush(center, radius, before[j]);
        } else {
          assert after[i] == before[i];
          assert !InBrush(center, radius, before[i]);
          Dist2Symmetric(center, before[i].position);
        }
      }
    }
  }

  /** `RemoveAllTreeInstances`: clears the target terrain's trees. */
  function RemoveAllTreeInstances(editor: Editor): (r: Editor)
    requires ValidEditor(editor)
    ensures ValidEditor(r)
    ensures editor.targetTerrain.None? ==> r == editor
    ensures editor.targetTerrain.Some? ==>
      && r.targetTerrain.Some?
      && Trees(r.targetTerrain.value) == []
      && SameExceptTrees(r.targetTerrain.value, editor.targetTerrain.value)
      && r.undo == editor.undo + [RemoveAllTreesLabel]
  {
    match editor.targetTerrain
    case None => editor
    case Some(terrain) => Commit(editor, Step(WithTrees(terrain, []), [RemoveAllTreesLabel]))
  }

  /** After clearing, no overlap query finds anything, whatever its position, filter,
      distance or strategy. */
  lemma RemoveAllLeavesNothingToOverlap(editor: Editor, position: Vec3, filter: int, minDistanceWorld: real, useLinq: bool)
    requires ValidEditor(editor) && editor.targetTerrain.Some?
    ensures var cleared := RemoveAllTreeInstances(editor).targetTerrain.value.terrainData;
            !IsOverlapping(cleared, position, filter, minDistanceWorld, useLinq)
  {
  }

  // ---------------------------------------------------------------------------
  // Removal
  // ---------------------------------------------------------------------------

  /** The parallel removal keeps `t`: it passes the filter and lies strictly farther than
      the local brush radius. */
  predicate KeptByFastRemoval(terrain: Terrain, position: Vec3, filter: int, brushSize: real, t: TreeInstance)
    requires ValidTerrain(terrain)
  {
    PassesFilter(filter, t)
    && DistGt(Dist2(GetLocalPosition(terrain, position), t.position), GetLocalBrushRadius(terrain.terrainData, brushSize))
  }

  /** Parallel removal: the new store holds the trees that pass the filter and lie
      strictly outside the local brush radius. */
  function RemoveOverlappingFast(terrain: Terrain, position: Vec3, filter: int, brushSize: real): (r: Terrain)
    requires ValidTerrain(terrain)
    ensures ValidTerrain(r) && SameExceptTrees(r, terrain)
    ensures |Trees(r)| <= |Trees(terrain)|
    ensures forall t :: t in Trees(r) <==> t in Trees(terrain) && KeptByFastRemoval(terrain, position, filter, brushSize, t)
    ensures forall t :: multiset(Trees(r))[t] == if KeptByFastRemoval(terrain, position, filter, brushSize, t)
                                                then multiset(Trees(terrain))[t] else 0
  {
    var localBrushRadius := GetLocalBrushRadius(terrain.terrainData, brushSize);
    var localPosition := GetLocalPosition(terrain, position);
    WithTrees(terrain, Linq.Where(Trees(terrain),
      t => PassesFilter(filter, t) && DistGt(Dist2(localPosition, t.position), localBrushRadius)))
  }

  /** The trees that pass the filter and lie strictly inside the local brush radius, in order. */
  function GetOverlappingInstancesSlow(terrain: Terrain, position: Vec3, filter: int, brushSize: real): (r: seq<TreeInstance>)
    requires ValidTerrain(terrain)
    ensures |r| <= |Trees(terrain)|
    ensures forall t :: t in r <==>
      t in Trees(terrain)
      && PassesFilter(filter, t)
      && InBrush(GetLocalPosition(terrain, position), GetLocalBrushRadius(terrain.terrainData, brushSize), t)
  {
    var localBrushRadius := GetLocalBrushRadius(terrain.terrainData, brushSize);
    var localPosition := GetLocalPosition(terrain, position);
    Linq.Where(Trees(terrain), t => PassesFilter(filter, t) && InBrush(localPosition, localBrushRadius, t))
  }

  /** Sequential removal: the store minus the overlapping instances, through `Except`,
      which also drops repeated survivors. */
  function RemoveOverlappingSlow(terrain: Terrain, position: Vec3, filter: int, brushSize: real): (r: Terrain)
    requires ValidTerrain(terrain)
    ensures ValidTerrain(r) && SameExceptTrees(r, terrain)
    ensures |Trees(r)| <= |Trees(terrain)|
    ensures Linq.Distinct(Trees(r))
    ensures forall t :: t in Trees(r) <==>
      t in Trees(terrain)
      && !(PassesFilter(filter, t)
           && InBrush(GetLocalPosition(terrain, position), GetLocalBrushRadius(terrain.terrainData, brushSize), t))
  {
    var overlapping := GetOverlappingInstancesSlow(terrain, position, filter, brushSize);
    WithTrees(terrain, Linq.Except(Trees(terrain), overlapping))
  }

  /** The terrain overload of `RemoveOverlapping`: registers undo, then removes with the
      selected strategy. */
  function RemoveOverlappingOnTerrain(terrain: Terrain, position: Vec3, filter: int, brushSize: real, useLinq: bool): (r: Step)
    requires ValidTerrain(terrain)
    ensures ValidTerrain(r.terrain) && SameExceptTrees(r.terrain, terrain)
    ensures r.undo == [RemoveTreesLabel]
    ensures filter == PrototypeDefaultFilterIndex ==>
      forall t :: t in Trees(r.terrain) ==>
        t in Trees(terrain)
        && !InBrush(GetLocalPosition(terrain, position), GetLocalBrushRadius(terrain.terrainData, brushSize), t)
    ensures filter == PrototypeDefaultFilterIndex ==>
      forall t :: t in Trees(terrain)
                  && DistGt(Dist2(GetLocalPosition(terrain, position), t.position), GetLocalBrushRadius(terrain.terrainData, brushSize))
                  ==> t in Trees(r.terrain)
  {
    if useLinq then Step(RemoveOverlappingFast(terrain, position, filter, brushSize), [RemoveTreesLabel])
    else Step(RemoveOverlappingSlow(terrain, position, filter, brushSize), [RemoveTreesLabel])
  }

  /** The public `RemoveOverlapping`: removes trees of every prototype on the target terrain. */
  function RemoveOverlapping(editor: Editor, position: Vec3, brushSize: real, useLinq: bool): (r: Editor)
    requires ValidEditor(editor)
    ensures ValidEditor(r)
    ensures editor.targetTerrain.None? ==> r == editor
    ensures editor.targetTerrain.Some? ==>
      var step := RemoveOverlappingOnTerrain(editor.targetTerrain.value, position, PrototypeDefaultFilterIndex, brushSize, useLinq);
      r.targetTerrain == Some(step.terrain) && r.undo == editor.undo + [RemoveTreesLabel]
  {
    match editor.targetTerrain
    case None => editor
    case Some(terrain) => Commit(editor, RemoveOverlappingOnTerrain(terrain, position, PrototypeDefaultFilterIndex, brushSize, useLinq))
  }

  /** Removal completeness: after removing at a brush, placing with the same brush at the
      same spot is no longer blocked by any tree, whichever strategies are used. */
  lemma RemoveOverlappingUnblocksPlacement(terrain: Terrain, position: Vec3, brushSize: real, removeWithLinq: bool, queryWithLinq: bool)
    requires ValidTerrain(terrain)
    ensures var after := RemoveOverlappingOnTerrain(terrain, position, PrototypeDefaultFilterIndex, brushSize, removeWithLinq).terrain;
            !IsOverlapping(after.terrainData, GetLocalPosition(terrain, position), PrototypeDefaultFilterIndex,
                           brushSize * 0.5, queryWithLinq)
  {
    var after := RemoveOverlappingOnTerrain(terrain, position, PrototypeDefaultFilterIndex, brushSize, removeWithLinq).terrain;
    var center := GetLocalPosition(terrain, position);
    var radius := GetLocalBrushRadius(terrain.terrainData, brushSize);
    assert radius == brushSize * 0.5 / after.terrainData.size.x;
    forall i | 0 <= i < |Trees(after)|
      ensures !ScaledDistLt(Dist2(center, Trees(after)[i].position), after.terrainData.size.x, brushSize * 0.5)
    {
      assert Trees(after)[i] in Trees(after);
      OverlapTestsAgreePerTree(after.terrainData, center, brushSize * 0.5, Trees(after)[i]);
    }
  }

  /** Boundary divergence: a tree exactly at the brush radius is removed by the parallel
      removal (it keeps only distance > radius) but kept by the sequential one (it removes
      only distance < radius). */
  lemma RemoveBoundaryDivergence(terrain: Terrain, position: Vec3, filter: int, brushSize: real, tree: TreeInstance)
    requires ValidTerrain(terrain) && brushSize >= 0.0
    requires tree in Trees(terrain) && PassesFilter(filter, tree)
    requires Dist2(GetLocalPosition(terrain, position), tree.position)
          == Sq(GetLocalBrushRadius(terrain.terrainData, brushSize))
    ensures tree !in Trees(RemoveOverlappingFast(terrain, position, filter, brushSize))
    ensures tree in Trees(RemoveOverlappingSlow(terrain, position, filter, brushSize))
  {
  }

  /** Filter divergence: with a real prototype filter the parallel removal also discards
      every tree of another prototype, while the sequential one keeps all of them. */
  lemma RemoveFilterDivergence(terrain: Terrain, position: Vec3, filter: int, brushSize: real)
    requires ValidTerrain(terrain) && filter != PrototypeDefaultFilterIndex
    ensures forall t :: t in Trees(RemoveOverlappingFast(terrain, position, filter, brushSize)) ==> t.prototypeIndex == filter
    ensures forall t :: t in Trees(terrain) && t.prototypeIndex != filter ==>
      t in Trees(RemoveOverlappingSlow(terrain, position, filter, brushSize))
  {
  }

  /** Without a filter, on a store without repeated instances and without a tree exactly on
      the brush boundary, both removal strategies produce the same store, in the same order. */
  lemma RemoveFastAgreesWithSlow(terrain: Terrain, position: Vec3, brushSize: real)
    requires ValidTerrain(terrain) && brushSize >= 0.0
    requires Linq.Distinct(Trees(terrain))
    requires forall i :: 0 <= i < |Trees(terrain)| ==>
      Dist2(GetLocalPosition(terrain, position), Trees(terrain)[i].position)
      != Sq(GetLocalBrushRadius(terrain.terrainData, brushSize))
    ensures RemoveOverlappingFast(terrain, position, PrototypeDefaultFilterIndex, brushSize)
         == RemoveOverlappingSlow(terrain, position, PrototypeDefaultFilterIndex, brushSize)
  {
    var filter := PrototypeDefaultFilterIndex;
    var trees := Trees(terrain);
    var center := GetLocalPosition(terrain, position);
    var radius := GetLocalBrushRadius(terrain.terrainData, brushSize);
    var overlapping := GetOverlappingInstancesSlow(terrain, position, filter, brushSize);
    var excluded := set x | x in overlapping;
    var fastKeeps := t => PassesFilter(filter, t) && DistGt(Dist2(center, t.position), radius);
    forall t | t in trees
      ensures (t !in excluded) == fastKeeps(t)
    {
      assert t in excluded <==> InBrush(center, radius, t);
      var k :| 0 <= k < |trees| && trees[k] == t;
      OffBoundaryComparisons(Dist2(center, t.position), radius);
    }
    Linq.ExceptOfDistinct(trees, excluded);
    Linq.WhereCongruent(trees, x => x !in excluded, fastKeeps);
    assert Trees(RemoveOverlappingSlow(terrain, position, filter, brushSize)) == Linq.ExceptExcluding(trees, excluded);
    assert Trees(RemoveOverlappingFast(terrain, position, filter, brushSize)) == Linq.Where(trees, fastKeeps);
  }

  // ---------------------------------------------------------------------------
  // Rescaling
  // ---------------------------------------------------------------------------

  /** The terrain's heightmap: the normalised terrain height under a local (X, Z) position.
      It is an engine query, so operations that read it take it as a parameter. */
  type Heightmap = Vec2 -> real

  /** The tree's stored height is the heightmap's height under it. */
  predicate OnHeightmap(tree: TreeInstance, heightmap: Heightmap) {
    tree.position.y == heightmap(Vec2(tree.position.x, tree.position.z))
  }

  predicate AllOnHeightmap(trees: seq<TreeInstance>, heightmap: Heightmap) {
    forall i :: 0 <= i < |trees| ==> OnHeightmap(trees[i], heightmap)
  }

  /** The snap applied to each tree by `SetTreeInstances(trees, true)`: the stored height
      becomes the heightmap's; X, Z and every other field are kept. */
  function SnapToHeightmap(tree: TreeInstance, heightmap: Heightmap): (r: TreeInstance)
    ensures OnHeightmap(r, heightmap)
    ensures r.position.x == tree.position.x && r.position.z == tree.position.z
    ensures r.(position := tree.position) == tree
    ensures OnHeightmap(tree, heightmap) ==> r == tree
  {
    tree.(position := tree.position.(y := heightmap(Vec2(tree.position.x, tree.position.z))))
  }

  /** `terrainData.SetTreeInstances(trees, true)`: stores the trees, each snapped to the
      heightmap, including those the caller did not change. */
  function SetTreeInstances(terrain: Terrain, trees: seq<TreeInstance>, heightmap: Heightmap): (r: Terrain)
    ensures SameExceptTrees(r, terrain)
    ensures |Trees(r)| == |trees|
    ensures forall i :: 0 <= i < |trees| ==> Trees(r)[i] == SnapToHeightmap(trees[i], heightmap)
    ensures AllOnHeightmap(Trees(r), heightmap)
  {
    WithTrees(terrain, seq(|trees|, i requires 0 <= i < |trees| => SnapToHeightmap(trees[i], heightmap)))
  }

  /** The brush at world `position` selects `tree` for rescaling: the tree lies strictly
      inside the local brush radius, whatever its prototype. */
  predicate Selected(terrain: Terrain, position: Vec3, brushSize: real, tree: TreeInstance)
    requires ValidTerrain(terrain)
  {
    InBrush(GetLocalPosition(terrain, position), GetLocalBrushRadius(terrain.terrainData, brushSize), tree)
  }

  predicate AnySelected(terrain: Terrain, position: Vec3, brushSize: real)
    requires ValidTerrain(terrain)
  {
    exists i :: 0 <= i < |Trees(terrain)| && Selected(terrain, position, brushSize, Trees(terrain)[i])
  }

  /** The update of one selected tree: each scale plus itself times the factor times +1
      (grow) or -1 (shrink). */
  function Rescale(tree: TreeInstance, grow: bool, adjustFactor: real): TreeInstance {
    var sign := if grow then 1.0 else -1.0;
    tree.(heightScale := tree.heightScale + tree.heightScale * adjustFactor * sign,
          widthScale := tree.widthScale + tree.widthScale * adjustFactor * sign)
  }

  /** A scale grown, or shrunk, by the fraction `adjustFactor` of itself. */
  function Adjusted(scale: real, grow: bool, adjustFactor: real): real {
    if grow then scale + scale * adjustFactor else scale - scale * adjustFactor
  }

  /** `tree` with both scales grown (or shrunk) by the fraction `adjustFactor`, all else kept. */
  function AdjustTree(tree: TreeInstance, grow: bool, adjustFactor: real): TreeInstance {
    tree.(heightScale := Adjusted(tree.heightScale, grow, adjustFactor),
          widthScale := Adjusted(tree.widthScale, grow, adjustFactor))
  }

  /** The signed update is the relative growth or shrinkage of both scales. */
  lemma RescaleIsAdjusted(tree: TreeInstance, grow: bool, adjustFactor: real)
    ensures Rescale(tree, grow, adjustFactor) == AdjustTree(tree, grow, adjustFactor)
  {
    var h, w := tree.heightScale, tree.widthScale;
    if grow {
      assert h * adjustFactor * 1.0 == h * adjustFactor && w * adjustFactor * 1.0 == w * adjustFactor;
    } else {
      assert h * adjustFactor * -1.0 == -(h * adjustFactor) && w * adjustFactor * -1.0 == -(w * adjustFactor);
    }
  }

  /** The terrain overload of `ChangeScale`. When the brush selects nothing, nothing
      happens. Otherwise "Scale tree" is registered, every selected tree is rescaled, and
      the store is written back with the snap, which moves every tree, selected or not,
      onto the heightmap. */
  function ChangeScaleOnTerrain(terrain: Terrain, position: Vec3, brushSize: real, grow: bool, adjustFactor: real,
                                heightmap: Heightmap): (r: Step)
    requires ValidTerrain(terrain)
    ensures ValidTerrain(r.terrain) && SameExceptTrees(r.terrain, terrain)
    ensures |Trees(r.terrain)| == |Trees(terrain)|
    ensures !AnySelected(terrain, position, brushSize) <==> r == Step(terrain, [])
    ensures r.undo == if AnySelected(terrain, position, brushSize) then [ScaleTreeLabel] else []
    ensures AnySelected(terrain, position, brushSize) ==>
      forall i :: 0 <= i < |Trees(terrain)| ==>
        Trees(r.terrain)[i]
        == SnapToHeightmap(if Selected(terrain, position, brushSize, Trees(terrain)[i])
                           then AdjustTree(Trees(terrain)[i], grow, adjustFactor)
                           else Trees(terrain)[i], heightmap)
    ensures AnySelected(terrain, position, brushSize) || AllOnHeightmap(Trees(terrain), heightmap)
            ==> AllOnHeightmap(Trees(r.terrain), heightmap)
  {
    var localBrushRadius := GetLocalBrushRadius(terrain.terrainData, brushSize);
    var localPosition := GetLocalPosition(terrain, position);
    var selected := Linq.IndicesWhere(Trees(terrain), t => InBrush(localPosition, localBrushRadius, t));
    if |selected| == 0 then
      Step(terrain, [])
    else
      assert selected[0] in selected;
      var existingTrees := Linq.ApplyAt(Trees(terrain), selected, t => Rescale(t, grow, adjustFactor));
      assert forall i :: 0 <= i < |Trees(terrain)| ==>
        Rescale(Trees(terrain)[i], grow, adjustFactor) == AdjustTree(Trees(terrain)[i], grow, adjustFactor) by {
        forall i | 0 <= i < |Trees(terrain)|
          ensures Rescale(Trees(terrain)[i], grow, adjustFactor) == AdjustTree(Trees(terrain)[i], grow, adjustFactor)
        {
          RescaleIsAdjusted(Trees(terrain)[i], grow, adjustFactor);
        }
      }
      Step(SetTreeInstances(terrain, existingTrees, heightmap), [ScaleTreeLabel])
  }

  /** The public `ChangeScale`: a no-op when the brush has no target terrain. */
  function ChangeScale(editor: Editor, position: Vec3, brushSize: real, grow: bool, adjustFactor: real,
                       heightmap: Heightmap): (r: Editor)
    requires ValidEditor(editor)
    ensures ValidEditor(r)
    ensures editor.targetTerrain.None? ==> r == editor
    ensures editor.targetTerrain.Some? ==>
      var step := ChangeScaleOnTerrain(editor.targetTerrain.value, position, brushSize, grow, adjustFactor, heightmap);
      r.targetTerrain == Some(step.terrain) && r.undo == editor.undo + step.undo
  {
    match editor.targetTerrain
    case None => editor
    case Some(terrain) => Commit(editor, ChangeScaleOnTerrain(terrain, position, brushSize, grow, adjustFactor, heightmap))
  }

  /** Rescaling keeps scales strictly positive when it shrinks by less than the whole. */
  lemma ChangeScaleKeepsScalesPositive(terrain: Terrain, position: Vec3, brushSize: real, grow: bool, adjustFactor: real,
                                       heightmap: Heightmap)
    requires ValidTerrain(terrain)
    requires forall i :: 0 <= i < |Trees(terrain)| ==> Trees(terrain)[i].heightScale > 0.0 && Trees(terrain)[i].widthScale > 0.0
    requires 0.0 <= adjustFactor && (!grow ==> adjustFactor < 1.0)
    ensures var after := Trees(ChangeScaleOnTerrain(terrain, position, brushSize, grow, adjustFactor, heightmap).terrain);
            forall i :: 0 <= i < |after| ==> after[i].heightScale > 0.0 && after[i].widthScale > 0.0
  {
    var before := Trees(terrain);
    var after := Trees(ChangeScaleOnTerrain(terrain, position, brushSize, grow, adjustFactor, heightmap).terrain);
    if AnySelected(terrain, position, brushSize) {
      forall i | 0 <= i < |after| ensures after[i].heightScale > 0.0 && after[i].widthScale > 0.0 {
        if Selected(terrain, position, brushSize, before[i]) {
          RelativeChangeKeepsPositive(before[i].heightScale, grow, adjustFactor);
          RelativeChangeKeepsPositive(before[i].widthScale, grow, adjustFactor);
        }
      }
    }
  }

  lemma RelativeChangeKeepsPositive(s: real, grow: bool, adjustFactor: real)
    requires s > 0.0 && 0.0 <= adjustFactor && (!grow ==> adjustFactor < 1.0)
    ensures Adjusted(s, grow, adjustFactor) > 0.0
  {
    if grow {
      assert s * adjustFactor >= 0.0;
    } else {
      assert s - s * adjustFactor == s * (1.0 - adjustFactor);
    }
  }

  /** The terrain overload of `SetScale`. When the brush selects nothing, nothing happens.
      Otherwise "Scale tree" is registered, every selected tree takes the given width and
      height scale, and the store is written back with the snap onto the heightmap. */
  function SetScaleOnTerrain(terrain: Terrain, position: Vec3, brushSize: real, scaleValueX: real, scaleValueY: real,
                             heightmap: Heightmap): (r: Step)
    requires ValidTerrain(terrain)
    ensures ValidTerrain(r.terrain) && SameExceptTrees(r.terrain, terrain)
    ensures |Trees(r.terrain)| == |Trees(terrain)|
    ensures !AnySelected(terrain, position, brushSize) <==> r == Step(terrain, [])
    ensures r.undo == if AnySelected(terrain, position, brushSize) then [ScaleTreeLabel] else []
    ensures AnySelected(terrain, position, brushSize) ==>
      forall i :: 0 <= i < |Trees(terrain)| ==>
        Trees(r.terrain)[i]
        == SnapToHeightmap(if Selected(terrain, position, brushSize, Trees(terrain)[i])
                           then Trees(terrain)[i].(widthScale := scaleValueX, heightScale := scaleValueY)
                           else Trees(terrain)[i], heightmap)
    ensures AnySelected(terrain, position, brushSize) || AllOnHeightmap(Trees(terrain), heightmap)
            ==> AllOnHeightmap(Trees(r.terrain), heightmap)
  {
    var localBrushRadius := GetLocalBrushRadius(terrain.terrainData, brushSize);
    var localPosition := GetLocalPosition(terrain, position);
    var selected := Linq.IndicesWhere(Trees(terrain), t => InBrush(localPosition, localBrushRadius, t));
    if |selected| == 0 then
      Step(terrain, [])
    else
      assert selected[0] in selected;
      var existingTrees := Linq.ApplyAt(Trees(terrain), selected, (t: TreeInstance) => t.(widthScale := scaleValueX, heightScale := scaleValueY));
      Step(SetTreeInstances(terrain, existingTrees, heightmap), [ScaleTreeLabel])
  }

  /** The public `SetScale`: a no-op when the brush has no target terrain. */
  function SetScale(editor: Editor, position: Vec3, brushSize: real, scaleValueX: real, scaleValueY: real,
                    heightmap: Heightmap): (r: Editor)
    requires ValidEditor(editor)
    ensures ValidEditor(r)
    ensures editor.targetTerrain.None? ==> r == editor
    ensures editor.targetTerrain.Some? ==>
      var step := SetScaleOnTerrain(editor.targetTerrain.value, position, brushSize, scaleValueX, scaleValueY, heightmap);
      r.targetTerrain == Some(step.terrain) && r.undo == editor.undo + step.undo
  {
    match editor.targetTerrain
    case None => editor
    case Some(terrain) => Commit(editor, SetScaleOnTerrain(terrain, position, brushSize, scaleValueX, scaleValueY, heightmap))
  }

  /** On trees that already sit on the heightmap, setting the scale twice with the same
      arguments leaves the same trees as setting it once: the snap does not move them, so
      the second call selects the same trees and writes the values they already hold. */
  lemma SetScaleIdempotent(terrain: Terrain, position: Vec3, brushSize: real, scaleValueX: real, scaleValueY: real,
                           heightmap: Heightmap)
    requires ValidTerrain(terrain) && AllOnHeightmap(Trees(terrain), heightmap)
    ensures var once := SetScaleOnTerrain(terrain, position, brushSize, scaleValueX, scaleValueY, heightmap).terrain;
            SetScaleOnTerrain(once, position, brushSize, scaleValueX, scaleValueY, heightmap).terrain == once
  {
    var once := SetScaleOnTerrain(terrain, position, brushSize, scaleValueX, scaleValueY, heightmap).terrain;
    var twice := SetScaleOnTerrain(once, position, brushSize, scaleValueX, scaleValueY, heightmap).terrain;
    SameFrame(once, terrain, position, brushSize);
    if AnySelected(terrain, position, brushSize) {
      forall i | 0 <= i < |Trees(once)|
        ensures Trees(once)[i].position == Trees(terrain)[i].position
        ensures Selected(once, position, brushSize, Trees(once)[i]) == Selected(terrain, position, brushSize, Trees(terrain)[i])
      {
        assert OnHeightmap(Trees(terrain)[i], heightmap);
      }
      assert AnySelected(once, position, brushSize);
      forall i | 0 <= i < |Trees(once)|
        ensures Trees(twice)[i] == Trees(once)[i]
      {
        assert OnHeightmap(Trees(once)[i], heightmap);
      }
      assert Trees(twice) == Trees(once);
    }
  }

  /** Whatever the trees' heights, `SetScale` settles after one repeat: a call that selects
      something leaves every tree on the heightmap, and one that selects nothing changes
      nothing, so a third identical call changes nothing more. */
  lemma SetScaleSettlesAfterOneRepeat(terrain: Terrain, position: Vec3, brushSize: real, scaleValueX: real, scaleValueY: real,
                                      heightmap: Heightmap)
    requires ValidTerrain(terrain)
    ensures var once := SetScaleOnTerrain(terrain, position, brushSize, scaleValueX, scaleValueY, heightmap).terrain;
            var twice := SetScaleOnTerrain(once, position, brushSize, scaleValueX, scaleValueY, heightmap).terrain;
            SetScaleOnTerrain(twice, position, brushSize, scaleValueX, scaleValueY, heightmap).terrain == twice
  {
    var once := SetScaleOnTerrain(terrain, position, brushSize, scaleValueX, scaleValueY, heightmap).terrain;
    SameFrame(once, terrain, position, brushSize);
    if AnySelected(terrain, position, brushSize) {
      SetScaleIdempotent(once, position, brushSize, scaleValueX, scaleValueY, heightmap);
    }
  }

  /** Why `SetScale` is not idempotent in general: when the brush selects some tree, a tree
      `j` it misses is snapped onto the heightmap with its scales untouched, and when the
      snap moves `j` into the brush, the second identical call rescales it. */
  lemma SetScaleReachesSnappedTree(terrain: Terrain, position: Vec3, brushSize: real, scaleValueX: real, scaleValueY: real,
                                   heightmap: Heightmap, i: nat, j: nat)
    requires ValidTerrain(terrain) && i < |Trees(terrain)| && j < |Trees(terrain)|
    requires Selected(terrain, position, brushSize, Trees(terrain)[i])
    requires !Selected(terrain, position, brushSize, Trees(terrain)[j])
    requires Selected(terrain, position, brushSize, SnapToHeightmap(Trees(terrain)[j], heightmap))
    ensures var once := SetScaleOnTerrain(terrain, position, brushSize, scaleValueX, scaleValueY, heightmap).terrain;
            var twice := SetScaleOnTerrain(once, position, brushSize, scaleValueX, scaleValueY, heightmap).terrain;
            && Trees(once)[j].widthScale == Trees(terrain)[j].widthScale
            && Trees(once)[j].heightScale == Trees(terrain)[j].heightScale
            && Trees(twice)[j].widthScale == scaleValueX && Trees(twice)[j].heightScale == scaleValueY
  {
    var once := SetScaleOnTerrain(terrain, position, brushSize, scaleValueX, scaleValueY, heightmap).terrain;
    assert AnySelected(terrain, position, brushSize);
    assert Trees(once)[j] == SnapToHeightmap(Trees(terrain)[j], heightmap);
    SameFrame(once, terrain, position, brushSize);
    assert Selected(once, position, brushSize, Trees(once)[j]);
  }

  /** The local frame (brush centre and radius) depends only on what an operation on the
      tree store leaves unchanged. */
  lemma SameFrame(a: Terrain, b: Terrain, position: Vec3, brushSize: real)
    requires ValidTerrain(b) && SameExceptTrees(a, b)
    ensures ValidTerrain(a)
    ensures GetLocalPosition(a, position) == GetLocalPosition(b, position)
    ensures GetLocalBrushRadius(a.terrainData, brushSize) == GetLocalBrushRadius(b.terrainData, brushSize)
  {
    var sa, sb := a.terrainData.size, b.terrainData.size;
    assert sa == sb;
  }
}

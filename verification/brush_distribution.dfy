/** How one brush application becomes placement events.

    Center mode places one prefab at the brush centre unless a child of the container
    already lies within the brush radius. The two Poisson modes shape a square field of
    blue-noise samples into the brush disc, map each sample to world X/Z, find a height
    (by raycasts, or from the active terrain), raise it by the auto-physics offset, and
    place a prefab unless a container child lies within one Poisson disc radius.

    The sampler's output, the raycasts, the terrain height lookup and the prefab bounds
    are inputs. Each `Placement` is one call that hands a position and normal over for
    instantiation; the container's children are the ones present when the brush is applied. */
module BrushDistribution {
  import opened Wrappers
  import opened Geometry

  /** The brush distribution kinds this core handles */
  datatype Distribution = Center | PoissonAny | PoissonTerrain | ScaleToBrushSize

  datatype BrushSettings = BrushSettings(
    brushSize: real,
    allowOverlap: bool,
    poissonDiscSize: real,
    poissonDiscRaycastOffset: real,
    distribution: Distribution)

  /** Whether auto physics is on; every simulation kind other than "none" behaves alike here */
  datatype AutoSimulationType = NoSimulation | Simulated

  datatype SpawnSettings = SpawnSettings(autoSimulationType: AutoSimulationType, autoSimulationHeightOffset: real)

  /** The painter's state this core reads: its settings and the world positions of the
      children of its container. */
  datatype Painter = Painter(brushSettings: BrushSettings, spawnSettings: SpawnSettings, containerChildren: seq<Vec3>)

  /** A request to instantiate a prefab at `position` with surface normal `normal` */
  datatype Placement = Placement(position: Vec3, normal: Vec3)

  /** Physics raycasts from a point straight down and straight up: the height of the hit
      point, if anything is hit. */
  datatype Physics = Physics(raycastDown: Vec3 -> Option<real>, raycastUp: Vec3 -> Option<real>)

  /** The active terrain: its height lookup and the Y of its transform position */
  datatype ActiveTerrain = ActiveTerrain(sampleHeight: Vec3 -> real, positionY: real)

  function BrushRadius(brush: BrushSettings): real {
    brush.brushSize / 2.0
  }

  function DiscRadius(brush: BrushSettings): real {
    brush.poissonDiscSize / 2.0
  }

  /** Adds the auto-physics height offset when a simulation is configured. */
  function ApplyAutoPhysicsHeightOffset(spawn: SpawnSettings, position: Vec3): (r: Vec3)
    ensures spawn.autoSimulationType == NoSimulation ==> r == position
    ensures spawn.autoSimulationType != NoSimulation ==> r.y == position.y + spawn.autoSimulationHeightOffset
    ensures r.x == position.x && r.z == position.z
  {
    if spawn.autoSimulationType == NoSimulation then position
    else position.(y := position.y + spawn.autoSimulationHeightOffset)
  }

  /** The scan over the container's children, stopping at the first one no farther than
      `radius` from `position`. */
  function ChildWithin(children: seq<Vec3>, position: Vec3, radius: real): (r: bool)
    ensures r <==> exists i :: 0 <= i < |children| && DistLe(Dist2(position, children[i]), radius)
  {
    if children == [] then false
    else if DistLe(Dist2(position, children[0]), radius) then true
    else
      assert forall i :: 1 <= i < |children| ==> children[i] == children[1..][i - 1];
      ChildWithin(children[1..], position, radius)
  }

  // ---------------------------------------------------------------------------
  // Center mode
  // ---------------------------------------------------------------------------

  /** Center mode: one instance per brush. Unless overlap is allowed, nothing is placed
      when a container child lies at distance at most the brush radius (inclusive). */
  function AddPrefabsCenter(painter: Painter, position: Vec3, normal: Vec3): (r: seq<Placement>)
    ensures r == [] || r == [Placement(position, normal)]
    ensures painter.brushSettings.allowOverlap ==> r == [Placement(position, normal)]
    ensures !painter.brushSettings.allowOverlap ==>
      (r == [Placement(position, normal)]
       <==> forall i :: 0 <= i < |painter.containerChildren| ==>
              !DistLe(Dist2(position, painter.containerChildren[i]), BrushRadius(painter.brushSettings)))
  {
    var prefabExists :=
      !painter.brushSettings.allowOverlap
      && ChildWithin(painter.containerChildren, position, BrushRadius(painter.brushSettings));
    if !prefabExists then [Placement(position, normal)] else []
  }

  // ---------------------------------------------------------------------------
  // Poisson modes
  // ---------------------------------------------------------------------------

  /** The sample, taken in the `brushSize` x `brushSize` square, lies in the disc inscribed
      in that square (it is skipped when its distance from the centre exceeds the radius). */
  predicate InBrushDisc(sample: Vec2, brushRadius: real) {
    !DistGt(Dist2D(sample, Vec2(brushRadius, brushRadius)), brushRadius)
  }

  /** World X and Z of a sample: the square's corner sits `brushRadius` below the brush
      centre on both axes. */
  function SampleToWorld(position: Vec3, sample: Vec2, brushRadius: real): Vec2 {
    Vec2(position.x + sample.x - brushRadius, position.z + sample.y - brushRadius)
  }

  /** Disc shaping is what keeps placements inside the brush: a sample in the disc maps to
      a world point whose ground distance from the brush centre is at most the radius. */
  lemma SampleInDiscLandsInBrush(position: Vec3, sample: Vec2, brushRadius: real, height: real)
    requires InBrushDisc(sample, brushRadius)
    ensures brushRadius >= 0.0
    ensures var xz := SampleToWorld(position, sample, brushRadius);
            DistLe(HorizontalDist2(Vec3(xz.x, height, xz.y), position), brushRadius)
  {
    var xz := SampleToWorld(position, sample, brushRadius);
    assert xz.x - position.x == sample.x - brushRadius;
    assert xz.y - position.z == sample.y - brushRadius;
  }

  /** The world position a sample yields before the overlap check, if any: none when the
      sample is outside the disc or the height lookup finds nothing. */
  function PoissonCandidate(painter: Painter, position: Vec3, sample: Vec2, height: Vec2 -> Option<real>): (r: Option<Vec3>)
    ensures r.Some? <==> InBrushDisc(sample, BrushRadius(painter.brushSettings))
                         && height(SampleToWorld(position, sample, BrushRadius(painter.brushSettings))).Some?
    ensures r.Some? ==> DistLe(HorizontalDist2(r.value, position), BrushRadius(painter.brushSettings))
  {
    var brushRadius := BrushRadius(painter.brushSettings);
    if !InBrushDisc(sample, brushRadius) then None
    else
      var xz := SampleToWorld(position, sample, brushRadius);
      match height(xz)
      case None => None
      case Some(y) =>
        SampleInDiscLandsInBrush(position, sample, brushRadius, y);
        Some(ApplyAutoPhysicsHeightOffset(painter.spawnSettings, Vec3(xz.x, y, xz.y)))
  }

  /** The candidate may be placed: overlap is allowed, or no container child lies at
      distance at most one disc radius. */
  predicate Free(painter: Painter, candidate: Vec3) {
    painter.brushSettings.allowOverlap
    || forall i :: 0 <= i < |painter.containerChildren| ==>
         !DistLe(Dist2(candidate, painter.containerChildren[i]), DiscRadius(painter.brushSettings))
  }

  /** What the loop body emits for one sample. */
  function EmitForSample(painter: Painter, position: Vec3, normal: Vec3, sample: Vec2, height: Vec2 -> Option<real>): (r: seq<Placement>)
    ensures |r| <= 1
  {
    match PoissonCandidate(painter, position, sample, height)
    case None => []
    case Some(prefabPosition) =>
      var prefabExists :=
        !painter.brushSettings.allowOverlap
        && ChildWithin(painter.containerChildren, prefabPosition, DiscRadius(painter.brushSettings));
      if !prefabExists then [Placement(prefabPosition, normal)] else []
  }

  /** The loop over the samples shared by both Poisson modes; `height` supplies the Y of a
      world X/Z point. */
  function Scatter(painter: Painter, position: Vec3, normal: Vec3, samples: seq<Vec2>, height: Vec2 -> Option<real>): (r: seq<Placement>)
    ensures |r| <= |samples|
  {
    if samples == [] then []
    else EmitForSample(painter, position, normal, samples[0], height) + Scatter(painter, position, normal, samples[1..], height)
  }

  /** The placements are exactly the free candidates, each with the brush normal. */
  lemma {:induction false} ScatterPlacesExactlyFreeCandidates(painter: Painter, position: Vec3, normal: Vec3,
                                                              samples: seq<Vec2>, height: Vec2 -> Option<real>)
    ensures forall e :: e in Scatter(painter, position, normal, samples, height) <==>
      (e.normal == normal
       && Free(painter, e.position)
       && exists i :: 0 <= i < |samples| && PoissonCandidate(painter, position, samples[i], height) == Some(e.position))
  {
    if samples != [] {
      ScatterPlacesExactlyFreeCandidates(painter, position, normal, samples[1..], height);
      assert forall i :: 1 <= i < |samples| ==> samples[i] == samples[1..][i - 1];
      var c := PoissonCandidate(painter, position, samples[0], height);
      if c.Some? {
        var dr := DiscRadius(painter.brushSettings);
        assert Free(painter, c.value) <==> !(!painter.brushSettings.allowOverlap
                                             && ChildWithin(painter.containerChildren, c.value, dr));
      }
      forall e | e in Scatter(painter, position, normal, samples, height)
        ensures exists i :: 0 <= i < |samples| && PoissonCandidate(painter, position, samples[i], height) == Some(e.position)
      {
        if e in EmitForSample(painter, position, normal, samples[0], height) {
          assert PoissonCandidate(painter, position, samples[0], height) == Some(e.position);
        } else {
          var j :| 0 <= j < |samples[1..]| && PoissonCandidate(painter, position, samples[1..][j], height) == Some(e.position);
          assert samples[1..][j] == samples[j + 1];
        }
      }
    }
  }

  /** Every placement of a Poisson mode lies, on the ground plane, within the brush radius
      of the brush centre, and keeps a disc radius from every child when overlap is off. */
  lemma ScatterStaysInBrush(painter: Painter, position: Vec3, normal: Vec3, samples: seq<Vec2>, height: Vec2 -> Option<real>)
    ensures forall e :: e in Scatter(painter, position, normal, samples, height) ==>
      && DistLe(HorizontalDist2(e.position, position), BrushRadius(painter.brushSettings))
      && Free(painter, e.position)
  {
    ScatterPlacesExactlyFreeCandidates(painter, position, normal, samples, height);
  }

  /** The loop distributes over concatenation of the sample sequence. */
  lemma {:induction false} ScatterAppend(painter: Painter, position: Vec3, normal: Vec3, a: seq<Vec2>, b: seq<Vec2>, height: Vec2 -> Option<real>)
    ensures Scatter(painter, position, normal, a + b, height)
         == Scatter(painter, position, normal, a, height) + Scatter(painter, position, normal, b, height)
  {
    if a != [] {
      assert (a + b)[1..] == a[1..] + b;
      ScatterAppend(painter, position, normal, a[1..], b, height);
    } else {
      assert a + b == b;
    }
  }

  /** A sample without a candidate (outside the disc, or no height found) emits nothing:
      dropping it from the sampler's output changes no placement. */
  lemma SkippedSampleEmitsNothing(painter: Painter, position: Vec3, normal: Vec3, samples: seq<Vec2>, height: Vec2 -> Option<real>, i: nat)
    requires i < |samples|
    requires PoissonCandidate(painter, position, samples[i], height).None?
    ensures Scatter(painter, position, normal, samples, height)
         == Scatter(painter, position, normal, samples[..i] + samples[i + 1..], height)
  {
    assert samples == samples[..i] + ([samples[i]] + samples[i + 1..]);
    ScatterAppend(painter, position, normal, samples[..i], [samples[i]] + samples[i + 1..], height);
    ScatterAppend(painter, position, normal, [samples[i]], samples[i + 1..], height);
    ScatterAppend(painter, position, normal, samples[..i], samples[i + 1..], height);
  }

  /** The height of the `Poisson_Any` mode: the hit below the ray origin, else the hit
      above it, else none. */
  function RaycastHeight(physics: Physics, origin: Vec3): (r: Option<real>)
    ensures r.None? <==> physics.raycastDown(origin).None? && physics.raycastUp(origin).None?
    ensures physics.raycastDown(origin).Some? ==> r == physics.raycastDown(origin)
    ensures physics.raycastDown(origin).None? ==> r == physics.raycastUp(origin)
  {
    if physics.raycastDown(origin).Some? then physics.raycastDown(origin)
    else if physics.raycastUp(origin).Some? then physics.raycastUp(origin)
    else None
  }

  /** The ray origin for a world X/Z point: the brush height raised by the raycast offset. */
  function RayOrigin(painter: Painter, position: Vec3, xz: Vec2): Vec3 {
    Vec3(xz.x, position.y + painter.brushSettings.poissonDiscRaycastOffset, xz.y)
  }

  /** `AddPrefabs_Poisson_Any`: the height of each sample comes from the physics raycasts. */
  function AddPrefabsPoissonAny(painter: Painter, physics: Physics, position: Vec3, normal: Vec3, samples: seq<Vec2>): (r: seq<Placement>)
    ensures |r| <= |samples|
  {
    Scatter(painter, position, normal, samples, (xz: Vec2) => RaycastHeight(physics, RayOrigin(painter, position, xz)))
  }

  /** `p` is where the sample puts a prefab in `Poisson_Any` mode: the sample is in the
      brush disc, and the ray cast from its world X/Z at the brush height plus the raycast
      offset hit something at height `y` (below the origin, or above it when nothing is
      below), and `p` is that hit point raised by the auto-physics offset. */
  ghost predicate AtRayHit(painter: Painter, physics: Physics, position: Vec3, sample: Vec2, p: Vec3) {
    && InBrushDisc(sample, BrushRadius(painter.brushSettings))
    && var xz := SampleToWorld(position, sample, BrushRadius(painter.brushSettings));
       var origin := Vec3(xz.x, position.y + painter.brushSettings.poissonDiscRaycastOffset, xz.y);
       exists y ::
         && (physics.raycastDown(origin) == Some(y)
             || (physics.raycastDown(origin).None? && physics.raycastUp(origin) == Some(y)))
         && p == ApplyAutoPhysicsHeightOffset(painter.spawnSettings, Vec3(xz.x, y, xz.y))
  }

  /** Every `Poisson_Any` placement comes from a sample in the brush disc whose ray from
      the brush height plus the raycast offset hit something: its height is the hit below,
      or the hit above when nothing is below, raised by the auto-physics offset. */
  lemma PoissonAnyPlacesAtRayHits(painter: Painter, physics: Physics, position: Vec3, normal: Vec3, samples: seq<Vec2>)
    ensures forall e :: e in AddPrefabsPoissonAny(painter, physics, position, normal, samples) ==>
      exists i :: 0 <= i < |samples| && AtRayHit(painter, physics, position, samples[i], e.position)
  {
    var height := (xz: Vec2) => RaycastHeight(physics, RayOrigin(painter, position, xz));
    ScatterPlacesExactlyFreeCandidates(painter, position, normal, samples, height);
    forall e | e in AddPrefabsPoissonAny(painter, physics, position, normal, samples)
      ensures exists i :: 0 <= i < |samples| && AtRayHit(painter, physics, position, samples[i], e.position)
    {
      var i :| 0 <= i < |samples| && PoissonCandidate(painter, position, samples[i], height) == Some(e.position);
      var xz := SampleToWorld(position, samples[i], BrushRadius(painter.brushSettings));
      var y := height(xz).value;
      assert e.position == ApplyAutoPhysicsHeightOffset(painter.spawnSettings, Vec3(xz.x, y, xz.y));
    }
  }

  /** `AddPrefabs_Poisson_Terrain`: nothing without an active terrain; otherwise the
      height of each sample is the terrain height there plus the terrain's Y. */
  function AddPrefabsPoissonTerrain(painter: Painter, activeTerrain: Option<ActiveTerrain>, position: Vec3, normal: Vec3, samples: seq<Vec2>): (r: seq<Placement>)
    ensures activeTerrain.None? ==> r == []
    ensures |r| <= |samples|
  {
    match activeTerrain
    case None => []
    case Some(terrain) =>
      Scatter(painter, position, normal, samples,
              (xz: Vec2) => Some(terrain.sampleHeight(Vec3(xz.x, position.y, xz.y)) + terrain.positionY))
  }

  /** Every `Poisson_Terrain` placement stands on the terrain: its height is the terrain
      height sampled at its X/Z (at the brush height) plus the terrain's Y, raised by the
      auto-physics offset. Every sample in the disc yields a candidate. */
  lemma PoissonTerrainPlacesOnTerrain(painter: Painter, terrain: ActiveTerrain, position: Vec3, normal: Vec3, samples: seq<Vec2>)
    ensures forall e :: e in AddPrefabsPoissonTerrain(painter, Some(terrain), position, normal, samples) ==>
      e.position == ApplyAutoPhysicsHeightOffset(painter.spawnSettings,
        Vec3(e.position.x, terrain.sampleHeight(Vec3(e.position.x, position.y, e.position.z)) + terrain.positionY, e.position.z))
    ensures forall i :: 0 <= i < |samples| && InBrushDisc(samples[i], BrushRadius(painter.brushSettings)) ==>
      PoissonCandidate(painter, position, samples[i],
                       (xz: Vec2) => Some(terrain.sampleHeight(Vec3(xz.x, position.y, xz.y)) + terrain.positionY)).Some?
  {
    var height := (xz: Vec2) => Some(terrain.sampleHeight(Vec3(xz.x, position.y, xz.y)) + terrain.positionY);
    ScatterPlacesExactlyFreeCandidates(painter, position, normal, samples, height);
    forall e | e in AddPrefabsPoissonTerrain(painter, Some(terrain), position, normal, samples)
      ensures e.position == ApplyAutoPhysicsHeightOffset(painter.spawnSettings,
        Vec3(e.position.x, terrain.sampleHeight(Vec3(e.position.x, position.y, e.position.z)) + terrain.positionY, e.position.z))
    {
      var i :| 0 <= i < |samples| && PoissonCandidate(painter, position, samples[i], height) == Some(e.position);
      var xz := SampleToWorld(position, samples[i], BrushRadius(painter.brushSettings));
      assert e.position.x == xz.x && e.position.z == xz.y;
    }
  }

  // ---------------------------------------------------------------------------
  // Applied transform: position and scale
  // ---------------------------------------------------------------------------

  /** The parts of a prefab's settings the position and scale depend on */
  datatype PrefabSettings = PrefabSettings(positionOffset: Vec3, changeScale: bool, prefabLocalScale: Vec3)

  /** Position and scale of an applied transform (the rotation is not modelled) */
  datatype PrefabTransform = PrefabTransform(position: Vec3, scale: Vec3)

  /** A single-precision quotient that may be positive infinity (a positive number
      divided by zero). */
  datatype Extended = Finite(value: real) | PositiveInfinity

  predicate Less(a: Extended, b: Extended) {
    match (a, b)
    case (Finite(x), Finite(y)) => x < y
    case (Finite(_), PositiveInfinity) => true
    case (PositiveInfinity, _) => false
  }

  /** `brushSize / extent` for a bounds extent that is never negative */
  function Ratio(brushSize: real, extent: real): Extended
    requires brushSize > 0.0 && extent >= 0.0
  {
    if extent == 0.0 then PositiveInfinity else Finite(brushSize / extent)
  }

  /** `Mathf.Min` over three values: start from the first, replace on a strictly smaller one. */
  function Min3(a: Extended, b: Extended, c: Extended): Extended {
    var m1 := if Less(b, a) then b else a;
    if Less(c, m1) then c else m1
  }

  /** Bounds a prefab can be fitted to: no negative extent and at least one positive one. */
  predicate FittableBounds(boundsSize: Vec3) {
    boundsSize.x >= 0.0 && boundsSize.y >= 0.0 && boundsSize.z >= 0.0
    && (boundsSize.x > 0.0 || boundsSize.y > 0.0 || boundsSize.z > 0.0)
  }

  /** A uniform factor that makes the largest extent exactly the brush size: no scaled
      extent exceeds the brush size and one of them meets it. */
  predicate FitsBrush(factor: real, brushSize: real, boundsSize: Vec3) {
    && factor > 0.0
    && factor * boundsSize.x <= brushSize
    && factor * boundsSize.y <= brushSize
    && factor * boundsSize.z <= brushSize
    && (factor * boundsSize.x == brushSize || factor * boundsSize.y == brushSize || factor * boundsSize.z == brushSize)
  }

  /** `Mathf.Min` returns one of its arguments, and none of them is smaller. */
  lemma Min3IsLeast(a: Extended, b: Extended, c: Extended)
    ensures var m := Min3(a, b, c);
            (m == a || m == b || m == c) && !Less(a, m) && !Less(b, m) && !Less(c, m)
  {
  }

  /** A ratio no smaller than the finite positive `m` bounds the extent scaled by `m`
      by the brush size. */
  lemma RatioBound(brushSize: real, extent: real, m: Extended)
    requires brushSize > 0.0 && extent >= 0.0
    ensures m.Finite? && m.value > 0.0 && !Less(Ratio(brushSize, extent), m) ==> m.value * extent <= brushSize
  {
    if m.Finite? && m.value > 0.0 && !Less(Ratio(brushSize, extent), m) && extent > 0.0 {
      var f, q := m.value, brushSize / extent;
      assert f <= q;
      assert q * extent == brushSize;
      assert f * extent <= q * extent;
    }
  }

  /** The ratio of an axis, when it is the chosen minimum `m`, scales that axis to
      exactly the brush size. */
  lemma RatioExact(brushSize: real, extent: real, m: Extended)
    requires brushSize > 0.0 && extent >= 0.0
    ensures m == Ratio(brushSize, extent) && m.Finite? ==> m.value > 0.0 && m.value * extent == brushSize
  {
  }

  /** The scale-to-brush-size factor: the smallest of the per-axis ratios of brush size to
      world bounds extent. */
  function ScaleToBrushSizeFactor(brushSize: real, boundsSize: Vec3): (f: real)
    requires brushSize > 0.0 && FittableBounds(boundsSize)
    ensures FitsBrush(f, brushSize, boundsSize)
  {
    SmallestRatioFits(brushSize, boundsSize);
    MinRatio(brushSize, boundsSize).value
  }

  /** `Mathf.Min` of the three per-axis ratios */
  function MinRatio(brushSize: real, boundsSize: Vec3): Extended
    requires brushSize > 0.0 && FittableBounds(boundsSize)
  {
    Min3(Ratio(brushSize, boundsSize.x), Ratio(brushSize, boundsSize.y), Ratio(brushSize, boundsSize.z))
  }

  lemma SmallestRatioFits(brushSize: real, boundsSize: Vec3)
    requires brushSize > 0.0 && FittableBounds(boundsSize)
    ensures MinRatio(brushSize, boundsSize).Finite?
    ensures FitsBrush(MinRatio(brushSize, boundsSize).value, brushSize, boundsSize)
  {
    SmallestRatioTouches(brushSize, boundsSize);
    SmallestRatioBounds(brushSize, boundsSize);
  }

  /** No extent scaled by the smallest ratio exceeds the brush size. */
  lemma SmallestRatioBounds(brushSize: real, boundsSize: Vec3)
    requires brushSize > 0.0 && FittableBounds(boundsSize)
    requires MinRatio(brushSize, boundsSize).Finite? && MinRatio(brushSize, boundsSize).value > 0.0
    ensures var f := MinRatio(brushSize, boundsSize).value;
            f * boundsSize.x <= brushSize && f * boundsSize.y <= brushSize && f * boundsSize.z <= brushSize
  {
    var rx, ry, rz := Ratio(brushSize, boundsSize.x), Ratio(brushSize, boundsSize.y), Ratio(brushSize, boundsSize.z);
    var m := MinRatio(brushSize, boundsSize);
    assert m == Min3(rx, ry, rz);
    Min3IsLeast(rx, ry, rz);
    assert !Less(rx, m) && !Less(ry, m) && !Less(rz, m);
    RatioBound(brushSize, boundsSize.x, m);
    RatioBound(brushSize, boundsSize.y, m);
    RatioBound(brushSize, boundsSize.z, m);
  }

  /** The smallest ratio is finite and positive, and scales its own axis to exactly the
      brush size. */
  lemma SmallestRatioTouches(brushSize: real, boundsSize: Vec3)
    requires brushSize > 0.0 && FittableBounds(boundsSize)
    ensures MinRatio(brushSize, boundsSize).Finite?
    ensures var f := MinRatio(brushSize, boundsSize).value;
            f > 0.0 && (f * boundsSize.x == brushSize || f * boundsSize.y == brushSize || f * boundsSize.z == brushSize)
  {
    var m := MinRatio(brushSize, boundsSize);
    Min3IsLeast(Ratio(brushSize, boundsSize.x), Ratio(brushSize, boundsSize.y), Ratio(brushSize, boundsSize.z));
    RatioExact(brushSize, boundsSize.x, m);
    RatioExact(brushSize, boundsSize.y, m);
    RatioExact(brushSize, boundsSize.z, m);
  }

  /** The applied position: the offset is added, then the auto-physics height offset. */
  function AppliedPosition(spawn: SpawnSettings, prefab: PrefabSettings, position: Vec3): (r: Vec3)
    ensures r.x == position.x + prefab.positionOffset.x
    ensures r.z == position.z + prefab.positionOffset.z
    ensures r.y == position.y + prefab.positionOffset.y
                   + (if spawn.autoSimulationType == NoSimulation then 0.0 else spawn.autoSimulationHeightOffset)
  {
    ApplyAutoPhysicsHeightOffset(spawn, Add(position, prefab.positionOffset))
  }

  /** The applied scale: the prefab's own scale, or a uniform random one; under
      scale-to-brush-size, the prefab's own scale times the fitting factor, computed from
      the world bounds measured at the final rotation. */
  function AppliedScale(brush: BrushSettings, prefab: PrefabSettings, randomScale: real, boundsSize: Vec3): (r: Vec3)
    requires brush.distribution == ScaleToBrushSize ==> brush.brushSize > 0.0 && FittableBounds(boundsSize)
    ensures brush.distribution == ScaleToBrushSize ==>
      exists f :: FitsBrush(f, brush.brushSize, boundsSize) && r == Scale(prefab.prefabLocalScale, f)
    ensures brush.distribution != ScaleToBrushSize && prefab.changeScale ==> r == Vec3(randomScale, randomScale, randomScale)
    ensures brush.distribution != ScaleToBrushSize && !prefab.changeScale ==> r == prefab.prefabLocalScale
  {
    var newLocalScale := if prefab.changeScale then Scale(Vec3(1.0, 1.0, 1.0), randomScale) else prefab.prefabLocalScale;
    if brush.distribution == ScaleToBrushSize then
      Scale(prefab.prefabLocalScale, ScaleToBrushSizeFactor(brush.brushSize, boundsSize))
    else
      newLocalScale
  }

  /** Position and scale of `CreateAppliedTransform`. */
  function CreateAppliedTransform(painter: Painter, prefab: PrefabSettings, position: Vec3, randomScale: real, boundsSize: Vec3): (r: PrefabTransform)
    requires painter.brushSettings.distribution == ScaleToBrushSize ==>
      painter.brushSettings.brushSize > 0.0 && FittableBounds(boundsSize)
    ensures r.position.x == position.x + prefab.positionOffset.x
    ensures r.position.z == position.z + prefab.positionOffset.z
    ensures r.position.y == position.y + prefab.positionOffset.y
      + (if painter.spawnSettings.autoSimulationType == NoSimulation then 0.0 else painter.spawnSettings.autoSimulationHeightOffset)
    ensures painter.brushSettings.distribution == ScaleToBrushSize ==>
      exists f :: FitsBrush(f, painter.brushSettings.brushSize, boundsSize) && r.scale == Scale(prefab.prefabLocalScale, f)
    ensures painter.brushSettings.distribution != ScaleToBrushSize && prefab.changeScale ==>
      r.scale == Vec3(randomScale, randomScale, randomScale)
    ensures painter.brushSettings.distribution != ScaleToBrushSize && !prefab.changeScale ==>
      r.scale == prefab.prefabLocalScale
  {
    PrefabTransform(AppliedPosition(painter.spawnSettings, prefab, position),
                    AppliedScale(painter.brushSettings, prefab, randomScale, boundsSize))
  }

  // ---------------------------------------------------------------------------
  // Adding a prefab
  // ---------------------------------------------------------------------------

  /** The height the auto-physics offset adds: nothing without a simulation. */
  function AutoPhysicsOffset(spawn: SpawnSettings): real {
    if spawn.autoSimulationType == NoSimulation then 0.0 else spawn.autoSimulationHeightOffset
  }

  /** `AddNewPrefab`: the transform a placement is persisted with. Creating the instance in
      the scene is an engine call and is not modelled. */
  function AddNewPrefab(painter: Painter, prefab: PrefabSettings, placement: Placement, randomScale: real, boundsSize: Vec3): (r: PrefabTransform)
    requires painter.brushSettings.distribution == ScaleToBrushSize ==>
      painter.brushSettings.brushSize > 0.0 && FittableBounds(boundsSize)
    ensures r.position.x == placement.position.x + prefab.positionOffset.x
    ensures r.position.z == placement.position.z + prefab.positionOffset.z
    ensures r.position.y == placement.position.y + prefab.positionOffset.y + AutoPhysicsOffset(painter.spawnSettings)
    ensures painter.brushSettings.distribution == ScaleToBrushSize ==>
      exists f :: FitsBrush(f, painter.brushSettings.brushSize, boundsSize) && r.scale == Scale(prefab.prefabLocalScale, f)
  {
    CreateAppliedTransform(painter, prefab, placement.position, randomScale, boundsSize)
  }

  /** A Center prefab ends at the brush height plus its offset plus the auto-physics
      offset, added once. */
  lemma CenterPrefabRaisedOnce(painter: Painter, prefab: PrefabSettings, position: Vec3, normal: Vec3,
                               randomScale: real, boundsSize: Vec3)
    requires painter.brushSettings.distribution == ScaleToBrushSize ==>
      painter.brushSettings.brushSize > 0.0 && FittableBounds(boundsSize)
    ensures forall e :: e in AddPrefabsCenter(painter, position, normal) ==>
      AddNewPrefab(painter, prefab, e, randomScale, boundsSize).position.y
      == position.y + prefab.positionOffset.y + AutoPhysicsOffset(painter.spawnSettings)
  {
  }

  /** A `Poisson_Terrain` prefab gets the auto-physics offset twice: once in the sampling
      loop and once more when its transform is created. */
  lemma PoissonTerrainPrefabRaisedTwice(painter: Painter, terrain: ActiveTerrain, prefab: PrefabSettings, position: Vec3,
                                        normal: Vec3, samples: seq<Vec2>, randomScale: real, boundsSize: Vec3)
    requires painter.brushSettings.distribution == ScaleToBrushSize ==>
      painter.brushSettings.brushSize > 0.0 && FittableBounds(boundsSize)
    ensures forall e :: e in AddPrefabsPoissonTerrain(painter, Some(terrain), position, normal, samples) ==>
      AddNewPrefab(painter, prefab, e, randomScale, boundsSize).position.y
      == terrain.sampleHeight(Vec3(e.position.x, position.y, e.position.z)) + terrain.positionY
         + prefab.positionOffset.y + 2.0 * AutoPhysicsOffset(painter.spawnSettings)
  {
    PoissonTerrainPlacesOnTerrain(painter, terrain, position, normal, samples);
  }

  /** `height` is the ray height for `sample` (the hit below, else the hit above) raised by `raise`. */
  ghost predicate RayHitRaisedBy(painter: Painter, physics: Physics, position: Vec3, sample: Vec2, height: real, raise: real) {
    var xz := SampleToWorld(position, sample, BrushRadius(painter.brushSettings));
    exists y :: RaycastHeight(physics, RayOrigin(painter, position, xz)) == Some(y) && height == y + raise
  }

  /** A `Poisson_Any` prefab gets the auto-physics offset twice as well: it ends at the
      ray height of its sample plus its offset plus twice the auto-physics offset. */
  lemma PoissonAnyPrefabRaisedTwice(painter: Painter, physics: Physics, prefab: PrefabSettings, position: Vec3,
                                    normal: Vec3, samples: seq<Vec2>, randomScale: real, boundsSize: Vec3)
    requires painter.brushSettings.distribution == ScaleToBrushSize ==>
      painter.brushSettings.brushSize > 0.0 && FittableBounds(boundsSize)
    ensures forall e :: e in AddPrefabsPoissonAny(painter, physics, position, normal, samples) ==>
      exists i :: 0 <= i < |samples|
                  && RayHitRaisedBy(painter, physics, position, samples[i],
                                    AddNewPrefab(painter, prefab, e, randomScale, boundsSize).position.y,
                                    prefab.positionOffset.y + 2.0 * AutoPhysicsOffset(painter.spawnSettings))
  {
    PoissonAnyPlacesAtRayHits(painter, physics, position, normal, samples);
    var raise := prefab.positionOffset.y + 2.0 * AutoPhysicsOffset(painter.spawnSettings);
    forall e | e in AddPrefabsPoissonAny(painter, physics, position, normal, samples)
      ensures exists i :: 0 <= i < |samples|
                          && RayHitRaisedBy(painter, physics, position, samples[i],
                                            AddNewPrefab(painter, prefab, e, randomScale, boundsSize).position.y, raise)
    {
      var i :| 0 <= i < |samples| && AtRayHit(painter, physics, position, samples[i], e.position);
      var xz := SampleToWorld(position, samples[i], BrushRadius(painter.brushSettings));
      var origin := RayOrigin(painter, position, xz);
      var y :| && (physics.raycastDown(origin) == Some(y)
                   || (physics.raycastDown(origin).None? && physics.raycastUp(origin) == Some(y)))
               && e.position == ApplyAutoPhysicsHeightOffset(painter.spawnSettings, Vec3(xz.x, y, xz.y));
      assert RaycastHeight(physics, origin) == Some(y);
      assert RayHitRaisedBy(painter, physics, position, samples[i],
                            AddNewPrefab(painter, prefab, e, randomScale, boundsSize).position.y, raise);
    }
  }
}

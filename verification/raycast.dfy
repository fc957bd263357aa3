/** The block-picking raycast of Minecraft4k.cpp: for each axis in turn the
    ray is aligned to the next block edge on that axis and marched one block
    edge at a time, while the travelled distance stays below the closest hit
    found so far (initially the player's reach). The ray direction is a
    parameter (the camera's normalised view direction in the source). */
module Raycast {
  import opened Constants
  import opened Geometry
  import opened Grid

  /** The raycast's running result: the closest hit block (as a float
      position), the axis and sign of the march that found it, and its
      travel distance (`furthestHit`). */
  datatype Hit = Hit(block: Vec3, axis: int, dir: int, furthest: real)

  /** `glm::vec3 closestHit(-1)`: the no-hit value. */
  const Sentinel: Vec3 := Vec3(-1.0, -1.0, -1.0)

  /** The state before any axis is marched. */
  const NoHit: Hit := Hit(Sentinel, 0, 0, PlayerReach)

  /** Where a recorded hit lies: the block position plus the world offset is
      the point at distance `furthest` along the ray, except that on the
      marched axis a negative march looks one block back. */
  predicate OnRay(origin: Vec3, rayDir: Vec3, h: Hit) {
    var back := if h.dir < 0 then 1.0 else 0.0;
    && h.block.x + WorldSize as real + (if h.axis == 0 then back else 0.0) == origin.x + rayDir.x * h.furthest
    && h.block.y + WorldHeight as real + (if h.axis == 1 then back else 0.0) == origin.y + rayDir.y * h.furthest
    && h.block.z + WorldSize as real + (if h.axis == 2 then back else 0.0) == origin.z + rayDir.z * h.furthest
  }

  /** What the raycast's result always satisfies: either no hit (the sentinel
      at full reach) or an in-world non-AIR block strictly within reach,
      found by a march in direction -1 or +1 along some axis, on the ray. */
  predicate Valid(w: World, origin: Vec3, rayDir: Vec3, h: Hit) {
    && 0.0 <= h.furthest <= PlayerReach
    && (h.block == Sentinel <==> h.furthest == PlayerReach)
    && (h.block == Sentinel ==> h.axis == 0 && h.dir == 0)
    && (h.block != Sentinel ==>
          && IsWithinWorld(h.block)
          && InWorld(Trunc(h.block.x), Trunc(h.block.y), Trunc(h.block.z))
          && GetBlockAt(w, h.block) != Air
          && 0 <= h.axis < 3 && (h.dir == 1 || h.dir == -1)
          && OnRay(origin, rayDir, h))
  }

  /** The distance from the origin to the first block edge on `axis`, in
      units of that axis: `1 - fract` going up, `fract` going down. */
  function EdgeOffset(delta: real, o: real): (off: real)
    ensures 0.0 <= off <= 1.0
    ensures delta > 0.0 ==> o + off == (o.Floor + 1) as real
    ensures delta <= 0.0 ==> o - off == o.Floor as real
  {
    if delta > 0.0 then 1.0 - Fract(o) else Fract(o)
  }

  /** The ray position `rayPos` marched on `axis` (shifted back by `back`
      there) is the point at distance `dist` along the ray. */
  predicate Along(origin: Vec3, rayDir: Vec3, axis: int, back: real, rayPos: Vec3, dist: real) {
    && rayPos.x + (if axis == 0 then back else 0.0) == origin.x + rayDir.x * dist
    && rayPos.y + (if axis == 1 then back else 0.0) == origin.y + rayDir.y * dist
    && rayPos.z + (if axis == 2 then back else 0.0) == origin.z + rayDir.z * dist
  }

  /** One more block edge along the ray: position and distance advance together. */
  lemma AlongStep(origin: Vec3, rayDir: Vec3, axis: int, back: real, rayPos: Vec3, dist: real, inv: real)
    requires Along(origin, rayDir, axis, back, rayPos, dist)
    ensures Along(origin, rayDir, axis, back, rayPos.Add(rayDir.Scale(inv)), dist + inv)
  {
    assert rayDir.x * (dist + inv) == rayDir.x * dist + rayDir.x * inv;
    assert rayDir.y * (dist + inv) == rayDir.y * dist + rayDir.y * inv;
    assert rayDir.z * (dist + inv) == rayDir.z * dist + rayDir.z * inv;
  }

  /** The remaining reach, counted in whole block edges on the marched axis. */
  function EdgesLeft(furthest: real, dist: real, ad: real): int {
    ((furthest - dist) * ad).Floor
  }

  /** While the ray is within reach there are whole edges left to march. */
  lemma EdgesLeftNonNegative(furthest: real, dist: real, ad: real)
    requires ad > 0.0 && dist < furthest
    ensures EdgesLeft(furthest, dist, ad) >= 0
  {
    assert (furthest - dist) * ad > 0.0;
  }

  /** `rayDir / abs(delta)` moves exactly one block on the marched axis, in
      the direction of delta's sign. */
  lemma UnitStep(delta: real)
    requires delta != 0.0
    ensures (1.0 / Abs(delta)) * Abs(delta) == 1.0
    ensures delta * (1.0 / Abs(delta)) == Sign(delta) as real
  {
    if delta > 0.0 {
      assert Abs(delta) == delta;
    } else {
      assert Abs(delta) == -delta;
      assert delta * (1.0 / -delta) == -(delta / delta);
    }
  }

  /** Each step uses up one edge; a step after a hit leaves none. */
  lemma EdgesLeftStep(furthest: real, dist: real, ad: real, inv: real)
    requires ad > 0.0 && inv * ad == 1.0
    ensures EdgesLeft(furthest, dist + inv, ad) == EdgesLeft(furthest, dist, ad) - 1
    ensures EdgesLeft(dist, dist + inv, ad) == -1
  {
    assert (furthest - (dist + inv)) * ad == (furthest - dist) * ad - inv * ad;
    assert (dist - (dist + inv)) * ad == -(inv * ad);
  }

  /** A solid in-world block met along the ray within reach is a valid hit. */
  lemma NewHitValid(w: World, origin: Vec3, rayDir: Vec3, axis: int, dir: int, back: real, rayPos: Vec3, dist: real)
    requires 0 <= axis < 3 && (dir == 1 || dir == -1) && back == (if dir < 0 then 1.0 else 0.0)
    requires 0.0 <= dist < PlayerReach
    requires Along(origin, rayDir, axis, back, rayPos, dist)
    requires var b := rayPos.Sub(Vec3(WorldSize as real, WorldHeight as real, WorldSize as real));
      IsWithinWorld(b) && InWorld(Trunc(b.x), Trunc(b.y), Trunc(b.z)) && GetBlockAt(w, b) != Air
    ensures Valid(w, origin, rayDir, Hit(rayPos.Sub(Vec3(WorldSize as real, WorldHeight as real, WorldSize as real)), axis, dir, dist))
  {
  }

  /** The world offset `vec3(WORLD_SIZE, WORLD_HEIGHT, WORLD_SIZE)` the ray
      position is shifted by before its block is read. */
  const Offset: Vec3 := Vec3(WorldSize as real, WorldHeight as real, WorldSize as real)

  /** A block the raycast stops at: in the world and not AIR. */
  predicate Solid(w: World, c: Vec3) {
    IsWithinWorld(c) && (WithinWorldTruncates(c); GetBlockAt(w, c) != Air)
  }

  /** The march along one axis as the positions it probes: the k-th probe is
      at distance `start + k * step` along the ray, shifted back by `back` on
      the marched axis, minus the world offset. */
  datatype March = March(origin: Vec3, rayDir: Vec3, axis: int, back: real, start: real, step: real) {

    /** The distance travelled at the k-th probe. */
    function Dist(k: nat): real {
      start + k as real * step
    }

    /** The block the k-th probe reads. */
    function Cell(k: nat): Vec3 {
      var d := Dist(k);
      Vec3(origin.x + rayDir.x * d - (if axis == 0 then back else 0.0),
           origin.y + rayDir.y * d - (if axis == 1 then back else 0.0),
           origin.z + rayDir.z * d - (if axis == 2 then back else 0.0)).Sub(Offset)
    }

    /** Probes 0 to k-1 all read blocks in the world. */
    ghost predicate InsideBefore(k: nat) {
      forall j: nat | j < k :: IsWithinWorld(Cell(j))
    }

    /** Probes 0 to k all read blocks in the world: the march reaches probe k
        without breaking out. */
    ghost predicate Inside(k: nat) {
      InsideBefore(k + 1)
    }

    /** None of probes 0 to k-1 at a distance below `bound` reads a solid block. */
    ghost predicate ClearBefore(w: World, k: nat, bound: real) {
      forall j: nat | j < k && Dist(j) < bound :: !Solid(w, Cell(j))
    }

    /** No probe the march reaches at a distance below `bound` reads a solid block. */
    ghost predicate ClearBelow(w: World, bound: real) {
      forall k: nat | Dist(k) < bound && Inside(k) :: !Solid(w, Cell(k))
    }

    /** Hit `h` is the block of some probe the march reaches, at that probe's distance. */
    ghost predicate Reaches(h: Hit) {
      exists k: nat :: Inside(k) && h.block == Cell(k) && h.furthest == Dist(k)
    }
  }

  /** Probes further along are no closer. */
  lemma DistMonotone(m: March, j: nat, k: nat)
    requires m.step > 0.0 && j <= k
    ensures m.Dist(j) <= m.Dist(k)
  {
    assert k as real * m.step == j as real * m.step + (k - j) as real * m.step;
  }

  /** A lower bound keeps the march clear. */
  lemma ClearBelowShrinks(m: March, w: World, bound: real, bound': real)
    requires m.ClearBelow(w, bound) && bound' <= bound
    ensures m.ClearBelow(w, bound')
  {
  }

  /** Probe k read an in-world block and either recorded it (the bound
      drops to its distance) or found it clear: the march moves on to probe
      k+1 with everything before it in the world and clear. */
  lemma Extend(m: March, w: World, k: nat, bound: real, bound': real)
    requires m.InsideBefore(k) && m.ClearBefore(w, k, bound) && IsWithinWorld(m.Cell(k))
    requires bound' == m.Dist(k) < bound || (bound' == bound && !Solid(w, m.Cell(k)))
    ensures m.Inside(k) && m.ClearBefore(w, k + 1, bound')
    ensures m.Dist(k + 1) == m.Dist(k) + m.step
  {
    assert (k + 1) as real * m.step == k as real * m.step + m.step;
  }

  /** When the march stops at probe k, because probe k is at or beyond the
      bound or outside the world, clearing probes 0 to k-1 clears it all. */
  lemma {:induction false} ClearWhenStopped(m: March, w: World, bound: real, k: nat)
    requires m.step > 0.0
    requires m.ClearBefore(w, k, bound)
    requires bound <= m.Dist(k) || !IsWithinWorld(m.Cell(k))
    ensures m.ClearBelow(w, bound)
  {
    forall k': nat | m.Dist(k') < bound && m.Inside(k')
      ensures !Solid(w, m.Cell(k'))
    {
      if k <= k' {
        if !IsWithinWorld(m.Cell(k)) {
          assert false;
        } else {
          DistMonotone(m, k, k');
          assert false;
        }
      }
    }
  }

  /** A position on the ray at the k-th distance, shifted back on the
      marched axis, reads the k-th probe's block. */
  lemma AlongCell(m: March, rayPos: Vec3, k: nat)
    requires Along(m.origin, m.rayDir, m.axis, m.back, rayPos, m.Dist(k))
    ensures rayPos.Sub(Offset) == m.Cell(k)
  {
  }

  /** The march `raycast` sets up on `axis` for a nonzero direction component
      `delta`: steps of `1 / abs(delta)`, starting at the first block edge, one
      block back on the axis when marching down. */
  function AxisMarch(origin: Vec3, rayDir: Vec3, axis: int): March
    requires 0 <= axis < 3 && rayDir.Get(axis) != 0.0
  {
    var delta := rayDir.Get(axis);
    var inv := 1.0 / Abs(delta);
    March(origin, rayDir, axis, if delta < 0.0 then 1.0 else 0.0,
          EdgeOffset(delta, origin.Get(axis)) * inv, inv)
  }

  /** One iteration of the march loop: the probe ends the march exactly when
      the block at `rayPos` is outside the world, and replaces the hit exactly
      when that block is solid (it is then closer than the previous hit). */
  method Probe(w: World, origin: Vec3, rayDir: Vec3, axis: int, dir: int, back: real, rayPos: Vec3, dist: real, r: Hit)
    returns (exits: bool, r': Hit)
    requires 0 <= axis < 3 && (dir == 1 || dir == -1) && back == (if dir < 0 then 1.0 else 0.0)
    requires Valid(w, origin, rayDir, r) && 0.0 <= dist < r.furthest
    requires Along(origin, rayDir, axis, back, rayPos, dist)
    ensures Valid(w, origin, rayDir, r')
    ensures exits <==> !IsWithinWorld(rayPos.Sub(Offset))
    ensures exits ==> r' == r
    ensures !exits ==> (r' != r <==> Solid(w, rayPos.Sub(Offset)))
    ensures r' != r ==> r' == Hit(rayPos.Sub(Offset), axis, dir, dist)
  {
    var blockHit := rayPos.Sub(Offset);
    if !IsWithinWorld(blockHit) {
      return true, r;
    }
    WithinWorldTruncates(blockHit);
    var id := if blockHit.y < 0.0 then Air else GetBlockAt(w, blockHit);
    r' := r;
    if id != Air {
      NewHitValid(w, origin, rayDir, axis, dir, back, rayPos, dist);
      r' := Hit(blockHit, axis, dir, dist);
    }
    exits := false;
  }

  /** The set-up of the march along `axis` (Minecraft4k.cpp:354-366): the
      per-block step `rayDir / abs(delta)`, the start aligned to the next
      block edge (one block back on the axis when marching down), and the
      distance travelled to it. */
  method Align(origin: Vec3, rayDir: Vec3, axis: int)
    returns (rayPos: Vec3, dist: real, dir: int, back: real, ad: real, inv: real)
    requires 0 <= axis < 3 && rayDir.Get(axis) != 0.0
    ensures dir == Sign(rayDir.Get(axis)) && (dir == 1 || dir == -1)
    ensures back == (if dir < 0 then 1.0 else 0.0)
    ensures ad > 0.0 && inv * ad == 1.0 && 0.0 <= dist
    ensures Along(origin, rayDir, axis, back, rayPos, dist)
    ensures AxisMarch(origin, rayDir, axis) == March(origin, rayDir, axis, back, dist, inv)
  {
    var delta := rayDir.Get(axis);
    ad := Abs(delta);
    inv := 1.0 / ad;
    var rayDelta := rayDir.Scale(inv);
    var off := EdgeOffset(delta, origin.Get(axis));
    back := if delta < 0.0 then 1.0 else 0.0;
    dist := off * inv;
    assert AxisMarch(origin, rayDir, axis) == March(origin, rayDir, axis, back, dist, inv);
    rayPos := origin.Add(rayDelta.Scale(off));
    rayPos := rayPos.With(axis, rayPos.Get(axis) - back);
    dir := Sign(rayDelta.Get(axis));
    assert inv * ad == 1.0 && dir == Sign(delta) by {
      UnitStep(delta);
      rayDir.ScaleGet(inv, axis);
    }
    assert Along(origin, rayDir, axis, back, rayPos, dist) by {
      StartAlong(origin, rayDir, axis, back, off, inv);
    }
  }

  /** The march along one axis (Minecraft4k.cpp:352-389). A zero direction
      component makes the C++ travel distance infinite or NaN, so its loop
      does not run; the model skips the axis. */
  method MarchAxis(w: World, origin: Vec3, rayDir: Vec3, axis: int, h: Hit) returns (r: Hit)
    requires 0 <= axis < 3
    requires Valid(w, origin, rayDir, h)
    ensures Valid(w, origin, rayDir, r)
    ensures r.furthest <= h.furthest
    ensures r == h || (r.furthest < h.furthest && r.axis == axis && r.dir == Sign(rayDir.Get(axis)))
    ensures rayDir.Get(axis) == 0.0 ==> r == h
    ensures rayDir.Get(axis) != 0.0 ==> AxisMarch(origin, rayDir, axis).ClearBelow(w, r.furthest)
    ensures rayDir.Get(axis) != 0.0 && r != h ==> AxisMarch(origin, rayDir, axis).Reaches(r)
  {
    if rayDir.Get(axis) == 0.0 {
      return h;
    }
    var rayPos, dist, dir, back, ad, inv := Align(origin, rayDir, axis);
    r := MarchFrom(w, origin, rayDir, axis, dir, back, ad, inv, rayPos, dist, h);
  }

  /** The loop of the march: from the aligned start, probe block after block
      while the travelled distance is below the closest hit so far, and stop
      at the first block outside the world. Every probe reached below the
      final reach is clear, and a new hit is the block of a reached probe. */
  method MarchFrom(w: World, origin: Vec3, rayDir: Vec3, axis: int, dir: int, back: real, ad: real, inv: real,
                   rayPos0: Vec3, dist0: real, h: Hit) returns (r: Hit)
    requires 0 <= axis < 3 && (dir == 1 || dir == -1) && back == (if dir < 0 then 1.0 else 0.0)
    requires ad > 0.0 && inv * ad == 1.0
    requires Valid(w, origin, rayDir, h) && 0.0 <= dist0
    requires Along(origin, rayDir, axis, back, rayPos0, dist0)
    ensures Valid(w, origin, rayDir, r)
    ensures r.furthest <= h.furthest
    ensures r == h || (r.furthest < h.furthest && r.axis == axis && r.dir == dir)
    ensures March(origin, rayDir, axis, back, dist0, inv).ClearBelow(w, r.furthest)
    ensures r != h ==> March(origin, rayDir, axis, back, dist0, inv).Reaches(r)
  {
    ghost var m := March(origin, rayDir, axis, back, dist0, inv);
    assert inv > 0.0;
    var rayDelta := rayDir.Scale(inv);
    var rayPos, dist := rayPos0, dist0;
    r := h;
    ghost var k: nat, hk: nat := 0, 0;
    while dist < r.furthest
      invariant Valid(w, origin, rayDir, r)
      invariant r.furthest <= h.furthest
      invariant r == h || (r.furthest < h.furthest && r.axis == axis && r.dir == dir)
      invariant 0.0 <= dist
      invariant Along(origin, rayDir, axis, back, rayPos, dist)
      invariant dist == m.Dist(k)
      invariant m.InsideBefore(k) && m.ClearBefore(w, k, r.furthest)
      invariant r != h ==> hk < k && m.Inside(hk) && r.block == m.Cell(hk) && r.furthest == m.Dist(hk)
      decreases EdgesLeft(r.furthest, dist, ad)
    {
      EdgesLeftNonNegative(r.furthest, dist, ad);
      AlongCell(m, rayPos, k);
      var exits, r' := Probe(w, origin, rayDir, axis, dir, back, rayPos, dist, r);
      if exits {
        break;
      }
      Extend(m, w, k, r.furthest, r'.furthest);
      if r' != r {
        hk := k;
      }
      r := r';
      EdgesLeftStep(r.furthest, dist, ad, inv);
      AlongStep(origin, rayDir, axis, back, rayPos, dist, inv);
      rayPos := rayPos.Add(rayDelta);
      dist := dist + inv;
      k := k + 1;
    }
    ClearWhenStopped(m, w, r.furthest, k);
  }

  /** The aligned starting point: `origin + rayDir/|delta| * off`, shifted
      back by `back` on the marched axis, lies at distance `off/|delta|`. */
  lemma StartAlong(origin: Vec3, rayDir: Vec3, axis: int, back: real, off: real, inv: real)
    requires 0 <= axis < 3
    ensures var p := origin.Add(rayDir.Scale(inv).Scale(off));
      Along(origin, rayDir, axis, back, p.With(axis, p.Get(axis) - back), off * inv)
  {
    assert rayDir.x * inv * off == rayDir.x * (off * inv);
    assert rayDir.y * inv * off == rayDir.y * (off * inv);
    assert rayDir.z * inv * off == rayDir.z * (off * inv);
  }

  /** The component the source adjusts for the hovered block:
      `hoveredBlockPos_out[abs(closestHitDir)] += closestHitDir`. */
  function Hovered(h: Hit): Vec3
    requires -2 <= h.dir <= 2
  {
    var i := if h.dir < 0 then -h.dir else h.dir;
    h.block.With(i, h.block.Get(i) + h.dir as real)
  }

  /** The hovered position indexes by |direction|, not by the hit axis: on
      any hit it is the hit block moved one unit along y, whichever axis was
      struck; with no hit it is the sentinel. */
  lemma HoveredMovesVertically(w: World, origin: Vec3, rayDir: Vec3, h: Hit)
    requires Valid(w, origin, rayDir, h)
    ensures h.block == Sentinel ==> Hovered(h) == Sentinel
    ensures h.block != Sentinel ==> Hovered(h) == h.block.With(1, h.block.y + h.dir as real)
    ensures h.block != Sentinel && h.axis != 1 ==> Hovered(h).Get(h.axis) == h.block.Get(h.axis)
  {
  }

  /** raycast (Minecraft4k.cpp:336-396) with the view direction as a
      parameter: marches x, then y, then z, keeping the closest hit. The
      result is the nearest solid block any of the three marches reaches:
      no march meets one below its distance, and a hit is a block its own
      axis's march reaches. */
  method Cast(w: World, origin: Vec3, rayDir: Vec3) returns (hovered: Vec3, place: Vec3, h: Hit)
    ensures Valid(w, origin, rayDir, h)
    ensures place == h.block
    ensures hovered == Hovered(h)
    ensures rayDir == Vec3(0.0, 0.0, 0.0) ==> h == NoHit
    ensures forall a | 0 <= a < 3 && rayDir.Get(a) != 0.0 :: AxisMarch(origin, rayDir, a).ClearBelow(w, h.furthest)
    ensures h != NoHit ==> rayDir.Get(h.axis) != 0.0 && AxisMarch(origin, rayDir, h.axis).Reaches(h)
  {
    h := NoHit;
    var axis := 0;
    while axis < 3
      invariant 0 <= axis <= 3
      invariant Valid(w, origin, rayDir, h)
      invariant rayDir == Vec3(0.0, 0.0, 0.0) ==> h == NoHit
      invariant forall a | 0 <= a < axis && rayDir.Get(a) != 0.0 :: AxisMarch(origin, rayDir, a).ClearBelow(w, h.furthest)
      invariant h != NoHit ==> 0 <= h.axis < axis && rayDir.Get(h.axis) != 0.0 && AxisMarch(origin, rayDir, h.axis).Reaches(h)
    {
      var h' := MarchAxis(w, origin, rayDir, axis, h);
      forall a | 0 <= a < axis && rayDir.Get(a) != 0.0
        ensures AxisMarch(origin, rayDir, a).ClearBelow(w, h'.furthest)
      {
        ClearBelowShrinks(AxisMarch(origin, rayDir, a), w, h.furthest, h'.furthest);
      }
      h := h';
      axis := axis + 1;
    }
    place := h.block;
    hovered := Hovered(h);
  }
}

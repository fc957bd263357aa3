/** World.cpp, `generateWorld(seed)` (non-classic): a terrain phase that
    classifies every column by its terrain height, then a tree phase that
    visits a fixed lattice of anchors and plants trees, consuming generator
    draws in a fixed order. Perlin noise is abstracted as a height field. */
module WorldGen {
  import opened Constants
  import opened Geometry
  import opened Grid
  import opened Util
  import opened Wrappers

  /** `round(WORLD_HEIGHT/2 + Perlin::noise(x/256, z/256) * 10)` for column
      (x, z). The noise itself is floating-point code and is not modelled. */
  type HeightField = (int, int) -> int

  /** Perlin::noise sums four octaves of table values in [0, 1) with weights
      1/2, 1/4, 1/8, 1/16, so it lies in [0, 0.9375) and every terrain height
      lies in [32, 41]. The tree phase relies on this to stay inside the world. */
  ghost predicate NoiseHeights(height: HeightField) {
    forall x, z :: 32 <= height(x, z) <= 41
  }

  const StoneDepth: int := 5

  // ---------------------------------------------------------------------
  // Terrain phase
  // ---------------------------------------------------------------------

  /** The block of a column with terrain height h at depth y (y grows downward). */
  function TerrainBlock(h: int, y: int): (b: Byte)
    ensures y < h ==> b == Air
    ensures y == h ==> b == Grass
    ensures h < y <= h + StoneDepth ==> b == Dirt
    ensures y > h + StoneDepth ==> b == Stone
  {
    if y > h + StoneDepth then Stone
    else if y > h then Dirt
    else if y == h then Grass
    else Air
  }

  /** Strata order from the sky down: AIR, GRASS, DIRT, STONE. */
  function Depth(b: Byte): int {
    if b == Air then 0 else if b == Grass then 1 else if b == Dirt then 2 else 3
  }

  /** Every column is layered: going down never climbs back up the strata,
      there is exactly one grass cell (at the terrain height), and the dirt
      layer is exactly `StoneDepth` cells thick. */
  lemma ColumnLayering(h: int, y1: int, y2: int)
    ensures y1 <= y2 ==> Depth(TerrainBlock(h, y1)) <= Depth(TerrainBlock(h, y2))
    ensures TerrainBlock(h, y1) == Grass <==> y1 == h
    ensures TerrainBlock(h, y1) == Dirt <==> h + 1 <= y1 <= h + StoneDepth
  {
  }

  /** The terrain grid as a value: every cell holds its column's stratum. */
  function TerrainWorld(height: HeightField): (r: World)
    ensures forall x, y, z | InWorld(x, y, z) :: GetBlock(r, x, y, z) == TerrainBlock(height(x, z), y)
  {
    var cells := seq<Byte>(Volume, i requires 0 <= i < Volume => TerrainBlock(height(CellOf(i).0, CellOf(i).2), CellOf(i).1));
    assert |cells| == Volume;
    var r: World := cells;
    assert forall x, y, z | InWorld(x, y, z) :: GetBlock(r, x, y, z) == TerrainBlock(height(x, z), y) by {
      forall x, y, z | InWorld(x, y, z)
        ensures GetBlock(r, x, y, z) == TerrainBlock(height(x, z), y)
      {
        CellOfIndex(x, y, z);
      }
    }
    r
  }

  /** The terrain loop of World.cpp:79-95 with its x range corrected to
      [0, WORLD_SIZE), visited in the source's order (x descending). Every
      cell of the buffer is overwritten, so the prior contents do not matter. */
  method GenerateTerrain(w: World, height: HeightField) returns (r: World)
    ensures forall x, y, z | InWorld(x, y, z) :: GetBlock(r, x, y, z) == TerrainBlock(height(x, z), y)
    ensures r == TerrainWorld(height)
  {
    r := w;
    var x := WorldSize - 1;
    while x >= 0
      invariant -1 <= x < WorldSize
      invariant forall cx, cy, cz | InWorld(cx, cy, cz) ::
        GetBlock(r, cx, cy, cz) ==
          if cx > x then TerrainBlock(height(cx, cz), cy) else GetBlock(w, cx, cy, cz)
    {
      var z := 0;
      while z < WorldSize
        invariant 0 <= z <= WorldSize
        invariant forall cx, cy, cz | InWorld(cx, cy, cz) ::
          GetBlock(r, cx, cy, cz) ==
            if cx > x || (cx == x && cz < z) then TerrainBlock(height(cx, cz), cy)
            else GetBlock(w, cx, cy, cz)
      {
        var h := height(x, z);
        var y := 0;
        while y < WorldHeight
          invariant 0 <= y <= WorldHeight
          invariant forall cx, cy, cz | InWorld(cx, cy, cz) ::
            GetBlock(r, cx, cy, cz) ==
              if cx > x || (cx == x && (cz < z || (cz == z && cy < y))) then TerrainBlock(height(cx, cz), cy)
              else GetBlock(w, cx, cy, cz)
        {
          r := SetBlock(r, x, y, z, TerrainBlock(h, y));
          y := y + 1;
        }
        z := z + 1;
      }
      x := x - 1;
    }
    Extensionality(r, TerrainWorld(height));
  }

  /** The iterations of the terrain loop as written in World.cpp:79-83:
      x runs from WORLD_SIZE (inclusive) down to 0. */
  predicate AsWrittenTerrainVisits(x: int, y: int, z: int) {
    0 <= x <= WorldSize && 0 <= z < WorldSize && 0 <= y < WorldHeight
  }

  /** The as-written loop's first pass (x == WORLD_SIZE) writes one byte past
      the end of the buffer at (WORLD_SIZE, WORLD_HEIGHT-1, WORLD_SIZE-1); its
      other writes in that pass alias cells of the x == 0 slice. */
  lemma AsWrittenTerrainOverrun()
    ensures AsWrittenTerrainVisits(WorldSize, WorldHeight - 1, WorldSize - 1)
    ensures Index(WorldSize, WorldHeight - 1, WorldSize - 1) == Volume
    ensures !InBuffer(WorldSize, WorldHeight - 1, WorldSize - 1)
    ensures forall y, z | AsWrittenTerrainVisits(WorldSize, y, z) && y < WorldHeight - 1 ::
      Index(WorldSize, y, z) == Index(0, y + 1, z)
  {
  }

  /** The older terrain loop of Minecraft4k.cpp:217-235: x ascending and only
      cells at or below the surface (y >= terrain height) written. */
  method GenerateTerrainLegacy(w: World, height: HeightField) returns (r: World)
    requires NoiseHeights(height)
    ensures forall x, y, z | InWorld(x, y, z) ::
      GetBlock(r, x, y, z) ==
        if y >= height(x, z) then TerrainBlock(height(x, z), y) else GetBlock(w, x, y, z)
  {
    r := w;
    var x := 0;
    while x < WorldSize
      invariant 0 <= x <= WorldSize
      invariant forall cx, cy, cz | InWorld(cx, cy, cz) ::
        GetBlock(r, cx, cy, cz) ==
          if cx < x && cy >= height(cx, cz) then TerrainBlock(height(cx, cz), cy) else GetBlock(w, cx, cy, cz)
    {
      var z := 0;
      while z < WorldSize
        invariant 0 <= z <= WorldSize
        invariant forall cx, cy, cz | InWorld(cx, cy, cz) ::
          GetBlock(r, cx, cy, cz) ==
            if (cx < x || (cx == x && cz < z)) && cy >= height(cx, cz) then TerrainBlock(height(cx, cz), cy)
            else GetBlock(w, cx, cy, cz)
      {
        var h := height(x, z);
        var y := h;
        while y < WorldHeight
          invariant h <= y <= WorldHeight
          invariant forall cx, cy, cz | InWorld(cx, cy, cz) ::
            GetBlock(r, cx, cy, cz) ==
              if (cx < x || (cx == x && (cz < z || (cz == z && cy < y)))) && cy >= height(cx, cz)
              then TerrainBlock(height(cx, cz), cy)
              else GetBlock(w, cx, cy, cz)
        {
          r := SetBlock(r, x, y, z, TerrainBlock(h, y));
          y := y + 1;
        }
        z := z + 1;
      }
      x := x + 1;
    }
  }

  /** On the zero-initialised global buffer the older loop, which skips the
      sky, yields exactly the same world as World.cpp's full-column loop. */
  lemma LegacyTerrainAgreesOnZeroedWorld(height: HeightField, legacy: World)
    requires forall x, y, z | InWorld(x, y, z) ::
      GetBlock(legacy, x, y, z) ==
        if y >= height(x, z) then TerrainBlock(height(x, z), y) else GetBlock(Empty(), x, y, z)
    ensures legacy == TerrainWorld(height)
  {
    Extensionality(legacy, TerrainWorld(height));
  }

  // ---------------------------------------------------------------------
  // Tree phase
  // ---------------------------------------------------------------------

  /** One tree, as the generator decides it: trunk column (x, z), the top
      trunk cell `top` (one above the grass), trunk height, and the four
      foliage and four crown corner-cut draws. */
  datatype TreePlan = TreePlan(x: int, z: int, top: int, trunk: int, foliageCuts: seq<int>, crownCuts: seq<int>)

  /** `a + (nextInt(k) - off)` as World.cpp evaluates it: nextInt returns
      uint32, so the subtraction and the addition wrap modulo 2^32 before the
      result is stored back into an int. For small values nothing is lost. */
  function Jitter(a: int, r: Uint32, off: int): (t: int)
    requires 0 <= a + r - off < 0x8000_0000 && 0 <= off < 0x8000_0000
    ensures t == a + r - off
  {
    var u := (a % Two32 + (r - off) % Two32) % Two32;
    assert u == a + r - off by {
      var qa, qb := a / Two32, (r - off) / Two32;
      assert a % Two32 + (r - off) % Two32 == (a + r - off) - (qa + qb) * Two32;
    }
    ToInt32(u)
  }

  /** The corner-cut draws of one tree: for each of `n` corners a foliage cut
      then a crown cut, each `nextInt(10)`. */
  function DrawCuts(s: State, n: nat): (r: (seq<int>, seq<int>, State))
    ensures |r.0| == n && |r.1| == n
    ensures forall i | 0 <= i < n :: 0 <= r.0[i] < 10 && 0 <= r.1[i] < 10
    decreases n
  {
    if n == 0 then ([], [], s)
    else
      var f := NextInt(s, 10);
      var c := NextInt(f.state, 10);
      var rest := DrawCuts(c.state, n - 1);
      ([f.value] + rest.0, [c.value] + rest.1, rest.2)
  }

  /** Drawing n pairs of cuts makes 2n draws. */
  lemma {:induction false} DrawCutsAdvances(s: State, n: nat)
    ensures DrawCuts(s, n).2 == Advance(s, 2 * n)
    decreases n
  {
    if n > 0 {
      var c := NextInt(NextInt(s, 10).state, 10);
      DrawCutsAdvances(c.state, n - 1);
      assert c.state == Advance(s, 2);
      AdvanceAdd(s, 2, 2 * (n - 1));
    }
  }

  /** Corner i's foliage cut is draw 2i and its crown cut draw 2i+1. */
  lemma DrawCutsDraws(s: State, n: nat)
    ensures forall i | 0 <= i < n ::
      && DrawCuts(s, n).0[i] == NextInt(Advance(s, 2 * i), 10).value
      && DrawCuts(s, n).1[i] == NextInt(Advance(s, 2 * i + 1), 10).value
  {
    forall i | 0 <= i < n
      ensures DrawCuts(s, n).0[i] == NextInt(Advance(s, 2 * i), 10).value
      ensures DrawCuts(s, n).1[i] == NextInt(Advance(s, 2 * i + 1), 10).value
    {
      DrawCutAt(s, n, i);
    }
  }

  /** One corner's pair of cuts, by induction on the corner. */
  lemma {:induction false} DrawCutAt(s: State, n: nat, i: nat)
    requires i < n
    ensures DrawCuts(s, n).0[i] == NextInt(Advance(s, 2 * i), 10).value
    ensures DrawCuts(s, n).1[i] == NextInt(Advance(s, 2 * i + 1), 10).value
    decreases i
  {
    var f := NextInt(s, 10);
    var c := NextInt(f.state, 10);
    var rest := DrawCuts(c.state, n - 1);
    assert DrawCuts(s, n) == ([f.value] + rest.0, [c.value] + rest.1, rest.2);
    if i == 0 {
      assert Advance(s, 1) == f.state;
    } else {
      DrawCutAt(c.state, n - 1, i - 1);
      assert c.state == Advance(s, 2);
      AdvanceTwoFirst(s, c.state, i);
      assert DrawCuts(s, n).0[i] == rest.0[i - 1] && DrawCuts(s, n).1[i] == rest.1[i - 1];
    }
  }

  /** Two draws and then 2(i-1) (or 2(i-1)+1) more are draws 2i (or 2i+1)
      from the start. */
  lemma AdvanceTwoFirst(s: State, c: State, i: nat)
    requires c == Advance(s, 2) && 1 <= i
    ensures Advance(c, 2 * (i - 1)) == Advance(s, 2 * i)
    ensures Advance(c, 2 * (i - 1) + 1) == Advance(s, 2 * i + 1)
  {
    AdvanceAdd(s, 2, 2 * (i - 1));
    AdvanceAdd(s, 2, 2 * (i - 1) + 1);
  }

  /** After the first a draws, pair i of draws is draws a+2i and a+2i+1. */
  lemma AdvancePairs(s: State, c: State, a: nat, i: nat)
    requires c == Advance(s, a)
    ensures Advance(c, 2 * i) == Advance(s, a + 2 * i)
    ensures Advance(c, 2 * i + 1) == Advance(s, a + 1 + 2 * i)
  {
    AdvanceAdd(s, a, 2 * i);
    AdvanceAdd(s, a, 2 * i + 1);
  }

  /** Whether a plan's tree lies entirely inside the world. */
  predicate Fits(p: TreePlan) {
    2 <= p.x && p.x + 2 < WorldSize && 2 <= p.z && p.z + 2 < WorldSize &&
    0 <= p.top - p.trunk - 1 && p.top < WorldHeight && 4 <= p.trunk &&
    |p.foliageCuts| == 4 && |p.crownCuts| == 4
  }

  /** The draws made at one anchor (ax, az) of the stride lattice. One
      `nextInt(4)` decides; only on 0 does it go on to draw the x and z jitter
      (`nextInt(4)` each), the trunk height (`nextInt(2)`) and 4 x (foliage
      `nextInt(10)`, crown `nextInt(10)`): 12 draws in all. */
  function PlanTree(s: State, ax: int, az: int, height: HeightField): (r: (Option<TreePlan>, State))
    requires 4 <= ax < WorldSize - 4 && 4 <= az < WorldSize - 4
    ensures r.0.None? <==> NextInt(s, 4).value != 0
    ensures r.0.None? ==> r.1 == Advance(s, 1)
    ensures r.0.Some? ==> r.1 == Advance(s, 12)
    ensures r.0.Some? ==>
      var p := r.0.value;
      && ax - 2 <= p.x <= ax + 1 && az - 2 <= p.z <= az + 1
      && (p.trunk == 4 || p.trunk == 5)
      && p.top == height(p.x, p.z) - 1
      && |p.foliageCuts| == 4 && |p.crownCuts| == 4
      && (forall i | 0 <= i < 4 :: 0 <= p.foliageCuts[i] < 10 && 0 <= p.crownCuts[i] < 10)
    ensures r.0.Some? ==>
      var p := r.0.value;
      && p.x == ax + NextInt(Advance(s, 1), 4).value - 2
      && p.z == az + NextInt(Advance(s, 2), 4).value - 2
      && p.trunk == 4 + NextInt(Advance(s, 3), 2).value
      && (forall i | 0 <= i < 4 ::
            p.foliageCuts[i] == NextInt(Advance(s, 4 + 2 * i), 10).value &&
            p.crownCuts[i] == NextInt(Advance(s, 5 + 2 * i), 10).value)
    ensures r.0.Some? && NoiseHeights(height) ==> Fits(r.0.value)
  {
    var spawn := NextInt(s, 4);
    if spawn.value != 0 then (None, spawn.state)
    else
      var dx := NextInt(spawn.state, 4);
      var dz := NextInt(dx.state, 4);
      var tx := Jitter(ax, dx.value, 2);
      var tz := Jitter(az, dz.value, 2);
      var top := height(tx, tz) - 1;
      var th := NextInt(dz.state, 2);
      var cuts := DrawCuts(th.state, 4);
      assert cuts.2 == Advance(s, 12) by {
        DrawCutsAdvances(th.state, 4);
        assert th.state == Advance(s, 4);
        AdvanceAdd(s, 4, 8);
      }
      assert forall i | 0 <= i < 4 ::
        cuts.0[i] == NextInt(Advance(s, 4 + 2 * i), 10).value &&
        cuts.1[i] == NextInt(Advance(s, 5 + 2 * i), 10).value by {
        DrawCutsDraws(th.state, 4);
        assert th.state == Advance(s, 4);
        forall i | 0 <= i < 4
          ensures Advance(th.state, 2 * i) == Advance(s, 4 + 2 * i)
          ensures Advance(th.state, 2 * i + 1) == Advance(s, 5 + 2 * i)
        {
          AdvancePairs(s, th.state, 4, i);
        }
      }
      (Some(TreePlan(tx, tz, top, 4 + th.value, cuts.0, cuts.1)), cuts.2)
  }

  /** Advancing a then b steps is advancing a + b steps. */
  lemma {:induction false} AdvanceAdd(s: State, a: nat, b: nat)
    ensures Advance(Advance(s, a), b) == Advance(s, a + b)
    decreases a
  {
    if a > 0 {
      AdvanceAdd(Step(s), a - 1, b);
    }
  }

  /** The trunk: `(x, y, z)` for `top - trunk <= y <= top`. */
  predicate OnTrunk(p: TreePlan, x: int, y: int, z: int) {
    x == p.x && z == p.z && p.top - p.trunk <= y <= p.top
  }

  /** The corners of the two leaf boxes handed to fillBox. */
  function FoliageLo(p: TreePlan): Vec3 {
    Vec3((p.x - 2) as real, (p.top - p.trunk + 1) as real, (p.z - 2) as real)
  }
  function FoliageHi(p: TreePlan): Vec3 {
    Vec3((p.x + 3) as real, (p.top - p.trunk + 3) as real, (p.z + 3) as real)
  }
  function CrownLo(p: TreePlan): Vec3 {
    Vec3((p.x - 1) as real, (p.top - p.trunk - 1) as real, (p.z - 1) as real)
  }
  function CrownHi(p: TreePlan): Vec3 {
    Vec3((p.x + 2) as real, (p.top - p.trunk + 1) as real, (p.z + 2) as real)
  }

  /** Corner i of the foliage box (foliageXList/foliageZList) and of the
      crown box (crownXList/crownZList). */
  function FoliageX(p: TreePlan, i: int): int { p.x + (if i < 2 then -2 else 2) }
  function FoliageZ(p: TreePlan, i: int): int { p.z + (if i == 0 || i == 3 then -2 else 2) }
  function CrownX(p: TreePlan, i: int): int { p.x + (if i < 2 then -1 else 1) }
  function CrownZ(p: TreePlan, i: int): int { p.z + (if i == 0 || i == 3 then -1 else 1) }

  /** Whether the foliage switch of corner pass i carves (x, y, z): cut 0
      takes the upper cell of the corner column, 1 the lower, 2 both. */
  predicate FoliageCarved(p: TreePlan, i: int, x: int, y: int, z: int)
    requires 0 <= i < 4 && |p.foliageCuts| == 4
  {
    var fc := p.foliageCuts[i];
    x == FoliageX(p, i) && z == FoliageZ(p, i) &&
    ((y == p.top - p.trunk + 1 && (fc == 0 || fc == 2)) ||
     (y == p.top - p.trunk + 2 && (fc == 1 || fc == 2)))
  }

  /** Whether the crown switch of corner pass i carves (x, y, z): the upper
      corner cell always, the lower one only on cut 0. */
  predicate CrownCarved(p: TreePlan, i: int, x: int, y: int, z: int)
    requires 0 <= i < 4 && |p.crownCuts| == 4
  {
    x == CrownX(p, i) && z == CrownZ(p, i) &&
    (y == p.top - p.trunk - 1 || (y == p.top - p.trunk && p.crownCuts[i] == 0))
  }

  predicate CarvedBy(p: TreePlan, i: int, x: int, y: int, z: int)
    requires 0 <= i < 4 && |p.foliageCuts| == 4 && |p.crownCuts| == 4
  {
    FoliageCarved(p, i, x, y, z) || CrownCarved(p, i, x, y, z)
  }

  /** Carved by one of the first k corner passes. */
  predicate CarvedBefore(p: TreePlan, k: int, x: int, y: int, z: int)
    requires 0 <= k <= 4 && |p.foliageCuts| == 4 && |p.crownCuts| == 4
  {
    k > 0 && (CarvedBefore(p, k - 1, x, y, z) || CarvedBy(p, k - 1, x, y, z))
  }

  lemma {:induction false} CarvedBeforeMonotone(p: TreePlan, i: int, k: int, x: int, y: int, z: int)
    requires 0 <= i < k <= 4 && |p.foliageCuts| == 4 && |p.crownCuts| == 4
    requires CarvedBy(p, i, x, y, z)
    ensures CarvedBefore(p, k, x, y, z)
    decreases k
  {
    if i < k - 1 {
      CarvedBeforeMonotone(p, i, k - 1, x, y, z);
    }
  }

  /** Carved cells are corner cells: off the trunk column, one or two cells
      away from it on both horizontal axes, in the four layers of the leaves. */
  lemma {:induction false} CarvedCellsAreCorners(p: TreePlan, k: int, x: int, y: int, z: int)
    requires 0 <= k <= 4 && |p.foliageCuts| == 4 && |p.crownCuts| == 4
    ensures CarvedBefore(p, k, x, y, z) ==>
      && (x - p.x == 1 || x - p.x == -1 || x - p.x == 2 || x - p.x == -2)
      && (z - p.z == 1 || z - p.z == -1 || z - p.z == 2 || z - p.z == -2)
      && p.top - p.trunk - 1 <= y <= p.top - p.trunk + 2
    decreases k
  {
    if k > 0 {
      CarvedCellsAreCorners(p, k - 1, x, y, z);
    }
  }

  /** The value of a cell, previously `prev`, after the trunk and the two non-replacing leaf
      fills, before any carving. */
  function LeafCell(prev: Byte, p: TreePlan, x: int, y: int, z: int): Byte
  {
    var t := if OnTrunk(p, x, y, z) then Wood else prev;
    var f := if InBox(FoliageLo(p), FoliageHi(p), x, y, z) then Filled(t, Leaves, false) else t;
    if InBox(CrownLo(p), CrownHi(p), x, y, z) then Filled(f, Leaves, false) else f
  }

  /** The value of a cell, previously `prev`, once the whole tree is placed. */
  function TreeCell(prev: Byte, p: TreePlan, x: int, y: int, z: int): Byte
    requires |p.foliageCuts| == 4 && |p.crownCuts| == 4
  {
    if CarvedBefore(p, 4, x, y, z) then Air else LeafCell(prev, p, x, y, z)
  }

  /** World.cpp:112-115: the trunk, written from `top` up to `top - trunk`. */
  method PlaceTrunk(w: World, p: TreePlan) returns (r: World)
    requires Fits(p)
    ensures forall x, y, z | InWorld(x, y, z) ::
      GetBlock(r, x, y, z) == if OnTrunk(p, x, y, z) then Wood else GetBlock(w, x, y, z)
  {
    r := w;
    var y := p.top;
    while y >= p.top - p.trunk
      invariant p.top - p.trunk - 1 <= y <= p.top
      invariant forall cx, cy, cz | InWorld(cx, cy, cz) ::
        GetBlock(r, cx, cy, cz) == if OnTrunk(p, cx, cy, cz) && cy > y then Wood else GetBlock(w, cx, cy, cz)
    {
      r := SetBlock(r, p.x, y, p.z, Wood);
      y := y - 1;
    }
  }

  /** The foliage-corner switch of World.cpp:136-154. */
  method CarveFoliage(w: World, p: TreePlan, i: int) returns (r: World)
    requires Fits(p) && 0 <= i < 4
    ensures forall x, y, z | InWorld(x, y, z) ::
      GetBlock(r, x, y, z) == if FoliageCarved(p, i, x, y, z) then Air else GetBlock(w, x, y, z)
  {
    var base := p.top - p.trunk;
    var fx, fz := FoliageX(p, i), FoliageZ(p, i);
    r := w;
    match p.foliageCuts[i] {
      case 0 =>
        r := SetBlock(r, fx, base + 1, fz, Air);
      case 1 =>
        r := SetBlock(r, fx, base + 2, fz, Air);
      case 2 =>
        r := SetBlock(r, fx, base + 1, fz, Air);
        r := SetBlock(r, fx, base + 2, fz, Air);
      case _ =>
    }
  }

  /** The crown-corner switch of World.cpp:157-168. */
  method CarveCrown(w: World, p: TreePlan, i: int) returns (r: World)
    requires Fits(p) && 0 <= i < 4
    ensures forall x, y, z | InWorld(x, y, z) ::
      GetBlock(r, x, y, z) == if CrownCarved(p, i, x, y, z) then Air else GetBlock(w, x, y, z)
  {
    var base := p.top - p.trunk;
    var cx, cz := CrownX(p, i), CrownZ(p, i);
    match p.crownCuts[i] {
      case 0 =>
        r := SetBlock(w, cx, base - 1, cz, Air);
        r := SetBlock(r, cx, base, cz, Air);
      case _ =>
        r := SetBlock(w, cx, base - 1, cz, Air);
    }
  }

  /** World.cpp:112-168: writes the trunk, overlays the foliage and crown
      leaf boxes without replacing, then carves the corners. */
  method PlaceTree(w: World, p: TreePlan) returns (r: World)
    requires Fits(p)
    ensures forall x, y, z | InWorld(x, y, z) :: GetBlock(r, x, y, z) == TreeCell(GetBlock(w, x, y, z), p, x, y, z)
  {
    r := PlaceTrunk(w, p);
    r := FillBox(r, Leaves, FoliageLo(p), FoliageHi(p), false);
    r := FillBox(r, Leaves, CrownLo(p), CrownHi(p), false);
    ghost var leafy := r;
    assert forall cx, cy, cz | InWorld(cx, cy, cz) :: GetBlock(leafy, cx, cy, cz) == LeafCell(GetBlock(w, cx, cy, cz), p, cx, cy, cz);
    var i := 0;
    while i < 4
      invariant 0 <= i <= 4
      invariant forall cx, cy, cz | InWorld(cx, cy, cz) ::
        GetBlock(r, cx, cy, cz) == if CarvedBefore(p, i, cx, cy, cz) then Air else GetBlock(leafy, cx, cy, cz)
    {
      r := CarveFoliage(r, p, i);
      r := CarveCrown(r, p, i);
      i := i + 1;
    }
  }

  /** What placing a tree does to one cell that held `prev`. The trunk is
      WOOD over its whole height; the upper crown corners are AIR whatever the
      crown cuts were, and the lower ones too on cut 0; leaves never replace a
      solid block off the trunk, and fill the AIR cells of the leaf boxes that
      are not carved; nothing outside the tree's 5 x 5 columns between the
      crown top and the trunk base changes. */
  lemma TreeEffect(p: TreePlan, prev: Byte, x: int, y: int, z: int)
    requires Fits(p)
    ensures OnTrunk(p, x, y, z) ==> TreeCell(prev, p, x, y, z) == Wood
    ensures forall i | 0 <= i < 4 && x == CrownX(p, i) && z == CrownZ(p, i) && y == p.top - p.trunk - 1 ::
      TreeCell(prev, p, x, y, z) == Air
    ensures forall i | 0 <= i < 4 && x == CrownX(p, i) && z == CrownZ(p, i) && y == p.top - p.trunk && p.crownCuts[i] == 0 ::
      TreeCell(prev, p, x, y, z) == Air
    ensures prev != Air && !OnTrunk(p, x, y, z) && !CarvedBefore(p, 4, x, y, z) ==> TreeCell(prev, p, x, y, z) == prev
    ensures && prev == Air && !OnTrunk(p, x, y, z) && !CarvedBefore(p, 4, x, y, z)
            && (InBox(FoliageLo(p), FoliageHi(p), x, y, z) || InBox(CrownLo(p), CrownHi(p), x, y, z))
            ==> TreeCell(prev, p, x, y, z) == Leaves
    ensures !(p.x - 2 <= x <= p.x + 2 && p.z - 2 <= z <= p.z + 2 && p.top - p.trunk - 1 <= y <= p.top) ==>
      TreeCell(prev, p, x, y, z) == prev
  {
    CarvedCellsAreCorners(p, 4, x, y, z);
    forall i | 0 <= i < 4 && x == CrownX(p, i) && z == CrownZ(p, i) && y == p.top - p.trunk - 1
      ensures CarvedBefore(p, 4, x, y, z)
    {
      CarvedBeforeMonotone(p, i, 4, x, y, z);
    }
    forall i | 0 <= i < 4 && x == CrownX(p, i) && z == CrownZ(p, i) && y == p.top - p.trunk && p.crownCuts[i] == 0
      ensures CarvedBefore(p, 4, x, y, z)
    {
      CarvedBeforeMonotone(p, i, 4, x, y, z);
    }
  }

  /** Anchors of the tree lattice: x and z run over 4, 12, ..., 500, that is
      4 + 8a for a in [0, 63). */
  const AnchorsPerAxis: int := 63

  /** What the tree loops do at one anchor, given the generator state and
      the anchor's column: possibly a tree, and the next state. */
  type Planner = (State, int, int) --> (Option<TreePlan>, State)

  /** A planner usable at every anchor of the lattice, whose trees fit. */
  ghost predicate ValidPlanner(plan: Planner) {
    forall s: State, ax: int, az: int | 4 <= ax < WorldSize - 4 && 4 <= az < WorldSize - 4 ::
      plan.requires(s, ax, az) && (plan(s, ax, az).0.Some? ==> Fits(plan(s, ax, az).0.value))
  }

  /** The planner of World.cpp:103-132 over a height field. */
  function TreePlanner(height: HeightField): Planner {
    (s: State, ax: int, az: int) requires 4 <= ax < WorldSize - 4 && 4 <= az < WorldSize - 4 =>
      PlanTree(s, ax, az, height)
  }

  /** Over terrain heights the noise can produce, every planned tree fits. */
  lemma TreePlannerValid(height: HeightField)
    requires NoiseHeights(height)
    ensures ValidPlanner(TreePlanner(height))
  {
  }

  /** (a, b) is a position of the anchor loops: row a (x = 4 + 8a) before
      its anchor b (z = 4 + 8b), or the end of the loops. */
  predicate LoopPoint(a: int, b: int) {
    (0 <= a < AnchorsPerAxis && 0 <= b <= AnchorsPerAxis) || (a == AnchorsPerAxis && b == 0)
  }

  /** The generator state when the anchor loops reach (a, b), starting from
      `s0`. */
  function StateBefore(plan: Planner, s0: State, a: int, b: int): State
    requires ValidPlanner(plan) && LoopPoint(a, b)
    decreases a, b
  {
    if b == 0 then
      if a == 0 then s0 else StateBefore(plan, s0, a - 1, AnchorsPerAxis)
    else
      plan(StateBefore(plan, s0, a, b - 1), 4 + 8 * a, 4 + 8 * (b - 1)).1
  }

  /** The tree planned at anchor (a, b), if any. */
  function TreeAt(plan: Planner, s0: State, a: int, b: int): Option<TreePlan>
    requires ValidPlanner(plan) && 0 <= a < AnchorsPerAxis && 0 <= b < AnchorsPerAxis
  {
    plan(StateBefore(plan, s0, a, b), 4 + 8 * a, 4 + 8 * b).0
  }

  /** The value of a cell, previously `prev`, when the anchor loops reach
      (a, b): every tree planned so far placed over it, in order. */
  function CellBefore(plan: Planner, prev: Byte, s0: State, a: int, b: int, x: int, y: int, z: int): Byte
    requires ValidPlanner(plan) && LoopPoint(a, b)
    decreases a, b
  {
    if b == 0 then
      if a == 0 then prev else CellBefore(plan, prev, s0, a - 1, AnchorsPerAxis, x, y, z)
    else
      var v := CellBefore(plan, prev, s0, a, b - 1, x, y, z);
      match TreeAt(plan, s0, a, b - 1)
      case None => v
      case Some(p) => TreeCell(v, p, x, y, z)
  }

  /** One anchor of the tree loops: plan a tree, and place it if one is due.
      `w0` and `s0` are the world and generator state the tree phase started
      from. */
  method Plant(ghost w0: World, ghost s0: State, w: World, s: State, plan: Planner, a: int, b: int)
    returns (r: World, t: State)
    requires ValidPlanner(plan)
    requires 0 <= a < AnchorsPerAxis && 0 <= b < AnchorsPerAxis
    requires s == StateBefore(plan, s0, a, b)
    requires forall x, y, z | InWorld(x, y, z) ::
      GetBlock(w, x, y, z) == CellBefore(plan, GetBlock(w0, x, y, z), s0, a, b, x, y, z)
    ensures t == StateBefore(plan, s0, a, b + 1)
    ensures forall x, y, z | InWorld(x, y, z) ::
      GetBlock(r, x, y, z) == CellBefore(plan, GetBlock(w0, x, y, z), s0, a, b + 1, x, y, z)
  {
    var d := plan(s, 4 + 8 * a, 4 + 8 * b);
    assert d.0 == TreeAt(plan, s0, a, b);
    r, t := w, d.1;
    if d.0.Some? {
      r := PlaceTree(w, d.0.value);
    }
  }

  /** World.cpp:102-171: one row of anchors, x = 4 + 8a, z ascending. */
  method PlantRow(ghost w0: World, ghost s0: State, w: World, s: State, plan: Planner, a: int)
    returns (r: World, t: State)
    requires ValidPlanner(plan)
    requires 0 <= a < AnchorsPerAxis
    requires s == StateBefore(plan, s0, a, 0)
    requires forall x, y, z | InWorld(x, y, z) ::
      GetBlock(w, x, y, z) == CellBefore(plan, GetBlock(w0, x, y, z), s0, a, 0, x, y, z)
    ensures t == StateBefore(plan, s0, a, AnchorsPerAxis)
    ensures forall x, y, z | InWorld(x, y, z) ::
      GetBlock(r, x, y, z) == CellBefore(plan, GetBlock(w0, x, y, z), s0, a, AnchorsPerAxis, x, y, z)
  {
    r, t := w, s;
    var b := 0;
    while b < AnchorsPerAxis
      invariant 0 <= b <= AnchorsPerAxis
      invariant t == StateBefore(plan, s0, a, b)
      invariant forall x, y, z | InWorld(x, y, z) ::
        GetBlock(r, x, y, z) == CellBefore(plan, GetBlock(w0, x, y, z), s0, a, b, x, y, z)
    {
      r, t := Plant(w0, s0, r, t, plan, a, b);
      b := b + 1;
    }
  }

  /** The end of row a is the start of row a + 1. */
  lemma RowWrap(w0: World, s0: State, plan: Planner, a: int, r: World)
    requires ValidPlanner(plan) && 0 <= a < AnchorsPerAxis
    requires forall x, y, z | InWorld(x, y, z) ::
      GetBlock(r, x, y, z) == CellBefore(plan, GetBlock(w0, x, y, z), s0, a, AnchorsPerAxis, x, y, z)
    ensures StateBefore(plan, s0, a + 1, 0) == StateBefore(plan, s0, a, AnchorsPerAxis)
    ensures forall x, y, z | InWorld(x, y, z) ::
      GetBlock(r, x, y, z) == CellBefore(plan, GetBlock(w0, x, y, z), s0, a + 1, 0, x, y, z)
  {
  }

  /** World.cpp:101-172: the tree loops over the anchor lattice, x outer. The
      result is the world `w` with every planned tree placed. */
  method PopulateTrees(w: World, s: State, plan: Planner) returns (r: World, t: State)
    requires ValidPlanner(plan)
    ensures t == StateBefore(plan, s, AnchorsPerAxis, 0)
    ensures forall x, y, z | InWorld(x, y, z) ::
      GetBlock(r, x, y, z) == CellBefore(plan, GetBlock(w, x, y, z), s, AnchorsPerAxis, 0, x, y, z)
  {
    r, t := w, s;
    var a := 0;
    while a < AnchorsPerAxis
      invariant 0 <= a <= AnchorsPerAxis
      invariant t == StateBefore(plan, s, a, 0)
      invariant forall x, y, z | InWorld(x, y, z) ::
        GetBlock(r, x, y, z) == CellBefore(plan, GetBlock(w, x, y, z), s, a, 0, x, y, z)
    {
      r, t := PlantRow(w, s, r, t, plan, a);
      RowWrap(w, s, plan, a, r);
      a := a + 1;
    }
  }

  /** The generated world as a value: the terrain of `height`, then every
      tree planned by a generator seeded with `seed`. */
  function Generated(seed: bv64, height: HeightField): (r: World)
    requires NoiseHeights(height)
    ensures ValidPlanner(TreePlanner(height))
    ensures forall x, y, z | InWorld(x, y, z) ::
      GetBlock(r, x, y, z) == CellBefore(TreePlanner(height), TerrainBlock(height(x, z), y), Create(seed), AnchorsPerAxis, 0, x, y, z)
  {
    TreePlannerValid(height);
    var plan, s0 := TreePlanner(height), Create(seed);
    var cells := seq<Byte>(Volume, i requires 0 <= i < Volume =>
      CellBefore(plan, TerrainBlock(height(CellOf(i).0, CellOf(i).2), CellOf(i).1), s0, AnchorsPerAxis, 0, CellOf(i).0, CellOf(i).1, CellOf(i).2));
    assert |cells| == Volume;
    var r: World := cells;
    assert forall x, y, z | InWorld(x, y, z) ::
        GetBlock(r, x, y, z) == CellBefore(plan, TerrainBlock(height(x, z), y), s0, AnchorsPerAxis, 0, x, y, z) by {
      forall x, y, z | InWorld(x, y, z)
        ensures GetBlock(r, x, y, z) == CellBefore(plan, TerrainBlock(height(x, z), y), s0, AnchorsPerAxis, 0, x, y, z)
      {
        CellOfIndex(x, y, z);
      }
    }
    r
  }

  /** generateWorld(seed): the terrain phase, then the tree phase with a fresh
      generator. The result is determined by the seed and the height field;
      the previous contents of the buffer play no part. */
  method GenerateWorld(w: World, seed: bv64, height: HeightField) returns (r: World)
    requires NoiseHeights(height)
    ensures r == Generated(seed, height)
  {
    var rng := Create(seed);
    var terrain := GenerateTerrain(w, height);
    TreePlannerValid(height);
    var t;
    r, t := PopulateTrees(terrain, rng, TreePlanner(height));
    Extensionality(r, Generated(seed, height));
  }

  /** Seeds that agree on their low 48 bits generate the same world. */
  lemma GenerationUsesLow48SeedBits(a: bv64, b: bv64, height: HeightField)
    requires NoiseHeights(height)
    requires a & 0xFFFF_FFFF_FFFF == b & 0xFFFF_FFFF_FFFF
    ensures Generated(a, height) == Generated(b, height)
  {
    SeedHighBitsIgnored(a, b);
  }
}

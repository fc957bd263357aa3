/** The voxel grid of World.cpp: one flat byte buffer addressed as
    `x + y*WORLD_SIZE + z*WORLD_SIZE*WORLD_HEIGHT`, with unchecked get/set,
    the bounds test and the region fill. */
module Grid {
  import opened Constants
  import opened Geometry

  /** The world buffer: exactly `Volume` block codes. */
  type World = s: seq<Byte> | |s| == Volume witness seq(Volume, _ => Air)

  /** A world in which every cell is AIR (a zero-initialised buffer). */
  function Empty(): (w: World)
    ensures forall i :: 0 <= i < Volume ==> w[i] == Air
  {
    seq(Volume, _ => Air)
  }

  /** The flat offset of cell (x, y, z): x varies fastest, then y, then z. */
  function Index(x: int, y: int, z: int): int {
    x + y * WorldSize + z * WorldSize * WorldHeight
  }

  /** Integer coordinates inside the world box. */
  predicate InWorld(x: int, y: int, z: int) {
    0 <= x < WorldSize && 0 <= y < WorldHeight && 0 <= z < WorldSize
  }

  /** The only thing `setBlock`/`getBlock` actually need: the flat offset lies
      inside the allocated buffer. Out-of-range coordinates whose offset still
      lands in the buffer silently alias another cell. */
  predicate InBuffer(x: int, y: int, z: int) {
    0 <= Index(x, y, z) < Volume
  }

  /** In-world cells have in-buffer offsets, and distinct cells distinct offsets. */
  lemma IndexInBufferAndInjective(x: int, y: int, z: int, x': int, y': int, z': int)
    requires InWorld(x, y, z) && InWorld(x', y', z')
    ensures InBuffer(x, y, z)
    ensures Index(x, y, z) == Index(x', y', z') <==> (x == x' && y == y' && z == z')
  {
  }

  /** The inverse of `Index`: the cell stored at flat offset `i`. */
  function CellOf(i: int): (c: (int, int, int))
    requires 0 <= i < Volume
    ensures InWorld(c.0, c.1, c.2)
    ensures Index(c.0, c.1, c.2) == i
  {
    (i % WorldSize, (i / WorldSize) % WorldHeight, i / (WorldSize * WorldHeight))
  }

  /** `Index` and `CellOf` are mutually inverse on the world box: every offset
      of the buffer belongs to exactly one in-world cell. */
  lemma CellOfIndex(x: int, y: int, z: int)
    requires InWorld(x, y, z)
    ensures 0 <= Index(x, y, z) < Volume
    ensures CellOf(Index(x, y, z)) == (x, y, z)
  {
    var c := CellOf(Index(x, y, z));
    IndexInBufferAndInjective(x, y, z, c.0, c.1, c.2);
  }

  /** getBlock(x, y, z): an unchecked read of the buffer. */
  function GetBlock(w: World, x: int, y: int, z: int): Byte
    requires InBuffer(x, y, z)
  {
    w[Index(x, y, z)]
  }

  /** setBlock(x, y, z, block): an unchecked write of one byte of the buffer.
      Inside the world it changes exactly the addressed cell. */
  function SetBlock(w: World, x: int, y: int, z: int, b: Byte): (r: World)
    requires InBuffer(x, y, z)
    ensures GetBlock(r, x, y, z) == b
    ensures forall i :: 0 <= i < Volume && i != Index(x, y, z) ==> r[i] == w[i]
    ensures InWorld(x, y, z) ==>
      forall x', y', z' | InWorld(x', y', z') && (x', y', z') != (x, y, z) ::
        GetBlock(r, x', y', z') == GetBlock(w, x', y', z')
  {
    var r := w[Index(x, y, z) := b];
    assert InWorld(x, y, z) ==>
      forall x', y', z' | InWorld(x', y', z') && (x', y', z') != (x, y, z) ::
        GetBlock(r, x', y', z') == GetBlock(w, x', y', z')
    by {
      if InWorld(x, y, z) {
        forall x', y', z' | InWorld(x', y', z') && (x', y', z') != (x, y, z)
          ensures GetBlock(r, x', y', z') == GetBlock(w, x', y', z')
        {
          IndexInBufferAndInjective(x, y, z, x', y', z');
        }
      }
    }
    r
  }

  /** Two worlds that agree on every in-world cell are the same buffer. */
  lemma Extensionality(a: World, b: World)
    requires forall x, y, z | InWorld(x, y, z) :: GetBlock(a, x, y, z) == GetBlock(b, x, y, z)
    ensures a == b
  {
    forall i | 0 <= i < Volume
      ensures a[i] == b[i]
    {
      var c := CellOf(i);
      assert GetBlock(a, c.0, c.1, c.2) == GetBlock(b, c.0, c.1, c.2);
    }
  }

  /** isWithinWorld(pos): the half-open box test on a float position. */
  predicate IsWithinWorld(p: Vec3) {
    0.0 <= p.x && 0.0 <= p.y && 0.0 <= p.z &&
    p.x < WorldSize as real && p.y < WorldHeight as real && p.z < WorldSize as real
  }

  /** The bounds test agrees with `InWorld` on integer positions, and a position
      that passes it truncates (as `getBlock(vec3)` does) to an in-world cell. */
  lemma WithinWorldTruncates(p: Vec3)
    ensures IsWithinWorld(p) ==> InWorld(Trunc(p.x), Trunc(p.y), Trunc(p.z))
    ensures p.x == Trunc(p.x) as real && p.y == Trunc(p.y) as real && p.z == Trunc(p.z) as real ==>
      (IsWithinWorld(p) <==> InWorld(Trunc(p.x), Trunc(p.y), Trunc(p.z)))
  {
  }

  /** getBlock(vec3): the float position is truncated to int coordinates. */
  function GetBlockAt(w: World, p: Vec3): Byte
    requires InBuffer(Trunc(p.x), Trunc(p.y), Trunc(p.z))
  {
    GetBlock(w, Trunc(p.x), Trunc(p.y), Trunc(p.z))
  }

  /** Whether the integer cell (x, y, z) lies in the fillBox region spanned by
      float corners p0 (inclusive, truncated) and p1 (exclusive). */
  predicate InBox(p0: Vec3, p1: Vec3, x: int, y: int, z: int) {
    Trunc(p0.x) <= x && (x as real) < p1.x &&
    Trunc(p0.y) <= y && (y as real) < p1.y &&
    Trunc(p0.z) <= z && (z as real) < p1.z
  }

  /** The value fillBox leaves in one cell of the region. */
  function Filled(prev: Byte, blockId: Byte, replace: bool): Byte {
    if replace || prev == Air then blockId else prev
  }

  /** fillBox(blockId, pos0, pos1, replace): writes `blockId` into every cell
      of the half-open box; without `replace` only AIR cells are written. */
  method FillBox(w: World, blockId: Byte, p0: Vec3, p1: Vec3, replace: bool) returns (r: World)
    requires forall x, y, z | InBox(p0, p1, x, y, z) :: InWorld(x, y, z)
    ensures forall x, y, z | InWorld(x, y, z) ::
      GetBlock(r, x, y, z) ==
        if InBox(p0, p1, x, y, z) then Filled(GetBlock(w, x, y, z), blockId, replace)
        else GetBlock(w, x, y, z)
  {
    r := w;
    var x := Trunc(p0.x);
    while (x as real) < p1.x
      invariant Trunc(p0.x) <= x
      invariant forall cx, cy, cz | InWorld(cx, cy, cz) ::
        GetBlock(r, cx, cy, cz) ==
          if InBox(p0, p1, cx, cy, cz) && cx < x then Filled(GetBlock(w, cx, cy, cz), blockId, replace)
          else GetBlock(w, cx, cy, cz)
      decreases p1.x.Floor - x
    {
      var y := Trunc(p0.y);
      while (y as real) < p1.y
        invariant Trunc(p0.y) <= y
        invariant forall cx, cy, cz | InWorld(cx, cy, cz) ::
          GetBlock(r, cx, cy, cz) ==
            if InBox(p0, p1, cx, cy, cz) && (cx < x || (cx == x && cy < y))
            then Filled(GetBlock(w, cx, cy, cz), blockId, replace)
            else GetBlock(w, cx, cy, cz)
        decreases p1.y.Floor - y
      {
        var z := Trunc(p0.z);
        while (z as real) < p1.z
          invariant Trunc(p0.z) <= z
          invariant forall cx, cy, cz | InWorld(cx, cy, cz) ::
            GetBlock(r, cx, cy, cz) ==
              if InBox(p0, p1, cx, cy, cz) && (cx < x || (cx == x && (cy < y || (cy == y && cz < z))))
              then Filled(GetBlock(w, cx, cy, cz), blockId, replace)
              else GetBlock(w, cx, cy, cz)
          decreases p1.z.Floor - z
        {
          assert InBox(p0, p1, x, y, z);
          if replace || GetBlock(r, x, y, z) == Air {
            r := SetBlock(r, x, y, z, blockId);
          }
          z := z + 1;
        }
        y := y + 1;
      }
      x := x + 1;
    }
  }
}

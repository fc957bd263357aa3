/** The player's fixed-step physics of Minecraft4k.cpp: the velocity update of
    one tick, `collidePlayer` (one tentative move per axis, tested against 12
    sample points of the player's box) and the self-excavation that clears the
    cells the player overlaps. Player coordinates are offset by
    (WORLD_SIZE, WORLD_HEIGHT, WORLD_SIZE) from grid coordinates. */
module Physics {
  import opened Constants
  import opened Geometry
  import opened Grid

  datatype Player = Player(pos: Vec3, vel: Vec3)

  /** The keyboard state the tick reads: forward and strafe input in
      {-1, 0, 1} (any real is accepted) and whether jump is held. */
  datatype Controls = Controls(forward: real, right: real, jump: bool)

  // ---------------------------------------------------------------------
  // Axis selection and sample points
  // ---------------------------------------------------------------------

  /** The integer factor `(axisIndex + k) % 3 / 2` that multiplies one
      velocity component in the tentative move (k = 1 for x, 0 for y, 2 for z). */
  function AxisFactor(axisIndex: int, k: int): int
    requires 0 <= axisIndex < 3 && 0 <= k < 3
  {
    (axisIndex + k) % 3 / 2
  }

  /** The position collidePlayer tries on pass `axisIndex`. */
  function Tentative(pl: Player, axisIndex: int): Vec3
    requires 0 <= axisIndex < 3
  {
    Vec3(pl.pos.x + pl.vel.x * AxisFactor(axisIndex, 1) as real,
         pl.pos.y + pl.vel.y * AxisFactor(axisIndex, 0) as real,
         pl.pos.z + pl.vel.z * AxisFactor(axisIndex, 2) as real)
  }

  /** Each pass moves exactly one axis: pass 0 moves z, pass 1 moves x and
      pass 2 moves y (vertical), by that axis's full velocity. */
  lemma AxisSelection(pl: Player, axisIndex: int)
    requires 0 <= axisIndex < 3
    ensures AxisFactor(axisIndex, 0) + AxisFactor(axisIndex, 1) + AxisFactor(axisIndex, 2) == 1
    ensures axisIndex == 0 ==> Tentative(pl, axisIndex) == pl.pos.With(2, pl.pos.z + pl.vel.z)
    ensures axisIndex == 1 ==> Tentative(pl, axisIndex) == pl.pos.With(0, pl.pos.x + pl.vel.x)
    ensures axisIndex == 2 ==> Tentative(pl, axisIndex) == pl.pos.With(1, pl.pos.y + pl.vel.y)
  {
    var f0, f1, f2 := AxisFactor(axisIndex, 0), AxisFactor(axisIndex, 1), AxisFactor(axisIndex, 2);
    var t := Tentative(pl, axisIndex);
    assert t == Vec3(pl.pos.x + pl.vel.x * f1 as real, pl.pos.y + pl.vel.y * f0 as real, pl.pos.z + pl.vel.z * f2 as real);
    if axisIndex == 0 {
      assert f0 == 0 && f1 == 0 && f2 == 1;
    } else if axisIndex == 1 {
      assert f0 == 0 && f1 == 1 && f2 == 0;
    } else {
      assert f0 == 1 && f1 == 0 && f2 == 0;
    }
  }

  /** The offset of sample point i from the player position: x from bit 0,
      z from bit 1, and the layer `(i >> 2) - 1` scaled by 0.8 plus 0.65. */
  function SampleOffset(i: int): Vec3
    requires 0 <= i < 12
  {
    Vec3((i % 2) as real * 0.6 - 0.3, (i / 4 - 1) as real * 0.8 + 0.65, ((i / 2) % 2) as real * 0.6 - 0.3)
  }

  /** The 12 sample points are distinct: the corners of a 0.6-wide box at the
      three heights -0.15, 0.65 and 1.45. */
  lemma SampleOffsetsDistinct(i: int, j: int)
    requires 0 <= i < 12 && 0 <= j < 12
    ensures SampleOffset(i) == SampleOffset(j) <==> i == j
    ensures SampleOffset(i).x == -0.3 || SampleOffset(i).x == 0.3
    ensures SampleOffset(i).z == -0.3 || SampleOffset(i).z == 0.3
    ensures SampleOffset(i).y == -0.15 || SampleOffset(i).y == 0.65 || SampleOffset(i).y == 1.45
  {
  }

  // ---------------------------------------------------------------------
  // Collision
  // ---------------------------------------------------------------------

  /** The grid cell of sample i at position p: the offset is subtracted
      before the float is truncated (Minecraft4k.cpp:413-415). */
  function CollisionCell(p: Vec3, i: int): (int, int, int)
    requires 0 <= i < 12
  {
    var o := SampleOffset(i);
    (Trunc(p.x + o.x - WorldSize as real), Trunc(p.y + o.y - WorldHeight as real), Trunc(p.z + o.z - WorldSize as real))
  }

  /** Whether sample i blocks a move to p: samples above the world top
      (y < 0) are ignored; any other sample outside the world, or on a
      non-AIR cell, blocks. */
  predicate SampleBlocks(w: World, p: Vec3, i: int)
    requires 0 <= i < 12
  {
    var c := CollisionCell(p, i);
    c.1 >= 0 && (!InWorld(c.0, c.1, c.2) || GetBlock(w, c.0, c.1, c.2) != Air)
  }

  /** A move to p is blocked when some sample blocks it. */
  predicate Blocked(w: World, p: Vec3) {
    exists i | 0 <= i < 12 :: SampleBlocks(w, p, i)
  }

  /** The sample loop of Minecraft4k.cpp:411-436: whether any sample blocks. */
  method TestSamples(w: World, p: Vec3) returns (blocked: bool)
    ensures blocked <==> Blocked(w, p)
  {
    var i := 0;
    while i < 12
      invariant 0 <= i <= 12
      invariant forall j | 0 <= j < i :: !SampleBlocks(w, p, j)
    {
      var c := CollisionCell(p, i);
      if c.1 >= 0 {
        if !InWorld(c.0, c.1, c.2) || GetBlock(w, c.0, c.1, c.2) != Air {
          assert SampleBlocks(w, p, i);
          return true;
        }
      }
      i := i + 1;
    }
    return false;
  }

  /** The new vertical velocity when the vertical move is blocked: a jump
      if the player is falling (y grows downward) and holds jump, else a stop. */
  function Landing(vy: real, jump: bool): real {
    if jump && vy > 0.0 then -0.1 else 0.0
  }

  /** collidePlayer as a reference definition: pass `axisIndex` onwards. An
      unblocked pass commits its tentative position; a blocked horizontal
      pass goes on with the next axis; a blocked vertical pass only changes
      the vertical velocity, and ends the call. */
  function CollideFrom(w: World, pl: Player, jump: bool, axisIndex: int): Player
    requires 0 <= axisIndex <= 3
    decreases 3 - axisIndex
  {
    if axisIndex == 3 then pl
    else
      var np := Tentative(pl, axisIndex);
      if !Blocked(w, np) then CollideFrom(w, pl.(pos := np), jump, axisIndex + 1)
      else if axisIndex != 2 then CollideFrom(w, pl, jump, axisIndex + 1)
      else pl.(vel := pl.vel.(y := Landing(pl.vel.y, jump)))
  }

  /** What collidePlayer can do to the player from pass `axisIndex` on:
      horizontal velocity never changes; each coordinate either stays or, if
      its pass is still to come, moves by its full velocity;
      the vertical velocity either stays, or becomes 0 or -0.1 while the
      vertical position stays; and the player never ends up in a blocked
      position unless it did not move at all. */
  lemma {:induction false} CollideEffects(w: World, pl: Player, jump: bool, axisIndex: int)
    requires 0 <= axisIndex <= 3
    ensures var r := CollideFrom(w, pl, jump, axisIndex);
      && r.vel.x == pl.vel.x && r.vel.z == pl.vel.z
      && (r.pos.z == pl.pos.z || (axisIndex == 0 && r.pos.z == pl.pos.z + pl.vel.z))
      && (r.pos.x == pl.pos.x || (axisIndex <= 1 && r.pos.x == pl.pos.x + pl.vel.x))
      && (r.pos.y == pl.pos.y || (r.pos.y == pl.pos.y + pl.vel.y && r.vel.y == pl.vel.y))
      && (r.vel.y == pl.vel.y || r.vel.y == 0.0 || r.vel.y == -0.1)
      && (r.pos == pl.pos || !Blocked(w, r.pos))
    decreases 3 - axisIndex
  {
    if axisIndex < 3 {
      var np := Tentative(pl, axisIndex);
      AxisSelection(pl, axisIndex);
      if !Blocked(w, np) {
        CollideEffects(w, pl.(pos := np), jump, axisIndex + 1);
      } else if axisIndex != 2 {
        CollideEffects(w, pl, jump, axisIndex + 1);
      }
    }
  }

  /** collidePlayer (Minecraft4k.cpp:398-441). The `goto OUTER` of a blocked
      horizontal pass is a jump to the next pass. */
  method CollidePlayer(w: World, pl: Player, jump: bool) returns (r: Player)
    ensures r == CollideFrom(w, pl, jump, 0)
  {
    r := pl;
    var axisIndex := 0;
    while axisIndex < 3
      invariant 0 <= axisIndex <= 3
      invariant CollideFrom(w, r, jump, axisIndex) == CollideFrom(w, pl, jump, 0)
    {
      var np := Tentative(r, axisIndex);
      var blocked := TestSamples(w, np);
      if blocked {
        if axisIndex != 2 {
          axisIndex := axisIndex + 1;
          continue;
        }
        r := r.(vel := r.vel.(y := Landing(r.vel.y, jump)));
        return;
      }
      r := r.(pos := np);
      axisIndex := axisIndex + 1;
    }
  }

  // ---------------------------------------------------------------------
  // One tick
  // ---------------------------------------------------------------------

  /** The velocity update of one tick (Minecraft4k.cpp:483-492): damping,
      the yaw-rotated input, and gravity (+y is down). */
  function Accelerate(v: Vec3, c: Controls, sinYaw: real, cosYaw: real): Vec3 {
    var inputX := c.right * 0.02;
    var inputZ := c.forward * 0.02;
    var hx := v.x * 0.5;
    var hz := v.z * 0.5;
    Vec3(hx + (sinYaw * inputZ + cosYaw * inputX),
         v.y * 0.99 + 0.003,
         hz + (cosYaw * inputZ - sinYaw * inputX))
  }

  /** The tick's velocity update: horizontal velocity is halved and then
      pushed by the input rotated by the yaw, whose length is 0.02 times the
      input's length; vertical velocity relaxes geometrically toward the
      terminal fall speed 0.3; with no input, horizontal velocity just halves. */
  lemma AccelerateEffect(v: Vec3, c: Controls, sinYaw: real, cosYaw: real)
    requires sinYaw * sinYaw + cosYaw * cosYaw == 1.0
    ensures var r := Accelerate(v, c, sinYaw, cosYaw);
      && (r.x - v.x / 2.0) * (r.x - v.x / 2.0) + (r.z - v.z / 2.0) * (r.z - v.z / 2.0)
         == 0.0004 * (c.forward * c.forward + c.right * c.right)
      && r.y - 0.3 == 0.99 * (v.y - 0.3)
      && (c.forward == 0.0 && c.right == 0.0 ==> r.x == v.x / 2.0 && r.z == v.z / 2.0)
  {
    var r := Accelerate(v, c, sinYaw, cosYaw);
    var f, s := c.forward * 0.02, c.right * 0.02;
    assert r.x - v.x / 2.0 == sinYaw * f + cosYaw * s;
    assert r.z - v.z / 2.0 == cosYaw * f - sinYaw * s;
    calc {
      (sinYaw * f + cosYaw * s) * (sinYaw * f + cosYaw * s) + (cosYaw * f - sinYaw * s) * (cosYaw * f - sinYaw * s);
      (sinYaw * sinYaw + cosYaw * cosYaw) * (f * f) + (sinYaw * sinYaw + cosYaw * cosYaw) * (s * s);
      f * f + s * s;
    }
  }

  /** The excavated cell of sample i at position p: here the float is
      truncated before the offset is subtracted (Minecraft4k.cpp:498-500). */
  function ExcavationCell(p: Vec3, i: int): (int, int, int)
    requires 0 <= i < 12
  {
    var o := SampleOffset(i);
    (Trunc(p.x + o.x) - WorldSize, Trunc(p.y + o.y) - WorldHeight, Trunc(p.z + o.z) - WorldSize)
  }

  /** Whether (x, y, z) is one of the player's excavation cells. */
  predicate Excavated(p: Vec3, x: int, y: int, z: int) {
    exists i | 0 <= i < 12 :: ExcavationCell(p, i) == (x, y, z)
  }

  /** The excavation loop of Minecraft4k.cpp:497-505: every in-world
      excavation cell becomes AIR and nothing else changes. */
  method Excavate(w: World, p: Vec3) returns (r: World)
    ensures forall x, y, z | InWorld(x, y, z) ::
      GetBlock(r, x, y, z) == if Excavated(p, x, y, z) then Air else GetBlock(w, x, y, z)
  {
    r := w;
    var i := 0;
    while i < 12
      invariant 0 <= i <= 12
      invariant forall x, y, z | InWorld(x, y, z) ::
        GetBlock(r, x, y, z) ==
          if exists j | 0 <= j < i :: ExcavationCell(p, j) == (x, y, z) then Air else GetBlock(w, x, y, z)
    {
      var c := ExcavationCell(p, i);
      if InWorld(c.0, c.1, c.2) {
        r := SetBlock(r, c.0, c.1, c.2, Air);
      }
      i := i + 1;
    }
  }

  /** Collision and excavation agree where the sampled coordinates are at
      least the world offset, but not just below it: at x = 511.5 collision
      tests grid column 0 while excavation clears column -1. */
  lemma CollisionAndExcavationCellsDiffer(p: Vec3, i: int)
    requires 0 <= i < 12
    ensures var o := SampleOffset(i);
      p.x + o.x >= WorldSize as real && p.y + o.y >= WorldHeight as real && p.z + o.z >= WorldSize as real ==>
        CollisionCell(p, i) == ExcavationCell(p, i)
    ensures CollisionCell(Vec3(511.8, 100.0, 600.0), 0).0 == 0
    ensures ExcavationCell(Vec3(511.8, 100.0, 600.0), 0).0 == -1
  {
    var o := SampleOffset(i);
    TruncShift(p.x + o.x, WorldSize);
    TruncShift(p.y + o.y, WorldHeight);
    TruncShift(p.z + o.z, WorldSize);
  }

  /** Subtracting an integer below a non-negative value commutes with truncation. */
  lemma TruncShift(v: real, n: int)
    ensures v >= n as real && n >= 0 ==> Trunc(v - n as real) == Trunc(v) - n
  {
    if v >= n as real && n >= 0 {
      assert (v - n as real).Floor == v.Floor - n;
    }
  }

  /** One fixed step of the update loop in `run` (Minecraft4k.cpp:481-508):
      accelerate, collide, then excavate around the new position. */
  method Tick(w: World, pl: Player, c: Controls, sinYaw: real, cosYaw: real) returns (w': World, pl': Player)
    ensures pl' == CollideFrom(w, pl.(vel := Accelerate(pl.vel, c, sinYaw, cosYaw)), c.jump, 0)
    ensures forall x, y, z | InWorld(x, y, z) ::
      GetBlock(w', x, y, z) == if Excavated(pl'.pos, x, y, z) then Air else GetBlock(w, x, y, z)
  {
    pl' := CollidePlayer(w, pl.(vel := Accelerate(pl.vel, c, sinYaw, cosYaw)), c.jump);
    w' := Excavate(w, pl'.pos);
  }
}

/** The procedural texture atlas of TextureGenerator.cpp (non-classic
    branch): for block types 1..15, a 16 x 48 tile (top, side and bottom
    faces stacked) of packed ARGB texels, each a tint scaled by a greyscale
    detail value ("gsd") drawn from a generator with a fixed seed. */
module Textures {
  import opened Constants
  import opened Util

  /** The seed of `Random rand = Random(151910774187927L)`. */
  const TextureSeed: bv64 := 151910774187927

  /** Rows of one tile (3 x TextureRes): top, side and bottom faces. */
  const TileHeight: int := 48
  /** Texels of one tile, TextureRes x TileHeight. */
  const TileSize: int := 768
  /** Tiles of the atlas, one per block code 0..15. */
  const Tiles: int := 16
  /** Texels of the atlas, Tiles x TileSize. */
  const AtlasSize: int := 12288

  /** The offset of texel (x, y) inside its tile. */
  function TileIndex(x: int, y: int): int {
    x + 16 * y
  }

  /** The atlas offset of texel (x, y) of block type bt. */
  function AtlasIndex(bt: int, x: int, y: int): int {
    TileIndex(x, y) + 768 * bt
  }

  predicate InTile(bt: int, x: int, y: int) {
    0 <= bt < Tiles && 0 <= x < TextureRes && 0 <= y < TileHeight
  }

  /** Every texel of every tile has its own offset inside the atlas. */
  lemma AtlasIndexInjective(bt: int, x: int, y: int, bt': int, x': int, y': int)
    requires InTile(bt, x, y) && InTile(bt', x', y')
    ensures 0 <= AtlasIndex(bt, x, y) < AtlasSize
    ensures AtlasIndex(bt, x, y) == AtlasIndex(bt', x', y') <==> (bt, x, y) == (bt', x', y')
  {
  }

  // ---------------------------------------------------------------------
  // Packing
  // ---------------------------------------------------------------------

  /** C++ `/` on int: the quotient truncated toward zero. */
  function Quot(a: int, b: int): (q: int)
    requires b > 0
    ensures a >= 0 ==> q == a / b
  {
    if a >= 0 then a / b else -((-a) / b)
  }

  /** The channel of `tint` at bit offset `shift` (`tint >> shift & 0xFF`). */
  function TintChannel(tint: int, shift: int): (c: int)
    requires 0 <= tint < 0x100_0000 && (shift == 0 || shift == 8 || shift == 16)
    ensures 0 <= c < 0x100
  {
    (tint / (if shift == 16 then 0x1_0000 else if shift == 8 then 0x100 else 1)) % 0x100
  }

  lemma MulMonotone(a: int, b: int, c: int)
    requires 0 <= a <= b && 0 <= c
    ensures 0 <= a * c <= b * c
  {
  }

  /** One scaled channel, `channel * gsd / 0xFF`. */
  function Scaled(tint: int, shift: int, gsd: int): (c: int)
    requires 0 <= tint < 0x100_0000 && (shift == 0 || shift == 8 || shift == 16)
    requires 0 <= gsd < 0x200
    ensures 0 <= c < 0x200
    ensures gsd <= 0xFF ==> c <= TintChannel(tint, shift)
  {
    var ch := TintChannel(tint, shift);
    MulMonotone(ch, 0xFF, gsd);
    if gsd <= 0xFF then
      MulMonotone(gsd, 0xFF, ch);
      ch * gsd / 0xFF
    else ch * gsd / 0xFF
  }

  /** The packed texel of TextureGenerator.cpp:207-210: alpha 0xFF unless the
      tint is black, and the three tint channels scaled by gsd, OR-ed
      together as a 32-bit word. */
  function Pack(tint: int, gsd: int): bv32
    requires 0 <= tint < 0x100_0000 && 0 <= gsd < 0x200
  {
    var a: bv32 := if tint % 0x100_0000 == 0 then 0 else 0xFF;
    var r := Scaled(tint, 16, gsd) as bv32;
    var g := Scaled(tint, 8, gsd) as bv32;
    var b := Scaled(tint, 0, gsd) as bv32;
    (a << 24) | (r << 16) | (g << 8) | b
  }

  /** Bit-level facts behind the packing, on 9-bit channels. */
  lemma PackBits(a: bv32, r: bv32, g: bv32, b: bv32)
    requires a == 0 || a == 0xFF
    requires r < 0x200 && g < 0x200 && b < 0x200
    ensures var c := (a << 24) | (r << 16) | (g << 8) | b;
      && (a == 0xFF ==> c >> 24 == 0xFF)
      && (a == 0 && r < 0x100 ==> c >> 24 == 0)
      && (r < 0x100 && g < 0x100 && b < 0x100 ==>
            (c >> 16) & 0xFF == r && (c >> 8) & 0xFF == g && c & 0xFF == b)
  {
  }

  /** A channel value below 0x200 keeps its size as a 32-bit word. */
  lemma Narrow(v: int)
    requires 0 <= v < 0x200
    ensures v as bv32 < 0x200
    ensures v < 0x100 ==> v as bv32 < 0x100
    ensures v == 0 ==> v as bv32 == 0
  {
  }

  /** The three scaled channels each fit in their byte. */
  predicate ChannelsFit(tint: int, gsd: int)
    requires 0 <= tint < 0x100_0000 && 0 <= gsd < 0x200
  {
    Scaled(tint, 16, gsd) < 0x100 && Scaled(tint, 8, gsd) < 0x100 && Scaled(tint, 0, gsd) < 0x100
  }

  /** The alpha byte is 0xFF exactly when the tint is not black, for every
      gsd below 0x200; when the scaled channels fit in a byte (always so for
      gsd at most 0xFF) the red, green and blue bytes hold them unmixed. */
  lemma PackFields(tint: int, gsd: int)
    requires 0 <= tint < 0x100_0000 && 0 <= gsd < 0x200
    ensures Pack(tint, gsd) >> 24 == if tint != 0 then 0xFF else 0
    ensures gsd <= 0xFF ==> ChannelsFit(tint, gsd)
    ensures ChannelsFit(tint, gsd) ==>
      && (Pack(tint, gsd) >> 16) & 0xFF == Scaled(tint, 16, gsd) as bv32
      && (Pack(tint, gsd) >> 8) & 0xFF == Scaled(tint, 8, gsd) as bv32
      && Pack(tint, gsd) & 0xFF == Scaled(tint, 0, gsd) as bv32
  {
    var r, g, b := Scaled(tint, 16, gsd), Scaled(tint, 8, gsd), Scaled(tint, 0, gsd);
    Narrow(r);
    Narrow(g);
    Narrow(b);
    if tint == 0 {
      assert r == 0;
      PackBits(0, r as bv32, g as bv32, b as bv32);
    } else {
      PackBits(0xFF, r as bv32, g as bv32, b as bv32);
    }
  }

  /** A black tint packs to the all-zero, fully transparent word. */
  lemma PackBlack(gsd: int)
    requires 0 <= gsd < 0x200
    ensures Pack(0, gsd) == 0
  {
  }

  // ---------------------------------------------------------------------
  // The per-texel rule
  // ---------------------------------------------------------------------

  /** The generator and the running `gsd_tempA` between texels. */
  datatype Gen = Gen(rng: State, gsd: int)

  /** A texel before packing: its tint and its final greyscale detail. */
  datatype Texel = Texel(tint: int, gsd: int)

  /** `0xFF - rand.nextInt(0x60)`: a fresh greyscale detail. */
  function FreshGsd(s: State): (g: Gen)
    ensures g.rng == Step(s)
    ensures 0xA0 <= g.gsd <= 0xFF
  {
    var d := NextInt(s, 0x60);
    Gen(d.state, 0xFF - d.value)
  }

  /** TextureGenerator.cpp:27-28: every block but stone draws a fresh gsd per
      texel; stone draws `nextInt(3)` first and redraws only on 0. */
  function Redraw(bt: int, g: Gen): Gen {
    if bt != Stone then FreshGsd(g.rng)
    else
      var t := NextInt(g.rng, 3);
      if t.value == 0 then FreshGsd(t.state) else Gen(t.state, g.gsd)
  }

  /** The grass edge height of column x: `(x*x*3 + x*81 >> 2) & 3`. */
  function GrassEdge(x: int): int
    requires x >= 0
  {
    ((x * x * 3 + x * 81) / 4) % 4
  }

  /** The light end-grain area of a wood tile: top and bottom faces without
      their one-texel border. */
  predicate WoodFace(x: int, y: int) {
    !(TextureRes <= y < TextureRes * 2) && 0 < x < TextureRes - 1 &&
    ((0 < y < TextureRes - 1) || (TextureRes * 2 < y < TextureRes * 3 - 1))
  }

  /** The annual-ring distance: the larger of the folded distances of x and
      y (within its face) from the tile centre 7. */
  function RingDistance(x: int, y: int): (d: int)
    requires y >= 0
    ensures d >= 0
  {
    var c := TextureRes / 2 - 1;
    var dx0 := x - c;
    var dy0 := y % TextureRes - c;
    var dx := if dx0 < 0 then 1 - dx0 else dx0;
    var dy := if dy0 < 0 then 1 - dy0 else dy0;
    if dy > dx then dy else dx
  }

  /** The mortar lines of a brick tile. */
  predicate Mortar(x: int, y: int)
    requires x >= 0 && y >= 0
  {
    (x + y / 4 * 4) % 8 == 0 || y % 4 == 0
  }

  const DirtTint: int := 0x966C4A
  const StoneTint: int := 0x7F7F7F
  const GrassTint: int := 0x6AAA40
  const BarkTint: int := 0x675231
  const EndGrainTint: int := 0xBC9862
  const BrickTint: int := 0xB53A15
  const MortarTint: int := 0xBCAFA5
  const LeafTint: int := 0x50D937

  /** The switch of TextureGenerator.cpp:30-89 for block bt at (x, y), from
      the generator and gsd after the redraw: the tint, and the generator and
      `gsd_tempA` after the switch. From a fresh gsd the result stays within
      [0, 382], and within a byte except for wood; stone keeps it. */
  function Surface(bt: int, x: int, y: int, g1: Gen): (s: (int, Gen))
    requires 0 <= x < TextureRes && 0 <= y < TileHeight
    ensures 0 <= s.0 < 0x100_0000
    ensures 0xA0 <= g1.gsd <= 0xFF ==>
      && 0 <= s.1.gsd <= 382
      && (bt != Wood ==> s.1.gsd <= 0xFF)
      && (bt == Stone ==> s.1.gsd == g1.gsd)
      && (bt == Wood && WoodFace(x, y) ==> s.1.gsd <= 260)
  {
    if bt == Stone then (StoneTint, g1)
    else if bt == Grass then
      if y < GrassEdge(x) + 18 then (GrassTint, g1)
      else if y < GrassEdge(x) + 19 then (DirtTint, Gen(g1.rng, Quot(g1.gsd * 2, 3)))
      else (DirtTint, g1)
    else if bt == Wood then
      if WoodFace(x, y) then
        var d := NextInt(g1.rng, 32);
        (EndGrainTint, Gen(d.state, 196 - d.value + RingDistance(x, y) % 3 * 32))
      else
        var d := NextInt(g1.rng, 2);
        if d.value == 0 then
          BarkRange(g1.gsd, x);
          (BarkTint, Gen(d.state, Quot(g1.gsd * (150 - (x % 2) * 100), 100)))
        else (BarkTint, Gen(d.state, g1.gsd))
    else if bt == Bricks then (if Mortar(x, y) then MortarTint else BrickTint, g1)
    else (DirtTint, g1)
  }

  /** The texel rule of TextureGenerator.cpp:27-102 for block bt at (x, y):
      returns the texel's tint and gsd, and the generator and `gsd_tempA`
      after it. */
  function Shade(bt: int, x: int, y: int, g: Gen): (Texel, Gen)
    requires 0 <= x < TextureRes && 0 <= y < TileHeight
  {
    var g1 := Redraw(bt, g);
    var (tint, g2) := Surface(bt, x, y, g1);
    var shaded := if y >= TextureRes * 2 then Quot(g2.gsd, 2) else g2.gsd;
    if bt == Leaves then
      var d := NextInt(g2.rng, 2);
      if d.value == 0 then (Texel(0, 0xFF), Gen(d.state, g2.gsd))
      else (Texel(LeafTint, shaded), Gen(d.state, g2.gsd))
    else (Texel(tint, shaded), g2)
  }

  /** The range `gsd_tempA` stays in: fresh values are 160..255 and the
      largest rescaling is the bark's 150%. */
  predicate GoodGen(g: Gen) {
    0 <= g.gsd <= 382
  }

  /** The bark rescaling keeps a fresh gsd within [80, 382]. */
  lemma BarkRange(gsd: int, x: int)
    requires x >= 0
    ensures 0xA0 <= gsd <= 0xFF ==> 80 <= Quot(gsd * (150 - (x % 2) * 100), 100) <= 382
  {
    if x % 2 == 0 {
      assert gsd * (150 - (x % 2) * 100) == gsd * 150;
    } else {
      assert gsd * (150 - (x % 2) * 100) == gsd * 50;
    }
  }

  /** Over generator states the atlas loop reaches, every texel's gsd is in
      [0, 382] (at most 255 except for wood) and its tint a 24-bit colour, the
      running gsd stays in range, and for stone it stays a fresh value. */
  lemma ShadeBounds(bt: int, x: int, y: int, g: Gen)
    requires 0 <= x < TextureRes && 0 <= y < TileHeight && GoodGen(g)
    requires bt == Stone ==> 0xA0 <= g.gsd <= 0xFF
    ensures var (t, g') := Shade(bt, x, y, g);
      && 0 <= t.tint < 0x100_0000 && 0 <= t.gsd <= 382 && GoodGen(g')
      && (bt != Wood ==> t.gsd <= 0xFF)
      && (bt == Stone ==> 0xA0 <= g'.gsd <= 0xFF)
  {
    var g1 := Redraw(bt, g);
    assert 0xA0 <= g1.gsd <= 0xFF;
    var (tint, g2) := Surface(bt, x, y, g1);
    assert 0 <= g2.gsd <= 382;
  }

  /** Every texel the atlas loop produces packs without its channels
      spilling into each other: even the brightened bark (gsd up to 382)
      and the end grain (up to 260) stay below 0x100 per channel, thanks to
      their dark tints. */
  lemma TexelFits(bt: int, x: int, y: int, g: Gen)
    requires 0 <= x < TextureRes && 0 <= y < TileHeight && GoodGen(g)
    requires bt == Stone ==> 0xA0 <= g.gsd <= 0xFF
    ensures var (t, _) := Shade(bt, x, y, g);
      0 <= t.tint < 0x100_0000 && 0 <= t.gsd < 0x200 && ChannelsFit(t.tint, t.gsd)
  {
    ShadeBounds(bt, x, y, g);
    var (t, _) := Shade(bt, x, y, g);
    if bt == Wood {
      var g1 := Redraw(bt, g);
      var (_, g2) := Surface(bt, x, y, g1);
      assert t.gsd <= g2.gsd;
      if WoodFace(x, y) {
        assert t.tint == EndGrainTint && t.gsd <= 260;
        EndGrainFits(t.gsd);
      } else {
        assert t.tint == BarkTint;
        BarkFits(t.gsd);
      }
    } else {
      PackFields(t.tint, t.gsd);
    }
  }

  lemma EndGrainFits(gsd: int)
    requires 0 <= gsd <= 260
    ensures ChannelsFit(EndGrainTint, gsd)
  {
    assert TintChannel(EndGrainTint, 16) == 0xBC;
    assert TintChannel(EndGrainTint, 8) == 0x98;
    assert TintChannel(EndGrainTint, 0) == 0x62;
  }

  lemma BarkFits(gsd: int)
    requires 0 <= gsd <= 382
    ensures ChannelsFit(BarkTint, gsd)
  {
    assert TintChannel(BarkTint, 16) == 0x67;
    assert TintChannel(BarkTint, 8) == 0x52;
    assert TintChannel(BarkTint, 0) == 0x31;
  }

  /** The packed texel and the generator after it. */
  function Pixel(bt: int, x: int, y: int, g: Gen): (bv32, Gen)
    requires 0 <= x < TextureRes && 0 <= y < TileHeight && GoodGen(g)
    requires bt == Stone ==> 0xA0 <= g.gsd <= 0xFF
  {
    ShadeBounds(bt, x, y, g);
    var (t, g') := Shade(bt, x, y, g);
    (Pack(t.tint, t.gsd), g')
  }

  /** The draws one texel makes: one for the gsd (two for stone when its
      `nextInt(3)` is 0, one otherwise), plus one for wood and one for leaves. */
  lemma ShadeDraws(bt: int, x: int, y: int, g: Gen)
    requires 0 <= x < TextureRes && 0 <= y < TileHeight
    ensures var n := (if bt == Stone && NextInt(g.rng, 3).value == 0 then 2 else 1)
                     + (if bt == Wood || bt == Leaves then 1 else 0);
      Shade(bt, x, y, g).1.rng == Advance(g.rng, n)
  {
  }

  /** Stone keeps the running gsd unless its `nextInt(3)` draw is 0; every
      other block redraws it on every texel. */
  lemma RedrawRule(bt: int, g: Gen)
    ensures bt != Stone ==> Redraw(bt, g) == FreshGsd(g.rng)
    ensures bt == Stone && NextInt(g.rng, 3).value != 0 ==> Redraw(bt, g).gsd == g.gsd
    ensures bt == Stone && NextInt(g.rng, 3).value == 0 ==> Redraw(bt, g) == FreshGsd(NextInt(g.rng, 3).state)
  {
  }

  /** Per-block tints: stone grey; bricks mortar-coloured exactly on the
      mortar lines; blocks without a case of their own dirt brown. */
  lemma BlockTints(bt: int, x: int, y: int, g: Gen)
    requires 0 <= x < TextureRes && 0 <= y < TileHeight
    ensures bt == Stone ==> Shade(bt, x, y, g).0.tint == StoneTint
    ensures bt == Bricks ==> (Shade(bt, x, y, g).0.tint == MortarTint <==> Mortar(x, y))
    ensures bt == Bricks ==> (Shade(bt, x, y, g).0.tint == BrickTint <==> !Mortar(x, y))
    ensures bt != Stone && bt != Grass && bt != Wood && bt != Bricks && bt != Leaves ==>
      Shade(bt, x, y, g).0.tint == DirtTint
  {
  }

  /** Grass is green above its ragged edge; the row just below the edge is
      darkened to two thirds; below that it is dirt. */
  lemma GrassRule(x: int, y: int, g: Gen)
    requires 0 <= x < TextureRes && 0 <= y < TileHeight
    ensures var (t, g') := Shade(Grass, x, y, g);
      && (t.tint == GrassTint <==> y < GrassEdge(x) + 18)
      && (y == GrassEdge(x) + 18 ==> g'.gsd == FreshGsd(g.rng).gsd * 2 / 3)
      && (y != GrassEdge(x) + 18 ==> g'.gsd == FreshGsd(g.rng).gsd)
  {
  }

  /** Wood: the end-grain area gets the light tint and a ring-banded gsd
      from one `nextInt(32)`; the bark draws `nextInt(2)` and on 0 brightens
      even columns by half and darkens odd ones by half. */
  lemma WoodRule(x: int, y: int, g: Gen)
    requires 0 <= x < TextureRes && 0 <= y < TileHeight
    ensures var (t, g') := Shade(Wood, x, y, g);
      var g1 := FreshGsd(g.rng);
      && (t.tint == EndGrainTint <==> WoodFace(x, y))
      && (WoodFace(x, y) ==> g'.gsd == 196 - NextInt(g1.rng, 32).value + RingDistance(x, y) % 3 * 32)
      && (!WoodFace(x, y) && NextInt(g1.rng, 2).value == 0 ==>
            g'.gsd == g1.gsd * (if x % 2 == 0 then 150 else 50) / 100)
      && (!WoodFace(x, y) && NextInt(g1.rng, 2).value != 0 ==> g'.gsd == g1.gsd)
  {
    var g1 := FreshGsd(g.rng);
    assert Redraw(Wood, g) == g1;
    var factor := 150 - (x % 2) * 100;
    assert factor == if x % 2 == 0 then 150 else 50;
    assert g1.gsd * factor >= 0;
  }

  /** Leaves: after the gsd draw, a `nextInt(2)` of 0 makes the texel fully
      transparent (it packs to 0); otherwise it is leaf green. */
  lemma LeavesRule(x: int, y: int, g: Gen)
    requires 0 <= x < TextureRes && 0 <= y < TileHeight
    ensures var (t, _) := Shade(Leaves, x, y, g);
      var d := NextInt(FreshGsd(g.rng).rng, 2);
      && (d.value == 0 ==> t == Texel(0, 0xFF) && Pack(t.tint, t.gsd) == 0)
      && (d.value != 0 ==> t.tint == LeafTint)
  {
    var d := NextInt(FreshGsd(g.rng).rng, 2);
    if d.value == 0 {
      PackBlack(0xFF);
    }
  }

  /** The bottom face (rows 32..47) is shaded with half the running gsd; the
      other faces use it unchanged (transparent leaf texels aside). */
  lemma BottomRowsDarker(bt: int, x: int, y: int, g: Gen)
    requires 0 <= x < TextureRes && 0 <= y < TileHeight && GoodGen(g)
    requires bt == Stone ==> 0xA0 <= g.gsd <= 0xFF
    ensures var (t, g') := Shade(bt, x, y, g);
      t.tint != 0 ==> t.gsd == if y >= TextureRes * 2 then g'.gsd / 2 else g'.gsd
  {
    ShadeBounds(bt, x, y, g);
  }

  // ---------------------------------------------------------------------
  // The atlas
  // ---------------------------------------------------------------------

  /** A generator state a texel of block bt may start from. */
  predicate Ready(bt: int, g: Gen) {
    GoodGen(g) && (bt == Stone ==> 0xA0 <= g.gsd <= 0xFF)
  }

  /** What the texel loops do at one texel: its packed value and the
      generator after it. */
  type Painter = (int, int, int, Gen) --> (bv32, Gen)

  /** A painter usable at every texel of the atlas that keeps the generator
      ready for the next one. */
  ghost predicate ValidPainter(paint: Painter) {
    forall bt: int, x: int, y: int, g: Gen |
      1 <= bt < Tiles && 0 <= x < TextureRes && 0 <= y < TileHeight && Ready(bt, g) ::
      paint.requires(bt, x, y, g) && Ready(bt, paint(bt, x, y, g).1)
  }

  /** The painter of TextureGenerator.cpp:20-213. */
  function PixelPainter(): Painter {
    (bt: int, x: int, y: int, g: Gen) requires 0 <= x < TextureRes && 0 <= y < TileHeight && Ready(bt, g) =>
      Pixel(bt, x, y, g)
  }

  lemma PixelPainterValid()
    ensures ValidPainter(PixelPainter())
  {
    forall bt: int, x: int, y: int, g: Gen |
      1 <= bt < Tiles && 0 <= x < TextureRes && 0 <= y < TileHeight && Ready(bt, g)
      ensures Ready(bt, PixelPainter()(bt, x, y, g).1)
    {
      ShadeBounds(bt, x, y, g);
    }
  }

  /** The generator and running gsd just before texel (x, y) of block bt
      when the loops start from generator state s0: they run bt from 1, then
      y, then x, each block starting with a fresh gsd
      (TextureGenerator.cpp:16-20). */
  function GenAt(paint: Painter, s0: State, bt: int, y: int, x: int): (g: Gen)
    requires ValidPainter(paint)
    requires 1 <= bt < Tiles && 0 <= y < TileHeight && 0 <= x < TextureRes
    ensures Ready(bt, g)
    decreases bt, y, x
  {
    if x > 0 then paint(bt, x - 1, y, GenAt(paint, s0, bt, y, x - 1)).1
    else if y > 0 then paint(bt, TextureRes - 1, y - 1, GenAt(paint, s0, bt, y - 1, TextureRes - 1)).1
    else if bt == 1 then FreshGsd(s0)
    else FreshGsd(TileEnd(paint, s0, bt - 1).rng)
  }

  /** The generator after the last texel of block bt. */
  function TileEnd(paint: Painter, s0: State, bt: int): Gen
    requires ValidPainter(paint) && 1 <= bt < Tiles
    decreases bt, TileHeight, 0
  {
    paint(bt, TextureRes - 1, TileHeight - 1, GenAt(paint, s0, bt, TileHeight - 1, TextureRes - 1)).1
  }

  /** The packed value a painter leaves at texel (x, y) of block bt. */
  function Painted(paint: Painter, s0: State, bt: int, x: int, y: int): bv32
    requires ValidPainter(paint)
    requires 1 <= bt < Tiles && 0 <= x < TextureRes && 0 <= y < TileHeight
  {
    paint(bt, x, y, GenAt(paint, s0, bt, y, x)).0
  }

  /** The packed texel the atlas holds for (bt, x, y). */
  function TexelAt(bt: int, x: int, y: int): bv32
    requires 1 <= bt < Tiles && 0 <= x < TextureRes && 0 <= y < TileHeight
  {
    PixelPainterValid();
    Pixel(bt, x, y, GenAt(PixelPainter(), Create(TextureSeed), bt, y, x)).0
  }

  /** Where an element of either part of a concatenation lands. */
  lemma ConcatAt(prev: seq<bv32>, next: seq<bv32>, i: int)
    requires 0 <= i < |prev| + |next|
    ensures i < |prev| ==> (prev + next)[i] == prev[i]
    ensures i >= |prev| ==> (prev + next)[i] == next[i - |prev|]
  {
  }

  /** Appending leaves a prefix of the first part as it was. */
  lemma PrefixKept(prev: seq<bv32>, next: seq<bv32>, n: int)
    requires 0 <= n <= |prev|
    ensures (prev + next)[..n] == prev[..n]
  {
  }

  /** The unpacked texel the atlas loop computes for (bt, x, y). */
  function TexelShade(bt: int, x: int, y: int): (t: Texel)
    requires 1 <= bt < Tiles && 0 <= x < TextureRes && 0 <= y < TileHeight
    ensures 0 <= t.tint < 0x100_0000 && 0 <= t.gsd < 0x200 && ChannelsFit(t.tint, t.gsd)
  {
    PixelPainterValid();
    var g := GenAt(PixelPainter(), Create(TextureSeed), bt, y, x);
    TexelFits(bt, x, y, g);
    Shade(bt, x, y, g).0
  }

  /** Reading an atlas texel back: its alpha byte is 0xFF exactly when the
      texel's tint is not black, and its red, green and blue bytes are the
      tint's channels scaled by the texel's gsd. */
  lemma TexelDecodes(bt: int, x: int, y: int)
    requires 1 <= bt < Tiles && 0 <= x < TextureRes && 0 <= y < TileHeight
    ensures var t := TexelShade(bt, x, y);
      && TexelAt(bt, x, y) >> 24 == (if t.tint != 0 then 0xFF else 0)
      && (TexelAt(bt, x, y) >> 16) & 0xFF == Scaled(t.tint, 16, t.gsd) as bv32
      && (TexelAt(bt, x, y) >> 8) & 0xFF == Scaled(t.tint, 8, t.gsd) as bv32
      && TexelAt(bt, x, y) & 0xFF == Scaled(t.tint, 0, t.gsd) as bv32
  {
    var t := TexelShade(bt, x, y);
    assert TexelAt(bt, x, y) == Pack(t.tint, t.gsd);
    PackFields(t.tint, t.gsd);
  }

  /** One row of a tile: texels (0, y) .. (15, y) of block bt. */
  method ShadeRow(paint: Painter, s0: State, bt: int, y: int, g: Gen) returns (row: seq<bv32>, g': Gen)
    requires ValidPainter(paint)
    requires 1 <= bt < Tiles && 0 <= y < TileHeight && g == GenAt(paint, s0, bt, y, 0)
    ensures |row| == TextureRes
    ensures forall x | 0 <= x < TextureRes :: row[x] == Painted(paint, s0, bt, x, y)
    ensures g' == paint(bt, TextureRes - 1, y, GenAt(paint, s0, bt, y, TextureRes - 1)).1
  {
    row := [];
    g' := g;
    var x := 0;
    while x < TextureRes
      invariant 0 <= x <= TextureRes && |row| == x
      invariant forall x' | 0 <= x' < x :: row[x'] == Painted(paint, s0, bt, x', y)
      invariant x < TextureRes ==> g' == GenAt(paint, s0, bt, y, x)
      invariant x == TextureRes ==> g' == paint(bt, TextureRes - 1, y, GenAt(paint, s0, bt, y, TextureRes - 1)).1
    {
      var p := paint(bt, x, y, g');
      row := row + [p.0];
      g' := p.1;
      x := x + 1;
    }
  }

  /** Appending row y after rows 0..y-1 extends the painted prefix of a
      tile. */
  lemma AppendRow(paint: Painter, s0: State, prev: seq<bv32>, row: seq<bv32>, bt: int, y: int)
    requires ValidPainter(paint) && 1 <= bt < Tiles && 0 <= y < TileHeight
    requires |prev| == 16 * y && |row| == TextureRes
    requires forall x, y' | 0 <= x < TextureRes && 0 <= y' < y ::
      prev[TileIndex(x, y')] == Painted(paint, s0, bt, x, y')
    requires forall x | 0 <= x < TextureRes :: row[x] == Painted(paint, s0, bt, x, y)
    ensures forall x, y' | 0 <= x < TextureRes && 0 <= y' < y + 1 ::
      (prev + row)[TileIndex(x, y')] == Painted(paint, s0, bt, x, y')
  {
    forall x, y' | 0 <= x < TextureRes && 0 <= y' < y + 1
      ensures (prev + row)[TileIndex(x, y')] == Painted(paint, s0, bt, x, y')
    {
      ConcatAt(prev, row, TileIndex(x, y'));
      if y' == y {
        assert TileIndex(x, y') - |prev| == x;
      }
    }
  }

  /** One tile: its 48 rows, top face first. */
  method ShadeTile(paint: Painter, s0: State, bt: int, g: Gen) returns (tile: seq<bv32>, g': Gen)
    requires ValidPainter(paint)
    requires 1 <= bt < Tiles && g == GenAt(paint, s0, bt, 0, 0)
    ensures |tile| == TileSize
    ensures forall x, y | 0 <= x < TextureRes && 0 <= y < TileHeight ::
      tile[TileIndex(x, y)] == Painted(paint, s0, bt, x, y)
    ensures g' == TileEnd(paint, s0, bt)
  {
    tile := [];
    g' := g;
    var y := 0;
    while y < TileHeight
      invariant 0 <= y <= TileHeight && |tile| == 16 * y
      invariant forall x, y' | 0 <= x < TextureRes && 0 <= y' < y ::
        tile[TileIndex(x, y')] == Painted(paint, s0, bt, x, y')
      invariant y < TileHeight ==> g' == GenAt(paint, s0, bt, y, 0)
      invariant y == TileHeight ==> g' == TileEnd(paint, s0, bt)
    {
      var row;
      row, g' := ShadeRow(paint, s0, bt, y, g');
      AppendRow(paint, s0, tile, row, bt, y);
      tile := tile + row;
      y := y + 1;
    }
  }

  /** Appending tile bt after tiles 0..bt-1 extends the painted prefix. */
  lemma AppendTile(paint: Painter, s0: State, prev: seq<bv32>, tile: seq<bv32>, bt: int)
    requires ValidPainter(paint) && 1 <= bt < Tiles
    requires |prev| == 768 * bt && |tile| == TileSize
    requires forall b, x, y | 1 <= b < bt && 0 <= x < TextureRes && 0 <= y < TileHeight ::
      prev[AtlasIndex(b, x, y)] == Painted(paint, s0, b, x, y)
    requires forall x, y | 0 <= x < TextureRes && 0 <= y < TileHeight ::
      tile[TileIndex(x, y)] == Painted(paint, s0, bt, x, y)
    ensures forall b, x, y | 1 <= b < bt + 1 && 0 <= x < TextureRes && 0 <= y < TileHeight ::
      (prev + tile)[AtlasIndex(b, x, y)] == Painted(paint, s0, b, x, y)
  {
    forall b, x, y | 1 <= b < bt + 1 && 0 <= x < TextureRes && 0 <= y < TileHeight
      ensures (prev + tile)[AtlasIndex(b, x, y)] == Painted(paint, s0, b, x, y)
    {
      ConcatAt(prev, tile, AtlasIndex(b, x, y));
      if b == bt {
        assert AtlasIndex(b, x, y) - |prev| == TileIndex(x, y);
      }
    }
  }

  /** The tile loop over blocks 1..15 from generator state s0, appending to
      the tile-0 contents. */
  method ShadeTiles(paint: Painter, s0: State, first: seq<bv32>) returns (atlas: seq<bv32>)
    requires ValidPainter(paint) && |first| == TileSize
    ensures |atlas| == AtlasSize && atlas[..TileSize] == first
    ensures forall bt, x, y | 1 <= bt < Tiles && 0 <= x < TextureRes && 0 <= y < TileHeight ::
      atlas[AtlasIndex(bt, x, y)] == Painted(paint, s0, bt, x, y)
  {
    atlas := first;
    var rng := s0;
    var bt := 1;
    while bt < Tiles
      invariant 1 <= bt <= Tiles && |atlas| == 768 * bt
      invariant atlas[..TileSize] == first
      invariant forall b, x, y | 1 <= b < bt && 0 <= x < TextureRes && 0 <= y < TileHeight ::
        atlas[AtlasIndex(b, x, y)] == Painted(paint, s0, b, x, y)
      invariant 1 < bt < Tiles ==> rng == TileEnd(paint, s0, bt - 1).rng
      invariant bt == 1 ==> rng == s0
    {
      var tile, g := ShadeTile(paint, s0, bt, FreshGsd(rng));
      AppendTile(paint, s0, atlas, tile, bt);
      PrefixKept(atlas, tile, TileSize);
      atlas := atlas + tile;
      rng := g.rng;
      bt := bt + 1;
    }
  }

  /** The atlas of TextureGenerator.cpp:12-216. The C++ buffer is
      uninitialised and tile 0 is never written; `init` stands for the
      buffer's prior contents, which tile 0 keeps. */
  method GenerateAtlas(init: seq<bv32>) returns (atlas: seq<bv32>)
    requires |init| == AtlasSize
    ensures |atlas| == AtlasSize
    ensures atlas[..TileSize] == init[..TileSize]
    ensures forall bt, x, y | 1 <= bt < Tiles && 0 <= x < TextureRes && 0 <= y < TileHeight ::
      atlas[AtlasIndex(bt, x, y)] == TexelAt(bt, x, y)
  {
    PixelPainterValid();
    atlas := ShadeTiles(PixelPainter(), Create(TextureSeed), init[..TileSize]);
  }
}

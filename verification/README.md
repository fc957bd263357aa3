# Minecraft4k-CPP core, modelled in Dafny

This project models the deterministic core of Minecraft4k-CPP, a C++ port of
the Minecraft 4k voxel demo, and the two build tools that embed its shaders and
fonts. The modelled parts are:

- **Grid** (`grid.dfy`): the voxel world. It is a flat byte buffer of
  512 × 64 × 512 cells, addressed as `x + 512·y + 32768·z`. The model covers
  `setBlock`, `getBlock`, `isWithinWorld` and `fillBox`.
- **Util** (`util.dfy`): the `java.util.Random` 48-bit linear congruential
  generator. The model covers `initialScramble`, `next`, `nextInt()`,
  `nextInt(bound)`, `nextIVec2`, `nextLong`, `setSeed` and `uniqueSeed`, plus
  `clamp`. The generator state is threaded through pure functions.
- **WorldGen** (`worldgen.dfy`): the non-classic `generateWorld(seed)` of
  World.cpp.
  - The terrain phase classifies each column by its terrain height.
  - The tree phase visits an 8-cell lattice of anchors, draws a tree plan from
    the generator, places the trunk and two leaf boxes, and carves corner
    cells.
  - The older terrain loop of Minecraft4k.cpp is modelled next to it.
- **Physics** (`physics.dfy`): one fixed-step player tick. It covers the
  velocity update, `collidePlayer` (one tentative move per axis, tested at 12
  sample points) and the self-excavation of the cells the player overlaps.
- **Raycast** (`raycast.dfy`): the reach raycast. It marches along each axis in
  turn and keeps the nearest solid cell the marches reach within reach.
- **Textures** (`textures.dfy`): the non-classic per-texel rule of
  `generateTextures` and the loop that fills the 16 × 48 × 16 texture atlas
  with packed ARGB words.
- **EmbedText** (`embed_text.dfy`): `embed_text.cc`. It escapes each line of a
  text file into a C string literal and writes a header declaring the
  concatenated constant.
- **EmbedBinary** (`embed_binary.dfy`): `embed_binary.cpp`. It parses the
  argument vector and formats the declaration after the converter's arrays.

Shared definitions:

- **Constants**: the world sizes, block codes and reach.
- **Geometry**: `Vec3` over reals, plus truncation toward zero (C++ `int(float)`),
  `fract`, `sign` and `abs`.
- **Wrappers**: `Option`.

Floats are modelled as reals, without IEEE rounding. A C++ integer whose width
matters is modelled explicitly: the uint64 state update, the uint32
`nextInt(bound)`, and the conversions to `int`.

The world and texture loops are proved through per-cell fold definitions.

- `StateBefore` / `CellBefore` give the generator state before each tree anchor
  and the value of each cell after the anchors so far.
- `GenAt` / `Painted` give the generator state and packed word at each texel.

The loops take the per-anchor planner and the per-texel painter as function
parameters, and a ghost validity predicate states what the loop relies on. The
top-level members instantiate these parameters with the real tree planner and
texel rule.

## Model

| member | source | states |
|---|---|---|
| Grid.Empty | Minecraft4k.cpp:73 | The statically allocated world buffer starts out holding AIR in every cell. |
| Grid.IndexInBufferAndInjective | World.cpp:6-14 | For in-range cells, the flat index lies inside the buffer, and two cells share an index only if they are the same cell. |
| Grid.CellOf | World.cpp:8 | Every buffer offset is the flat index of some in-range cell, so the addressing is onto. |
| Grid.CellOfIndex | World.cpp:8 | Recovering the cell from the flat index of an in-range cell gives back that cell, so the addressing can be inverted. |
| Grid.SetBlock | World.cpp:6-9 | After `setBlock`, `getBlock` returns the written byte. Every other byte of the buffer, and so every other in-range cell, is unchanged. |
| Grid.Extensionality | World.cpp:11-14 | Two worlds that agree on `getBlock` at every in-range cell are the same buffer. |
| Grid.WithinWorldTruncates | World.cpp:16-25 | A point that passes `isWithinWorld` truncates to an in-range cell. For integral points, the two tests agree in both directions. |
| Grid.FillBox | World.cpp:27-45 | Inside the half-open box between the truncated corners, a cell becomes `blockId`. When `replace` is off, only AIR cells change. Every cell outside the box is unchanged. |
| Geometry.Trunc | Minecraft4k.cpp:498-500 | `int(f)` lies within one unit of `f`, on the side toward zero. |
| Geometry.Fract | Minecraft4k.cpp:360 | `fract` lies in [0, 1), and removing it leaves an integer. |
| Geometry.Sign | Minecraft4k.cpp:382 | `sign` is -1, 0 or 1, is 0 exactly for 0, and is positive exactly for positive values. |
| Geometry.TruncOfInteger | Minecraft4k.cpp:503 | Truncation leaves an integral value unchanged. |
| Util.ToInt32 | Util.cpp:53 | The conversion to a 32-bit `int` lands in the signed range and is congruent to its input modulo 2^32. |
| Util.SetSeed | Util.cpp:100-103 | `setSeed` discards the old state. It leaves the generator in the state that the constructor with the same seed builds. |
| Util.SeedHighBitsIgnored | Util.cpp:27-32 | Seeds that agree on their low 48 bits build generators in the same state. |
| Util.Step | Util.cpp:49-51 | The uint64 update, masked to 48 bits, equals the exact recurrence `(s·0x5DEECE66D + 0xB) mod 2^48`. |
| Util.Next | Util.cpp:49-54 | `next(bits)` advances the state by one step. For bits ≤ 31, it returns a value in [0, 2^bits) that is exactly the top `bits` bits of the new 48-bit state. |
| Util.NextUint | Util.cpp:69-72 | `nextInt()` advances one step and returns the top 32 bits of the new state, read as uint32. |
| Util.PowerOfTwoTest | Util.cpp:86 | For n ≥ 1, `n & (n-1)` is 0 if and only if n is a power of two. |
| Util.BitTestIsPow2 | Util.cpp:85-86 | The uint32 test with `m = bound - 1`, which wraps when bound is 0, holds exactly when bound is 0 or a power of two. |
| Util.RejectionNeverFires | Util.cpp:89-91 | The loop condition `u - r + m < 0`, evaluated on uint32, is never true, so the loop body never runs. |
| Util.DeadLoopDiffersFromJava | Util.cpp:89-91 | With Java's signed test, the loop would reject the draw u = 2147483616 for bound 96. The unsigned test accepts it. |
| Util.NextInt | Util.cpp:82-94 | `nextInt(bound)` makes exactly one draw. It returns a value below bound, or 0 for bound 0. For powers of two it scales `next(31)`; otherwise it returns `next(31) % bound`. |
| Util.ScaleBelow | Util.cpp:87 | The scaled value `bound·r >> 31` fits in uint32 and, for bound > 0, lies below bound. |
| Util.NextIVec2 | Util.cpp:74-80 | `nextIVec2(m)` makes two draws. x is the first `nextInt(2m)` draw minus m and y is the second minus m, so for m > 0 both lie in [-m, m); for m = 0, `nextInt(0)` gives 0 and the result is (0, 0). |
| Util.NextLong | Util.cpp:96-98 | `nextLong` makes two draws. Its low word is the second `next(32)`, with the operands evaluated left to right. |
| Util.UniqueSeed | Util.cpp:34-47 | `uniqueSeed` returns the new uniquifier and stores it. Multiplying that value by the multiplier's inverse modulo 2^64 recovers the old uniquifier. |
| Util.InverseUndoes | Util.cpp:40 | The multiplier 181783497276652981 is invertible modulo 2^64, and the stated inverse undoes it. |
| Util.UniqueSeedInjective | Util.cpp:34-47 | Different uniquifier states always yield different seeds. |
| Util.Clamp | Util.cpp:192-206 | If min ≥ max, `val` is returned unchanged. Otherwise the result lies in [min, max]: it equals `val` when `val` is inside, min when below, and max when above. |
| WorldGen.TerrainBlock | World.cpp:83-95 | A column with terrain height h holds AIR above h, GRASS at h, DIRT for h < y ≤ h+5, and STONE below that (y grows downward). |
| WorldGen.ColumnLayering | World.cpp:83-95 | Going down a column, the layers never go back up in depth order. GRASS occurs exactly at h. DIRT occurs exactly from h+1 to h+5. |
| WorldGen.TerrainWorld | World.cpp:79-98 | The world after the terrain phase: every in-range cell is classified from its own column's height. |
| WorldGen.GenerateTerrain | World.cpp:79-98 | The terrain loop, with x running from WORLD_SIZE-1 down to 0, writes every in-range cell with its classification. |
| WorldGen.AsWrittenTerrainOverrun | World.cpp:79-95 | The loop as written also visits x = WORLD_SIZE. There the cell (512, 63, 511) has flat index 512·64·512, one past the buffer, and the pass's other writes alias the x = 0 slice. |
| WorldGen.GenerateTerrainLegacy | Minecraft4k.cpp:217-235 | The older loop writes the classified block at and below the surface, and leaves the cells above it as they were. |
| WorldGen.LegacyTerrainAgreesOnZeroedWorld | Minecraft4k.cpp:73 | On the zero-initialised static buffer, the older loop produces exactly the world of World.cpp's terrain phase. |
| WorldGen.Jitter | World.cpp:105-106 | `x + (nextInt(4) - 2)` evaluated in uint32 and stored as int equals the mathematical value. |
| WorldGen.DrawCuts | World.cpp:134-160 | The four foliage cuts and the four crown cuts are each drawn by `nextInt(10)`, so they lie in [0, 10). |
| WorldGen.DrawCutsDraws | World.cpp:134-160 | Corner i's foliage cut is `nextInt(10)` at draw 2i and its crown cut is `nextInt(10)` at draw 2i+1, alternating as the nested loops draw them. |
| WorldGen.DrawCutAt | World.cpp:134-160 | The same, for one corner i, by induction on i. |
| WorldGen.AdvancePairs | World.cpp:134-160 | After a draws, the i-th pair of draws is draws a+2i and a+2i+1 of the whole sequence. |
| WorldGen.AdvanceTwoFirst | World.cpp:139-160 | After the first corner's two draws, corner i-1 of the rest is corner i of the whole. |
| WorldGen.DrawCutsAdvances | World.cpp:139-160 | Drawing n cut pairs advances the generator by exactly 2n steps. |
| WorldGen.PlanTree | World.cpp:103-110 | Each anchor makes one `nextInt(4)` draw, and plants a tree exactly when that draw is 0. A tree costs 12 draws in all. The trunk lies within [anchor-2, anchor+1], has height 4 or 5, and stands one above the column's grass. Each field is fixed by its draw: x and z jitter are draws 1 and 2 (`nextInt(4)` - 2), the trunk height is 4 plus draw 3 (`nextInt(2)`), and corner i's foliage and crown cuts are draws 4+2i and 5+2i (`nextInt(10)`). With terrain heights in range, the tree fits in the world. |
| WorldGen.CarvedCellsAreCorners | World.cpp:128-171 | Every cell a cut turns to AIR is a ±1 or ±2 corner of the trunk column, within the leaf layers. |
| WorldGen.PlaceTrunk | World.cpp:112-115 | The trunk cells from the top cell up to `treeHeight` cells above it become WOOD. Nothing else changes. |
| WorldGen.CarveFoliage | World.cpp:136-154 | Foliage cut 0 clears the upper cell of the corner, cut 1 the lower cell, cut 2 both, and any other cut nothing. |
| WorldGen.CarveCrown | World.cpp:157-170 | Crown cut 0 clears both crown cells of the corner. Every other cut clears the upper one. |
| WorldGen.PlaceTree | World.cpp:112-171 | Placing a tree turns every cell into its trunk, leaf-box or carve result, computed from the cell's previous value. |
| WorldGen.TreeEffect | World.cpp:112-171 | Trunk cells are WOOD. The crown's top corners are AIR for every cut. Non-AIR cells that are neither trunk nor carved keep their value. Uncarved AIR cells in a leaf box become LEAVES. Cells outside the tree's 5×5 footprint are untouched. |
| WorldGen.TreePlannerValid | World.cpp:101-110 | The tree planner meets what the anchor loop relies on: each anchor's draws and a plan that fits in the world. |
| WorldGen.Plant | World.cpp:103-172 | One anchor step moves the world and the generator state from the fold's value before the anchor to its value after it. |
| WorldGen.PlantRow | World.cpp:102-173 | One row of anchors moves the world and the generator state from the fold's value at the row start to its value at the row end. |
| WorldGen.PopulateTrees | World.cpp:100-174 | The tree phase leaves every cell with the fold's value over all 63×63 anchors (x and z = 4, 12, …, 500), and leaves the generator in the fold's final state. |
| WorldGen.Generated | World.cpp:75-175 | The generated world is the tree fold over the terrain world, started from `Random(seed)`. |
| WorldGen.GenerateWorld | World.cpp:75-175 | `generateWorld(seed)` produces the generated world from any initial buffer contents. |
| WorldGen.GenerationUsesLow48SeedBits | World.cpp:77 | Two seeds that agree on their low 48 bits generate the same world. |
| Physics.AxisSelection | Minecraft4k.cpp:407-409 | Exactly one factor `((axisIndex+k)%3)/2` is 1. Pass 0 moves z, pass 1 moves x, and pass 2 moves y, each by its full velocity. |
| Physics.SampleOffsetsDistinct | Minecraft4k.cpp:411-415 | The 12 sample offsets are pairwise distinct. x and z are ±0.3, and y is -0.15, 0.65 or 1.45. |
| Physics.TestSamples | Minecraft4k.cpp:411-422 | A tentative position is blocked exactly when some sample at or below the world top lies outside the world or on a non-AIR cell. |
| Physics.CollideEffects | Minecraft4k.cpp:398-441 | Collision never changes the horizontal velocity. Each coordinate either stays or moves by its velocity, and only on its own pass. The vertical velocity is kept, zeroed, or set to the jump value -0.1. The final position is either the start or an unblocked one. |
| Physics.CollidePlayer | Minecraft4k.cpp:398-441 | The passes run in order 0, 1, 2. A blocked horizontal pass is skipped. A blocked vertical pass stops the player (jump when falling and jump is held) and returns. |
| Physics.AccelerateEffect | Minecraft4k.cpp:483-492 | After halving, the horizontal velocity changes by the input rotated by yaw, with magnitude 0.02 per unit of input. The vertical velocity relaxes toward 0.3 by the factor 0.99. With no input, x and z are only halved. |
| Physics.Excavate | Minecraft4k.cpp:497-505 | Every in-world cell under one of the 12 truncated samples becomes AIR. Every other cell is unchanged. |
| Physics.CollisionAndExcavationCellsDiffer | Minecraft4k.cpp:497-500 | Truncating before or after subtracting the world offset agrees once the sample is past the offset. Just below the origin the two differ: x = 511.8 gives cell 0 for collision but -1 for excavation. |
| Physics.Tick | Minecraft4k.cpp:483-505 | One tick accelerates, collides with the accelerated velocity, and then excavates around the new position. |
| Raycast.EdgeOffset | Minecraft4k.cpp:360 | The offset to the next cell boundary in the ray's direction lies in [0, 1], and it lands exactly on an integer. |
| Raycast.AlongStep | Minecraft4k.cpp:387-388 | Advancing the ray by one cell step keeps the position on the ray at the recorded travel distance. |
| Raycast.UnitStep | Minecraft4k.cpp:358 | Dividing the ray by the absolute value of its axis component makes the step along that axis exactly ±1. |
| Raycast.NewHitValid | Minecraft4k.cpp:376-385 | A non-AIR in-world cell met within reach is a valid hit on the ray at the recorded distance. |
| Raycast.Probe | Minecraft4k.cpp:370-385 | A probe ends the march exactly when the probed cell is outside the world, and then keeps the hit. Otherwise it replaces the hit exactly when the cell is not AIR, with that cell at the current distance, marked with this axis and direction. |
| Raycast.Align | Minecraft4k.cpp:356-365 | For a nonzero component, the start position lies on the ray at the first cell boundary, with the step direction given by the component's sign. Its start distance, step and back-shift are those of the axis's march `AxisMarch`. |
| Raycast.MarchAxis | Minecraft4k.cpp:352-389 | Marching one axis keeps a valid hit and never increases the reach. A replacement hit is strictly closer, records this axis and its direction, and is the cell of a probe this axis's march reaches. No probe the march reaches below the final reach reads a non-AIR cell. A zero component leaves the hit unchanged. |
| Raycast.MarchFrom | Minecraft4k.cpp:368-389 | The march loop terminates. It keeps a valid hit and only ever moves it strictly closer. Every probe k (at distance start + k/\|delta\|) reached before the first out-of-world cell and below the final reach reads AIR. A new hit is the cell of such a reached probe, at its distance. |
| Raycast.ClearWhenStopped | Minecraft4k.cpp:368-373 | A march that stops at probe k, because k is out of reach or outside the world, and found probes 0 to k-1 clear, is clear at every reached probe below the reach. |
| Raycast.Extend | Minecraft4k.cpp:374-388 | An in-world probe that is either recorded (the reach drops to its distance) or AIR extends the clear, in-world prefix by one probe. |
| Raycast.DistMonotone | Minecraft4k.cpp:387-388 | Probe distances grow with the probe number when the step is positive. |
| Raycast.StartAlong | Minecraft4k.cpp:362-365 | The aligned start position, moved back one cell on negative directions, is on the ray at the distance `offset / abs(delta)`. |
| Raycast.HoveredMovesVertically | Minecraft4k.cpp:392-395 | Without a hit, the hovered position is the sentinel. With a hit, the source's `abs(dir)` index always shifts y by the hit direction, whichever axis was hit. |
| Raycast.Cast | Minecraft4k.cpp:336-396 | The result is the sentinel or an in-world non-AIR cell on the ray within reach, and the place position is that cell. It is the nearest such cell the marches reach: on every axis with a nonzero component, no probe reached before leaving the world and closer than the result reads a non-AIR cell. A hit is the cell of a probe its own axis's march reaches. A zero direction never hits. |
| Textures.AtlasIndexInjective | TextureGenerator.cpp:213 | For a block type in [1, 16) and a texel in the 16×48 tile, the atlas index lies inside the atlas, and different texels have different indices. |
| Textures.Scaled | TextureGenerator.cpp:208-210 | `channel·gsd/255` stays below 0x200. For gsd ≤ 255 it never exceeds the tint's channel. |
| Textures.PackFields | TextureGenerator.cpp:207-210 | The packed alpha is 0xFF exactly when the tint is nonzero. For gsd ≤ 255 every channel fits its byte, and each byte of the word is then the scaled channel. |
| Textures.PackBlack | TextureGenerator.cpp:207-210 | A zero tint packs to the all-zero, fully transparent word. |
| Textures.FreshGsd | TextureGenerator.cpp:17 | `0xFF - nextInt(0x60)` makes one draw and lies in [0xA0, 0xFF]. |
| Textures.BarkRange | TextureGenerator.cpp:78 | The bark brightening and darkening keeps gsd within [80, 382]. |
| Textures.Surface | TextureGenerator.cpp:30-88 | The tint is a 24-bit colour. Starting from a fresh gsd, the result stays within [0, 382]: non-wood stays ≤ 255, stone keeps its gsd, and wood end grain stays ≤ 260. |
| Textures.ShadeBounds | TextureGenerator.cpp:27-101 | One texel keeps gsd within [0, 382] (≤ 255 off wood), and stone's carried gsd stays fresh. |
| Textures.TexelFits | TextureGenerator.cpp:207-210 | Even where gsd exceeds 255 on wood, every channel of every texel fits its byte, so the packed fields do not overlap. |
| Textures.EndGrainFits | TextureGenerator.cpp:73 | The end-grain tint scaled by any ring gsd up to 260 fits in bytes. |
| Textures.BarkFits | TextureGenerator.cpp:78 | The bark tint scaled by any gsd up to 382 fits in bytes. |
| Textures.ShadeDraws | TextureGenerator.cpp:27-101 | A texel makes one draw for the gsd (two for stone when `nextInt(3)` is 0), plus one more for wood and for leaves. |
| Textures.RedrawRule | TextureGenerator.cpp:27-28 | Non-stone texels redraw gsd. Stone draws `nextInt(3)` first, and redraws only when it is 0. |
| Textures.BlockTints | TextureGenerator.cpp:30-88 | Stone is grey. Bricks are mortar exactly on the gap pattern and red elsewhere. Block types without a case are dirt brown. |
| Textures.GrassRule | TextureGenerator.cpp:38-44 | Grass is green exactly above the jagged edge plus 18. The single row under the edge is darkened to 2/3, and the other rows keep the drawn gsd. |
| Textures.WoodRule | TextureGenerator.cpp:46-81 | End-grain tint appears exactly on the wood faces, with ring-shaded gsd. On bark, a 0 from `nextInt(2)` brightens even columns by half and darkens odd ones by half. |
| Textures.LeavesRule | TextureGenerator.cpp:95-101 | A 0 from `nextInt(2)` gives a transparent texel (tint 0, gsd 0xFF), which packs to 0. Otherwise the texel is leaf green. |
| Textures.BottomRowsDarker | TextureGenerator.cpp:91-93 | Coloured texels in the bottom face (y ≥ 32) use half the carried gsd. The other rows use it unchanged. |
| Textures.PixelPainterValid | TextureGenerator.cpp:19-214 | The texel rule meets what the atlas loop relies on: it keeps the generator ready for the next texel of its tile. |
| Textures.GenAt | TextureGenerator.cpp:16-20 | The generator state before every texel of tiles 1-15 is ready for that texel's rule. |
| Textures.TexelShade | TextureGenerator.cpp:207-210 | Every texel of the atlas has a 24-bit tint and a gsd whose scaled channels fit in bytes. |
| Textures.TexelDecodes | TextureGenerator.cpp:207-213 | Each atlas word decodes into the texel's alpha rule and its three scaled channels. |
| Textures.ShadeRow | TextureGenerator.cpp:20-214 | One row produces the 16 words of the fold, in order, and the state after the row's last texel. |
| Textures.ShadeTile | TextureGenerator.cpp:17-215 | One tile produces its 768 words at their tile indices, and the tile's final generator state. |
| Textures.ShadeTiles | TextureGenerator.cpp:16-216 | Tiles 1-15 are written at their atlas indices, and tile 0 is left as it was. |
| Textures.GenerateAtlas | TextureGenerator.cpp:9-216 | From `Random(151910774187927)`, every texel of tiles 1-15 holds the rule's packed word. The never-written tile 0 is kept. |
| EmbedText.EscapeChar | embedFiles/tools/embed_text.cc:27-41 | Each character is spelled with one or two characters. |
| EmbedText.Escape | embedFiles/tools/embed_text.cc:24-42 | The escaped line is one character longer per quote, tab or backslash. It contains no raw tab, contains a newline only where the line does, and every quote in it follows a backslash. |
| EmbedText.EscapeThenUnescape | embedFiles/tools/embed_text.cc:24-42 | The compiler's reading of an escaped line gives back the line. |
| EmbedText.UnescapeThenEscape | embedFiles/tools/embed_text.cc:24-42 | Any literal body that reads back as s is exactly the escaped spelling of s. |
| EmbedText.EscapeInverse | embedFiles/tools/embed_text.cc:27-41 | e is the escaped spelling of s if and only if e reads back as s. |
| EmbedText.LineLength | embedFiles/tools/embed_text.cc:21 | `getline` stops at the first newline, or at the end of the text. |
| EmbedText.Lines | embedFiles/tools/embed_text.cc:21 | No line that `getline` returns contains a newline. |
| EmbedText.JoinLines | embedFiles/tools/embed_text.cc:21 | Re-joining the lines with newlines gives the file's text, with a final newline added when it lacks one. |
| EmbedText.LinesJoin | embedFiles/tools/embed_text.cc:21 | Splitting newline-free lines that were joined with newlines gives the same lines back. |
| EmbedText.Literals | embedFiles/tools/embed_text.cc:23-43 | Each input line becomes exactly one literal line, in order. |
| EmbedText.LiteralReadsBack | embedFiles/tools/embed_text.cc:23-43 | One emitted literal stays on one line, and its value reads back as the line plus a newline. |
| EmbedText.LiteralsReadBack | embedFiles/tools/embed_text.cc:21-44 | The concatenated literals read back as the lines joined by newlines. |
| EmbedText.EmbeddedValue | embedFiles/tools/embed_text.cc:17-46 | The emitted body splits into exactly the literal lines. The constant's value is the file's text, newline-terminated. |
| EmbedText.WriteFile | embedFiles/tools/embed_text.cc:6-49 | An unreadable file prints nothing and reports failure. Otherwise the output is the header, one literal per line, and the footer. |
| EmbedText.Run | embedFiles/tools/embed_text.cc:52-71 | Fewer than two arguments exits 2 with the syntax line on standard error. An unreadable file exits 1 with the error message. Otherwise it exits 0 with the generated header. |
| EmbedBinary.AsWrittenSymbolPastEnd | embedFiles/tools/embed_binary.cpp:44-64 | With one switch and `argc == 3`, the as-written parser takes the symbol from `argv[3]`, one past the last argument. |
| EmbedBinary.Parse | embedFiles/tools/embed_binary.cpp:44-62 | A conversion names an input file and a symbol that are both among the arguments. An unknown switch is `argv[1]`. |
| EmbedBinary.ParseAgrees | embedFiles/tools/embed_binary.cpp:44-64 | The corrected parser differs from the as-written one exactly where the latter reads past the end, which happens only with `argc == 3` and a switch. The file argument follows a switch exactly when `argv[1]` is one. |
| EmbedBinary.Declaration | embedFiles/tools/embed_binary.cpp:18-33 | base85 gives the not-supported comment. Otherwise the line starts with `constexpr T `, followed by the symbol, and its length accounts for the symbol three times, the type twice and the infix twice. |
| EmbedBinary.DeclarationInjective | embedFiles/tools/embed_binary.cpp:20-27 | Different symbols give different declarations, and the two plain encodings never give the same one. |
| EmbedBinary.Emit | embedFiles/tools/embed_binary.cpp:6-37 | The preamble is always printed first. On converter failure nothing else follows. On success it is followed by the arrays, the declaration and a blank line. |
| EmbedBinary.Run | embedFiles/tools/embed_binary.cpp:42-68 | Usage exits 0 with the syntax line on standard output. An unknown switch exits 1. A conversion exits 0 exactly when the converter succeeds, and reports an unreadable file on standard error. |

## Left out

- Rendering, window and input handling (OpenGL, GLFW, the shaders, `Shader.cpp`, the atlas and world uploads): these have no logic beyond the graphics API. The yaw and pitch trigonometry that builds the ray direction and the per-tick `sin`/`cos` are parameters (`rayDir`, `sinYaw`, `cosYaw`).
- `Perlin::noise` and `scaled_cosine`: floating-point code. Terrain height is a parameter `height(x, z)`. The tree phase assumes heights in [32, 41], the range that noise in [0, 0.9375) rounds to.
- IEEE float rounding: positions, velocities, offsets and `clamp` use exact reals.
- The clock: `currentTime`, the default constructor `Random()` (which mixes in the time), and the wall-clock fixed-step accumulator. One iteration of the accumulator is `Physics.Tick`.
- `nextFloat`, `nextVec2`, `rotToVec3`, the lighting interpolation and `Vector.cpp`: float-only code outside the core.
- The `CLASSIC` build variants (classic world generator, classic texture branch, 64-wide world): only the default build is modelled.
- `uniqueSeed` under concurrency: the compare-and-retry loop is modelled single-threaded, where its first pass always succeeds.
- Util.NextIVec2: a negative magnitude, which would turn `magnitude * 2` into a large unsigned bound, is not modelled; the function has no caller in the repository.
- Util.NextLong: the two `next(32)` operands are unsequenced in C++. The model fixes left-to-right evaluation, and its contract states only the low word and the draw count.
- The tree pass of the older generator in Minecraft4k.cpp (from line 237) uses `BLOCK_NEW`, which Constants.h does not define. Only its terrain loop is modelled. The duplicated grid helpers at Minecraft4k.cpp:82-122 are identical to World.cpp's and are covered by `Grid`.
- `raycast` and `generateWorld()` declared in World.h have no definition in World.cpp and are not part of this model.
- Raycast: the loop marches one axis at a time at that axis's cell boundaries, and keeps the nearest hit across the three passes. It is not a single interleaved traversal in the style of Amanatides and Woo; the model follows the code. An axis whose direction component is exactly 0 is skipped: in the C++ the float travel distance becomes infinite or NaN, the loop test `rayTravelDist < furthestHit` is false, and the loop does not run.
- The hovered-block offset uses `abs(closestHitDir)` as the axis index, which is always 1 (y). This is modelled as written (`Raycast.HoveredMovesVertically`) and not reported as a defect, because the repository does not state which neighbouring cell was intended.
- `binary_to_compressed_c` (Dear ImGui, not in the repository) is a parameter: its printed arrays, or its failure.
- embed_binary reads at most one switch, and only in `argv[1]`, as written. Its compressed mode declares a `compressed_binary`, which embed/types.h does not define (only `embedded_binary`). That gap is in the generated code's consumer and is noted here only.
- Both tools need `argv[0]` (`|argv| ≥ 1`), as any C `main` does.
- Tile 0 of the texture atlas is never written by the generator (its `new int[]` contents are indeterminate), so its initial contents are a parameter.
- EmbedText: `getline` on text containing a carriage return keeps it in the line, and the escaper copies it raw. The model treats it like any other character.

## Findings

| source | as written | input that shows it | evidently intended | confidence | as-written member | corrected member |
|---|---|---|---|---|---|---|
| World.cpp:79 | The terrain loop starts at `x = WORLD_SIZE`, so `setBlock` writes outside the slab. At (512, 63, 511) the index is 512·64·512, one past the buffer allocated at World.cpp:4. | the first pass of the loop, any seed | `x` from `WORLD_SIZE - 1` down to 0 | not executed | WorldGen.AsWrittenTerrainOverrun | WorldGen.GenerateTerrain |
| embedFiles/tools/embed_binary.cpp:44 | The argument count is checked before a switch is consumed, so the symbol is read from `argv[argn + 1] == argv[argc]`, the terminating null pointer. | `embed_binary -nocompress font.ttf` | print the usage text when fewer than two arguments follow the switch | not executed | EmbedBinary.AsWrittenSymbolPastEnd | EmbedBinary.Parse |

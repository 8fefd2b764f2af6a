# ldr2pdf core, modelled in Dafny

ldr2pdf turns LDraw brick models into building-instruction pictures. This
project models its core pieces: the traversals that flatten a model tree into
drawable primitives, the post-processing of those primitives, the generation
of PDF content operations, and the text codecs of the instruction XML format.

- **PDF traversal** (`Ldr`, src/ldr.rs). `traverse` walks the reference tree.
  It emits one line per line command and one triangle or quad per polygon
  command, in document order. Each polygon gets a colour resolved through the
  "code 16 inherits" rule (`Colors`). A reference to a model missing from the
  source map panics. The colour table (`ColorMaps`) is loaded from
  `!COLOUR` entries and looked up by code, with slab entry 0 as the fallback.
- **Viewer traversals** (`Bfc`, `Render3d`, `Bevvy`; render_3d/src/main.rs and
  src/bevvy.rs). These follow the LDraw back-face-culling extension:
  `BFC CERTIFY CCW/CW` and `BFC INVERTNEXT`.
  - `traverse_part` emits winding-corrected triangles, lines and
    optional lines.
  - `traverse_design` emits one placed part per `.dat` reference.
  - `Bfc` holds the specification functions; `Render3d` and `Bevvy` hold the
    imperative traversals proved against them.
  - `Agreement` relates the viewers' output to the PDF traversal.
- **Primitives and post-processing** (`Geometry`, `Normalize`; common/src/lib.rs,
  src/main.rs, render_2d/src/main.rs). These are the slice views of `Poly` and
  `Primitive`, in-place `normalize` (shift until no x or y is negative), and the
  `600 - y` flip.
- **PDF content** (`Pdf`, src/pdf.rs). This covers:
  - the `m`/`l`/`rg`/`f` and `m`/`l`/`S` operation sequences;
  - the depth sort;
  - the shape loop that emits a fill colour only when the colour changes;
  - the preamble operations.
- **Instruction XML codecs** (`InsXml`, `Instruction`; ins_xml/src/helpers.rs,
  src/instruction/helpers.rs). These are `separated` and `shorter`, the
  `spaces` joiner, and the codecs for `Color`, `Rect`, vectors, booleans,
  point lists, size-guide part lists and resize-bar lists.

Shared helpers:
- `Text` holds `str::split`, `split_whitespace`/`split_ascii_whitespace`
  and integer formatting/parsing.
- `Ldraw` holds the parsed LDraw data model.
- `Buffers` holds a growable vector class.

Modelling conventions:
- Transforms are a type parameter `M` with an `Algebra` of operations:
  product, "determinant is negative", and point mapping.
- Floats in the codecs are a type parameter `F` with a `FloatFormat`, the
  conversions Rust's `f32` provides.
- Coordinates are reals.
- A Rust panic is an `Err` outcome of a specification function.
- Methods return the panic as an `Option`.

The traversals need a termination argument. The source map carries a rank
for each model, and `SourceMap.Ranked` requires every reference to a present
model to point to a lower rank. The source has no cycle check; the rank only
exists to make the recursion provably terminate.

## Model

| member | source | states |
|---|---|---|
| Colors.NewColor | src/ldr.rs:73-79 | A requested code other than 16 is kept, and code 16 yields the current colour. So the result is 16 exactly when both codes are 16. |
| Colors.NewColorIdempotent | src/ldr.rs:73-79 | Resolving the same requested code a second time changes nothing. |
| Colors.NewColorAssociative | src/ldr.rs:61-66 | Resolving through two nested references equals resolving against the already-resolved inner code. So colour inheritance composes along a path. |
| Colors.InheritIsInnermost | src/ldr.rs:61-66 | The colour after a reference path is the innermost non-16 code. It is the root colour when every code is 16. It is 16 exactly when the root and all codes are 16. |
| Colors.InheritCons | src/ldr.rs:61-66 | Passing through a reference of code c and then along a path equals starting the path from `new_color(root, c)`. |
| Geometry.Poly.AsSlice | common/src/lib.rs:29-35 | A triangle's slice is its 3 vertices; a quad's is its 4. The same code is at src/main.rs:122-128. |
| Geometry.Poly.WithSlice | common/src/lib.rs:36-41 | Writing through the mutable slice sets exactly those vertices and keeps the kind. Writing back the same slice changes nothing. |
| Geometry.Primitive.AsSlice | common/src/lib.rs:50-56 | The slice has 2, 3 or 4 points. 2 means a line, 3 a triangle, otherwise it is the quad's. A polygon delegates to its `Poly`. The same code is at src/main.rs:143-149. |
| Geometry.Primitive.WithSlice | common/src/lib.rs:58-63 | Writing through the mutable slice exposes the same points as `as_slice`. It keeps the kind, the polygon shape and the colour. |
| Geometry.Primitive.Center | common/src/lib.rs:65-67 | The divisor (the slice length) is positive. The result times it is the vertex sum. The same code is at src/main.rs:158-160. |
| Geometry.Project | src/ldr.rs:68-70 | Vertex count and order are kept. Each vertex is mapped through the same transform. |
| Ldr.NewContext | src/ldr.rs:51-58 | The root context has the view transform and colour 16. |
| Ldr.Child | src/ldr.rs:61-66 | The child transform is the parent's times the reference matrix, multiplied on the right. The child colour is `new_color(parent, reference)`. |
| Ldr.Traverse | src/ldr.rs:7-39 | It panics exactly when the specification `Flatten` does, with the same panic. Otherwise it appends exactly `Flatten`'s primitives after the existing output. |
| Ldr.FlattenPanicSticks | src/ldr.rs:17-38 | Once a command panics, the rest of the model's loop is cut off with that panic. |
| Ldr.FlattenPanics | src/ldr.rs:13-15 | The only panic is the lookup of a model absent from the source map. Looking up an absent name panics with that name. |
| Ldr.FlattenPrefixPanics | src/ldr.rs:13-21 | Every panic part-way through a model's loop names a model absent from the source map. |
| Ldr.FlattenColors | src/ldr.rs:17-38 | `traverse` emits one colour path per primitive (`ColorPaths`). Each polygon's colour is its path resolved from the starting context's colour, where the path is the reference codes outermost first, then the polygon's own code. |
| Ldr.FlattenPrefixColors | src/ldr.rs:17-38 | The same path-resolved colour for every prefix of a model's loop. |
| Ldr.FlattenColorIsInnermost | src/ldr.rs:20-35 | A polygon's colour is the innermost non-16 code on its path, its own code included. It is the starting colour when all codes are 16. It is 16 only when the starting colour and every code on the path are 16. |
| Ldr.ColorPaths | src/ldr.rs:17-38 | The reference codes passed on the way to each emitted primitive, in output order, followed by the primitive's own code. A line has no code of its own. |
| Ldr.Flatten | src/ldr.rs:7-39 | Everything `traverse` appends: a panic on a missing model, otherwise the model's commands' output in order. |
| Ldr.FlattenPrefix | src/ldr.rs:17-38 | The output of the first k loop iterations, with the first panic cutting off the rest. |
| Ldr.FlattenCommand | src/ldr.rs:18-37 | One iteration: a reference recurses with the child context, a line gives a projected line, and a triangle or quad gives a projected polygon with `new_color(ctx.color, code)`. Comments and other commands give nothing. |
| Ldr.FlattenLeaves | src/ldr.rs:17-38 | A stretch of commands with no references emits, in order: one primitive per line, triangle or quad, and nothing for other commands. Vertices are projected without reordering. |
| Ldr.FlattenLeafCommand | src/ldr.rs:19-36 | One non-reference command emits exactly its reference reading. |
| Ldr.LeafPrimitivesAppend | src/ldr.rs:17-38 | The output for reference-free commands is the concatenation of each command's output. |
| Ldr.SingleReferenceExample | src/ldr.rs:17-38 | Model A references B (colour 7, matrix m), and B holds one colour-16 triangle. The traversal yields exactly that triangle, mapped through root·m, with colour 7. |
| ColorMaps.Load | src/ldr.rs:94-99 | After loading, the slab holds the `!COLOUR` entries in order. Both index maps point into it. Other commands are skipped. |
| ColorMaps.InsertIndexed | src/ldr.rs:96-98 | Inserting one entry keeps the index invariant. Each code and name maps to the last entry that has it. |
| ColorMaps.LoadedIndexed | src/ldr.rs:94-99 | The table loaded from any command list satisfies the index invariant. |
| ColorMaps.LastWithCodeIndexed | src/ldr.rs:97 | The code map sends each code to its last entry in the slab. An absent code appears nowhere in the slab. |
| ColorMaps.ByCode | src/ldr.rs:108-110 | It returns the slab entry the code maps to. An unknown code falls back to slab entry 0. It fails exactly when the slab is empty. |
| ColorMaps.ByCodeIndexed | src/ldr.rs:108-110 | On an indexed table, a lookup is the last entry with that code, else entry 0. It fails only on an empty table. |
| ColorMaps.ByCodeOfLoaded | src/ldr.rs:94-110 | Looking up a loaded table by code gives the last `!COLOUR` entry with that code, else the first entry. It fails only when there are no entries. |
| ColorMaps.LoadedNames | src/ldr.rs:98 | The name map of a loaded table sends each name to the last entry of that name. |
| ColorMaps.LoadStep | src/ldr.rs:95-98 | A non-`!COLOUR` command is skipped. A `!COLOUR` entry is inserted into the slab, and its key is recorded under its code and its name. |
| ColorMaps.Loaded | src/ldr.rs:92-99 | The table after the loading loop: `LoadStep` over the commands in order, from the empty table. |
| Bfc.Winding.Not | render_3d/src/main.rs:313-317 | `!winding` is the other winding. |
| Bfc.NewBfcContext | render_3d/src/main.rs:285-289 | A fresh viewer context has the given transform and colour 16, and is not inverted. |
| Bfc.BfcChild | render_3d/src/main.rs:331-333 | The child gets a right-multiplied transform and `new_color` colour. Its inverted flag is the parent's XORed with the invert argument (assumed; see Left out). |
| Bfc.StartInverted | render_3d/src/main.rs:303-308 | `current_inverted` starts at the context's flag, flipped exactly when the determinant is negative. |
| Bfc.Effective | render_3d/src/main.rs:313-317 | The effective winding is the current winding exactly when the part is not inverted. |
| Bfc.ClassifyComment | render_3d/src/main.rs:320-330 | Exactly `BFC CERTIFY CCW` or `BFC CERTIFY CW` sets the winding. Any other `BFC CERTIFY...` text panics. Otherwise a comment containing `BFC INVERTNEXT` arms the flag. Everything else has no effect. The same code is at src/bevvy.rs:228-238. |
| Bfc.Orient | render_3d/src/main.rs:345-356 | A triangle is pushed as `[a,b,c]` under CCW and as `[c,b,a]` under CW. |
| Bfc.SplitQuad | render_3d/src/main.rs:357-367 | A quad gives the triangles `[a,b,c],[c,d,a]` under CCW and `[c,b,a],[a,d,c]` under CW. |
| Bfc.OrientationReverses | render_3d/src/main.rs:345-367 | CW output is the CCW output with each triangle reversed. The two quad triangles cover exactly the quad's vertices and share the a-c diagonal. |
| Bfc.LeafStep | render_3d/src/main.rs:319-367 | `invert_next` at a triangle or quad panics with `PendingInvert`. A bad certify comment panics with `UnknownCertify`, and nothing else panics. On success: a line appends its projected pair, and an optional line appends its projected segment and control points. A triangle appends `Orient(effective winding, projected vertices)` and a quad appends `SplitQuad` of them, with no other change to the output. `invert_next` is set by an INVERTNEXT comment and otherwise kept. The winding changes only on a certify comment. |
| Bfc.PartModel | render_3d/src/main.rs:293-371 | Everything `traverse_part` appends: a panic on a missing model, otherwise the output of the loop started with CCW and `invert_next` clear. |
| Bfc.PartPrefix | render_3d/src/main.rs:310-370 | The loop state (winding, `invert_next`, output) after the first k iterations, with the first panic cutting off the rest. |
| Bfc.PartCommand | render_3d/src/main.rs:319-369 | One iteration: a reference recurses with `child(sfrc, invert_next)`, appends the child's output and clears `invert_next`. Any other command is `LeafStep`. |
| Bfc.PartStepLeaf | render_3d/src/main.rs:312-370 | An iteration on a non-reference command is that command's leaf step. |
| Bfc.PartStepRef | render_3d/src/main.rs:331-335 | A reference appends the sub-model's output, traversed with the pending `invert_next`. It then clears the flag and keeps the winding. |
| Bfc.PartStepRefPanics | render_3d/src/main.rs:331-335 | A panic inside a referenced sub-model is the panic of the whole traversal. |
| Bfc.PartStepLeafPanics | render_3d/src/main.rs:320-367 | A panicking command makes the whole traversal panic with its panic. |
| Bfc.PartPanicSticks | render_3d/src/main.rs:312-370 | Once a prefix of the loop panics, every longer prefix has the same panic. |
| Bfc.PartStepFlags | render_3d/src/main.rs:320-335 | Per step: `invert_next` is set by an invert marker and cleared by a reference, and is otherwise kept. The winding changes only on a certify comment. |
| Bfc.InvertNextMeaning | render_3d/src/main.rs:327-334 | `invert_next` is set exactly when a `BFC INVERTNEXT` comment has been seen with no reference after it. So it reaches only the very next reference. The same code is at src/bevvy.rs:235-242. |
| Bfc.WindingMeaning | render_3d/src/main.rs:303-326 | The winding is CW exactly when the last certify comment seen was `BFC CERTIFY CW`. Every model starts at CCW, whatever its caller's winding. |
| Bfc.PartColorIrrelevant | render_3d/src/main.rs:345-367 | The context colour has no effect on a part's geometry; polygons are not coloured individually. |
| Bfc.DescendInverted | render_3d/src/main.rs:303-308 | Assume the determinant sign is multiplicative. Take a part reached through a chain of references. Its starting inversion equals the starting context's, flipped exactly when the INVERTNEXT flags plus the mirroring matrices on the chain number an odd count. |
| Bfc.DesignPanicSticks | render_3d/src/main.rs:246-267 | Once the design loop panics, the rest of it is cut off with that panic. |
| Bfc.DesignParts | render_3d/src/main.rs:246-267 | Every placed part is a `.dat` file. `traverse_design` gives one colour path per part (`DesignColorPaths`), and each part's colour is its path resolved from the starting context's colour. The same code is at src/bevvy.rs:174-197. |
| Bfc.DesignColorIsInnermost | render_3d/src/main.rs:249-258 | A part's colour is the innermost non-16 code on its path, the `.dat` reference's own code included. It is 16 only when the starting colour and every code on the path are 16. |
| Bfc.DesignColorPaths | render_3d/src/main.rs:246-267 | The sub-model reference codes passed on the way to each placed part, in output order, followed by the `.dat` reference's own code. |
| Bfc.DesignModel | render_3d/src/main.rs:236-268 | Everything `traverse_design` appends: a panic on a missing model, otherwise the commands' parts in order. |
| Bfc.DesignPrefix | render_3d/src/main.rs:246-267 | The parts of the first k loop iterations, with the first panic cutting off the rest. |
| Bfc.DesignCommand | render_3d/src/main.rs:247-266 | A `.dat` reference places one part with the child's transform and `new_color(child.color, code)`. Another reference recurses with `child(sfrc, false)`. A line or polygon panics, and anything else gives nothing. |
| Bfc.DesignPartColor | render_3d/src/main.rs:250-258 | A `.dat` reference yields exactly one part. Its id is the file, its colour is `new_color(child colour, reference colour)` and its transform is the child's. The part is not recursed into. |
| Bfc.DesignPanics | render_3d/src/main.rs:242-267 | A design traversal panics only on a missing model or on a line or polygon placed directly in a design. The same code is at src/bevvy.rs:170-197. |
| Render3d.Primitives.constructor | render_3d/src/main.rs:278-283 | `Primitives::default()` is empty. |
| Render3d.Primitives.PushTriangle | render_3d/src/main.rs:355 | It appends one triangle and changes nothing else. |
| Render3d.Primitives.ExtendTriangles | render_3d/src/main.rs:366 | It appends the triangles in order and changes nothing else. |
| Render3d.Primitives.PushLine | render_3d/src/main.rs:336-338 | It appends one line and changes nothing else. |
| Render3d.Primitives.PushOptLine | render_3d/src/main.rs:340-344 | It appends one optional line and its control points, and changes nothing else. |
| Render3d.TraversePart | render_3d/src/main.rs:293-371 | It panics exactly when the specification `PartModel` does, with the same panic. Otherwise it appends exactly `PartModel`'s triangles, lines and optional lines. |
| Render3d.LeafCommand | render_3d/src/main.rs:319-369 | One non-reference iteration has the effect of `LeafStep` on the output and the BFC locals. |
| Render3d.TraverseDesign | render_3d/src/main.rs:236-268 | It panics exactly when the specification `DesignModel` does. Otherwise it appends exactly `DesignModel`'s parts. The same code is at src/bevvy.rs:164-198. |
| Render3d.BuildPartMesh | render_3d/src/main.rs:285-291 | The mesh is the traversal of the part from an identity-transform, colour-16, non-inverted context. |
| Bevvy.TraversePart | src/bevvy.rs:200-271 | It panics exactly when `PartModel` does. Otherwise `triangles` and `lines` grow by exactly `PartModel`'s triangles and lines; optional lines are dropped. |
| Bevvy.LeafCommand | src/bevvy.rs:227-269 | One non-reference iteration has `LeafStep`'s effect on the two vectors and the BFC locals. |
| Agreement.PartAgreesWithFlatten | render_3d/src/main.rs:293-371 | Whenever the viewer traversal succeeds, the PDF traversal succeeds on the same model too. The viewer's lines are the PDF lines in order. Its triangle count is one per triangle plus two per quad. |
| Agreement.PrefixAgrees | render_3d/src/main.rs:312-370 | The same agreement for every prefix of a model's loop. |
| Agreement.LeafCounts | render_3d/src/main.rs:336-367 | One leaf command adds the same lines to both traversals. It adds as many triangles as the PDF polygon splits into. |
| Normalize.Max | src/main.rs:169 | `f32::max`: at least both arguments, and equal to one of them. |
| Normalize.ExtentBounds | src/main.rs:164-174 | The shift is non-negative and at least the magnitude of every negative coordinate. |
| Normalize.ExtentAttained | src/main.rs:164-174 | The shift is 0 when no coordinate is negative. Otherwise it is the magnitude of some negative coordinate. So it is the maximum of those magnitudes, or 0. The same code is at render_2d/src/main.rs:34-44. |
| Normalize.ShapeExtent | src/main.rs:166-174 | The first loop over one shape's points extends the running shift to those points. |
| Normalize.Extent | src/main.rs:164-174 | The first loop of `normalize` on one axis: from 0, every negative coordinate c raises the running value to `max(_, -c)`. |
| Normalize.MapPrim | src/main.rs:176-179 | Updating a shape's points in place applies the map to each point. It keeps the kind, the polygon shape and the colour. |
| Normalize.Shift | src/main.rs:176-179 | The second loop's update of one point: x += dx and y += dy. |
| Normalize.MapShapes | src/main.rs:176-179 | Updating every shape keeps the count and maps each shape. |
| Normalize.UpdateShape | src/main.rs:176-179 | Shape `i` becomes its mapped version, and every other shape is unchanged. |
| Normalize.UpdatePoints | src/main.rs:176-179 | The array becomes the shapes with every point mapped. |
| Normalize.Normalize | src/main.rs:163-180 | The array becomes the input with every point shifted by the two extents. The same code is at render_2d/src/main.rs:33-50. |
| Normalize.NormalizedNonNegative | src/main.rs:176-179 | After `normalize`, no point has a negative x or y. The same code is at render_2d/src/main.rs:46-49. |
| Normalize.NormalizeUniform | src/main.rs:176-179 | Every point moves by the same (dx, dy) and keeps its z. The shape count, kinds and colours are kept. The same code is at render_2d/src/main.rs:46-49. |
| Normalize.NormalizeIdentity | src/main.rs:164-179 | With no negative coordinate, `normalize` changes nothing. The same code is at render_2d/src/main.rs:34-49. |
| Normalize.FlipAll | src/main.rs:104-107 | Every point's y is replaced by `600 - y`. The same code is at render_2d/src/main.rs:23-26. |
| Normalize.FlipY | src/main.rs:105-107 | The update of one point: y becomes 600 - y. |
| Normalize.FlipProperties | src/main.rs:104-107 | The flip keeps x, z, the kinds and the colours, and takes y to 600 - y. Flipping twice is the identity. |
| Pdf.PolygonOpsMeaning | src/pdf.rs:84-98 | `push_polygon` appends n + 1 operations, plus one if a colour is given. In order: `m` at the first point, `l` at each later point, `rg` exactly when a colour is given, then `f`. |
| Pdf.PolygonCounts | src/pdf.rs:84-98 | It emits one `m`, one `f` and no `S`, plus one `rg` exactly when a colour is given. |
| Pdf.LineCounts | src/pdf.rs:100-104 | A line's operations are one `m`, one `l` and one `S`. |
| Pdf.PolygonOps | src/pdf.rs:84-98 | What `push_polygon` appends: `m` at the first point, `l` at each later point, `rg` when a colour is given, then `f`. |
| Pdf.LineOps | src/pdf.rs:100-104 | What `push_line` appends: `m` at the first endpoint, `l` at the second, then `S`. |
| Pdf.Content.PushOp | src/pdf.rs:108-116 | It appends one operation with the operator and operands given. |
| Pdf.Content.PushPolygon | src/pdf.rs:84-98 | It appends exactly the polygon operations after the existing ones. |
| Pdf.Content.PushLine | src/pdf.rs:100-104 | It appends exactly `m`, `l`, `S` at the two endpoints. |
| Pdf.DrawPanicSticks | src/pdf.rs:52-61 | Once the shape loop panics, the rest of it is cut off with that panic. |
| Pdf.DrawStepMeaning | src/pdf.rs:52-61 | With a non-empty colour table a step does not panic. A polygon adds one `f`, and one `rg` exactly when its colour differs from `current_color`; then it becomes `current_color`. A line adds one `S` and keeps the colour. |
| Pdf.DrawMeaning | src/pdf.rs:47-61 | After the loop, `current_color` is the last polygon's colour, white if there is none. There is one `rg` per colour change starting from white, one `f` per polygon and one `S` per line. |
| Pdf.DrawShapeStep | src/pdf.rs:54-58 | Polygon k is pushed with its colour exactly when that colour differs from the previous polygon's (white before the first). A line leaves the colour unchanged. |
| Pdf.DrawStep | src/pdf.rs:53-60 | One shape-loop iteration: a line is stroked and keeps the colour. A polygon's colour is looked up and passed to `push_polygon` only when it differs from `current_color`, and it becomes `current_color`. |
| Pdf.DrawPrefix | src/pdf.rs:47-61 | The shape loop after k iterations, from white, with the first panic cutting off the rest. |
| Pdf.DrawPanics | src/pdf.rs:52-61 | The loop panics exactly when the colour table is empty and the drawing holds a polygon. |
| Pdf.EmptyTablePanics | src/pdf.rs:56 | With an empty table the first polygon panics in `by_code`, and nothing earlier does. |
| Pdf.Insert | src/pdf.rs:50 | Insertion adds exactly the new element (as a multiset). |
| Pdf.InsertionSort | src/pdf.rs:50 | The sort is a permutation (as a multiset). |
| Pdf.InsertSorted | src/pdf.rs:50 | Inserting an element from later in the input keeps the order: deeper first, and ties in input order. |
| Pdf.InsertionSortSorted | src/pdf.rs:50 | Sorting tagged shapes yields depth-descending order with ties in input order. |
| Pdf.SortByDepth | src/pdf.rs:49-50 | The sorted drawing has as many shapes as the input. |
| Pdf.SortPermutation | src/pdf.rs:49-50 | There is one input position per output shape. |
| Pdf.SortedTags | src/pdf.rs:49-50 | Every sorted entry carries a valid input position and the shape at that position. |
| Pdf.SortByDepthMeaning | src/pdf.rs:49-50 | The drawn sequence is a permutation of the input. Shapes come in descending center-z, and equal depths keep input order, like a stable `sort_by`. |
| Pdf.PushPreamble | src/pdf.rs:42-45 | It appends `w 0.1`, `cs DeviceRGB`, `CS DeviceRGB` and `J 1`, in that order. |
| Pdf.Preamble | src/pdf.rs:42-45 | The operations `w 0.1`, `cs DeviceRGB`, `CS DeviceRGB`, `J 1`, in that order. |
| Pdf.DrawShape | src/pdf.rs:53-60 | One loop iteration has `DrawStep`'s effect on the content and on `current_color`, or its panic. |
| Pdf.BuildContent | src/pdf.rs:22-61 | With no page it panics (`page_ids[0]`). Otherwise it panics exactly as the shape loop does. On success the content is the preamble, then the shape loop's operations over the depth-sorted drawing. |
| Text.JoinSplit | ins_xml/src/helpers.rs:21 | Joining the pieces of `split(sep)` gives the text back. |
| Text.SplitJoin | ins_xml/src/helpers.rs:21 | Splitting a join of separator-free pieces gives exactly those pieces. |
| Text.TokensOfJoin | ins_xml/src/helpers.rs:189 | Splitting a space-joined list of whitespace-free tokens on whitespace gives the tokens. |
| Text.UnsignedRoundTrip | ins_xml/src/helpers.rs:207 | A `u32` written in decimal parses back as itself. |
| Text.SignedRoundTrip | ins_xml/src/helpers.rs:296-303 | An `isize` written in decimal parses back as itself. |
| Text.Split | ins_xml/src/helpers.rs:21 | The pieces `str::split` yields: the maximal runs between separators, one more piece than there are separators. |
| Text.Tokens | ins_xml/src/helpers.rs:189 | The tokens `split_whitespace` yields: the maximal non-empty runs of non-whitespace. |
| Text.NatToString | ins_xml/src/helpers.rs:202 | The decimal text of an unsigned integer. |
| Text.IntToString | ins_xml/src/helpers.rs:260 | The decimal text of a signed integer, with `-` for negatives. |
| Text.ParseUnsigned | ins_xml/src/helpers.rs:207 | `u32::from_str`: an optional `+`, at least one digit, and a value below the bound. |
| Text.ParseSigned | ins_xml/src/helpers.rs:296-303 | `isize::from_str`: an optional `+` or `-`, at least one digit, and a value in range. |
| InsXml.XmlFloat | ins_xml/src/helpers.rs:33-40 | It succeeds exactly when the text is a float, with that value. Otherwise the error is invalid-value "a float" on that text. |
| InsXml.ParseEach | ins_xml/src/helpers.rs:69-71 | It succeeds exactly when every piece is a float, giving the values pointwise. Otherwise the error names a piece that failed. |
| InsXml.SplitExactly | ins_xml/src/helpers.rs:17-31 | It is Ok with the pieces exactly when the split gives N of them. Fewer gives NotEnough and more gives TooMany. |
| InsXml.Separated | ins_xml/src/helpers.rs:17-31 | The array-filling loop returns exactly `SplitExactly`. |
| InsXml.ColorFromStr | ins_xml/src/helpers.rs:57-77 | It is Ok exactly when there are four `:`-separated floats, giving r, g, b, a in order. Every failure is invalid-value on the whole text. |
| InsXml.ColorToStr | ins_xml/src/helpers.rs:50-55 | `Color` serialisation: the four components' `Display` texts joined by `:`. |
| InsXml.ColorRoundTrip | ins_xml/src/helpers.rs:50-77 | Every colour serialised as `r:g:b:a` reads back as itself. |
| InsXml.RectFromStr | ins_xml/src/helpers.rs:94-118 | It is Ok exactly when there are four space-separated floats, giving left, top, right, bottom. Every failure is invalid-value on the whole text. |
| InsXml.RectToStr | ins_xml/src/helpers.rs:87-92 | `Rect` serialisation: `spaces` of left, top, right and bottom. |
| InsXml.RectRoundTrip | ins_xml/src/helpers.rs:87-118 | Every rectangle serialised with `spaces` reads back as itself. |
| InsXml.Shorter | ins_xml/src/helpers.rs:120-126 | The result is one of the two and no longer than either. A tie goes to the first. |
| InsXml.PadExponent | ins_xml/src/helpers.rs:131-135 | A `'0'` is inserted before the last character exactly when the next-to-last one is `'-'`. |
| InsXml.PadExponentMeaning | ins_xml/src/helpers.rs:132-135 | `E-d` becomes `E-0d`, and `E-dd` is unchanged. |
| InsXml.SpacesToken | ins_xml/src/helpers.rs:130-136 | One value's text is the shorter of `Display` and the padded `{:E}`. |
| InsXml.Spaces | ins_xml/src/helpers.rs:128-142 | The push/push/pop loop yields one token per value with single spaces between and no trailing space. Empty input gives `""`. |
| InsXml.SpacesOf | ins_xml/src/helpers.rs:128-142 | What `spaces` returns: the token of each value, joined by single spaces with no trailing space. |
| InsXml.FloatTokenMeaning | ins_xml/src/helpers.rs:130-136 | Each token reads back as its value and holds no whitespace. |
| InsXml.SpacesSplit | ins_xml/src/helpers.rs:128-142 | `spaces` output splits, on a space or on any whitespace, into exactly its tokens, which parse back to the values. |
| InsXml.VecSpaceFromStr | ins_xml/src/helpers.rs:148-151 | A wrong piece count panics in `expect`. Otherwise it is `ParseEach` of the pieces. |
| InsXml.VecSpaceOptToStr | ins_xml/src/helpers.rs:157 | `None` panics exactly and only in `expect`. `Some` is written with `spaces`. |
| InsXml.VecSpaceOptFromStr | ins_xml/src/helpers.rs:158-161 | It succeeds exactly when the plain parser does, always giving `Some`. |
| InsXml.VecSpaceRoundTrip | ins_xml/src/helpers.rs:144-182 | `Vec2Space`, `Vec3Space` and their `Opt` forms read back every value. |
| InsXml.FlatPairs | ins_xml/src/helpers.rs:187 | Flattening points gives two coordinates per point. |
| InsXml.PointListToStr | ins_xml/src/helpers.rs:187 | `PointList` serialisation: `spaces` over x and y of every point. |
| InsXml.ParsePointList | ins_xml/src/helpers.rs:188-196 | The `while let` loop returns exactly what `PointsFrom` makes of the whitespace tokens. |
| InsXml.PointsFrom | ins_xml/src/helpers.rs:189-195 | The `PointList` parser on a token sequence: tokens are taken as (x, y) pairs. A bad float is its error, and a last x with no y is missing `y`. |
| InsXml.PointListRoundTrip | ins_xml/src/helpers.rs:184-197 | Every serialised point list reads back as itself. |
| InsXml.PointListOddCount | ins_xml/src/helpers.rs:191-192 | An odd number of well-formed floats is a missing-`y` error. |
| InsXml.ParseSizeGuideParts | ins_xml/src/helpers.rs:203-215 | The loop returns exactly what `PartsFrom` makes of the whitespace tokens. |
| InsXml.PartLine | ins_xml/src/helpers.rs:202 | One size-guide part written as `id`, tab, colour, tab, x, tab, y, newline. |
| InsXml.SizeGuideToStr | ins_xml/src/helpers.rs:202 | `SizeGuidePartList` serialisation: the part lines concatenated. |
| InsXml.PartsFrom | ins_xml/src/helpers.rs:206-214 | The size-guide parser on a token sequence, in groups of id, colour, x and y. A short group names its first missing field. A bad colour or float is an invalid value that says it expected a float. |
| InsXml.SizeGuideRoundTrip | ins_xml/src/helpers.rs:199-216 | Serialise parts as tab-separated, newline-terminated lines, with each id a single token. They read back as themselves. |
| InsXml.SizeGuideShortInput | ins_xml/src/helpers.rs:206-209 | Well-formed input whose last group is short fails on the first missing field of that group: `color`, `x` or `y`. |
| InsXml.UpperBoolFromStr | ins_xml/src/helpers.rs:222-226 | `True`/`true` give true and `False`/`false` give false. Each is an iff, and anything else is rejected with that text. |
| InsXml.UpperBoolToStr | ins_xml/src/helpers.rs:221 | `True` for true and `False` for false. |
| InsXml.UpperBoolRoundTrip | ins_xml/src/helpers.rs:218-227 | Every boolean reads back as itself. The same code is at src/instruction/helpers.rs:87-96. |
| InsXml.UpperBoolOptToStr | ins_xml/src/helpers.rs:232 | The result is `"True"` exactly for `Some(true)`, otherwise `"False"`. |
| InsXml.UpperBoolOptFromStr | ins_xml/src/helpers.rs:233-237 | It succeeds exactly when `UpperBool` would, always with `Some`. |
| InsXml.UpperBoolOptRoundTrip | ins_xml/src/helpers.rs:229-238 | Every value reads back as `Some`. `None` comes back as `Some(false)`, and the two `Some` values come back as themselves. |
| InsXml.ResizeBarsText | ins_xml/src/helpers.rs:252-264 | Serialising fails the pop assertion exactly when the list is empty. |
| InsXml.WriteBar | ins_xml/src/helpers.rs:255-260 | One bar writes its four fields, each followed by a space. |
| InsXml.OffsetText | ins_xml/src/helpers.rs:258-259 | The offset written as the shorter of its `Display` text and its two-decimal text. |
| InsXml.BarFields | ins_xml/src/helpers.rs:255-260 | The four fields one bar writes: `True`/`False`, both indices, and the offset text. |
| InsXml.WriteResizeBars | ins_xml/src/helpers.rs:252-264 | The loop with its final pop returns exactly `ResizeBarsText`. |
| InsXml.ParseBar | ins_xml/src/helpers.rs:283-315 | One loop iteration either fails with the list's error or takes four tokens for a bar that heads the result. |
| InsXml.ParseResizeBars | ins_xml/src/helpers.rs:280-318 | The loop returns exactly what `BarsFrom` makes of the ASCII-whitespace tokens. |
| InsXml.BarsFrom | ins_xml/src/helpers.rs:283-317 | The resize-bar parser on a token sequence, in groups of flag, two integers and offset. A bad flag, a bad integer or a bad float is an invalid value. A short group names its first missing field. |
| InsXml.Reread | ins_xml/src/helpers.rs:259 | Re-reading a bar keeps its flag and indices. The offset becomes the value its written text denotes. |
| InsXml.ResizeBarsRoundTrip | ins_xml/src/helpers.rs:252-318 | A non-empty list reads back with every flag and index. An offset is exact when `Display` was chosen, and otherwise is what its two-decimal text parses to. |
| InsXml.ResizeBarsShortInput | ins_xml/src/helpers.rs:295-305 | Well-formed input whose last group is short fails on the first missing field of that group: `refIndex1`, `refIndex2` or `offset`. |
| Instruction.Pieces | src/instruction/helpers.rs:7-18 | It is `Some` with the pieces exactly when the split gives N of them, else `None`. |
| Instruction.PiecesAgree | src/instruction/helpers.rs:7-18 | It accepts the same texts, with the same pieces, as the `ins_xml` `separated`. |
| Instruction.SeparatedOption | src/instruction/helpers.rs:7-18 | The array-filling loop returns exactly `Pieces`. |
| Instruction.ColorFromStr | src/instruction/helpers.rs:40-60 | Every failure is invalid-value on the whole text. |
| Instruction.ColorParsersAgree | src/instruction/helpers.rs:33-60 | This copy's colour parser equals the `ins_xml` one on every input. So it reads every serialised colour back. |
| Instruction.Displays | src/instruction/helpers.rs:65-66 | One `Display` text per component, in order. |
| Instruction.ArrToStr | src/instruction/helpers.rs:65-80 | `Arr4Space` and `Vec2Space` serialisation: the `Display` texts joined by single spaces. |
| Instruction.ArrFromStr | src/instruction/helpers.rs:68-84 | A piece count other than N panics in `expect`, and only then. Otherwise it is `ParseEach` of the N pieces. `Vec2Space` (lines 81-84) is the same with N = 2. |
| Instruction.ArrRoundTrip | src/instruction/helpers.rs:62-85 | `Arr4Space` and `Vec2Space` read every value back. |

## Left out

- File and archive I/O: reading LDConfig.ldr and `.io`/`.ins` zip files, the resolver, and the `*_main` entry points. `ColorMaps.Load` takes the parsed commands.
- LDraw parsing by `weldr`: the commands come in as an `Ldraw.SourceMap`.
- The Bevy scene setup, asset caches and meshes (`setup`, `Handles`, `spawn_part`). These are engine plumbing with no logic of their own.
- The lopdf document assembly: object ids, the page tree, `encode` and `save`. `Pdf.BuildContent` models only whether `page_ids[0]` exists.
- The struct declarations in page.rs, style.rs and lib.rs of both instruction models. They only derive serde traits; serde and quick_xml behaviour is not visible.
- `option_from_str` in ins_xml/src/helpers.rs. It only forwards to serde_with's `DisplayFromStr`.
- Float numerics:
  - matrix products, determinants and point transforms are an abstract `Algebra`;
  - `GeometryContext::new`'s trigonometry is the parameter of `Ldr.NewContext`;
  - `f32` formatting and parsing is an abstract `FloatFormat`, and the round trips assume it is faithful;
  - coordinates are reals, so rounding in `normalize` and `center` is not modelled;
  - `n / 255.0` is real division.
- common/src/ldr.rs is not part of this model. It defines `Winding`, the `inverted` flag, `GeometryContext::new()` and `child(sfrc, invert)`.
  - `Bfc.NewBfcContext`: the fresh viewer context is *assumed* to start with colour 16 and a cleared `inverted` flag, as src/ldr.rs's context starts at 16. `Render3d.BuildPartMesh` inherits this assumption.
  - `Bfc.BfcChild`: the child's flag is *assumed* to be the parent's XORed with `invert`. The transform and colour follow src/ldr.rs.
  - `Bfc.DescendInverted` additionally assumes the determinant sign is multiplicative. That is a stated hypothesis, not an axiom.
- src/bevvy.rs uses that same unshown API. The src/ldr.rs shown beside it has no `inverted` field, so both viewers are modelled on the common API.
- Termination rank: `SourceMap.Ranked` requires references to go to lower-ranked models. A cyclic source map, on which the source would recurse forever, is outside the model.
- `Pdf.SortByDepth`: the standard library's stable merge sort is replaced by a stable insertion sort with the same key. The model proves only the sort's specification (a permutation, depth-descending, ties in input order), not the library's algorithm. `total_cmp` ordering of NaN is not modelled, since depths are reals.
- Error text: serde's messages are modelled as constructor values (`InvalidValue(text, expected)`, `MissingField(name)`, `Panic(message)`, `InvalidBool(text)`), not as formatted strings.
- Loop bodies as helper methods: `Render3d.LeafCommand`, `Bevvy.LeafCommand`, `Pdf.DrawShape`, `Normalize.UpdateShape`, `InsXml.SpacesToken`, `InsXml.WriteBar` and `InsXml.ParseBar` are the bodies of the source's loops. They are split out so that each proof stays small.
- `Text.Split` splits on one character. That is every separator the codecs use (`":"` and `" "`).
- `split_whitespace` is modelled with the Unicode White_Space set (`Text.IsWhitespace`). `split_ascii_whitespace` uses the ASCII set (`Text.IsAsciiWhitespace`).
- `InsXml.SizeGuideRoundTrip` requires every id to be a single whitespace-free token. The source does not check this; an id with a space does not read back.
- `InsXml.ResizeBarsRoundTrip` states the offset exactly only when `Display` is not longer than the two-decimal form. Otherwise the offset comes back rounded, since the source writes the shorter text.
- `Ldr.Traverse`, `Render3d.TraversePart`, `Render3d.TraverseDesign` and `Bevvy.TraversePart` state their output only when they do not panic. After a panic the source's output is never used.
- `Render3d.BuildPartMesh`: the identity matrix is a parameter, and so is the view transform of `GeometryContext::new`.

# Verification of the algorithms in the RTS examples

RTS runs TypeScript, JavaScript and helper scripts. This project models the algorithms that its examples,
benches and scripts carry and proves what they are for. Each module is one program:

- `Voxels`, `Raycast`, `Frames`: the voxel game. The grid with its chunk counts and ceiling, the grid walk of
  the renderer and of the crosshair over exact reals, and the frame scheduler over a checkerboard framebuffer.
  The walk with chunk skipping and sky exits is proved equal to the walk that reads every cell; that walk is
  proved to report the first block in view; it reports sky only when none is, for exactly those rays for which
  that can hold whatever the world is made of, among them all from an eye over the world; and over every run of
  the loop each pixel on screen was drawn in the last frame or the one before, at the resolution now shown, by a ray
  of which the inner products with the three directions of the camera are known.
- `Lexer`, `Grammar`, `Calculator`, `Formulas`: the scientific calculator. The recursive-descent parser accepts exactly
  the language of its grammar and inverts the shortest printing; its arrays hold the tree in post-order; the
  evaluator with its sticky flag agrees with a partial meaning of trees. Formulas as they are
  written at school are what it answers, with the values they have there, and all that it answers.
- `Lcg`, `Machin`, `Limbs`: exact arithmetic. The generator modulo 2^32 has full period, the fixed-point Machin
  series has a proved error and known digits, three limbs carry a product modulo 10^18, trial division counts primes.
- `PathWalk`, `Addresses`, `HtmlTokens`, `HtmlTree`, `Layout`: trees. The stack walk emits document order; its
  paths are addresses under an exact condition on the tags, for sets of tags and, through the tokenizer and the tree
  builder of the engine, for pairs of tags over all texts of pages; the layout's
  boxes are nested and stacked, and its display list is the nodes in document order.
- `ChatLog`, `Chat`, `Chunked`, `Scanner`: text protocols. The polled log over every interleaving with lost and late
  answers, the chunked decoder on whole and on cut streams, and the brace scanner against a grammar.
- `Synth`, `Tones`, `Rhythm`: machines over frames. Voices with envelopes and an echo ring, and the samples of a
  struck key in closed form; a judging loop against the history of frames.
- `Decimal`, `Options`, `Reals`, `Sequences`: shared notions.

Code that updates state is modelled by classes and loops whose contracts refer to specification functions; the
laws are lemmas about those functions. Where a number is a double, geometry and audio are modelled over `real`
and integers over `int`, with the bound 2^53 proved where the source relies on it.

Places where the code and its comments differ follow the code:

- the rhythm game says that alternate blocks of notes are mirrored; the quotient is fractional, and only every
  eighth note is (`Rhythm.MirroredColumns`);
- the low resolution of the voxel game is called about 60% of the full one; it is 15% rounded down, times four;
- a synthesizer voice let go with its envelope at zero is idle one frame later, not at once
  (`Synth.ReleaseBound`, `Synth.ReleaseFromZero`).

Claims that hold only under a premise are given with their exact condition and a failing input:

- byte positions in the chat log: `Chat.DeliveryNeedsAscii`, with the message of `Chat.AccentCuts`;
- printed paths as addresses. The tokenizer takes everything up to white space as a tag name
  (crates/rts-dom/src/html.rs:131-135), so a tag may spell out a path: `Addresses.ConfusableExact` and
  `Addresses.TagsShareAPath`, with the text of `Addresses.SlashTagsCollide`;
- sky for rays that start away from the world: `Raycast.SkyIsRight`, with the ray of `Raycast.FarRayUnseen`. The
  player never walks the eye out of the sides (examples/rtscraft/game/player.ts:79 and :94); the exported function
  takes any camera;
- nothing in reach of the crosshair: `Raycast.NothingIsRight`, with the eye above the world of `Raycast.AboveUnseen`.

`dafny verify dfyconfig.toml` checks the project.

## Model

| member | source | states |
|---|---|---|
| `Voxels.Dims.OffsetInjective` | examples/rtscraft/engine/world.ts:107 | two different cells of the box never share a buffer slot |
| `Voxels.Dims.OffsetOrder` | examples/rtscraft/engine/world.ts:107 | the buffer runs along x, then along z, then upwards |
| `Voxels.Dims.ViewWrite` | examples/rtscraft/engine/world.ts:115 | writing the slot of a cell changes what is seen at that cell and at no other |
| `Voxels.PlaceInChunk` | examples/rtscraft/engine/world.ts:20-22 | every cell belongs to exactly one 4x4x4 chunk, at exactly one of its 64 places |
| `Voxels.OccupiedAtMost64` | examples/rtscraft/engine/world.ts:43-45 | no chunk count can leave the range of the byte that holds it |
| `Voxels.EmptyChunkIsAir` | examples/rtscraft/engine/world.ts:20-22 | a zero count in an exact index means that every cell of the chunk is air: the licence for skipping it |
| `Voxels.OccupiedScan` | examples/rtscraft/engine/world.ts:62-74 | one scanned cell adds itself to its own chunk and to no other |
| `Voxels.OccupiedWrite` | examples/rtscraft/engine/world.ts:112-118 | an edit changes the occupancy of its own chunk by at most that one place |
| `Voxels.CountsScan` | examples/rtscraft/engine/world.ts:62-69 | counting one more cell keeps the counts exact for all cells scanned so far |
| `Voxels.CountsWrite` | examples/rtscraft/engine/world.ts:114-117 | after an edit with its plus-one or minus-one the counts are exact for the new grid, with no wrap of the byte |
| `Voxels.ClearAfterWrite` | examples/rtscraft/engine/world.ts:115-118 | after an edit and the update of its column everything from the new ceiling up is air in every column |
| `Voxels.World.BumpChunk` | examples/rtscraft/engine/world.ts:40-46 | exactly one count moves, by delta modulo 256 |
| `Voxels.World.RebuildChunks` | examples/rtscraft/engine/world.ts:49-75 | whatever the index held, afterwards every count is the number of blocks in its chunk |
| `Voxels.HeightsWrite` | examples/rtscraft/engine/world.ts:112-118 | after an edit every column holds its height, if the slot of the edited column is written with the height it has now |
| `Voxels.World.UpdateColumn` | examples/rtscraft/engine/world.ts:79-89 | exactly one height slot is written, with one more than the highest block of the column as a byte, and the ceiling becomes the maximum of itself and that height |
| `Voxels.World.RebuildHeights` | examples/rtscraft/engine/world.ts:92-102 | afterwards every column holds its height and no column holds a block at or above the ceiling |
| `Voxels.World.Reindex` | examples/rtscraft/engine/world.ts:226-227 | after generation the index agrees with any grid at all: exact counts, exact heights and a clear space above the ceiling |
| `Voxels.World.Get` | examples/rtscraft/engine/world.ts:105-108 | the block at any coordinates, air outside the box |
| `Voxels.World.Set` | examples/rtscraft/engine/world.ts:112-119 | one cell changes and the whole index still agrees with the grid; outside the box nothing changes |
| `Raycast.AxisStart` | examples/rtscraft/raycast.ts:162-173 | the initial tMax of an axis is the time of its first grid plane, also for zero and negative directions |
| `Raycast.AxisStay` | examples/rtscraft/raycast.ts:162-173 | up to its next crossing an axis stays inside its slab |
| `Raycast.AxisCross` | examples/rtscraft/raycast.ts:191-206 | adding delta to tMax gives the time of the far side of the next slab |
| `Raycast.StartGeometry` | examples/rtscraft/raycast.ts:162-176 | the set-up establishes the geometric invariant of the walk |
| `Raycast.StepGeometry` | examples/rtscraft/raycast.ts:190-206 | each step crosses the smallest of the three tMax values, time does not go back, and the ray point lies in the closed cubes of both cells, on their shared face |
| `Raycast.CurrentCellCovers` | examples/rtscraft/raycast.ts:190-206 | between two crossings the ray is inside no cell but the current one |
| `Raycast.HitIsFirst` | examples/rtscraft/raycast.ts:190-227 | the cell reported blocks, was entered on the reported face within reach, and every other cell pierced before it, except the first, lets the ray pass |
| `Raycast.LeftForGood` | examples/rtscraft/raycast.ts:208-209 | a ray that has left the grid sideways or below is never inside the grid again |
| `Raycast.BudgetCoversRange` | examples/rtscraft/raycast.ts:190 | for rays slower than 3.1 cells per unit the 96 steps are never what ends a walk of range 30 |
| `Raycast.PiercesExact` | examples/rtscraft/raycast.ts:161-206 | a slab test that a caller can compute says exactly whether a ray pierces any cell of the world within a given reach, also for rays that run in a plane between cells |
| `Raycast.MissIsRight` | examples/rtscraft/raycast.ts:161-227 | for both rays of the program: when nothing is found every cell of the world pierced within reach, the first one aside, lets the ray pass, unless the ray is unseen |
| `Raycast.SkyIsClear` | examples/rtscraft/raycast.ts:161-232 | no block reported means that none is in view within range 30, for every ray that is not unseen: all that start over the world, and those from outside that enter at the first step or never |
| `Raycast.SkyIsRight` | examples/rtscraft/raycast.ts:208-209 | the exact condition: sky is right whatever the world holds if and only if the ray is not unseen, that is, started away from the world, away still after a first step within range, and yet piercing the world by the slab test |
| `Raycast.FarRayUnseen` | examples/rtscraft/raycast.ts:208-209 | an unseen ray, with the cell of the world that it pierces |
| `Raycast.PixelShowsFirstBlock` | examples/rtscraft/raycast.ts:161-232 | a pixel shows the first block of the grid in view along its ray, whatever the ray; sky means that none is in view, for every ray that is not unseen |
| `Raycast.SeenInSpace` | examples/rtscraft/raycast.ts:125-232 | in coordinates: the block reported is not air, the ray meets the surface of its cube within 30, and every cube of the world it passes through before, the first one aside, is air |
| `Raycast.SkyInSpace` | examples/rtscraft/raycast.ts:125-232 | and for no block reported every cube of the world that it passes through within 30 is air, for every ray slower than 3.1 that is not unseen |
| `Raycast.OutsideSeesNothing` | examples/rtscraft/raycast.ts:208-209 | a ray that is still away from the world after its first step sees nothing, whatever stands further on |
| `Raycast.FaceFractions` | examples/rtscraft/raycast.ts:236-244 | the texture coordinates of a hit lie in [0, 1] |
| `Raycast.FacePoint` | examples/rtscraft/raycast.ts:236-244 | added to the corner of the cell on the two axes of the face they give the point at which the ray meets it |
| `Raycast.EditSelectsFirstSolid` | examples/rtscraft/raycast.ts:52-77 | the selected cell is the first solid one within 6 units; the cell offered for placing is its neighbour on the ray, and is free or the cell of the eye |
| `Raycast.SelectedInSpace` | examples/rtscraft/raycast.ts:10-66 | in coordinates: the cube selected is neither air nor water, is met within 6, and everything before it, the first cube aside, is air or water |
| `Raycast.NothingInSpace` | examples/rtscraft/raycast.ts:10-66 | and for -1 everything within 6 is air or water, for every ray slower than 2 that is not unseen |
| `Raycast.NothingInReach` | examples/rtscraft/raycast.ts:10-66 | -1 means that no solid block, except in the first cell, is pierced within 6 units, for every ray slower than 2 cells per unit that is not unseen |
| `Raycast.NothingIsRight` | examples/rtscraft/raycast.ts:10-66 | the exact condition: -1 is right whatever the world holds if and only if the ray is not unseen, where the world ends at its top layer as well |
| `Raycast.AboveUnseen` | examples/rtscraft/raycast.ts:62 | the failing case: an eye above the world looks down at its top layer and selects nothing |
| `Raycast.RisingSeesSky` | examples/rtscraft/raycast.ts:213-214 | a rising ray at or above the ceiling meets no block, however many steps are left |
| `Raycast.SkyExit` | examples/rtscraft/raycast.ts:210-214 | both early exits to the sky give what the plain walk gives |
| `Raycast.SetUpAxis` | examples/rtscraft/raycast.ts:162-173 | the set-up code computes the crossing time and the gap for every sign of the direction, with infinity for zero |
| `Raycast.Carry` | examples/rtscraft/raycast.ts:193-195 | cell coordinate = 4 * chunk + place is kept with the place in 0..3, and the count becomes stale exactly when the chunk changes |
| `Raycast.Advance` | examples/rtscraft/raycast.ts:191-206 | the three-way comparison of the code is the step of the plain walk, with chunk coordinates following |
| `Raycast.Inspect` | examples/rtscraft/raycast.ts:215-224 | the block of a cell is found although the count is read only when stale and the cell only when its chunk is not empty; every read is in bounds |
| `Raycast.Probe` | examples/rtscraft/raycast.ts:207-225 | a cell just entered stops the code, with or without a block, exactly for the reasons the plain walk has or because the ray has risen clear |
| `Raycast.Turn` | examples/rtscraft/raycast.ts:190-227 | one turn of the loop ends with the answer of the plain walk or leaves one step fewer to take |
| `Raycast.Traverse` | examples/rtscraft/raycast.ts:177-227 | the loop with chunk skipping and sky exits gives the same block, cell, side and time as reading every cell |
| `Raycast.March` | examples/rtscraft/raycast.ts:161-227 | a pixel ray through the fast walk equals the plain walk of the same ray |
| `Raycast.CastEdit` | examples/rtscraft/raycast.ts:12-78 | the crosshair ray writes the selected and the placing cell of the plain walk, or -1 six times |
| `Raycast.TraverseEdit` | examples/rtscraft/raycast.ts:52-70 | the 16-step loop equals the plain walk with reach 6 over solid blocks |
| `Frames.ViewIsSquare` | examples/rtscraft/raycast.ts:107-118 | what is ahead, to the right and above is three directions of length one, square to each other, for every yaw and pitch |
| `Frames.AimPoints` | examples/rtscraft/raycast.ts:142-160 | the ray of screen position (u, v) starts at the eye and goes exactly one ahead, u to the right and v up |
| `Frames.ScreenSquare` | examples/rtscraft/raycast.ts:142-156 | from column to column u grows by 1.32 over the height, from row to row v falls by as much, and both change sign when the screen is mirrored: no other screen coordinates do |
| `Frames.PixelInSpace` | examples/rtscraft/raycast.ts:125-232 | pixel (x, y) of any resolution shows the first block that the ray with these coordinates meets within 30 of the eye, and the sky only where there is nothing but air, for every ray that is not unseen |
| `Frames.AimLength` | examples/rtscraft/raycast.ts:107-118 | for every yaw and pitch a ray has the length of (1, u, v) |
| `Frames.AimSpeed` | examples/rtscraft/raycast.ts:123-124 | no ray of the screen is fast enough to outrun the step budget |
| `Frames.NothingMeansClear` | examples/rtscraft/raycast.ts:10-66 | for every camera whose crosshair ray is not unseen, all inside the world among them, -1 means that nothing solid is in reach |
| `Frames.ScreenBounds` | examples/rtscraft/raycast.ts:140-156 | u and v stay within 1.1 and 0.66 for every pixel of every admissible aspect |
| `Frames.SkyMeansClear` | examples/rtscraft/raycast.ts:125-232 | on every pixel of every resolution of the game sky means that no block within range 30 is in view, for every ray that Raycast.SkyIsRight admits: all rays from an eye over the world, and those from outside that enter at once |
| `Frames.ParitiesPartition` | examples/rtscraft/raycast.ts:152-155 | parity 0 draws the pixels whose coordinates are both even or both odd, parity 1 the others |
| `Frames.RowOrder` | examples/rtscraft/raycast.ts:152-155 | starting at the parity and stepping by two meets every selected pixel of a row and no other |
| `Frames.RenderFrame` | examples/rtscraft/raycast.ts:138-299 | exactly the selected pixels of the active area are written, each with what its own ray meets at the given resolution, in bounds; all other slots keep their value |
| `Frames.DrawPixel` | examples/rtscraft/raycast.ts:155-296 | one pixel: one ray, one slot written, with the block, side and time that the ray meets |
| `Frames.AfterPainting` | examples/rtscraft/raycast.ts:152-155 | a full frame leaves every pixel new; a half frame leaves the other half from the frame before, if that half was ready |
| `Frames.FrameLeaves` | examples/rtscraft/raycast.ts:152-155 | after any frame each pixel of the active area was drawn for itself at the resolution of that frame, in that frame or the one before, and holds what the view of its frame sees there |
| `Frames.DrawableFits` | examples/rtscraft/main.ts:56-60 | every full and low resolution fits the framebuffer and has an aspect for which the step budget suffices |
| `Frames.Resolutions` | examples/rtscraft/main.ts:56-60 | the ten resolutions: five presets, and 15% rounded down times four of each |
| `Frames.LeftClick` | examples/rtscraft/main.ts:166-175 | the left button empties the selected cell and changes no other |
| `Frames.RightClick` | examples/rtscraft/main.ts:176-193 | the right button fills the cell before the selected one and changes no other, and never the cell of the eye or that of the point 1.5 below it |
| `Frames.Game.constructor` | examples/rtscraft/main.ts:44-60 | the warm-up state satisfies the invariant of the scheduler |
| `Frames.Game.Play` | examples/rtscraft/main.ts:165-193 | breaking and placing change exactly the cells of the crosshair ray, the second seeing the first; a block is never placed into the player |
| `Frames.Game.Choose` | examples/rtscraft/main.ts:198-218 | moving gives the low resolution in full; a half frame is chosen only when the other half is on screen at the full resolution, and then the parity flips |
| `Frames.Game.Update` | examples/rtscraft/main.ts:109-195 | with the menu open nothing of the world changes; otherwise its blocks are those that the clicks make of it |
| `Frames.Game.Frame` | examples/rtscraft/main.ts:198-336 | after every turn each shown pixel was drawn in the last frame or the one before, at the resolution now shown, and holds what the camera and the world of its frame give there, through motion, stillness and preset changes; the turn adds one frame, of the camera and the world it left |
| `Frames.Game.Loop` | examples/rtscraft/main.ts:198-336 | the same at the end of every run of turns, which has drawn one frame a turn |
| `Frames.Game.Show` | examples/rtscraft/main.ts:198-226 | choice and drawing together keep the invariant and the freshness; in motion every pixel is of the frame just drawn, at the low resolution |
| `Frames.Game.Paint` | examples/rtscraft/main.ts:220-223 | for any mode the scheduler can choose the buffer is fresh afterwards, and the half that the next frame may leave out is ready |
| `Frames.Game.Draw` | examples/rtscraft/main.ts:220-226 | the frame drawn replaces everything stale, and what is shown is recorded |
| `Frames.Game.Menu` | examples/rtscraft/main.ts:299-346 | a preset change asks for two full frames, which is what keeps the invariant |
| `Lexer.ScanNumber` | examples/calc_sci.ts:69-85 | the longest run of digits with at most one dot, from any position |
| `Lexer.ScanIdent` | examples/calc_sci.ts:87-92 | the longest run of letters |
| `Lexer.Tokenize` | examples/calc_sci.ts:105-147 | the index loop produces the token list of the recursive definition, or an error exactly where that has none |
| `Lexer.FunctionNames` | examples/calc_sci.ts:48-61 | each of the eleven names is made of letters and is read as its own function |
| `Lexer.LexText` | examples/calc_sci.ts:105-147 | reading inverts writing without blanks, on every token list that keeps numbers and names apart |
| `Lexer.YieldSeparated` | examples/calc_sci.ts:174-180 | everything the grammar derives keeps numbers and names apart |
| `Lexer.ReadBack` | examples/calc_sci.ts:105-274 | the text of the shortest token list of any tree is tokenized and parsed back to that tree |
| `Grammar.Sound` | examples/calc_sci.ts:190-274 | whatever the parser accepts is a derivation of its level, of exactly the tokens consumed |
| `Grammar.Complete` | examples/calc_sci.ts:190-274 | every derivation not followed by an operator of its level is found, with the position after it |
| `Grammar.ParserIsGrammar` | examples/calc_sci.ts:190-274 | a token list parses with all tokens consumed if and only if the grammar derives it, and to the tree derived |
| `Grammar.Unambiguous` | examples/calc_sci.ts:174-180 | no token list derives two trees |
| `Grammar.ParsePrint` | examples/calc_sci.ts:190-274 | printing any tree and parsing it gives the tree back with all tokens consumed |
| `Grammar.PrintIsMinimal` | examples/calc_sci.ts:174-180 | the printed derivation is the shortest derivation of its tree at every level |
| `Grammar.ShowIsShortest` | examples/calc_sci.ts:174-180 | no shorter token list parses to the same tree |
| `Grammar.Associativity` | examples/calc_sci.ts:190-233 | two sums group to the left, two products do, two powers to the right, and the tokens have no other reading |
| `Grammar.ProductInside` | examples/calc_sci.ts:190-220 | for all numbers: with + or - beside *, / or %, in either order, the product is the inner node, and the tokens have no other reading |
| `Grammar.PowerInside` | examples/calc_sci.ts:206-233 | the same for a power beside a sum or a product |
| `Grammar.SignedPower` | examples/calc_sci.ts:222-244 | a minus sign binds tighter than a power, and the tokens have no other reading |
| `Formulas.NumeralExact` | examples/calc_sci.ts:69-85 | the numerals are exactly the texts of digits with at most one dot among them |
| `Formulas.SumReads` | examples/calc_sci.ts:105-147 | the text of any formula is tokenized to the tokens of its derivation, whatever follows that does not continue it |
| `Formulas.LeftIsRemainder` | examples/calc_sci.ts:299-302 | the remainder is what is left of one size after the other one has been taken off as often as it goes, with the sign of the dividend |
| `Formulas.NameMeans` | examples/calc_sci.ts:306-331 | each of the eleven functions by its name, with exactly the arguments that it has no value for |
| `Formulas.FormulaAnswered` | examples/calc_sci.ts:105-374 | whatever sum of products of powers of signed operands is typed, the answer is the value that school arithmetic gives it, or the math error exactly when it has none |
| `Formulas.SumsAnswered` | examples/calc_sci.ts:190-289 | for all numerals s and t the answers to s+t and s-t are the sum and the difference |
| `Formulas.ProductsAnswered` | examples/calc_sci.ts:206-303 | and those to s*t, s/t and s%t the product, the quotient and the remainder, the last two with the math error exactly for a zero divisor |
| `Formulas.PowersAnswered` | examples/calc_sci.ts:222-298 | s^t and -s^t take powers of s and of -s; s^t^u groups to the right |
| `Formulas.OrderAnswered` | examples/calc_sci.ts:190-290 | s+t*u and s*t-u multiply first, s-t-u takes the left difference first |
| `Formulas.TotalNamesAnswered` | examples/calc_sci.ts:310-330 | sin(s), cos(s), tan(s), exp(s), asin(s), acos(s), atan(s) and abs(s) answer that function of s |
| `Formulas.PartialNamesAnswered` | examples/calc_sci.ts:313-323 | ln(s) and log(s) answer a logarithm exactly above zero and sqrt(s) a root exactly from zero on, and the math error otherwise |
| `Formulas.ConstantsAnswered` | examples/calc_sci.ts:123-126 | pi and e answer their values |
| `Formulas.OthersRefused` | examples/calc_sci.ts:105-147 | any character outside blanks, digits, letters, the dot and the eight symbols is a token error, wherever it stands |
| `Formulas.UnknownWord` | examples/calc_sci.ts:120-129 | so is any word that is none of the thirteen known ones |
| `Formulas.NotAnswered` | examples/calc_sci.ts:345-352 | no answer exactly to nothing typed, and the token error exactly to what cannot be tokenized |
| `Formulas.OnlyFormulas` | examples/calc_sci.ts:105-374 | what is answered with a value or the math error has the tokens of a formula: the formulas are, up to blanks, all that is understood |
| `Calculator.ArenaIsTree` | examples/calc_sci.ts:149-164 | a segment of the arena is a tree: children have smaller indices and every entry but the root is referenced exactly once |
| `Calculator.EncodedIsStored` | examples/calc_sci.ts:157-164 | an appended segment stores its tree, whatever surrounds it |
| `Calculator.StoredIsUnique` | examples/calc_sci.ts:279-334 | an entry stores one tree only |
| `Calculator.RemainderSign` | examples/calc_sci.ts:299-302 | the remainder is smaller than the divisor and has the sign of the dividend |
| `Calculator.Machine.NewNode` | examples/calc_sci.ts:157-164 | the five arrays grow together by one entry, whose index is returned |
| `Calculator.Machine.AddTerm` | examples/calc_sci.ts:194-201 | one turn of the loop over sums: the operator, its right operand and their node, or the error, as the grammar has them |
| `Calculator.Machine.ParseExpr` | examples/calc_sci.ts:190-204 | result, error flag and position are those of the grammar; the arena grows by exactly the post-order segment of the tree, earlier entries unchanged |
| `Calculator.Machine.MultiplyPower` | examples/calc_sci.ts:210-217 | one turn of the loop over products |
| `Calculator.Machine.ParseTerm` | examples/calc_sci.ts:206-220 | the same for products |
| `Calculator.Machine.Raise` | examples/calc_sci.ts:226-230 | the operator and the exponent of a power, joined to the base |
| `Calculator.Machine.ParsePower` | examples/calc_sci.ts:222-233 | the same for powers |
| `Calculator.Machine.ParseUnary` | examples/calc_sci.ts:235-244 | the same for signs |
| `Calculator.Machine.ParseAtom` | examples/calc_sci.ts:246-274 | the same for numbers, parentheses and calls |
| `Calculator.Machine.EvalNode` | examples/calc_sci.ts:279-334 | terminates by decreasing index; the sticky flag is raised exactly when the tree has no value, never lowered, and otherwise the value is returned |
| `Calculator.Machine.Operate` | examples/calc_sci.ts:287-304 | flag and value of a binary operator against its partial meaning |
| `Calculator.Machine.CallFunction` | examples/calc_sci.ts:306-331 | flag and value of a function against its partial meaning |
| `Calculator.Machine.ReadTree` | examples/calc_sci.ts:353-357 | a token list parses to its end without error exactly if the grammar accepts it, and then its tree is stored at the root returned |
| `Calculator.Machine.Evaluate` | examples/calc_sci.ts:345-374 | the equals key answers what the stateless definition answers, from any state left behind by earlier keys |
| `Calculator.AnswerByGrammar` | examples/calc_sci.ts:345-374 | the parse error appears if and only if no tree derives the tokens; otherwise value or math error is that of the one tree |
| `Calculator.AnswersItsValue` | examples/calc_sci.ts:345-374 | typing the text of the shortest token list of an expression answers its value, or the math error when it has none |
| `Lcg.ClosedForm` | bench/monte_carlo_pi.ts:20-26 | n steps are an affine map modulo 2^32 |
| `Lcg.Displacement` | bench/monte_carlo_pi.ts:20-26 | n steps return to a state modulo 2^32 if and only if 2^32 divides a geometric sum times an odd number |
| `Lcg.GeoValuation` | bench/monte_carlo_pi.ts:20-26 | for a multiplier that is 1 mod 4 the sum of n powers is divisible by exactly the powers of two that divide n |
| `Lcg.FullPeriod` | bench/monte_carlo_pi.ts:20-26 | a state comes back after n steps if and only if 2^32 divides n |
| `Lcg.VisitsApart` | bench/monte_carlo_pi.ts:20-26 | two visits to one state lie a multiple of 2^32 steps apart |
| `Lcg.NextInjective` | bench/monte_carlo_pi.ts:23 | the state map is injective |
| `Lcg.NextSurjective` | bench/monte_carlo_pi.ts:23 | and onto: the predecessor is the state 2^32 - 1 steps on |
| `Lcg.EveryStateVisited` | bench/monte_carlo_pi.ts:19-26 | from every seed every state is reached within one period |
| `Lcg.ProductsExact` | bench/monte_carlo_pi.ts:21-24 | every product stays below 2^53 and no state is negative, so the fix-up never fires |
| `Lcg.Random.NextRandom` | bench/monte_carlo_pi.ts:20-26 | the state moves one step of the map and the number returned, in [0, 1), is the new state over 2^32 |
| `Lcg.CountInside` | bench/monte_carlo_pi.ts:28-37 | the counter is the number of pairs of successive states whose squares sum to at most 2^64 |
| `Lcg.QuarterByStates` | bench/monte_carlo_pi.ts:30-33 | two states make a point of the quarter circle if and only if their squares sum to at most 2^64 |
| `Lcg.HitsCountPoints` | bench/monte_carlo_pi.ts:28-37 | the running count is the number of indices of such pairs |
| `Lcg.NextIs` | bench/monte_carlo_pi.ts:21-25 | the next state is the only one below 2^32 that differs from 1664525 x + 1013904223 by a multiple of 2^32 |
| `Lcg.FirstStates` | bench/monte_carlo_pi.ts:19-26 | the first three states from the seed 1 |
| `Machin.DivDiv` | bench/pi_bigfloat.js:18 | truncating after each of two divisions loses nothing against one division |
| `Machin.NextPower` | bench/pi_bigfloat.js:13-18 | the running power is the scale divided by n^(2i+1), rounded down once |
| `Machin.TermError` | bench/pi_bigfloat.js:18-20 | each term is the exact term rounded down |
| `Machin.AlternateError` | bench/pi_bigfloat.js:17-23 | of an alternating sum of rounded terms only every other error counts on each side |
| `Machin.AlternateRange` | bench/pi_bigfloat.js:17-23 | an alternating sum of decreasing terms stays between 0 and its first term |
| `Machin.AtanInverse` | bench/pi_bigfloat.js:8-25 | the loop returns the alternating sum of the exactly rounded terms, one term for fewer than one asked |
| `Machin.AtanAccuracy` | bench/pi_bigfloat.js:8-25 | the result is not negative and is off the exact rational sum by less than half the number of terms |
| `Machin.CombineAccuracy` | bench/pi_bigfloat.js:27-29 | the Machin combination is off by less than 16 and 4 times the two bounds, for any arguments and numbers of terms |
| `Machin.PiAccuracy` | bench/pi_bigfloat.js:27-29 | with at most 80 and 20 terms the value is within 680 units of the thirtieth decimal, half of 16*80 + 4*20 |
| `Machin.PiDigits` | bench/pi_bigfloat.js:27-29 | the value is 3.141592653589793238462643383280 |
| `Machin.Pi` | bench/pi_bigfloat.js:27-29 | the program computes that value, within the bound of the exact rational sum |
| `Machin.FormatReadsBack` | bench/pi_bigfloat.js:32-38 | the printed form has 30 digits after the dot and at least one before, and reads back as the number, for every sign and size |
| `Decimal.ValueDigits` | bench/pi_bigfloat.js:35 | decimal digits read back as their number |
| `Decimal.DigitsWritten` | bench/pi_bigfloat.js:35 | below ten the digit itself; from there on one more digit after those of the tenth part |
| `Decimal.LeadingZeros` | bench/pi_bigfloat.js:35 | padding with zeros does not change the number read |
| `PathWalk.PreorderSize` | examples/claude-parity-rts.ts:92-126 | every element is emitted exactly once: as many entries as elements |
| `PathWalk.DocumentOrder` | examples/claude-parity-rts.ts:92-126 | an element is emitted first, and then each of its element children with all that is in it, one after the other without gaps |
| `PathWalk.StepNumber` | examples/claude-parity-rts.ts:108-118 | the number of a step is how many of the children up to it are elements of its tag |
| `PathWalk.StepsDiffer` | examples/claude-parity-rts.ts:108-118 | two children of one element never get the same tag and number |
| `PathWalk.PreorderAddressed` | examples/claude-parity-rts.ts:92-126 | resolving an emitted path leads to the element it was emitted for |
| `PathWalk.PreorderDistinct` | examples/claude-parity-rts.ts:92-126 | no two entries have the same steps |
| `Addresses.ConfusableExact` | examples/claude-parity-rts.ts:117 | the exact condition on a set of tags: two different lists of steps over them print the same path if and only if the texts left over between steps form a chain that ends with nothing left over |
| `Addresses.RenderInjective` | examples/claude-parity-rts.ts:117 | over tags without such a chain different lists of steps print differently |
| `Addresses.PathsAreAddresses` | examples/claude-parity-rts.ts:87-126 | over every page with such tags each printed path identifies its element: resolving it gives that element, and no two are the same string |
| `Addresses.ApartSuffices` | examples/claude-parity-rts.ts:117 | tags of which none is another behind a step, u[n]/t, have no such chain |
| `Addresses.PlainTagsApart` | examples/claude-parity-rts.ts:117 | tags in which no bracket closes before a slash are of that kind, in particular all tags without a slash |
| `Addresses.AddressEmitted` | examples/claude-parity-rts.ts:92-126 | every address of the page is emitted, with the element it leads to |
| `Addresses.TextExtends` | examples/claude-parity-rts.ts:117 | two paths that agree although the paths before their last steps differ in length: the last tag on the shorter one is the other last tag behind a step |
| `Addresses.SharingTagsExtend` | examples/claude-parity-rts.ts:92-126 | on no page do two different tags share a path unless one is the other behind a step |
| `Addresses.ExtendingTagsShare` | examples/claude-parity-rts.ts:92-126 | for every tag and every other behind a step that it is, a text whose page prints one path twice |
| `Addresses.TagsShareAPath` | examples/claude-parity-rts.ts:92-126 | the exact condition on two different names of tags, over all texts that can be parsed: elements with them get the same path on some page if and only if one name is the other behind a step |
| `Addresses.SlashTagsCollide` | examples/claude-parity-rts.ts:117 | a small text, of four tags, whose page prints html[1]/body[1]/a[1]/b[1] twice |
| `PathWalk.PendingReverse` | examples/claude-parity-rts.ts:119-125 | pushing children last to first leaves their subtrees to be emitted first to last |
| `PathWalk.ExpandTop` | examples/claude-parity-rts.ts:92-126 | replacing the top of the stack by its children emits exactly the top, and the elements left to emit decrease |
| `PathWalk.Children` | examples/claude-parity-rts.ts:103-118 | the loop over the children yields exactly the element children, numbered by tag |
| `PathWalk.Tally` | examples/claude-parity-rts.ts:113-115 | the two counter arrays hold, for every tag met, how often it was met |
| `PathWalk.Position` | examples/claude-parity-rts.ts:112-113 | the search finds the one index of a tag, or -1 exactly when it was not met |
| `PathWalk.PushAll` | examples/claude-parity-rts.ts:122-125 | the reversed children are on top of the stack |
| `PathWalk.Collect` | examples/claude-parity-rts.ts:82-126 | the explicit stack emits exactly the recursive preorder with its printed paths |
| `HtmlTokens.TokenWritten` | crates/rts-dom/src/html.rs:128-140 | a tag written with a blank before and after its name is read as that name, raw text elements apart, although the name may hold brackets, slashes and open quotes |
| `HtmlTokens.TagWritten` | crates/rts-dom/src/html.rs:94-176 | such a tag at the beginning of a text is read, and then the text after it |
| `HtmlTokens.SimpleWritten` | crates/rts-dom/src/html.rs:94-176 | the same without the blanks, for names without quotes and equals signs |
| `HtmlTokens.TextSkipped` | crates/rts-dom/src/html.rs:173-178 | text without an opening bracket gives no token |
| `HtmlTokens.CommentSkipped` | crates/rts-dom/src/html.rs:73-84 | a comment gives none, whatever tags are in it |
| `HtmlTokens.DeclarationSkipped` | crates/rts-dom/src/html.rs:125-127 | nor does a declaration |
| `HtmlTokens.RawRead` | crates/rts-dom/src/html.rs:144-161 | a script or a style sheet gives one element, whatever tags are in it; its closing tag may be in capitals |
| `HtmlTokens.ValueSkipped` | crates/rts-dom/src/html.rs:93-115 | a bracket in a quoted value does not end the tag |
| `HtmlTokens.TokensAreNamed` | crates/rts-dom/src/html.rs:128-176 | on any text every tag read has a name without white space, capitals and a bracket that would have closed the tag |
| `HtmlTokens.NameExact` | crates/rts-dom/src/html.rs:128-176 | and exactly these names can be read |
| `HtmlTree.OpenedWithin` | crates/rts-dom/src/dom/parser.rs:360-381 | inside elements that no rule is about, in an open body, any tag is opened without closing or inserting anything; void elements are not left open |
| `HtmlTree.VoidAdded` | crates/rts-dom/src/dom/parser.rs:13-30 | exactly thirteen tags are added without being opened |
| `HtmlTree.ParagraphEnded` | crates/rts-dom/src/dom/parser.rs:39-85 | a paragraph open in the body is closed by the opening of any of these tags |
| `HtmlTree.ParagraphKept` | crates/rts-dom/src/dom/parser.rs:39-85 | and of no other: every other tag is inside it |
| `HtmlTree.ItemEnded` | crates/rts-dom/src/dom/parser.rs:175-193 | the thirteen pairs of an open item and the tag that closes it |
| `HtmlTree.FirstOpened` | crates/rts-dom/src/dom/parser.rs:476-496 | the first tag of a text that cannot stand in the head opens the html element and the body |
| `HtmlTree.ClosedAround` | crates/rts-dom/src/dom/parser.rs:342-347 | closing an element closes what is open in it |
| `HtmlTree.RowParsed` | crates/rts-dom/src/dom/parser.rs:295-421 | a whole family of pages with arbitrary names, and with any tag at all in the last place, is what their texts are parsed to |
| `ChatLog.Utf8LenAscii` | examples/http_chat.ts:99-105 | byte length equals length exactly for ASCII text |
| `ChatLog.SplitConcat` | examples/http_chat.ts:396 | splitting two texts joined by a separator is splitting each |
| `ChatLog.ParseConcat` | examples/http_chat.ts:394-401 | reading two stretches of the log that meet at a line end is reading them one after the other |
| `ChatLog.LineReadsBack` | examples/http_chat.ts:74-81 | the line written for a sanitized message reads back as that message |
| `ChatLog.FewFields` | examples/http_chat.ts:396-399 | a line with fewer than two tabs is dropped |
| `ChatLog.LineFields` | examples/http_chat.ts:396-399 | with more its fields are the number, the user and all the rest, tabs included, as the text |
| `ChatLog.PostedByUser` | examples/http_chat.ts:65-77 | in a body with a user, a bar and any text, the message has that user and that text, each character kept but for tabs and line ends, which become blanks |
| `ChatLog.PostedByNobody` | examples/http_chat.ts:65-77 | a body with no bar, or with nothing before it, is the text of anon |
| `ChatLog.LinesReadBack` | examples/http_chat.ts:394-401 | the lines of any list of sanitized messages read back as the list |
| `Chat.Server.AddMessage` | examples/http_chat.ts:63-83 | the number goes up by one and the buffer gains exactly the line of the sanitized message, also for bodies with no or a leading bar |
| `Chat.Server.HandlePoll` | examples/http_chat.ts:96-122 | the answer is the reset, the rest or nothing according to the position in the path |
| `Chat.Server.ParseI64` | examples/http_chat.ts:124-135 | the number of the leading digits |
| `Chat.DigitsEnd` | examples/http_chat.ts:127-133 | although bounded by bytes the digit loop never leaves the string |
| `Chat.Client.Ingest` | examples/http_chat.ts:405-411 | every message of the text is shown once, and the total counts them |
| `Chat.Client.Bootstrap` | examples/http_chat.ts:419-432 | the first answer sets list and position; a failed one changes nothing |
| `Chat.Client.Poll` | examples/http_chat.ts:436-466 | an answer is taken in as the protocol step has it, for every status |
| `Chat.PathCarries` | examples/http_chat.ts:99-101 | the position written into the path is the position the server reads |
| `Chat.PollByPosition` | examples/http_chat.ts:96-122 | 205 with everything beyond the end, 204 at it, and 200 with exactly the rest before it |
| `Chat.PollWithoutNumber` | examples/http_chat.ts:98-135 | a path without a number is answered from the beginning |
| `Chat.ReplyContinues` | examples/http_chat.ts:96-122 | what a page is answered is exactly the lines after those it has; it is never told to start again |
| `Chat.ReceiveReads` | examples/http_chat.ts:436-466 | taking in an answer leaves the page showing a beginning of the log, no shorter than before |
| `Chat.NextKeeps` | examples/http_chat.ts:63-466 | every event, including lost and late answers, keeps the log and every reading of it |
| `Chat.RunLog` | examples/http_chat.ts:63-83 | the log is the messages posted, in order |
| `Chat.PostAdds` | examples/http_chat.ts:63-83 | after any run a post adds one message at the end of the log, with the next number and the user and the text of its body, and one line at the end of the buffer, spelt out |
| `Chat.PostShown` | examples/http_chat.ts:63-466 | and a page that asks after it shows that message below everything posted before |
| `Chat.PagesShowTheLog` | examples/http_chat.ts:394-466 | after any interleaving every page shows exactly messages 1..k, each once and in order, and its position is the end of their lines |
| `Chat.PollCatchesUp` | examples/http_chat.ts:436-466 | one exchange with nothing in between brings a page up to the last message |
| `Chat.AnswersTaken` | examples/http_chat.ts:419-466 | for every status, before and after the first answer: what the page shows afterwards and where it stands |
| `Chat.AfterRestart` | examples/http_chat.ts:105-466 | a page of an older server is brought up to date by its next exchange if it stands beyond the end of the new log; otherwise it keeps all it shows |
| `Chat.DeliveryNeedsAscii` | examples/http_chat.ts:99-115 | a page that counts what it has in bytes is sent exactly the rest if and only if what it has is ASCII |
| `Chat.DeliveryCuts` | examples/http_chat.ts:99-115 | what it is sent in general: as many characters are missing at the front as what it has is longer in bytes than in characters |
| `Chat.AccentCuts` | examples/http_chat.ts:99-115 | the failing case: after one message with one accented letter the page never gets the number of the next one |
| `Scanner.TopLevelObjects` | scripts/css_blink_gap.py:50-81 | the generator terminates and yields the texts of the spans of the step-by-step scan |
| `Scanner.ScanApart` | scripts/css_blink_gap.py:50-81 | on any input the spans lie between an opening and a closing brace, in order and without overlap |
| `Scanner.NoteSkipped` | scripts/css_blink_gap.py:64-68 | a comment is passed over up to the end of its line, braces and quotes in it included |
| `Scanner.QuotedSkipped` | scripts/css_blink_gap.py:56-63 | a string literal is passed over, escaped delimiters included |
| `Scanner.TextSkipped` | scripts/css_blink_gap.py:54-81 | balanced text is passed over whole at its depth, with nothing found in it |
| `Scanner.StartFree` | scripts/css_blink_gap.py:70-72 | between entries the start of the last one has no effect |
| `Scanner.EntriesFound` | scripts/css_blink_gap.py:54-81 | wherever entries of the grammar stand their bodies are found first, and the scan goes on after them |
| `Scanner.ScannerRecovers` | scripts/css_blink_gap.py:39-81 | a list of balanced bodies with separators, closed by a bracket, gives exactly its bodies whatever follows |
| `Scanner.EntryEnds` | scripts/css_blink_gap.py:54-81 | from inside an entry either balanced text reaches its closing brace or nothing more is ever found |
| `Scanner.ScannerSound` | scripts/css_blink_gap.py:54-81 | on any input what is found are the bodies of entries of the grammar standing there one after the other |
| `Scanner.ScannerExact` | scripts/css_blink_gap.py:39-81 | on any input: the bodies of some list of entries at the start, and first those of every such list |
| `Scanner.QuotesHide` | scripts/css_blink_gap.py:56-63 | of a list of one entry that is a string in either kind of quotes the whole string is found, whatever is in it |
| `Scanner.BackslashHides` | scripts/css_blink_gap.py:57-59 | also when it begins with an escaped quote |
| `Scanner.SlashesHide` | scripts/css_blink_gap.py:64-68 | of one that is a comment the whole comment is found |
| `Scanner.OthersPass` | scripts/css_blink_gap.py:69-81 | of any other characters all are found, a closing bracket and one pair of inner braces included |
| `Chunked.DechunkWith` | examples/claude-web-viewer.ts:97-111 | the index loop yields the payload of the recursive definition, for any reading of the size lines |
| `Chunked.Dechunk` | examples/claude-web-viewer.ts:97-111 | with the size line read as the code reads it |
| `Chunked.SizeReads` | examples/claude-web-viewer.ts:104-107 | a hexadecimal size in either case, with leading zeros, blanks and extensions, reads as its number |
| `Chunked.HexReads` | examples/claude-web-viewer.ts:104-107 | every number written in hexadecimal, in small or capital digits, reads as itself |
| `Chunked.SizeSigned` | examples/claude-web-viewer.ts:104-107 | a plus or a minus sign before the digits counts |
| `Chunked.SizePrefixed` | examples/claude-web-viewer.ts:104-107 | 0x or 0X before them does not |
| `Chunked.NoSize` | examples/claude-web-viewer.ts:104-107 | anything else there is no number |
| `Chunked.LineDecodes` | examples/claude-web-viewer.ts:101-110 | a size line makes that much of what follows payload, whatever it holds, and skips the line end after it |
| `Chunked.StreamDecodes` | examples/claude-web-viewer.ts:97-111 | a stream of announced chunks decodes to their data |
| `Chunked.DecodeEncode` | examples/claude-web-viewer.ts:97-111 | decoding undoes the coding of section 7.1 of RFC 9112 for all non-empty chunks, whatever their data and whatever follows the last |
| `Chunked.SentReceived` | examples/claude-web-viewer.ts:97-111 | any non-empty pieces, each after its length in hexadecimal, up to the chunk of size zero, decode to the pieces joined |
| `Chunked.CutBefore` | examples/claude-web-viewer.ts:101-102 | a stream cut in a size line, or in the line end after it, yields nothing from there |
| `Chunked.ReceivedGrows` | examples/claude-web-viewer.ts:97-111 | what has arrived is a beginning of the payload, and all of it in the end |
| `Chunked.DecodeCut` | examples/claude-web-viewer.ts:97-111 | a stream cut at any character decodes to exactly the payload that has arrived |
| `Synth.WaveRange` | examples/synth2.ts:10-15 | each of the four waves stays within one |
| `Synth.FilterRange` | examples/synth2.ts:75 | the one-pole filter stays within one |
| `Synth.AdvanceKeeps` | examples/synth2.ts:60-80 | a frame keeps envelope, filter and phase in the ranges of their stage |
| `Synth.SoundBound` | examples/synth2.ts:76 | a voice is never louder than its amplitude |
| `Synth.ReleaseLasts` | examples/synth2.ts:68-71 | a released voice is idle after n frames if and only if n is at least 1 and at least the frames its envelope takes to zero |
| `Synth.ReleaseBound` | examples/synth2.ts:68-71 | idle after exactly those frames if and only if the envelope was above zero |
| `Synth.ReleaseFromZero` | examples/synth2.ts:45-47 | the failing case: let go at zero, a voice still takes one frame |
| `Synth.AttackLasts` | examples/synth2.ts:62-64 | the attack lasts exactly the frames its envelope takes to one; then decay and sustain |
| `Synth.CellKept` | examples/synth2.ts:84-88 | a cell of the ring keeps its sample until its turn comes |
| `Synth.EchoDelay` | examples/synth2.ts:84-88 | the sample read is the one written exactly 12000 frames before |
| `Synth.SessionEcho` | examples/synth2.ts:35-98 | the same with notes struck and let go in between |
| `Synth.SumBound` | examples/synth2.ts:59-78 | eight voices are together no louder than eight amplitudes |
| `Synth.FrameRing` | examples/synth2.ts:84-86 | a frame whose mix is within m keeps the ring within m / (1 - 0.35) |
| `Synth.SessionKeeps` | examples/synth2.ts:35-98 | in every state of every session voices are in range and the ring is bounded |
| `Synth.SessionFromSilence` | examples/synth2.ts:18-57 | which every session from the idle voices and the empty ring of the start is one of |
| `Synth.Synth.NoteOn` | examples/synth2.ts:35-44 | the first idle slot is taken and no other touched; with none idle nothing changes and -1 is returned |
| `Synth.Synth.NoteOff` | examples/synth2.ts:45-47 | only a slot that exists and sounds is let go |
| `Synth.Synth.AdvanceVoice` | examples/synth2.ts:62-79 | the code of one voice in one frame computes its next state and its contribution |
| `Synth.Synth.MixFrame` | examples/synth2.ts:59-81 | every voice advances once and the mix is the sum of their contributions |
| `Synth.Synth.RenderFrame` | examples/synth2.ts:59-91 | one frame of voices, ring and output |
| `Synth.Synth.Render` | examples/synth2.ts:57-98 | the state after n frames, and the output buffer with two equal samples per frame and the rest untouched |
| `Synth.BlockFits` | examples/synth2.ts:137 | a buffer of block * channels samples has room for the two samples of every frame of a block if and only if there are at least two channels |
| `Tones.SquareAndSaw` | examples/synth2.ts:10-15 | the square is 1 for half a period and -1 for the other; the saw rises from -1 by 2 over the period |
| `Tones.TriangleAndSine` | examples/synth2.ts:10-15 | any other wave rises from -1 to 1 and falls back; wave 0 is the sine of 2 pi times the phase |
| `Tones.PhaseAfter` | examples/synth2.ts:77-79 | n frames after it was struck a voice is at the fraction of n * freq / sr |
| `Tones.DecayLasts` | examples/synth2.ts:65-67 | the decay lasts exactly the frames down to the sustain level, and at least one; then the voice stays at that level |
| `Tones.LevelAfter` | examples/synth2.ts:62-67 | the envelope of a key held down, in closed form: up to one, down to the sustain level and no lower |
| `Tones.FilterAfter` | examples/synth2.ts:73-75 | the filter holds the sum of all samples so far, the k-th last with the weight coef * (1 - coef)^k |
| `Tones.StruckSounds` | examples/synth2.ts:59-79 | what a key held down adds in frame k: that filtered wave, times the amplitude, times that envelope |
| `Tones.ReleasedVoice` | examples/synth2.ts:45-47 | a key let go goes into release as it is, and no other changes |
| `Tones.EchoSeries` | examples/synth2.ts:84-88 | what is read from the ring is the sum of the echoes: the mix of 12000 frames ago and 0.35 of the echoes of that frame |
| `Tones.SamplesHeard` | examples/synth2.ts:57-98 | from an empty ring every sample heard is the mix and 0.3 of its echoes, cut off at -1 and 1 |
| `Tones.KeyHeard` | examples/synth2.ts:35-98 | every sample of a key struck out of silence and held, for any wave |
| `Tones.SquareHeard` | examples/synth2.ts:35-98 | for a square wave before its first fall and the end of its attack frame k is amp * (k+1) aRate * (1 - (1-coef)^(k+1)) |
| `Layout.MeasureNode` | examples/claude-layout-ts.ts:52-75 | the height by the recursive loop, whatever the width |
| `Layout.LeafHeight` | examples/claude-layout-ts.ts:61-67 | a leaf is as high as its edges and, with text, its font or 16, and 6 |
| `Layout.ParentHeight` | examples/claude-layout-ts.ts:68-76 | a node with children as its edges and the heights of all its children |
| `Layout.RectDrawn` | examples/claude-layout-ts.ts:91-105 | a rectangle is drawn if and only if a background or a border is set: the box less the margin on every side, with the style of the node |
| `Layout.WordsDrawn` | examples/claude-layout-ts.ts:107-116 | words are drawn exactly for a leaf with text, one margin and one padding inside the upper left corner, and their line fills the height between the edges |
| `Layout.Canvas.PaintNode` | examples/claude-layout-ts.ts:79-126 | the height returned is the height measured, and the display list gains exactly the picture of the node |
| `Layout.Canvas.PaintPage` | examples/claude-layout-ts.ts:133-141 | the top nodes are stacked like children |
| `Layout.ChildrenFill` | examples/claude-layout-ts.ts:70-75 | children fill the content box of their parent from top to bottom without gaps |
| `Layout.AncestorsContain` | examples/claude-layout-ts.ts:93-121 | every box lies inside the content box of each of its ancestors |
| `Layout.LaterBelow` | examples/claude-layout-ts.ts:115-121 | two nodes neither of which is inside the other never overlap vertically: the earlier is wholly above |
| `Layout.WideEnough` | examples/claude-layout-ts.ts:91-109 | no content box has a negative width if and only if the width given is at least that of the widest nesting of edges |
| `Layout.PathsSorted` | examples/claude-layout-ts.ts:99-121 | the nodes are drawn in document order, none twice |
| `Layout.AncestorFirst` | examples/claude-layout-ts.ts:98-104 | what an ancestor draws comes before anything drawn inside it |
| `Layout.PathsExact` | examples/claude-layout-ts.ts:115-121 | every node is drawn and nothing else is |
| `Layout.DisplayDrawn` | examples/claude-layout-ts.ts:79-125 | the display list is exactly what every node draws at its own place, in document order |
| `Rhythm.OneInWindow` | examples/claude-game-rhythm.ts:49-65 | no two notes are in the hit window at one time |
| `Rhythm.NoneActiveAtEnd` | examples/claude-game-rhythm.ts:237 | at the end time every note has a verdict |
| `Rhythm.NotesConserved` | examples/claude-game-rhythm.ts:174-223 | falling, perfect, good and missed notes always add up to 64 |
| `Rhythm.VerdictStays` | examples/claude-game-rhythm.ts:177-178 | a verdict never changes |
| `Rhythm.FrameVerdict` | examples/claude-game-rhythm.ts:177-220 | in one frame a falling note is hit if and only if its key went down less than 60 from the line, perfectly less than 25, and missed if and only if it is more than 60 below |
| `Rhythm.NoteSettled` | examples/claude-game-rhythm.ts:172-223 | over any frames a note has the verdict of the first frame in which one of these happens, and falls as long as none does |
| `Rhythm.MirroredColumns` | examples/claude-game-rhythm.ts:57-58 | with the quotient over four left fractional, as the code has it, its remainder by two is one, and the column mirrored, exactly for notes 4, 12, 20, ..., which are in the last column |
| `Rhythm.TrailingHits` | examples/claude-game-rhythm.ts:205-217 | the current combo stands for the hits since the last miss: n hits in a row end the outcomes if and only if n is at most that |
| `Rhythm.LongestRun` | examples/claude-game-rhythm.ts:206 | the greatest combo: there are n hits in a row somewhere among the outcomes if and only if n is at most that |
| `Rhythm.OneHit` | examples/claude-game-rhythm.ts:177-209 | a frame scores at most one hit |
| `Rhythm.Game.FlagsRead` | examples/claude-game-rhythm.ts:177-220 | at any time the flags, the counters and the score, 100 and 50 for a hit, say what the history of frames says of each note |
| `Rhythm.Game.constructor` | examples/claude-game-rhythm.ts:49-75 | the tables are filled and all notes fall |
| `Rhythm.Game.Reset` | examples/claude-game-rhythm.ts:126-133 | a new run starts from the empty history whatever came before |
| `Rhythm.Game.JudgeNote` | examples/claude-game-rhythm.ts:177-220 | one note judged: its flag, the counters, the score, and the combos as the current and the longest streak of the outcomes |
| `Rhythm.Game.JudgeNotes` | examples/claude-game-rhythm.ts:172-223 | all notes of a frame: every falling one is judged, in order, and no other changes |
| `Rhythm.Game.Play` | examples/claude-game-rhythm.ts:137-240 | after every frame flags and counters are those of the history, score is 100 and 50 per hit, combo and maxCombo are the current and the longest streak of its outcomes, at most one hit is added, and at the end all 64 are counted |
| `Limbs.Bench.Limb` | bench/rts_simple.ts:86-88 | a limb product is below 2^53 and splits into a limb and a carry |
| `Limbs.Bench.Round` | bench/rts_simple.ts:83-95 | one round on three limbs is one multiply-add of the number modulo 10^18 |
| `Limbs.LimbsAdd` | bench/rts_simple.ts:98-102 | the limbs of a number are determined by it, and with them what a round adds to the checksum |
| `Limbs.Bench.BigintLikeStress` | bench/rts_simple.ts:68-108 | after any rounds the limbs are limbs and their number is the iterated multiply-add modulo 10^18; the score is the sum of the limbs of all numbers passed through, in residues |
| `Limbs.Schedule` | bench/rts_simple.ts:83-84 | the multipliers go from 31 to 47 and the addends from 0 to 96, again and again |
| `Limbs.FirstRounds` | bench/rts_simple.ts:68-108 | the first three numbers from one, and their checksum |
| `Limbs.TrialEnough` | bench/rts_simple.ts:50-56 | no divisor below d with d * d > n makes n prime |
| `Limbs.Bench.CountPrimes` | bench/rts_simple.ts:42-66 | for every limit the score is the number of primes up to it |
| `Limbs.MixStays` | bench/rts_simple.ts:22-36 | a round with its three branches, its signed remainder and its fix-up is one affine step plus an offset modulo the modulus |
| `Limbs.Offsets` | bench/rts_simple.ts:25-31 | rounds that are multiples of seven add their number, other multiples of eleven take it off, all others add the product of its remainders by 97 and 89 |
| `Limbs.FirstMixed` | bench/rts_simple.ts:17-40 | the first values of the accumulator |
| `Limbs.RoundExact` | bench/rts_simple.ts:22-36 | every intermediate of a round, the sum with the round number included, is below 2^53 for up to 2^53 minus the modulus rounds |
| `Limbs.Bench.ArithmeticStress` | bench/rts_simple.ts:17-40 | the score is that recurrence over all rounds |

## Left out

- The engine crates apart from the parser of pages, windows, drawing, audio devices, sockets, files and clocks: keys,
  times, samples and messages are parameters.
- Rounding of doubles in geometry, audio and the calculator, and with it NaN and infinities; an infinite crossing
  time is kept, as `Never`. Sine, logarithm, powers and the reading of number literals are function parameters,
  with the range of sine and a non-zero log(10) as the only facts used.
- Terrain generation, physics, slimes and the other game objects: the world is reindexed from any grid and edited
  by any run of clicks; the camera is any camera.
- The billboards drawn over the picture: a pixel stores its frame, its resolution and what it shows.
- Raycast.SkyIsRight: asks for a direction slower than 3.1 cells per unit, which `Frames.AimSpeed` gives for every ray
  of the screen.
- Raycast.NothingIsRight: asks for a direction slower than 2 cells per unit, which `Frames.CrosshairSpeed` gives for
  the crosshair of every camera.
- Addresses.PathsAreAddresses: its premise is exact for the set of tags, not for a single page: a page over tags that
  have a chain may happen not to hold the elements that share a path.
- Addresses.TagsShareAPath: is about ASCII names, on which lowering by the walk changes nothing; names with other
  letters are left out.
- The tokenizer and the tree builder are modelled as functions on texts and on stacks of open elements, as far as they
  decide which elements a page has: text, comments and attributes are read over.
- Frames.RenderFrame: does not model the colour computed from what a ray meets; the slot holds what is met.
- Frames.DrawPixel: does not model colour, fog and shading of the pixel.
- The calculator's keypad and the formatting of its result; token and tree arrays are parallel arrays in the
  source, the tokens here one sequence of tokens. The branch of the evaluator for a negative index is
  unreachable and left out.
- Calculator.Machine.EvalNode: a power or a trigonometric value outside its domain is whatever the parameter
  says; the source yields NaN there and does not raise its flag.
- Chat messages outside ASCII beyond `Chat.DeliveryNeedsAscii`, characters outside the basic plane, runs with a
  restart of the server beyond the one exchange of `Chat.AfterRestart`, and the sharing of globals between workers: one
  server under its lock, pages that may lose answers.
- Chat.Client.Poll: message ids that are not digits read as 0, which a page would show as NaN; the server writes none.
- The conversion of the decoded bytes to text, and sizes so large that a double rounds them: such a size reaches
  beyond the end of any body, and cutting back gives the same payload.
- The voices of the synthesizer are parallel arrays in the source and one array of records here, and a voice is
  written back once per frame; the device formula for the rates and the melody are left out.
- Synth.Synth.Render: asks for room for two samples per frame, which is what the code writes; the buffer the
  program allocates has room for `block * channels` samples and so is large enough for a whole block only from two
  channels on (`Synth.BlockFits`).
- Layout.AncestorsContain: asks for edges and fonts that are not negative, which the style sheet of the program
  gives.
- Layout.LaterBelow: asks for the same.
- The drawing, sound and flashes of the rhythm game, and its judgement text.
- `mix_scores` and the printing of the benchmark, the CSS reports around the scanner, and the second pass of the
  tree walk, which prints geometry.

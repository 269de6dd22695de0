# nemo — a verified model of the terminal aquarium's tick

nemo draws an aquarium in a terminal. Fish sprites swim across the screen and
bubbles rise from them. A banner sits in the bottom-right corner, and in debug
mode a statistics overlay appears in the top-right corner. This project models
the per-tick simulation in Dafny and proves what each step does:

* **Sprites.** A fish or bubble is a *layer*. Its draw paints the current frame
  onto the screen, clears the trail it leaves, runs an edge test that may set
  `hidden`, and steps the position by the speed.
* **The renderer.** It keeps two fixed-length slot arrays: `swarm` for fish and
  `bubbles` for bubbles. Each tick it:
  1. draws the banner;
  2. replaces hidden fish in place, then draws every fish;
  3. empties hidden bubble slots, lets every fish whose leading edge sits on a
     multiple of `w / 4` release a bubble into its own slot, then draws every
     bubble;
  4. in debug mode, draws the counts.
* **Assets.** Sprite drawings are split into tiles (lines). An asset's size
  comes from its first frame. Assets are registered in a cache, one group per
  name, and looked up by random choice within a group. The exported
  two-variant tile sets have their own loader.
* **Styles.** A glyph colour classifier and the colour palettes. The older root
  package has its own layer, palettes and classifier, chosen by a
  character-colour mode flag.

## How the model is built

The screen is a class holding its size and a map from positions to cells; a
cell is a glyph and a style tag. Every loop that writes cells is a method with
invariants. It is proved to overlay the screen with a *paint*: a function that
folds the loop's writes in program order, so a later write wins. Lemmas then
give each paint cell by cell: where each glyph lands, which trail cells become
blank, and that nothing else is written.

Layers are objects whose draws update their fields in place. Pure functions
`FishStep` and `BubbleStep` state the field change of one draw, and
`FishSteps`/`BubbleSteps` iterate them. The renderer class keeps ghost *views*
of its slot arrays: one `Slot` value per slot, either empty or a layer's kind
and state. Its invariant `Valid()` ties each array slot to its view and keeps
the arrays apart and free of shared layers. Each render method states the new
views and the new screen as functions of the old ones:

* the swarm pass: `SwarmTick` for the views and `SwarmCells` for the cells;
* the bubble pass: `BubbleTick` and `BubbleCells`;
* the banner: `NamePaint`;
* the statistics: `Overlay`.

Every random draw (`internal.Choose`, `internal.IntRand`) becomes an argument.
A roll record carries the draws of one spawn; a `Dice` value carries the draws
of one layer draw, which are the colour choice per cell and the bubble asset
pick. Preconditions keep each draw inside its range. A panic in the source
(indexing past a slice, an integer divide by zero, `make` with a negative
length) becomes a precondition. `Random` on an unknown group is the one
exception: it is modelled as an `Err` result.

Where the design and the code differ, the model follows the code:

* The fish pass replaces hidden fish *before* drawing (renderer.go:207-216).
  The design describes drawing first and replenishing afterwards.
* A fish moving right clears `velo + 1` columns behind it. A fish moving left
  clears only `-velo` columns, just past the end of each row
  (internal/layer/layer.go:54-63). The design describes `|velocity| + 1` on
  both sides.
* A left spawn's x lies in `(-8·width, -width]` because `IntRand(n)` falls in
  `[0, n)` (internal/layer/layer.go:91). For width 6 that is `[-47, -6]`; the
  design's worked example gives `[-54, -6]`.
* A bubble blanks the row `velo` rows behind each glyph, which is the row it
  rose from (internal/layer/layer.go:115). For a rising bubble that row is
  below the glyph.

## Model

| member | source | states |
|---|---|---|
| Text.Split | internal/assets/assets.go:22 | strings.Split on one separator: at least one piece, and no piece contains the separator |
| Text.JoinSplit | assets/assets.go:78 | joining the pieces of Split with the separator gives back the original string |
| Text.SplitJoin | assets/assets.go:78 | splitting a join of separator-free pieces gives back exactly those pieces |
| Text.SplitCount | assets/assets.go:78 | Split yields one more piece than the string has separators |
| Styles.Palette | internal/layer/style.go:8-33 | a palette built from real colours (none of them tcell's default) has one entry per colour and holds only palette styles: dim, bold and coloured |
| Styles.Blues | internal/layer/style.go:8-13 | Blues has 4 entries, all dim and bold with a real foreground |
| Styles.Colors | internal/layer/style.go:15-33 | Colors has 21 entries, and its last four are exactly Blues; every entry is dim and bold with a real foreground |
| Styles.BodypartColorMask | internal/layer/style.go:35-48 | structural glyphs `\ / # ~ - _ < ( )` get LightYellow or LightGreen by the draw; `C @ o` get PaleVioletRed; `, " ' ; : =` get LightCoral; every other glyph gets the base dim+bold style with no foreground; every result is dim and bold |
| Styles.GlyphClassesDisjoint | internal/layer/style.go:37-46 | no glyph is in two of the classes, so the order of the switch cases does not matter |
| Styles.MaskColoursClassifiedGlyphs | internal/layer/style.go:36-47 | a glyph gets a foreground colour if and only if it is in one of the three classes |
| Screens.Screen.SetContent | internal/layer/layer.go:56 | SetContent overwrites exactly the one cell and keeps the screen size |
| Screens.Screen.Clear | internal/renderer/renderer.go:90 | Clear empties every cell and keeps the screen size |
| Paint.DrawnRowsMembers | internal/layer/layer.go:46-50 | the rows a sprite draws are exactly its non-empty tiles |
| Paint.DrawnRowsNonEmpty | internal/layer/layer.go:47-50 | no drawn row is empty, and there are at most as many rows as tiles |
| Paint.TextPaintAt | internal/renderer/renderer.go:124-131 | text writes character c of line k at (x0 + c, y0 + k) in the given style and writes no other cell |
| Paint.PaintTextRow | internal/renderer/renderer.go:125-129 | the per-character loop overlays the screen with the row's cells, left to right |
| Paint.PaintText | internal/renderer/renderer.go:124-131 | the line loop overlays the screen with TextPaint, one row per line |
| Paint.BlankRunAt | internal/layer/layer.go:55-57 | a trail run writes a default-style space exactly on columns lo to hi - 1 of its row |
| Paint.FishRowAt | internal/layer/layer.go:51-71 | one fish row writes its glyph columns and, once it has a glyph, its trail columns; each with the glyph or a blank |
| Paint.FishPaintRows | internal/layer/layer.go:46-50 | skipping empty tiles is the same as drawing the drawn rows on consecutive screen rows |
| Paint.FishPaintAt | internal/layer/layer.go:46-73 | a fish draw writes exactly the glyph and trail cells of its drawn rows: a glyph cell holds its glyph, a trail cell a blank |
| Paint.FishGlyphLands | internal/layer/layer.go:46-72 | glyph j of drawn row k lands at (x0 + j, y0 + k); a space keeps the default style and any other glyph takes the style chosen for its cell |
| Paint.FishTrailCleared | internal/layer/layer.go:54-63 | moving right, columns [x0 - velo - 1, x0) of each drawn row become blanks; moving left, columns [x0 + tlen, x0 + tlen - velo) do |
| Paint.FishPaintBounds | internal/layer/layer.go:46-73 | a fish writes only on its drawn rows, between the far end of its trail and its front; a fish at rest writes only its glyphs |
| Paint.ClearTrail | internal/layer/layer.go:55-57 | the clearing loop overlays the screen with the blank run lo to hi |
| Paint.ClearBehind | internal/layer/layer.go:54-63 | the two guarded clearing loops blank the trail for the sign of velo, and nothing for velo 0 |
| Paint.PaintFishRow | internal/layer/layer.go:51-71 | the glyph loop of one tile overlays the screen with FishRow: trail cleared again before each glyph, then the glyph |
| Paint.PaintFish | internal/layer/layer.go:39-73 | the tile loop overlays the screen with FishPaint; empty tiles are skipped and take no row |
| Paint.BubbleRowAt | internal/layer/layer.go:113-122 | one bubble row writes its glyph cells and the cells velo rows behind them, with the cell value BubbleCell gives |
| Paint.BubblePaintRows | internal/layer/layer.go:107-111 | skipping empty tiles is the same as drawing the drawn rows of a bubble |
| Paint.BubblePaintAt | internal/layer/layer.go:107-124 | a bubble draw writes exactly the glyph cells and the cells velo rows behind them; a glyph survives unless a later row's blank lands on it |
| Paint.BubbleGlyphLands | internal/layer/layer.go:113-122 | for a rising bubble every glyph is shown, spaces in the default style and others in the layer style; the cell behind each glyph is blanked unless a glyph is there |
| Paint.SingleBubblePaint | internal/layer/layer.go:113-120 | a one-glyph bubble moving at velo != 0 writes its glyph and a blank velo rows behind it, and nothing else |
| Paint.PaintBubbleRow | internal/layer/layer.go:113-122 | the glyph loop of a bubble tile overlays the screen with BubbleRow |
| Paint.PaintBubble | internal/layer/layer.go:107-124 | the tile loop of bubbleDrawFunc overlays the screen with BubblePaint |
| Assets.ToTiles | internal/assets/assets.go:19-25 | one tile list per source, in order, each the source split on newlines |
| Assets.MaxLenIsLongest | internal/assets/assets.go:27-35 | the longest-tile value bounds every tile, is reached by some tile, and is -1 exactly for an empty list |
| Assets.LongestTile | internal/assets/assets.go:27-35 | the loop returns MaxLen, the maximum tile length |
| Assets.MakeAssetSize | internal/assets/assets.go:37-44 | the asset keeps its group and every frame, and each frame joins back to its source; its height is the first source's newline count plus one, and its width is the longest line of the first frame |
| Assets.SizeFromFirstFrame | internal/assets/assets.go:42-43 | two assets whose first sources agree have the same width and height, whatever their other frames |
| Assets.SingleLineSize | internal/assets/assets.go:81 | a sprite whose first source is one line is that line wide and one line high |
| Assets.RegisteredAppend | internal/assets/assets.go:45-48 | registering one more drawing appends exactly its asset to the group |
| Assets.RegisteredCells | internal/assets/assets.go:116-119 | each one-glyph drawing gives an asset with one frame, width 1 and height 1 |
| Assets.FishDrawingsPaired | internal/assets/assets.go:59-114 | every fish drawing has two frames |
| Assets.SeededGroups | internal/assets/assets.go:59-119 | after start-up the cache holds exactly the groups fish (5 assets of 2 frames, the runner 6 wide and 1 high) and bubble (4 assets of one frame, 1 by 1) |
| Assets.Catalog.constructor | internal/assets/assets.go:17 | the cache starts empty |
| Assets.Catalog.Load | internal/assets/assets.go:59-119 | the start-up registrations, in order, give the Seeded cache |
| Assets.Catalog.RegisterAll | internal/assets/assets.go:59-119 | a run of newAsset calls for one group appends their assets in order and leaves other groups as they were |
| Assets.Catalog.NewAsset | internal/assets/assets.go:37-50 | newAsset returns MakeAsset and appends it to its group, creating the group if absent; no other group changes, and no group becomes empty |
| Assets.Catalog.Random | internal/assets/assets.go:52-57 | fails exactly when the group is not in the cache; otherwise returns the picked element of the group |
| TileSets.LoadTiles | assets/assets.go:72-81 | an error, with no tiles, if and only if the layout does not have two variants; on success one tile list per variant |
| TileSets.LoadTilesLines | assets/assets.go:77-80 | on success tile list i is variant i split on newlines: it joins back to the variant, no tile contains a newline, and it has one more tile than the variant has newlines |
| TileSets.LoadTilesJoin | assets/assets.go:77-80 | two newline-free tile lists joined with newlines load back as exactly those lists |
| TileSets.ExportedSetsLoad | assets/assets.go:8-68 | Nemo, NemoJr, Runner, AQ0 and AQ1 each load |
| TileSets.RunnerLines | assets/assets.go:30-35 | each Runner variant loads as its one line between two empty lines |
| Layers.FishStepsTrack | internal/layer/layer.go:74-78 | after n draws a fish has moved n·velo columns and changed nothing but x and hidden; hidden is never cleared |
| Layers.FishLeavingAt | internal/layer/layer.go:74-75 | the k-th draw sees a moving fish past the edge exactly from draw FishLifetime - 1 on |
| Layers.FishHiddenExactly | internal/layer/layer.go:74-78 | a moving fish is hidden after n draws if and only if it already was or n has reached its lifetime, so every fish leaves and none leaves early |
| Layers.FishAtRestStays | internal/layer/layer.go:74-78 | a fish at speed 0 never changes |
| Layers.SpawnFishRange | internal/layer/layer.go:81-97 | frame 0: speed in {1, 2, 3} and -8·width < x <= -width; frame 1: speed in {-1, -2, -3} and w + width <= x < w + 8·width; in both cases 0 <= y < h - height, not hidden, with the chosen asset and colour |
| Layers.SpawnedFishSurvivesFirstDraw | internal/layer/layer.go:74-77 | a newly spawned fish is not hidden by its first draw |
| Layers.BubbleStepsTrack | internal/layer/layer.go:102-128 | after n draws a bubble has moved n·velo rows and kept its column, speed, style and frame; it holds the last asset drawn, and hidden is never cleared |
| Layers.BubbleHiddenExactly | internal/layer/layer.go:125-128 | a rising bubble is hidden if and only if it already was or the number of draws has reached its lifetime |
| Layers.SpawnBubbleRange | internal/layer/layer.go:131-142 | a new bubble has speed in {-2, -3, -4, -5}, frame 0, 0 <= x < w and 0 <= y < h / 2, is not hidden, and has the chosen asset and colour |
| Layers.FishDrawGlyph | internal/layer/layer.go:64-69 | a fish draw writes glyph j of drawn row k at (x + j, y + k): a space in the default style, any other glyph in its bodypartColorMask class |
| Layers.Layer.constructor | internal/layer/layer.go:83-88 | the new layer has exactly the given fields and draw kind |
| Layers.Layer.FishDraw | internal/layer/layer.go:41-79 | the screen gains FishPaint of the current frame, and the layer becomes FishStep of its old state on the old screen width |
| Layers.Layer.BubbleDraw | internal/layer/layer.go:102-129 | the layer takes the picked bubble asset, the screen gains its BubblePaint, and the layer becomes BubbleStep |
| Layers.Layer.Draw | internal/renderer/renderer.go:197 | l.Draw runs the draw of the layer's kind: the state becomes Drawn and the screen gains Painted |
| Layers.FindHidden | internal/layer/layer.go:26-34 | the result holds exactly the indices of non-nil hidden layers, all in range, in strictly increasing order |
| Layers.NewRandFish | internal/layer/layer.go:81-100 | a fresh fish layer whose state is SpawnFish of the picked fish asset with the Colors palette |
| Layers.NewRandBubble | internal/layer/layer.go:131-143 | a fresh bubble layer whose state is SpawnBubble of the picked bubble asset with the Blues palette |
| Legacy.FgBluePalette | main.go:27-31 | fgBluePallete has 3 entries and is Blues without LightCyan |
| Legacy.FgPalette | main.go:32-51 | fgPallete has 21 entries, ends with fgBluePallete, and every entry is a palette style |
| Legacy.MainMask | main.go:53-67 | structural glyphs get LightYellow, LightGreen or LightBlue; `C @ o` get PaleVioletRed; `, " ' ; : =` get LightCoral; all other glyphs get the base style; every result is dim and bold |
| Legacy.MasksAgree | main.go:53-67 | the two classifiers agree on the draws they share; only main.go's can colour a structural glyph LightBlue |
| Legacy.LegacyGlyph | layer.go:58-67 | glyph j of drawn row k lands at (x + j, y + k): a space in the default style; any other glyph in its mask class in chacMode and in the layer's own style otherwise |
| Legacy.Layer.constructor | layer.go:81-86 | the new layer has exactly the given fields and draw kind |
| Legacy.Layer.FishDraw | layer.go:35-77 | the screen gains FishPaint with the chacMode style, and the layer becomes FishStep of its old state |
| Legacy.Layer.BubbleDraw | layer.go:108-137 | the layer takes the picked bubble asset, the screen gains its BubblePaint, and the layer becomes BubbleStep |
| Legacy.NewRandomFish | layer.go:79-98 | a fresh fish layer whose state is SpawnFish with the fgPallete palette |
| Legacy.NewSwarm | layer.go:100-106 | exactly swarmSize (none for a negative size) fresh, distinct fish, the i-th spawned from the i-th roll |
| Legacy.NewRandomBubble | layer.go:139-151 | a fresh bubble layer whose state is SpawnBubble with the fgBluePallete palette |
| Slots.DrawnAll | internal/renderer/renderer.go:192-198 | drawing keeps the number of slots, which slots are empty, and each layer's kind |
| Slots.PaintAllFrom | internal/renderer/renderer.go:210-216 | every cell the draw loop writes comes from the draw of some occupied slot |
| Slots.PaintAllTop | internal/renderer/renderer.go:210-216 | a cell shows what the last slot that paints it wrote: later layers are drawn over earlier ones |
| Slots.SamePattern | internal/renderer/renderer.go:139-150 | views with the same empty slots hold as many layers |
| Slots.DrawnAllCount | internal/renderer/renderer.go:210-216 | the draw loop keeps the number of layers |
| Slots.CountNonNullOccupied | internal/renderer/renderer.go:139-150 | a slice and the view it holds have as many layers |
| Slots.CountLayers | internal/renderer/renderer.go:137-150 | the counting loop returns the number of non-nil slots, which is the number of layers in the slice's view; a nil slice has none |
| Slots.DrawAll | internal/renderer/renderer.go:210-216 | the draw loop leaves each slot holding its drawn state and overlays the screen with PaintAll, slot by slot in order |
| Format.Digits | internal/renderer/renderer.go:151 | the decimal digits of n: at least one, all digits, no leading zero |
| Format.DigitsValue | internal/renderer/renderer.go:151 | reading the digits back gives n |
| Format.DigitsLength | internal/renderer/renderer.go:151 | a number below 10^k has at most k digits |
| Format.Decimal | internal/renderer/renderer.go:151 | %d: non-empty with no newline, and starting with a minus sign exactly for a negative number |
| Format.DecimalValue | internal/renderer/renderer.go:151 | reading the %d text back gives the number |
| Format.PadLeft | internal/renderer/renderer.go:151 | a padded string is as long as the field, or as the string when that is longer |
| Format.PadLeftContents | internal/renderer/renderer.go:151 | the string ends the padded result unchanged, and the padding is all spaces |
| Format.Field5 | internal/renderer/renderer.go:151 | %5d is at least five characters long and holds no newline |
| Format.Field5Contents | internal/renderer/renderer.go:151 | %5d is spaces followed by the %d text, and the number reads back from the field |
| Format.Field5Width | internal/renderer/renderer.go:151 | a count below 100000 fills exactly five columns |
| Format.ThreeLines | internal/renderer/renderer.go:151-152 | three newline-free lines joined by newlines split back into them |
| Format.SplitStats | internal/renderer/renderer.go:151-152 | splitting the statistics text at its newlines gives its three lines |
| Render.NameTileLengths | internal/renderer/renderer.go:108-113 | the banner has four lines, of lengths 1, 20, 21 and 25 |
| Render.NameTilesSplit | internal/renderer/renderer.go:108-113 | nameTiles is nameRaw split at its newlines |
| Render.BannerPlacement | internal/renderer/renderer.go:119-132 | character c of banner line k lands at (w - len(last line) - 4 + c, h - len(lines) - 1 + k) in the banner style, and no other cell is written |
| Render.NameBox | internal/renderer/renderer.go:119-132 | the banner stays within columns w - 29 to w - 5 and rows h - 5 to h - 2 |
| Render.OverlayPlacement | internal/renderer/renderer.go:153-162 | character c of overlay line k lands at (w - len(last line) - 1 + c, len(lines) - 1 + k) in the default style, and no other cell is written |
| Render.PaintOverlay | internal/renderer/renderer.go:153-162 | the statistics drawing loop overlays the screen with Overlay |
| Render.PaintStats | internal/renderer/renderer.go:151-162 | the Sprintf, Split and drawing loop overlay the screen with the three statistics lines |
| Render.StatsPass | internal/renderer/renderer.go:137-162 | the overlay shows the number of layers in each slice |
| Render.StatsRows | internal/renderer/renderer.go:154 | the statistics overlay has three lines, so it starts on row 2 |
| Render.StatsColumn | internal/renderer/renderer.go:153 | with fewer than 100000 bubbles the last line is 14 long, so the overlay starts 15 columns left of the edge |
| Render.SeededReady | internal/assets/assets.go:59-119 | the start-up cache has what the renderer's layers need |
| Render.SpawnsAreFishSlots | internal/layer/layer.go:81-97 | a spawned fish has a valid frame index and is not hidden |
| Render.ReplaceHiddenSlots | internal/renderer/renderer.go:207-209 | exactly the hidden slots change, each to the new fish of its slot's roll; no slot is emptied or filled |
| Render.ReplaceHiddenCount | internal/renderer/renderer.go:207-209 | replacing hidden fish keeps the number of fish |
| Render.ClearHiddenSlots | internal/renderer/renderer.go:171-173 | a slot is emptied exactly when it held a hidden bubble, and no other slot changes |
| Render.WakeSlots | internal/renderer/renderer.go:174-191 | a bubble slot takes a new bubble exactly when the fish in the same slot releases one: at (leading edge, fish row - 1), speed -2 to -5, frame 0, a Blues colour; every other slot is kept |
| Render.WakesAtMultiples | internal/renderer/renderer.go:184 | a fish releases a bubble exactly when its leading edge is a positive multiple of w / 4 |
| Render.SwarmTick | internal/renderer/renderer.go:201-217 | the swarm pass keeps the number of fish and leaves every slot a fish slot |
| Render.BubbleTick | internal/renderer/renderer.go:165-199 | the bubble pass keeps the number of slots and leaves every slot a bubble slot |
| Render.ReplaceHiddenFish | internal/renderer/renderer.go:207-209 | the replacement loop puts a fresh fish into exactly the hidden slots, leaves every other slot pointing at the same layer, and keeps the slots distinct |
| Render.ClearHiddenBubbles | internal/renderer/renderer.go:171-173 | the clearing loop sets exactly the hidden slots to nil and changes no other slot |
| Render.WakeFish | internal/renderer/renderer.go:174-191 | the wake loop puts a fresh bubble into exactly the slots whose fish releases one, with the state Wake gives; every other slot is unchanged |
| Render.NewSchool | internal/renderer/renderer.go:99-102 | a fresh slice of size slots, each holding a fresh, distinct fish spawned from its slot's roll |
| Render.NilSlots | internal/renderer/renderer.go:103 | a fresh slice of n nil slots |
| Render.SwarmPass | internal/renderer/renderer.go:207-216 | the slots end as SwarmTick and the screen gains SwarmCells; exactly the hidden slots hold fresh fish |
| Render.BubblePass | internal/renderer/renderer.go:171-198 | the slots end as BubbleTick and the screen gains BubbleCells; woken slots hold fresh bubbles, hidden ones are nil and the rest are unchanged |
| Render.Renderer.constructor | internal/renderer/renderer.go:238-251 | New makes a renderer with nil slices on the given screen, swarm size and asset cache; w, h and the banner style hold Go's zero values 0, 0 and the default style |
| Render.Renderer.Destroy | internal/renderer/renderer.go:77-82 | both slices become nil and their views empty; w, h and the banner style are kept, and the invariant holds again |
| Render.Renderer.Refresh | internal/renderer/renderer.go:84-91 | w and h take the screen size and the screen is cleared; the slices are kept |
| Render.Renderer.Reset | internal/renderer/renderer.go:93-106 | swarm and bubbles are fresh slices of SwarmSize slots; every fish slot holds a fresh fish spawned on the new w and h; every bubble slot is nil; the screen is clear and the banner colour is the chosen Colors entry |
| Render.Renderer.LayersApart | internal/renderer/renderer.go:99-103 | no layer is both in the swarm and among the bubbles |
| Render.Renderer.RenderSwarm | internal/renderer/renderer.go:201-217 | a nil swarm changes nothing; otherwise the fish views become SwarmTick and the screen gains SwarmCells; exactly the hidden slots hold fresh fish |
| Render.Renderer.RenderBubbles | internal/renderer/renderer.go:165-199 | nil bubbles change nothing; otherwise the bubble views become BubbleTick, using the fish after their move, and the screen gains BubbleCells; woken slots hold fresh bubbles, hidden ones are nil, and the rest are unchanged |
| Render.Renderer.RenderName | internal/renderer/renderer.go:119-132 | the screen gains the banner in nameStyle |
| Render.Renderer.RenderStats | internal/renderer/renderer.go:134-163 | the screen gains the overlay with the numbers of fish and of bubbles |
| Render.Renderer.Tick | internal/renderer/renderer.go:226-233 | one tick keeps the invariant, the screen size and the number of fish; it draws the banner, then the swarm, then the bubbles woken by the moved fish, then in debug mode the counts, each over the one before; the views become SwarmTick and BubbleTick |

## Left out

- Stop, Start, Restart, the render goroutine's `select` loop, its ticker, the `done` and `Stopped` channels and the mutex (renderer.go:38-75, 221-236): these coordinate goroutines, and the model is sequential. Only one tick's body is modelled, as `Tick`.
- `Screen.Show` (renderer.go:233) only flushes to the terminal, so it is not modelled. Neither is tcell clipping: the cell map is unbounded and off-screen writes are kept.
- Real tcell styles: a style is a tag of dim, bold and a named colour.
- render.go, the older renderer, is not part of this model, and neither is main.go beyond its palettes, its `bodypartColorMask` and the `chacMode` flag. main.go's flag parsing, profiling, signals, screen setup and event loop are process I/O; `chacMode` is a parameter.
- Logging (`internal.Logln`; layer.go:132, renderer.go:196,214), the debug switch and the random source (internal/debug.go, internal/log_debug.go, internal/utils.go, internal/rand.go). Each random draw is an argument, and `internal.DebugEnabled` is the `debug` parameter of `Tick`.
- The `String` methods of both layers (internal/layer/layer.go:36-39, layer.go:26-29): formatting for logs only.
- `setDrawFunc` and the `Draw` field (layer.go:31-33): the draw a layer carries is its `kind`.
- Go strings are byte strings and `range` walks runes. The model uses one `char` per character, which is the same for the ASCII sprites.
- `int` is unbounded; Go's 64-bit wrap-around is not modelled.
- `ts.Unix()` is passed in as an integer.
- renderer.go calls accessors `Velo()`, `X()`, `Y()`, `Asset()`, `SetX` and `SetY` that internal/layer/layer.go does not declare. The model reads and writes the fields they name.
- The renderer's `w` and `h` are only set by `refresh` (renderer.go:84-91). `New` (renderer.go:238-251) leaves them, and the banner style, at Go's zero values: 0, 0 and the default style. A tick before `Reset` therefore draws the banner in the default style, within columns -29 to -5 and rows -5 to -2.
- Render.Renderer.RenderBubbles, Render.Renderer.Tick: these require `WakeSafe`, that is w / 4 != 0 whenever a fish's leading edge is positive, because Go panics on the modulus by zero.
- Render.Renderer.Reset: requires SwarmSize >= 0, because `make` panics on a negative length.
- Render.Renderer.RenderBubbles: indexes `bubbles[i]` by swarm index i, so `Valid()` keeps both slices the same length, as Reset makes them.
- Layers.NewRandFish, Layers.NewRandBubble, Legacy.NewRandomFish, Legacy.NewRandomBubble: the ranges of the IntRand draws are hypotheses of the range lemmas (`FishDrawsFit`, `BubbleDrawsFit`), not preconditions of the constructors, because the renderer's wake bubbles overwrite x and y.
- Layers.Layer.BubbleDraw, Legacy.Layer.BubbleDraw: require the drawn bubble asset to have the layer's frame index. The seeded bubble assets have one frame and bubbles always show frame 0.
- Legacy.Layer.BubbleDraw: the screen height it reads is used only for its log line, so it is not modelled.

/** The renderer (internal/renderer/renderer.go): the fish and bubble slot
    slices, the banner, the statistics overlay and the body of one tick. The
    random draws of each tick are arguments: one fish roll and one bubble
    roll per slot (used only when that slot spawns a layer) and one set of
    dice per slot (used only when that slot is drawn). */
module Render {
  import opened Text
  import opened Styles
  import opened Screens
  import opened Paint
  import opened Assets
  import opened Layers
  import opened Slots
  import opened Format

  // ---- the banner ----

  /** The banner's lines: a tab, then the three rows of the logo. */
  const NameTiles: seq<string> :=
    ["\t", "  ___  ___ __ _  ___", " / _ \\/ -_)  ' \\/ _ \\", "/_//_/\\__/_/_/_/\\___/ 1.1"]

  /** nameRaw: the banner's lines joined by newlines. */
  const NameRaw: string := NameTiles[0] + "\n" + NameTiles[1] + "\n" + NameTiles[2] + "\n" + NameTiles[3]

  /** The tile lengths of the banner. */
  lemma NameTileLengths()
    ensures |NameTiles| == 4
    ensures |NameTiles[0]| == 1 && |NameTiles[1]| == 20 && |NameTiles[2]| == 21 && |NameTiles[3]| == 25
  {
  }

  lemma NameTilesPlain()
    ensures forall k :: 0 <= k < |NameTiles| ==> '\n' !in NameTiles[k]
  {
  }

  /** Four newline-free lines joined by newlines split back into them. */
  lemma {:induction false} FourLines(a: string, b: string, c: string, d: string)
    requires '\n' !in a && '\n' !in b && '\n' !in c && '\n' !in d
    ensures Split(a + "\n" + b + "\n" + c + "\n" + d, '\n') == [a, b, c, d]
  {
    assert a + "\n" + b + "\n" + c + "\n" + d == a + ['\n'] + (b + ['\n'] + (c + ['\n'] + d));
    SplitAfterSeparator(a, b + ['\n'] + (c + ['\n'] + d), '\n');
    SplitAfterSeparator(b, c + ['\n'] + d, '\n');
    SplitAfterSeparator(c, d, '\n');
    SplitNoSeparator(d, '\n');
  }

  /** nameTiles is nameRaw split at its newlines. */
  lemma NameTilesSplit()
    ensures Split(NameRaw, '\n') == NameTiles
  {
    NameTilesPlain();
    FourLines(NameTiles[0], NameTiles[1], NameTiles[2], NameTiles[3]);
  }

  /** The cells renderName writes for banner lines on a w by h screen: the
      last line ending four columns short of the right edge, one line per
      row, the last row one row above the bottom edge. */
  function Banner(lines: seq<string>, w: int, h: int, style: Style): map<Pos, Cell>
    requires |lines| >= 1
  {
    TextPaint(lines, w - |lines[|lines| - 1]| - 4, h - |lines| - 1, style)
  }

  /** The banner renderName writes. */
  function NamePaint(w: int, h: int, style: Style): map<Pos, Cell>
  {
    Banner(NameTiles, w, h, style)
  }

  /** Character c of banner line k lands at
      (w - len(last line) - 4 + c, h - len(lines) - 1 + k), and no other
      cell is written. */
  lemma BannerPlacement(lines: seq<string>, w: int, h: int, style: Style, p: Pos)
    requires |lines| >= 1
    ensures var x0, y0 := w - |lines[|lines| - 1]| - 4, h - |lines| - 1;
      && (p in Banner(lines, w, h, style) <==> 0 <= p.1 - y0 < |lines| && 0 <= p.0 - x0 < |lines[p.1 - y0]|)
      && (p in Banner(lines, w, h, style) ==>
            Banner(lines, w, h, style)[p] == Cell(lines[p.1 - y0][p.0 - x0], style))
  {
    TextPaintAt(lines, w - |lines[|lines| - 1]| - 4, h - |lines| - 1, style, p);
  }

  /** The banner fills columns w - 29 to w - 5 of rows h - 5 to h - 2. */
  lemma NameBox(w: int, h: int, style: Style, p: Pos)
    requires p in NamePaint(w, h, style)
    ensures w - 29 <= p.0 <= w - 5 && h - 5 <= p.1 <= h - 2
  {
    NameTileLengths();
    BannerPlacement(NameTiles, w, h, style, p);
  }

  // ---- the statistics overlay ----

  /** The cells renderStats writes for its lines: each line in the default
      style, the last one ending one column short of the right edge, the
      first on row len(lines) - 1. */
  function Overlay(lines: seq<string>, w: int): map<Pos, Cell>
    requires |lines| >= 1
  {
    TextPaint(lines, w - |lines[|lines| - 1]| - 1, |lines| - 1, StyleDefault)
  }

  /** Character c of overlay line k lands at (x0 + c, len(lines) - 1 + k) in
      the default style, x0 = w - len(last line) - 1; no other cell is
      written. */
  lemma OverlayPlacement(lines: seq<string>, w: int, p: Pos)
    requires |lines| >= 1
    ensures var x0, y0 := w - |lines[|lines| - 1]| - 1, |lines| - 1;
      && (p in Overlay(lines, w) <==> 0 <= p.1 - y0 < |lines| && 0 <= p.0 - x0 < |lines[p.1 - y0]|)
      && (p in Overlay(lines, w) ==> Overlay(lines, w)[p] == Cell(lines[p.1 - y0][p.0 - x0], StyleDefault))
  {
    TextPaintAt(lines, w - |lines[|lines| - 1]| - 1, |lines| - 1, StyleDefault, p);
  }

  /** The drawing loop of renderStats: lines drawn flush right from row
      |lines| - 1 on, in the default style. */
  method PaintOverlay(sc: Screen, w: int, lines: seq<string>)
    requires |lines| >= 1
    modifies sc
    ensures sc.cells == old(sc.cells) + Overlay(lines, w)
    ensures sc.width == old(sc.width) && sc.height == old(sc.height)
  {
    var x := w - |lines[|lines| - 1]| - 1;
    var y := 0 + |lines| - 1;
    PaintText(sc, x, y, lines, StyleDefault);
  }

  /** The Sprintf and drawing loop of renderStats: the statistics text is
      split at its newlines and drawn as an overlay. */
  method PaintStats(sc: Screen, w: int, ts: int, fishCount: int, bubbleCount: int)
    modifies sc
    ensures sc.cells == old(sc.cells) + Overlay(StatsLines(ts, fishCount, bubbleCount), w)
    ensures sc.width == old(sc.width) && sc.height == old(sc.height)
  {
    var stats := StatsText(ts, fishCount, bubbleCount);
    var tiles := Split(stats, '\n');
    SplitStats(ts, fishCount, bubbleCount);
    PaintOverlay(sc, w, tiles);
  }

  /** The body of renderStats: the counting loops over both slices, then
      the statistics overlay with those counts. */
  method StatsPass(sc: Screen, w: int, ts: int, swarm: array?<Layer?>, bubbles: array?<Layer?>,
                   ghost fish: seq<Slot>, ghost bubs: seq<Slot>)
    requires HeldBy(swarm, fish) && HeldBy(bubbles, bubs)
    modifies sc
    ensures sc.cells == old(sc.cells) + Overlay(StatsLines(ts, CountOccupied(fish), CountOccupied(bubs)), w)
    ensures sc.width == old(sc.width) && sc.height == old(sc.height)
  {
    var fishCount := CountLayers(swarm, fish);
    var bubbleCount := CountLayers(bubbles, bubs);
    PaintStats(sc, w, ts, fishCount, bubbleCount);
  }

  /** The three statistics lines start on row 2. */
  lemma StatsRows(ts: int, fishCount: int, bubbleCount: int)
    ensures |StatsLines(ts, fishCount, bubbleCount)| - 1 == 2
  {
  }

  /** With fewer than 100000 bubbles the overlay starts 15 columns left of
      the right edge. */
  lemma StatsColumn(ts: int, fishCount: int, bubbleCount: nat)
    requires bubbleCount < 100000
    ensures |StatsLines(ts, fishCount, bubbleCount)[2]| == 14
  {
    Field5Width(bubbleCount);
  }

  // ---- slot updates ----

  /** The assets the renderer's layers need: both groups present and
      non-empty, every fish with its two frames, every bubble with one. */
  predicate CatalogReady(cache: map<string, seq<Asset>>)
  {
    && "fish" in cache && "bubble" in cache
    && |cache["fish"]| > 0 && |cache["bubble"]| > 0
    && (forall a :: a in cache["fish"] ==> |a.sources| >= 2)
    && (forall a :: a in cache["bubble"] ==> |a.sources| >= 1)
  }

  /** The seeded catalog is ready. */
  lemma SeededReady()
    ensures CatalogReady(Seeded())
  {
    SeededGroups();
  }

  /** A fish slot: a fish whose frame index is in range. */
  predicate FishSlot(slot: Slot)
  {
    slot.Occupied? ==> slot.kind == Fish && 0 <= slot.s.assetIndex < |slot.s.asset.sources|
  }

  /** A bubble slot: a bubble showing frame 0. */
  predicate BubbleSlot(slot: Slot)
  {
    slot.Occupied? ==> slot.kind == Bubble && slot.s.assetIndex == 0
  }

  /** The fish rolls are valid draws of NewRandFish. */
  predicate FishRollsFit(cache: map<string, seq<Asset>>, rolls: seq<FishRoll>)
  {
    "fish" in cache
    && forall i :: 0 <= i < |rolls| ==> rolls[i].pick < |cache["fish"]| && FishChoices(rolls[i], Colors())
  }

  /** The bubble rolls are valid draws of NewRandBubble. */
  predicate BubbleRollsFit(cache: map<string, seq<Asset>>, rolls: seq<BubbleRoll>)
  {
    "bubble" in cache
    && forall i :: 0 <= i < |rolls| ==> rolls[i].pick < |cache["bubble"]| && BubbleChoices(rolls[i], Blues())
  }

  /** The bubble picks of the dice index the bubble group. */
  predicate PicksFit(cache: map<string, seq<Asset>>, dice: seq<Dice>)
  {
    "bubble" in cache && forall i :: 0 <= i < |dice| ==> dice[i].pick < |cache["bubble"]|
  }

  /** The fish each roll spawns on a w by h screen. */
  function Spawns(cache: map<string, seq<Asset>>, w: int, h: int, rolls: seq<FishRoll>): (r: seq<LayerState>)
    requires FishRollsFit(cache, rolls)
    ensures |r| == |rolls|
  {
    seq(|rolls|, i requires 0 <= i < |rolls| => SpawnFish(cache["fish"][rolls[i].pick], w, h, Colors(), rolls[i]))
  }

  /** Spawned fish have a valid frame. */
  lemma SpawnsAreFishSlots(cache: map<string, seq<Asset>>, w: int, h: int, rolls: seq<FishRoll>, i: int)
    requires CatalogReady(cache) && FishRollsFit(cache, rolls) && 0 <= i < |rolls|
    ensures FishSlot(Occupied(Fish, Spawns(cache, w, h, rolls)[i]))
    ensures !Spawns(cache, w, h, rolls)[i].hidden
  {
    assert cache["fish"][rolls[i].pick] in cache["fish"];
  }

  /** The first loop of renderSwarm: every hidden fish replaced by the fish
      its slot's roll spawns. */
  function ReplaceHidden(view: seq<Slot>, spawn: seq<LayerState>): (r: seq<Slot>)
    requires |spawn| >= |view|
    ensures |r| == |view|
  {
    seq(|view|, i requires 0 <= i < |view| =>
      if view[i].Occupied? && view[i].s.hidden then Occupied(Fish, spawn[i]) else view[i])
  }

  /** Exactly the hidden slots change, each to a new fish; the other slots,
      empty or not, are kept, so no slot is emptied or filled. */
  lemma ReplaceHiddenSlots(view: seq<Slot>, spawn: seq<LayerState>, i: int)
    requires |spawn| >= |view| && 0 <= i < |view|
    ensures var r := ReplaceHidden(view, spawn);
      && (r[i].Empty? <==> view[i].Empty?)
      && (view[i].Occupied? && view[i].s.hidden ==> r[i] == Occupied(Fish, spawn[i]))
      && (!(view[i].Occupied? && view[i].s.hidden) ==> r[i] == view[i])
  {
  }

  /** renderSwarm keeps the number of fish. */
  lemma ReplaceHiddenCount(view: seq<Slot>, spawn: seq<LayerState>)
    requires |spawn| >= |view|
    ensures CountOccupied(ReplaceHidden(view, spawn)) == CountOccupied(view)
  {
    SamePattern(ReplaceHidden(view, spawn), view);
  }

  /** The first loop of renderBubbles: every hidden bubble slot emptied. */
  function ClearHidden(view: seq<Slot>): (r: seq<Slot>)
    ensures |r| == |view|
  {
    seq(|view|, i requires 0 <= i < |view| =>
      if view[i].Occupied? && view[i].s.hidden then Empty else view[i])
  }

  /** A slot is emptied exactly when it held a hidden bubble; no other slot
      changes. */
  lemma ClearHiddenSlots(view: seq<Slot>, i: int)
    requires 0 <= i < |view|
    ensures ClearHidden(view)[i].Empty? <==> view[i].Empty? || view[i].s.hidden
    ensures ClearHidden(view)[i].Occupied? ==> ClearHidden(view)[i] == view[i]
    ensures ClearHidden(view)[i].Occupied? ==> !ClearHidden(view)[i].s.hidden
  {
  }

  /** The column a fish's bubble trail starts from: just behind the head of
      a fish swimming left, at the right end of one swimming right. */
  function LeadingEdge(s: LayerState): int
  {
    if s.velo < 0 then s.x + 1 else s.x + s.asset.width
  }

  /** The modulus w / 4 is only taken for a fish with a positive leading
      edge, so it must not be zero then. */
  predicate WakeSafe(fish: seq<Slot>, w: nat)
  {
    w / 4 == 0 ==> forall i :: 0 <= i < |fish| && fish[i].Occupied? ==> LeadingEdge(fish[i].s) <= 0
  }

  /** Whether a fish releases a bubble this tick: its leading edge is on a
      positive multiple of w / 4. */
  predicate Wakes(s: LayerState, w: nat)
    requires LeadingEdge(s) > 0 ==> w / 4 != 0
  {
    LeadingEdge(s) > 0 && LeadingEdge(s) % (w / 4) == 0
  }

  /** The bubble a fish releases: NewRandBubble moved to the fish's leading
      edge, one row above it. */
  function WakeBubble(fish: LayerState, cache: map<string, seq<Asset>>, roll: BubbleRoll): LayerState
    requires "bubble" in cache && roll.pick < |cache["bubble"]| && BubbleChoices(roll, Blues())
  {
    SpawnBubble(cache["bubble"][roll.pick], Blues(), roll).(x := LeadingEdge(fish), y := fish.y - 1)
  }

  /** The second loop of renderBubbles: the bubble slot of every fish that
      releases a bubble takes the new bubble. */
  function Wake(fish: seq<Slot>, bubs: seq<Slot>, cache: map<string, seq<Asset>>,
                rolls: seq<BubbleRoll>, w: nat): (r: seq<Slot>)
    requires |fish| <= |bubs| && |rolls| >= |fish| && BubbleRollsFit(cache, rolls)
    requires WakeSafe(fish, w)
    ensures |r| == |bubs|
  {
    seq(|bubs|, i requires 0 <= i < |bubs| =>
      if i < |fish| && fish[i].Occupied? && Wakes(fish[i].s, w)
      then Occupied(Bubble, WakeBubble(fish[i].s, cache, rolls[i]))
      else bubs[i])
  }

  /** A bubble slot takes a new bubble exactly when the fish in the same
      slot releases one; the bubble sits at (leading edge, fish row - 1),
      rises at speed 2 to 5 and shows frame 0. Every other slot is kept. */
  lemma WakeSlots(fish: seq<Slot>, bubs: seq<Slot>, cache: map<string, seq<Asset>>,
                  rolls: seq<BubbleRoll>, w: nat, i: int)
    requires |fish| <= |bubs| && |rolls| >= |fish| && BubbleRollsFit(cache, rolls)
    requires WakeSafe(fish, w) && 0 <= i < |bubs|
    ensures var r := Wake(fish, bubs, cache, rolls, w);
      if i < |fish| && fish[i].Occupied? && Wakes(fish[i].s, w) then
        && r[i].Occupied? && r[i].kind == Bubble
        && r[i].s.x == LeadingEdge(fish[i].s) && r[i].s.y == fish[i].s.y - 1
        && r[i].s.velo in {-2, -3, -4, -5} && r[i].s.assetIndex == 0 && !r[i].s.hidden
        && r[i].s.style == Blues()[rolls[i].color]
      else r[i] == bubs[i]
  {
  }

  /** A fish wakes only with leading edge w / 4, 2 * (w / 4), ...: at most
      one column in every w / 4 triggers. */
  lemma WakesAtMultiples(s: LayerState, w: nat)
    requires w / 4 != 0
    ensures Wakes(s, w) <==> exists m :: m >= 1 && LeadingEdge(s) == m * (w / 4)
  {
    var u := w / 4;
    assert u > 0;
    var e := LeadingEdge(s);
    if Wakes(s, w) {
      assert e == (e / u) * u + e % u;
      assert e / u >= 1 by {
        if e / u <= 0 { MulNonPositive(e / u, u); }
      }
      assert e == (e / u) * u;
    }
    if exists m :: m >= 1 && e == m * u {
      var m :| m >= 1 && e == m * u;
      MulPositive(m, u);
      ModOfMultiple(m, u);
    }
  }

  lemma MulNonPositive(a: int, u: int)
    requires a <= 0 && u > 0
    ensures a * u <= 0
  {
  }

  lemma MulPositive(a: int, u: int)
    requires a >= 1 && u > 0
    ensures a * u >= u
  {
  }

  /** A multiple of u leaves no remainder. */
  lemma ModOfMultiple(m: int, u: int)
    requires u > 0
    ensures (m * u) % u == 0
  {
    var e := m * u;
    var q, r := e / u, e % u;
    assert e == q * u + r && 0 <= r < u;
    assert r == (m - q) * u;
    if m - q >= 1 {
      MulPositive(m - q, u);
    } else if m - q <= -1 {
      MulPositive(q - m, u);
    }
  }

  /** Every slot is a fish slot. */
  predicate FishSlots(view: seq<Slot>)
  {
    forall k :: 0 <= k < |view| ==> FishSlot(view[k])
  }

  /** Every slot is a bubble slot. */
  predicate BubbleSlots(view: seq<Slot>)
  {
    forall k :: 0 <= k < |view| ==> BubbleSlot(view[k])
  }

  /** Fish slots can always be drawn. */
  lemma FishSlotsReady(view: seq<Slot>, cache: map<string, seq<Asset>>, dice: seq<Dice>)
    requires FishSlots(view) && |dice| >= |view|
    ensures ReadyAll(view, cache, dice)
  {
  }

  /** Bubble slots can be drawn with picks into a ready catalog. */
  lemma BubbleSlotsReady(view: seq<Slot>, cache: map<string, seq<Asset>>, dice: seq<Dice>)
    requires BubbleSlots(view) && CatalogReady(cache) && |dice| >= |view| && PicksFit(cache, dice)
    ensures ReadyAll(view, cache, dice)
  {
    forall i | 0 <= i < |view| && view[i].Occupied?
      ensures DrawReady(view[i].kind, view[i].s, cache, dice[i].pick)
    {
      assert cache["bubble"][dice[i].pick] in cache["bubble"];
    }
  }

  /** Drawing keeps fish slots and bubble slots what they are. */
  lemma DrawnSlotsKeepKind(view: seq<Slot>, cache: map<string, seq<Asset>>, dice: seq<Dice>, drawW: int)
    requires ReadyAll(view, cache, dice)
    ensures FishSlots(view) ==> FishSlots(DrawnAll(view, cache, dice, drawW))
    ensures BubbleSlots(view) ==> BubbleSlots(DrawnAll(view, cache, dice, drawW))
  {
  }

  /** Replacing hidden fish keeps fish slots. */
  lemma ReplacedFishSlots(view: seq<Slot>, cache: map<string, seq<Asset>>, w: int, h: int, rolls: seq<FishRoll>)
    requires CatalogReady(cache) && FishRollsFit(cache, rolls) && |rolls| >= |view| && FishSlots(view)
    ensures FishSlots(ReplaceHidden(view, Spawns(cache, w, h, rolls)))
  {
    forall k | 0 <= k < |view|
      ensures FishSlot(ReplaceHidden(view, Spawns(cache, w, h, rolls))[k])
    {
      SpawnsAreFishSlots(cache, w, h, rolls, k);
    }
  }

  /** Clearing and waking keep bubble slots. */
  lemma WokenBubbleSlots(fish: seq<Slot>, bubs: seq<Slot>, cache: map<string, seq<Asset>>,
                         rolls: seq<BubbleRoll>, w: nat)
    requires |fish| <= |bubs| && |rolls| >= |fish| && BubbleRollsFit(cache, rolls)
    requires WakeSafe(fish, w) && BubbleSlots(bubs)
    ensures BubbleSlots(ClearHidden(bubs))
    ensures BubbleSlots(Wake(fish, ClearHidden(bubs), cache, rolls, w))
  {
  }

  /** The swarm view after renderSwarm: hidden fish replaced, then every
      fish drawn. The number of fish is kept and every slot stays a fish
      slot. */
  ghost function SwarmTick(view: seq<Slot>, cache: map<string, seq<Asset>>, w: int, h: int,
                           rolls: seq<FishRoll>, dice: seq<Dice>, drawW: int): (r: seq<Slot>)
    requires CatalogReady(cache) && FishSlots(view)
    requires |rolls| >= |view| && FishRollsFit(cache, rolls) && |dice| >= |view|
    ensures |r| == |view| && FishSlots(r)
    ensures CountOccupied(r) == CountOccupied(view)
  {
    var next := ReplaceHidden(view, Spawns(cache, w, h, rolls));
    ReplacedFishSlots(view, cache, w, h, rolls);
    FishSlotsReady(next, cache, dice);
    DrawnSlotsKeepKind(next, cache, dice, drawW);
    ReplaceHiddenCount(view, Spawns(cache, w, h, rolls));
    DrawnAllCount(next, cache, dice, drawW);
    DrawnAll(next, cache, dice, drawW)
  }

  /** The cells renderSwarm paints: the draws of the fish after the
      replacement, later slots over earlier ones. */
  ghost function SwarmCells(view: seq<Slot>, cache: map<string, seq<Asset>>, w: int, h: int,
                            rolls: seq<FishRoll>, dice: seq<Dice>): map<Pos, Cell>
    requires CatalogReady(cache) && FishSlots(view)
    requires |rolls| >= |view| && FishRollsFit(cache, rolls) && |dice| >= |view|
  {
    var next := ReplaceHidden(view, Spawns(cache, w, h, rolls));
    ReplacedFishSlots(view, cache, w, h, rolls);
    FishSlotsReady(next, cache, dice);
    PaintAll(next, cache, dice)
  }

  /** The bubble view after renderBubbles: hidden bubbles cleared, the
      bubbles the fish release added, then every bubble drawn. The slots
      stay bubble slots. */
  ghost function BubbleTick(fish: seq<Slot>, view: seq<Slot>, cache: map<string, seq<Asset>>,
                            rolls: seq<BubbleRoll>, w: nat, dice: seq<Dice>, drawW: int): (r: seq<Slot>)
    requires CatalogReady(cache) && BubbleSlots(view) && |fish| <= |view|
    requires |rolls| >= |view| && BubbleRollsFit(cache, rolls)
    requires |dice| >= |view| && PicksFit(cache, dice) && WakeSafe(fish, w)
    ensures |r| == |view| && BubbleSlots(r)
  {
    var next := Wake(fish, ClearHidden(view), cache, rolls, w);
    WokenBubbleSlots(fish, view, cache, rolls, w);
    BubbleSlotsReady(next, cache, dice);
    DrawnSlotsKeepKind(next, cache, dice, drawW);
    DrawnAll(next, cache, dice, drawW)
  }

  /** The cells renderBubbles paints: the draws of the bubbles after the
      clearing and waking, later slots over earlier ones. */
  ghost function BubbleCells(fish: seq<Slot>, view: seq<Slot>, cache: map<string, seq<Asset>>,
                             rolls: seq<BubbleRoll>, w: nat, dice: seq<Dice>): map<Pos, Cell>
    requires CatalogReady(cache) && BubbleSlots(view) && |fish| <= |view|
    requires |rolls| >= |view| && BubbleRollsFit(cache, rolls)
    requires |dice| >= |view| && PicksFit(cache, dice) && WakeSafe(fish, w)
  {
    var next := Wake(fish, ClearHidden(view), cache, rolls, w);
    WokenBubbleSlots(fish, view, cache, rolls, w);
    BubbleSlotsReady(next, cache, dice);
    PaintAll(next, cache, dice)
  }

  /** The first loop of renderSwarm: each slot FindHidden reports gets a new
      fish; every other slot keeps its layer. */
  method ReplaceHiddenFish(a: array<Layer?>, cat: Catalog, w: int, h: int, rolls: seq<FishRoll>,
                           ghost view: seq<Slot>)
    requires |view| == a.Length && Distinct(a)
    requires forall k :: 0 <= k < a.Length ==> Holds(a[k], view[k])
    requires |rolls| >= a.Length && FishRollsFit(cat.cache, rolls)
    modifies a
    ensures Distinct(a)
    ensures forall k :: 0 <= k < a.Length ==> Holds(a[k], ReplaceHidden(view, Spawns(cat.cache, w, h, rolls))[k])
    ensures forall k :: 0 <= k < a.Length ==>
      if view[k].Occupied? && view[k].s.hidden then a[k] != null && fresh(a[k]) else a[k] == old(a[k])
  {
    ghost var next := ReplaceHidden(view, Spawns(cat.cache, w, h, rolls));
    var idx := FindHidden(a);
    assert forall t :: 0 <= t < |idx| ==> idx[t] in idx;
    for j := 0 to |idx|
      invariant forall t :: 0 <= t < |idx| ==> 0 <= idx[t] < a.Length
      invariant forall k :: 0 <= k < a.Length ==>
        if k in idx[..j] then a[k] != null && fresh(a[k]) && Holds(a[k], next[k]) else a[k] == old(a[k])
      invariant Distinct(a)
    {
      var k := idx[j];
      assert k !in idx[..j];
      var l := NewRandFish(cat, w, h, rolls[k]);
      a[k] := l;
      assert idx[..j + 1] == idx[..j] + [k];
    }
    assert idx[..|idx|] == idx;
  }

  /** The first loop of renderBubbles: each slot FindHidden reports is set
      to nil; no other slot changes. */
  method ClearHiddenBubbles(a: array<Layer?>, ghost view: seq<Slot>)
    requires |view| == a.Length && Distinct(a)
    requires forall k :: 0 <= k < a.Length ==> Holds(a[k], view[k])
    modifies a
    ensures Distinct(a)
    ensures forall k :: 0 <= k < a.Length ==> Holds(a[k], ClearHidden(view)[k])
    ensures forall k :: 0 <= k < a.Length ==>
      if view[k].Occupied? && view[k].s.hidden then a[k] == null else a[k] == old(a[k])
  {
    var idx := FindHidden(a);
    assert forall t :: 0 <= t < |idx| ==> idx[t] in idx;
    for j := 0 to |idx|
      invariant forall t :: 0 <= t < |idx| ==> 0 <= idx[t] < a.Length
      invariant forall k :: 0 <= k < a.Length && k in idx[..j] ==> a[k] == null
      invariant forall k :: 0 <= k < a.Length && k !in idx[..j] ==> a[k] == old(a[k])
    {
      a[idx[j]] := null;
      assert idx[..j + 1] == idx[..j] + [idx[j]];
    }
    assert idx[..|idx|] == idx;
  }

  /** The second loop of renderBubbles: the bubble slot of every fish that
      releases a bubble takes a new bubble at the fish's leading edge, one
      row above it. */
  method WakeFish(bubbles: array<Layer?>, swarm: array<Layer?>, cat: Catalog, w: nat,
                  rolls: seq<BubbleRoll>, ghost fish: seq<Slot>, ghost view: seq<Slot>)
    requires bubbles != swarm && swarm.Length <= bubbles.Length
    requires |fish| == swarm.Length && |view| == bubbles.Length && Distinct(bubbles)
    requires forall k :: 0 <= k < swarm.Length ==> Holds(swarm[k], fish[k])
    requires forall k :: 0 <= k < bubbles.Length ==> Holds(bubbles[k], view[k])
    requires |rolls| >= swarm.Length && BubbleRollsFit(cat.cache, rolls) && WakeSafe(fish, w)
    modifies bubbles
    ensures Distinct(bubbles)
    ensures forall k :: 0 <= k < bubbles.Length ==> Holds(bubbles[k], Wake(fish, view, cat.cache, rolls, w)[k])
    ensures forall k :: 0 <= k < bubbles.Length ==>
      if k < |fish| && fish[k].Occupied? && Wakes(fish[k].s, w) then bubbles[k] != null && fresh(bubbles[k])
      else bubbles[k] == old(bubbles[k])
  {
    ghost var next := Wake(fish, view, cat.cache, rolls, w);
    for i := 0 to swarm.Length
      invariant forall k :: 0 <= k < i && fish[k].Occupied? && Wakes(fish[k].s, w) ==>
        bubbles[k] != null && fresh(bubbles[k]) && Holds(bubbles[k], next[k])
      invariant forall k :: 0 <= k < bubbles.Length && !(k < i && fish[k].Occupied? && Wakes(fish[k].s, w)) ==>
        bubbles[k] == old(bubbles[k])
      invariant Distinct(bubbles)
    {
      var l := swarm[i];
      if l != null {
        var bx := if l.velo < 0 then l.x + 1 else l.x + l.asset.width;
        assert bx == LeadingEdge(fish[i].s);
        if bx > 0 && bx % (w / 4) == 0 {
          var b := NewRandBubble(cat, rolls[i]);
          assert forall t :: 0 <= t < bubbles.Length ==> bubbles[t] != b;
          b.x := bx;
          b.y := l.y - 1;
          bubbles[i] := b;
        }
      }
    }
  }

  /** The fish loop of Reset: one fresh fish per slot, spawned from its
      slot's roll; `view` is the slots as values. */
  method NewSchool(cat: Catalog, w: int, h: int, size: nat, rolls: seq<FishRoll>)
      returns (school: array<Layer?>, ghost view: seq<Slot>)
    requires CatalogReady(cat.cache)
    requires |rolls| >= size && FishRollsFit(cat.cache, rolls)
    ensures fresh(school) && school.Length == size && |view| == size && Distinct(school)
    ensures forall k :: 0 <= k < size ==> school[k] != null && fresh(school[k])
    ensures forall k :: 0 <= k < size ==> view[k] == Occupied(Fish, Spawns(cat.cache, w, h, rolls)[k])
    ensures forall k :: 0 <= k < size ==> Holds(school[k], view[k]) && FishSlot(view[k])
  {
    ghost var spawn := Spawns(cat.cache, w, h, rolls);
    view := seq(size, k requires 0 <= k < size => Occupied(Fish, spawn[k]));
    forall k | 0 <= k < size
      ensures FishSlot(view[k])
    {
      SpawnsAreFishSlots(cat.cache, w, h, rolls, k);
    }
    school := new Layer?[size](_ => null);
    for i := 0 to size
      invariant forall k :: 0 <= k < size ==>
        if k < i then school[k] != null && fresh(school[k]) && Holds(school[k], view[k]) else school[k] == null
      invariant Distinct(school)
    {
      var l := NewRandFish(cat, w, h, rolls[i]);
      assert forall k :: 0 <= k < size ==> school[k] != l;
      school[i] := l;
    }
  }

  /** A slice of n nil pointers. */
  method NilSlots(n: nat) returns (a: array<Layer?>, ghost view: seq<Slot>)
    ensures fresh(a) && a.Length == n && |view| == n && Distinct(a)
    ensures forall k :: 0 <= k < n ==> a[k] == null && view[k] == Empty
    ensures forall k :: 0 <= k < n ==> Holds(a[k], view[k]) && BubbleSlot(view[k])
  {
    a := new Layer?[n](_ => null);
    view := seq(n, k => Empty);
  }

  /** The body of renderSwarm on a non-nil swarm: the replacement loop, then
      the draw loop; `after` is the slots as values afterwards. */
  method SwarmPass(a: array<Layer?>, sc: Screen, cat: Catalog, w: int, h: int,
                   rolls: seq<FishRoll>, dice: seq<Dice>, ghost view: seq<Slot>)
      returns (ghost after: seq<Slot>)
    requires CatalogReady(cat.cache)
    requires |view| == a.Length && Distinct(a) && FishSlots(view)
    requires forall k :: 0 <= k < a.Length ==> Holds(a[k], view[k])
    requires |rolls| >= a.Length && FishRollsFit(cat.cache, rolls) && |dice| >= a.Length
    modifies a, sc, LayersOf(a)
    ensures after == SwarmTick(view, cat.cache, w, h, rolls, dice, sc.width)
    ensures sc.cells == old(sc.cells) + SwarmCells(view, cat.cache, w, h, rolls, dice)
    ensures Distinct(a)
    ensures forall k :: 0 <= k < a.Length ==> Holds(a[k], after[k])
    ensures forall k :: 0 <= k < a.Length ==>
      if view[k].Occupied? && view[k].s.hidden then a[k] != null && fresh(a[k]) else a[k] == old(a[k])
    ensures sc.width == old(sc.width) && sc.height == old(sc.height)
  {
    ghost var next := ReplaceHidden(view, Spawns(cat.cache, w, h, rolls));
    ReplacedFishSlots(view, cat.cache, w, h, rolls);
    FishSlotsReady(next, cat.cache, dice);
    ReplaceHiddenFish(a, cat, w, h, rolls, view);
    DrawAll(a, sc, cat, dice, next);
    after := DrawnAll(next, cat.cache, dice, sc.width);
    DrawnSlotsKeepKind(next, cat.cache, dice, sc.width);
  }

  /** The body of renderBubbles on non-nil slices: the clearing loop, the
      wake loop over the swarm, then the draw loop; `after` is the bubble
      slots as values afterwards. */
  method BubblePass(bubbles: array<Layer?>, swarm: array<Layer?>, sc: Screen, cat: Catalog, w: nat,
                    rolls: seq<BubbleRoll>, dice: seq<Dice>, ghost fish: seq<Slot>, ghost view: seq<Slot>)
      returns (ghost after: seq<Slot>)
    requires CatalogReady(cat.cache)
    requires bubbles != swarm && swarm.Length == bubbles.Length
    requires |fish| == swarm.Length && |view| == bubbles.Length && Distinct(bubbles) && BubbleSlots(view)
    requires forall k :: 0 <= k < swarm.Length ==> Holds(swarm[k], fish[k])
    requires forall k :: 0 <= k < bubbles.Length ==> Holds(bubbles[k], view[k])
    requires |rolls| >= bubbles.Length && BubbleRollsFit(cat.cache, rolls)
    requires |dice| >= bubbles.Length && PicksFit(cat.cache, dice) && WakeSafe(fish, w)
    modifies bubbles, sc, LayersOf(bubbles)
    ensures after == BubbleTick(fish, view, cat.cache, rolls, w, dice, sc.width)
    ensures sc.cells == old(sc.cells) + BubbleCells(fish, view, cat.cache, rolls, w, dice)
    ensures Distinct(bubbles)
    ensures forall k :: 0 <= k < bubbles.Length ==> Holds(bubbles[k], after[k])
    ensures forall k :: 0 <= k < bubbles.Length ==>
      if fish[k].Occupied? && Wakes(fish[k].s, w) then bubbles[k] != null && fresh(bubbles[k])
      else if view[k].Occupied? && view[k].s.hidden then bubbles[k] == null
      else bubbles[k] == old(bubbles[k])
    ensures sc.width == old(sc.width) && sc.height == old(sc.height)
  {
    ghost var cleared := ClearHidden(view);
    ghost var next := Wake(fish, cleared, cat.cache, rolls, w);
    WokenBubbleSlots(fish, view, cat.cache, rolls, w);
    BubbleSlotsReady(next, cat.cache, dice);
    ClearHiddenBubbles(bubbles, view);
    WakeFish(bubbles, swarm, cat, w, rolls, fish, cleared);
    DrawAll(bubbles, sc, cat, dice, next);
    after := DrawnAll(next, cat.cache, dice, sc.width);
    DrawnSlotsKeepKind(next, cat.cache, dice, sc.width);
  }

  // ---- the renderer ----

  class Renderer {
    var w: nat
    var h: nat
    var nameStyle: Style
    var swarm: array?<Layer?>
    var bubbles: array?<Layer?>
    const screen: Screen
    const swarmSize: int
    /** The asset cache the layers draw from. */
    const cat: Catalog
    /** The slots of swarm and bubbles as values. */
    ghost var fish: seq<Slot>
    ghost var bubs: seq<Slot>

    ghost function FishLayers(): set<Layer?>
      reads this`swarm, swarm
    {
      SliceLayers(swarm)
    }

    ghost function BubbleLayers(): set<Layer?>
      reads this`bubbles, bubbles
    {
      SliceLayers(bubbles)
    }

    /** Both slices are nil, or both have one slot per value, as many slots
        as each other, and no layer in two slots. */
    ghost predicate Shaped()
      reads this`swarm, this`bubbles, this`fish, this`bubs, swarm, bubbles
    {
      && (swarm == null <==> bubbles == null)
      && (swarm == null ==> fish == [] && bubs == [])
      && (swarm != null ==>
           && swarm != bubbles
           && swarm.Length == |fish| && bubbles.Length == |bubs| && |fish| == |bubs|
           && Distinct(swarm) && Distinct(bubbles))
    }

    /** The swarm holds the fish of its view. */
    ghost predicate FishHeld()
      reads this`swarm, this`fish, swarm, FishLayers()
    {
      HeldBy(swarm, fish) && (swarm != null ==> FishSlots(fish))
    }

    /** The bubbles slice holds the bubbles of its view. */
    ghost predicate BubblesHeld()
      reads this`bubbles, this`bubs, bubbles, BubbleLayers()
    {
      HeldBy(bubbles, bubs) && (bubbles != null ==> BubbleSlots(bubs))
    }

    ghost predicate Valid()
      reads this, swarm, bubbles, cat, FishLayers(), BubbleLayers()
    {
      CatalogReady(cat.cache) && Shaped() && FishHeld() && BubblesHeld()
    }

    /** New: nil slices; the size and the banner style keep Go's zero
        values until refresh and Reset set them. */
    constructor (sc: Screen, size: int, c: Catalog)
      requires CatalogReady(c.cache)
      ensures Valid()
      ensures screen == sc && swarmSize == size && cat == c
      ensures swarm == null && bubbles == null
      ensures w == 0 && h == 0 && nameStyle == StyleDefault
    {
      screen, swarmSize, cat := sc, size, c;
      w, h, nameStyle := 0, 0, StyleDefault;
      swarm, bubbles := null, null;
      fish, bubs := [], [];
    }

    /** Destroy: both slices become nil. */
    method Destroy()
      modifies this
      ensures swarm == null && bubbles == null && fish == [] && bubs == []
      ensures w == old(w) && h == old(h) && nameStyle == old(nameStyle)
      ensures CatalogReady(cat.cache) ==> Valid()
    {
      swarm, bubbles := null, null;
      fish, bubs := [], [];
    }

    /** refresh: take the screen size and clear the screen. */
    method Refresh()
      modifies this, screen
      ensures w == screen.width && h == screen.height && screen.cells == map[]
      ensures screen.width == old(screen.width) && screen.height == old(screen.height)
      ensures swarm == old(swarm) && bubbles == old(bubbles) && nameStyle == old(nameStyle)
      ensures fish == old(fish) && bubs == old(bubs)
    {
      w, h := screen.width, screen.height;
      screen.Clear();
    }

    /** Reset: a clean screen, a banner colour, SwarmSize fresh fish and
        SwarmSize empty bubble slots. `nameColor` is the Choose draw over
        Colors and rolls[i] the draw of the i-th fish. */
    method Reset(nameColor: nat, rolls: seq<FishRoll>)
      requires CatalogReady(cat.cache)
      requires swarmSize >= 0
      requires nameColor < |Colors()|
      requires |rolls| >= swarmSize && FishRollsFit(cat.cache, rolls)
      modifies this, screen
      ensures Valid()
      ensures w == screen.width && h == screen.height && screen.cells == map[]
      ensures screen.width == old(screen.width) && screen.height == old(screen.height)
      ensures nameStyle == Colors()[nameColor]
      ensures swarm != null && bubbles != null && fresh(swarm) && fresh(bubbles)
      ensures swarm.Length == swarmSize && bubbles.Length == swarmSize
      ensures forall k :: 0 <= k < swarm.Length ==> swarm[k] != null && fresh(swarm[k])
      ensures forall k :: 0 <= k < swarmSize ==> fish[k] == Occupied(Fish, Spawns(cat.cache, w, h, rolls)[k])
      ensures forall k :: 0 <= k < swarmSize ==> bubs[k] == Empty
    {
      Destroy();
      Refresh();
      nameStyle := Colors()[nameColor];
      var school, bubbleSlots;
      school, fish := NewSchool(cat, w, h, swarmSize, rolls);
      bubbleSlots, bubs := NilSlots(swarmSize);
      swarm, bubbles := school, bubbleSlots;
    }

    /** The invariant holds on in a state where nothing it reads changed. */
    twostate lemma ValidKept()
      requires old(Valid())
      requires unchanged(this, cat)
      requires old(swarm) != null ==> unchanged(old(swarm), old(bubbles))
      requires unchanged(old(FishLayers())) && unchanged(old(BubbleLayers()))
      ensures Valid()
    {
    }

    /** No layer is both a fish and a bubble. */
    lemma LayersApart()
      requires Valid() && swarm != null
      ensures FishLayers() !! BubbleLayers()
    {
      assert forall k :: 0 <= k < bubbles.Length && bubbles[k] != null ==> bubbles[k].kind == Bubble;
      assert forall k :: 0 <= k < swarm.Length && swarm[k] != null ==> swarm[k].kind == Fish;
    }

    /** renderSwarm: nothing when the swarm is nil; otherwise every hidden
        fish is replaced in its slot by a new one (rolls[k] is slot k's
        draw), then every fish is drawn in slot order (dice[k] is slot k's
        colour draw). */
    method RenderSwarm(rolls: seq<FishRoll>, dice: seq<Dice>)
      requires Valid()
      requires swarm != null ==> |rolls| >= swarm.Length && FishRollsFit(cat.cache, rolls) && |dice| >= swarm.Length
      modifies this`fish, swarm, screen, FishLayers()
      ensures Valid()
      ensures bubs == old(bubs)
      ensures screen.width == old(screen.width) && screen.height == old(screen.height)
      ensures old(swarm) == null ==> fish == old(fish) && screen.cells == old(screen.cells)
      ensures old(swarm) != null ==>
        && fish == SwarmTick(old(fish), cat.cache, w, h, rolls, dice, screen.width)
        && screen.cells == old(screen.cells) + SwarmCells(old(fish), cat.cache, w, h, rolls, dice)
      ensures swarm != null ==> forall k :: 0 <= k < swarm.Length ==>
        if old(fish)[k].Occupied? && old(fish)[k].s.hidden then swarm[k] != null && fresh(swarm[k])
        else swarm[k] == old(swarm[k])
    {
      if swarm == null {
        return;
      }
      LayersApart();
      fish := SwarmPass(swarm, screen, cat, w, h, rolls, dice, fish);
    }

    /** renderBubbles: nothing when the bubbles are nil; otherwise every
        hidden bubble slot is set to nil, every fish that releases a bubble
        puts a new one in its own slot of the bubbles (rolls[k] is slot k's
        draw), then every bubble is drawn in slot order (dice[k] is slot k's
        asset draw). */
    method RenderBubbles(rolls: seq<BubbleRoll>, dice: seq<Dice>)
      requires Valid()
      requires bubbles != null ==>
        && |rolls| >= bubbles.Length && BubbleRollsFit(cat.cache, rolls)
        && |dice| >= bubbles.Length && PicksFit(cat.cache, dice)
        && WakeSafe(fish, w)
      modifies this`bubs, bubbles, screen, BubbleLayers()
      ensures Valid()
      ensures fish == old(fish)
      ensures screen.width == old(screen.width) && screen.height == old(screen.height)
      ensures old(bubbles) == null ==> bubs == old(bubs) && screen.cells == old(screen.cells)
      ensures old(bubbles) != null ==>
        && bubs == BubbleTick(fish, old(bubs), cat.cache, rolls, w, dice, screen.width)
        && screen.cells == old(screen.cells) + BubbleCells(fish, old(bubs), cat.cache, rolls, w, dice)
      ensures bubbles != null ==> forall k :: 0 <= k < bubbles.Length ==>
        if fish[k].Occupied? && Wakes(fish[k].s, w) then bubbles[k] != null && fresh(bubbles[k])
        else if old(bubs)[k].Occupied? && old(bubs)[k].s.hidden then bubbles[k] == null
        else bubbles[k] == old(bubbles[k])
    {
      if bubbles == null {
        return;
      }
      LayersApart();
      bubs := BubblePass(bubbles, swarm, screen, cat, w, rolls, dice, fish, bubs);
    }

    /** renderName: the banner in nameStyle. */
    method RenderName()
      modifies screen
      ensures screen.cells == old(screen.cells) + NamePaint(w, h, nameStyle)
      ensures screen.width == old(screen.width) && screen.height == old(screen.height)
      ensures old(Valid()) ==> Valid()
    {
      var last := NameTiles[|NameTiles| - 1];
      PaintText(screen, w - |last| - 4, h - |NameTiles| - 1, NameTiles, nameStyle);
    }

    /** renderStats: the timestamp ts and the numbers of fish and bubbles. */
    method RenderStats(ts: int)
      requires Valid()
      modifies screen
      ensures screen.cells == old(screen.cells + Overlay(StatsLines(ts, CountOccupied(fish), CountOccupied(bubs)), w))
      ensures screen.width == old(screen.width) && screen.height == old(screen.height)
      ensures Valid()
    {
      StatsPass(screen, w, ts, swarm, bubbles, fish, bubs);
      ValidKept();
    }

    /** One tick of render: the banner, the swarm, the bubbles, and in
        debug mode the statistics, drawn in that order onto the screen.
        The bubbles are woken by the fish after their move. */
    method Tick(ts: int, debug: bool, fishRolls: seq<FishRoll>, fishDice: seq<Dice>,
                bubbleRolls: seq<BubbleRoll>, bubbleDice: seq<Dice>)
      requires Valid()
      requires swarm != null ==>
        && |fishRolls| >= swarm.Length && FishRollsFit(cat.cache, fishRolls) && |fishDice| >= swarm.Length
        && |bubbleRolls| >= bubbles.Length && BubbleRollsFit(cat.cache, bubbleRolls)
        && |bubbleDice| >= bubbles.Length && PicksFit(cat.cache, bubbleDice)
        && WakeSafe(SwarmTick(fish, cat.cache, w, h, fishRolls, fishDice, screen.width), w)
      modifies this`fish, this`bubs, swarm, bubbles, screen, FishLayers(), BubbleLayers()
      ensures Valid()
      ensures screen.width == old(screen.width) && screen.height == old(screen.height)
      ensures CountOccupied(fish) == CountOccupied(old(fish))
      ensures old(swarm) == null ==>
        && fish == old(fish) && bubs == old(bubs)
        && var named := old(screen.cells) + NamePaint(w, h, nameStyle);
           screen.cells == if debug then named + Overlay(StatsLines(ts, 0, 0), w) else named
      ensures old(swarm) != null ==>
        && fish == SwarmTick(old(fish), cat.cache, w, h, fishRolls, fishDice, screen.width)
        && bubs == BubbleTick(fish, old(bubs), cat.cache, bubbleRolls, w, bubbleDice, screen.width)
        && var drawn := old(screen.cells) + NamePaint(w, h, nameStyle)
                        + SwarmCells(old(fish), cat.cache, w, h, fishRolls, fishDice)
                        + BubbleCells(fish, old(bubs), cat.cache, bubbleRolls, w, bubbleDice);
           screen.cells == if debug then drawn + Overlay(StatsLines(ts, CountOccupied(fish), CountOccupied(bubs)), w) else drawn
    {
      RenderName();
      RenderSwarm(fishRolls, fishDice);
      RenderBubbles(bubbleRolls, bubbleDice);
      if debug {
        RenderStats(ts);
      }
    }
  }
}

/** The older layer of the root package (layer.go, with its palettes and
    colour mask from main.go). It steps and spawns like the layer of
    internal/layer/layer.go, but its fish colouring depends on the chacMode
    flag, its colour mask chooses among three colours, and its palettes
    differ. */
module Legacy {
  import opened Styles
  import opened Screens
  import opened Paint
  import opened Assets
  import opened Layers

  /** The blue palette fgBluePallete. */
  function FgBluePalette(): (p: seq<Style>)
    ensures |p| == 3 && p == Blues()[1..]
  {
    assert Palette([LightBlue, LightSkyBlue, LightSteelBlue]) == Palette(BlueNames)[1..];
    Palette([LightBlue, LightSkyBlue, LightSteelBlue])
  }

  /** The fish palette fgPallete: eighteen named colours, then fgBluePallete. */
  function FgPalette(): (p: seq<Style>)
    ensures |p| == 21 && p[18..] == FgBluePalette()
    ensures forall i :: 0 <= i < |p| ==> IsPaletteStyle(p[i])
  {
    var names := [ Orchid, PaleGoldenrod, PaleGreen, PaleTurquoise, PaleVioletRed,
                   PapayaWhip, PeachPuff, LightCoral, LightCyan, LightGoldenrodYellow,
                   LightGray, LightGreen, LightPink, LightSalmon, LightSeaGreen,
                   LightSlateGray, LightYellow, LimeGreen ];
    var p := Palette(names) + FgBluePalette();
    assert forall i :: 0 <= i < 3 ==> p[18..][i] == FgBluePalette()[i];
    p
  }

  /** A draw among three choices. */
  datatype Choice3 = Choice0 | Choice1 | Choice2

  /** The colours a structural glyph chooses among. */
  function StructuralTint(c: Choice3): Color
  {
    match c
    case Choice0 => LightYellow
    case Choice1 => LightGreen
    case Choice2 => LightBlue
  }

  /** bodypartColorMask of main.go; `c` is the draw for a structural glyph. */
  function MainMask(ch: char, c: Choice3): (s: Style)
    ensures s.dim && s.bold
    ensures ch in Structural ==> s.fg in {LightYellow, LightGreen, LightBlue}
    ensures ch in Accent ==> s.fg == PaleVioletRed
    ensures ch in Punctuation ==> s.fg == LightCoral
    ensures ch !in Structural && ch !in Accent && ch !in Punctuation ==> s == DimBold
  {
    if ch in Structural then Tinted(StructuralTint(c))
    else if ch in Accent then Tinted(PaleVioletRed)
    else if ch in Punctuation then Tinted(LightCoral)
    else DimBold
  }

  /** The two masks agree on every draw they share; only main.go's can also
      colour a structural glyph LightBlue. */
  lemma MasksAgree(ch: char)
    ensures MainMask(ch, Choice0) == BodypartColorMask(ch, false)
    ensures MainMask(ch, Choice1) == BodypartColorMask(ch, true)
    ensures ch in Structural ==> MainMask(ch, Choice2).fg == LightBlue
    ensures ch in Structural ==> forall b :: BodypartColorMask(ch, b).fg != LightBlue
  {
  }

  /** The per-glyph style of fishDrawFunc: the colour mask in chacMode,
      otherwise the layer's own style. */
  function LegacyStyle(chacMode: bool, style: Style, draw: (int, int) -> Choice3): (int, int, char) -> Style
  {
    if chacMode then (x: int, y: int, ch: char) => MainMask(ch, draw(x, y))
    else (x: int, y: int, ch: char) => style
  }

  /** The older fish draw puts glyph j of its k-th drawn row at (x + j, y + k):
      a space in the default style; any other glyph in its mask class in
      chacMode and in the layer's own style otherwise. */
  lemma LegacyGlyph(s: LayerState, chacMode: bool, draw: (int, int) -> Choice3, k: int, j: int)
    requires 0 <= s.assetIndex < |s.asset.sources|
    requires var rows := DrawnRows(s.asset.sources[s.assetIndex]);
      0 <= k < |rows| && 0 <= j < |rows[k]|
    ensures var ch := DrawnRows(s.asset.sources[s.assetIndex])[k][j];
      var m := FishPaint(s.asset.sources[s.assetIndex], s.x, s.y, s.velo, LegacyStyle(chacMode, s.style, draw));
      (s.x + j, s.y + k) in m
      && m[(s.x + j, s.y + k)] ==
         Cell(ch, if IsSpace(ch) then StyleDefault
                  else if chacMode then MainMask(ch, draw(s.x + j, s.y + k))
                  else s.style)
  {
    FishGlyphLands(s.asset.sources[s.assetIndex], s.x, s.y, s.velo,
                   LegacyStyle(chacMode, s.style, draw), k, j);
  }

  /** A sprite layer of the root package. */
  class Layer {
    var x: int
    var y: int
    var velo: int
    var hidden: bool
    var style: Style
    var asset: Asset
    var assetIndex: int
    var kind: Kind

    function State(): LayerState
      reads this
    {
      LayerState(x, y, velo, hidden, style, asset, assetIndex)
    }

    /** A layer with the given fields; setDrawFunc installs the draw. */
    constructor (s: LayerState, k: Kind)
      ensures State() == s && kind == k
    {
      x, y, velo, hidden := s.x, s.y, s.velo, s.hidden;
      style, asset, assetIndex, kind := s.style, s.asset, s.assetIndex, k;
    }

    /** fishDrawFunc of layer.go; `draw` is the colour draw for each cell. */
    method FishDraw(sc: Screen, chacMode: bool, draw: (int, int) -> Choice3)
      requires 0 <= assetIndex < |asset.sources|
      modifies this, sc
      ensures sc.cells == old(sc.cells)
        + FishPaint(old(asset.sources[assetIndex]), old(x), old(y), old(velo),
                    LegacyStyle(chacMode, old(style), draw))
      ensures State() == FishStep(old(State()), old(sc.width))
      ensures kind == old(kind)
      ensures sc.width == old(sc.width) && sc.height == old(sc.height)
    {
      var drawW := sc.width;
      PaintFish(sc, x, y, velo, asset.sources[assetIndex], LegacyStyle(chacMode, style, draw));
      if (velo > 0 && x > drawW + asset.width) || (velo < 0 && x < -asset.width) {
        hidden := true;
      }
      x := x + velo;
    }

    /** bubbleDrawFunc of layer.go (its log line is not modelled). */
    method BubbleDraw(sc: Screen, cat: Catalog, pick: nat)
      requires "bubble" in cat.cache && pick < |cat.cache["bubble"]|
      requires 0 <= assetIndex < |cat.cache["bubble"][pick].sources|
      modifies this, sc
      ensures sc.cells == old(sc.cells)
        + BubblePaint(cat.cache["bubble"][pick].sources[old(assetIndex)], old(x), old(y), old(velo), old(style))
      ensures State() == BubbleStep(old(State()), cat.cache["bubble"][pick])
      ensures kind == old(kind)
      ensures sc.width == old(sc.width) && sc.height == old(sc.height)
    {
      var r := cat.Random("bubble", pick);
      asset := r.value;
      PaintBubble(sc, x, y, velo, asset.sources[assetIndex], style);
      if y < -asset.height {
        hidden := true;
      }
      y := y + velo;
    }
  }

  /** newRandomFish: as NewRandFish, with the fgPallete palette. */
  method NewRandomFish(cat: Catalog, w: int, h: int, roll: FishRoll) returns (l: Layer)
    requires "fish" in cat.cache && roll.pick < |cat.cache["fish"]|
    requires FishChoices(roll, FgPalette())
    ensures fresh(l) && l.kind == Fish
    ensures l.State() == SpawnFish(cat.cache["fish"][roll.pick], w, h, FgPalette(), roll)
  {
    var r := cat.Random("fish", roll.pick);
    l := new Layer(SpawnFish(r.value, w, h, FgPalette(), roll), Fish);
  }

  /** The draws newSwarm's calls use: one valid roll per fish. */
  predicate SwarmRolls(cache: map<string, seq<Asset>>, rolls: seq<FishRoll>)
  {
    "fish" in cache
    && forall i :: 0 <= i < |rolls| ==>
         rolls[i].pick < |cache["fish"]| && FishChoices(rolls[i], FgPalette())
  }

  /** newSwarm: swarmSize fresh, distinct fish, the i-th spawned from the
      i-th roll. */
  method NewSwarm(cat: Catalog, w: int, h: int, swarmSize: int, rolls: seq<FishRoll>)
      returns (swarm: seq<Layer>)
    requires swarmSize <= |rolls| && SwarmRolls(cat.cache, rolls)
    ensures |swarm| == if swarmSize < 0 then 0 else swarmSize
    ensures forall i :: 0 <= i < |swarm| ==> fresh(swarm[i]) && swarm[i].kind == Fish
    ensures forall i :: 0 <= i < |swarm| ==>
      swarm[i].State() == SpawnFish(cat.cache["fish"][rolls[i].pick], w, h, FgPalette(), rolls[i])
    ensures forall i, j :: 0 <= i < j < |swarm| ==> swarm[i] != swarm[j]
  {
    swarm := [];
    var i := 0;
    while i < swarmSize
      invariant 0 <= i <= |rolls| && |swarm| == i
      invariant if swarmSize < 0 then i == 0 else i <= swarmSize
      invariant forall k :: 0 <= k < i ==> fresh(swarm[k]) && swarm[k].kind == Fish
      invariant forall k :: 0 <= k < i ==>
        swarm[k].State() == SpawnFish(cat.cache["fish"][rolls[k].pick], w, h, FgPalette(), rolls[k])
      invariant forall a, b :: 0 <= a < b < i ==> swarm[a] != swarm[b]
    {
      var l := NewRandomFish(cat, w, h, rolls[i]);
      swarm := swarm + [l];
      i := i + 1;
    }
  }

  /** newRandomBubble: as NewRandBubble, with the fgBluePallete palette. */
  method NewRandomBubble(cat: Catalog, roll: BubbleRoll) returns (l: Layer)
    requires "bubble" in cat.cache && roll.pick < |cat.cache["bubble"]|
    requires BubbleChoices(roll, FgBluePalette())
    ensures fresh(l) && l.kind == Bubble
    ensures l.State() == SpawnBubble(cat.cache["bubble"][roll.pick], FgBluePalette(), roll)
  {
    var r := cat.Random("bubble", roll.pick);
    l := new Layer(SpawnBubble(r.value, FgBluePalette(), roll), Bubble);
  }
}

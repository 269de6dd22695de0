/** Sprite layers (internal/layer/layer.go): a fish or a bubble with a
    position, a speed, a style and the asset it draws. A draw paints the
    layer at its current position and then advances it one step; random
    draws arrive as arguments. */
module Layers {
  import opened Styles
  import opened Screens
  import opened Paint
  import opened Assets

  /** Which draw function a layer carries. */
  datatype Kind = Fish | Bubble

  /** The fields of a layer that its draws read and write. */
  datatype LayerState = LayerState(x: int, y: int, velo: int, hidden: bool,
                                   style: Style, asset: Asset, assetIndex: int)

  // ---- fish ----

  /** The edge test of fishDrawFunc, on the position before the step: moving
      right and past the right edge by more than the sprite, or moving left and
      further left than the sprite is wide. */
  predicate FishLeaving(s: LayerState, drawW: int)
  {
    (s.velo > 0 && s.x > drawW + s.asset.width) || (s.velo < 0 && s.x < -s.asset.width)
  }

  /** The state change of one fishDrawFunc call on a screen drawW wide. */
  function FishStep(s: LayerState, drawW: int): LayerState
  {
    s.(hidden := s.hidden || FishLeaving(s, drawW), x := s.x + s.velo)
  }

  /** The states after n draws. */
  function FishSteps(s: LayerState, drawW: int, n: nat): LayerState
  {
    if n == 0 then s else FishStep(FishSteps(s, drawW, n - 1), drawW)
  }

  /** After n draws a fish has moved n * velo columns and nothing else has
      changed but `hidden`, which is never cleared. */
  lemma {:induction false} FishStepsTrack(s: LayerState, drawW: int, n: nat)
    ensures var t := FishSteps(s, drawW, n);
      t.x == s.x + n * s.velo
      && t == s.(x := t.x, hidden := t.hidden)
      && (s.hidden ==> t.hidden)
  {
    if n > 0 {
      FishStepsTrack(s, drawW, n - 1);
      assert (n - 1) * s.velo + s.velo == n * s.velo;
    }
  }

  /** The first n >= 0 with n * u > d, for u > 0. */
  function Crossing(u: int, d: int): nat
    requires u > 0
  {
    if d < 0 then 0 else d / u + 1
  }

  /** n * u exceeds d exactly from Crossing(u, d) on. */
  lemma CrossingExact(u: int, d: int, n: nat)
    requires u > 0
    ensures n * u > d <==> n >= Crossing(u, d)
  {
    if d >= 0 {
      var q := d / u;
      assert d == q * u + d % u;
      if n >= q + 1 {
        MulMonotone(q + 1, n, u);
        assert (q + 1) * u == q * u + u;
      } else {
        MulMonotone(n, q, u);
      }
    }
  }

  /** Multiplying by a positive number keeps the order. */
  lemma MulMonotone(a: nat, b: nat, u: int)
    requires a <= b && u > 0
    ensures a * u <= b * u
  {
    assert b * u == a * u + (b - a) * u;
  }

  /** The number of draws after which a moving fish is hidden. */
  function FishLifetime(s: LayerState, drawW: int): nat
    requires s.velo != 0
  {
    1 + if s.velo > 0 then Crossing(s.velo, drawW + s.asset.width - s.x)
        else Crossing(-s.velo, s.x + s.asset.width)
  }

  /** The k-th draw sees the fish past the edge exactly from draw
      FishLifetime - 1 on. */
  lemma FishLeavingAt(s: LayerState, drawW: int, k: nat)
    requires s.velo != 0
    ensures FishLeaving(FishSteps(s, drawW, k), drawW) <==> k >= FishLifetime(s, drawW) - 1
  {
    FishStepsTrack(s, drawW, k);
    if s.velo > 0 {
      CrossingExact(s.velo, drawW + s.asset.width - s.x, k);
    } else {
      CrossingExact(-s.velo, s.x + s.asset.width, k);
      assert k * -s.velo == -(k * s.velo);
    }
  }

  /** A moving fish is hidden after n draws exactly when it already was or n
      has reached its lifetime: every fish leaves the screen, and none is
      hidden early. */
  lemma {:induction false} FishHiddenExactly(s: LayerState, drawW: int, n: nat)
    requires s.velo != 0
    ensures FishSteps(s, drawW, n).hidden <==> s.hidden || n >= FishLifetime(s, drawW)
  {
    if n > 0 {
      FishHiddenExactly(s, drawW, n - 1);
      FishLeavingAt(s, drawW, n - 1);
    }
  }

  /** A fish at rest never changes its `hidden` flag. */
  lemma {:induction false} FishAtRestStays(s: LayerState, drawW: int, n: nat)
    requires s.velo == 0
    ensures FishSteps(s, drawW, n) == s
  {
    if n > 0 {
      FishAtRestStays(s, drawW, n - 1);
    }
  }

  /** The per-glyph style of fishDrawFunc: bodypartColorMask with a colour
      draw for every cell. */
  function MaskStyle(coin: (int, int) -> bool): (int, int, char) -> Style
  {
    (x: int, y: int, ch: char) => BodypartColorMask(ch, coin(x, y))
  }

  /** Fish speeds are drawn from (2, 1, 3). */
  const FishSpeeds: seq<int> := [2, 1, 3]

  /** The random draws of NewRandFish: the asset, the speed, the palette
      entry and the side (each an index into its choice list), and the two
      IntRand results. */
  datatype FishRoll = FishRoll(pick: nat, speed: nat, color: nat, side: nat, dx: int, dy: int)

  /** The Choose draws index their lists. */
  predicate FishChoices(roll: FishRoll, palette: seq<Style>)
  {
    roll.speed < |FishSpeeds| && roll.color < |palette| && roll.side < 2
  }

  /** The IntRand draws lie in [0, n) for the n the source passes on the
      chosen side. */
  predicate FishDrawsFit(roll: FishRoll, a: Asset, w: int, h: int)
  {
    && 0 <= roll.dx
    && (roll.side == 0 ==> roll.dx < a.width * 8 - a.width)
    && (roll.side != 0 ==> roll.dx < (w + a.width * 8) - (w + a.width))
    && 0 <= roll.dy < h - a.height
  }

  /** The fish NewRandFish builds from asset a on a w by h screen: side 0
      starts left of the screen moving right, side 1 right of it moving
      left. */
  function SpawnFish(a: Asset, w: int, h: int, palette: seq<Style>, roll: FishRoll): LayerState
    requires FishChoices(roll, palette)
  {
    var velo := FishSpeeds[roll.speed];
    var l := LayerState(0, 0, velo, false, palette[roll.color], a, roll.side);
    if roll.side == 0 then l.(x := -(roll.dx + a.width), y := roll.dy)
    else l.(x := roll.dx + w + a.width, y := roll.dy, velo := velo * -1)
  }

  /** The position ranges of a spawned fish: off screen on the side its frame
      faces away from, moving into view at speed 1 to 3. */
  lemma SpawnFishRange(a: Asset, w: int, h: int, palette: seq<Style>, roll: FishRoll)
    requires FishChoices(roll, palette) && FishDrawsFit(roll, a, w, h)
    ensures var s := SpawnFish(a, w, h, palette, roll);
      && s.asset == a && !s.hidden && s.style == palette[roll.color]
      && s.assetIndex == roll.side
      && (s.assetIndex == 0 ==> s.velo in {1, 2, 3} && -8 * a.width < s.x <= -a.width)
      && (s.assetIndex == 1 ==> s.velo in {-1, -2, -3} && w + a.width <= s.x < w + 8 * a.width)
      && 0 <= s.y < h - a.height
  {
  }

  /** A spawned fish of non-negative width is not hidden by its first draw:
      it starts outside the screen on the side it swims in from, not past the
      edge it swims towards. */
  lemma SpawnedFishSurvivesFirstDraw(a: Asset, w: int, h: int, palette: seq<Style>,
                                     roll: FishRoll, drawW: int)
    requires FishChoices(roll, palette) && FishDrawsFit(roll, a, w, h)
    requires a.width >= 0 && 0 <= drawW && 0 <= w
    ensures !FishStep(SpawnFish(a, w, h, palette, roll), drawW).hidden
  {
  }

  // ---- bubbles ----

  /** The state change of one bubbleDrawFunc call: the layer takes the asset
      drawn this tick and then rises by its speed; it is hidden once it was
      above the top by more than that asset's height. */
  function BubbleStep(s: LayerState, next: Asset): LayerState
  {
    s.(asset := next, hidden := s.hidden || s.y < -next.height, y := s.y + s.velo)
  }

  /** The states after one draw per asset in `next`. */
  function BubbleSteps(s: LayerState, next: seq<Asset>): LayerState
  {
    if |next| == 0 then s else BubbleStep(BubbleSteps(s, next[..|next| - 1]), next[|next| - 1])
  }

  /** After n draws a bubble has moved n * velo rows and kept its column,
      speed, style and frame; `hidden` is never cleared. */
  lemma {:induction false} BubbleStepsTrack(s: LayerState, next: seq<Asset>)
    ensures var t := BubbleSteps(s, next);
      t.y == s.y + |next| * s.velo && t.x == s.x && t.velo == s.velo
      && t.style == s.style && t.assetIndex == s.assetIndex
      && (s.hidden ==> t.hidden)
      && (|next| > 0 ==> t.asset == next[|next| - 1])
  {
    if |next| > 0 {
      BubbleStepsTrack(s, next[..|next| - 1]);
      assert (|next| - 1) * s.velo + s.velo == |next| * s.velo;
    }
  }

  /** The number of draws after which a rising bubble whose assets are all
      `height` high is hidden. */
  function BubbleLifetime(s: LayerState, height: int): nat
    requires s.velo < 0
  {
    1 + Crossing(-s.velo, s.y + height)
  }

  /** A rising bubble is hidden after its draws exactly when it already was
      or their number has reached its lifetime. */
  lemma {:induction false} BubbleHiddenExactly(s: LayerState, next: seq<Asset>, height: int)
    requires s.velo < 0
    requires forall k :: 0 <= k < |next| ==> next[k].height == height
    ensures BubbleSteps(s, next).hidden <==> s.hidden || |next| >= BubbleLifetime(s, height)
  {
    if |next| > 0 {
      var front := next[..|next| - 1];
      BubbleHiddenExactly(s, front, height);
      BubbleStepsTrack(s, front);
      CrossingExact(-s.velo, s.y + height, |front|);
      assert |front| * -s.velo == -(|front| * s.velo);
    }
  }

  /** Bubble speeds are drawn from (3, 2, 4, 5) and negated. */
  const BubbleSpeeds: seq<int> := [3, 2, 4, 5]

  /** The random draws of NewRandBubble: the asset, the speed and the palette
      entry as indices, and the two IntRand results. */
  datatype BubbleRoll = BubbleRoll(pick: nat, speed: nat, color: nat, dx: int, dy: int)

  /** The Choose draws index their lists. */
  predicate BubbleChoices(roll: BubbleRoll, palette: seq<Style>)
  {
    roll.speed < |BubbleSpeeds| && roll.color < |palette|
  }

  /** The IntRand draws lie in [0, w) and [0, h / 2). */
  predicate BubbleDrawsFit(roll: BubbleRoll, w: int, h: nat)
  {
    0 <= roll.dx < w && 0 <= roll.dy < h / 2
  }

  /** The bubble NewRandBubble builds from asset a. */
  function SpawnBubble(a: Asset, palette: seq<Style>, roll: BubbleRoll): LayerState
    requires BubbleChoices(roll, palette)
  {
    LayerState(roll.dx, roll.dy, -BubbleSpeeds[roll.speed], false, palette[roll.color], a, 0)
  }

  /** A new bubble rises at speed 2 to 5 from the upper half of the screen. */
  lemma SpawnBubbleRange(a: Asset, w: int, h: nat, palette: seq<Style>, roll: BubbleRoll)
    requires BubbleChoices(roll, palette) && BubbleDrawsFit(roll, w, h)
    ensures var s := SpawnBubble(a, palette, roll);
      && s.velo in {-2, -3, -4, -5} && s.assetIndex == 0 && !s.hidden
      && 0 <= s.x < w && 0 <= s.y < h / 2 && s.asset == a
      && s.style == palette[roll.color]
  {
  }

  // ---- one draw, either kind ----

  /** What a draw needs to index the frame it paints: the layer's own asset
      for a fish, the freshly drawn bubble asset for a bubble. */
  predicate DrawReady(k: Kind, s: LayerState, cache: map<string, seq<Asset>>, pick: nat)
  {
    match k
    case Fish => 0 <= s.assetIndex < |s.asset.sources|
    case Bubble =>
      "bubble" in cache && pick < |cache["bubble"]|
      && 0 <= s.assetIndex < |cache["bubble"][pick].sources|
  }

  /** The state a draw leaves. */
  function Drawn(k: Kind, s: LayerState, cache: map<string, seq<Asset>>, pick: nat, drawW: int): LayerState
    requires DrawReady(k, s, cache, pick)
  {
    match k
    case Fish => FishStep(s, drawW)
    case Bubble => BubbleStep(s, cache["bubble"][pick])
  }

  /** The cells a draw writes. */
  function Painted(k: Kind, s: LayerState, cache: map<string, seq<Asset>>, pick: nat,
                   coin: (int, int) -> bool): map<Pos, Cell>
    requires DrawReady(k, s, cache, pick)
  {
    match k
    case Fish => FishPaint(s.asset.sources[s.assetIndex], s.x, s.y, s.velo, MaskStyle(coin))
    case Bubble => BubblePaint(cache["bubble"][pick].sources[s.assetIndex], s.x, s.y, s.velo, s.style)
  }

  /** A fish draw puts glyph j of its k-th drawn row at (x + j, y + k): a
      space in the default style, any other glyph in its bodypartColorMask
      class. */
  lemma FishDrawGlyph(s: LayerState, cache: map<string, seq<Asset>>, pick: nat,
                      coin: (int, int) -> bool, k: int, j: int)
    requires DrawReady(Fish, s, cache, pick)
    requires var rows := DrawnRows(s.asset.sources[s.assetIndex]);
      0 <= k < |rows| && 0 <= j < |rows[k]|
    ensures var ch := DrawnRows(s.asset.sources[s.assetIndex])[k][j];
      var m := Painted(Fish, s, cache, pick, coin);
      (s.x + j, s.y + k) in m
      && m[(s.x + j, s.y + k)] ==
         Cell(ch, if IsSpace(ch) then StyleDefault else BodypartColorMask(ch, coin(s.x + j, s.y + k)))
  {
    FishGlyphLands(s.asset.sources[s.assetIndex], s.x, s.y, s.velo, MaskStyle(coin), k, j);
  }

  /** A sprite layer. */
  class Layer {
    var x: int
    var y: int
    var velo: int
    var hidden: bool
    var style: Style
    var asset: Asset
    var assetIndex: int
    var kind: Kind

    function State(): LayerState
      reads this
    {
      LayerState(x, y, velo, hidden, style, asset, assetIndex)
    }

    /** A layer with the given fields and draw function. */
    constructor (s: LayerState, k: Kind)
      ensures State() == s && kind == k
    {
      x, y, velo, hidden := s.x, s.y, s.velo, s.hidden;
      style, asset, assetIndex, kind := s.style, s.asset, s.assetIndex, k;
    }

    /** fishDrawFunc: paint the current frame with its trail cleared, run the
        edge test, then step. `coin` is the colour draw for each cell. */
    method FishDraw(sc: Screen, coin: (int, int) -> bool)
      requires 0 <= assetIndex < |asset.sources|
      modifies this, sc
      ensures sc.cells == old(sc.cells)
        + FishPaint(old(asset.sources[assetIndex]), old(x), old(y), old(velo), MaskStyle(coin))
      ensures State() == FishStep(old(State()), old(sc.width))
      ensures kind == old(kind)
      ensures sc.width == old(sc.width) && sc.height == old(sc.height)
    {
      var drawW := sc.width;
      PaintFish(sc, x, y, velo, asset.sources[assetIndex], MaskStyle(coin));
      if (velo > 0 && x > drawW + asset.width) || (velo < 0 && x < -asset.width) {
        hidden := true;
      }
      x := x + velo;
    }

    /** bubbleDrawFunc: take a random bubble asset (`pick` is the draw), paint
        it clearing the cell it rose from, run the top-edge test, then rise. */
    method BubbleDraw(sc: Screen, cat: Catalog, pick: nat)
      requires "bubble" in cat.cache && pick < |cat.cache["bubble"]|
      requires 0 <= assetIndex < |cat.cache["bubble"][pick].sources|
      modifies this, sc
      ensures sc.cells == old(sc.cells)
        + BubblePaint(cat.cache["bubble"][pick].sources[old(assetIndex)], old(x), old(y), old(velo), old(style))
      ensures State() == BubbleStep(old(State()), cat.cache["bubble"][pick])
      ensures kind == old(kind)
      ensures sc.width == old(sc.width) && sc.height == old(sc.height)
    {
      var r := cat.Random("bubble", pick);
      asset := r.value;
      PaintBubble(sc, x, y, velo, asset.sources[assetIndex], style);
      if y < -asset.height {
        hidden := true;
      }
      y := y + velo;
    }

    /** l.Draw(l, sc): the draw function the layer carries. */
    method Draw(sc: Screen, cat: Catalog, coin: (int, int) -> bool, pick: nat)
      requires DrawReady(kind, State(), cat.cache, pick)
      modifies this, sc
      ensures State() == Drawn(old(kind), old(State()), cat.cache, pick, old(sc.width))
      ensures sc.cells == old(sc.cells) + Painted(old(kind), old(State()), cat.cache, pick, coin)
      ensures kind == old(kind)
      ensures sc.width == old(sc.width) && sc.height == old(sc.height)
    {
      if kind == Fish {
        FishDraw(sc, coin);
      } else {
        BubbleDraw(sc, cat, pick);
      }
    }
  }

  /** FindHidden: the indices of the hidden layers, in increasing order. */
  method FindHidden(layers: array<Layer?>) returns (idx: seq<int>)
    ensures forall i :: i in idx <==> 0 <= i < layers.Length && layers[i] != null && layers[i].hidden
    ensures forall a, b :: 0 <= a < b < |idx| ==> idx[a] < idx[b]
  {
    idx := [];
    for i := 0 to layers.Length
      invariant forall k :: k in idx <==> 0 <= k < i && layers[k] != null && layers[k].hidden
      invariant forall a, b :: 0 <= a < b < |idx| ==> idx[a] < idx[b]
      invariant forall a :: 0 <= a < |idx| ==> idx[a] < i
    {
      var l := layers[i];
      if l != null && l.hidden {
        idx := idx + [i];
      }
    }
  }

  /** NewRandFish: a fresh fish layer from the drawn fish asset. */
  method NewRandFish(cat: Catalog, w: int, h: int, roll: FishRoll) returns (l: Layer)
    requires "fish" in cat.cache && roll.pick < |cat.cache["fish"]|
    requires FishChoices(roll, Colors())
    ensures fresh(l) && l.kind == Fish
    ensures l.State() == SpawnFish(cat.cache["fish"][roll.pick], w, h, Colors(), roll)
  {
    var r := cat.Random("fish", roll.pick);
    l := new Layer(SpawnFish(r.value, w, h, Colors(), roll), Fish);
  }

  /** NewRandBubble: a fresh bubble layer from the drawn bubble asset. */
  method NewRandBubble(cat: Catalog, roll: BubbleRoll) returns (l: Layer)
    requires "bubble" in cat.cache && roll.pick < |cat.cache["bubble"]|
    requires BubbleChoices(roll, Blues())
    ensures fresh(l) && l.kind == Bubble
    ensures l.State() == SpawnBubble(cat.cache["bubble"][roll.pick], Blues(), roll)
  {
    var r := cat.Random("bubble", roll.pick);
    l := new Layer(SpawnBubble(r.value, Blues(), roll), Bubble);
  }
}

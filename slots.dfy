/** The renderer's layer slices as values: each slot is empty (a nil
    pointer) or holds a layer of some kind and state. The slice's draw loop
    draws the occupied slots in order. */
module Slots {
  import opened Screens
  import opened Paint
  import opened Assets
  import opened Layers

  datatype Slot = Empty | Occupied(kind: Kind, s: LayerState)

  /** The slot value a (possibly nil) layer pointer stands for. */
  predicate Holds(l: Layer?, slot: Slot)
    reads l
  {
    if l == null then slot == Empty else slot == Occupied(l.kind, l.State())
  }

  /** The random draws one slot's draw consumes: the colour coin of a fish
      draw, the asset pick of a bubble draw. */
  datatype Dice = Dice(coin: (int, int) -> bool, pick: nat)

  /** Every occupied slot can be drawn with its dice. */
  predicate ReadyAll(view: seq<Slot>, cache: map<string, seq<Asset>>, dice: seq<Dice>)
  {
    |dice| >= |view|
    && forall i :: 0 <= i < |view| && view[i].Occupied? ==>
         DrawReady(view[i].kind, view[i].s, cache, dice[i].pick)
  }

  /** The slot after its draw, if it has one. */
  function DrawnSlot(slot: Slot, cache: map<string, seq<Asset>>, d: Dice, drawW: int): Slot
    requires slot.Occupied? ==> DrawReady(slot.kind, slot.s, cache, d.pick)
  {
    if slot.Empty? then Empty else Occupied(slot.kind, Drawn(slot.kind, slot.s, cache, d.pick, drawW))
  }

  /** Every slot after the draw loop; the pattern of empty slots is kept. */
  function DrawnAll(view: seq<Slot>, cache: map<string, seq<Asset>>, dice: seq<Dice>, drawW: int): (r: seq<Slot>)
    requires ReadyAll(view, cache, dice)
    ensures |r| == |view|
    ensures forall i :: 0 <= i < |r| ==> (r[i].Empty? <==> view[i].Empty?)
    ensures forall i :: 0 <= i < |r| && r[i].Occupied? ==> r[i].kind == view[i].kind
  {
    seq(|view|, i requires 0 <= i < |view| => DrawnSlot(view[i], cache, dice[i], drawW))
  }

  /** The cells one slot's draw writes. */
  function SlotPaint(slot: Slot, cache: map<string, seq<Asset>>, d: Dice): map<Pos, Cell>
    requires slot.Occupied? ==> DrawReady(slot.kind, slot.s, cache, d.pick)
  {
    if slot.Empty? then map[] else Painted(slot.kind, slot.s, cache, d.pick, d.coin)
  }

  /** The cells the draw loop writes, later slots over earlier ones. */
  function PaintAll(view: seq<Slot>, cache: map<string, seq<Asset>>, dice: seq<Dice>): map<Pos, Cell>
    requires ReadyAll(view, cache, dice)
    decreases |view|
  {
    if |view| == 0 then map[]
    else
      var n := |view| - 1;
      PaintAll(view[..n], cache, dice) + SlotPaint(view[n], cache, dice[n])
  }

  /** A cell the draw loop writes comes from some occupied slot's draw. */
  lemma {:induction false} PaintAllFrom(view: seq<Slot>, cache: map<string, seq<Asset>>, dice: seq<Dice>, p: Pos)
    requires ReadyAll(view, cache, dice)
    requires p in PaintAll(view, cache, dice)
    ensures exists i :: 0 <= i < |view| && view[i].Occupied? && p in SlotPaint(view[i], cache, dice[i])
  {
    var n := |view| - 1;
    if p !in SlotPaint(view[n], cache, dice[n]) {
      PaintAllFrom(view[..n], cache, dice, p);
      var i :| 0 <= i < n && view[..n][i].Occupied? && p in SlotPaint(view[..n][i], cache, dice[i]);
      assert view[i] == view[..n][i];
    }
  }

  /** A cell shows what the last slot that paints it wrote: later layers are
      drawn over earlier ones. */
  lemma {:induction false} PaintAllTop(view: seq<Slot>, cache: map<string, seq<Asset>>, dice: seq<Dice>,
                                       p: Pos, i: int)
    requires ReadyAll(view, cache, dice)
    requires 0 <= i < |view| && p in SlotPaint(view[i], cache, dice[i])
    requires forall j :: i < j < |view| ==> p !in SlotPaint(view[j], cache, dice[j])
    ensures p in PaintAll(view, cache, dice)
    ensures PaintAll(view, cache, dice)[p] == SlotPaint(view[i], cache, dice[i])[p]
  {
    var n := |view| - 1;
    if i < n {
      assert view[..n][i] == view[i];
      PaintAllTop(view[..n], cache, dice, p, i);
      assert p !in SlotPaint(view[n], cache, dice[n]);
    }
  }

  /** Prefixes of a ready view are ready. */
  lemma ReadyPrefix(view: seq<Slot>, cache: map<string, seq<Asset>>, dice: seq<Dice>, n: int)
    requires ReadyAll(view, cache, dice) && 0 <= n <= |view|
    ensures ReadyAll(view[..n], cache, dice)
  {
    assert forall i :: 0 <= i < n ==> view[..n][i] == view[i];
  }

  /** The number of occupied slots. */
  function CountOccupied(view: seq<Slot>): nat
  {
    if |view| == 0 then 0
    else CountOccupied(view[..|view| - 1]) + (if view[|view| - 1].Occupied? then 1 else 0)
  }

  /** Views with the same pattern of empty slots hold as many layers. */
  lemma {:induction false} SamePattern(a: seq<Slot>, b: seq<Slot>)
    requires |a| == |b|
    requires forall i :: 0 <= i < |a| ==> (a[i].Empty? <==> b[i].Empty?)
    ensures CountOccupied(a) == CountOccupied(b)
  {
    if |a| > 0 {
      var n := |a| - 1;
      SamePattern(a[..n], b[..n]);
    }
  }

  /** The draw loop keeps the number of layers. */
  lemma DrawnAllCount(view: seq<Slot>, cache: map<string, seq<Asset>>, dice: seq<Dice>, drawW: int)
    requires ReadyAll(view, cache, dice)
    ensures CountOccupied(DrawnAll(view, cache, dice, drawW)) == CountOccupied(view)
  {
    SamePattern(DrawnAll(view, cache, dice, drawW), view);
  }

  /** The number of non-nil pointers. */
  function CountNonNull(ls: seq<Layer?>): nat
  {
    if |ls| == 0 then 0 else CountNonNull(ls[..|ls| - 1]) + (if ls[|ls| - 1] != null then 1 else 0)
  }

  /** A slice and the view it stands for hold as many layers. */
  lemma {:induction false} CountNonNullOccupied(ls: seq<Layer?>, view: seq<Slot>)
    requires |ls| == |view|
    requires forall i :: 0 <= i < |ls| ==> (ls[i] == null <==> view[i].Empty?)
    ensures CountNonNull(ls) == CountOccupied(view)
  {
    if |ls| > 0 {
      var n := |ls| - 1;
      CountNonNullOccupied(ls[..n], view[..n]);
    }
  }

  /** The layers of a possibly nil slice. */
  function SliceLayers(a: array?<Layer?>): set<Layer?>
    reads a
  {
    if a == null then {} else LayersOf(a)
  }

  /** A slice holds the layers of a view, slot by slot; a nil slice stands
      for the empty view. */
  ghost predicate HeldBy(a: array?<Layer?>, view: seq<Slot>)
    reads a, SliceLayers(a)
  {
    if a == null then view == []
    else a.Length == |view| && forall k :: 0 <= k < a.Length ==> Holds(a[k], view[k])
  }

  /** The counting loop of renderStats: the number of non-nil slots, which
      is the number of layers of the slice's view; a nil slice holds none. */
  method CountLayers(a: array?<Layer?>, ghost view: seq<Slot>) returns (n: nat)
    requires HeldBy(a, view)
    ensures n == if a == null then 0 else CountNonNull(a[..])
    ensures n == CountOccupied(view)
  {
    n := 0;
    if a == null {
      return;
    }
    for i := 0 to a.Length
      invariant n == CountNonNull(a[..i])
    {
      assert a[..i + 1][..i] == a[..i];
      if a[i] != null {
        n := n + 1;
      }
    }
    assert a[..a.Length] == a[..];
    CountNonNullOccupied(a[..], view);
  }

  /** Whether no layer sits in two slots. */
  predicate Distinct(a: array<Layer?>)
    reads a
  {
    forall i, j :: 0 <= i < a.Length && 0 <= j < a.Length && i != j && a[i] != null ==> a[i] != a[j]
  }

  /** The layers of a slice. */
  function LayersOf(a: array<Layer?>): set<Layer?>
    reads a
  {
    set k | 0 <= k < a.Length && a[k] != null :: a[k]
  }

  /** The draw loop: `l.Draw(l, sc)` for every non-nil layer, in slice order. */
  method DrawAll(a: array<Layer?>, sc: Screen, cat: Catalog, dice: seq<Dice>, ghost view: seq<Slot>)
    requires |view| == a.Length && Distinct(a)
    requires forall k :: 0 <= k < a.Length ==> Holds(a[k], view[k])
    requires ReadyAll(view, cat.cache, dice)
    modifies sc, LayersOf(a)
    ensures forall k :: 0 <= k < a.Length ==> Holds(a[k], DrawnAll(view, cat.cache, dice, old(sc.width))[k])
    ensures sc.cells == old(sc.cells) + PaintAll(view, cat.cache, dice)
    ensures sc.width == old(sc.width) && sc.height == old(sc.height)
  {
    ghost var after := DrawnAll(view, cat.cache, dice, sc.width);
    for i := 0 to a.Length
      invariant forall k :: 0 <= k < a.Length ==> Holds(a[k], if k < i then after[k] else view[k])
      invariant ReadyAll(view[..i], cat.cache, dice)
      invariant sc.cells == old(sc.cells) + PaintAll(view[..i], cat.cache, dice)
      invariant sc.width == old(sc.width) && sc.height == old(sc.height)
    {
      ReadyPrefix(view, cat.cache, dice, i + 1);
      assert view[..i + 1][..i] == view[..i];
      var l := a[i];
      if l == null {
        UnionEmpty(PaintAll(view[..i], cat.cache, dice));
      } else {
        assert forall k :: 0 <= k < a.Length && k != i ==> a[k] != l;
        l.Draw(sc, cat, dice[i].coin, dice[i].pick);
        UnionAssoc(old(sc.cells), PaintAll(view[..i], cat.cache, dice), SlotPaint(view[i], cat.cache, dice[i]));
      }
    }
    assert view[..a.Length] == view;
  }
}

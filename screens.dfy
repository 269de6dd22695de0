/** The part of tcell.Screen the aquarium uses: its size and a grid of cells. */
module Screens {
  import opened Styles

  /** A screen position (column, row). */
  type Pos = (int, int)

  datatype Cell = Cell(glyph: char, style: Style)

  /** A space in the default style: what a cleared trail cell holds. */
  const Blank := Cell(' ', StyleDefault)

  class Screen {
    var width: nat
    var height: nat
    var cells: map<Pos, Cell>

    constructor (w: nat, h: nat)
      ensures width == w && height == h && cells == map[]
    {
      width, height, cells := w, h, map[];
    }

    /** SetContent(x, y, ch, nil, style). */
    method SetContent(x: int, y: int, ch: char, style: Style)
      modifies this
      ensures cells == old(cells)[(x, y) := Cell(ch, style)]
      ensures width == old(width) && height == old(height)
    {
      cells := cells[(x, y) := Cell(ch, style)];
    }

    /** Clear(). */
    method Clear()
      modifies this
      ensures cells == map[]
      ensures width == old(width) && height == old(height)
    {
      cells := map[];
    }
  }
}

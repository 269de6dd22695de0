/** What one draw call paints: the fish, bubble and text drawing loops of
    internal/layer/layer.go, layer.go and internal/renderer/renderer.go. Each
    paint is defined as the writes of its loop folded in program order, each
    loop is proved to overlay the screen with that fold, and lemmas give the
    fold cell by cell. */
module Paint {
  import opened Styles
  import opened Screens

  /** The tiles a sprite draws, one screen row each: an empty tile is skipped
      and takes no row. */
  function DrawnRows(tiles: seq<string>): seq<string>
  {
    if |tiles| == 0 then []
    else
      var last := tiles[|tiles| - 1];
      DrawnRows(tiles[..|tiles| - 1]) + (if last == "" then [] else [last])
  }

  lemma {:induction false} DrawnRowsAppend(a: seq<string>, b: seq<string>)
    ensures DrawnRows(a + b) == DrawnRows(a) + DrawnRows(b)
  {
    if |b| == 0 {
      assert a + b == a;
    } else {
      var b' := b[..|b| - 1];
      assert (a + b)[..|a + b| - 1] == a + b';
      DrawnRowsAppend(a, b');
    }
  }

  /** Exactly the non-empty tiles are drawn. */
  lemma {:induction false} DrawnRowsMembers(tiles: seq<string>, t: string)
    ensures t in DrawnRows(tiles) <==> t in tiles && t != ""
  {
    if |tiles| > 0 {
      var front := tiles[..|tiles| - 1];
      DrawnRowsMembers(front, t);
      assert tiles == front + [tiles[|tiles| - 1]];
    }
  }

  /** No drawn row is empty, and there are at most as many as tiles. */
  lemma {:induction false} DrawnRowsNonEmpty(tiles: seq<string>)
    ensures |DrawnRows(tiles)| <= |tiles|
    ensures forall k :: 0 <= k < |DrawnRows(tiles)| ==> DrawnRows(tiles)[k] != ""
  {
    if |tiles| > 0 {
      DrawnRowsNonEmpty(tiles[..|tiles| - 1]);
    }
  }

  /** The drawn rows of all the tiles but the last, and of all of them. */
  lemma DrawnRowsLast(tiles: seq<string>)
    requires |tiles| > 0
    ensures tiles[|tiles| - 1] == "" ==> DrawnRows(tiles) == DrawnRows(tiles[..|tiles| - 1])
    ensures tiles[|tiles| - 1] != "" ==>
      var rows := DrawnRows(tiles);
      |rows| == |DrawnRows(tiles[..|tiles| - 1])| + 1
      && rows[..|rows| - 1] == DrawnRows(tiles[..|tiles| - 1]) && rows[|rows| - 1] == tiles[|tiles| - 1]
  {
    var front := DrawnRows(tiles[..|tiles| - 1]);
    assert front + [] == front;
    assert (front + [tiles[|tiles| - 1]])[..|front|] == front;
  }

  lemma UnionUpdate<K, V>(a: map<K, V>, b: map<K, V>, q: K, v: V)
    ensures (a + b)[q := v] == a + b[q := v]
  {
  }

  lemma UnionEmpty<K, V>(a: map<K, V>)
    ensures a + map[] == a
  {
  }

  lemma UnionAssoc<K, V>(a: map<K, V>, b: map<K, V>, c: map<K, V>)
    ensures a + b + c == a + (b + c)
  {
  }

  /** p is the position of glyph j of row k, (x0 + j, y0 + k). */
  predicate InShape(rows: seq<string>, x0: int, y0: int, p: Pos)
  {
    0 <= p.1 - y0 < |rows| && 0 <= p.0 - x0 < |rows[p.1 - y0]|
  }

  function GlyphAt(rows: seq<string>, x0: int, y0: int, p: Pos): char
    requires InShape(rows, x0, y0, p)
  {
    rows[p.1 - y0][p.0 - x0]
  }

  /** Shape membership on the last row and on the rows above it. */
  lemma InShapeLast(rows: seq<string>, x0: int, y0: int, p: Pos)
    requires |rows| > 0
    ensures InShape(rows, x0, y0, p) <==>
      (InShape(rows[..|rows| - 1], x0, y0, p) || InShape([rows[|rows| - 1]], x0, y0 + |rows| - 1, p))
    ensures InShape(rows[..|rows| - 1], x0, y0, p) ==>
      GlyphAt(rows, x0, y0, p) == GlyphAt(rows[..|rows| - 1], x0, y0, p)
    ensures InShape([rows[|rows| - 1]], x0, y0 + |rows| - 1, p) ==>
      GlyphAt(rows, x0, y0, p) == GlyphAt([rows[|rows| - 1]], x0, y0 + |rows| - 1, p)
  {
  }

  // ---- text ----

  /** The first j characters of a line written left to right from (x0, y). */
  function TextRow(line: string, x0: int, y: int, style: Style, j: nat): map<Pos, Cell>
    requires j <= |line|
  {
    if j == 0 then map[]
    else TextRow(line, x0, y, style, j - 1)[(x0 + j - 1, y) := Cell(line[j - 1], style)]
  }

  /** Lines of text written from (x0, y0), one row per line, even an empty one. */
  function TextPaint(lines: seq<string>, x0: int, y0: int, style: Style): map<Pos, Cell>
  {
    if |lines| == 0 then map[]
    else
      var n := |lines| - 1;
      TextPaint(lines[..n], x0, y0, style) + TextRow(lines[n], x0, y0 + n, style, |lines[n]|)
  }

  lemma {:induction false} TextRowAt(line: string, x0: int, y: int, style: Style, j: nat, p: Pos)
    requires j <= |line|
    ensures p in TextRow(line, x0, y, style, j) <==> p.1 == y && x0 <= p.0 < x0 + j
    ensures p in TextRow(line, x0, y, style, j) ==>
      TextRow(line, x0, y, style, j)[p] == Cell(line[p.0 - x0], style)
  {
    if j > 0 {
      TextRowAt(line, x0, y, style, j - 1, p);
    }
  }

  /** Character c of line k is written at (x0 + c, y0 + k), in the given
      style, and nothing else is written. */
  lemma {:induction false} TextPaintAt(lines: seq<string>, x0: int, y0: int, style: Style, p: Pos)
    ensures p in TextPaint(lines, x0, y0, style) <==> InShape(lines, x0, y0, p)
    ensures p in TextPaint(lines, x0, y0, style) ==>
      TextPaint(lines, x0, y0, style)[p] == Cell(GlyphAt(lines, x0, y0, p), style)
  {
    if |lines| > 0 {
      var n := |lines| - 1;
      TextPaintAt(lines[..n], x0, y0, style, p);
      TextRowAt(lines[n], x0, y0 + n, style, |lines[n]|, p);
      InShapeLast(lines, x0, y0, p);
    }
  }

  /** One line of text. */
  method PaintTextRow(sc: Screen, x0: int, ty: int, line: string, style: Style)
    modifies sc
    ensures sc.cells == old(sc.cells) + TextRow(line, x0, ty, style, |line|)
    ensures sc.width == old(sc.width) && sc.height == old(sc.height)
  {
    var rx := x0;
    for j := 0 to |line|
      invariant rx == x0 + j
      invariant sc.cells == old(sc.cells) + TextRow(line, x0, ty, style, j)
      invariant sc.width == old(sc.width) && sc.height == old(sc.height)
    {
      UnionUpdate(old(sc.cells), TextRow(line, x0, ty, style, j), (rx, ty), Cell(line[j], style));
      sc.SetContent(rx, ty, line[j], style);
      rx := rx + 1;
    }
  }

  /** The text loops of renderName and renderStats. */
  method PaintText(sc: Screen, x0: int, y0: int, lines: seq<string>, style: Style)
    modifies sc
    ensures sc.cells == old(sc.cells) + TextPaint(lines, x0, y0, style)
    ensures sc.width == old(sc.width) && sc.height == old(sc.height)
  {
    var ty := y0;
    for k := 0 to |lines|
      invariant ty == y0 + k
      invariant sc.cells == old(sc.cells) + TextPaint(lines[..k], x0, y0, style)
      invariant sc.width == old(sc.width) && sc.height == old(sc.height)
    {
      PaintTextRow(sc, x0, ty, lines[k], style);
      assert lines[..k + 1][..k] == lines[..k];
      UnionAssoc(old(sc.cells), TextPaint(lines[..k], x0, y0, style), TextRow(lines[k], x0, ty, style, |lines[k]|));
      ty := ty + 1;
    }
    assert lines[..|lines|] == lines;
  }

  // ---- fish ----

  /** The first column of the trail a row of length len clears. */
  function TrailLo(x0: int, velo: int, len: int): int
  {
    if velo > 0 then x0 - velo - 1 else x0 + len
  }

  /** One past the last column of that trail. */
  function TrailHi(x0: int, velo: int, len: int): int
  {
    if velo > 0 then x0 else if velo < 0 then x0 + len - velo else x0 + len
  }

  /** p is on one of the rows, in the trail behind it. */
  predicate InTrail(rows: seq<string>, x0: int, y0: int, velo: int, p: Pos)
  {
    0 <= p.1 - y0 < |rows|
    && TrailLo(x0, velo, |rows[p.1 - y0]|) <= p.0 < TrailHi(x0, velo, |rows[p.1 - y0]|)
  }

  predicate InFish(rows: seq<string>, x0: int, y0: int, velo: int, p: Pos)
  {
    InShape(rows, x0, y0, p) || InTrail(rows, x0, y0, velo, p)
  }

  /** A fish glyph's style: spaces are drawn in the default style, other
      glyphs in the style chosen for that cell. */
  function GlyphStyle(ch: char, x: int, y: int, styleOf: (int, int, char) -> Style): Style
  {
    if IsSpace(ch) then StyleDefault else styleOf(x, y, ch)
  }

  /** The cell a fish leaves at p: its glyph there, otherwise a trail blank. */
  function FishCell(rows: seq<string>, x0: int, y0: int, styleOf: (int, int, char) -> Style, p: Pos): Cell
  {
    if InShape(rows, x0, y0, p) then
      var ch := GlyphAt(rows, x0, y0, p);
      Cell(ch, GlyphStyle(ch, p.0, p.1, styleOf))
    else Blank
  }

  /** Default-style spaces written on row y from column lo up to hi. */
  function BlankRun(lo: int, hi: int, y: int): map<Pos, Cell>
    decreases hi - lo
  {
    if hi <= lo then map[] else BlankRun(lo, hi - 1, y)[(hi - 1, y) := Blank]
  }

  lemma {:induction false} BlankRunAt(lo: int, hi: int, y: int, p: Pos)
    ensures p in BlankRun(lo, hi, y) <==> p.1 == y && lo <= p.0 < hi
    ensures p in BlankRun(lo, hi, y) ==> BlankRun(lo, hi, y)[p] == Blank
    decreases hi - lo
  {
    if lo < hi {
      BlankRunAt(lo, hi - 1, y, p);
    }
  }

  /** The writes of the first j glyphs of a fish row: before each glyph the
      row's trail is cleared again, then the glyph is drawn. */
  function FishRow(tile: string, x0: int, ty: int, velo: int,
                   styleOf: (int, int, char) -> Style, j: nat): map<Pos, Cell>
    requires j <= |tile|
  {
    if j == 0 then map[]
    else
      var ch := tile[j - 1];
      (FishRow(tile, x0, ty, velo, styleOf, j - 1) + BlankRun(TrailLo(x0, velo, |tile|), TrailHi(x0, velo, |tile|), ty))
        [(x0 + j - 1, ty) := Cell(ch, GlyphStyle(ch, x0 + j - 1, ty, styleOf))]
  }

  /** Everything one fish draw writes: each non-empty tile, in order, on
      the next row from (x0, y0). */
  function FishPaint(tiles: seq<string>, x0: int, y0: int, velo: int,
                     styleOf: (int, int, char) -> Style): map<Pos, Cell>
  {
    if |tiles| == 0 then map[]
    else
      var n := |tiles| - 1;
      FishPaint(tiles[..n], x0, y0, velo, styleOf)
      + FishRow(tiles[n], x0, y0 + |DrawnRows(tiles[..n])|, velo, styleOf, |tiles[n]|)
  }

  lemma {:induction false} FishRowAt(tile: string, x0: int, ty: int, velo: int,
                                     styleOf: (int, int, char) -> Style, j: nat, p: Pos)
    requires j <= |tile|
    ensures p in FishRow(tile, x0, ty, velo, styleOf, j) <==>
      p.1 == ty && (x0 <= p.0 < x0 + j || (j > 0 && TrailLo(x0, velo, |tile|) <= p.0 < TrailHi(x0, velo, |tile|)))
    ensures p in FishRow(tile, x0, ty, velo, styleOf, j) ==>
      FishRow(tile, x0, ty, velo, styleOf, j)[p] == FishCell([tile], x0, ty, styleOf, p)
  {
    if j > 0 {
      FishRowAt(tile, x0, ty, velo, styleOf, j - 1, p);
      BlankRunAt(TrailLo(x0, velo, |tile|), TrailHi(x0, velo, |tile|), ty, p);
    }
  }

  /** Trail membership on the last row and on the rows above it. */
  lemma InTrailLast(rows: seq<string>, x0: int, y0: int, velo: int, p: Pos)
    requires |rows| > 0
    ensures InTrail(rows, x0, y0, velo, p) <==>
      (InTrail(rows[..|rows| - 1], x0, y0, velo, p) || InTrail([rows[|rows| - 1]], x0, y0 + |rows| - 1, velo, p))
  {
  }

  /** The same writes, row by row, for rows that are already the drawn ones. */
  function FishRows(rows: seq<string>, x0: int, y0: int, velo: int,
                    styleOf: (int, int, char) -> Style): map<Pos, Cell>
  {
    if |rows| == 0 then map[]
    else
      var n := |rows| - 1;
      FishRows(rows[..n], x0, y0, velo, styleOf) + FishRow(rows[n], x0, y0 + n, velo, styleOf, |rows[n]|)
  }

  /** Skipping the empty tiles is the same as drawing the drawn rows. */
  lemma {:induction false} FishPaintRows(tiles: seq<string>, x0: int, y0: int, velo: int,
                                         styleOf: (int, int, char) -> Style)
    ensures FishPaint(tiles, x0, y0, velo, styleOf) == FishRows(DrawnRows(tiles), x0, y0, velo, styleOf)
  {
    if |tiles| > 0 {
      var n := |tiles| - 1;
      FishPaintRows(tiles[..n], x0, y0, velo, styleOf);
      DrawnRowsLast(tiles);
      if tiles[n] == "" {
        UnionEmpty(FishPaint(tiles[..n], x0, y0, velo, styleOf));
      }
    }
  }

  lemma {:induction false} FishRowsAt(rows: seq<string>, x0: int, y0: int, velo: int,
                                      styleOf: (int, int, char) -> Style, p: Pos)
    requires forall k :: 0 <= k < |rows| ==> rows[k] != ""
    ensures p in FishRows(rows, x0, y0, velo, styleOf) <==> InFish(rows, x0, y0, velo, p)
    ensures p in FishRows(rows, x0, y0, velo, styleOf) ==>
      FishRows(rows, x0, y0, velo, styleOf)[p] == FishCell(rows, x0, y0, styleOf, p)
  {
    if |rows| > 0 {
      var n := |rows| - 1;
      FishRowsAt(rows[..n], x0, y0, velo, styleOf, p);
      FishRowAt(rows[n], x0, y0 + n, velo, styleOf, |rows[n]|, p);
      FishLast(rows, x0, y0, velo, styleOf, p);
    }
  }

  /** The closed form of a fish draw: it writes exactly the glyph cells and
      the trail cells of its drawn rows; a glyph cell holds its glyph, a
      trail cell a default-style space. */
  lemma FishPaintAt(tiles: seq<string>, x0: int, y0: int, velo: int,
                    styleOf: (int, int, char) -> Style, p: Pos)
    ensures p in FishPaint(tiles, x0, y0, velo, styleOf) <==> InFish(DrawnRows(tiles), x0, y0, velo, p)
    ensures p in FishPaint(tiles, x0, y0, velo, styleOf) ==>
      FishPaint(tiles, x0, y0, velo, styleOf)[p] == FishCell(DrawnRows(tiles), x0, y0, styleOf, p)
  {
    FishPaintRows(tiles, x0, y0, velo, styleOf);
    DrawnRowsNonEmpty(tiles);
    FishRowsAt(DrawnRows(tiles), x0, y0, velo, styleOf, p);
  }

  /** How the last drawn row and the rows above it make up a fish's cells. */
  lemma FishLast(rows: seq<string>, x0: int, y0: int, velo: int,
                 styleOf: (int, int, char) -> Style, p: Pos)
    requires |rows| > 0
    ensures InFish(rows, x0, y0, velo, p) <==>
      (InFish(rows[..|rows| - 1], x0, y0, velo, p) || InFish([rows[|rows| - 1]], x0, y0 + |rows| - 1, velo, p))
    ensures p.1 == y0 + |rows| - 1 ==>
      FishCell(rows, x0, y0, styleOf, p) == FishCell([rows[|rows| - 1]], x0, y0 + |rows| - 1, styleOf, p)
    ensures p.1 != y0 + |rows| - 1 ==>
      FishCell(rows, x0, y0, styleOf, p) == FishCell(rows[..|rows| - 1], x0, y0, styleOf, p)
  {
    InShapeLast(rows, x0, y0, p);
    InTrailLast(rows, x0, y0, velo, p);
  }

  /** Glyph j of the k-th drawn row lands at (x0 + j, y0 + k); a space keeps
      the default style and any other glyph gets the style chosen for its
      cell. */
  lemma FishGlyphLands(tiles: seq<string>, x0: int, y0: int, velo: int,
                       styleOf: (int, int, char) -> Style, k: int, j: int)
    requires 0 <= k < |DrawnRows(tiles)| && 0 <= j < |DrawnRows(tiles)[k]|
    ensures (x0 + j, y0 + k) in FishPaint(tiles, x0, y0, velo, styleOf)
    ensures var ch := DrawnRows(tiles)[k][j];
      FishPaint(tiles, x0, y0, velo, styleOf)[(x0 + j, y0 + k)] ==
      Cell(ch, if IsSpace(ch) then StyleDefault else styleOf(x0 + j, y0 + k, ch))
  {
    FishPaintAt(tiles, x0, y0, velo, styleOf, (x0 + j, y0 + k));
  }

  /** Moving right, the velo + 1 columns left of x0 on every drawn row become
      default-style spaces; moving left, the -velo columns right of the
      row's end do. */
  lemma FishTrailCleared(tiles: seq<string>, x0: int, y0: int, velo: int,
                         styleOf: (int, int, char) -> Style, k: int, x: int)
    requires 0 <= k < |DrawnRows(tiles)|
    requires velo != 0
    requires velo > 0 ==> x0 - velo - 1 <= x < x0
    requires velo < 0 ==> x0 + |DrawnRows(tiles)[k]| <= x < x0 + |DrawnRows(tiles)[k]| - velo
    ensures (x, y0 + k) in FishPaint(tiles, x0, y0, velo, styleOf)
    ensures FishPaint(tiles, x0, y0, velo, styleOf)[(x, y0 + k)] == Blank
  {
    FishPaintAt(tiles, x0, y0, velo, styleOf, (x, y0 + k));
  }

  /** A fish writes only on its drawn rows, from the far end of its trail to
      its front; a fish at rest writes only its glyphs. */
  lemma FishPaintBounds(tiles: seq<string>, x0: int, y0: int, velo: int,
                        styleOf: (int, int, char) -> Style, p: Pos)
    requires p in FishPaint(tiles, x0, y0, velo, styleOf)
    ensures y0 <= p.1 < y0 + |DrawnRows(tiles)|
    ensures velo == 0 ==> InShape(DrawnRows(tiles), x0, y0, p)
    ensures velo > 0 ==> x0 - velo - 1 <= p.0 < x0 + |DrawnRows(tiles)[p.1 - y0]|
    ensures velo < 0 ==> x0 <= p.0 < x0 + |DrawnRows(tiles)[p.1 - y0]| - velo
  {
    FishPaintAt(tiles, x0, y0, velo, styleOf, p);
  }

  /** The trail-clearing loop: default-style spaces on row y from lo to hi. */
  method ClearTrail(sc: Screen, lo: int, hi: int, y: int)
    requires lo <= hi
    modifies sc
    ensures sc.cells == old(sc.cells) + BlankRun(lo, hi, y)
    ensures sc.width == old(sc.width) && sc.height == old(sc.height)
  {
    for i := lo to hi
      invariant sc.cells == old(sc.cells) + BlankRun(lo, i, y)
      invariant sc.width == old(sc.width) && sc.height == old(sc.height)
    {
      UnionUpdate(old(sc.cells), BlankRun(lo, i, y), (i, y), Blank);
      sc.SetContent(i, y, ' ', StyleDefault);
    }
  }

  /** Clears the trail of a row of length tlen: the columns behind a fish
      moving at velo; a fish at rest clears nothing. */
  method ClearBehind(sc: Screen, x0: int, ty: int, velo: int, tlen: int)
    modifies sc
    ensures sc.cells == old(sc.cells) + BlankRun(TrailLo(x0, velo, tlen), TrailHi(x0, velo, tlen), ty)
    ensures sc.width == old(sc.width) && sc.height == old(sc.height)
  {
    if velo > 0 {
      ClearTrail(sc, x0 - velo - 1, x0, ty);
    }
    if velo < 0 {
      ClearTrail(sc, x0 + tlen, x0 + tlen + -velo, ty);
    }
  }

  /** One row of the fish drawing loop. */
  method PaintFishRow(sc: Screen, x0: int, ty: int, velo: int, tile: string,
                      styleOf: (int, int, char) -> Style)
    modifies sc
    ensures sc.cells == old(sc.cells) + FishRow(tile, x0, ty, velo, styleOf, |tile|)
    ensures sc.width == old(sc.width) && sc.height == old(sc.height)
  {
    var tlen := |tile|;
    ghost var trail := BlankRun(TrailLo(x0, velo, tlen), TrailHi(x0, velo, tlen), ty);
    var tx := x0;
    for j := 0 to |tile|
      invariant tx == x0 + j
      invariant sc.cells == old(sc.cells) + FishRow(tile, x0, ty, velo, styleOf, j)
      invariant sc.width == old(sc.width) && sc.height == old(sc.height)
    {
      ghost var done := FishRow(tile, x0, ty, velo, styleOf, j);
      var r := tile[j];
      // clear any garbage from the previous draw
      ClearBehind(sc, x0, ty, velo, tlen);
      UnionAssoc(old(sc.cells), done, trail);
      // spaces are drawn in the default style so that they leave no trail
      var style := if IsSpace(r) then StyleDefault else styleOf(tx, ty, r);
      UnionUpdate(old(sc.cells), done + trail, (tx, ty), Cell(r, style));
      sc.SetContent(tx, ty, r, style);
      tx := tx + 1;
    }
  }

  /** The drawing loop of fishDrawFunc (both versions): every non-empty tile
      takes the next row; empty tiles are skipped. */
  method PaintFish(sc: Screen, x0: int, y0: int, velo: int, tiles: seq<string>,
                   styleOf: (int, int, char) -> Style)
    modifies sc
    ensures sc.cells == old(sc.cells) + FishPaint(tiles, x0, y0, velo, styleOf)
    ensures sc.width == old(sc.width) && sc.height == old(sc.height)
  {
    var ty := y0;
    for t := 0 to |tiles|
      invariant ty == y0 + |DrawnRows(tiles[..t])|
      invariant sc.cells == old(sc.cells) + FishPaint(tiles[..t], x0, y0, velo, styleOf)
      invariant sc.width == old(sc.width) && sc.height == old(sc.height)
    {
      assert tiles[..t + 1][..t] == tiles[..t];
      var tile := tiles[t];
      var tlen := |tile|;
      if tlen == 0 {
        UnionEmpty(FishPaint(tiles[..t], x0, y0, velo, styleOf));
        continue;
      }
      PaintFishRow(sc, x0, ty, velo, tile, styleOf);
      UnionAssoc(old(sc.cells), FishPaint(tiles[..t], x0, y0, velo, styleOf), FishRow(tile, x0, ty, velo, styleOf, tlen));
      ty := ty + 1;
    }
    assert tiles[..|tiles|] == tiles;
  }

  // ---- bubbles ----

  function BubbleGlyphStyle(ch: char, style: Style): Style
  {
    if IsSpace(ch) then StyleDefault else style
  }

  /** The cell a bubble leaves at p. Each glyph first blanks the cell velo
      rows behind it and is then drawn, so a glyph survives unless a later
      row's blank lands on it, which only happens when velo > 0. */
  function BubbleCell(rows: seq<string>, x0: int, y0: int, velo: int, style: Style, p: Pos): Cell
  {
    if InShape(rows, x0, y0, p) && (velo <= 0 || !InShape(rows, x0, y0 - velo, p)) then
      var ch := GlyphAt(rows, x0, y0, p);
      Cell(ch, BubbleGlyphStyle(ch, style))
    else Blank
  }

  /** The writes of the first j glyphs of a bubble row. */
  function BubbleRow(tile: string, x0: int, ty: int, velo: int, style: Style, j: nat): map<Pos, Cell>
    requires j <= |tile|
  {
    if j == 0 then map[]
    else
      var ch := tile[j - 1];
      BubbleRow(tile, x0, ty, velo, style, j - 1)[(x0 + j - 1, ty - velo) := Blank]
        [(x0 + j - 1, ty) := Cell(ch, BubbleGlyphStyle(ch, style))]
  }

  /** Everything one bubble draw writes: each non-empty tile, in order,
      on the next row from (x0, y0). */
  function BubblePaint(tiles: seq<string>, x0: int, y0: int, velo: int, style: Style): map<Pos, Cell>
  {
    if |tiles| == 0 then map[]
    else
      var n := |tiles| - 1;
      BubblePaint(tiles[..n], x0, y0, velo, style)
      + BubbleRow(tiles[n], x0, y0 + |DrawnRows(tiles[..n])|, velo, style, |tiles[n]|)
  }

  lemma {:induction false} BubbleRowAt(tile: string, x0: int, ty: int, velo: int, style: Style, j: nat, p: Pos)
    requires j <= |tile|
    ensures p in BubbleRow(tile, x0, ty, velo, style, j) <==> x0 <= p.0 < x0 + j && (p.1 == ty || p.1 == ty - velo)
    ensures p in BubbleRow(tile, x0, ty, velo, style, j) ==>
      BubbleRow(tile, x0, ty, velo, style, j)[p] == BubbleCell([tile], x0, ty, velo, style, p)
  {
    if j > 0 {
      BubbleRowAt(tile, x0, ty, velo, style, j - 1, p);
    }
  }

  /** The same writes, row by row, for rows that are already the drawn ones. */
  function BubbleRows(rows: seq<string>, x0: int, y0: int, velo: int, style: Style): map<Pos, Cell>
  {
    if |rows| == 0 then map[]
    else
      var n := |rows| - 1;
      BubbleRows(rows[..n], x0, y0, velo, style) + BubbleRow(rows[n], x0, y0 + n, velo, style, |rows[n]|)
  }

  /** Skipping the empty tiles is the same as drawing the drawn rows. */
  lemma {:induction false} BubblePaintRows(tiles: seq<string>, x0: int, y0: int, velo: int, style: Style)
    ensures BubblePaint(tiles, x0, y0, velo, style) == BubbleRows(DrawnRows(tiles), x0, y0, velo, style)
  {
    if |tiles| > 0 {
      var n := |tiles| - 1;
      BubblePaintRows(tiles[..n], x0, y0, velo, style);
      DrawnRowsLast(tiles);
      if tiles[n] == "" {
        UnionEmpty(BubblePaint(tiles[..n], x0, y0, velo, style));
      }
    }
  }

  lemma {:induction false} BubbleRowsAt(rows: seq<string>, x0: int, y0: int, velo: int, style: Style, p: Pos)
    ensures p in BubbleRows(rows, x0, y0, velo, style) <==>
      InShape(rows, x0, y0, p) || InShape(rows, x0, y0 - velo, p)
    ensures p in BubbleRows(rows, x0, y0, velo, style) ==>
      BubbleRows(rows, x0, y0, velo, style)[p] == BubbleCell(rows, x0, y0, velo, style, p)
  {
    if |rows| > 0 {
      var n := |rows| - 1;
      BubbleRowsAt(rows[..n], x0, y0, velo, style, p);
      BubbleRowAt(rows[n], x0, y0 + n, velo, style, |rows[n]|, p);
      InShapeLast(rows, x0, y0, p);
      InShapeLast(rows, x0, y0 - velo, p);
    }
  }

  /** The closed form of a bubble draw: it writes the glyph cells of its
      drawn rows and the cells velo rows behind them; a cell keeps the glyph
      drawn there unless a later row blanked it. */
  lemma BubblePaintAt(tiles: seq<string>, x0: int, y0: int, velo: int, style: Style, p: Pos)
    ensures p in BubblePaint(tiles, x0, y0, velo, style) <==>
      InShape(DrawnRows(tiles), x0, y0, p) || InShape(DrawnRows(tiles), x0, y0 - velo, p)
    ensures p in BubblePaint(tiles, x0, y0, velo, style) ==>
      BubblePaint(tiles, x0, y0, velo, style)[p] == BubbleCell(DrawnRows(tiles), x0, y0, velo, style, p)
  {
    BubblePaintRows(tiles, x0, y0, velo, style);
    BubbleRowsAt(DrawnRows(tiles), x0, y0, velo, style, p);
  }

  /** A rising bubble (velo <= 0) shows every glyph of its drawn rows,
      non-space glyphs in its own style and spaces in the default style, and
      blanks the cell -velo rows below each glyph unless a glyph is there. */
  lemma BubbleGlyphLands(tiles: seq<string>, x0: int, y0: int, velo: int, style: Style, k: int, j: int)
    requires velo <= 0
    requires 0 <= k < |DrawnRows(tiles)| && 0 <= j < |DrawnRows(tiles)[k]|
    ensures (x0 + j, y0 + k) in BubblePaint(tiles, x0, y0, velo, style)
    ensures var ch := DrawnRows(tiles)[k][j];
      BubblePaint(tiles, x0, y0, velo, style)[(x0 + j, y0 + k)] ==
      Cell(ch, if IsSpace(ch) then StyleDefault else style)
    ensures (x0 + j, y0 + k - velo) in BubblePaint(tiles, x0, y0, velo, style)
    ensures !InShape(DrawnRows(tiles), x0, y0, (x0 + j, y0 + k - velo)) ==>
            BubblePaint(tiles, x0, y0, velo, style)[(x0 + j, y0 + k - velo)] == Blank
  {
    BubblePaintAt(tiles, x0, y0, velo, style, (x0 + j, y0 + k));
    BubblePaintAt(tiles, x0, y0, velo, style, (x0 + j, y0 + k - velo));
  }

  /** A one-glyph bubble moving at velo != 0 draws its glyph and blanks the
      cell velo rows behind it, and writes nothing else. */
  lemma SingleBubblePaint(g: char, x0: int, y0: int, velo: int, style: Style)
    requires velo != 0
    ensures BubblePaint([[g]], x0, y0, velo, style) ==
            map[(x0, y0 - velo) := Blank, (x0, y0) := Cell(g, if IsSpace(g) then StyleDefault else style)]
  {
    var tiles: seq<string> := [[g]];
    var b := map[(x0, y0 - velo) := Blank, (x0, y0) := Cell(g, if IsSpace(g) then StyleDefault else style)];
    assert tiles[..0] == [];
    assert BubbleRow(tiles[0], x0, y0, velo, style, 1) == b;
    assert BubblePaint(tiles, x0, y0, velo, style) == map[] + b;
    assert map[] + b == b;
  }

  /** One row of the bubble drawing loop. */
  method PaintBubbleRow(sc: Screen, x0: int, ty: int, velo: int, tile: string, style: Style)
    modifies sc
    ensures sc.cells == old(sc.cells) + BubbleRow(tile, x0, ty, velo, style, |tile|)
    ensures sc.width == old(sc.width) && sc.height == old(sc.height)
  {
    var tx := x0;
    for j := 0 to |tile|
      invariant tx == x0 + j
      invariant sc.cells == old(sc.cells) + BubbleRow(tile, x0, ty, velo, style, j)
      invariant sc.width == old(sc.width) && sc.height == old(sc.height)
    {
      ghost var done := BubbleRow(tile, x0, ty, velo, style, j);
      var r := tile[j];
      UnionUpdate(old(sc.cells), done, (tx, ty - velo), Blank);
      sc.SetContent(tx, ty - velo, ' ', StyleDefault);
      var st := if !IsSpace(r) then style else StyleDefault;
      UnionUpdate(old(sc.cells), done[(tx, ty - velo) := Blank], (tx, ty), Cell(r, st));
      sc.SetContent(tx, ty, r, st);
      tx := tx + 1;
    }
  }

  /** The drawing loop of bubbleDrawFunc (both versions). */
  method PaintBubble(sc: Screen, x0: int, y0: int, velo: int, tiles: seq<string>, style: Style)
    modifies sc
    ensures sc.cells == old(sc.cells) + BubblePaint(tiles, x0, y0, velo, style)
    ensures sc.width == old(sc.width) && sc.height == old(sc.height)
  {
    var ty := y0;
    for t := 0 to |tiles|
      invariant ty == y0 + |DrawnRows(tiles[..t])|
      invariant sc.cells == old(sc.cells) + BubblePaint(tiles[..t], x0, y0, velo, style)
      invariant sc.width == old(sc.width) && sc.height == old(sc.height)
    {
      assert tiles[..t + 1][..t] == tiles[..t];
      var tile := tiles[t];
      var tlen := |tile|;
      if tlen == 0 {
        UnionEmpty(BubblePaint(tiles[..t], x0, y0, velo, style));
        continue;
      }
      PaintBubbleRow(sc, x0, ty, velo, tile, style);
      UnionAssoc(old(sc.cells), BubblePaint(tiles[..t], x0, y0, velo, style), BubbleRow(tile, x0, ty, velo, style, tlen));
      ty := ty + 1;
    }
    assert tiles[..|tiles|] == tiles;
  }
}

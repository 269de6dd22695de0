/** Sprite assets and the group cache they register in
    (internal/assets/assets.go). An asset is a list of frames, each frame a
    list of tiles (lines); its size is taken from its first frame. */
module Assets {
  import opened Text
  import opened Results
  import TileSets

  datatype Asset = Asset(group: string, sources: seq<seq<string>>, width: int, height: int)

  /** What toTiles computes: every source split on newlines, in order. */
  function Tiles(sources: seq<string>): seq<seq<string>>
  {
    seq(|sources|, i requires 0 <= i < |sources| => Split(sources[i], '\n'))
  }

  /** toTiles. */
  method ToTiles(sources: seq<string>) returns (t: seq<seq<string>>)
    ensures |t| == |sources|
    ensures forall i :: 0 <= i < |t| ==> t[i] == Split(sources[i], '\n')
    ensures t == Tiles(sources)
  {
    t := [];
    for i := 0 to |sources|
      invariant |t| == i
      invariant forall k :: 0 <= k < i ==> t[k] == Split(sources[k], '\n')
    {
      t := t + [Split(sources[i], '\n')];
    }
  }

  /** The length of the longest tile; -1 for no tiles. */
  function MaxLen(a: seq<string>): int
  {
    if |a| == 0 then -1
    else
      var m := MaxLen(a[..|a| - 1]);
      if |a[|a| - 1]| > m then |a[|a| - 1]| else m
  }

  /** MaxLen is the maximum: no tile is longer, some tile is that long, and
      only an empty list gives -1. */
  lemma {:induction false} MaxLenIsLongest(a: seq<string>)
    ensures MaxLen(a) == -1 <==> |a| == 0
    ensures forall i :: 0 <= i < |a| ==> |a[i]| <= MaxLen(a)
    ensures |a| > 0 ==> exists i :: 0 <= i < |a| && |a[i]| == MaxLen(a)
  {
    if |a| > 0 {
      var front := a[..|a| - 1];
      MaxLenIsLongest(front);
      assert forall i :: 0 <= i < |front| ==> a[i] == front[i];
      if |front| > 0 {
        var i :| 0 <= i < |front| && |front[i]| == MaxLen(front);
        assert |a[i]| == MaxLen(front);
      }
    }
  }

  /** longestTile. */
  method LongestTile(a: seq<string>) returns (n: int)
    ensures n == MaxLen(a)
  {
    n := -1;
    for i := 0 to |a|
      invariant n == MaxLen(a[..i])
    {
      assert a[..i + 1][..i] == a[..i];
      if |a[i]| > n {
        n := |a[i]|;
      }
    }
    assert a[..|a|] == a;
  }

  /** The asset newAsset builds: sized by the first frame. Go indexes
      tiles[0], so an asset needs at least one source. */
  function MakeAsset(group: string, sources: seq<string>): Asset
    requires |sources| >= 1
  {
    var tiles := Tiles(sources);
    Asset(group, tiles, MaxLen(tiles[0]), |tiles[0]|)
  }

  /** The size of an asset comes from its first source alone: the height is
      its line count (one more than its newlines), the width its longest
      line; every frame is kept. */
  lemma MakeAssetSize(group: string, sources: seq<string>)
    requires |sources| >= 1
    ensures var a := MakeAsset(group, sources);
      && a.group == group
      && |a.sources| == |sources|
      && (forall i :: 0 <= i < |sources| ==> Join(a.sources[i], '\n') == sources[i])
      && a.height == multiset(sources[0])['\n'] + 1
      && a.width >= 0
      && (forall k :: 0 <= k < a.height ==> |a.sources[0][k]| <= a.width)
      && (exists k :: 0 <= k < a.height && |a.sources[0][k]| == a.width)
  {
    var a := MakeAsset(group, sources);
    SplitCount(sources[0], '\n');
    MaxLenIsLongest(a.sources[0]);
    forall i | 0 <= i < |sources|
      ensures Join(a.sources[i], '\n') == sources[i]
    {
      JoinSplit(sources[i], '\n');
    }
  }

  /** Two assets whose first sources agree have the same size. */
  lemma SizeFromFirstFrame(group: string, s: seq<string>, s': seq<string>)
    requires |s| >= 1 && |s'| >= 1 && s[0] == s'[0]
    ensures MakeAsset(group, s).width == MakeAsset(group, s').width
    ensures MakeAsset(group, s).height == MakeAsset(group, s').height
  {
    assert Tiles(s)[0] == Tiles(s')[0];
  }

  /** A single-line sprite is that line wide and one line high. */
  lemma SingleLineSize(group: string, line: string, sources: seq<string>)
    requires |sources| >= 1 && sources[0] == line && '\n' !in line
    ensures MakeAsset(group, sources).width == |line|
    ensures MakeAsset(group, sources).height == 1
  {
    SplitNoSeparator(line, '\n');
    var tiles := Tiles(sources)[0];
    assert tiles == [line];
    assert tiles[..0] == [];
    assert MaxLen(tiles) == |line|;
  }

  /** The fish drawings registered at start-up: four shared with the exported
      sets, and the runner without framing newlines. */
  const FishSources: seq<seq<string>> :=
    [TileSets.Nemo, TileSets.NemoJr, [">(#)@>", "<@(#)<"], TileSets.AQ0, TileSets.AQ1]

  /** The bubble glyphs registered at start-up, one single-frame asset each. */
  const BubbleGlyphs: string := "*.oO"

  /** The assets one group gains from registering the given drawings in
      order. */
  function Registered(group: string, drawings: seq<seq<string>>): seq<Asset>
    requires forall k :: 0 <= k < |drawings| ==> |drawings[k]| >= 1
  {
    seq(|drawings|, k requires 0 <= k < |drawings| => MakeAsset(group, drawings[k]))
  }

  /** Registering one more drawing appends its asset. */
  lemma RegisteredAppend(group: string, drawings: seq<seq<string>>, i: nat)
    requires i < |drawings| && forall k :: 0 <= k < |drawings| ==> |drawings[k]| >= 1
    ensures Registered(group, drawings[..i + 1])
         == Registered(group, drawings[..i]) + [MakeAsset(group, drawings[i])]
  {
    var lhs := Registered(group, drawings[..i + 1]);
    var rhs := Registered(group, drawings[..i]) + [MakeAsset(group, drawings[i])];
    assert |lhs| == |rhs|;
    forall k | 0 <= k < |lhs|
      ensures lhs[k] == rhs[k]
    {
      assert drawings[..i + 1][k] == drawings[k];
    }
  }

  /** One single-line, single-frame drawing per glyph. */
  function Cells(glyphs: string): (d: seq<seq<string>>)
    ensures |d| == |glyphs|
    ensures forall k :: 0 <= k < |d| ==> d[k] == [[glyphs[k]]]
  {
    seq(|glyphs|, k requires 0 <= k < |glyphs| => [[glyphs[k]]])
  }

  /** Registering one glyph per asset gives one-cell, one-frame assets. */
  lemma RegisteredCells(group: string, glyphs: string)
    requires '\n' !in glyphs
    ensures |Registered(group, Cells(glyphs))| == |glyphs|
    ensures forall k :: 0 <= k < |glyphs| ==>
      var a := Registered(group, Cells(glyphs))[k];
      |a.sources| == 1 && a.width == 1 && a.height == 1
  {
    forall k | 0 <= k < |glyphs|
      ensures var a := Registered(group, Cells(glyphs))[k];
        |a.sources| == 1 && a.width == 1 && a.height == 1
    {
      SingleLineSize(group, [glyphs[k]], [[glyphs[k]]]);
    }
  }

  /** The cache after package initialisation. */
  function Seeded(): map<string, seq<Asset>>
  {
    map["fish" := Registered("fish", FishSources), "bubble" := Registered("bubble", Cells(BubbleGlyphs))]
  }

  /** Every fish drawing is a pair of frames. */
  lemma FishDrawingsPaired()
    ensures forall k :: 0 <= k < |FishSources| ==> |FishSources[k]| == 2
  {
    assert |FishSources[2]| == 2;
  }

  /** After initialisation there are five fish assets, each with a
      right-facing and a left-facing frame, the runner among them six columns by
      one row; and four bubble assets of one frame and one cell each. */
  lemma SeededGroups()
    ensures Seeded().Keys == {"fish", "bubble"}
    ensures |Seeded()["fish"]| == 5 && |Seeded()["bubble"]| == 4
    ensures forall k :: 0 <= k < 5 ==> |Seeded()["fish"][k].sources| == 2
    ensures Seeded()["fish"][2].width == 6 && Seeded()["fish"][2].height == 1
    ensures forall k :: 0 <= k < 4 ==>
      |Seeded()["bubble"][k].sources| == 1
      && Seeded()["bubble"][k].width == 1 && Seeded()["bubble"][k].height == 1
  {
    FishDrawingsPaired();
    RegisteredCells("bubble", BubbleGlyphs);
    SingleLineSize("fish", ">(#)@>", FishSources[2]);
  }

  /** The process-wide cache from group name to the assets registered in it. */
  class Catalog {
    var cache: map<string, seq<Asset>>

    /** No group holds an empty list. */
    ghost predicate Valid()
      reads this
    {
      forall g :: g in cache ==> |cache[g]| > 0
    }

    /** The assets of a group; none for an unknown group. */
    function Group(group: string): seq<Asset>
      reads this
    {
      if group in cache then cache[group] else []
    }

    /** An empty cache. */
    constructor ()
      ensures cache == map[] && Valid()
    {
      cache := map[];
    }

    /** The cache after the package's registrations, in their order. */
    constructor Load()
      ensures cache == Seeded() && Valid()
    {
      cache := map[];
      new;
      FishDrawingsPaired();
      assert Group("fish") == [];
      RegisterAll("fish", FishSources);
      assert [] + Registered("fish", FishSources) == Registered("fish", FishSources);
      assert Group("bubble") == [];
      RegisterAll("bubble", Cells(BubbleGlyphs));
      assert [] + Registered("bubble", Cells(BubbleGlyphs)) == Registered("bubble", Cells(BubbleGlyphs));
    }

    /** A run of newAsset calls for one group, in the order given. */
    method RegisterAll(group: string, drawings: seq<seq<string>>)
      requires |drawings| >= 1 && forall k :: 0 <= k < |drawings| ==> |drawings[k]| >= 1
      modifies this
      ensures cache == old(cache)[group := old(Group(group)) + Registered(group, drawings)]
    {
      ghost var g := Group(group);
      ghost var start := cache;
      var a := NewAsset(group, drawings[0]);
      RegisteredAppend(group, drawings, 0);
      assert Registered(group, drawings[..1]) == [a];
      for i := 1 to |drawings|
        invariant cache == start[group := g + Registered(group, drawings[..i])]
      {
        assert Group(group) == g + Registered(group, drawings[..i]);
        a := NewAsset(group, drawings[i]);
        RegisteredAppend(group, drawings, i);
        assert g + Registered(group, drawings[..i]) + [a] == g + Registered(group, drawings[..i + 1]);
      }
      assert drawings[..|drawings|] == drawings;
    }

    /** newAsset: builds the asset and appends it to its group, creating the
        group when absent; no other group changes. */
    method NewAsset(group: string, sources: seq<string>) returns (a: Asset)
      requires |sources| >= 1
      modifies this
      ensures a == MakeAsset(group, sources)
      ensures cache == old(cache)[group := old(Group(group)) + [a]]
      ensures old(Valid()) ==> Valid()
    {
      var tiles := ToTiles(sources);
      var w := LongestTile(tiles[0]);
      a := Asset(group, tiles, w, |tiles[0]|);
      if group !in cache {
        cache := cache[group := []];
      }
      cache := cache[group := cache[group] + [a]];
    }

    /** Random: an unknown group fails (Go panics); otherwise the asset that
        the draw `pick` selects from the group. */
    function Random(group: string, pick: nat): (r: Result<Asset>)
      reads this
      requires group in cache ==> pick < |cache[group]|
      ensures r.Err? <==> group !in cache
      ensures r.Ok? ==> r.value in cache[group] && r.value == cache[group][pick]
    {
      if group !in cache then Err("group with name `" + group + "` doesnt exist")
      else Ok(cache[group][pick])
    }
  }
}

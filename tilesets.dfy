/** The exported two-variant sprite sets and their loader (assets/assets.go).
    Each set is a right-facing and a left-facing drawing; every drawing starts
    and ends with a newline, as the Go raw strings do. */
module TileSets {
  import opened Text
  import opened Results

  const Nemo: seq<string> :=
    [ "\n  __\n\\/ @\\\n/\\__/\n",
      "\n __\n/@ \\/\n\\__/\\\n" ]

  const NemoJr: seq<string> :=
    [ "\n  ___\n\\/ CC\\\n/\\__~/\n",
      "\n ___\n/CC \\/\n\\~__/\\\n" ]

  const Runner: seq<string> :=
    [ "\n>(#)@>\n",
      "\n<@(#)<\n" ]

  const AQ0: seq<string> :=
    [ "\n       \\\n     ...\\..,\n\\  /'       \\\n >=     (  ' >\n/  \\      / /\n    /\"'\"'/''\n",
      "\n      /\n  ,../...\n /       '\\  /\n< '  )     =<\n \\ \\      /  \\\n  ''\\'\"'\"\\\n" ]

  const AQ1: seq<string> :=
    [ "\n    \\\n\\ /--\\\n>=  (o>\n/ \\__/\n    /\n",
      "\n  /\n /--\\ /\n<o)  =<\n \\__/ \\\n  \\\n" ]

  const InvalidLayout := "invalid asset layout"

  /** LoadTiles: a layout must have exactly two variants; each is split into
      its lines. */
  function LoadTiles(a: seq<string>): (r: Result<seq<seq<string>>>)
    ensures r.Err? <==> |a| != 2
    ensures r.Err? ==> r.error == InvalidLayout
    ensures r.Ok? ==> |r.value| == |a|
  {
    if |a| != 2 then Err(InvalidLayout)
    else Ok([Split(a[0], '\n'), Split(a[1], '\n')])
  }

  /** Each loaded variant is its source split on newlines: joining its lines
      gives the source back, none of them holds a newline, and there is one
      line more than the source has newlines. */
  lemma LoadTilesLines(a: seq<string>, i: int)
    requires LoadTiles(a).Ok? && 0 <= i < 2
    ensures LoadTiles(a).value[i] == Split(a[i], '\n')
    ensures Join(LoadTiles(a).value[i], '\n') == a[i]
    ensures forall k :: 0 <= k < |LoadTiles(a).value[i]| ==> '\n' !in LoadTiles(a).value[i][k]
    ensures |LoadTiles(a).value[i]| == multiset(a[i])['\n'] + 1
  {
    JoinSplit(a[i], '\n');
    SplitCount(a[i], '\n');
  }

  /** The other direction: two line lists joined with newlines load back as
      exactly those lists. */
  lemma LoadTilesJoin(t0: seq<string>, t1: seq<string>)
    requires |t0| >= 1 && forall k :: 0 <= k < |t0| ==> '\n' !in t0[k]
    requires |t1| >= 1 && forall k :: 0 <= k < |t1| ==> '\n' !in t1[k]
    ensures LoadTiles([Join(t0, '\n'), Join(t1, '\n')]) == Ok([t0, t1])
  {
    SplitJoin(t0, '\n');
    SplitJoin(t1, '\n');
  }

  /** Every exported set has two variants, so each one loads. */
  lemma ExportedSetsLoad()
    ensures LoadTiles(Nemo).Ok? && LoadTiles(NemoJr).Ok? && LoadTiles(Runner).Ok?
    ensures LoadTiles(AQ0).Ok? && LoadTiles(AQ1).Ok?
  {
  }

  /** A line between two newlines splits into itself between two empty lines. */
  lemma FramedLine(line: string)
    requires '\n' !in line
    ensures Split("\n" + line + "\n", '\n') == ["", line, ""]
  {
    SplitAfterSeparator(line, "", '\n');
    SplitAfterSeparator("", line + "\n", '\n');
    assert "\n" + line + "\n" == "" + ['\n'] + (line + "\n");
    assert line + "\n" == line + ['\n'] + "";
  }

  /** Two framed lines load as themselves between empty lines. */
  lemma FramedPair(a: string, b: string)
    requires '\n' !in a && '\n' !in b
    ensures LoadTiles(["\n" + a + "\n", "\n" + b + "\n"]) == Ok([["", a, ""], ["", b, ""]])
  {
    FramedLine(a);
    FramedLine(b);
  }

  /** The runner's variants are one line each, framed by the empty lines that
      the leading and trailing newlines produce. */
  lemma RunnerLines()
    ensures LoadTiles(Runner) == Ok([["", ">(#)@>", ""], ["", "<@(#)<", ""]])
  {
    assert Runner[0] == "\n" + ">(#)@>" + "\n";
    assert Runner[1] == "\n" + "<@(#)<" + "\n";
    assert Runner == [Runner[0], Runner[1]];
    FramedPair(">(#)@>", "<@(#)<");
  }
}

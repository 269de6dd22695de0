/** The part of fmt.Sprintf the statistics overlay uses: `%5d`, a decimal
    integer right-aligned in a field of at least five characters. */
module Format {
  import opened Text

  /** The decimal digit for d. */
  function DigitChar(d: nat): (c: char)
    requires d < 10
    ensures '0' <= c <= '9' && c as int - '0' as int == d
  {
    ('0' as int + d) as char
  }

  /** The decimal digits of n, most significant first, without leading zeros. */
  function Digits(n: nat): (s: string)
    ensures |s| >= 1
    ensures forall i :: 0 <= i < |s| ==> '0' <= s[i] <= '9'
    ensures n > 0 ==> s[0] != '0'
    decreases n
  {
    if n < 10 then [DigitChar(n)] else Digits(n / 10) + [DigitChar(n % 10)]
  }

  /** The number a string of decimal digits denotes. */
  function Value(s: string): int
  {
    if |s| == 0 then 0 else Value(s[..|s| - 1]) * 10 + (s[|s| - 1] as int - '0' as int)
  }

  /** Reading the digits back gives the number. */
  lemma {:induction false} DigitsValue(n: nat)
    ensures Value(Digits(n)) == n
  {
    if n >= 10 {
      DigitsValue(n / 10);
      var s := Digits(n);
      assert s[..|s| - 1] == Digits(n / 10);
    }
  }

  /** A number below 10^k has at most k digits. */
  lemma {:induction false} DigitsLength(n: nat, k: nat, bound: nat)
    requires k >= 1 && bound == Pow10(k) && n < bound
    ensures |Digits(n)| <= k
    decreases k
  {
    if n >= 10 {
      assert Pow10(1) == 10;
      assert k >= 2;
      assert n / 10 < Pow10(k - 1) by { Pow10Step(k); }
      DigitsLength(n / 10, k - 1, Pow10(k - 1));
    }
  }

  function Pow10(k: nat): nat
  {
    if k == 0 then 1 else 10 * Pow10(k - 1)
  }

  lemma Pow10Step(k: nat)
    requires k >= 1
    ensures Pow10(k) == 10 * Pow10(k - 1)
  {
  }

  /** The %d text of n: a minus sign before the digits of a negative number. */
  function Decimal(n: int): (s: string)
    ensures |s| >= 1 && '\n' !in s
    ensures n < 0 <==> s[0] == '-'
  {
    if n < 0 then "-" + Digits(-n) else Digits(n)
  }

  /** The number a %d text denotes. */
  function SignedValue(s: string): int
  {
    if |s| > 0 && s[0] == '-' then -Value(s[1..]) else Value(s)
  }

  /** Reading a %d text back gives the number. */
  lemma DecimalValue(n: int)
    ensures SignedValue(Decimal(n)) == n
  {
    if n < 0 {
      DigitsValue(-n);
      assert Decimal(n)[1..] == Digits(-n);
    } else {
      DigitsValue(n);
    }
  }

  /** Spaces before s up to the field width; a longer s is left as it is. */
  function PadLeft(s: string, width: nat): (r: string)
    ensures |r| == if |s| >= width then |s| else width
  {
    if |s| >= width then s else seq(width - |s|, _ => ' ') + s
  }

  /** The padding is all spaces and s ends the result unchanged. */
  lemma PadLeftContents(s: string, width: nat)
    ensures var r := PadLeft(s, width);
      && (forall i :: 0 <= i < |s| ==> r[|r| - |s| + i] == s[i])
      && (forall i :: 0 <= i < |r| - |s| ==> r[i] == ' ')
  {
  }

  /** %5d. */
  function Field5(n: int): (s: string)
    ensures |s| == if |Decimal(n)| >= 5 then |Decimal(n)| else 5
    ensures '\n' !in s
  {
    PadLeftContents(Decimal(n), 5);
    PadLeft(Decimal(n), 5)
  }

  /** %5d right-aligns the %d text in its field, spaces before it, and the
      number reads back from the field's last |Decimal(n)| characters. */
  lemma Field5Contents(n: int)
    ensures var s, d := Field5(n), Decimal(n);
      && s[|s| - |d|..] == d
      && (forall i :: 0 <= i < |s| - |d| ==> s[i] == ' ')
      && SignedValue(s[|s| - |d|..]) == n
  {
    var s, d := Field5(n), Decimal(n);
    PadLeftContents(d, 5);
    assert s[|s| - |d|..] == d;
    DecimalValue(n);
  }

  /** A count below 100000 fills exactly the five columns of its field. */
  lemma Field5Width(n: nat)
    requires n < 100000
    ensures |Field5(n)| == 5
  {
    assert Pow10(5) == 100000;
    DigitsLength(n, 5, 100000);
  }

  /** The statistics text "TS: %5d\nFish: %5d\nBubbles: %5d". */
  function StatsText(ts: int, fish: int, bubbles: int): string
  {
    var lines := StatsLines(ts, fish, bubbles);
    lines[0] + "\n" + lines[1] + "\n" + lines[2]
  }

  /** Its lines, one per statistic. */
  function StatsLines(ts: int, fish: int, bubbles: int): seq<string>
  {
    ["TS: " + Field5(ts), "Fish: " + Field5(fish), "Bubbles: " + Field5(bubbles)]
  }

  lemma NoNewline(p: string, q: string)
    requires '\n' !in p && '\n' !in q
    ensures '\n' !in p + q
  {
  }

  /** Three newline-free lines joined by newlines split back into them. */
  lemma {:induction false} ThreeLines(a: string, b: string, c: string)
    requires '\n' !in a && '\n' !in b && '\n' !in c
    ensures Split(a + "\n" + b + "\n" + c, '\n') == [a, b, c]
  {
    assert a + "\n" + b + "\n" + c == a + ['\n'] + (b + ['\n'] + c);
    SplitAfterSeparator(a, b + ['\n'] + c, '\n');
    SplitAfterSeparator(b, c, '\n');
    SplitNoSeparator(c, '\n');
  }

  /** The labels hold no newline. */
  lemma LabelsPlain()
    ensures '\n' !in "TS: " && '\n' !in "Fish: " && '\n' !in "Bubbles: "
  {
  }

  /** Splitting the statistics text at its newlines gives its three lines. */
  lemma SplitStats(ts: int, fish: int, bubbles: int)
    ensures Split(StatsText(ts, fish, bubbles), '\n') == StatsLines(ts, fish, bubbles)
  {
    var lines := StatsLines(ts, fish, bubbles);
    LabelsPlain();
    NoNewline("TS: ", Field5(ts));
    NoNewline("Fish: ", Field5(fish));
    NoNewline("Bubbles: ", Field5(bubbles));
    ThreeLines(lines[0], lines[1], lines[2]);
  }
}

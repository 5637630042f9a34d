/** Day 1, frequency drift: a running sum of signed changes, and the first running
    total reached twice while the list of changes is repeated. */
module Frequency {
  import opened Wrappers
  import opened Strings
  import opened Utils

  // ---------------------------------------------------------------------------
  // Input
  // ---------------------------------------------------------------------------

  /** `ProcessInput`: split on newlines and parse every stripped line. */
  method ProcessInput(data: string) returns (r: Option<seq<int>>)
    ensures r == ParseAll(Split(data, "\n"))
  {
    var lines := Split(data, "\n");
    var processed: seq<int> := [];
    var i := 0;
    while i < |lines|
      invariant 0 <= i <= |lines| && |processed| == i
      invariant forall j :: 0 <= j < i ==> ParseInt(lines[j]) == Some(processed[j])
    {
      var v := ParseInt(lines[i]);
      if v.None? {
        ParseAllFailsAt(lines, i);
        return None;
      }
      processed := processed + [v.value];
      i := i + 1;
    }
    ParseAllValues(lines, processed);
    return Some(processed);
  }

  /** Each change written in decimal. */
  function ShowAll(xs: seq<int>): (lines: seq<string>)
    ensures |lines| == |xs|
    ensures forall i :: 0 <= i < |xs| ==> lines[i] == IntToString(xs[i])
  {
    if |xs| == 0 then [] else [IntToString(xs[0])] + ShowAll(xs[1..])
  }

  /** The puzzle input written one change per line. */
  function Render(xs: seq<int>): string {
    Join(ShowAll(xs), "\n")
  }

  /** Reading back a rendered non-empty list gives the list. */
  lemma {:induction false} RenderRoundTrip(xs: seq<int>)
    requires |xs| > 0
    ensures ParseAll(Split(Render(xs), "\n")) == Some(xs)
  {
    forall i | 0 <= i < |ShowAll(xs)|
      ensures '\n' !in ShowAll(xs)[i]
    {
      NoSpaceLacks(ShowAll(xs)[i], '\n');
    }
    SplitJoin(ShowAll(xs), '\n');
    ParseShowAll(xs);
  }

  lemma {:induction false} ParseShowAll(xs: seq<int>)
    ensures ParseAll(ShowAll(xs)) == Some(xs)
  {
    if |xs| > 0 {
      ParseShow(xs[0]);
      ParseShowAll(xs[1..]);
      assert ShowAll(xs)[1..] == ShowAll(xs[1..]);
      assert [xs[0]] + xs[1..] == xs;
    }
  }

  // ---------------------------------------------------------------------------
  // Part one
  // ---------------------------------------------------------------------------

  /** `SolvePartOne`: the frequency reached from 0 after every change. */
  method SolvePartOne(data: seq<int>) returns (frequency: int)
    ensures frequency == Sum(data)
  {
    frequency := 0;
    var i := 0;
    while i < |data|
      invariant 0 <= i <= |data|
      invariant frequency == Sum(data[..i])
    {
      assert data[..i + 1][..i] == data[..i];
      frequency := frequency + data[i];
      i := i + 1;
    }
    assert data[..i] == data;
  }

  // ---------------------------------------------------------------------------
  // Part two
  // ---------------------------------------------------------------------------

  /** The list position read by change `k` (from 0): one step forward, wrapped modulo the length. */
  function Pos(n: nat, k: nat): (p: nat)
    requires n > 0
    ensures p < n
  {
    if k == 0 then 0 else (Pos(n, k - 1) + 1) % n
  }

  /** The running total after `k` changes, cycling through the list. */
  function Total(data: seq<int>, k: nat): int
    requires |data| > 0
  {
    if k == 0 then 0 else Total(data, k - 1) + data[Pos(|data|, k - 1)]
  }

  /** Every running total seen after at most `k` changes, the starting 0 included. */
  function Totals(data: seq<int>, k: nat): set<int>
    requires |data| > 0
  {
    set j | 0 <= j <= k :: Total(data, j)
  }

  /** The total after `k` changes was already reached earlier. */
  predicate SeenBefore(data: seq<int>, k: nat)
    requires |data| > 0
  {
    exists j :: 0 <= j < k && Total(data, j) == Total(data, k)
  }

  /** The search loop of part two from position `idx`, total `cur` and earlier totals `seen`,
      cut off after `fuel` changes. */
  function Search(data: seq<int>, idx: nat, cur: int, seen: set<int>, fuel: nat): Option<int>
    requires idx < |data|
    decreases fuel
  {
    if fuel == 0 then None
    else
      var c := cur + data[idx];
      if c in seen then Some(c)
      else Search(data, (idx + 1) % |data|, c, seen + {c}, fuel - 1)
  }

  /** Part two's answer within `fuel` changes. */
  function FirstRepeat(data: seq<int>, fuel: nat): Option<int>
    requires |data| > 0
  {
    Search(data, 0, 0, {0}, fuel)
  }

  /** `SolvePartTwo`: add changes cyclically until a total is reached a second time,
      detected as the set of totals not growing. `fuel` bounds the number of changes. */
  method SolvePartTwo(data: seq<int>, fuel: nat) returns (r: Option<int>)
    requires |data| > 0
    ensures r == FirstRepeat(data, fuel)
  {
    var currentFrequency := 0;
    var currentIndex: nat := 0;
    var frequencies: set<int> := {currentFrequency};
    var steps := 0;
    while steps < fuel
      invariant 0 <= steps <= fuel && currentIndex < |data|
      invariant FirstRepeat(data, fuel) ==
                Search(data, currentIndex, currentFrequency, frequencies, fuel - steps)
    {
      currentFrequency := currentFrequency + data[currentIndex];
      var before := frequencies;
      var oldLength := |frequencies|;
      frequencies := frequencies + {currentFrequency};
      var newLength := |frequencies|;
      SizeUnchangedIffPresent(before, currentFrequency);
      if oldLength == newLength {
        return Some(currentFrequency);
      }
      currentIndex := (currentIndex + 1) % |data|;
      steps := steps + 1;
    }
    return None;
  }

  /** Adding an element leaves the cardinality unchanged exactly when it was present. */
  lemma {:induction false} SizeUnchangedIffPresent(s: set<int>, x: int)
    ensures |s + {x}| == |s| <==> x in s
  {
    if x in s {
      assert s + {x} == s;
    }
  }

  /** One more change adds its total to the set of totals seen. */
  lemma {:induction false} TotalsStep(data: seq<int>, k: nat)
    requires |data| > 0
    ensures Totals(data, k + 1) == Totals(data, k) + {Total(data, k + 1)}
  {
  }

  /** The search, started after `k` changes with no repeat so far, finds the
      first repeat among the next `fuel` changes. */
  lemma {:induction false} SearchFindsFirst(data: seq<int>, k: nat, fuel: nat)
    requires |data| > 0
    requires forall m :: 1 <= m <= k ==> !SeenBefore(data, m)
    ensures var r := Search(data, Pos(|data|, k), Total(data, k), Totals(data, k), fuel);
      (r.Some? ==> exists m :: k < m <= k + fuel && r.value == Total(data, m) &&
                                SeenBefore(data, m) &&
                                forall m' :: 1 <= m' < m ==> !SeenBefore(data, m')) &&
      (r.None? ==> forall m :: 1 <= m <= k + fuel ==> !SeenBefore(data, m))
    decreases fuel
  {
    var n := |data|;
    if fuel > 0 {
      var c := Total(data, k) + data[Pos(n, k)];
      assert c == Total(data, k + 1);
      var seen := Totals(data, k);
      assert c in seen <==> SeenBefore(data, k + 1) by {
        if c in seen {
          var j :| 0 <= j <= k && Total(data, j) == c;
          assert 0 <= j < k + 1 && Total(data, j) == Total(data, k + 1);
        }
        if SeenBefore(data, k + 1) {
          var j :| 0 <= j < k + 1 && Total(data, j) == Total(data, k + 1);
          assert Total(data, j) in seen;
        }
      }
      if c !in seen {
        TotalsStep(data, k);
        SearchFindsFirst(data, k + 1, fuel - 1);
      }
    }
  }

  /** Part two returns the first running total that equals an earlier one (the
      starting 0 included), or `None` when none of the first `fuel` totals does. */
  lemma {:induction false} FirstRepeatIsFirst(data: seq<int>, fuel: nat)
    requires |data| > 0
    ensures var r := FirstRepeat(data, fuel);
      (r.Some? ==> exists m :: 1 <= m <= fuel && r.value == Total(data, m) &&
                               SeenBefore(data, m) &&
                               forall m' :: 1 <= m' < m ==> !SeenBefore(data, m')) &&
      (r.None? ==> forall m :: 1 <= m <= fuel ==> !SeenBefore(data, m))
  {
    assert Total(data, 0) == 0;
    assert forall x :: x in Totals(data, 0) <==> x == 0;
    assert Totals(data, 0) == {0};
    SearchFindsFirst(data, 0, fuel);
  }

  // ---------------------------------------------------------------------------
  // The puzzle's examples
  // ---------------------------------------------------------------------------

  lemma {:induction false} PartOneExamples()
    ensures Sum([1, 1, 1]) == 3
    ensures Sum([1, 1, -2]) == 0
    ensures Sum([-1, -2, -3]) == -6
  {
    SumThree(1, 1, 1);
    SumThree(1, 1, -2);
    SumThree(-1, -2, -3);
  }

  lemma {:induction false} PartTwoExampleA()
    ensures FirstRepeat([1, -1], 10) == Some(0)
  {
  }

  lemma {:induction false} PartTwoExampleB()
    ensures FirstRepeat([3, 3, 4, -2, -4], 10) == Some(10)
  {
    var d := [3, 3, 4, -2, -4];
    var s1 := {0} + {3};
    var s2 := s1 + {6};
    var s3 := s2 + {10};
    var s4 := s3 + {8};
    var s5 := s4 + {4};
    var s6 := s5 + {7};
    assert Search(d, 0, 0, {0}, 10) == Search(d, 1, 3, s1, 9);
    assert Search(d, 1, 3, s1, 9) == Search(d, 2, 6, s2, 8);
    assert Search(d, 2, 6, s2, 8) == Search(d, 3, 10, s3, 7);
    assert Search(d, 3, 10, s3, 7) == Search(d, 4, 8, s4, 6);
    assert Search(d, 4, 8, s4, 6) == Search(d, 0, 4, s5, 5);
    assert Search(d, 0, 4, s5, 5) == Search(d, 1, 7, s6, 4);
    assert 10 in s6;
    assert Search(d, 1, 7, s6, 4) == Some(10);
  }

  lemma {:induction false} ExampleCPart1()
    ensures var d := [-6, 3, 8, 5, -6];
      Search(d, 0, 0, {0}, 20) == Search(d, 4, 10, {0, -6, -3, 5, 10}, 16)
  {
    var d := [-6, 3, 8, 5, -6];
    assert {0} + {-6} == {0, -6};
    assert Search(d, 0, 0, {0}, 20) == Search(d, 1, -6, {0, -6}, 19);
    assert {0, -6} + {-3} == {0, -6, -3};
    assert Search(d, 1, -6, {0, -6}, 19) == Search(d, 2, -3, {0, -6, -3}, 18);
    assert {0, -6, -3} + {5} == {0, -6, -3, 5};
    assert Search(d, 2, -3, {0, -6, -3}, 18) == Search(d, 3, 5, {0, -6, -3, 5}, 17);
    assert {0, -6, -3, 5} + {10} == {0, -6, -3, 5, 10};
    assert Search(d, 3, 5, {0, -6, -3, 5}, 17) == Search(d, 4, 10, {0, -6, -3, 5, 10}, 16);
  }

  lemma {:induction false} ExampleCPart2()
    ensures var d := [-6, 3, 8, 5, -6];
      Search(d, 4, 10, {0, -6, -3, 5, 10}, 16) == Search(d, 3, 9, {0, -6, -3, 5, 10, 4, -2, 1, 9}, 12)
  {
    var d := [-6, 3, 8, 5, -6];
    assert {0, -6, -3, 5, 10} + {4} == {0, -6, -3, 5, 10, 4};
    assert Search(d, 4, 10, {0, -6, -3, 5, 10}, 16) == Search(d, 0, 4, {0, -6, -3, 5, 10, 4}, 15);
    assert {0, -6, -3, 5, 10, 4} + {-2} == {0, -6, -3, 5, 10, 4, -2};
    assert Search(d, 0, 4, {0, -6, -3, 5, 10, 4}, 15) == Search(d, 1, -2, {0, -6, -3, 5, 10, 4, -2}, 14);
    assert {0, -6, -3, 5, 10, 4, -2} + {1} == {0, -6, -3, 5, 10, 4, -2, 1};
    assert Search(d, 1, -2, {0, -6, -3, 5, 10, 4, -2}, 14) == Search(d, 2, 1, {0, -6, -3, 5, 10, 4, -2, 1}, 13);
    assert {0, -6, -3, 5, 10, 4, -2, 1} + {9} == {0, -6, -3, 5, 10, 4, -2, 1, 9};
    assert Search(d, 2, 1, {0, -6, -3, 5, 10, 4, -2, 1}, 13) == Search(d, 3, 9, {0, -6, -3, 5, 10, 4, -2, 1, 9}, 12);
  }

  lemma {:induction false} ExampleCPart3()
    ensures var d := [-6, 3, 8, 5, -6];
      Search(d, 3, 9, {0, -6, -3, 5, 10, 4, -2, 1, 9}, 12) == Search(d, 1, 2, {0, -6, -3, 5, 10, 4, -2, 1, 9, 14, 8, 2}, 9)
  {
    var d := [-6, 3, 8, 5, -6];
    assert {0, -6, -3, 5, 10, 4, -2, 1, 9} + {14} == {0, -6, -3, 5, 10, 4, -2, 1, 9, 14};
    assert Search(d, 3, 9, {0, -6, -3, 5, 10, 4, -2, 1, 9}, 12) == Search(d, 4, 14, {0, -6, -3, 5, 10, 4, -2, 1, 9, 14}, 11);
    assert {0, -6, -3, 5, 10, 4, -2, 1, 9, 14} + {8} == {0, -6, -3, 5, 10, 4, -2, 1, 9, 14, 8};
    assert Search(d, 4, 14, {0, -6, -3, 5, 10, 4, -2, 1, 9, 14}, 11) == Search(d, 0, 8, {0, -6, -3, 5, 10, 4, -2, 1, 9, 14, 8}, 10);
    assert {0, -6, -3, 5, 10, 4, -2, 1, 9, 14, 8} + {2} == {0, -6, -3, 5, 10, 4, -2, 1, 9, 14, 8, 2};
    assert Search(d, 0, 8, {0, -6, -3, 5, 10, 4, -2, 1, 9, 14, 8}, 10) == Search(d, 1, 2, {0, -6, -3, 5, 10, 4, -2, 1, 9, 14, 8, 2}, 9);
  }

  lemma {:induction false} PartTwoExampleC()
    ensures FirstRepeat([-6, 3, 8, 5, -6], 20) == Some(5)
  {
    var d := [-6, 3, 8, 5, -6];
    ExampleCPart1();
    ExampleCPart2();
    ExampleCPart3();
    assert Search(d, 1, 2, {0, -6, -3, 5, 10, 4, -2, 1, 9, 14, 8, 2}, 9) == Some(5);
  }


  lemma {:induction false} ExampleDPart1()
    ensures var d := [7, 7, -2, -7, -4];
      Search(d, 0, 0, {0}, 20) == Search(d, 4, 5, {0, 7, 14, 12, 5}, 16)
  {
    var d := [7, 7, -2, -7, -4];
    assert {0} + {7} == {0, 7};
    assert Search(d, 0, 0, {0}, 20) == Search(d, 1, 7, {0, 7}, 19);
    assert {0, 7} + {14} == {0, 7, 14};
    assert Search(d, 1, 7, {0, 7}, 19) == Search(d, 2, 14, {0, 7, 14}, 18);
    assert {0, 7, 14} + {12} == {0, 7, 14, 12};
    assert Search(d, 2, 14, {0, 7, 14}, 18) == Search(d, 3, 12, {0, 7, 14, 12}, 17);
    assert {0, 7, 14, 12} + {5} == {0, 7, 14, 12, 5};
    assert Search(d, 3, 12, {0, 7, 14, 12}, 17) == Search(d, 4, 5, {0, 7, 14, 12, 5}, 16);
  }

  lemma {:induction false} ExampleDPart2()
    ensures var d := [7, 7, -2, -7, -4];
      Search(d, 4, 5, {0, 7, 14, 12, 5}, 16) == Search(d, 3, 13, {0, 7, 14, 12, 5, 1, 8, 15, 13}, 12)
  {
    var d := [7, 7, -2, -7, -4];
    assert {0, 7, 14, 12, 5} + {1} == {0, 7, 14, 12, 5, 1};
    assert Search(d, 4, 5, {0, 7, 14, 12, 5}, 16) == Search(d, 0, 1, {0, 7, 14, 12, 5, 1}, 15);
    assert {0, 7, 14, 12, 5, 1} + {8} == {0, 7, 14, 12, 5, 1, 8};
    assert Search(d, 0, 1, {0, 7, 14, 12, 5, 1}, 15) == Search(d, 1, 8, {0, 7, 14, 12, 5, 1, 8}, 14);
    assert {0, 7, 14, 12, 5, 1, 8} + {15} == {0, 7, 14, 12, 5, 1, 8, 15};
    assert Search(d, 1, 8, {0, 7, 14, 12, 5, 1, 8}, 14) == Search(d, 2, 15, {0, 7, 14, 12, 5, 1, 8, 15}, 13);
    assert {0, 7, 14, 12, 5, 1, 8, 15} + {13} == {0, 7, 14, 12, 5, 1, 8, 15, 13};
    assert Search(d, 2, 15, {0, 7, 14, 12, 5, 1, 8, 15}, 13) == Search(d, 3, 13, {0, 7, 14, 12, 5, 1, 8, 15, 13}, 12);
  }

  lemma {:induction false} ExampleDPart3()
    ensures var d := [7, 7, -2, -7, -4];
      Search(d, 3, 13, {0, 7, 14, 12, 5, 1, 8, 15, 13}, 12) == Search(d, 2, 16, {0, 7, 14, 12, 5, 1, 8, 15, 13, 6, 2, 9, 16}, 8)
  {
    var d := [7, 7, -2, -7, -4];
    assert {0, 7, 14, 12, 5, 1, 8, 15, 13} + {6} == {0, 7, 14, 12, 5, 1, 8, 15, 13, 6};
    assert Search(d, 3, 13, {0, 7, 14, 12, 5, 1, 8, 15, 13}, 12) == Search(d, 4, 6, {0, 7, 14, 12, 5, 1, 8, 15, 13, 6}, 11);
    assert {0, 7, 14, 12, 5, 1, 8, 15, 13, 6} + {2} == {0, 7, 14, 12, 5, 1, 8, 15, 13, 6, 2};
    assert Search(d, 4, 6, {0, 7, 14, 12, 5, 1, 8, 15, 13, 6}, 11) == Search(d, 0, 2, {0, 7, 14, 12, 5, 1, 8, 15, 13, 6, 2}, 10);
    assert {0, 7, 14, 12, 5, 1, 8, 15, 13, 6, 2} + {9} == {0, 7, 14, 12, 5, 1, 8, 15, 13, 6, 2, 9};
    assert Search(d, 0, 2, {0, 7, 14, 12, 5, 1, 8, 15, 13, 6, 2}, 10) == Search(d, 1, 9, {0, 7, 14, 12, 5, 1, 8, 15, 13, 6, 2, 9}, 9);
    assert {0, 7, 14, 12, 5, 1, 8, 15, 13, 6, 2, 9} + {16} == {0, 7, 14, 12, 5, 1, 8, 15, 13, 6, 2, 9, 16};
    assert Search(d, 1, 9, {0, 7, 14, 12, 5, 1, 8, 15, 13, 6, 2, 9}, 9) == Search(d, 2, 16, {0, 7, 14, 12, 5, 1, 8, 15, 13, 6, 2, 9, 16}, 8);
  }

  lemma {:induction false} PartTwoExampleD()
    ensures FirstRepeat([7, 7, -2, -7, -4], 20) == Some(14)
  {
    var d := [7, 7, -2, -7, -4];
    ExampleDPart1();
    ExampleDPart2();
    ExampleDPart3();
    assert Search(d, 2, 16, {0, 7, 14, 12, 5, 1, 8, 15, 13, 6, 2, 9, 16}, 8) == Some(14);
  }

  /** The lines of the second part one example: three of them, no trailing empty line. */
  lemma {:induction false} SplitExample()
    ensures Split("+1\n+1\n-2", "\n") == ["+1", "+1", "-2"]
  {
    assert "+1\n-2" == "+1" + "\n" + "-2";
    SplitAfter("+1", "\n", "-2");
    SplitAbsent("-2", "\n", 0);
    assert "+1\n+1\n-2" == "+1" + "\n" + "+1\n-2";
    SplitAfter("+1", "\n", "+1\n-2");
  }

  /** Signed lines of the examples read as `int()` does: `+1` carries an explicit sign. */
  lemma {:induction false} ParseExampleNumbers()
    ensures ParseInt("+1") == Some(1)
    ensures ParseInt("-2") == Some(-2)
  {
    ParseSignedDigit('+', 1);
    ParseSignedDigit('-', 2);
  }

  /** A sign followed by one digit. */
  lemma {:induction false} ParseSignedDigit(sign: char, d: nat)
    requires sign == '+' || sign == '-'
    requires d < 10
    ensures ParseInt([sign, DigitChar(d)]) == Some(if sign == '-' then -(d as int) else d as int)
  {
    var t := [sign, DigitChar(d)];
    assert NoSpace(t) by {
      assert forall i :: 0 <= i < |t| ==> t[i] == sign || t[i] == DigitChar(d);
    }
    StripNoSpace(t);
    var rest := t[1..];
    assert rest == [DigitChar(d)];
    assert rest[..0] == [];
    assert AllDigits(rest) && DigitsValue(rest) == d;
    assert ParseSigned(t) == Some(if sign == '-' then -(d as int) else d as int);
  }

  /** Neither an empty word nor a lone sign is an integer. */
  lemma {:induction false} ParseNoDigits()
    ensures ParseInt("") == None && ParseInt("+") == None
  {
  }

  /** An empty line, as a trailing newline leaves, is not an integer, so input ending in a
      newline fails to parse. */
  lemma {:induction false} ParseEmptyLine(data: string)
    requires |data| > 0 && data[|data| - 1] == '\n'
    ensures ParseInt("") == None && ParseInt("+") == None
    ensures ParseAll(Split(data, "\n")) == None
  {
    ParseNoDigits();
    SplitTrailingSeparator(data, '\n');
    var lines := Split(data, "\n");
    assert ['\n'] == "\n";
    ParseAllFailsAt(lines, |lines| - 1);
  }
}

/** Day 5, the polymer reducer: letters become signed unit values, and adjacent units that
    sum to zero (one letter in both cases) react and are removed, pass after pass. */
module Polymers {
  import opened Wrappers
  import opened Strings

  // ---------------------------------------------------------------------------
  // Letters and unit values
  // ---------------------------------------------------------------------------

  predicate IsLetter(c: char) {
    IsUpper(c) || IsLower(c)
  }

  predicate AllLetters(s: string) {
    forall i :: 0 <= i < |s| ==> IsLetter(s[i])
  }

  /** `Polymer.LetterMap`: the i-th uppercase letter maps to `i + 1`, the i-th lowercase
      letter to `-(i + 1)`; any other character is not a key. */
  function LetterMap(c: char): (r: Option<int>)
    ensures r.Some? <==> IsLetter(c)
    ensures r.Some? ==> IsUnit(r.value) && (r.value > 0 <==> IsUpper(c))
  {
    if IsUpper(c) then Some(c as int - 'A' as int + 1)
    else if IsLower(c) then Some(-(c as int - 'a' as int + 1))
    else None
  }

  /** A value `LetterMap` produces. */
  predicate IsUnit(v: int) {
    1 <= v <= 26 || -26 <= v <= -1
  }

  /** `Polymer.NumberMap`: the inverted dictionary. */
  function NumberMap(v: int): (r: Option<char>)
    ensures r.Some? <==> IsUnit(v)
  {
    if 1 <= v <= 26 then Some(('A' as int + v - 1) as char)
    else if -26 <= v <= -1 then Some(('a' as int - v - 1) as char)
    else None
  }

  /** `NumberMap` is the inverse of `LetterMap`, in both directions. */
  lemma {:induction false} MapsInverse(c: char, v: int)
    ensures LetterMap(c) == Some(v) <==> NumberMap(v) == Some(c)
  {
    if NumberMap(v) == Some(c) {
      assert IsUnit(v);
      if v > 0 {
        assert c as int == 'A' as int + v - 1;
      } else {
        assert c as int == 'a' as int - v - 1;
      }
    }
  }

  /** Two letters' units cancel exactly when they are the two cases of one letter. */
  lemma {:induction false} ReactIffCasePair(c: char, d: char)
    requires IsLetter(c) && IsLetter(d)
    ensures LetterMap(c).value + LetterMap(d).value == 0 <==> c != d && Lower(c) == Lower(d)
  {
  }

  // ---------------------------------------------------------------------------
  // Reading and writing a polymer
  // ---------------------------------------------------------------------------

  /** The values `Polymer(inString)` appends, one per character; `None` at the first
      character that is not a key of `LetterMap`. */
  function Encode(s: string): (r: Option<seq<int>>)
    ensures r.Some? <==> AllLetters(s)
    ensures r.Some? ==> |r.value| == |s| &&
                        forall i :: 0 <= i < |s| ==> LetterMap(s[i]) == Some(r.value[i])
  {
    if |s| == 0 then Some([])
    else
      var init :- Encode(s[..|s| - 1]);
      var v :- LetterMap(s[|s| - 1]);
      assert forall i :: 0 <= i < |s| - 1 ==> s[..|s| - 1][i] == s[i];
      Some(init + [v])
  }

  /** `Polymer.__str__`: the letters of the units; `None` where a unit is not a key of
      `NumberMap`. */
  function Decode(u: seq<int>): (r: Option<string>)
    ensures r.Some? <==> forall i :: 0 <= i < |u| ==> IsUnit(u[i])
    ensures r.Some? ==> |r.value| == |u|
  {
    if |u| == 0 then Some("")
    else
      var init :- Decode(u[..|u| - 1]);
      var c :- NumberMap(u[|u| - 1]);
      assert forall i :: 0 <= i < |u| - 1 ==> u[..|u| - 1][i] == u[i];
      Some(init + [c])
  }

  /** Writing out a polymer read from letters gives back the letters. */
  lemma {:induction false} DecodeEncode(s: string)
    requires AllLetters(s)
    ensures Decode(Encode(s).value) == Some(s)
    decreases |s|
  {
    if |s| > 0 {
      var init := s[..|s| - 1];
      EncodeLast(s);
      DecodeEncode(init);
      DecodeSnoc(Encode(init).value, s);
    }
  }

  /** Reading back a written polymer gives back its units. */
  lemma {:induction false} EncodeDecode(u: seq<int>)
    requires forall i :: 0 <= i < |u| ==> IsUnit(u[i])
    ensures Encode(Decode(u).value) == Some(u)
    decreases |u|
  {
    if |u| > 0 {
      var init := u[..|u| - 1];
      DecodeLast(u);
      EncodeDecode(init);
      EncodeSnoc(Decode(init).value, u);
    }
  }

  /** A written polymer is made of letters. */
  lemma {:induction false} DecodedLetters(u: seq<int>)
    requires Decode(u).Some?
    ensures AllLetters(Decode(u).value)
  {
    EncodeDecode(u);
  }

  /** Reading a letter more extends the polymer by that letter's unit. */
  lemma {:induction false} EncodeLast(s: string)
    requires AllLetters(s) && |s| > 0
    ensures AllLetters(s[..|s| - 1])
    ensures Encode(s).value == Encode(s[..|s| - 1]).value + [LetterMap(s[|s| - 1]).value]
  {
    assert forall i :: 0 <= i < |s| - 1 ==> s[..|s| - 1][i] == s[i];
  }

  /** Writing a unit more extends the string by that unit's letter. */
  lemma {:induction false} DecodeLast(u: seq<int>)
    requires (forall i :: 0 <= i < |u| ==> IsUnit(u[i])) && |u| > 0
    ensures Decode(u[..|u| - 1]).Some?
    ensures Decode(u).value == Decode(u[..|u| - 1]).value + [NumberMap(u[|u| - 1]).value]
  {
    assert forall i :: 0 <= i < |u| - 1 ==> u[..|u| - 1][i] == u[i];
  }

  /** The written form of one unit more is the written form with that unit's letter more. */
  lemma {:induction false} DecodeSnoc(u: seq<int>, s: string)
    requires |s| > 0 && Decode(u) == Some(s[..|s| - 1]) && IsLetter(s[|s| - 1])
    ensures Decode(u + [LetterMap(s[|s| - 1]).value]) == Some(s)
  {
    var c := s[|s| - 1];
    var v := LetterMap(c).value;
    assert (u + [v])[..|u|] == u;
    MapsInverse(c, v);
    assert s[..|s| - 1] + [c] == s;
  }

  /** The units read from one letter more are the units with that letter's unit more. */
  lemma {:induction false} EncodeSnoc(s: string, u: seq<int>)
    requires |u| > 0 && Encode(s) == Some(u[..|u| - 1]) && IsUnit(u[|u| - 1])
    ensures Encode(s + [NumberMap(u[|u| - 1]).value]) == Some(u)
  {
    var v := u[|u| - 1];
    var c := NumberMap(v).value;
    assert (s + [c])[..|s|] == s;
    MapsInverse(c, v);
    assert u[..|u| - 1] + [v] == u;
  }

  // ---------------------------------------------------------------------------
  // Reactions
  // ---------------------------------------------------------------------------

  /** The units at `i` and `i + 1` react. */
  predicate Reacts(u: seq<int>, i: int) {
    0 <= i < |u| - 1 && u[i] + u[i + 1] == 0
  }

  /** The polymer with the pair at `i` and `i + 1` removed. */
  function RemovePair(u: seq<int>, i: int): (r: seq<int>)
    requires 0 <= i < |u| - 1
    ensures |r| == |u| - 2
    ensures r[..i] == u[..i] && r[i..] == u[i + 2..]
  {
    u[..i] + u[i + 2..]
  }

  /** No two adjacent units react. */
  predicate Stable(u: seq<int>) {
    forall i :: 0 <= i < |u| - 1 ==> u[i] + u[i + 1] != 0
  }

  /** `v` is what is left of `u` after some sequence of reactions. */
  ghost predicate Reduces(u: seq<int>, v: seq<int>)
    decreases |u|
  {
    u == v || exists i :: Reacts(u, i) && Reduces(RemovePair(u, i), v)
  }

  /** Reactions compose. */
  lemma {:induction false} ReducesTrans(u: seq<int>, v: seq<int>, w: seq<int>)
    requires Reduces(u, v) && Reduces(v, w)
    ensures Reduces(u, w)
    decreases |u|
  {
    if u != v {
      var i :| Reacts(u, i) && Reduces(RemovePair(u, i), v);
      ReducesTrans(RemovePair(u, i), v, w);
    }
  }

  /** A reduction never lengthens the polymer and removes whole pairs. */
  lemma {:induction false} ReducesShorter(u: seq<int>, v: seq<int>)
    requires Reduces(u, v)
    ensures |v| <= |u| && (|u| - |v|) % 2 == 0
    ensures |v| == |u| ==> v == u
    decreases |u|
  {
    if u != v {
      var i :| Reacts(u, i) && Reduces(RemovePair(u, i), v);
      var w := RemovePair(u, i);
      ReducesShorter(w, v);
      assert |u| - |v| == (|w| - |v|) + 2;
      EvenPlusTwo(|w| - |v|);
    }
  }

  lemma {:induction false} EvenPlusTwo(x: int)
    ensures (x + 2) % 2 == x % 2
  {
  }

  /** One pass of `resolveAll` from position `i`: the resulting units, and whether some
      pair was removed. A removal keeps the position, so the unit pushed into it is
      checked next; otherwise the position moves on. */
  function PassFrom(u: seq<int>, i: nat): (r: (seq<int>, bool))
    ensures Reduces(u, r.0)
    ensures r.1 <==> |r.0| < |u|
    ensures !r.1 ==> r.0 == u && forall j :: i <= j < |u| - 1 ==> !Reacts(u, j)
    decreases |u|, |u| - i
  {
    if i >= |u| then (u, false)
    else if Reacts(u, i) then
      var rest := PassFrom(RemovePair(u, i), i);
      ReducesShorter(RemovePair(u, i), rest.0);
      (rest.0, true)
    else PassFrom(u, i + 1)
  }

  /** `resolveAll` on a whole polymer. */
  function Pass(u: seq<int>): (r: (seq<int>, bool)) {
    PassFrom(u, 0)
  }

  /** A pass that removes nothing leaves a stable polymer; one that removes something
      shortens it by a positive even number of units. */
  lemma {:induction false} PassMeaning(u: seq<int>)
    ensures !Pass(u).1 <==> Stable(u)
    ensures !Pass(u).1 ==> Pass(u).0 == u
    ensures Pass(u).1 ==> |Pass(u).0| <= |u| - 2
  {
    var r := Pass(u);
    if r.1 {
      ReducesShorter(u, r.0);
      if Stable(u) {
        StableIrreducible(u, r.0);
      }
    } else {
      forall j | 0 <= j < |u| - 1 ensures u[j] + u[j + 1] != 0 {
        assert !Reacts(u, j);
      }
    }
  }

  /** Nothing happens to a stable polymer. */
  lemma {:induction false} StableIrreducible(u: seq<int>, v: seq<int>)
    requires Stable(u) && Reduces(u, v)
    ensures v == u
  {
  }

  /** Passes until one removes nothing: what `SolvePartOne` leaves in the polymer. */
  function FullReduce(u: seq<int>): (r: seq<int>)
    ensures Stable(r) && Reduces(u, r)
    decreases |u|
  {
    var p := Pass(u);
    PassMeaning(u);
    if p.1 then
      var r := FullReduce(p.0);
      ReducesTrans(u, p.0, r);
      r
    else u
  }

  /** The polymer never grows; the removed units come in pairs. */
  lemma {:induction false} FullReduceShorter(u: seq<int>)
    ensures |FullReduce(u)| <= |u| && (|u| - |FullReduce(u)|) % 2 == 0
  {
    ReducesShorter(u, FullReduce(u));
  }

  // ---------------------------------------------------------------------------
  // The order of reactions does not matter
  // ---------------------------------------------------------------------------

  /** Two reactions at least two units apart can be done in either order. */
  lemma {:induction false} Commute(u: seq<int>, i: int, j: int)
    requires Reacts(u, i) && Reacts(u, j) && i + 2 <= j
    ensures Reacts(RemovePair(u, i), j - 2) && Reacts(RemovePair(u, j), i)
    ensures RemovePair(RemovePair(u, i), j - 2) == RemovePair(RemovePair(u, j), i)
  {
    var x, y := RemovePair(u, i), RemovePair(u, j);
    assert x[j - 2] == u[j] && x[j - 1] == u[j + 1];
    assert y[i] == u[i] && y[i + 1] == u[i + 1];
    assert RemovePair(x, j - 2) == u[..i] + u[i + 2..j] + u[j + 2..];
    assert RemovePair(y, i) == u[..i] + u[i + 2..j] + u[j + 2..];
  }

  /** Two overlapping reactions leave the same units: the outer two units are equal. */
  lemma {:induction false} OverlapSame(u: seq<int>, i: int)
    requires Reacts(u, i) && Reacts(u, i + 1)
    ensures RemovePair(u, i) == RemovePair(u, i + 1)
  {
    assert u[i] == u[i + 2];
    assert RemovePair(u, i) == u[..i] + [u[i + 2]] + u[i + 3..];
    assert RemovePair(u, i + 1) == u[..i] + [u[i]] + u[i + 3..];
  }

  /** One reaction followed by a reduction is a reduction. */
  lemma {:induction false} ReducesStep(u: seq<int>, i: int, v: seq<int>)
    requires Reacts(u, i) && Reduces(RemovePair(u, i), v)
    ensures Reduces(u, v)
  {
  }

  /** Two reductions that both end in a stable polymer end in the same one. */
  lemma {:induction false} NormalFormUnique(u: seq<int>, v: seq<int>, w: seq<int>)
    requires Reduces(u, v) && Stable(v) && Reduces(u, w) && Stable(w)
    ensures v == w
    decreases |u|
  {
    if u == v {
      StableIrreducible(u, w);
    } else if u == w {
      StableIrreducible(u, v);
    } else {
      var i :| Reacts(u, i) && Reduces(RemovePair(u, i), v);
      var j :| Reacts(u, j) && Reduces(RemovePair(u, j), w);
      FirstSteps(u, i, j, v, w);
    }
  }

  /** Two reductions to stable polymers that begin with the reactions at `i` and at `j`
      end in the same one. */
  lemma {:induction false} FirstSteps(u: seq<int>, i: int, j: int, v: seq<int>, w: seq<int>)
    requires Reacts(u, i) && EndsIn(RemovePair(u, i), v)
    requires Reacts(u, j) && EndsIn(RemovePair(u, j), w)
    ensures v == w
    decreases |u|, 2
  {
    if i == j {
      NormalFormUnique(RemovePair(u, i), v, w);
    } else if j == i + 1 {
      OverlapSame(u, i);
      NormalFormUnique(RemovePair(u, i), v, w);
    } else if i == j + 1 {
      OverlapSame(u, j);
      NormalFormUnique(RemovePair(u, j), v, w);
    } else if i < j {
      Diamond(u, i, j, v, w);
    } else {
      Diamond(u, j, i, w, v);
    }
  }

  /** `v` is a stable polymer that `x` reduces to. */
  ghost predicate EndsIn(x: seq<int>, v: seq<int>) {
    Reduces(x, v) && Stable(v)
  }

  /** The far-apart case: both sides reduce to the fully reduced polymer with both pairs
      removed. */
  lemma {:induction false} Diamond(u: seq<int>, a: int, b: int, va: seq<int>, vb: seq<int>)
    requires Reacts(u, a) && Reacts(u, b) && a + 2 <= b
    requires EndsIn(RemovePair(u, a), va) && EndsIn(RemovePair(u, b), vb)
    ensures va == vb
    decreases |u|, 1
  {
    Square(u, a, b);
    DiamondSide(u, a, b - 2, va);
    DiamondSide(u, b, a, vb);
  }

  /** Removing two far-apart pairs in either order leaves the same polymer, so the same full
      reduction. */
  lemma {:induction false} Square(u: seq<int>, a: int, b: int)
    requires Reacts(u, a) && Reacts(u, b) && a + 2 <= b
    ensures Reacts(RemovePair(u, a), b - 2) && Reacts(RemovePair(u, b), a)
    ensures FullReduce(RemovePair(RemovePair(u, a), b - 2)) == FullReduce(RemovePair(RemovePair(u, b), a))
  {
    Commute(u, a, b);
  }

  /** One side of the diamond: after the pair at `i`, the pair that was at `j` (now at `k`)
      reacts, so a stable end of the first removal is the full reduction of both removals. */
  lemma {:induction false} DiamondSide(u: seq<int>, i: int, k: int, v: seq<int>)
    requires Reacts(u, i) && Reacts(RemovePair(u, i), k) && EndsIn(RemovePair(u, i), v)
    ensures v == FullReduce(RemovePair(RemovePair(u, i), k))
    decreases |u|, 0
  {
    var x := RemovePair(u, i);
    var n := FullReduce(RemovePair(x, k));
    ReducesStep(x, k, n);
    NormalFormUnique(x, v, n);
  }

  /** Whatever order the reactions happen in, the stable polymer they end in is the one
      the passes of `SolvePartOne` leave. */
  lemma {:induction false} FullReduceUnique(u: seq<int>, v: seq<int>)
    requires Reduces(u, v) && Stable(v)
    ensures v == FullReduce(u)
  {
    NormalFormUnique(u, v, FullReduce(u));
  }

  // ---------------------------------------------------------------------------
  // Part two
  // ---------------------------------------------------------------------------

  /** The distinct letters of the polymer's string, lower-cased: `set(inString.lower())`. */
  function Letters(s: string): set<char> {
    set i | 0 <= i < |s| :: Lower(s[i])
  }

  /** The string without either case of `letter`. */
  function Without(s: string, letter: char): string {
    Replace(Replace(s, [letter], ""), [Upper(letter)], "")
  }

  /** The fully reduced length of the polymer read from `Without(s, letter)`. */
  function ReducedWithout(s: string, letter: char): Option<int> {
    var u :- Encode(Without(s, letter));
    Some(|FullReduce(u)|)
  }

  lemma {:induction false} FilterKeeps(s: string, c: char, i: nat)
    requires i < |Filter(s, c)|
    ensures exists j :: 0 <= j < |s| && s[j] == Filter(s, c)[i]
    decreases |s|
  {
    if s[0] == c {
      FilterKeeps(s[1..], c, i);
      var j :| 0 <= j < |s[1..]| && s[1..][j] == Filter(s[1..], c)[i];
      assert s[j + 1] == s[1..][j];
    } else if i > 0 {
      FilterKeeps(s[1..], c, i - 1);
      var j :| 0 <= j < |s[1..]| && s[1..][j] == Filter(s[1..], c)[i - 1];
      assert s[j + 1] == s[1..][j];
    } else {
      assert s[0] == Filter(s, c)[0];
    }
  }

  /** Removing a letter from a string of letters leaves only letters: the polymer of each
      test always reads. */
  lemma {:induction false} WithoutLetters(s: string, letter: char)
    requires AllLetters(s)
    ensures AllLetters(Without(s, letter))
    ensures ReducedWithout(s, letter).Some?
  {
    ReplaceCharByNothing(s, letter);
    var t := Filter(s, letter);
    forall i | 0 <= i < |t| ensures IsLetter(t[i]) {
      FilterKeeps(s, letter, i);
    }
    ReplaceCharByNothing(t, Upper(letter));
    var w := Filter(t, Upper(letter));
    forall i | 0 <= i < |w| ensures IsLetter(w[i]) {
      FilterKeeps(t, Upper(letter), i);
    }
  }

  /** The polymer as a mutable list of unit values. */
  class Polymer {
    var units: seq<int>

    constructor Empty()
      ensures units == []
    {
      units := [];
    }

    /** `Polymer(inString)`: one unit per character; `null` where `LetterMap` has no key
        (the constructor raises). */
    static method FromString(s: string) returns (p: Polymer?)
      ensures p == null <==> Encode(s).None?
      ensures p != null ==> fresh(p) && p.units == Encode(s).value
    {
      p := new Polymer.Empty();
      for i := 0 to |s|
        invariant fresh(p)
        invariant Encode(s[..i]) == Some(p.units)
      {
        assert s[..i + 1][..i] == s[..i];
        var v := LetterMap(s[i]);
        if v.None? {
          assert !AllLetters(s);
          return null;
        }
        p.units := p.units + [v.value];
      }
      assert s[..|s|] == s;
    }

    /** `resolve(index)`: when the pair at `index` reacts, pop both units and stay at
        `index`; otherwise move on to `index + 1`. */
    method Resolve(index: nat) returns (next: nat)
      modifies this
      ensures Reacts(old(units), index) ==>
        units == RemovePair(old(units), index) && |units| == |old(units)| - 2 && next == index
      ensures !Reacts(old(units), index) ==> units == old(units) && next == index + 1
    {
      if index < |units| - 1 {
        if units[index] + units[index + 1] == 0 {
          units := units[..index + 1] + units[index + 2..];
          units := units[..index] + units[index + 1..];
          return index;
        }
      }
      return index + 1;
    }

    /** `resolveAll`: one pass from the first unit; true when some pair was removed. */
    method ResolveAll() returns (didChange: bool)
      modifies this
      ensures (units, didChange) == Pass(old(units))
    {
      var i := 0;
      didChange := false;
      while i < |units|
        invariant 0 <= i <= |units|
        invariant Pass(old(units)) == (PassFrom(units, i).0, didChange || PassFrom(units, i).1)
        decreases |units|, |units| - i
      {
        var before := i;
        i := Resolve(i);
        if before == i {
          didChange := true;
        }
      }
    }
  }

  /** `SolvePartOne`: pass until a pass removes nothing; the length that is left. */
  method SolvePartOne(data: Polymer) returns (n: int)
    modifies data
    ensures data.units == FullReduce(old(data.units))
    ensures n == |data.units|
  {
    var changed := data.ResolveAll();
    while changed
      invariant changed ==> FullReduce(old(data.units)) == FullReduce(data.units)
      invariant !changed ==> FullReduce(old(data.units)) == data.units
      decreases if changed then |data.units| + 1 else 0
    {
      ghost var before := data.units;
      PassMeaning(before);
      changed := data.ResolveAll();
      PassMeaning(before);
      if changed {
        PassMeaning(Pass(before).0);
      }
    }
    return |data.units|;
  }

  /** `SolvePartTwo`: the smallest fully reduced length over the polymers with one letter
      removed in both cases. `None` where the polymer does not write out, and where it is
      empty (the minimum of no results raises). */
  method SolvePartTwo(data: Polymer) returns (r: Option<int>)
    ensures r.None? <==> Decode(data.units).None? || |data.units| == 0
    ensures r.Some? ==> Decode(data.units).Some? && Shortest(Decode(data.units).value, r.value)
  {
    var decoded := Decode(data.units);
    if decoded.None? {
      return None;
    }
    var inString := decoded.value;
    DecodedLetters(data.units);
    var condensed := Letters(inString);
    var results: map<char, int> := map[];
    var remaining := condensed;
    while remaining != {}
      invariant remaining <= condensed
      invariant results.Keys == condensed - remaining
      invariant forall l :: l in results ==> ReducedWithout(inString, l) == Some(results[l])
      decreases remaining
    {
      var letter :| letter in remaining;
      var n := SolveWithout(inString, letter);
      results := results[letter := n];
      remaining := remaining - {letter};
    }
    LettersEmpty(inString);
    if results.Keys == {} {
      return None;
    }
    var m := MinValue(results);
    ShortestOfResults(inString, results, m);
    return Some(m);
  }

  /** `m` is the smallest fully reduced length over the letters of `s`, and is attained. */
  predicate Shortest(s: string, m: int) {
    (exists l :: l in Letters(s) && ReducedWithout(s, l) == Some(m)) &&
    (forall l :: l in Letters(s) ==> ReducedWithout(s, l).Some? && m <= ReducedWithout(s, l).value)
  }

  lemma {:induction false} ShortestOfResults(s: string, results: map<char, int>, m: int)
    requires results.Keys == Letters(s)
    requires forall l :: l in results ==> ReducedWithout(s, l) == Some(results[l])
    requires exists k :: k in results && results[k] == m
    requires forall k :: k in results ==> m <= results[k]
    ensures Shortest(s, m)
  {
  }

  /** No letters exactly when the string is empty. */
  lemma {:induction false} LettersEmpty(s: string)
    ensures Letters(s) == {} <==> |s| == 0
  {
    if |s| > 0 {
      assert Lower(s[0]) in Letters(s);
    }
  }

  /** One test of part two: the polymer without `letter`, fully reduced. */
  method SolveWithout(inString: string, letter: char) returns (n: int)
    requires AllLetters(inString)
    ensures ReducedWithout(inString, letter) == Some(n)
  {
    var stripped := Replace(Replace(inString, [letter], ""), [Upper(letter)], "");
    WithoutLetters(inString, letter);
    var test := Polymer.FromString(stripped);
    n := SolvePartOne(test);
  }

  /** `min(results.values())` for a non-empty dictionary. */
  method MinValue(results: map<char, int>) returns (m: int)
    requires results.Keys != {}
    ensures exists k :: k in results && results[k] == m
    ensures forall k :: k in results ==> m <= results[k]
  {
    var keys := results.Keys;
    var first :| first in keys;
    m := results[first];
    var seen := {first};
    keys := keys - {first};
    while keys != {}
      invariant seen + keys == results.Keys && seen !! keys
      invariant exists k :: k in seen && results[k] == m
      invariant forall k :: k in seen ==> m <= results[k]
      decreases keys
    {
      var k :| k in keys;
      if results[k] < m {
        m := results[k];
      }
      seen := seen + {k};
      keys := keys - {k};
    }
  }

  // ---------------------------------------------------------------------------
  // The puzzle's example
  // ---------------------------------------------------------------------------

  /** The example polymer of both parts. */
  function Example(): string {
    "dabAcCaCBAcCcaDA"
  }

  /** The units of the example. */
  lemma {:induction false} ExampleEncode(s: string)
    requires s == "dabAcCaCBAcCcaDA"
    ensures Encode(s) == Some([-4, -1, -2, 1, -3, 3, -1, 3, 2, 1, -3, 3, -3, -1, 4, 1])
  {
    var u := [-4, -1, -2, 1, -3, 3, -1, 3, 2, 1, -3, 3, -3, -1, 4, 1];
    assert s[0] == 'd' && LetterMap(s[0]) == Some(-4);
    assert s[1] == 'a' && LetterMap(s[1]) == Some(-1);
    assert s[2] == 'b' && LetterMap(s[2]) == Some(-2);
    assert s[3] == 'A' && LetterMap(s[3]) == Some(1);
    assert s[4] == 'c' && LetterMap(s[4]) == Some(-3);
    assert s[5] == 'C' && LetterMap(s[5]) == Some(3);
    assert s[6] == 'a' && LetterMap(s[6]) == Some(-1);
    assert s[7] == 'C' && LetterMap(s[7]) == Some(3);
    assert s[8] == 'B' && LetterMap(s[8]) == Some(2);
    assert s[9] == 'A' && LetterMap(s[9]) == Some(1);
    assert s[10] == 'c' && LetterMap(s[10]) == Some(-3);
    assert s[11] == 'C' && LetterMap(s[11]) == Some(3);
    assert s[12] == 'c' && LetterMap(s[12]) == Some(-3);
    assert s[13] == 'a' && LetterMap(s[13]) == Some(-1);
    assert s[14] == 'D' && LetterMap(s[14]) == Some(4);
    assert s[15] == 'A' && LetterMap(s[15]) == Some(1);
    assert AllLetters(s);
    var v := Encode(s).value;
    assert forall i :: 0 <= i < |s| ==> v[i] == u[i];
    assert v == u;
  }

  lemma {:induction false} ExampleReduceStep1(u: seq<int>, v: seq<int>)
    requires u == [-4, -1, -2, 1, -3, 3, -1, 3, 2, 1, -3, 3, -3, -1, 4, 1]
    requires v == [-4, -1, -2, 1, -1, 3, 2, 1, -3, 3, -3, -1, 4, 1]
    ensures Reacts(u, 4) && RemovePair(u, 4) == v
  {
  }

  lemma {:induction false} ExampleReduceStep2(u: seq<int>, v: seq<int>)
    requires u == [-4, -1, -2, 1, -1, 3, 2, 1, -3, 3, -3, -1, 4, 1]
    requires v == [-4, -1, -2, 3, 2, 1, -3, 3, -3, -1, 4, 1]
    ensures Reacts(u, 3) && RemovePair(u, 3) == v
  {
  }

  lemma {:induction false} ExampleReduceStep3(u: seq<int>, v: seq<int>)
    requires u == [-4, -1, -2, 3, 2, 1, -3, 3, -3, -1, 4, 1]
    requires v == [-4, -1, -2, 3, 2, 1, -3, -1, 4, 1]
    ensures Reacts(u, 6) && RemovePair(u, 6) == v && Stable(v)
  {
  }

  /** Part one: the example reacts down to "dabCBAcaDA", 10 units. */
  lemma {:induction false} ExampleReduce(u: seq<int>)
    requires u == [-4, -1, -2, 1, -3, 3, -1, 3, 2, 1, -3, 3, -3, -1, 4, 1]
    ensures |FullReduce(u)| == 10
  {
    var u1 := [-4, -1, -2, 1, -1, 3, 2, 1, -3, 3, -3, -1, 4, 1];
    var u2 := [-4, -1, -2, 3, 2, 1, -3, 3, -3, -1, 4, 1];
    var r := [-4, -1, -2, 3, 2, 1, -3, -1, 4, 1];
    ExampleReduceStep1(u, u1);
    ExampleReduceStep2(u1, u2);
    ExampleReduceStep3(u2, r);
    ReducesStep(u2, 6, r);
    ReducesStep(u1, 3, r);
    ReducesStep(u, 4, r);
    FullReduceUnique(u, r);
  }

  /** Part one on the example gives 10. */
  lemma {:induction false} ExamplePartOne()
    ensures Encode(Example()).Some? && |FullReduce(Encode(Example()).value)| == 10
  {
    ExampleEncode(Example());
    ExampleReduce(Encode(Example()).value);
  }

  /** Removing a letter distributes over concatenation. */
  lemma {:induction false} WithoutConcat(a: string, b: string, letter: char)
    ensures Without(a + b, letter) == Without(a, letter) + Without(b, letter)
  {
    ReplaceCharByNothing(a + b, letter);
    ReplaceCharByNothing(a, letter);
    ReplaceCharByNothing(b, letter);
    FilterConcat(a, b, letter);
    var fa, fb := Filter(a, letter), Filter(b, letter);
    ReplaceCharByNothing(fa + fb, Upper(letter));
    ReplaceCharByNothing(fa, Upper(letter));
    ReplaceCharByNothing(fb, Upper(letter));
    FilterConcat(fa, fb, Upper(letter));
  }

  /** Cutting a string in four pieces, for one letter at a time. */
  lemma {:induction false} WithoutPieces(s: string, letter: char, s1: string, s2: string, s3: string, s4: string)
    requires s == s1 + s2 + s3 + s4
    ensures Without(s, letter) ==
      Without(s1, letter) + Without(s2, letter) + Without(s3, letter) + Without(s4, letter)
  {
    WithoutConcat(s1 + s2 + s3, s4, letter);
    WithoutConcat(s1 + s2, s3, letter);
    WithoutConcat(s1, s2, letter);
  }

  /** Removing a letter is filtering out both of its cases. */
  lemma {:induction false} WithoutIsFilter(s: string, letter: char)
    ensures Without(s, letter) == Filter(Filter(s, letter), Upper(letter))
  {
    ReplaceCharByNothing(s, letter);
    ReplaceCharByNothing(Filter(s, letter), Upper(letter));
  }

  lemma {:induction false} WithoutAPiece1(p: string)
    requires p == "dabA"
    ensures Without(p, 'a') == "db"
  {
    WithoutIsFilter("dabA", 'a');
    assert Filter("dabA", 'a') == "dbA";
    assert Filter("dbA", 'A') == "db";
  }

  lemma {:induction false} WithoutAPiece2(p: string)
    requires p == "cCaC"
    ensures Without(p, 'a') == "cCC"
  {
    WithoutIsFilter("cCaC", 'a');
    assert Filter("cCaC", 'a') == "cCC";
    assert Filter("cCC", 'A') == "cCC";
  }

  lemma {:induction false} WithoutAPiece3(p: string)
    requires p == "BAcC"
    ensures Without(p, 'a') == "BcC"
  {
    WithoutIsFilter("BAcC", 'a');
    assert Filter("BAcC", 'a') == "BAcC";
    assert Filter("BAcC", 'A') == "BcC";
  }

  lemma {:induction false} WithoutAPiece4(p: string)
    requires p == "caDA"
    ensures Without(p, 'a') == "cD"
  {
    WithoutIsFilter("caDA", 'a');
    assert Filter("caDA", 'a') == "cDA";
    assert Filter("cDA", 'A') == "cD";
  }

  /** The example without `a` and `A`. */
  lemma {:induction false} ExampleWithoutA(s: string, s1: string, s2: string, s3: string, s4: string)
    requires s == s1 + s2 + s3 + s4
    requires s1 == "dabA" && s2 == "cCaC" && s3 == "BAcC" && s4 == "caDA"
    ensures Without(s, 'a') == "dbcCCBcCcD"
  {
    WithoutPieces(s, 'a', s1, s2, s3, s4);
    WithoutAPiece1(s1);
    WithoutAPiece2(s2);
    WithoutAPiece3(s3);
    WithoutAPiece4(s4);
    var w1, w2, w3, w4 := Without(s1, 'a'), Without(s2, 'a'), Without(s3, 'a'), Without(s4, 'a');
    assert w1 == "db" && w2 == "cCC" && w3 == "BcC" && w4 == "cD";
    assert w1 + w2 + w3 + w4 == "dbcCCBcCcD";
  }

  /** The units of the example without `a`. */
  lemma {:induction false} ExampleEncodeA(s: string)
    requires s == "dbcCCBcCcD"
    ensures Encode(s) == Some([-4, -2, -3, 3, 3, 2, -3, 3, -3, 4])
  {
    var u := [-4, -2, -3, 3, 3, 2, -3, 3, -3, 4];
    assert s[0] == 'd' && LetterMap(s[0]) == Some(-4);
    assert s[1] == 'b' && LetterMap(s[1]) == Some(-2);
    assert s[2] == 'c' && LetterMap(s[2]) == Some(-3);
    assert s[3] == 'C' && LetterMap(s[3]) == Some(3);
    assert s[4] == 'C' && LetterMap(s[4]) == Some(3);
    assert s[5] == 'B' && LetterMap(s[5]) == Some(2);
    assert s[6] == 'c' && LetterMap(s[6]) == Some(-3);
    assert s[7] == 'C' && LetterMap(s[7]) == Some(3);
    assert s[8] == 'c' && LetterMap(s[8]) == Some(-3);
    assert s[9] == 'D' && LetterMap(s[9]) == Some(4);
    assert AllLetters(s);
    var v := Encode(s).value;
    assert forall i :: 0 <= i < |s| ==> v[i] == u[i];
    assert v == u;
  }

  lemma {:induction false} ExampleReduceAStep1(u: seq<int>, v: seq<int>)
    requires u == [-4, -2, -3, 3, 3, 2, -3, 3, -3, 4]
    requires v == [-4, -2, 3, 2, -3, 3, -3, 4]
    ensures Reacts(u, 2) && RemovePair(u, 2) == v
  {
  }

  lemma {:induction false} ExampleReduceAStep2(u: seq<int>, v: seq<int>)
    requires u == [-4, -2, 3, 2, -3, 3, -3, 4]
    requires v == [-4, -2, 3, 2, -3, 4]
    ensures Reacts(u, 4) && RemovePair(u, 4) == v && Stable(v)
  {
  }

  /** Without `a` the example reacts down to 6 units. */
  lemma {:induction false} ExampleReduceA(u: seq<int>)
    requires u == [-4, -2, -3, 3, 3, 2, -3, 3, -3, 4]
    ensures |FullReduce(u)| == 6
  {
    var u1 := [-4, -2, 3, 2, -3, 3, -3, 4];
    var r := [-4, -2, 3, 2, -3, 4];
    ExampleReduceAStep1(u, u1);
    ExampleReduceAStep2(u1, r);
    ReducesStep(u1, 4, r);
    ReducesStep(u, 2, r);
    FullReduceUnique(u, r);
  }

  lemma {:induction false} ExampleReducedWithoutA(s: string)
    requires s == Example()
    ensures ReducedWithout(s, 'a') == Some(6)
  {
    assert s == "dabA" + "cCaC" + "BAcC" + "caDA";
    ExampleWithoutA(s, "dabA", "cCaC", "BAcC", "caDA");
    ExampleEncodeA(Without(s, 'a'));
    ExampleReduceA(Encode(Without(s, 'a')).value);
  }

  lemma {:induction false} WithoutBPiece1(p: string)
    requires p == "dabA"
    ensures Without(p, 'b') == "daA"
  {
    WithoutIsFilter("dabA", 'b');
    assert Filter("dabA", 'b') == "daA";
    assert Filter("daA", 'B') == "daA";
  }

  lemma {:induction false} WithoutBPiece2(p: string)
    requires p == "cCaC"
    ensures Without(p, 'b') == "cCaC"
  {
    WithoutIsFilter("cCaC", 'b');
    assert Filter("cCaC", 'b') == "cCaC";
    assert Filter("cCaC", 'B') == "cCaC";
  }

  lemma {:induction false} WithoutBPiece3(p: string)
    requires p == "BAcC"
    ensures Without(p, 'b') == "AcC"
  {
    WithoutIsFilter("BAcC", 'b');
    assert Filter("BAcC", 'b') == "BAcC";
    assert Filter("BAcC", 'B') == "AcC";
  }

  lemma {:induction false} WithoutBPiece4(p: string)
    requires p == "caDA"
    ensures Without(p, 'b') == "caDA"
  {
    WithoutIsFilter("caDA", 'b');
    assert Filter("caDA", 'b') == "caDA";
    assert Filter("caDA", 'B') == "caDA";
  }

  /** The example without `b` and `B`. */
  lemma {:induction false} ExampleWithoutB(s: string, s1: string, s2: string, s3: string, s4: string)
    requires s == s1 + s2 + s3 + s4
    requires s1 == "dabA" && s2 == "cCaC" && s3 == "BAcC" && s4 == "caDA"
    ensures Without(s, 'b') == "daAcCaCAcCcaDA"
  {
    WithoutPieces(s, 'b', s1, s2, s3, s4);
    WithoutBPiece1(s1);
    WithoutBPiece2(s2);
    WithoutBPiece3(s3);
    WithoutBPiece4(s4);
    var w1, w2, w3, w4 := Without(s1, 'b'), Without(s2, 'b'), Without(s3, 'b'), Without(s4, 'b');
    assert w1 == "daA" && w2 == "cCaC" && w3 == "AcC" && w4 == "caDA";
    assert w1 + w2 + w3 + w4 == "daAcCaCAcCcaDA";
  }

  /** The units of the example without `b`. */
  lemma {:induction false} ExampleEncodeB(s: string)
    requires s == "daAcCaCAcCcaDA"
    ensures Encode(s) == Some([-4, -1, 1, -3, 3, -1, 3, 1, -3, 3, -3, -1, 4, 1])
  {
    var u := [-4, -1, 1, -3, 3, -1, 3, 1, -3, 3, -3, -1, 4, 1];
    assert s[0] == 'd' && LetterMap(s[0]) == Some(-4);
    assert s[1] == 'a' && LetterMap(s[1]) == Some(-1);
    assert s[2] == 'A' && LetterMap(s[2]) == Some(1);
    assert s[3] == 'c' && LetterMap(s[3]) == Some(-3);
    assert s[4] == 'C' && LetterMap(s[4]) == Some(3);
    assert s[5] == 'a' && LetterMap(s[5]) == Some(-1);
    assert s[6] == 'C' && LetterMap(s[6]) == Some(3);
    assert s[7] == 'A' && LetterMap(s[7]) == Some(1);
    assert s[8] == 'c' && LetterMap(s[8]) == Some(-3);
    assert s[9] == 'C' && LetterMap(s[9]) == Some(3);
    assert s[10] == 'c' && LetterMap(s[10]) == Some(-3);
    assert s[11] == 'a' && LetterMap(s[11]) == Some(-1);
    assert s[12] == 'D' && LetterMap(s[12]) == Some(4);
    assert s[13] == 'A' && LetterMap(s[13]) == Some(1);
    assert AllLetters(s);
    var v := Encode(s).value;
    assert forall i :: 0 <= i < |s| ==> v[i] == u[i];
    assert v == u;
  }

  lemma {:induction false} ExampleReduceBStep1(u: seq<int>, v: seq<int>)
    requires u == [-4, -1, 1, -3, 3, -1, 3, 1, -3, 3, -3, -1, 4, 1]
    requires v == [-4, -3, 3, -1, 3, 1, -3, 3, -3, -1, 4, 1]
    ensures Reacts(u, 1) && RemovePair(u, 1) == v
  {
  }

  lemma {:induction false} ExampleReduceBStep2(u: seq<int>, v: seq<int>)
    requires u == [-4, -3, 3, -1, 3, 1, -3, 3, -3, -1, 4, 1]
    requires v == [-4, -1, 3, 1, -3, 3, -3, -1, 4, 1]
    ensures Reacts(u, 1) && RemovePair(u, 1) == v
  {
  }

  lemma {:induction false} ExampleReduceBStep3(u: seq<int>, v: seq<int>)
    requires u == [-4, -1, 3, 1, -3, 3, -3, -1, 4, 1]
    requires v == [-4, -1, 3, 1, -3, -1, 4, 1]
    ensures Reacts(u, 4) && RemovePair(u, 4) == v && Stable(v)
  {
  }

  /** Without `b` the example reacts down to 8 units. */
  lemma {:induction false} ExampleReduceB(u: seq<int>)
    requires u == [-4, -1, 1, -3, 3, -1, 3, 1, -3, 3, -3, -1, 4, 1]
    ensures |FullReduce(u)| == 8
  {
    var u1 := [-4, -3, 3, -1, 3, 1, -3, 3, -3, -1, 4, 1];
    var u2 := [-4, -1, 3, 1, -3, 3, -3, -1, 4, 1];
    var r := [-4, -1, 3, 1, -3, -1, 4, 1];
    ExampleReduceBStep1(u, u1);
    ExampleReduceBStep2(u1, u2);
    ExampleReduceBStep3(u2, r);
    ReducesStep(u2, 4, r);
    ReducesStep(u1, 1, r);
    ReducesStep(u, 1, r);
    FullReduceUnique(u, r);
  }

  lemma {:induction false} ExampleReducedWithoutB(s: string)
    requires s == Example()
    ensures ReducedWithout(s, 'b') == Some(8)
  {
    assert s == "dabA" + "cCaC" + "BAcC" + "caDA";
    ExampleWithoutB(s, "dabA", "cCaC", "BAcC", "caDA");
    ExampleEncodeB(Without(s, 'b'));
    ExampleReduceB(Encode(Without(s, 'b')).value);
  }

  lemma {:induction false} WithoutCPiece1(p: string)
    requires p == "dabA"
    ensures Without(p, 'c') == "dabA"
  {
    WithoutIsFilter("dabA", 'c');
    assert Filter("dabA", 'c') == "dabA";
    assert Filter("dabA", 'C') == "dabA";
  }

  lemma {:induction false} WithoutCPiece2(p: string)
    requires p == "cCaC"
    ensures Without(p, 'c') == "a"
  {
    WithoutIsFilter("cCaC", 'c');
    assert Filter("cCaC", 'c') == "CaC";
    assert Filter("CaC", 'C') == "a";
  }

  lemma {:induction false} WithoutCPiece3(p: string)
    requires p == "BAcC"
    ensures Without(p, 'c') == "BA"
  {
    WithoutIsFilter("BAcC", 'c');
    assert Filter("BAcC", 'c') == "BAC";
    assert Filter("BAC", 'C') == "BA";
  }

  lemma {:induction false} WithoutCPiece4(p: string)
    requires p == "caDA"
    ensures Without(p, 'c') == "aDA"
  {
    WithoutIsFilter("caDA", 'c');
    assert Filter("caDA", 'c') == "aDA";
    assert Filter("aDA", 'C') == "aDA";
  }

  /** The example without `c` and `C`. */
  lemma {:induction false} ExampleWithoutC(s: string, s1: string, s2: string, s3: string, s4: string)
    requires s == s1 + s2 + s3 + s4
    requires s1 == "dabA" && s2 == "cCaC" && s3 == "BAcC" && s4 == "caDA"
    ensures Without(s, 'c') == "dabAaBAaDA"
  {
    WithoutPieces(s, 'c', s1, s2, s3, s4);
    WithoutCPiece1(s1);
    WithoutCPiece2(s2);
    WithoutCPiece3(s3);
    WithoutCPiece4(s4);
    var w1, w2, w3, w4 := Without(s1, 'c'), Without(s2, 'c'), Without(s3, 'c'), Without(s4, 'c');
    assert w1 == "dabA" && w2 == "a" && w3 == "BA" && w4 == "aDA";
    assert w1 + w2 + w3 + w4 == "dabAaBAaDA";
  }

  /** The units of the example without `c`. */
  lemma {:induction false} ExampleEncodeC(s: string)
    requires s == "dabAaBAaDA"
    ensures Encode(s) == Some([-4, -1, -2, 1, -1, 2, 1, -1, 4, 1])
  {
    var u := [-4, -1, -2, 1, -1, 2, 1, -1, 4, 1];
    assert s[0] == 'd' && LetterMap(s[0]) == Some(-4);
    assert s[1] == 'a' && LetterMap(s[1]) == Some(-1);
    assert s[2] == 'b' && LetterMap(s[2]) == Some(-2);
    assert s[3] == 'A' && LetterMap(s[3]) == Some(1);
    assert s[4] == 'a' && LetterMap(s[4]) == Some(-1);
    assert s[5] == 'B' && LetterMap(s[5]) == Some(2);
    assert s[6] == 'A' && LetterMap(s[6]) == Some(1);
    assert s[7] == 'a' && LetterMap(s[7]) == Some(-1);
    assert s[8] == 'D' && LetterMap(s[8]) == Some(4);
    assert s[9] == 'A' && LetterMap(s[9]) == Some(1);
    assert AllLetters(s);
    var v := Encode(s).value;
    assert forall i :: 0 <= i < |s| ==> v[i] == u[i];
    assert v == u;
  }

  lemma {:induction false} ExampleReduceCStep1(u: seq<int>, v: seq<int>)
    requires u == [-4, -1, -2, 1, -1, 2, 1, -1, 4, 1]
    requires v == [-4, -1, -2, 2, 1, -1, 4, 1]
    ensures Reacts(u, 3) && RemovePair(u, 3) == v
  {
  }

  lemma {:induction false} ExampleReduceCStep2(u: seq<int>, v: seq<int>)
    requires u == [-4, -1, -2, 2, 1, -1, 4, 1]
    requires v == [-4, -1, 1, -1, 4, 1]
    ensures Reacts(u, 2) && RemovePair(u, 2) == v
  {
  }

  lemma {:induction false} ExampleReduceCStep3(u: seq<int>, v: seq<int>)
    requires u == [-4, -1, 1, -1, 4, 1]
    requires v == [-4, -1, 4, 1]
    ensures Reacts(u, 1) && RemovePair(u, 1) == v && Stable(v)
  {
  }

  /** Without `c` the example reacts down to 4 units. */
  lemma {:induction false} ExampleReduceC(u: seq<int>)
    requires u == [-4, -1, -2, 1, -1, 2, 1, -1, 4, 1]
    ensures |FullReduce(u)| == 4
  {
    var u1 := [-4, -1, -2, 2, 1, -1, 4, 1];
    var u2 := [-4, -1, 1, -1, 4, 1];
    var r := [-4, -1, 4, 1];
    ExampleReduceCStep1(u, u1);
    ExampleReduceCStep2(u1, u2);
    ExampleReduceCStep3(u2, r);
    ReducesStep(u2, 1, r);
    ReducesStep(u1, 2, r);
    ReducesStep(u, 3, r);
    FullReduceUnique(u, r);
  }

  lemma {:induction false} ExampleReducedWithoutC(s: string)
    requires s == Example()
    ensures ReducedWithout(s, 'c') == Some(4)
  {
    assert s == "dabA" + "cCaC" + "BAcC" + "caDA";
    ExampleWithoutC(s, "dabA", "cCaC", "BAcC", "caDA");
    ExampleEncodeC(Without(s, 'c'));
    ExampleReduceC(Encode(Without(s, 'c')).value);
  }

  lemma {:induction false} WithoutDPiece1(p: string)
    requires p == "dabA"
    ensures Without(p, 'd') == "abA"
  {
    WithoutIsFilter("dabA", 'd');
    assert Filter("dabA", 'd') == "abA";
    assert Filter("abA", 'D') == "abA";
  }

  lemma {:induction false} WithoutDPiece2(p: string)
    requires p == "cCaC"
    ensures Without(p, 'd') == "cCaC"
  {
    WithoutIsFilter("cCaC", 'd');
    assert Filter("cCaC", 'd') == "cCaC";
    assert Filter("cCaC", 'D') == "cCaC";
  }

  lemma {:induction false} WithoutDPiece3(p: string)
    requires p == "BAcC"
    ensures Without(p, 'd') == "BAcC"
  {
    WithoutIsFilter("BAcC", 'd');
    assert Filter("BAcC", 'd') == "BAcC";
    assert Filter("BAcC", 'D') == "BAcC";
  }

  lemma {:induction false} WithoutDPiece4(p: string)
    requires p == "caDA"
    ensures Without(p, 'd') == "caA"
  {
    WithoutIsFilter("caDA", 'd');
    assert Filter("caDA", 'd') == "caDA";
    assert Filter("caDA", 'D') == "caA";
  }

  /** The example without `d` and `D`. */
  lemma {:induction false} ExampleWithoutD(s: string, s1: string, s2: string, s3: string, s4: string)
    requires s == s1 + s2 + s3 + s4
    requires s1 == "dabA" && s2 == "cCaC" && s3 == "BAcC" && s4 == "caDA"
    ensures Without(s, 'd') == "abAcCaCBAcCcaA"
  {
    WithoutPieces(s, 'd', s1, s2, s3, s4);
    WithoutDPiece1(s1);
    WithoutDPiece2(s2);
    WithoutDPiece3(s3);
    WithoutDPiece4(s4);
    var w1, w2, w3, w4 := Without(s1, 'd'), Without(s2, 'd'), Without(s3, 'd'), Without(s4, 'd');
    assert w1 == "abA" && w2 == "cCaC" && w3 == "BAcC" && w4 == "caA";
    assert w1 + w2 + w3 + w4 == "abAcCaCBAcCcaA";
  }

  /** The units of the example without `d`. */
  lemma {:induction false} ExampleEncodeD(s: string)
    requires s == "abAcCaCBAcCcaA"
    ensures Encode(s) == Some([-1, -2, 1, -3, 3, -1, 3, 2, 1, -3, 3, -3, -1, 1])
  {
    var u := [-1, -2, 1, -3, 3, -1, 3, 2, 1, -3, 3, -3, -1, 1];
    assert s[0] == 'a' && LetterMap(s[0]) == Some(-1);
    assert s[1] == 'b' && LetterMap(s[1]) == Some(-2);
    assert s[2] == 'A' && LetterMap(s[2]) == Some(1);
    assert s[3] == 'c' && LetterMap(s[3]) == Some(-3);
    assert s[4] == 'C' && LetterMap(s[4]) == Some(3);
    assert s[5] == 'a' && LetterMap(s[5]) == Some(-1);
    assert s[6] == 'C' && LetterMap(s[6]) == Some(3);
    assert s[7] == 'B' && LetterMap(s[7]) == Some(2);
    assert s[8] == 'A' && LetterMap(s[8]) == Some(1);
    assert s[9] == 'c' && LetterMap(s[9]) == Some(-3);
    assert s[10] == 'C' && LetterMap(s[10]) == Some(3);
    assert s[11] == 'c' && LetterMap(s[11]) == Some(-3);
    assert s[12] == 'a' && LetterMap(s[12]) == Some(-1);
    assert s[13] == 'A' && LetterMap(s[13]) == Some(1);
    assert AllLetters(s);
    var v := Encode(s).value;
    assert forall i :: 0 <= i < |s| ==> v[i] == u[i];
    assert v == u;
  }

  lemma {:induction false} ExampleReduceDStep1(u: seq<int>, v: seq<int>)
    requires u == [-1, -2, 1, -3, 3, -1, 3, 2, 1, -3, 3, -3, -1, 1]
    requires v == [-1, -2, 1, -1, 3, 2, 1, -3, 3, -3, -1, 1]
    ensures Reacts(u, 3) && RemovePair(u, 3) == v
  {
  }

  lemma {:induction false} ExampleReduceDStep2(u: seq<int>, v: seq<int>)
    requires u == [-1, -2, 1, -1, 3, 2, 1, -3, 3, -3, -1, 1]
    requires v == [-1, -2, 3, 2, 1, -3, 3, -3, -1, 1]
    ensures Reacts(u, 2) && RemovePair(u, 2) == v
  {
  }

  lemma {:induction false} ExampleReduceDStep3(u: seq<int>, v: seq<int>)
    requires u == [-1, -2, 3, 2, 1, -3, 3, -3, -1, 1]
    requires v == [-1, -2, 3, 2, 1, -3, -1, 1]
    ensures Reacts(u, 5) && RemovePair(u, 5) == v
  {
  }

  lemma {:induction false} ExampleReduceDStep4(u: seq<int>, v: seq<int>)
    requires u == [-1, -2, 3, 2, 1, -3, -1, 1]
    requires v == [-1, -2, 3, 2, 1, -3]
    ensures Reacts(u, 6) && RemovePair(u, 6) == v && Stable(v)
  {
  }

  /** Without `d` the example reacts down to 6 units. */
  lemma {:induction false} ExampleReduceD(u: seq<int>)
    requires u == [-1, -2, 1, -3, 3, -1, 3, 2, 1, -3, 3, -3, -1, 1]
    ensures |FullReduce(u)| == 6
  {
    var u1 := [-1, -2, 1, -1, 3, 2, 1, -3, 3, -3, -1, 1];
    var u2 := [-1, -2, 3, 2, 1, -3, 3, -3, -1, 1];
    var u3 := [-1, -2, 3, 2, 1, -3, -1, 1];
    var r := [-1, -2, 3, 2, 1, -3];
    ExampleReduceDStep1(u, u1);
    ExampleReduceDStep2(u1, u2);
    ExampleReduceDStep3(u2, u3);
    ExampleReduceDStep4(u3, r);
    ReducesStep(u3, 6, r);
    ReducesStep(u2, 5, r);
    ReducesStep(u1, 2, r);
    ReducesStep(u, 3, r);
    FullReduceUnique(u, r);
  }

  lemma {:induction false} ExampleReducedWithoutD(s: string)
    requires s == Example()
    ensures ReducedWithout(s, 'd') == Some(6)
  {
    assert s == "dabA" + "cCaC" + "BAcC" + "caDA";
    ExampleWithoutD(s, "dabA", "cCaC", "BAcC", "caDA");
    ExampleEncodeD(Without(s, 'd'));
    ExampleReduceD(Encode(Without(s, 'd')).value);
  }

  /** The distinct letters of the example. */
  lemma {:induction false} ExampleLetters(s: string)
    requires s == Example()
    ensures Letters(s) == {'a', 'b', 'c', 'd'}
  {
    assert Lower(s[1]) == 'a' && Lower(s[2]) == 'b' && Lower(s[4]) == 'c' && Lower(s[0]) == 'd';
    assert forall i :: 0 <= i < |s| ==> Lower(s[i]) in {'a', 'b', 'c', 'd'};
  }

  /** Part two on the example gives 4, by removing `c`. */
  lemma {:induction false} ExamplePartTwo(s: string)
    requires s == Example()
    ensures Shortest(s, 4)
  {
    ExampleLetters(s);
    ExampleReducedWithoutA(s);
    ExampleReducedWithoutB(s);
    ExampleReducedWithoutC(s);
    ExampleReducedWithoutD(s);
    ShortestOfFour(s);
  }

  /** The minimum over the four letters of the example. */
  lemma {:induction false} ShortestOfFour(s: string)
    requires Letters(s) == {'a', 'b', 'c', 'd'}
    requires ReducedWithout(s, 'a') == Some(6) && ReducedWithout(s, 'b') == Some(8)
    requires ReducedWithout(s, 'c') == Some(4) && ReducedWithout(s, 'd') == Some(6)
    ensures Shortest(s, 4)
  {
    var letters := Letters(s);
    FourLetters(letters, 'c');
    forall l | l in letters
      ensures ReducedWithout(s, l).Some? && 4 <= ReducedWithout(s, l).value
    {
      FourLetters(letters, l);
    }
  }

  /** The members of the example's set of letters. */
  lemma {:induction false} FourLetters(letters: set<char>, l: char)
    requires letters == {'a', 'b', 'c', 'd'}
    ensures l in letters <==> l == 'a' || l == 'b' || l == 'c' || l == 'd'
  {
  }
}

/** Day 2, inventory checksum: box IDs with some letter exactly twice or exactly
    three times, and the letters two IDs have in common position by position. */
module Checksum {
  import opened Wrappers
  import opened Strings
  import Utils

  // ---------------------------------------------------------------------------
  // Input
  // ---------------------------------------------------------------------------

  /** `ProcessInput`: one stripped ID per line. */
  method ProcessInput(data: string) returns (ids: seq<string>)
    ensures var lines := Split(data, "\n");
      |ids| == |lines| && forall i :: 0 <= i < |lines| ==> ids[i] == Strip(lines[i])
  {
    var lines := Split(data, "\n");
    ids := [];
    for i := 0 to |lines|
      invariant |ids| == i
      invariant forall j :: 0 <= j < i ==> ids[j] == Strip(lines[j])
    {
      ids := ids + [Strip(lines[i])];
    }
  }

  /** Input ending in a newline, as the second example does, yields a final empty ID. */
  lemma {:induction false} TrailingNewlineGivesEmptyId(data: string)
    requires |data| > 0 && data[|data| - 1] == '\n'
    ensures var lines := Split(data, "\n"); |lines| >= 2 && Strip(lines[|lines| - 1]) == ""
  {
    SplitTrailingSeparator(data, '\n');
  }

  // ---------------------------------------------------------------------------
  // Part one
  // ---------------------------------------------------------------------------

  /** The distinct letters of an ID. */
  function LetterSet(id: string): set<char> {
    set i | 0 <= i < |id| :: id[i]
  }

  /** `{letter: id.count(letter) for letter in set(id)}`. */
  function LetterCounts(id: string): map<char, nat> {
    map c | c in LetterSet(id) :: Count(id, c)
  }

  /** `count in letters.values()`: some letter of the ID occurs exactly `n` times. */
  predicate HasCount(id: string, n: nat) {
    n in LetterCounts(id).Values
  }

  /** An ID qualifies exactly when one of its own letters occurs exactly `n` times. */
  lemma {:induction false} HasCountMeaning(id: string, n: nat)
    ensures HasCount(id, n) <==> exists i :: 0 <= i < |id| && Count(id, id[i]) == n
  {
    var m := LetterCounts(id);
    if HasCount(id, n) {
      var c :| c in m && m[c] == n;
      var i :| 0 <= i < |id| && id[i] == c;
      assert Count(id, id[i]) == n;
    }
    if exists i :: 0 <= i < |id| && Count(id, id[i]) == n {
      var i :| 0 <= i < |id| && Count(id, id[i]) == n;
      assert id[i] in LetterSet(id);
      assert m[id[i]] == n;
    }
  }

  /** Letters never occur zero times in an ID, so `n = 0` never qualifies. */
  lemma {:induction false} NoZeroCount(id: string)
    ensures !HasCount(id, 0)
  {
    HasCountMeaning(id, 0);
    forall i | 0 <= i < |id|
      ensures Count(id, id[i]) != 0
    {
      CountPositive(id, i);
    }
  }

  lemma {:induction false} CountPositive(s: string, i: nat)
    requires i < |s|
    ensures Count(s, s[i]) > 0
  {
  }

  /** The number of IDs that qualify for `n`, each counted once. */
  function NumWith(ids: seq<string>, n: nat): (k: nat)
    ensures k <= |ids|
  {
    if |ids| == 0 then 0
    else NumWith(ids[..|ids| - 1], n) + (if HasCount(ids[|ids| - 1], n) then 1 else 0)
  }

  /** An ID counts once however many of its letters qualify: the count is the number of
      qualifying IDs. */
  lemma {:induction false} NumWithCountsIds(ids: seq<string>, n: nat)
    ensures NumWith(ids, n) == |Qualifying(ids, n)|
  {
    if |ids| > 0 {
      var last := |ids| - 1;
      var q := Qualifying(ids[..last], n);
      NumWithCountsIds(ids[..last], n);
      QualifyingSnoc(ids, n);
      assert last !in q;
      if HasCount(ids[last], n) {
        assert |q + {last}| == |q| + 1;
      } else {
        assert q + {} == q;
      }
    } else {
      assert Qualifying(ids, n) == {};
    }
  }

  /** The positions of the IDs that qualify for `n`. */
  function Qualifying(ids: seq<string>, n: nat): set<nat> {
    set i: nat | i < |ids| && HasCount(ids[i], n)
  }

  lemma {:induction false} QualifyingSnoc(ids: seq<string>, n: nat)
    requires |ids| > 0
    ensures var last := |ids| - 1;
      Qualifying(ids, n) ==
        Qualifying(ids[..last], n) + (if HasCount(ids[last], n) then {last} else {})
  {
    var last := |ids| - 1;
    forall i: nat | i < last
      ensures ids[..last][i] == ids[i]
    {
    }
  }

  /** `SolvePartOne`: tally, for 2 and for 3, the IDs having some letter that often,
      and return the product of the two tallies. */
  method SolvePartOne(data: seq<string>) returns (checksum: int)
    ensures checksum == NumWith(data, 2) * NumWith(data, 3)
  {
    var counts: map<nat, nat> := map[2 := 0, 3 := 0];
    var keys: seq<nat> := [2, 3];
    for k := 0 to |data|
      invariant counts.Keys == {2, 3}
      invariant counts[2] == NumWith(data[..k], 2) && counts[3] == NumWith(data[..k], 3)
    {
      var id := data[k];
      assert data[..k + 1][..k] == data[..k];
      for j := 0 to |keys|
        invariant counts.Keys == {2, 3}
        invariant forall q :: 0 <= q < |keys| ==>
          counts[keys[q]] == NumWith(data[..k], keys[q]) + (if q < j && HasCount(id, keys[q]) then 1 else 0)
      {
        var count := keys[j];
        if HasCount(id, count) {
          counts := counts[count := counts[count] + 1];
        }
      }
      assert counts[keys[0]] == counts[2] && counts[keys[1]] == counts[3];
    }
    assert data[..|data|] == data;
    Utils.ProductPair(counts[2], counts[3]);
    checksum := Utils.Product([counts[2], counts[3]]);
  }

  /** An ID with several doubled letters adds one to the tally, once. */
  lemma {:induction false} OncePerId()
    ensures NumWith(["abbcde", "aabcdd"], 2) == 2
  {
    var ids := ["abbcde", "aabcdd"];
    Id2Counts();
    Id4Counts();
    NumWithPrefix(ids, 0, 2);
    NumWithPrefix(ids, 1, 2);
    assert ids[..2] == ids;
  }

  /** `s.count(c)` is the multiplicity of `c` in the multiset of the letters of `s`. */
  lemma {:induction false} CountMultiplicity(s: string, c: char)
    ensures Count(s, c) == multiset(s)[c]
  {
    if |s| > 0 {
      CountMultiplicity(s[1..], c);
      assert s == [s[0]] + s[1..];
      assert multiset(s) == multiset{s[0]} + multiset(s[1..]);
    }
  }

  /** Knowing how often each position's letter occurs tells every `n` that qualifies. */
  lemma {:induction false} CountsAre(id: string, counts: seq<nat>)
    requires |counts| == |id|
    requires forall i :: 0 <= i < |id| ==> multiset(id)[id[i]] == counts[i]
    ensures forall n :: HasCount(id, n) <==> n in counts
  {
    forall i | 0 <= i < |id|
      ensures Count(id, id[i]) == counts[i]
    {
      CountMultiplicity(id, id[i]);
    }
    forall n
      ensures HasCount(id, n) <==> n in counts
    {
      HasCountMeaning(id, n);
      if n in counts {
        var i :| 0 <= i < |counts| && counts[i] == n;
        assert Count(id, id[i]) == n;
      }
    }
  }

  /** The sample ID "abcdef": the letter at each position occurs 1, 1, 1, 1, 1, 1 times. */
  lemma {:induction false} Id0Counts()
    ensures forall n :: HasCount("abcdef", n) <==> n in [1, 1, 1, 1, 1, 1]
  {
    var id := ['a', 'b', 'c', 'd', 'e', 'f'];
    var counts := [1, 1, 1, 1, 1, 1];
    forall i | 0 <= i < |id|
      ensures multiset(id)[id[i]] == counts[i]
    {
      if i == 0 {
        assert id[0] == 'a' && multiset(id)['a'] == 1;
      } else if i == 1 {
        assert id[1] == 'b' && multiset(id)['b'] == 1;
      } else if i == 2 {
        assert id[2] == 'c' && multiset(id)['c'] == 1;
      } else if i == 3 {
        assert id[3] == 'd' && multiset(id)['d'] == 1;
      } else if i == 4 {
        assert id[4] == 'e' && multiset(id)['e'] == 1;
      } else {
        assert id[5] == 'f' && multiset(id)['f'] == 1;
      }
    }
    CountsAre(id, counts);
  }

  /** The sample ID "bababc": the letter at each position occurs 3, 2, 3, 2, 3, 1 times. */
  lemma {:induction false} Id1Counts()
    ensures forall n :: HasCount("bababc", n) <==> n in [3, 2, 3, 2, 3, 1]
  {
    var id := ['b', 'a', 'b', 'a', 'b', 'c'];
    var counts := [3, 2, 3, 2, 3, 1];
    forall i | 0 <= i < |id|
      ensures multiset(id)[id[i]] == counts[i]
    {
      if i == 0 {
        assert id[0] == 'b' && multiset(id)['b'] == 3;
      } else if i == 1 {
        assert id[1] == 'a' && multiset(id)['a'] == 2;
      } else if i == 2 {
        assert id[2] == 'b' && multiset(id)['b'] == 3;
      } else if i == 3 {
        assert id[3] == 'a' && multiset(id)['a'] == 2;
      } else if i == 4 {
        assert id[4] == 'b' && multiset(id)['b'] == 3;
      } else {
        assert id[5] == 'c' && multiset(id)['c'] == 1;
      }
    }
    CountsAre(id, counts);
  }

  /** The sample ID "abbcde": the letter at each position occurs 1, 2, 2, 1, 1, 1 times. */
  lemma {:induction false} Id2Counts()
    ensures forall n :: HasCount("abbcde", n) <==> n in [1, 2, 2, 1, 1, 1]
  {
    var id := ['a', 'b', 'b', 'c', 'd', 'e'];
    var counts := [1, 2, 2, 1, 1, 1];
    forall i | 0 <= i < |id|
      ensures multiset(id)[id[i]] == counts[i]
    {
      if i == 0 {
        assert id[0] == 'a' && multiset(id)['a'] == 1;
      } else if i == 1 {
        assert id[1] == 'b' && multiset(id)['b'] == 2;
      } else if i == 2 {
        assert id[2] == 'b' && multiset(id)['b'] == 2;
      } else if i == 3 {
        assert id[3] == 'c' && multiset(id)['c'] == 1;
      } else if i == 4 {
        assert id[4] == 'd' && multiset(id)['d'] == 1;
      } else {
        assert id[5] == 'e' && multiset(id)['e'] == 1;
      }
    }
    CountsAre(id, counts);
  }

  /** The sample ID "abcccd": the letter at each position occurs 1, 1, 3, 3, 3, 1 times. */
  lemma {:induction false} Id3Counts()
    ensures forall n :: HasCount("abcccd", n) <==> n in [1, 1, 3, 3, 3, 1]
  {
    var id := ['a', 'b', 'c', 'c', 'c', 'd'];
    var counts := [1, 1, 3, 3, 3, 1];
    forall i | 0 <= i < |id|
      ensures multiset(id)[id[i]] == counts[i]
    {
      if i == 0 {
        assert id[0] == 'a' && multiset(id)['a'] == 1;
      } else if i == 1 {
        assert id[1] == 'b' && multiset(id)['b'] == 1;
      } else if i == 2 {
        assert id[2] == 'c' && multiset(id)['c'] == 3;
      } else if i == 3 {
        assert id[3] == 'c' && multiset(id)['c'] == 3;
      } else if i == 4 {
        assert id[4] == 'c' && multiset(id)['c'] == 3;
      } else {
        assert id[5] == 'd' && multiset(id)['d'] == 1;
      }
    }
    CountsAre(id, counts);
  }

  /** The sample ID "aabcdd": the letter at each position occurs 2, 2, 1, 1, 2, 2 times. */
  lemma {:induction false} Id4Counts()
    ensures forall n :: HasCount("aabcdd", n) <==> n in [2, 2, 1, 1, 2, 2]
  {
    var id := ['a', 'a', 'b', 'c', 'd', 'd'];
    var counts := [2, 2, 1, 1, 2, 2];
    forall i | 0 <= i < |id|
      ensures multiset(id)[id[i]] == counts[i]
    {
      if i == 0 {
        assert id[0] == 'a' && multiset(id)['a'] == 2;
      } else if i == 1 {
        assert id[1] == 'a' && multiset(id)['a'] == 2;
      } else if i == 2 {
        assert id[2] == 'b' && multiset(id)['b'] == 1;
      } else if i == 3 {
        assert id[3] == 'c' && multiset(id)['c'] == 1;
      } else if i == 4 {
        assert id[4] == 'd' && multiset(id)['d'] == 2;
      } else {
        assert id[5] == 'd' && multiset(id)['d'] == 2;
      }
    }
    CountsAre(id, counts);
  }

  /** The sample ID "abcdee": the letter at each position occurs 1, 1, 1, 1, 2, 2 times. */
  lemma {:induction false} Id5Counts()
    ensures forall n :: HasCount("abcdee", n) <==> n in [1, 1, 1, 1, 2, 2]
  {
    var id := ['a', 'b', 'c', 'd', 'e', 'e'];
    var counts := [1, 1, 1, 1, 2, 2];
    forall i | 0 <= i < |id|
      ensures multiset(id)[id[i]] == counts[i]
    {
      if i == 0 {
        assert id[0] == 'a' && multiset(id)['a'] == 1;
      } else if i == 1 {
        assert id[1] == 'b' && multiset(id)['b'] == 1;
      } else if i == 2 {
        assert id[2] == 'c' && multiset(id)['c'] == 1;
      } else if i == 3 {
        assert id[3] == 'd' && multiset(id)['d'] == 1;
      } else if i == 4 {
        assert id[4] == 'e' && multiset(id)['e'] == 2;
      } else {
        assert id[5] == 'e' && multiset(id)['e'] == 2;
      }
    }
    CountsAre(id, counts);
  }

  /** The sample ID "ababab": the letter at each position occurs 3, 3, 3, 3, 3, 3 times. */
  lemma {:induction false} Id6Counts()
    ensures forall n :: HasCount("ababab", n) <==> n in [3, 3, 3, 3, 3, 3]
  {
    var id := ['a', 'b', 'a', 'b', 'a', 'b'];
    var counts := [3, 3, 3, 3, 3, 3];
    forall i | 0 <= i < |id|
      ensures multiset(id)[id[i]] == counts[i]
    {
      if i == 0 {
        assert id[0] == 'a' && multiset(id)['a'] == 3;
      } else if i == 1 {
        assert id[1] == 'b' && multiset(id)['b'] == 3;
      } else if i == 2 {
        assert id[2] == 'a' && multiset(id)['a'] == 3;
      } else if i == 3 {
        assert id[3] == 'b' && multiset(id)['b'] == 3;
      } else if i == 4 {
        assert id[4] == 'a' && multiset(id)['a'] == 3;
      } else {
        assert id[5] == 'b' && multiset(id)['b'] == 3;
      }
    }
    CountsAre(id, counts);
  }

  /** One more ID adds one exactly when it qualifies. */
  lemma {:induction false} NumWithPrefix(ids: seq<string>, k: nat, n: nat)
    requires k < |ids|
    ensures NumWith(ids[..k + 1], n) == NumWith(ids[..k], n) + (if HasCount(ids[k], n) then 1 else 0)
  {
    assert ids[..k + 1][..k] == ids[..k];
  }

  /** The box IDs of the part one example. */
  const SampleIds: seq<string> := ["abcdef", "bababc", "abbcde", "abcccd", "aabcdd", "abcdee", "ababab"]

  /** Every sample ID's letter profile, and the tallies for one `n` built up one ID at a time. */
  lemma {:induction false} SampleTally(n: nat)
    ensures NumWith(SampleIds, n) ==
      (if n in [1, 1, 1, 1, 1, 1] then 1 else 0) + (if n in [3, 2, 3, 2, 3, 1] then 1 else 0)
      + (if n in [1, 2, 2, 1, 1, 1] then 1 else 0) + (if n in [1, 1, 3, 3, 3, 1] then 1 else 0)
      + (if n in [2, 2, 1, 1, 2, 2] then 1 else 0) + (if n in [1, 1, 1, 1, 2, 2] then 1 else 0)
      + (if n in [3, 3, 3, 3, 3, 3] then 1 else 0)
  {
    var ids := SampleIds;
    Id0Counts();
    Id1Counts();
    Id2Counts();
    Id3Counts();
    Id4Counts();
    Id5Counts();
    Id6Counts();
    NumWithPrefix(ids, 0, n);
    NumWithPrefix(ids, 1, n);
    NumWithPrefix(ids, 2, n);
    NumWithPrefix(ids, 3, n);
    NumWithPrefix(ids, 4, n);
    NumWithPrefix(ids, 5, n);
    NumWithPrefix(ids, 6, n);
    assert ids[..7] == ids;
  }

  lemma {:induction false} ExampleTwos()
    ensures NumWith(SampleIds, 2) == 4
  {
    SampleTally(2);
  }

  lemma {:induction false} ExampleThrees()
    ensures NumWith(SampleIds, 3) == 3
  {
    SampleTally(3);
  }

  /** The part one example's checksum. */
  lemma {:induction false} PartOneExample()
    ensures Utils.Product([NumWith(SampleIds, 2), NumWith(SampleIds, 3)]) == 12
  {
    ExampleTwos();
    ExampleThrees();
    Utils.ProductPair(4, 3);
  }

  // ---------------------------------------------------------------------------
  // Part two: the common letters of the two matching IDs
  // ---------------------------------------------------------------------------

  /** The letters of `a` at the positions where `b` holds the same letter, in order. */
  function Common(a: string, b: string): string
    requires |a| <= |b|
  {
    if |a| == 0 then ""
    else (if a[0] == b[0] then [a[0]] else "") + Common(a[1..], b[1..])
  }

  /** The final loop of `SolvePartTwo`: `None` where indexing `b` would raise,
      that is when `b` is shorter than `a`. */
  method CommonLetters(a: string, b: string) returns (r: Option<string>)
    ensures |a| <= |b| <==> r.Some?
    ensures r.Some? ==> r.value == Common(a, b)
  {
    var output := "";
    for i := 0 to |a|
      invariant i <= |b|
      invariant |a| <= |b| ==> output + Common(a[i..], b[i..]) == Common(a, b)
    {
      if i >= |b| {
        return None;
      }
      DropOne(a, b, i);
      if b[i] == a[i] {
        output := output + [a[i]];
      }
    }
    if |a| > |b| {
      return None;
    }
    return Some(output);
  }

  lemma {:induction false} DropOne(a: string, b: string, i: nat)
    requires i < |a| && i < |b|
    ensures |a| <= |b| ==>
      Common(a[i..], b[i..]) == (if a[i] == b[i] then [a[i]] else "") + Common(a[i + 1..], b[i + 1..])
  {
    if |a| <= |b| {
      assert a[i..][1..] == a[i + 1..];
      assert b[i..][1..] == b[i + 1..];
    }
  }

  /** An ID has every letter in common with itself. */
  lemma {:induction false} CommonWithSelf(a: string)
    ensures Common(a, a) == a
  {
    if |a| > 0 {
      CommonWithSelf(a[1..]);
    }
  }

  /** IDs that differ in exactly one position `k` share everything but that letter. */
  lemma {:induction false} CommonOneDifference(a: string, b: string, k: nat)
    requires |a| == |b| && k < |a| && a[k] != b[k]
    requires forall i :: 0 <= i < |a| && i != k ==> a[i] == b[i]
    ensures Common(a, b) == a[..k] + a[k + 1..]
  {
    if k == 0 {
      assert a[1..] == b[1..];
      CommonWithSelf(a[1..]);
    } else {
      CommonOneDifference(a[1..], b[1..], k - 1);
      assert a[1..][..k - 1] == a[1..k];
      assert a[1..][k..] == a[k + 1..];
      assert [a[0]] + a[1..k] == a[..k];
    }
  }

  /** The common letters are a subsequence of `a`: never longer, and only letters of `a`. */
  lemma {:induction false} CommonShorter(a: string, b: string)
    requires |a| <= |b|
    ensures |Common(a, b)| <= |a|
    ensures forall c :: c in Common(a, b) ==> c in a
  {
    if |a| > 0 {
      CommonShorter(a[1..], b[1..]);
      assert forall c :: c in a[1..] ==> c in a;
    }
  }

  /** The second example's matching pair. */
  lemma {:induction false} CommonExample()
    ensures Common("fghij", "fguij") == "fgij"
  {
    CommonOneDifference("fghij", "fguij", 2);
    assert "fghij"[..2] == "fg" && "fghij"[3..] == "ij";
  }
}

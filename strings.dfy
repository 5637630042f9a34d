/**
 * The pieces of Python's `str` that the solvers rely on: whitespace
 * stripping, `split` with and without a separator, `join`, `int()` on a
 * decimal literal, `str()` of an integer, substring search, `replace`,
 * `count` and ASCII case mapping. Only ASCII whitespace and ASCII digits
 * are modelled.
 */
module Strings {
  import opened Wrappers

  /** `c.isspace()` restricted to ASCII: space, \t \n \v \f \r and the separators 0x1C–0x1F. */
  predicate IsSpace(c: char) {
    var n := c as int;
    n == 32 || 9 <= n <= 13 || 28 <= n <= 31
  }

  predicate IsDigit(c: char) {
    '0' <= c <= '9'
  }

  predicate AllDigits(s: string) {
    forall i :: 0 <= i < |s| ==> IsDigit(s[i])
  }

  predicate NoSpace(s: string) {
    forall i :: 0 <= i < |s| ==> !IsSpace(s[i])
  }

  // ---------------------------------------------------------------------
  // strip()

  function LStrip(s: string): (r: string)
    ensures |r| <= |s| && r == s[|s| - |r|..]
    ensures |r| > 0 ==> !IsSpace(r[0])
    ensures forall i :: 0 <= i < |s| - |r| ==> IsSpace(s[i])
  {
    if |s| > 0 && IsSpace(s[0]) then
      var t := LStrip(s[1..]);
      assert s[1..][|s| - 1 - |t|..] == s[|s| - |t|..];
      assert forall i :: 1 <= i < |s| - |t| ==> s[1..][i - 1] == s[i];
      t
    else s
  }

  function RStrip(s: string): (r: string)
    ensures |r| <= |s| && r == s[..|r|]
    ensures |r| > 0 ==> !IsSpace(r[|r| - 1])
    ensures forall i :: |r| <= i < |s| ==> IsSpace(s[i])
  {
    if |s| > 0 && IsSpace(s[|s| - 1]) then RStrip(s[..|s| - 1]) else s
  }

  /** `s.strip()`: the longest middle part of `s` that neither starts nor ends with whitespace. */
  function Strip(s: string): (r: string)
    ensures |r| > 0 ==> !IsSpace(r[0]) && !IsSpace(r[|r| - 1])
    ensures var k := |s| - |LStrip(s)|;
              k + |r| <= |s| && r == s[k..k + |r|]
              && (forall j :: 0 <= j < k ==> IsSpace(s[j]))
              && (forall j :: k + |r| <= j < |s| ==> IsSpace(s[j]))
  {
    var l := LStrip(s);
    var r := RStrip(l);
    StripParts(s, l, r);
    r
  }

  /** Where the two halves of `Strip` leave the middle part. */
  lemma {:induction false} StripParts(s: string, l: string, r: string)
    requires l == LStrip(s) && r == RStrip(l)
    ensures var k := |s| - |l|;
              k + |r| <= |s| && r == s[k..k + |r|]
              && (forall j :: 0 <= j < k ==> IsSpace(s[j]))
              && (forall j :: k + |r| <= j < |s| ==> IsSpace(s[j]))
  {
    var k := |s| - |l|;
    assert l == s[k..];
    assert r == l[..|r|];
    assert r == s[k..k + |r|];
    forall j | k + |r| <= j < |s|
      ensures IsSpace(s[j])
    {
      assert s[j] == l[j - k];
    }
  }

  lemma {:induction false} StripNoSpace(s: string)
    requires NoSpace(s)
    ensures Strip(s) == s
  {
  }

  // ---------------------------------------------------------------------
  // split(sep) and sep.join(parts)

  /** `s.split(sep)` for a non-empty separator: cut at every occurrence, scanning left to right. */
  function Split(s: string, sep: string): (r: seq<string>)
    requires |sep| > 0
    ensures |r| >= 1
    decreases |s|
  {
    if |s| < |sep| then [s]
    else if s[..|sep|] == sep then [""] + Split(s[|sep|..], sep)
    else
      var t := Split(s[1..], sep);
      [[s[0]] + t[0]] + t[1..]
  }

  /** `sep.join(parts)`. */
  function Join(parts: seq<string>, sep: string): string {
    if |parts| == 0 then ""
    else if |parts| == 1 then parts[0]
    else parts[0] + sep + Join(parts[1..], sep)
  }

  /** `''.join(parts)`. */
  function Concat(parts: seq<string>): (r: string)
    ensures |parts| == 0 ==> r == ""
  {
    if |parts| == 0 then "" else parts[0] + Concat(parts[1..])
  }

  /** Joining the pieces of a split with the same separator gives back the string. */
  lemma {:induction false} JoinSplit(s: string, sep: string)
    requires |sep| > 0
    ensures Join(Split(s, sep), sep) == s
    decreases |s|
  {
    if |s| < |sep| {
    } else if s[..|sep|] == sep {
      var t := Split(s[|sep|..], sep);
      calc {
        Join(Split(s, sep), sep);
        Join([""] + t, sep);
        { JoinEmptyHead(t, sep); }
        sep + Join(t, sep);
        { JoinSplit(s[|sep|..], sep); }
        sep + s[|sep|..];
        { assert s == s[..|sep|] + s[|sep|..]; }
        s;
      }
    } else {
      var t := Split(s[1..], sep);
      calc {
        Join(Split(s, sep), sep);
        Join([[s[0]] + t[0]] + t[1..], sep);
        { JoinHead(s[0], t, sep); }
        [s[0]] + Join(t, sep);
        { JoinSplit(s[1..], sep); }
        [s[0]] + s[1..];
        s;
      }
    }
  }

  lemma {:induction false} JoinEmptyHead(t: seq<string>, sep: string)
    requires |t| >= 1
    ensures Join([""] + t, sep) == sep + Join(t, sep)
  {
    assert ([""] + t)[0] == "" && ([""] + t)[1..] == t;
  }

  lemma {:induction false} JoinHead(c: char, t: seq<string>, sep: string)
    requires |t| >= 1
    ensures Join([[c] + t[0]] + t[1..], sep) == [c] + Join(t, sep)
  {
    var u := [[c] + t[0]] + t[1..];
    if |t| == 1 {
    } else {
      assert u[1..] == t[1..];
    }
  }

  /** No piece of a split contains a character of the separator's first position, when the string
      lacks that character altogether... more generally, a string without any character of `sep`
      splits into itself. */
  lemma {:induction false} SplitAbsent(s: string, sep: string, k: nat)
    requires |sep| > 0 && k < |sep|
    requires forall i :: 0 <= i < |s| ==> s[i] != sep[k]
    ensures Split(s, sep) == [s]
    decreases |s|
  {
    if |s| < |sep| {
    } else {
      assert s[..|sep|][k] == s[k];
      SplitAbsent(s[1..], sep, k);
      assert [s[0]] + s[1..] == s;
    }
  }

  /** A prefix free of the separator's first character is cut off whole at the first separator. */
  lemma {:induction false} SplitAfter(a: string, sep: string, b: string)
    requires |sep| > 0
    requires forall i :: 0 <= i < |a| ==> a[i] != sep[0]
    ensures Split(a + sep + b, sep) == [a] + Split(b, sep)
    decreases |a|
  {
    var s := a + sep + b;
    if |a| == 0 {
      assert s == sep + b;
      assert s[..|sep|] == sep;
      assert s[|sep|..] == b;
    } else {
      assert s[..|sep|][0] == a[0];
      assert s[1..] == a[1..] + sep + b;
      SplitAfter(a[1..], sep, b);
      assert [a[0]] + a[1..] == a;
    }
  }

  /** Pieces free of a character come back from joining and splitting on that character. */
  lemma {:induction false} SplitJoin(parts: seq<string>, c: char)
    requires |parts| > 0
    requires forall i :: 0 <= i < |parts| ==> c !in parts[i]
    ensures Split(Join(parts, [c]), [c]) == parts
  {
    var p := parts[0];
    assert forall i :: 0 <= i < |p| ==> p[i] != [c][0] by {
      assert c !in p;
    }
    if |parts| == 1 {
      SplitAbsent(p, [c], 0);
    } else {
      SplitAfter(p, [c], Join(parts[1..], [c]));
      SplitJoin(parts[1..], c);
    }
  }

  /** A character in neither the pieces nor the separator is not in the joined string. */
  lemma {:induction false} JoinLacks(parts: seq<string>, sep: string, c: char)
    requires c !in sep && forall i :: 0 <= i < |parts| ==> c !in parts[i]
    ensures c !in Join(parts, sep)
  {
    if |parts| > 1 {
      JoinLacks(parts[1..], sep, c);
    }
  }

  /** A string free of whitespace lacks every whitespace character. */
  lemma {:induction false} NoSpaceLacks(s: string, c: char)
    requires NoSpace(s) && IsSpace(c)
    ensures c !in s
  {
  }

  /** A string ending in a one-character separator splits into at least two pieces, the last empty. */
  lemma {:induction false} SplitTrailingSeparator(s: string, c: char)
    requires |s| > 0 && s[|s| - 1] == c
    ensures var r := Split(s, [c]); |r| >= 2 && r[|r| - 1] == ""
    decreases |s|
  {
    assert s[..1] == [s[0]];
    if s[0] == c {
      if |s| > 1 {
        SplitTrailingSeparator(s[1..], c);
      }
    } else {
      SplitTrailingSeparator(s[1..], c);
    }
  }

  // ---------------------------------------------------------------------
  // split() without a separator

  /** The first word of a string that does not start with whitespace. */
  function Word(s: string): (w: string)
    ensures |w| <= |s| && w == s[..|w|] && NoSpace(w)
    ensures |w| < |s| ==> IsSpace(s[|w|])
    ensures |s| > 0 && !IsSpace(s[0]) ==> |w| > 0
  {
    if |s| == 0 || IsSpace(s[0]) then "" else [s[0]] + Word(s[1..])
  }

  /** `s.split()`: the maximal runs of non-whitespace characters, in order. */
  function SplitWs(s: string): (r: seq<string>)
    ensures forall i :: 0 <= i < |r| ==> |r[i]| > 0 && NoSpace(r[i])
    decreases |s|
  {
    var t := LStrip(s);
    if |t| == 0 then []
    else
      var w := Word(t);
      var rest := SplitWs(t[|w|..]);
      WordsCons(w, rest);
      [w] + rest
  }

  lemma {:induction false} WordsCons(w: string, rest: seq<string>)
    requires |w| > 0 && NoSpace(w)
    requires forall i :: 0 <= i < |rest| ==> |rest[i]| > 0 && NoSpace(rest[i])
    ensures forall i :: 0 <= i < |[w] + rest| ==> |([w] + rest)[i]| > 0 && NoSpace(([w] + rest)[i])
  {
    var r := [w] + rest;
    forall i | 0 <= i < |r|
      ensures |r[i]| > 0 && NoSpace(r[i])
    {
      if i > 0 {
        assert r[i] == rest[i - 1];
      }
    }
  }

  /** Only whitespace. */
  predicate AllSpace(s: string) {
    forall i :: 0 <= i < |s| ==> IsSpace(s[i])
  }

  /** The characters of `s` that are not whitespace, in order: an independent account of
      what `split()` keeps. */
  function Visible(s: string): (r: string)
    ensures |r| <= |s| && NoSpace(r)
  {
    if |s| == 0 then "" else (if IsSpace(s[0]) then "" else [s[0]]) + Visible(s[1..])
  }

  lemma {:induction false} VisibleAppend(a: string, b: string)
    ensures Visible(a + b) == Visible(a) + Visible(b)
    decreases |a|
  {
    if |a| == 0 {
      assert a + b == b;
    } else {
      var h := if IsSpace(a[0]) then "" else [a[0]];
      assert (a + b)[0] == a[0] && (a + b)[1..] == a[1..] + b;
      VisibleAppend(a[1..], b);
      assert Visible(a + b) == h + Visible(a[1..] + b);
      assert Visible(a) == h + Visible(a[1..]);
    }
  }

  lemma {:induction false} VisibleNoSpace(s: string)
    requires NoSpace(s)
    ensures Visible(s) == s
    decreases |s|
  {
    if |s| > 0 {
      VisibleNoSpace(s[1..]);
    }
  }

  lemma {:induction false} VisibleAllSpace(s: string)
    requires AllSpace(s)
    ensures Visible(s) == ""
    decreases |s|
  {
    if |s| > 0 {
      VisibleAllSpace(s[1..]);
    }
  }

  lemma {:induction false} VisibleLStrip(s: string)
    ensures Visible(LStrip(s)) == Visible(s)
    decreases |s|
  {
    if |s| > 0 && IsSpace(s[0]) {
      VisibleLStrip(s[1..]);
    }
  }

  /** The visible characters of a string that starts with a word are that word and then
      those of the rest. */
  lemma {:induction false} VisibleWord(t: string)
    ensures Visible(t) == Word(t) + Visible(t[|Word(t)|..])
  {
    var w := Word(t);
    assert t == w + t[|w|..];
    VisibleAppend(w, t[|w|..]);
    VisibleNoSpace(w);
  }

  lemma {:induction false} ConcatCons(w: string, r: seq<string>)
    ensures Concat([w] + r) == w + Concat(r)
  {
    assert ([w] + r)[1..] == r;
  }

  /** `split()` loses nothing but whitespace: its words, put together, are the input's
      non-whitespace characters in order. */
  lemma {:induction false} SplitWsVisible(s: string)
    ensures Concat(SplitWs(s)) == Visible(s)
    decreases |s|
  {
    var t := LStrip(s);
    VisibleLStrip(s);
    if |t| > 0 {
      var w := Word(t);
      var u := t[|w|..];
      assert SplitWs(s) == [w] + SplitWs(u);
      SplitWsVisible(u);
      VisibleWord(t);
      ConcatCons(w, SplitWs(u));
    }
  }

  /** Leading whitespace is stripped along with the rest of the string's. */
  lemma {:induction false} LStripAfterSpace(p: string, u: string)
    requires AllSpace(p)
    ensures LStrip(p + u) == LStrip(u)
    decreases |p|
  {
    if |p| == 0 {
      assert p + u == u;
    } else {
      assert (p + u)[0] == p[0] && (p + u)[1..] == p[1..] + u;
      LStripAfterSpace(p[1..], u);
    }
  }

  /** Leading whitespace does not change the words. */
  lemma {:induction false} SplitWsAfterSpace(p: string, u: string)
    requires AllSpace(p)
    ensures SplitWs(p + u) == SplitWs(u)
  {
    LStripAfterSpace(p, u);
  }

  /** A word followed by nothing or by whitespace is read whole. */
  lemma {:induction false} WordOf(w: string, u: string)
    requires NoSpace(w) && (|u| == 0 || IsSpace(u[0]))
    ensures Word(w + u) == w
    decreases |w|
  {
    if |w| > 0 {
      assert (w + u)[1..] == w[1..] + u;
      WordOf(w[1..], u);
    } else {
      assert w + u == u;
    }
  }

  /** A word followed by nothing or by whitespace is the first word `split()` finds. */
  lemma {:induction false} SplitWsWord(w: string, u: string)
    requires |w| > 0 && NoSpace(w) && (|u| == 0 || IsSpace(u[0]))
    ensures SplitWs(w + u) == [w] + SplitWs(u)
  {
    var s := w + u;
    assert s[0] == w[0];
    assert LStrip(s) == s;
    WordOf(w, u);
    assert s[|w|..] == u;
  }

  /** `split()` of non-empty words without whitespace, joined by any run of whitespace,
      gives back the words. */
  lemma {:induction false} SplitWsJoin(ws: seq<string>, sep: string)
    requires |sep| > 0 && AllSpace(sep)
    requires forall i :: 0 <= i < |ws| ==> |ws[i]| > 0 && NoSpace(ws[i])
    ensures SplitWs(Join(ws, sep)) == ws
    decreases |ws|
  {
    if |ws| == 1 {
      SplitWsSingle(ws[0]);
    } else if |ws| > 1 {
      var w, rest := ws[0], ws[1..];
      assert ws == [w] + rest;
      SplitWsJoinStep(w, rest, sep);
      SplitWsJoin(rest, sep);
    }
  }

  /** One word without whitespace is split into itself. */
  lemma {:induction false} SplitWsSingle(w: string)
    requires |w| > 0 && NoSpace(w)
    ensures SplitWs(w) == [w]
  {
    assert w + "" == w;
    SplitWsWord(w, "");
  }

  /** One word, then whitespace, then more words. */
  lemma {:induction false} SplitWsJoinStep(w: string, ws: seq<string>, sep: string)
    requires |sep| > 0 && AllSpace(sep) && |w| > 0 && NoSpace(w) && |ws| > 0
    ensures SplitWs(Join([w] + ws, sep)) == [w] + SplitWs(Join(ws, sep))
  {
    var rest := Join(ws, sep);
    assert ([w] + ws)[0] == w && ([w] + ws)[1..] == ws;
    assert Join([w] + ws, sep) == w + (sep + rest);
    SplitWsWord(w, sep + rest);
    SplitWsAfterSpace(sep, rest);
  }

  // ---------------------------------------------------------------------
  // int() and str() on integers

  function DigitValue(c: char): nat
    requires IsDigit(c)
  {
    c as int - '0' as int
  }

  /** The value of a run of decimal digits, most significant first. */
  function DigitsValue(s: string): nat
    requires AllDigits(s)
  {
    if |s| == 0 then 0 else DigitsValue(s[..|s| - 1]) * 10 + DigitValue(s[|s| - 1])
  }

  /** `int(s)` on a string: surrounding whitespace is ignored, one optional sign, then at least one
      digit; anything else raises ValueError (here `None`). */
  function ParseInt(s: string): Option<int> {
    ParseSigned(Strip(s))
  }

  /** An optional sign followed by at least one decimal digit, and nothing else. */
  function ParseSigned(t: string): (r: Option<int>)
    ensures r.Some? ==> |t| > 0 && (IsDigit(t[0]) || t[0] == '+' || t[0] == '-')
  {
    if |t| > 0 && (t[0] == '+' || t[0] == '-') then
      var d := t[1..];
      if |d| > 0 && AllDigits(d) then
        var v: int := DigitsValue(d);
        Some(if t[0] == '-' then -v else v)
      else None
    else if |t| > 0 && AllDigits(t) then Some(DigitsValue(t))
    else None
  }

  function DigitChar(d: nat): (c: char)
    requires d < 10
    ensures IsDigit(c) && DigitValue(c) == d
  {
    ('0' as int + d) as char
  }

  /** The decimal digits of a natural number, without leading zeros. */
  function NatToString(n: nat): (s: string)
    ensures |s| > 0 && AllDigits(s)
    ensures DigitsValue(s) == n
  {
    if n < 10 then [DigitChar(n)]
    else
      var s := NatToString(n / 10) + [DigitChar(n % 10)];
      assert s[..|s| - 1] == NatToString(n / 10);
      s
  }

  /** `str(n)` for an integer. */
  function IntToString(n: int): (s: string)
    ensures |s| > 0 && NoSpace(s)
    ensures forall i :: 0 <= i < |s| ==> IsDigit(s[i]) || s[i] == '-'
  {
    if n < 0 then "-" + NatToString(-n) else NatToString(n)
  }

  /** `int(str(n)) == n`. */
  lemma {:induction false} ParseShow(n: int)
    ensures ParseInt(IntToString(n)) == Some(n)
  {
    var s := IntToString(n);
    StripNoSpace(s);
    assert ParseInt(s) == ParseSigned(s);
    if n < 0 {
      ParseNegative(-n);
    } else {
      ParseNatural(n);
    }
  }

  lemma {:induction false} ParseNatural(m: nat)
    ensures ParseSigned(NatToString(m)) == Some(m)
  {
    var d := NatToString(m);
    assert IsDigit(d[0]);
  }

  lemma {:induction false} ParseNegative(m: nat)
    ensures ParseSigned("-" + NatToString(m)) == Some(-(m as int))
  {
    var d := NatToString(m);
    assert ("-" + d)[1..] == d;
  }

  /** `[int(w) for w in words]`: every word read as a signed integer; `None` as soon as
      one is not one (where `int()` raises). */
  function ParseAll(words: seq<string>): Option<seq<int>> {
    if |words| == 0 then Some([])
    else
      var v :- ParseInt(words[0]);
      var rest :- ParseAll(words[1..]);
      Some([v] + rest)
  }

  /** The parse succeeds exactly when every word is an integer, and then keeps one
      value per word, in order. */
  lemma {:induction false} ParseAllMeaning(words: seq<string>)
    ensures ParseAll(words).Some? <==> forall i :: 0 <= i < |words| ==> ParseInt(words[i]).Some?
    ensures ParseAll(words).Some? ==>
      |ParseAll(words).value| == |words| &&
      forall i :: 0 <= i < |words| ==> ParseInt(words[i]) == Some(ParseAll(words).value[i])
  {
    if |words| > 0 {
      var tail := words[1..];
      ParseAllMeaning(tail);
      ParseAllStep(words);
      if ParseInt(words[0]).None? {
        assert ParseAll(words).None?;
      } else if ParseAll(tail).None? {
        var j :| 0 <= j < |tail| && ParseInt(tail[j]).None?;
        assert words[j + 1] == tail[j];
      } else {
        ParseAllCons(words, ParseInt, ParseInt(words[0]).value, ParseAll(tail).value);
      }
    }
  }

  /** A first value followed by the values of the rest is one value per word. */
  lemma {:induction false} ParseAllCons(words: seq<string>, f: string -> Option<int>, v: int, vs: seq<int>)
    requires |words| > 0 && f(words[0]) == Some(v) && |vs| == |words| - 1
    requires forall i :: 0 <= i < |words| - 1 ==> f(words[1..][i]) == Some(vs[i])
    ensures forall i :: 0 <= i < |words| ==> f(words[i]) == Some(([v] + vs)[i])
  {
    forall i | 0 <= i < |words|
      ensures f(words[i]) == Some(([v] + vs)[i])
    {
      if i == 0 {
        assert ([v] + vs)[0] == v;
      } else {
        assert words[i] == words[1..][i - 1] && ([v] + vs)[i] == vs[i - 1];
      }
    }
  }

  /** One word that is not an integer makes the whole list fail. */
  lemma {:induction false} ParseAllFailsAt(words: seq<string>, i: int)
    requires 0 <= i < |words| && ParseInt(words[i]).None?
    ensures ParseAll(words) == None
  {
    ParseAllMeaning(words);
  }

  /** Words that read as the given integers, one each, parse as those integers. */
  lemma {:induction false} ParseAllValues(words: seq<string>, vs: seq<int>)
    requires |vs| == |words| && forall j :: 0 <= j < |words| ==> ParseInt(words[j]) == Some(vs[j])
    ensures ParseAll(words) == Some(vs)
  {
    ParseAllMeaning(words);
    assert ParseAll(words).value == vs;
  }

  /** One word read ahead of the rest. */
  lemma {:induction false} ParseAllStep(words: seq<string>)
    requires |words| > 0
    ensures ParseAll(words) ==
      if ParseInt(words[0]).Some? && ParseAll(words[1..]).Some?
      then Some([ParseInt(words[0]).value] + ParseAll(words[1..]).value)
      else None
  {
  }

  // ---------------------------------------------------------------------
  // substring search, replace, count, case

  predicate OccursAt(hay: string, needle: string, i: int) {
    0 <= i && i + |needle| <= |hay| && hay[i..i + |needle|] == needle
  }

  /** The first position at or after `from` where `needle` occurs in `hay`. */
  function FindFrom(hay: string, needle: string, from: nat): (r: Option<nat>)
    ensures r.Some? ==> from <= r.value && OccursAt(hay, needle, r.value)
    ensures r.Some? ==> forall j :: from <= j < r.value ==> !OccursAt(hay, needle, j)
    ensures r.None? ==> forall j :: from <= j ==> !OccursAt(hay, needle, j)
    decreases |hay| - from
  {
    if from + |needle| > |hay| then None
    else if hay[from..from + |needle|] == needle then Some(from)
    else FindFrom(hay, needle, from + 1)
  }

  /** `hay.index(needle)`, with `None` for the ValueError; `needle in hay` is `Find(...).Some?`. */
  function Find(hay: string, needle: string): Option<nat> {
    FindFrom(hay, needle, 0)
  }

  predicate Contains(hay: string, needle: string) {
    Find(hay, needle).Some?
  }

  /** A match with no match before it is the one `Find` returns. */
  lemma {:induction false} FindFirst(hay: string, needle: string, k: nat)
    requires OccursAt(hay, needle, k) && forall j :: 0 <= j < k ==> !OccursAt(hay, needle, j)
    ensures Find(hay, needle) == Some(k)
  {
  }

  /** `s.replace(pat, repl)` for a non-empty `pat`: every occurrence, left to right, without overlap. */
  function Replace(s: string, pat: string, repl: string): (r: string)
    requires |pat| > 0
    decreases |s|
  {
    if |s| < |pat| then s
    else if s[..|pat|] == pat then repl + Replace(s[|pat|..], pat, repl)
    else [s[0]] + Replace(s[1..], pat, repl)
  }

  /** Removing every copy of one character keeps the other characters, in order. */
  lemma {:induction false} ReplaceCharByNothing(s: string, c: char)
    ensures Replace(s, [c], "") == Filter(s, c)
  {
    if |s| > 0 {
      ReplaceCharByNothing(s[1..], c);
    }
  }

  /** The characters of `s` other than `c`, in order. */
  function Filter(s: string, c: char): (r: string)
    ensures |r| <= |s|
    ensures forall i :: 0 <= i < |r| ==> r[i] != c
  {
    if |s| == 0 then "" else (if s[0] == c then "" else [s[0]]) + Filter(s[1..], c)
  }

  /** Filtering out a character the string lacks changes nothing. */
  lemma {:induction false} FilterAbsent(s: string, c: char)
    requires forall i :: 0 <= i < |s| ==> s[i] != c
    ensures Filter(s, c) == s
  {
    if |s| > 0 {
      FilterAbsent(s[1..], c);
      assert [s[0]] + s[1..] == s;
    }
  }

  /** Filtering distributes over concatenation. */
  lemma {:induction false} FilterConcat(a: string, b: string, c: char)
    ensures Filter(a + b, c) == Filter(a, c) + Filter(b, c)
    decreases |a|
  {
    if |a| > 0 {
      var head := if a[0] == c then "" else [a[0]];
      assert (a + b)[0] == a[0];
      assert (a + b)[1..] == a[1..] + b;
      FilterConcat(a[1..], b, c);
      calc {
        Filter(a + b, c);
        head + Filter(a[1..] + b, c);
        head + (Filter(a[1..], c) + Filter(b, c));
        (head + Filter(a[1..], c)) + Filter(b, c);
        Filter(a, c) + Filter(b, c);
      }
    } else {
      assert a + b == b;
    }
  }

  /** `s.count(c)` for a single character. */
  function Count(s: string, c: char): (n: nat)
    ensures n <= |s|
    ensures n == 0 <==> forall i :: 0 <= i < |s| ==> s[i] != c
  {
    if |s| == 0 then 0 else (if s[0] == c then 1 else 0) + Count(s[1..], c)
  }

  predicate IsUpper(c: char) { 'A' <= c <= 'Z' }
  predicate IsLower(c: char) { 'a' <= c <= 'z' }

  /** `c.lower()` on ASCII. */
  function Lower(c: char): (r: char)
    ensures IsUpper(c) ==> IsLower(r)
    ensures !IsUpper(c) ==> r == c
  {
    if IsUpper(c) then (c as int + 32) as char else c
  }

  /** `c.upper()` (and `c.capitalize()` for one character) on ASCII. */
  function Upper(c: char): (r: char)
    ensures IsLower(c) ==> IsUpper(r) && Lower(r) == c
    ensures !IsLower(c) ==> r == c
  {
    if IsLower(c) then (c as int - 32) as char else c
  }

  /** Python's `<` on strings: code-point lexicographic order, a proper prefix first. */
  predicate StrLess(a: string, b: string) {
    if |a| == 0 then |b| > 0
    else if |b| == 0 then false
    else if a[0] != b[0] then a[0] < b[0]
    else StrLess(a[1..], b[1..])
  }

  lemma {:induction false} StrLessIrreflexive(a: string)
    ensures !StrLess(a, a)
    decreases |a|
  {
    if |a| > 0 {
      StrLessIrreflexive(a[1..]);
    }
  }

  lemma {:induction false} StrLessTransitive(a: string, b: string, c: string)
    requires StrLess(a, b) && StrLess(b, c)
    ensures StrLess(a, c)
    decreases |a|
  {
    if |a| > 0 && a[0] == b[0] && b[0] == c[0] {
      StrLessTransitive(a[1..], b[1..], c[1..]);
    }
  }

  /** Any two different strings are ordered one way or the other. */
  lemma {:induction false} StrLessTotal(a: string, b: string)
    requires a != b
    ensures StrLess(a, b) || StrLess(b, a)
    decreases |a|
  {
    if |a| > 0 && |b| > 0 && a[0] == b[0] {
      assert a == [a[0]] + a[1..] && b == [b[0]] + b[1..];
      StrLessTotal(a[1..], b[1..]);
    }
  }

  lemma {:induction false} StrLessAsymmetric(a: string, b: string)
    requires StrLess(a, b)
    ensures !StrLess(b, a)
    decreases |a|
  {
    if |a| > 0 && a[0] == b[0] {
      StrLessAsymmetric(a[1..], b[1..]);
    }
  }
}

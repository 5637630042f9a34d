/** Day 3, overlapping fabric claims painted onto a 1000 x 1000 counter grid. */
module Claims {
  import opened Wrappers
  import opened Strings

  /** The side of the square grid. */
  const Size: int := 1000

  /** `Claim(id, x, y, w, h)`: a `w` by `h` rectangle whose top-left cell is `(x, y)`. */
  datatype Claim = Claim(id: int, x: int, y: int, w: int, h: int)

  /** `area`. */
  function Area(c: Claim): int {
    c.w * c.h
  }

  /** The claim covers cell `(a, b)`. */
  predicate Covers(c: Claim, a: int, b: int) {
    c.x <= a < c.x + c.w && c.y <= b < c.y + c.h
  }

  /** The cells a claim covers. */
  function Cells(c: Claim): set<(int, int)> {
    set a, b | c.x <= a < c.x + c.w && c.y <= b < c.y + c.h :: (a, b)
  }

  // ---------------------------------------------------------------------------
  // The area is the number of cells covered
  // ---------------------------------------------------------------------------

  /** Column `a` of a claim. */
  function Column(a: int, y: int, h: int): set<(int, int)> {
    set b | y <= b < y + h :: (a, b)
  }

  lemma {:induction false} ColumnSize(a: int, y: int, h: nat)
    ensures |Column(a, y, h)| == h
    decreases h
  {
    if h > 0 {
      ColumnSize(a, y, h - 1);
      assert Column(a, y, h) == Column(a, y, h - 1) + {(a, y + h - 1)};
    } else {
      assert Column(a, y, h) == {};
    }
  }

  lemma {:induction false} CellsSize(c: Claim)
    requires c.w >= 0 && c.h >= 0
    ensures |Cells(c)| == c.w * c.h
    decreases c.w
  {
    if c.w == 0 {
      assert Cells(c) == {};
    } else {
      var d := c.(w := c.w - 1);
      var col := Column(c.x + c.w - 1, c.y, c.h);
      CellsSize(d);
      ColumnSize(c.x + c.w - 1, c.y, c.h);
      CellsLastColumn(c);
      DisjointUnionSize(Cells(d), col);
      assert |Cells(c)| == |Cells(d)| + |col|;
      MulStep(c.w, c.h);
    }
  }

  lemma {:induction false} MulStep(w: int, h: int)
    ensures w * h == (w - 1) * h + h
  {
  }

  /** The size of a union of disjoint sets is the sum of their sizes. */
  lemma {:induction false} DisjointUnionSize<T>(s: set<T>, t: set<T>)
    requires s !! t
    ensures |s + t| == |s| + |t|
  {
    if |t| > 0 {
      var e :| e in t;
      DisjointUnionSize(s, t - {e});
      assert s + t == (s + (t - {e})) + {e};
    } else {
      assert t == {};
      assert s + t == s;
    }
  }

  lemma {:induction false} CellsLastColumn(c: Claim)
    requires c.w > 0
    ensures var d := c.(w := c.w - 1);
      Cells(c) == Cells(d) + Column(c.x + c.w - 1, c.y, c.h) &&
      Cells(d) !! Column(c.x + c.w - 1, c.y, c.h)
  {
    var d := c.(w := c.w - 1);
    var col := Column(c.x + c.w - 1, c.y, c.h);
    forall p | p in Cells(c)
      ensures p in Cells(d) + col
    {
      if p.0 < c.x + c.w - 1 {
        assert p in Cells(d);
      } else {
        assert p in col;
      }
    }
    forall p | p in col
      ensures p !in Cells(d)
    {
    }
  }

  /** `area` is the number of cells a claim of non-negative size covers. */
  lemma {:induction false} AreaIsCellCount(c: Claim)
    requires c.w >= 0 && c.h >= 0
    ensures |Cells(c)| == Area(c)
  {
    CellsSize(c);
  }

  // ---------------------------------------------------------------------------
  // Parsing '#id @ x,y: wxh'
  // ---------------------------------------------------------------------------

  /** One line of input. Each `int()` and each two-way unpacking that would raise gives `None`. */
  function ParseClaim(line: string): Option<Claim> {
    var parts := Split(line, " @ ");
    var id :- ParseInt(Replace(parts[0], "#", ""));
    var coordsAndSize := Split(parts[|parts| - 1], ": ");
    if |coordsAndSize| != 2 then None
    else
      var xy := Split(coordsAndSize[0], ",");
      var wh := Split(coordsAndSize[1], "x");
      if |xy| != 2 || |wh| != 2 then None
      else
        var x :- ParseInt(xy[0]);
        var y :- ParseInt(xy[1]);
        var w :- ParseInt(wh[0]);
        var h :- ParseInt(wh[1]);
        Some(Claim(id, x, y, w, h))
  }

  /** `Claim.__str__`: the claim written the way the input writes it. */
  function Show(c: Claim): string {
    "#" + IntToString(c.id) + " @ " + IntToString(c.x) + "," + IntToString(c.y) + ": " +
    IntToString(c.w) + "x" + IntToString(c.h)
  }

  /** Decimal numbers contain no punctuation but the minus sign. */
  lemma {:induction false} NumberLacks(n: int, ch: char)
    requires !IsDigit(ch) && ch != '-'
    ensures forall i :: 0 <= i < |IntToString(n)| ==> IntToString(n)[i] != ch
    ensures ch !in IntToString(n)
  {
  }

  /** Two numbers separated by a one-character separator split into the two numbers. */
  lemma {:induction false} SplitPair(m: int, n: int, sep: char)
    requires !IsDigit(sep) && sep != '-'
    ensures Split(IntToString(m) + [sep] + IntToString(n), [sep]) == [IntToString(m), IntToString(n)]
  {
    NumberLacks(m, sep);
    NumberLacks(n, sep);
    SplitAfter(IntToString(m), [sep], IntToString(n));
    SplitAbsent(IntToString(n), [sep], 0);
  }

  /** The two halves of a written claim around ' @ '. */
  function Tail(c: Claim): string {
    IntToString(c.x) + "," + IntToString(c.y) + ": " + IntToString(c.w) + "x" + IntToString(c.h)
  }

  lemma {:induction false} ShowSplitsAtAt(c: Claim)
    ensures Split(Show(c), " @ ") == ["#" + IntToString(c.id), Tail(c)]
  {
    var head := "#" + IntToString(c.id);
    var tail := Tail(c);
    assert Show(c) == head + " @ " + tail;
    HeadLacksSpace(c.id);
    SplitAfter(head, " @ ", tail);
    TailLacksAt(c);
    SplitAbsent(tail, " @ ", 1);
  }

  lemma {:induction false} HeadLacksSpace(n: int)
    ensures forall i :: 0 <= i < |"#" + IntToString(n)| ==> ("#" + IntToString(n))[i] != " @ "[0]
  {
    NumberLacks(n, ' ');
  }

  lemma {:induction false} TailLacksAt(c: Claim)
    ensures forall i :: 0 <= i < |Tail(c)| ==> Tail(c)[i] != " @ "[1]
  {
    var p, q := IntToString(c.x) + "," + IntToString(c.y) + ": ", IntToString(c.w) + "x" + IntToString(c.h);
    assert Tail(c) == p + q;
    NumberLacks(c.x, '@'); NumberLacks(c.y, '@'); NumberLacks(c.w, '@'); NumberLacks(c.h, '@');
    assert '@' !in p && '@' !in q;
  }

  lemma {:induction false} IdReadsBack(n: int)
    ensures ParseInt(Replace("#" + IntToString(n), "#", "")) == Some(n)
  {
    NumberLacks(n, '#');
    ReplaceCharByNothing("#" + IntToString(n), '#');
    assert ("#" + IntToString(n))[1..] == IntToString(n);
    FilterAbsent(IntToString(n), '#');
    ParseShow(n);
  }

  lemma {:induction false} TailSplits(c: Claim)
    ensures Split(Tail(c), ": ") ==
      [IntToString(c.x) + "," + IntToString(c.y), IntToString(c.w) + "x" + IntToString(c.h)]
  {
    var coords := IntToString(c.x) + "," + IntToString(c.y);
    var size := IntToString(c.w) + "x" + IntToString(c.h);
    assert Tail(c) == coords + ": " + size;
    NumberLacks(c.x, ':'); NumberLacks(c.y, ':');
    assert ':' !in coords;
    assert forall i :: 0 <= i < |coords| ==> coords[i] != ": "[0];
    SplitAfter(coords, ": ", size);
    NumberLacks(c.w, ':'); NumberLacks(c.h, ':');
    assert ':' !in size;
    assert forall i :: 0 <= i < |size| ==> size[i] != ": "[0];
    SplitAbsent(size, ": ", 0);
  }

  /** Reading back a written claim gives the claim. */
  lemma {:induction false} ParseShowClaim(c: Claim)
    ensures ParseClaim(Show(c)) == Some(c)
  {
    ShowSplitsAtAt(c);
    IdReadsBack(c.id);
    TailSplits(c);
    SplitPair(c.x, c.y, ',');
    SplitPair(c.w, c.h, 'x');
    ParseShow(c.x); ParseShow(c.y); ParseShow(c.w); ParseShow(c.h);
  }

  /** Every line parses. */
  predicate AllParse(lines: seq<string>) {
    forall i :: 0 <= i < |lines| ==> ParseClaim(lines[i]).Some?
  }

  /** `ProcessInput`: one claim per line of the input. */
  method ProcessInput(data: string) returns (r: Option<seq<Claim>>)
    ensures r.Some? <==> AllParse(Split(data, "\n"))
    ensures var lines := Split(data, "\n");
      r.Some? ==> |r.value| == |lines| &&
                  forall i :: 0 <= i < |lines| ==> ParseClaim(lines[i]) == Some(r.value[i])
  {
    r := ParseClaims(Split(data, "\n"));
  }

  /** Every line read in order; `None` when one of them does not parse. */
  function ParseLines(lines: seq<string>): Option<seq<Claim>> {
    MapAll(lines, ParseClaim)
  }

  /** The lines parse exactly when each of them does, and then give one claim per line, in order. */
  lemma {:induction false} ParseLinesMeaning(lines: seq<string>)
    ensures ParseLines(lines).Some? <==> AllParse(lines)
    ensures ParseLines(lines).Some? ==>
              |ParseLines(lines).value| == |lines|
              && forall i :: 0 <= i < |lines| ==> ParseClaim(lines[i]) == Some(ParseLines(lines).value[i])
  {
    MapAllMeaning(lines, ParseClaim);
  }

  /** The loop of `ProcessInput`: `None` as soon as a line does not parse. */
  method ParseClaims(lines: seq<string>) returns (r: Option<seq<Claim>>)
    ensures r == ParseLines(lines)
    ensures r.Some? <==> AllParse(lines)
    ensures r.Some? ==> |r.value| == |lines| &&
                        forall i :: 0 <= i < |lines| ==> ParseClaim(lines[i]) == Some(r.value[i])
  {
    ParseLinesMeaning(lines);
    var processed: seq<Claim> := [];
    for i := 0 to |lines|
      invariant ParseLines(lines[..i]) == Some(processed)
    {
      assert lines[..i + 1][..i] == lines[..i];
      var c := ParseClaim(lines[i]);
      if c.None? {
        PrefixFails(lines, i);
        return None;
      }
      processed := processed + [c.value];
    }
    assert lines[..|lines|] == lines;
    return Some(processed);
  }

  /** Once a line fails to parse, so does every longer run of lines. */
  lemma {:induction false} PrefixFails(lines: seq<string>, i: nat)
    requires i < |lines| && ParseClaim(lines[i]).None?
    ensures ParseLines(lines).None?
  {
    ParseLinesMeaning(lines);
  }

  // ---------------------------------------------------------------------------
  // Coverage
  // ---------------------------------------------------------------------------

  /** How many of the claims cover cell `(a, b)`. */
  function Cov(claims: seq<Claim>, a: int, b: int): nat {
    if |claims| == 0 then 0
    else Cov(claims[..|claims| - 1], a, b) + (if Covers(claims[|claims| - 1], a, b) then 1 else 0)
  }

  /** The cell is on the grid. */
  predicate OnGrid(a: int, b: int) {
    0 <= a < Size && 0 <= b < Size
  }

  /** Every cell the claim covers is on the grid (an empty claim touches no cell). */
  predicate InGrid(c: Claim) {
    c.w <= 0 || c.h <= 0 || (0 <= c.x && c.x + c.w <= Size && 0 <= c.y && c.y + c.h <= Size)
  }

  /** The cells of the grid covered by more than one claim. */
  function Overlapping(claims: seq<Claim>): set<(int, int)> {
    set a, b | 0 <= a < Size && 0 <= b < Size && Cov(claims, a, b) > 1 :: (a, b)
  }

  /** A claim covering a cell is one of several there exactly when another claim covers it too. */
  lemma {:induction false} CovShared(claims: seq<Claim>, i: nat, a: int, b: int)
    requires i < |claims| && Covers(claims[i], a, b)
    ensures Cov(claims, a, b) > 1 <==>
            exists j :: 0 <= j < |claims| && j != i && Covers(claims[j], a, b)
  {
    var last := |claims| - 1;
    var init := claims[..last];
    assert forall j :: 0 <= j < last ==> init[j] == claims[j];
    if i == last {
      CovZero(init, a, b);
      if Cov(claims, a, b) > 1 {
        assert Cov(init, a, b) > 0;
        var j :| 0 <= j < |init| && Covers(init[j], a, b);
        assert claims[j] == init[j];
      }
    } else {
      CovShared(init, i, a, b);
      CovZero(init, a, b);
      assert Cov(init, a, b) > 0;
      if Covers(claims[last], a, b) {
        assert Cov(claims, a, b) > 1;
        assert last != i;
      } else {
        assert Cov(claims, a, b) == Cov(init, a, b);
        if exists j :: 0 <= j < |claims| && j != i && Covers(claims[j], a, b) {
          var j :| 0 <= j < |claims| && j != i && Covers(claims[j], a, b);
          assert j < last;
          assert Covers(init[j], a, b);
        }
      }
    }
  }

  /** No claim covers a cell exactly when its coverage is zero. */
  lemma {:induction false} CovZero(claims: seq<Claim>, a: int, b: int)
    ensures Cov(claims, a, b) == 0 <==> forall j :: 0 <= j < |claims| ==> !Covers(claims[j], a, b)
  {
    if |claims| > 0 {
      var last := |claims| - 1;
      CovZero(claims[..last], a, b);
      assert forall j :: 0 <= j < last ==> claims[..last][j] == claims[j];
    }
  }

  // ---------------------------------------------------------------------------
  // The solver and its cached image
  // ---------------------------------------------------------------------------

  /** What part two answers: a claim id, no claim at all (Python's `None`), or an error raised. */
  datatype Answer = Id(id: int) | NoClaim | Raised

  /** Cell `(a, b)` of the grid comes before cell `(x, y)` in the counting order: every
      column before `x`, and column `x` above row `y`. */
  predicate Scanned(x: int, y: int, a: int, b: int) {
    OnGrid(a, b) && (a < x || (a == x && b < y))
  }

  /** The cells of `image` with value above 1 that come before `(x, y)`. */
  function Over(image: array2<int>, x: int, y: int): set<(int, int)>
    requires image.Length0 == Size && image.Length1 == Size
    reads image
  {
    set a, b | 0 <= a < Size && 0 <= b < Size && Scanned(x, y, a, b) && image[a, b] > 1 :: (a, b)
  }

  /** Counting one more cell adds one exactly when its value is above 1. */
  lemma {:induction false} OverStep(image: array2<int>, x: int, y: int)
    requires image.Length0 == Size && image.Length1 == Size
    requires 0 <= x < Size && 0 <= y < Size
    ensures |Over(image, x, y + 1)| == |Over(image, x, y)| + (if image[x, y] > 1 then 1 else 0)
  {
    var s0, s1 := Over(image, x, y), Over(image, x, y + 1);
    if image[x, y] > 1 {
      forall p | p in s1 ensures p in s0 + {(x, y)} {
        if p != (x, y) { assert Scanned(x, y, p.0, p.1); }
      }
      assert (x, y) in s1;
      assert s1 == s0 + {(x, y)};
      assert (x, y) !in s0;
    } else {
      forall p | p in s1 ensures p in s0 {
        assert Scanned(x, y, p.0, p.1);
      }
      assert s1 == s0;
    }
  }

  /** The end of one column is the start of the next. */
  lemma {:induction false} OverWrap(image: array2<int>, x: int)
    requires image.Length0 == Size && image.Length1 == Size
    ensures Over(image, x, Size) == Over(image, x + 1, 0)
  {
    forall p | p in Over(image, x + 1, 0) ensures p in Over(image, x, Size) {
      assert Scanned(x, Size, p.0, p.1);
    }
    forall p | p in Over(image, x, Size) ensures p in Over(image, x + 1, 0) {
      assert Scanned(x + 1, 0, p.0, p.1);
    }
  }

  /** Once every cell is scanned, the cells above 1 of a painted grid are the overlapping cells. */
  lemma {:induction false} OverAll(image: array2<int>, claims: seq<Claim>)
    requires image.Length0 == Size && image.Length1 == Size
    requires forall a, b :: OnGrid(a, b) ==> image[a, b] == Cov(claims, a, b)
    ensures Over(image, Size, 0) == Overlapping(claims)
  {
    forall p | p in Overlapping(claims) ensures p in Over(image, Size, 0) {
      assert Scanned(Size, 0, p.0, p.1);
    }
  }

  /** Part way through painting `claim` on top of `base`: its first `w` columns, and the
      first `h` cells of column `w`. */
  predicate Partial(claim: Claim, w: int, h: int, a: int, b: int) {
    (claim.x <= a < claim.x + w && claim.y <= b < claim.y + claim.h) ||
    (a == claim.x + w && claim.y <= b < claim.y + h)
  }

  ghost predicate Painted(grid: array2<int>, base: seq<Claim>, claim: Claim, w: int, h: int)
    requires grid.Length0 == Size && grid.Length1 == Size
    reads grid
  {
    forall a, b :: OnGrid(a, b) ==>
      grid[a, b] == Cov(base, a, b) + (if Partial(claim, w, h, a, b) then 1 else 0)
  }

  lemma {:induction false} NextColumn(grid: array2<int>, base: seq<Claim>, claim: Claim, w: int, h: int)
    requires grid.Length0 == Size && grid.Length1 == Size
    requires Painted(grid, base, claim, w, h)
    requires 0 <= w && 0 <= h && (h == 0 || h <= claim.h) && h >= claim.h
    ensures Painted(grid, base, claim, w + 1, 0)
  {
    forall a, b | OnGrid(a, b)
      ensures Partial(claim, w, h, a, b) == Partial(claim, w + 1, 0, a, b)
    {
    }
  }

  lemma {:induction false} LastColumn(grid: array2<int>, base: seq<Claim>, claim: Claim, w: int)
    requires grid.Length0 == Size && grid.Length1 == Size
    requires Painted(grid, base, claim, w, 0)
    requires 0 <= w && (w == 0 || w <= claim.w) && w >= claim.w
    ensures forall a, b :: OnGrid(a, b) ==>
      grid[a, b] == Cov(base + [claim], a, b)
  {
    assert (base + [claim])[..|base|] == base;
    forall a, b | OnGrid(a, b)
      ensures Partial(claim, w, 0, a, b) == Covers(claim, a, b)
    {
    }
  }

  /** The corrected scan: the claim's own cells, column by column. `None` where reading a
      cell off the grid would raise, `Some(false)` at the first cell above 1. */
  function Scan(image: array2<int>, x0: int, x1: int, y0: int, y1: int): Option<bool>
    requires image.Length0 == Size && image.Length1 == Size
    reads image
    decreases x1 - x0
  {
    if x0 >= x1 then Some(true)
    else
      match ScanColumn(image, x0, y0, y1)
      case None => None
      case Some(false) => Some(false)
      case Some(true) => Scan(image, x0 + 1, x1, y0, y1)
  }

  function ScanColumn(image: array2<int>, x: int, y0: int, y1: int): Option<bool>
    requires image.Length0 == Size && image.Length1 == Size
    reads image
    decreases y1 - y0
  {
    if y0 >= y1 then Some(true)
    else if !OnGrid(x, y0) then None
    else if image[x, y0] > 1 then Some(false)
    else ScanColumn(image, x, y0 + 1, y1)
  }

  /** A scan over cells all on the grid reports whether every cell is at most 1. */
  lemma {:induction false} ScanMeaning(image: array2<int>, x0: int, x1: int, y0: int, y1: int)
    requires image.Length0 == Size && image.Length1 == Size
    requires x0 < x1 && y0 < y1 ==> 0 <= x0 && x1 <= Size && 0 <= y0 && y1 <= Size
    ensures Scan(image, x0, x1, y0, y1) ==
            Some(forall a, b :: x0 <= a < x1 && y0 <= b < y1 ==> image[a, b] <= 1)
    decreases x1 - x0
  {
    if x0 < x1 {
      ScanColumnMeaning(image, x0, y0, y1);
      ScanMeaning(image, x0 + 1, x1, y0, y1);
    }
  }

  lemma {:induction false} ScanColumnMeaning(image: array2<int>, x: int, y0: int, y1: int)
    requires image.Length0 == Size && image.Length1 == Size
    requires y0 < y1 ==> 0 <= x < Size && 0 <= y0 && y1 <= Size
    ensures ScanColumn(image, x, y0, y1) == Some(forall b :: y0 <= b < y1 ==> image[x, b] <= 1)
    decreases y1 - y0
  {
    if y0 < y1 {
      ScanColumnMeaning(image, x, y0 + 1, y1);
    }
  }

  /** The scan of `CheckIfClaimIsClean` as written: columns from `x` up to `w + y`. */
  function ScanAsWritten(image: array2<int>, c: Claim): Option<bool>
    requires image.Length0 == Size && image.Length1 == Size
    reads image
  {
    Scan(image, c.x, c.w + c.y, c.y, c.h + c.y)
  }

  /** The scan as evidently intended: columns from `x` up to `x + w`. */
  function ScanClaim(image: array2<int>, c: Claim): Option<bool>
    requires image.Length0 == Size && image.Length1 == Size
    reads image
  {
    Scan(image, c.x, c.x + c.w, c.y, c.y + c.h)
  }

  /** Two claims share a cell. */
  ghost predicate Overlap(c: Claim, d: Claim) {
    exists a, b :: Covers(c, a, b) && Covers(d, a, b)
  }

  /** On the painted grid, a claim on the grid scans clean exactly when it overlaps no other claim. */
  lemma {:induction false} CleanIffNoOverlap(image: array2<int>, claims: seq<Claim>, i: nat)
    requires image.Length0 == Size && image.Length1 == Size
    requires forall a, b :: OnGrid(a, b) ==> image[a, b] == Cov(claims, a, b)
    requires i < |claims| && InGrid(claims[i])
    ensures ScanClaim(image, claims[i]) ==
            Some(forall j :: 0 <= j < |claims| && j != i ==> !Overlap(claims[i], claims[j]))
  {
    var c := claims[i];
    ScanMeaning(image, c.x, c.x + c.w, c.y, c.y + c.h);
    var clean := forall a, b :: c.x <= a < c.x + c.w && c.y <= b < c.y + c.h ==> image[a, b] <= 1;
    var alone := forall j :: 0 <= j < |claims| && j != i ==> !Overlap(c, claims[j]);
    if !clean {
      var a, b :| c.x <= a < c.x + c.w && c.y <= b < c.y + c.h && image[a, b] > 1;
      CovShared(claims, i, a, b);
      var j :| 0 <= j < |claims| && j != i && Covers(claims[j], a, b);
      assert Overlap(c, claims[j]);
    }
    if !alone {
      var j :| 0 <= j < |claims| && j != i && Overlap(c, claims[j]);
      var a, b :| Covers(c, a, b) && Covers(claims[j], a, b);
      CovShared(claims, i, a, b);
    }
  }

  /** Part two's search over the claims from position `k` with a given check. */
  function FirstClean(image: array2<int>, claims: seq<Claim>, k: nat): Answer
    requires image.Length0 == Size && image.Length1 == Size
    requires k <= |claims|
    reads image
    decreases |claims| - k
  {
    if k == |claims| then NoClaim
    else
      match ScanClaim(image, claims[k])
      case None => Raised
      case Some(true) => Id(claims[k].id)
      case Some(false) => FirstClean(image, claims, k + 1)
  }

  /** On the painted grid of claims all on the grid, part two names the first claim that
      overlaps no other, and `None` only when every claim overlaps another. */
  lemma {:induction false} FirstCleanMeaning(image: array2<int>, claims: seq<Claim>, k: nat)
    requires image.Length0 == Size && image.Length1 == Size
    requires forall a, b :: OnGrid(a, b) ==> image[a, b] == Cov(claims, a, b)
    requires forall i :: 0 <= i < |claims| ==> InGrid(claims[i])
    requires k <= |claims|
    ensures var r := FirstClean(image, claims, k);
      r != Raised &&
      (r.Id? ==> exists i :: k <= i < |claims| && r.id == claims[i].id && Alone(claims, i) &&
                             forall i' :: k <= i' < i ==> !Alone(claims, i')) &&
      (r == NoClaim ==> forall i :: k <= i < |claims| ==> !Alone(claims, i))
    decreases |claims| - k
  {
    if k < |claims| {
      CleanIffNoOverlap(image, claims, k);
      FirstCleanMeaning(image, claims, k + 1);
    }
  }

  /** Claim `i` overlaps no other claim. */
  ghost predicate Alone(claims: seq<Claim>, i: nat)
    requires i < |claims|
  {
    forall j :: 0 <= j < |claims| && j != i ==> !Overlap(claims[i], claims[j])
  }

  /** Part two as written: the search with the as-written scan. */
  function FirstCleanAsWritten(image: array2<int>, claims: seq<Claim>, k: nat): Answer
    requires image.Length0 == Size && image.Length1 == Size
    requires k <= |claims|
    reads image
    decreases |claims| - k
  {
    if k == |claims| then NoClaim
    else
      match ScanAsWritten(image, claims[k])
      case None => Raised
      case Some(true) => Id(claims[k].id)
      case Some(false) => FirstCleanAsWritten(image, claims, k + 1)
  }

  /** Which column bound the check uses: the program's `claim.w + claim.y`, or the evidently
      intended `claim.x + claim.w`. */
  datatype Rule = AsWritten | Intended

  /** Part two's search under either rule. */
  function FirstCleanBy(rule: Rule, image: array2<int>, claims: seq<Claim>, k: nat): Answer
    requires image.Length0 == Size && image.Length1 == Size
    requires k <= |claims|
    reads image
  {
    if rule == AsWritten then FirstCleanAsWritten(image, claims, k) else FirstClean(image, claims, k)
  }

  // ---------------------------------------------------------------------------
  // Examples
  // ---------------------------------------------------------------------------

  /** Coverage by three claims, claim by claim. */
  lemma {:induction false} CovThree(c1: Claim, c2: Claim, c3: Claim, a: int, b: int)
    ensures Cov([c1, c2, c3], a, b) ==
      (if Covers(c1, a, b) then 1 else 0) + (if Covers(c2, a, b) then 1 else 0) +
      (if Covers(c3, a, b) then 1 else 0)
  {
    assert [c1, c2, c3][..2] == [c1, c2];
    assert [c1, c2][..1] == [c1];
    assert [c1][..0] == [];
    assert Cov([c1], a, b) == (if Covers(c1, a, b) then 1 else 0);
    assert Cov([c1, c2], a, b) == Cov([c1], a, b) + (if Covers(c2, a, b) then 1 else 0);
  }

  /** The claims of the puzzle's example. */
  function Example(): seq<Claim> {
    [Claim(1, 1, 3, 4, 4), Claim(2, 3, 1, 4, 4), Claim(3, 5, 5, 2, 2)]
  }

  /** In the example, the four cells in columns 3 and 4, rows 3 and 4, are claimed twice. */
  lemma {:induction false} ExampleOverlapping()
    ensures Overlapping(Example()) == {(3, 3), (3, 4), (4, 3), (4, 4)}
    ensures |Overlapping(Example())| == 4
  {
    var ex := Example();
    forall p | p in Overlapping(ex) ensures 3 <= p.0 <= 4 && 3 <= p.1 <= 4 {
      CovThree(ex[0], ex[1], ex[2], p.0, p.1);
    }
    forall p | p in {(3, 3), (3, 4), (4, 3), (4, 4)} ensures p in Overlapping(ex) {
      CovThree(ex[0], ex[1], ex[2], p.0, p.1);
    }
    var four := {(3, 3), (3, 4), (4, 3), (4, 4)};
    assert Overlapping(ex) == four;
  }

  /** In the example only the third claim overlaps no other. */
  lemma {:induction false} ExampleAlone()
    ensures !Alone(Example(), 0) && !Alone(Example(), 1) && Alone(Example(), 2)
  {
    var ex := Example();
    assert Covers(ex[0], 3, 3) && Covers(ex[1], 3, 3);
    assert Overlap(ex[0], ex[1]);
    assert Overlap(ex[1], ex[0]);
    forall j | 0 <= j < 2 ensures !Overlap(ex[2], ex[j]) {
      forall a, b ensures !(Covers(ex[2], a, b) && Covers(ex[j], a, b)) {
      }
    }
  }

  /** On the painted grid of the example, part two answers 3. */
  lemma {:induction false} ExamplePartTwo(image: array2<int>)
    requires image.Length0 == Size && image.Length1 == Size
    requires forall a, b :: OnGrid(a, b) ==> image[a, b] == Cov(Example(), a, b)
    ensures FirstClean(image, Example(), 0) == Id(3)
    ensures FirstCleanAsWritten(image, Example(), 0) == Id(3)
  {
    var ex := Example();
    FirstCleanMeaning(image, ex, 0);
    ExampleAlone();
    // As written, claims 1 and 2 scan columns 1 to 6 and 3 to 4; both meet the shared cell (3, 3).
    CovThree(ex[0], ex[1], ex[2], 3, 3);
    ScanMeaning(image, 1, 7, 3, 7);
    ScanMeaning(image, 3, 5, 1, 5);
    assert ScanAsWritten(image, ex[0]) == Some(false);
    assert ScanAsWritten(image, ex[1]) == Some(false);
    // Claim 3 has x == y, so its as-written columns are its own.
    assert ScanAsWritten(image, ex[2]) == ScanClaim(image, ex[2]);
    CleanIffNoOverlap(image, ex, 2);
    assert ScanAsWritten(image, ex[2]) == Some(true);
    assert FirstCleanAsWritten(image, ex, 2) == Id(3);
    assert FirstCleanAsWritten(image, ex, 1) == Id(3);
  }

  /** Three unit claims: the first alone in column 0, the other two stacked in column 1. */
  function Stacked(): seq<Claim> {
    [Claim(1, 0, 5, 1, 1), Claim(2, 1, 5, 1, 1), Claim(3, 1, 5, 1, 1)]
  }

  /** The as-written scan of claim 1 runs over columns 0 to 5 and finds the doubly claimed
      cell (1, 5), so part two as written answers `None`; the corrected scan answers 1. */
  lemma {:induction false} ScanBugExample(image: array2<int>)
    requires image.Length0 == Size && image.Length1 == Size
    requires forall a, b :: OnGrid(a, b) ==> image[a, b] == Cov(Stacked(), a, b)
    ensures ScanAsWritten(image, Stacked()[0]) == Some(false)
    ensures FirstCleanAsWritten(image, Stacked(), 0) == NoClaim
    ensures FirstClean(image, Stacked(), 0) == Id(1)
  {
    var st := Stacked();
    CovThree(st[0], st[1], st[2], 0, 5);
    CovThree(st[0], st[1], st[2], 1, 5);
    assert image[0, 5] == 1 && image[1, 5] == 2;
    assert ScanColumn(image, 1, 5, 6) == Some(false);
    assert ScanColumn(image, 0, 5, 6) == Some(true);
    assert Scan(image, 1, 6, 5, 6) == Some(false);
    assert ScanAsWritten(image, st[0]) == Some(false);
    assert ScanAsWritten(image, st[1]) == Some(false);
    assert ScanAsWritten(image, st[2]) == Some(false);
    assert FirstCleanAsWritten(image, st, 2) == NoClaim;
    assert Scan(image, 1, 1, 5, 6) == Some(true);
    assert ScanClaim(image, st[0]) == Some(true);
  }

  class Day03Solver {
    /** The grid painted by the last successful part one, `null` before. */
    var image: array2?<int>

    constructor()
      ensures image == null
    {
      image := null;
    }

    /** `SolvePartOne`: paint every claim onto a fresh zero grid, count the cells above 1,
        and keep the grid. Painting a cell off the grid raises, which leaves the cache alone. */
    method SolvePartOne(data: seq<Claim>) returns (r: Option<int>)
      modifies this
      ensures r.Some? <==> forall i :: 0 <= i < |data| ==> InGrid(data[i])
      ensures r.None? ==> image == old(image)
      ensures r.Some? ==> (image != null && fresh(image) &&
        image.Length0 == Size && image.Length1 == Size &&
        (forall a, b :: OnGrid(a, b) ==> image[a, b] == Cov(data, a, b)) &&
        r.value == |Overlapping(data)|)
    {
      var img := Paint(data);
      if img == null {
        return None;
      }
      var counter := CountOver(img);
      OverAll(img, data);
      image := img;
      return Some(counter);
    }

    /** The counting loops of part one: the cells above 1. */
    static method CountOver(img: array2<int>) returns (counter: int)
      requires img.Length0 == Size && img.Length1 == Size
      ensures counter == |Over(img, Size, 0)|
    {
      counter := 0;
      for x := 0 to Size
        invariant counter == |Over(img, x, 0)|
      {
        for y := 0 to Size
          invariant counter == |Over(img, x, y)|
        {
          OverStep(img, x, y);
          if img[x, y] > 1 {
            counter := counter + 1;
          }
        }
        OverWrap(img, x);
      }
    }

    /** The painting loops of part one, on a fresh grid; `null` where a pixel is off the grid. */
    static method Paint(data: seq<Claim>) returns (img: array2?<int>)
      ensures img == null <==> exists i :: 0 <= i < |data| && !InGrid(data[i])
      ensures img != null ==> (fresh(img) && img.Length0 == Size && img.Length1 == Size &&
        forall a, b :: OnGrid(a, b) ==> img[a, b] == Cov(data, a, b))
    {
      var grid := new int[Size, Size]((a, b) => 0);
      for k := 0 to |data|
        invariant forall j :: 0 <= j < k ==> InGrid(data[j])
        invariant forall a, b :: OnGrid(a, b) ==> grid[a, b] == Cov(data[..k], a, b)
      {
        var claim := data[k];
        assert Painted(grid, data[..k], claim, 0, 0);
        assert data[..k + 1][..k] == data[..k];
        var w := 0;
        while w < claim.w
          invariant 0 <= w && (w == 0 || w <= claim.w)
          invariant w > 0 && claim.h > 0 ==>
            0 <= claim.x && claim.x + w <= Size && 0 <= claim.y && claim.y + claim.h <= Size
          invariant Painted(grid, data[..k], claim, w, 0)
        {
          var h := 0;
          while h < claim.h
            invariant 0 <= h && (h == 0 || h <= claim.h)
            invariant h > 0 ==> 0 <= claim.x && claim.x + w < Size && 0 <= claim.y && claim.y + h <= Size
            invariant Painted(grid, data[..k], claim, w, h)
          {
            var x, y := w + claim.x, h + claim.y;
            if !OnGrid(x, y) {
              return null;
            }
            grid[x, y] := grid[x, y] + 1;
            h := h + 1;
          }
          NextColumn(grid, data[..k], claim, w, h);
          w := w + 1;
        }
        LastColumn(grid, data[..k], claim, w);
        assert data[..k + 1] == data[..k] + [claim];
      }
      assert data[..|data|] == data;
      return grid;
    }

    /** `CheckIfClaimIsClean` as written; see `ScanAsWritten`. */
    static method CheckIfClaimIsCleanAsWritten(image: array2<int>, claim: Claim) returns (r: Option<bool>)
      requires image.Length0 == Size && image.Length1 == Size
      ensures r == ScanAsWritten(image, claim)
    {
      r := ScanRect(image, claim.x, claim.w + claim.y, claim.y, claim.h + claim.y);
    }

    /** `CheckIfClaimIsClean` scanning the claim's own columns. */
    static method CheckIfClaimIsClean(image: array2<int>, claim: Claim) returns (r: Option<bool>)
      requires image.Length0 == Size && image.Length1 == Size
      ensures r == ScanClaim(image, claim)
    {
      r := ScanRect(image, claim.x, claim.x + claim.w, claim.y, claim.y + claim.h);
    }

    /** The two nested `for` loops of the check over columns `[x0, x1)` and rows `[y0, y1)`. */
    static method ScanRect(image: array2<int>, x0: int, x1: int, y0: int, y1: int) returns (r: Option<bool>)
      requires image.Length0 == Size && image.Length1 == Size
      ensures r == Scan(image, x0, x1, y0, y1)
    {
      var x := x0;
      while x < x1
        invariant x0 <= x || x1 <= x0
        invariant Scan(image, x0, x1, y0, y1) == (if x < x1 then Scan(image, x, x1, y0, y1) else Some(true)) || x1 <= x0
        invariant x1 <= x0 ==> x == x0
        decreases x1 - x
      {
        var y := y0;
        while y < y1
          invariant ScanColumn(image, x, y0, y1) == ScanColumn(image, x, y, y1) || y1 <= y0
          invariant y1 <= y0 ==> y == y0
          decreases y1 - y
        {
          if !OnGrid(x, y) {
            return None;
          }
          if image[x, y] > 1 {
            return Some(false);
          }
          y := y + 1;
        }
        x := x + 1;
      }
      return Some(true);
    }

    /** `SolvePartTwo`: part one's grid, computed first when there is none yet, then the id
        of the first claim that passes the check. The program runs the check as written
        (`AsWritten`); `Intended` runs the corrected one. */
    method SolvePartTwo(data: seq<Claim>, rule: Rule) returns (r: Answer)
      modifies this
      ensures old(image) != null ==> image == old(image)
      ensures old(image) == null && image != null ==> (fresh(image) &&
        image.Length0 == Size && image.Length1 == Size &&
        forall a, b :: OnGrid(a, b) ==> image[a, b] == Cov(data, a, b))
      ensures image != null && image.Length0 == Size && image.Length1 == Size ==>
        r == FirstCleanBy(rule, image, data, 0)
      ensures image == null || image.Length0 != Size || image.Length1 != Size ==> r == Raised
    {
      if image == null {
        var count := SolvePartOne(data);
        if count.None? {
          return Raised;
        }
      }
      var img := image;
      if img.Length0 != Size || img.Length1 != Size {
        return Raised;
      }
      for k := 0 to |data|
        invariant image == img
        invariant old(image) == null ==> forall a, b :: OnGrid(a, b) ==> img[a, b] == Cov(data, a, b)
        invariant FirstCleanBy(rule, img, data, 0) == FirstCleanBy(rule, img, data, k)
      {
        var clean;
        if rule == AsWritten {
          clean := CheckIfClaimIsCleanAsWritten(img, data[k]);
        } else {
          clean := CheckIfClaimIsClean(img, data[k]);
        }
        assert FirstCleanBy(rule, img, data, k) ==
          (match clean
           case None => Raised
           case Some(true) => Id(data[k].id)
           case Some(false) => FirstCleanBy(rule, img, data, k + 1));
        if clean.None? {
          return Raised;
        }
        if clean.value {
          return Id(data[k].id);
        }
      }
      return NoClaim;
    }
  }
}

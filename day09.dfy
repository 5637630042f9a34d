/** Day 9, the marble game: a circular list indexed modulo its length, and a one-turn
    transition of the game state. */
module Marbles {
  import opened Wrappers
  import opened Strings
  import opened Utils

  // ---------------------------------------------------------------------------
  // Circular indexing
  // ---------------------------------------------------------------------------

  /** Python's `index % len(self)` for a positive length: Dafny's `%` agrees with Python's
      floored `%` when the divisor is positive, also for negative indices. */
  function Wrap(index: int, n: int): (r: int)
    requires n > 0
    ensures 0 <= r < n
  {
    index % n
  }

  /** The wrapped index is the remainder of any division with a remainder in range. */
  lemma {:induction false} WrapUnique(index: int, n: int, q: int, r: int)
    requires n > 0 && 0 <= r < n && index == q * n + r
    ensures Wrap(index, n) == r
  {
    var q', r' := index / n, index % n;
    assert (q - q') * n == r' - r;
    if q > q' {
      MulAtLeast(q - q', n);
    } else if q < q' {
      MulAtLeast(q' - q, n);
    }
  }

  lemma {:induction false} MulAtLeast(k: int, n: int)
    requires k >= 1 && n > 0
    ensures k * n >= n
  {
  }

  /** Wrapping shifts by a whole turn of the circle are invisible. */
  lemma {:induction false} WrapTurn(index: int, n: int)
    requires n > 0
    ensures Wrap(index + n, n) == Wrap(index, n)
  {
    WrapUnique(index + n, n, index / n + 1, index % n);
  }

  /** An index already on the list wraps to itself. */
  lemma {:induction false} WrapInRange(index: int, n: int)
    requires 0 <= index < n
    ensures Wrap(index, n) == index
  {
  }

  /** `__getitem__` with a slice: from the wrapped start to the wrapped stop, and across the
      end of the list when the wrapped stop is not after the wrapped start. */
  function Slice<T>(items: seq<T>, start: int, stop: int): seq<T>
    requires |items| > 0
  {
    var s, t := Wrap(start, |items|), Wrap(stop, |items|);
    if t <= s then items[s..] + items[..t] else items[s..t]
  }

  /** A slice lists the items clockwise from the wrapped start: its `k`-th item is the one
      `k` places after the start, and it is as long as the clockwise distance to the
      wrapped stop (a whole turn when the two coincide). */
  lemma {:induction false} SliceClockwise<T>(items: seq<T>, start: int, stop: int)
    requires |items| > 0
    ensures var n, s, t := |items|, Wrap(start, |items|), Wrap(stop, |items|);
      |Slice(items, start, stop)| == (if t <= s then n - s + t else t - s) &&
      forall k :: 0 <= k < |Slice(items, start, stop)| ==>
        Slice(items, start, stop)[k] == items[Wrap(s + k, n)]
  {
    var n, s, t := |items|, Wrap(start, |items|), Wrap(stop, |items|);
    var r := Slice(items, start, stop);
    forall k | 0 <= k < |r|
      ensures r[k] == items[Wrap(s + k, n)]
    {
      if s + k < n {
        WrapInRange(s + k, n);
      } else {
        WrapTurn(s + k - n, n);
        WrapInRange(s + k - n, n);
      }
    }
  }

  /** `x` inserted before position `i`. */
  function InsertAt<T>(items: seq<T>, i: int, x: T): (r: seq<T>)
    requires 0 <= i <= |items|
    ensures |r| == |items| + 1 && r[i] == x
    ensures forall j :: 0 <= j < i ==> r[j] == items[j]
    ensures forall j :: i < j < |r| ==> r[j] == items[j - 1]
  {
    items[..i] + [x] + items[i..]
  }

  /** The item at `i` taken out. */
  function RemoveAt<T>(items: seq<T>, i: int): (r: seq<T>)
    requires 0 <= i < |items|
    ensures |r| == |items| - 1
    ensures forall j :: 0 <= j < i ==> r[j] == items[j]
    ensures forall j :: i <= j < |r| ==> r[j] == items[j + 1]
  {
    items[..i] + items[i + 1..]
  }

  /** Taking out the item just inserted gives back the list. */
  lemma {:induction false} RemoveInserted<T>(items: seq<T>, i: int, x: T)
    requires 0 <= i <= |items|
    ensures RemoveAt(InsertAt(items, i, x), i) == items
  {
  }

  /** `CircularList`: a list whose item access, insertion and removal wrap the index. */
  class CircularList<T> {
    var items: seq<T>

    constructor(xs: seq<T>)
      ensures items == xs
    {
      items := xs;
    }

    /** `__getitem__` with an integer. */
    function At(index: int): T
      requires |items| > 0
      reads this
    {
      items[Wrap(index, |items|)]
    }

    /** `__getitem__` with a slice. */
    function SliceOf(start: int, stop: int): seq<T>
      requires |items| > 0
      reads this
    {
      Slice(items, start, stop)
    }

    /** `__setitem__`: writes the wrapped position and only that one. */
    method Set(key: int, value: T)
      requires |items| > 0
      modifies this
      ensures items == old(items)[Wrap(key, |old(items)|) := value]
    {
      items := items[Wrap(key, |items|) := value];
    }

    /** `insert`: the item goes before the wrapped position, so an index equal to the
        length puts it at the front. */
    method Insert(index: int, x: T)
      requires |items| > 0
      modifies this
      ensures items == InsertAt(old(items), Wrap(index, |old(items)|), x)
    {
      items := InsertAt(items, Wrap(index, |items|), x);
    }

    /** `pop`: removes and returns the item at the wrapped position. */
    method Pop(index: int) returns (x: T)
      requires |items| > 0
      modifies this
      ensures x == old(items)[Wrap(index, |old(items)|)]
      ensures items == RemoveAt(old(items), Wrap(index, |old(items)|))
    {
      var i := Wrap(index, |items|);
      x := items[i];
      items := RemoveAt(items, i);
    }
  }

  // ---------------------------------------------------------------------------
  // The game
  // ---------------------------------------------------------------------------

  /** `Marble.hasRules`: the marble's number is a multiple of 23. */
  predicate HasRules(id: int) {
    id % 23 == 0
  }

  /** The game state as values: the `placed` flag of every marble (marble `i` is the
      `i`-th), the marbles on the playfield in list order, each player's score, and the
      three counters. */
  datatype Game = Game(placed: seq<bool>, playfield: seq<int>, scores: seq<int>,
                       currentPlayer: int, currentMarble: int, turn: int)

  /** `availableMarbles[0]`: the lowest-numbered marble not yet placed. */
  function FirstUnplaced(placed: seq<bool>): (r: Option<nat>)
    ensures r.Some? ==> r.value < |placed| && !placed[r.value] &&
                        forall i :: 0 <= i < r.value ==> placed[i]
    ensures r.None? ==> forall i :: 0 <= i < |placed| ==> placed[i]
    decreases |placed|
  {
    if |placed| == 0 then None
    else if !placed[0] then Some(0)
    else
      match FirstUnplaced(placed[1..])
      case None => None
      case Some(i) => Some(i + 1)
  }

  /** `update`, as written: the outcome (`Some(false)` when every marble is placed,
      `Some(true)` after a turn, `None` where an index is taken modulo an empty list) and
      the state after it. Marking the marble placed comes first, then the playfield, then
      the score, so a turn that raises keeps the changes made before the raise. */
  function Turn(g: Game): (Option<bool>, Game) {
    match FirstUnplaced(g.placed)
    case None => (Some(false), g)
    case Some(m) =>
      var placed := g.placed[m := true];
      if |g.playfield| == 0 then (None, g.(placed := placed))
      else if HasRules(m) then
        var i := Wrap(g.currentMarble - 7, |g.playfield|);
        var other := g.playfield[i];
        var field := RemoveAt(g.playfield, i);
        if |g.scores| == 0 then (None, g.(placed := placed, playfield := field))
        else
          var p := Wrap(g.currentPlayer, |g.scores|);
          (Some(true), Game(placed, field, g.scores[p := g.scores[p] + m + other],
                            g.currentPlayer + 1, g.currentMarble - 6, g.turn + 1))
      else
        var nextLoc := g.currentMarble + 1;
        (Some(true), Game(placed, InsertAt(g.playfield, Wrap(nextLoc, |g.playfield|), m),
                          g.scores, g.currentPlayer + 1, nextLoc, g.turn + 1))
  }

  /** The game is over exactly when every marble is placed, and then nothing changes. */
  lemma {:induction false} TurnOver(g: Game)
    ensures Turn(g).0 == Some(false) <==> forall i :: 0 <= i < |g.placed| ==> g.placed[i]
    ensures Turn(g).0 == Some(false) ==> Turn(g).1 == g
  {
  }

  /** Every other turn places the lowest-numbered unplaced marble and no other. */
  lemma {:induction false} TurnPlacesLowest(g: Game)
    requires exists i :: 0 <= i < |g.placed| && !g.placed[i]
    ensures var m := FirstUnplaced(g.placed).value;
      Turn(g).1.placed == g.placed[m := true] &&
      forall i :: 0 <= i < m ==> g.placed[i]
  {
  }

  /** A completed turn moves the player and the turn counter on by exactly one. */
  lemma {:induction false} TurnCounters(g: Game)
    requires Turn(g).0 == Some(true)
    ensures Turn(g).1.currentPlayer == g.currentPlayer + 1
    ensures Turn(g).1.turn == g.turn + 1
  {
  }

  /** A multiple of 23 is kept: the current player scores it plus the marble 7 places
      before the current one, which leaves the playfield, and the current index drops by 6. */
  lemma {:induction false} TurnScores(g: Game)
    requires Turn(g).0 == Some(true)
    requires HasRules(FirstUnplaced(g.placed).value)
    ensures var m, n, h := FirstUnplaced(g.placed).value, |g.playfield|, Turn(g).1;
      var i, p := Wrap(g.currentMarble - 7, n), Wrap(g.currentPlayer, |g.scores|);
      h.playfield == RemoveAt(g.playfield, i) && |h.playfield| == n - 1 &&
      h.scores == g.scores[p := g.scores[p] + m + g.playfield[i]] &&
      h.currentMarble == g.currentMarble - 6
  {
  }

  /** Any other marble goes into the playfield before position `currentMarble + 1`
      (wrapped), which becomes the current index; the scores do not change. */
  lemma {:induction false} TurnInserts(g: Game)
    requires Turn(g).0 == Some(true)
    requires !HasRules(FirstUnplaced(g.placed).value)
    ensures var m, n, h := FirstUnplaced(g.placed).value, |g.playfield|, Turn(g).1;
      var i := Wrap(g.currentMarble + 1, n);
      h.playfield == InsertAt(g.playfield, i, m) && |h.playfield| == n + 1 &&
      h.playfield[i] == m && h.scores == g.scores && h.currentMarble == g.currentMarble + 1
  {
  }

  /** When the current index is the last position, the new marble goes to the front. */
  lemma {:induction false} InsertAtEndGoesFront(g: Game)
    requires Turn(g).0 == Some(true)
    requires !HasRules(FirstUnplaced(g.placed).value)
    requires g.currentMarble == |g.playfield| - 1
    ensures Turn(g).1.playfield[0] == FirstUnplaced(g.placed).value
  {
    WrapTurn(0, |g.playfield|);
  }

  // ---------------------------------------------------------------------------
  // Marbles are neither made nor lost
  // ---------------------------------------------------------------------------

  /** The sum of the numbers of the placed marbles. */
  function PlacedSum(placed: seq<bool>): int
    decreases |placed|
  {
    if |placed| == 0 then 0
    else PlacedSum(placed[..|placed| - 1]) + (if placed[|placed| - 1] then |placed| - 1 else 0)
  }

  lemma {:induction false} SumRemove(s: seq<int>, i: int)
    requires 0 <= i < |s|
    ensures Sum(RemoveAt(s, i)) == Sum(s) - s[i]
  {
    var a, b := s[..i], s[i + 1..];
    calc {
      Sum(s);
      { assert s == (a + [s[i]]) + b; }
      Sum((a + [s[i]]) + b);
      { SumAppend(a + [s[i]], b); }
      Sum(a + [s[i]]) + Sum(b);
      { SumAppend(a, [s[i]]); SumOne(s[i]); }
      Sum(a) + s[i] + Sum(b);
      { SumAppend(a, b); }
      Sum(a + b) + s[i];
      { assert RemoveAt(s, i) == a + b; }
      Sum(RemoveAt(s, i)) + s[i];
    }
  }

  lemma {:induction false} SumInsert(s: seq<int>, i: int, x: int)
    requires 0 <= i <= |s|
    ensures Sum(InsertAt(s, i, x)) == Sum(s) + x
  {
    var a, b := s[..i], s[i..];
    calc {
      Sum(InsertAt(s, i, x));
      { assert InsertAt(s, i, x) == (a + [x]) + b; }
      Sum((a + [x]) + b);
      { SumAppend(a + [x], b); }
      Sum(a + [x]) + Sum(b);
      { SumAppend(a, [x]); SumOne(x); }
      Sum(a) + x + Sum(b);
      { SumAppend(a, b); }
      Sum(a + b) + x;
      { assert a + b == s; }
      Sum(s) + x;
    }
  }

  lemma {:induction false} SumUpdate(s: seq<int>, i: int, v: int)
    requires 0 <= i < |s|
    ensures Sum(s[i := v]) == Sum(s) - s[i] + v
  {
    var t := s[i := v];
    SumRemove(s, i);
    SumRemove(t, i);
    assert RemoveAt(t, i) == RemoveAt(s, i);
  }

  lemma {:induction false} PlacedSumSet(placed: seq<bool>, m: int)
    requires 0 <= m < |placed| && !placed[m]
    ensures PlacedSum(placed[m := true]) == PlacedSum(placed) + m
    decreases |placed|
  {
    var last := |placed| - 1;
    var q := placed[m := true];
    if m == last {
      assert q[..last] == placed[..last];
    } else {
      assert q[..last] == placed[..last][m := true];
      PlacedSumSet(placed[..last], m);
    }
  }

  /** What the playfield and the scores hold together is what was placed. */
  predicate Conserved(g: Game) {
    Sum(g.playfield) + Sum(g.scores) == PlacedSum(g.placed)
  }

  /** A completed turn keeps every placed marble's number either on the playfield or in
      a score. */
  lemma {:induction false} TurnConserves(g: Game)
    requires Conserved(g) && Turn(g).0 == Some(true)
    ensures Conserved(Turn(g).1)
  {
    var m := FirstUnplaced(g.placed).value;
    PlacedSumSet(g.placed, m);
    var n := |g.playfield|;
    if HasRules(m) {
      var i, p := Wrap(g.currentMarble - 7, n), Wrap(g.currentPlayer, |g.scores|);
      SumRemove(g.playfield, i);
      SumUpdate(g.scores, p, g.scores[p] + m + g.playfield[i]);
    } else {
      SumInsert(g.playfield, Wrap(g.currentMarble + 1, n), m);
    }
  }

  // ---------------------------------------------------------------------------
  // The state object
  // ---------------------------------------------------------------------------

  /** `MarbleGameState`. The `Marble` objects are their numbers (marble `i` is `placed[i]`),
      and each `Player` is its score in `players`. */
  class MarbleGameState {
    var marbleCount: int
    var placed: seq<bool>
    var playfield: CircularList<int>
    var playerCount: int
    var players: CircularList<int>
    var currentPlayer: int
    var currentMarble: int
    var turn: int

    /** The two lists are distinct objects. */
    predicate Valid()
      reads this
    {
      playfield != players
    }

    /** The state as a value. */
    function State(): Game
      reads this, playfield, players
    {
      Game(placed, playfield.items, players.items, currentPlayer, currentMarble, turn)
    }

    /** `MarbleGameState(marbleCount, playerCount)`: marbles 0 and 1 on the field,
        every player at score 0. Fewer than two marbles makes the constructor raise. */
    constructor(marbleCount: int, playerCount: int)
      requires marbleCount >= 2
      ensures Valid() && fresh(playfield) && fresh(players)
      ensures State() == Initial(marbleCount, playerCount)
      ensures this.marbleCount == marbleCount && this.playerCount == playerCount
    {
      this.marbleCount := marbleCount;
      var flags := seq(marbleCount, i => false);
      flags := flags[0 := true][1 := true];
      placed := flags;
      playfield := new CircularList([0, 1]);
      this.playerCount := playerCount;
      players := new CircularList(seq(if playerCount > 0 then playerCount else 0, i => 0));
      currentPlayer := 1;
      currentMarble := 1;
      turn := 0;
    }

    /** `update`: one turn, as `Turn` describes it. */
    method Update() returns (r: Option<bool>)
      requires Valid()
      modifies this, playfield, players
      ensures Valid() && playfield == old(playfield) && players == old(players)
      ensures marbleCount == old(marbleCount) && playerCount == old(playerCount)
      ensures (r, State()) == Turn(old(State()))
    {
      var next := FirstUnplaced(placed);
      if next.None? {
        return Some(false);
      }
      var m := next.value;
      placed := placed[m := true];
      if |playfield.items| == 0 {
        return None;
      }
      if HasRules(m) {
        var other := playfield.Pop(currentMarble - 7);
        if |players.items| == 0 {
          return None;
        }
        var score := players.At(currentPlayer);
        players.Set(currentPlayer, score + m + other);
        currentMarble := currentMarble - 6;
      } else {
        var nextLoc := currentMarble + 1;
        playfield.Insert(nextLoc, m);
        currentMarble := nextLoc;
      }
      currentPlayer := currentPlayer + 1;
      turn := turn + 1;
      return Some(true);
    }

    /** `getWinningScore`: the highest score, `None` with no players, where `max([])` raises. */
    function WinningScore(): (r: Option<int>)
      reads this, players
      ensures r.None? <==> |players.items| == 0
      ensures r.Some? ==> (exists i :: 0 <= i < |players.items| && players.items[i] == r.value) &&
                          forall i :: 0 <= i < |players.items| ==> players.items[i] <= r.value
    {
      if |players.items| == 0 then None else Some(Max(players.items))
    }
  }

  /** The state the constructor builds. */
  function Initial(marbleCount: int, playerCount: int): Game
    requires marbleCount >= 2
  {
    Game(seq(marbleCount, i => false)[0 := true][1 := true], [0, 1],
         seq(if playerCount > 0 then playerCount else 0, i => 0), 1, 1, 0)
  }

  /** The fresh game holds marbles 0 and 1 on the field and nothing in any score; the
      next marble is 2 when there is one. */
  lemma {:induction false} InitialConserved(marbleCount: int, playerCount: int)
    requires marbleCount >= 2
    ensures Conserved(Initial(marbleCount, playerCount))
    ensures marbleCount > 2 ==> FirstUnplaced(Initial(marbleCount, playerCount).placed) == Some(2)
    ensures marbleCount == 2 ==> Turn(Initial(marbleCount, playerCount)).0 == Some(false)
  {
    var g := Initial(marbleCount, playerCount);
    ZeroScores(if playerCount > 0 then playerCount else 0);
    if marbleCount > 2 {
      FirstUnplacedIs(g.placed, 2);
    }
    PlacedSumFirstTwo(marbleCount);
    assert Sum([0, 1]) == Sum([0]) + 1;
    assert Sum([0]) == Sum([]) + 0;
    assert [0, 1][..1] == [0];
  }

  lemma {:induction false} ZeroScores(n: nat)
    ensures Sum(seq(n, i => 0)) == 0
  {
    if n > 0 {
      assert seq(n, i => 0)[..n - 1] == seq(n - 1, i => 0);
      ZeroScores(n - 1);
    }
  }

  lemma {:induction false} PlacedSumFirstTwo(n: int)
    requires n >= 2
    ensures PlacedSum(seq(n, i => false)[0 := true][1 := true]) == 1
    decreases n
  {
    var p := seq(n, i => false)[0 := true][1 := true];
    if n == 2 {
      assert p == [true, true];
      assert p[..1] == [true];
      assert p[..1][..0] == [];
      assert PlacedSum(p[..1]) == PlacedSum([]) + 0;
      assert PlacedSum(p) == PlacedSum(p[..1]) + 1;
    } else {
      assert p[..n - 1] == seq(n - 1, i => false)[0 := true][1 := true];
      PlacedSumFirstTwo(n - 1);
    }
  }

  /** `max` of a non-empty list. */
  function Max(s: seq<int>): (m: int)
    requires |s| > 0
    ensures (exists i :: 0 <= i < |s| && s[i] == m) && forall i :: 0 <= i < |s| ==> s[i] <= m
    decreases |s|
  {
    if |s| == 1 then s[0]
    else
      var rest := Max(s[1..]);
      assert forall i :: 1 <= i < |s| ==> s[i] == s[1..][i - 1];
      if s[0] >= rest then s[0] else rest
  }

  // ---------------------------------------------------------------------------
  // Input
  // ---------------------------------------------------------------------------

  /** The player count (first word) and the marble count (second-to-last word) of the
      input's words, `None` where a word is missing, does not parse, or the marble count is
      below two, so that the constructor would raise. */
  function Header(tokens: seq<string>): (r: Option<(int, int)>)
    ensures r.Some? <==> |tokens| >= 2 && ParseInt(tokens[0]).Some? &&
                         ParseInt(tokens[|tokens| - 2]).Some? &&
                         ParseInt(tokens[|tokens| - 2]).value >= 2
    ensures r.Some? ==> r.value.0 == ParseInt(tokens[0]).value &&
                        r.value.1 == ParseInt(tokens[|tokens| - 2]).value
  {
    if |tokens| < 2 then None
    else
      var players := ParseInt(tokens[0]);
      var marbles := ParseInt(tokens[|tokens| - 2]);
      if players.None? || marbles.None? || marbles.value < 2 then None
      else Some((players.value, marbles.value))
  }

  /** `ProcessInput`: a fresh game for the header of the input's words, `null` where the
      header is missing or malformed. */
  method ProcessInput(data: string) returns (g: MarbleGameState?)
    ensures g == null <==> Header(SplitWs(data)).None?
    ensures g != null ==>
              fresh(g) && g.Valid() &&
              g.playerCount == Header(SplitWs(data)).value.0 &&
              g.marbleCount == Header(SplitWs(data)).value.1 &&
              g.State() == Initial(Header(SplitWs(data)).value.1, Header(SplitWs(data)).value.0)
  {
    var header := Header(SplitWs(data));
    if header.None? {
      return null;
    }
    g := new MarbleGameState(header.value.1, header.value.0);
  }

  // ---------------------------------------------------------------------------
  // The two turn rules against the puzzle's
  // ---------------------------------------------------------------------------

  /** The puzzle's turn: a marble goes between the marbles one and two places clockwise of
      the current one and becomes current; after a removal, the marble that followed the
      removed one becomes current. */
  function TurnIntended(g: Game): (Option<bool>, Game) {
    match FirstUnplaced(g.placed)
    case None => (Some(false), g)
    case Some(m) =>
      var placed := g.placed[m := true];
      if |g.playfield| == 0 then (None, g.(placed := placed))
      else if HasRules(m) then
        var i := Wrap(g.currentMarble - 7, |g.playfield|);
        var other := g.playfield[i];
        var field := RemoveAt(g.playfield, i);
        if |g.scores| == 0 then (None, g.(placed := placed, playfield := field))
        else
          var p := Wrap(g.currentPlayer, |g.scores|);
          (Some(true), Game(placed, field, g.scores[p := g.scores[p] + m + other],
                            g.currentPlayer + 1, i, g.turn + 1))
      else
        var loc := Wrap(g.currentMarble + 1, |g.playfield|) + 1;
        (Some(true), Game(placed, InsertAt(g.playfield, loc, m),
                          g.scores, g.currentPlayer + 1, loc, g.turn + 1))
  }

  /** Under the puzzle's rule the placed marble is current, right after the marble that
      was one place clockwise of the old current marble. */
  lemma {:induction false} IntendedInsertIsCurrent(g: Game)
    requires TurnIntended(g).0 == Some(true)
    requires !HasRules(FirstUnplaced(g.placed).value)
    ensures var h := TurnIntended(g).1;
      |h.playfield| > 0 &&
      h.playfield[Wrap(h.currentMarble, |h.playfield|)] == FirstUnplaced(g.placed).value &&
      h.playfield[Wrap(h.currentMarble - 1, |h.playfield|)] ==
        g.playfield[Wrap(g.currentMarble + 1, |g.playfield|)]
  {
    var h := TurnIntended(g).1;
    var loc := Wrap(g.currentMarble + 1, |g.playfield|) + 1;
    WrapInRange(loc, |h.playfield|);
    WrapInRange(loc - 1, |h.playfield|);
  }

  /** Under the puzzle's rule the new current marble is the one that followed the
      removed marble. */
  lemma {:induction false} IntendedRemovalCurrent(g: Game)
    requires TurnIntended(g).0 == Some(true)
    requires HasRules(FirstUnplaced(g.placed).value)
    requires |g.playfield| >= 2
    ensures var h, n := TurnIntended(g).1, |g.playfield|;
      h.playfield[Wrap(h.currentMarble, |h.playfield|)] ==
        g.playfield[Wrap(Wrap(g.currentMarble - 7, n) + 1, n)]
  {
    var h, n := TurnIntended(g).1, |g.playfield|;
    var i := Wrap(g.currentMarble - 7, n);
    if i + 1 < n {
      WrapInRange(i, n - 1);
      WrapInRange(i + 1, n);
    } else {
      assert i == n - 1;
      WrapTurn(0, n);
      WrapTurn(0, n - 1);
    }
  }

  /** The corrected turn keeps every placed marble's number on the playfield or in a
      score, as the turn as written does. */
  lemma {:induction false} IntendedConserves(g: Game)
    requires Conserved(g) && TurnIntended(g).0 == Some(true)
    ensures Conserved(TurnIntended(g).1)
  {
    if HasRules(FirstUnplaced(g.placed).value) {
      IntendedRemovalConserves(g);
    } else {
      IntendedInsertConserves(g);
    }
  }

  /** `IntendedConserves` for a turn that removes a marble. */
  lemma {:induction false} IntendedRemovalConserves(g: Game)
    requires Conserved(g) && TurnIntended(g).0 == Some(true)
    requires HasRules(FirstUnplaced(g.placed).value)
    ensures Conserved(TurnIntended(g).1)
  {
    var m := FirstUnplaced(g.placed).value;
    var h := TurnIntended(g).1;
    PlacedSumSet(g.placed, m);
    var i, p := Wrap(g.currentMarble - 7, |g.playfield|), Wrap(g.currentPlayer, |g.scores|);
    assert h.playfield == RemoveAt(g.playfield, i);
    assert h.scores == g.scores[p := g.scores[p] + m + g.playfield[i]];
    RemovalKeepsSum(g.playfield, g.scores, i, p, m);
  }

  /** `IntendedConserves` for a turn that inserts the marble. */
  lemma {:induction false} IntendedInsertConserves(g: Game)
    requires Conserved(g) && TurnIntended(g).0 == Some(true)
    requires !HasRules(FirstUnplaced(g.placed).value)
    ensures Conserved(TurnIntended(g).1)
  {
    var m := FirstUnplaced(g.placed).value;
    var h := TurnIntended(g).1;
    PlacedSumSet(g.placed, m);
    var loc := Wrap(g.currentMarble + 1, |g.playfield|) + 1;
    assert h.playfield == InsertAt(g.playfield, loc, m) && h.scores == g.scores;
    SumInsert(g.playfield, loc, m);
  }

  /** Taking a marble off the field and scoring it with the new one adds the new one's
      number to the total of field and scores. */
  lemma {:induction false} RemovalKeepsSum(field: seq<int>, scores: seq<int>, i: int, p: int, m: int)
    requires 0 <= i < |field| && 0 <= p < |scores|
    ensures Sum(RemoveAt(field, i)) + Sum(scores[p := scores[p] + m + field[i]]) ==
            Sum(field) + Sum(scores) + m
  {
    SumRemove(field, i);
    SumUpdate(scores, p, scores[p] + m + field[i]);
  }

  /** The second turn of a fresh game, as written: marble 2 goes to the front, and the
      current index then names marble 1, where the puzzle has 0 (2) 1. */
  lemma {:induction false} FirstTurnAsWritten()
    ensures var g := Initial(3, 9);
      Turn(g).1.playfield == [2, 0, 1] && Turn(g).1.currentMarble == 2 &&
      Turn(g).1.playfield[Wrap(2, 3)] == 1
    ensures TurnIntended(Initial(3, 9)).1.playfield == [0, 2, 1]
    ensures TurnIntended(Initial(3, 9)).1.currentMarble == 1
  {
    var g := Initial(3, 9);
    InitialConserved(3, 9);
    assert Wrap(2, 2) == 0;
    assert Wrap(1 + 1, 2) + 1 == 1;
  }

  /** A removal as written: on a playfield 0..8 with current index 8, marble 23 takes out
      marble 1 and the new current index names marble 3, not marble 2 that followed it. */
  lemma {:induction false} RemovalAsWritten()
    ensures var g := Game(seq(24, i => i < 23), [0, 1, 2, 3, 4, 5, 6, 7, 8], [0], 0, 8, 0);
      var h := Turn(g).1;
      h.playfield == [0, 2, 3, 4, 5, 6, 7, 8] && h.playfield[Wrap(h.currentMarble, 8)] == 3 &&
      TurnIntended(g).1.playfield[Wrap(TurnIntended(g).1.currentMarble, 8)] == 2
  {
    var g := Game(seq(24, i => i < 23), [0, 1, 2, 3, 4, 5, 6, 7, 8], [0], 0, 8, 0);
    assert FirstUnplaced(g.placed) == Some(23) by {
      assert forall i :: 0 <= i < 23 ==> g.placed[i];
      assert !g.placed[23];
      FirstUnplacedIs(g.placed, 23);
    }
    assert Wrap(8 - 7, 9) == 1;
    assert Wrap(2, 8) == 2 && Wrap(1, 8) == 1;
  }

  /** The lowest unplaced marble, told by its index. */
  lemma {:induction false} FirstUnplacedIs(placed: seq<bool>, m: nat)
    requires m < |placed| && !placed[m] && forall i :: 0 <= i < m ==> placed[i]
    ensures FirstUnplaced(placed) == Some(m)
  {
  }
}

/** Day 7: the sleigh instructions. Steps wait for other steps; they are done one at a time in
    alphabetical order of the ready ones, or by a pool of elves who each take a number of
    seconds per step. */
module Sleigh {
  import opened Wrappers
  import opened Strings

  // ---------------------------------------------------------------------
  // The step table as a value

  /** A step as the table holds it: its letter, the steps it waits for, the steps waiting for
      it, and its two flags. */
  datatype Node = Node(letter: string, predecessors: seq<string>, successors: seq<string>,
                       completed: bool, inProgress: bool)

  /** The table `{letter: Step}`. */
  type Graph = map<string, Node>

  /** `Step()`, what `defaultdict(Step)` puts in for a key it has not seen. */
  const Blank := Node("", [], [], false, false)

  /** `allFinished`: every step is completed. */
  predicate Finished(g: Graph) {
    forall k :: k in g ==> g[k].completed
  }

  /** A step that may start: not completed, not in progress, and every step it waits for is a
      completed step of the table. */
  predicate Available(g: Graph, k: string) {
    k in g && !g[k].completed && !g[k].inProgress
    && forall p :: p in g[k].predecessors ==> p in g && g[p].completed
  }

  /** The steps still to be completed. */
  function Pending(g: Graph): set<string> {
    set k | k in g && !g[k].completed
  }

  /** Every step a step waits for is in the table. */
  predicate Closed(g: Graph) {
    forall k, p :: k in g && p in g[k].predecessors ==> p in g
  }

  // ---------------------------------------------------------------------
  // ProcessInput

  /** An instruction `(a, b)`: step `a` must be finished before step `b` can begin. */
  type Edge = (string, string)

  /** One line split on spaces: `tokens[1]` is the step and `tokens[-3]` the step that waits for
      it; `None` for the IndexError of a line of fewer than three words. */
  function LineEdge(line: string): (r: Option<Edge>)
    ensures r.None? <==> |Split(line, " ")| < 3
    ensures r.Some? ==> r.value.0 in Split(line, " ") && r.value.1 in Split(line, " ")
  {
    var tokens := Split(line, " ");
    if |tokens| < 3 then None else Some((tokens[1], tokens[|tokens| - 3]))
  }

  /** The instructions of the lines, in order; `None` as soon as one line is too short. */
  function ParseEdges(lines: seq<string>): Option<seq<Edge>>
    decreases |lines|
  {
    if |lines| == 0 then Some([])
    else
      var init :- ParseEdges(lines[..|lines| - 1]);
      var e :- LineEdge(lines[|lines| - 1]);
      Some(init + [e])
  }

  /** `processed[k]` on the `defaultdict(Step)`. */
  function Get(g: Graph, k: string): Node {
    if k in g then g[k] else Blank
  }

  /** One pass of the reading loop: `processed[step].successors.append(successor)`, then
      `processed[successor].predecessors.append(step)`. */
  function Link(g: Graph, e: Edge): Graph {
    var h := g[e.0 := Get(g, e.0).(successors := Get(g, e.0).successors + [e.1])];
    h[e.1 := Get(h, e.1).(predecessors := Get(h, e.1).predecessors + [e.0])]
  }

  /** The table after the reading loop. */
  function Build(edges: seq<Edge>): Graph
    decreases |edges|
  {
    if |edges| == 0 then map[] else Link(Build(edges[..|edges| - 1]), edges[|edges| - 1])
  }

  /** The labelling loop: every step learns its own letter. */
  function Label(g: Graph): (r: Graph)
    ensures r.Keys == g.Keys
  {
    map k | k in g :: g[k].(letter := k)
  }

  /** `ProcessInput(data)`; `None` for the IndexError of a short line. */
  function Instructions(data: string): Option<Graph> {
    var edges :- ParseEdges(Split(data, "\n"));
    Some(Label(Build(edges)))
  }

  /** Reading fails exactly when some line is too short; otherwise each line gives its
      instruction, in order. */
  lemma {:induction false} ParseEdgesMeaning(lines: seq<string>)
    ensures ParseEdges(lines).Some? <==> forall i :: 0 <= i < |lines| ==> LineEdge(lines[i]).Some?
    ensures ParseEdges(lines).Some? ==>
              |ParseEdges(lines).value| == |lines|
              && forall i :: 0 <= i < |lines| ==> ParseEdges(lines).value[i] == LineEdge(lines[i]).value
    decreases |lines|
  {
    if |lines| > 0 {
      var n := |lines| - 1;
      ParseEdgesMeaning(lines[..n]);
      assert forall i :: 0 <= i < n ==> lines[..n][i] == lines[i];
    }
  }

  /** The line `Step a must be finished before step b can begin.` of the puzzle input. */
  function Sentence(e: Edge): string {
    Join(["Step", e.0, "must", "be", "finished", "before", "step", e.1, "can", "begin."], " ")
  }

  /** The puzzle input for a list of instructions, one line each. */
  function Text(edges: seq<Edge>): string {
    Join(seq(|edges|, i requires 0 <= i < |edges| => Sentence(edges[i])), "\n")
  }

  /** Steps named without whitespace. */
  predicate Plain(edges: seq<Edge>) {
    forall i :: 0 <= i < |edges| ==> NoSpace(edges[i].0) && NoSpace(edges[i].1)
  }

  /** An instruction line is read back as its two steps, and holds no line break. */
  lemma {:induction false} SentenceEdge(e: Edge)
    requires NoSpace(e.0) && NoSpace(e.1)
    ensures LineEdge(Sentence(e)) == Some(e) && '\n' !in Sentence(e)
  {
    var words := ["Step", e.0, "must", "be", "finished", "before", "step", e.1, "can", "begin."];
    NoSpaceLacks(e.0, ' ');
    NoSpaceLacks(e.1, ' ');
    NoSpaceLacks(e.0, '\n');
    NoSpaceLacks(e.1, '\n');
    SplitJoin(words, ' ');
    JoinLacks(words, " ", '\n');
  }

  /** Reading the puzzle input of a non-empty list of instructions gives back the list. */
  lemma {:induction false} TextEdges(edges: seq<Edge>)
    requires |edges| > 0 && Plain(edges)
    ensures ParseEdges(Split(Text(edges), "\n")) == Some(edges)
  {
    var lines := seq(|edges|, i requires 0 <= i < |edges| => Sentence(edges[i]));
    forall i | 0 <= i < |lines|
      ensures LineEdge(lines[i]) == Some(edges[i]) && '\n' !in lines[i]
    {
      SentenceEdge(edges[i]);
    }
    SplitJoin(lines, '\n');
    assert Split(Text(edges), "\n") == lines;
    ParseEdgesMeaning(lines);
    assert ParseEdges(lines).value == edges;
  }

  /** The steps the instructions name. */
  function Names(edges: seq<Edge>): set<string> {
    (set e | e in edges :: e.0) + (set e | e in edges :: e.1)
  }

  /** The steps `k` must wait for, in the order of the instructions. */
  function Preceding(edges: seq<Edge>, k: string): seq<string>
    decreases |edges|
  {
    if |edges| == 0 then []
    else
      var e := edges[|edges| - 1];
      Preceding(edges[..|edges| - 1], k) + (if e.1 == k then [e.0] else [])
  }

  /** The steps waiting for `k`, in the order of the instructions. */
  function Following(edges: seq<Edge>, k: string): seq<string>
    decreases |edges|
  {
    if |edges| == 0 then []
    else
      var e := edges[|edges| - 1];
      Following(edges[..|edges| - 1], k) + (if e.0 == k then [e.1] else [])
  }

  /** A step waits for exactly the steps an instruction puts before it. */
  lemma {:induction false} PrecedingMeaning(edges: seq<Edge>, k: string, p: string)
    ensures p in Preceding(edges, k) <==> (p, k) in edges
    decreases |edges|
  {
    if |edges| > 0 {
      var init := edges[..|edges| - 1];
      PrecedingMeaning(init, k, p);
      assert edges == init + [edges[|edges| - 1]];
    }
  }

  /** A step is waited for by exactly the steps an instruction puts after it. */
  lemma {:induction false} FollowingMeaning(edges: seq<Edge>, k: string, s: string)
    ensures s in Following(edges, k) <==> (k, s) in edges
    decreases |edges|
  {
    if |edges| > 0 {
      var init := edges[..|edges| - 1];
      FollowingMeaning(init, k, s);
      assert edges == init + [edges[|edges| - 1]];
    }
  }

  /** The reading loop puts in exactly the named steps. */
  lemma {:induction false} BuildKeys(edges: seq<Edge>)
    ensures Build(edges).Keys == Names(edges)
    decreases |edges|
  {
    if |edges| > 0 {
      var init, e := edges[..|edges| - 1], edges[|edges| - 1];
      BuildKeys(init);
      assert edges == init + [e];
      assert Names(edges) == Names(init) + {e.0, e.1};
    }
  }

  /** Each step of the reading loop's table lists the steps it waits for and the steps waiting
      for it in the order of the instructions, with no letter and both flags down. */
  lemma {:induction false} BuildNodes(edges: seq<Edge>)
    ensures forall k :: Get(Build(edges), k) == Node("", Preceding(edges, k), Following(edges, k), false, false)
    decreases |edges|
  {
    if |edges| > 0 {
      var init, e := edges[..|edges| - 1], edges[|edges| - 1];
      BuildNodes(init);
      var b := Build(init);
      var h := b[e.0 := Get(b, e.0).(successors := Get(b, e.0).successors + [e.1])];
      forall k
        ensures Get(Build(edges), k) == Node("", Preceding(edges, k), Following(edges, k), false, false)
      {
        assert Get(h, k) == if k == e.0 then Get(b, k).(successors := Get(b, k).successors + [e.1]) else Get(b, k);
      }
    }
  }

  /** `ProcessInput` in terms of the instructions of its lines. */
  lemma {:induction false} InstructionsMeaning(data: string)
    requires Instructions(data).Some?
    ensures var edges := ParseEdges(Split(data, "\n")).value;
      var g := Instructions(data).value;
      g.Keys == Names(edges)
      && forall k :: k in g ==> g[k] == Node(k, Preceding(edges, k), Following(edges, k), false, false)
  {
    var edges := ParseEdges(Split(data, "\n")).value;
    BuildKeys(edges);
    BuildNodes(edges);
    var g := Instructions(data).value;
    forall k | k in g
      ensures g[k] == Node(k, Preceding(edges, k), Following(edges, k), false, false)
    {
      assert Get(Build(edges), k) == Build(edges)[k];
    }
  }

  /** Every step a step of the table waits for is itself in the table. */
  lemma {:induction false} InstructionsClosed(data: string)
    requires Instructions(data).Some?
    ensures Closed(Instructions(data).value)
  {
    var edges := ParseEdges(Split(data, "\n")).value;
    InstructionsMeaning(data);
    var g := Instructions(data).value;
    forall k, p | k in g && p in g[k].predecessors
      ensures p in g
    {
      PrecedingMeaning(edges, k, p);
      var i :| 0 <= i < |edges| && edges[i] == (p, k);
      assert edges[i] in edges;
    }
  }

  // ---------------------------------------------------------------------
  // sorted() on strings

  /** Strictly increasing in Python's string order. */
  predicate Increasing(ks: seq<string>) {
    forall i, j :: 0 <= i < j < |ks| ==> StrLess(ks[i], ks[j])
  }

  /** The smallest string of a non-empty set. */
  ghost function Least(s: set<string>): (r: string)
    requires s != {}
    ensures r in s && forall t :: t in s && t != r ==> StrLess(r, t)
    decreases |s|
  {
    Inhabited(s);
    var x :| x in s;
    if s == {x} then x
    else
      var m := Least(s - {x});
      LeastOf(s, x, m);
      if StrLess(x, m) then x else m
  }

  lemma {:induction false} LeastOf(s: set<string>, x: string, m: string)
    requires x in s && m in s - {x} && forall t :: t in s - {x} && t != m ==> StrLess(m, t)
    ensures StrLess(x, m) ==> forall t :: t in s && t != x ==> StrLess(x, t)
    ensures !StrLess(x, m) ==> forall t :: t in s && t != m ==> StrLess(m, t)
  {
    StrLessTotal(x, m);
    forall t | t in s && t != x && t != m && StrLess(x, m)
      ensures StrLess(x, t)
    {
      StrLessTransitive(x, m, t);
    }
  }

  /** A member below all others is the smallest. */
  lemma {:induction false} LeastIs(s: set<string>, x: string)
    requires x in s && forall t :: t in s && t != x ==> StrLess(x, t)
    ensures Least(s) == x
  {
    var m := Least(s);
    if m != x {
      StrLessAsymmetric(x, m);
    }
  }

  // ---------------------------------------------------------------------
  // firstAvailable and part one

  /** The steps that may start. */
  function Ready(g: Graph): set<string> {
    set k | k in g && Available(g, k)
  }

  /** `firstAvailable`: the alphabetically first step that may start, `None` when there is none. */
  ghost function First(g: Graph): (r: Option<string>)
    ensures r.None? <==> forall k :: !Available(g, k)
    ensures r.Some? ==> Available(g, r.value)
    ensures r.Some? ==> forall k :: Available(g, k) && k != r.value ==> StrLess(r.value, k)
  {
    var ready := Ready(g);
    if ready == {} then
      assert forall k :: !Available(g, k) by {
        forall k | Available(g, k) ensures k in ready { }
      }
      None
    else Some(Least(ready))
  }

  /** `data[first].completed = True`. */
  function Complete(g: Graph, k: string): (r: Graph)
    requires k in g
    ensures r.Keys == g.Keys
  {
    g[k := g[k].(completed := true)]
  }

  lemma {:induction false} PendingShrinks(g: Graph, k: string)
    requires k in g && !g[k].completed
    ensures Pending(Complete(g, k)) == Pending(g) - {k} && |Pending(Complete(g, k))| < |Pending(g)|
  {
    assert Pending(Complete(g, k)) == Pending(g) - {k};
  }

  /** The loop of part one: while some step is not completed, complete the first available one
      (`None` for the exception when there is none, or when it is the falsy key `''`). */
  ghost function Serial(g: Graph): Option<seq<string>>
    decreases |Pending(g)|
  {
    if Finished(g) then Some([])
    else
      match First(g)
      case None => None
      case Some(k) =>
        if k == "" then None
        else
          PendingShrinks(g, k);
          var rest :- Serial(Complete(g, k));
          Some([k] + rest)
  }

  /** Part one: the steps in the order they are completed, joined. */
  ghost function PartOne(g: Graph): Option<string> {
    var order :- Serial(g);
    Some(Concat(order))
  }

  lemma {:induction false} PendingEmpty(g: Graph)
    ensures Pending(g) == {} <==> Finished(g)
  {
    if !Finished(g) {
      var k :| k in g && !g[k].completed;
      assert k in Pending(g);
    }
  }

  /** Part one completes every step not yet completed, each exactly once. */
  lemma {:induction false} SerialCovers(g: Graph)
    requires Serial(g).Some?
    ensures forall k :: k in Serial(g).value <==> k in Pending(g)
    ensures Distinct(Serial(g).value)
    decreases |Pending(g)|
  {
    PendingEmpty(g);
    if !Finished(g) {
      var k := First(g).value;
      PendingShrinks(g, k);
      SerialCovers(Complete(g, k));
      var rest := Serial(Complete(g, k)).value;
      assert Serial(g).value == [k] + rest;
    }
  }

  /** Part one completes a step only after every step it waits for: each is completed from the
      start or comes earlier in the order; and it never takes a step that is in progress. */
  lemma {:induction false} SerialTopological(g: Graph)
    requires Serial(g).Some?
    ensures var o := Serial(g).value;
      forall i :: 0 <= i < |o| ==>
        (o[i] in g && !g[o[i]].inProgress
         && forall p :: p in g[o[i]].predecessors ==> p in g && (g[p].completed || p in o[..i]))
    decreases |Pending(g)|
  {
    if !Finished(g) {
      var k := First(g).value;
      var h := Complete(g, k);
      PendingShrinks(g, k);
      SerialTopological(h);
      var rest := Serial(h).value;
      var o := Serial(g).value;
      assert o == [k] + rest;
      forall i | 0 <= i < |o|
        ensures o[i] in g && !g[o[i]].inProgress
        ensures forall p :: p in g[o[i]].predecessors ==> p in g && (g[p].completed || p in o[..i])
      {
        if i > 0 {
          assert o[i] == rest[i - 1] && o[..i] == [k] + rest[..i - 1];
          assert h[o[i]].predecessors == g[o[i]].predecessors;
        }
      }
    }
  }

  /** A topological rank: every step ranks above the steps it waits for, all of which are in
      the table. A table has one exactly when its steps form no cycle. */
  predicate Ranked(g: Graph, rank: map<string, nat>) {
    (forall k :: k in g ==> k in rank)
    && forall k, p :: k in g && p in g[k].predecessors ==> p in g && rank[p] < rank[k]
  }

  lemma {:induction false} MinRank(s: set<string>, rank: map<string, nat>) returns (k: string)
    requires s != {} && forall t :: t in s ==> t in rank
    ensures k in s && forall t :: t in s ==> t in rank && rank[k] <= rank[t]
    decreases |s|
  {
    Inhabited(s);
    var x :| x in s;
    if s == {x} {
      k := x;
    } else {
      var m := MinRank(s - {x}, rank);
      k := if rank[x] <= rank[m] then x else m;
    }
  }

  /** When the steps form no cycle and none is in progress, some step may start until all are
      completed: the waiting step of lowest rank. */
  lemma {:induction false} SomeReady(g: Graph, rank: map<string, nat>)
    requires Ranked(g, rank) && !Finished(g) && forall k :: k in g ==> !g[k].inProgress
    ensures First(g).Some?
  {
    PendingEmpty(g);
    var waiting := Pending(g);
    var low := MinRank(waiting, rank);
    forall p | p in g[low].predecessors
      ensures p in g && g[p].completed
    {
      assert p !in waiting;
    }
    assert Available(g, low);
  }

  /** Completing a step keeps the rank. */
  lemma {:induction false} RankedComplete(g: Graph, rank: map<string, nat>, k: string)
    requires Ranked(g, rank) && k in g
    ensures Ranked(Complete(g, k), rank)
  {
    var h := Complete(g, k);
    forall t, p | t in h && p in h[t].predecessors
      ensures p in h && rank[p] < rank[t]
    {
      assert h[t].predecessors == g[t].predecessors;
    }
  }

  /** When the steps form no cycle, none is in progress and none is the falsy `''`, part one
      never raises. */
  lemma {:induction false} SerialSucceeds(g: Graph, rank: map<string, nat>)
    requires Ranked(g, rank) && "" !in g && forall k :: k in g ==> !g[k].inProgress
    ensures Serial(g).Some?
    decreases |Pending(g)|
  {
    if !Finished(g) {
      SomeReady(g, rank);
      var k := First(g).value;
      PendingShrinks(g, k);
      RankedComplete(g, rank, k);
      SerialSucceeds(Complete(g, k), rank);
    }
  }

  // ---------------------------------------------------------------------
  // Elves and part two

  /** An elf as part two sees them: the step they hold (`''` when idle) and the seconds left. */
  datatype Worker = Worker(task: string, timer: int)

  /** `Elf.update`: one second less but never below 0; an elf whose timer is then 0 hands back
      the step they held, if any, and is idle. */
  function Tick(w: Worker): (r: (Option<string>, Worker))
  {
    var t := if w.timer - 1 > 0 then w.timer - 1 else 0;
    if t == 0 && w.task != "" then (Some(w.task), Worker("", t)) else (None, Worker(w.task, t))
  }

  /** An elf after `n` seconds. */
  function After(w: Worker, n: nat): Worker
    decreases n
  {
    if n == 0 then w else After(Tick(w).1, n - 1)
  }

  /** An elf given a step for `d` seconds holds it through `d - 1` updates, with the timer
      going down by one each time, and hands it back at update `d`. */
  lemma {:induction false} Countdown(w: Worker, n: nat)
    requires w.task != "" && n < w.timer
    ensures After(w, n) == Worker(w.task, w.timer - n)
    ensures Tick(After(w, n)).0 == if n == w.timer - 1 then Some(w.task) else None
    decreases n
  {
    if n > 0 {
      Countdown(w, n - 1);
      var v := After(w, n - 1);
      AfterSplit(w, n - 1, 1);
      assert After(w, n) == After(v, 1) == Tick(v).1;
    }
  }

  lemma {:induction false} AfterSplit(w: Worker, m: nat, n: nat)
    ensures After(w, m + n) == After(After(w, m), n)
    decreases m
  {
    if m > 0 {
      AfterSplit(Tick(w).1, m - 1, n);
    }
  }

  /** The elves with no step. */
  function Idle(ws: seq<Worker>): set<int> {
    set i | 0 <= i < |ws| && ws[i].task == ""
  }

  lemma {:induction false} IdleShrinks(ws: seq<Worker>, i: int, w: Worker)
    requires 0 <= i < |ws| && ws[i].task == "" && w.task != ""
    ensures Idle(ws[i := w]) == Idle(ws) - {i} && |Idle(ws[i := w])| < |Idle(ws)|
  {
    assert Idle(ws[i := w]) == Idle(ws) - {i};
  }

  /** `firstAvailableWorker`: the first idle elf, -1 when all are busy. */
  function FirstIdle(ws: seq<Worker>): (i: int)
    ensures -1 <= i < |ws|
    ensures i >= 0 ==> ws[i].task == "" && forall j :: 0 <= j < i ==> ws[j].task != ""
    ensures i == -1 <==> forall j :: 0 <= j < |ws| ==> ws[j].task != ""
  {
    if |ws| == 0 then -1
    else if ws[0].task == "" then 0
    else
      var i := FirstIdle(ws[1..]);
      assert forall j :: 1 <= j < |ws| ==> ws[j] == ws[1..][j - 1];
      if i == -1 then -1 else i + 1
  }

  /** `string.ascii_uppercase`. */
  function Uppercase(): (r: string)
    ensures |r| == 26 && forall i :: 0 <= i < 26 ==> r[i] == (65 + i) as char
  {
    seq(26, i requires 0 <= i < 26 => (65 + i) as char)
  }

  /** `getTaskTime`: where the step's name first occurs in the alphabet, plus `taskFactor + 1`;
      `None` for the ValueError of a name that is not a run of capital letters. */
  function TaskTime(task: string, factor: int): Option<int> {
    match Find(Uppercase(), task)
    case None => None
    case Some(i) => Some(i + factor + 1)
  }

  /** Step `A` takes `factor + 1` seconds, `B` one more, and so on up to `Z`. */
  lemma {:induction false} LetterTime(c: char, factor: int)
    requires 'A' <= c <= 'Z'
    ensures TaskTime([c], factor) == Some(c as int - 'A' as int + factor + 1)
  {
    var k := c as int - 'A' as int;
    LetterAt(c);
    NoLetterBefore(c);
    FindFirst(Uppercase(), [c], k);
  }

  lemma {:induction false} LetterAt(c: char)
    requires 'A' <= c <= 'Z'
    ensures OccursAt(Uppercase(), [c], c as int - 'A' as int)
  {
    var k := c as int - 'A' as int;
    assert Uppercase()[k..k + 1] == [c];
  }

  lemma {:induction false} NoLetterBefore(c: char)
    requires 'A' <= c <= 'Z'
    ensures forall j :: 0 <= j < c as int - 'A' as int ==> !OccursAt(Uppercase(), [c], j)
  {
    var letters := Uppercase();
    forall j | 0 <= j < c as int - 'A' as int
      ensures !OccursAt(letters, [c], j)
    {
      assert letters[j..j + 1][0] == letters[j];
    }
  }

  /** `data[completedTask].completed = True`, on a `defaultdict`. */
  function Mark(g: Graph, t: string): (r: Graph)
    ensures r.Keys == g.Keys + {t}
  {
    g[t := (if t in g then g[t] else Blank).(completed := true)]
  }

  /** The assignment loop of part two: while some elf is idle and some step may start, give the
      first step to the first idle elf and mark it in progress. `None` for the ValueError of
      `getTaskTime`. */
  ghost function AssignAll(g: Graph, ws: seq<Worker>, factor: int): Option<(Graph, seq<Worker>)>
    decreases |Idle(ws)|
  {
    var i := FirstIdle(ws);
    if i < 0 then Some((g, ws))
    else
      match First(g)
      case None => Some((g, ws))
      case Some(t) =>
        if t == "" then Some((g, ws))
        else
          match TaskTime(t, factor)
          case None => None
          case Some(d) =>
            IdleShrinks(ws, i, Worker(t, d));
            AssignAll(g[t := g[t].(inProgress := true)], ws[i := Worker(t, d)], factor)
  }

  /** What the assignment loop does with the first idle elf `i` and the first available step. */
  lemma {:induction false} AssignUnfold(g: Graph, ws: seq<Worker>, factor: int)
    requires FirstIdle(ws) >= 0
    ensures First(g).None? || First(g).value == "" ==> AssignAll(g, ws, factor) == Some((g, ws))
    ensures First(g).Some? && First(g).value != "" && TaskTime(First(g).value, factor).None? ==>
              AssignAll(g, ws, factor) == None
    ensures First(g).Some? && First(g).value != "" && TaskTime(First(g).value, factor).Some? ==>
              var t, i := First(g).value, FirstIdle(ws);
              var w := Worker(t, TaskTime(t, factor).value);
              t in g && AssignAll(g, ws, factor) == AssignAll(g[t := g[t].(inProgress := true)], ws[i := w], factor)
              && |Idle(ws[i := w])| < |Idle(ws)|
  {
    if First(g).Some? && First(g).value != "" && TaskTime(First(g).value, factor).Some? {
      var t, i := First(g).value, FirstIdle(ws);
      IdleShrinks(ws, i, Worker(t, TaskTime(t, factor).value));
    }
  }

  /** The update loop of part two: every elf in turn counts down, and a step handed back is
      marked completed. */
  function Advance(g: Graph, ws: seq<Worker>): (r: (Graph, seq<Worker>))
    ensures |r.1| == |ws|
    decreases |ws|
  {
    if |ws| == 0 then (g, [])
    else
      var tick := Tick(ws[0]);
      var g' := if tick.0.Some? then Mark(g, tick.0.value) else g;
      var rest := Advance(g', ws[1..]);
      (rest.0, [tick.1] + rest.1)
  }

  /** The outer loop of part two from second `time` on, for at most `fuel` more seconds: the
      second at which every step is completed, `None` if that takes longer or `getTaskTime`
      fails. */
  ghost function Timed(g: Graph, ws: seq<Worker>, factor: int, time: int, fuel: nat): Option<int>
    decreases fuel
  {
    if Finished(g) then Some(time)
    else if fuel == 0 then None
    else
      var started :- AssignAll(g, ws, factor);
      var next := Advance(started.0, started.1);
      Timed(next.0, next.1, factor, time + 1, fuel - 1)
  }

  /** `taskFactor` and `workerPoolSize`: 60 and 5 for a table of more than 10 steps, 0 and 2
      otherwise. */
  function Factor(g: Graph): (r: int)
    ensures r in {0, 60} && (r == 60 <==> |g| > 10)
  {
    if |g| > 10 then 60 else 0
  }

  function PoolSize(g: Graph): (r: nat)
    ensures r in {2, 5} && (r == 5 <==> |g| > 10)
  {
    if |g| > 10 then 5 else 2
  }

  /** `[Elf(i) for i in range(n)]`: `n` idle elves. */
  function Rested(n: nat): (r: seq<Worker>)
    ensures |r| == n && forall i :: 0 <= i < n ==> r[i] == Worker("", 0)
  {
    seq(n, i => Worker("", 0))
  }

  /** Part two, within `fuel` seconds. */
  ghost function PartTwo(g: Graph, fuel: nat): Option<int> {
    Timed(g, Rested(PoolSize(g)), Factor(g), 0, fuel)
  }

  /** The assignment loop leaves the steps and their flags as it found them, except that the
      steps it hands out are now in progress. */
  lemma {:induction false} AssignAllFrame(g: Graph, ws: seq<Worker>, factor: int)
    requires AssignAll(g, ws, factor).Some?
    ensures var r := AssignAll(g, ws, factor).value;
      |r.1| == |ws| && r.0.Keys == g.Keys
      && forall k :: k in g ==>
           (r.0[k].completed == g[k].completed && r.0[k].predecessors == g[k].predecessors
            && (g[k].inProgress ==> r.0[k].inProgress))
    decreases |Idle(ws)|
  {
    var i := FirstIdle(ws);
    if i >= 0 && First(g).Some? && First(g).value != "" {
      var t := First(g).value;
      var d := TaskTime(t, factor).value;
      IdleShrinks(ws, i, Worker(t, d));
      AssignAllFrame(g[t := g[t].(inProgress := true)], ws[i := Worker(t, d)], factor);
    }
  }

  /** Each step the assignment loop hands out could start: none of its predecessors was pending. */
  lemma {:induction false} AssignAllReady(g: Graph, ws: seq<Worker>, factor: int, k: string)
    requires AssignAll(g, ws, factor).Some?
    requires k in g && !g[k].inProgress
    requires var h := AssignAll(g, ws, factor).value.0; k in h && h[k].inProgress
    ensures Available(g, k)
    decreases |Idle(ws)|
  {
    var i := FirstIdle(ws);
    if i >= 0 && First(g).Some? && First(g).value != "" {
      var t := First(g).value;
      var d := TaskTime(t, factor).value;
      IdleShrinks(ws, i, Worker(t, d));
      var g' := g[t := g[t].(inProgress := true)];
      if k != t {
        AssignAllReady(g', ws[i := Worker(t, d)], factor, k);
        assert Available(g', k);
      }
    }
  }

  /** The assignment loop stops only when every elf is busy or no step can start. */
  lemma {:induction false} AssignAllStops(g: Graph, ws: seq<Worker>, factor: int)
    requires AssignAll(g, ws, factor).Some?
    ensures var r := AssignAll(g, ws, factor).value;
      FirstIdle(r.1) < 0 || First(r.0).None? || First(r.0).value == ""
    decreases |Idle(ws)|
  {
    var i := FirstIdle(ws);
    if i >= 0 && First(g).Some? && First(g).value != "" {
      var t := First(g).value;
      var d := TaskTime(t, factor).value;
      IdleShrinks(ws, i, Worker(t, d));
      AssignAllStops(g[t := g[t].(inProgress := true)], ws[i := Worker(t, d)], factor);
    }
  }

  /** The steps that elves hand back at their next update. */
  function Done(ws: seq<Worker>): set<string> {
    set i | 0 <= i < |ws| && Tick(ws[i]).0.Some? :: ws[i].task
  }

  /** Every step of `d` marked completed at once; a step missing from the table is added, as
      `defaultdict` does. */
  function MarkAll(g: Graph, d: set<string>): Graph {
    map k | k in g.Keys + d :: if k in d then (if k in g then g[k] else Blank).(completed := true) else g[k]
  }

  lemma {:induction false} DoneCons(ws: seq<Worker>)
    requires |ws| > 0
    ensures Done(ws) == Done(ws[1..]) + if Tick(ws[0]).0.Some? then {ws[0].task} else {}
  {
    assert forall i :: 1 <= i < |ws| ==> ws[i] == ws[1..][i - 1];
    forall t | t in Done(ws)
      ensures t in Done(ws[1..]) + if Tick(ws[0]).0.Some? then {ws[0].task} else {}
    {
      var i :| 0 <= i < |ws| && Tick(ws[i]).0.Some? && ws[i].task == t;
      if i > 0 {
        assert ws[1..][i - 1] == ws[i];
      }
    }
  }

  lemma {:induction false} MarkAllMark(g: Graph, t: string, d: set<string>)
    ensures MarkAll(Mark(g, t), d) == MarkAll(g, d + {t})
  {
  }

  /** The update loop, whatever the order of the elves: exactly the steps handed back are
      marked completed. */
  lemma {:induction false} AdvanceMarks(g: Graph, ws: seq<Worker>)
    ensures Advance(g, ws).0 == MarkAll(g, Done(ws))
    decreases |ws|
  {
    if |ws| == 0 {
      assert MarkAll(g, {}) == g;
    } else {
      var tick := Tick(ws[0]);
      var g' := if tick.0.Some? then Mark(g, tick.0.value) else g;
      assert Advance(g, ws).0 == Advance(g', ws[1..]).0;
      AdvanceMarks(g', ws[1..]);
      DoneCons(ws);
      if tick.0.Some? {
        MarkAllMark(g, tick.0.value, Done(ws[1..]));
      } else {
        assert Done(ws) == Done(ws[1..]);
      }
    }
  }

  /** The update loop counts every elf down once. */
  lemma {:induction false} AdvanceTicks(g: Graph, ws: seq<Worker>)
    ensures forall i :: 0 <= i < |ws| ==> Advance(g, ws).1[i] == Tick(ws[i]).1
    decreases |ws|
  {
    if |ws| > 0 {
      var tick := Tick(ws[0]);
      var g' := if tick.0.Some? then Mark(g, tick.0.value) else g;
      AdvanceTicks(g', ws[1..]);
      assert Advance(g, ws).1 == [tick.1] + Advance(g', ws[1..]).1;
      forall i | 0 < i < |ws|
        ensures Advance(g, ws).1[i] == Tick(ws[i]).1
      {
        assert ws[1..][i - 1] == ws[i];
      }
    }
  }

  /** An elf holding a step: the step is in the table, in progress and not completed, and time
      is left on the elf's timer. */
  predicate Holds(g: Graph, w: Worker) {
    w.task in g && g[w.task].inProgress && !g[w.task].completed && w.timer >= 1
  }

  /** The elves and the table agree: every busy elf holds their step, no two elves hold the same
      step, and every step in progress and not completed is held by some elf. */
  predicate Consistent(g: Graph, ws: seq<Worker>) {
    (forall i :: 0 <= i < |ws| && ws[i].task != "" ==> Holds(g, ws[i]))
    && (forall i, j :: 0 <= i < |ws| && 0 <= j < |ws| && i != j && ws[i].task != "" ==> ws[i].task != ws[j].task)
    && (forall k :: k in g && g[k].inProgress && !g[k].completed ==>
          k != "" && exists i :: 0 <= i < |ws| && ws[i].task == k)
  }

  /** Idle elves and a table with nothing in progress agree. */
  lemma {:induction false} RestedConsistent(g: Graph, n: nat)
    requires forall k :: k in g ==> !g[k].inProgress
    ensures Consistent(g, Rested(n))
  {
  }

  lemma {:induction false} AssignOneConsistent(g: Graph, ws: seq<Worker>, i: int, t: string, d: int)
    requires Consistent(g, ws) && 0 <= i < |ws| && ws[i].task == ""
    requires Available(g, t) && t != "" && d >= 1
    ensures Consistent(g[t := g[t].(inProgress := true)], ws[i := Worker(t, d)])
  {
    var g', ws' := g[t := g[t].(inProgress := true)], ws[i := Worker(t, d)];
    forall k | k in g' && g'[k].inProgress && !g'[k].completed
      ensures k != "" && exists j :: 0 <= j < |ws'| && ws'[j].task == k
    {
      if k == t {
        assert ws'[i].task == k;
      } else {
        var j :| 0 <= j < |ws| && ws[j].task == k;
        assert ws'[j].task == k;
      }
    }
  }

  /** The assignment loop keeps the elves and the table in agreement. */
  lemma {:induction false} AssignAllConsistent(g: Graph, ws: seq<Worker>, factor: int)
    requires factor >= 0 && Consistent(g, ws) && AssignAll(g, ws, factor).Some?
    ensures Consistent(AssignAll(g, ws, factor).value.0, AssignAll(g, ws, factor).value.1)
    decreases |Idle(ws)|
  {
    var i := FirstIdle(ws);
    if i >= 0 && First(g).Some? && First(g).value != "" {
      var t := First(g).value;
      var d := TaskTime(t, factor).value;
      IdleShrinks(ws, i, Worker(t, d));
      AssignOneConsistent(g, ws, i, t, d);
      AssignAllConsistent(g[t := g[t].(inProgress := true)], ws[i := Worker(t, d)], factor);
    }
  }

  /** With the elves and the table in agreement, the steps handed back are steps in progress
      and not yet completed, and a busy elf's step is among them just when that elf finishes. */
  lemma {:induction false} DoneHeld(g: Graph, ws: seq<Worker>)
    requires Consistent(g, ws)
    ensures forall k :: k in Done(ws) ==> k in g && g[k].inProgress && !g[k].completed
    ensures forall i :: (0 <= i < |ws| && ws[i].task != "") ==>
                        (ws[i].task in Done(ws) <==> Tick(ws[i]).0.Some?)
  {
    forall k | k in Done(ws)
      ensures k in g && g[k].inProgress && !g[k].completed
    {
      var i :| 0 <= i < |ws| && Tick(ws[i]).0.Some? && ws[i].task == k;
    }
    forall i | 0 <= i < |ws| && ws[i].task != "" && ws[i].task in Done(ws)
      ensures Tick(ws[i]).0.Some?
    {
      var j :| 0 <= j < |ws| && Tick(ws[j]).0.Some? && ws[j].task == ws[i].task;
      assert j == i;
    }
  }

  /** The update loop adds no step to a table that agrees with the elves, and completes exactly
      the steps handed back, each of which was in progress and not yet completed: a step is
      completed once. */
  lemma {:induction false} AdvanceCompletes(g: Graph, ws: seq<Worker>)
    requires Consistent(g, ws)
    ensures var h := Advance(g, ws).0;
      h.Keys == g.Keys
      && (forall k :: k in g ==>
            (h[k].completed == (g[k].completed || k in Done(ws))
             && h[k].inProgress == g[k].inProgress && h[k].predecessors == g[k].predecessors))
    ensures forall k :: k in Done(ws) ==> k in g && g[k].inProgress && !g[k].completed
  {
    AdvanceMarks(g, ws);
    DoneHeld(g, ws);
  }

  /** The update loop keeps the elves and the table in agreement. */
  lemma {:induction false} AdvanceConsistent(g: Graph, ws: seq<Worker>)
    requires Consistent(g, ws)
    ensures Consistent(Advance(g, ws).0, Advance(g, ws).1)
  {
    AdvanceCompletes(g, ws);
    AdvanceTicks(g, ws);
    DoneHeld(g, ws);
    var h, vs := Advance(g, ws).0, Advance(g, ws).1;
    forall i | 0 <= i < |vs| && vs[i].task != ""
      ensures ws[i].task == vs[i].task && Holds(h, vs[i])
    {
      assert Tick(ws[i]).0.None?;
    }
    forall i, j | 0 <= i < |vs| && 0 <= j < |vs| && i != j && vs[i].task != ""
      ensures vs[i].task != vs[j].task
    {
      assert ws[i].task == vs[i].task;
    }
    forall k | k in h && h[k].inProgress && !h[k].completed
      ensures k != "" && exists i :: 0 <= i < |vs| && vs[i].task == k
    {
      var i :| 0 <= i < |ws| && ws[i].task == k;
      assert vs[i].task == k;
    }
  }

  /** No step has started or been completed before all of its predecessors were completed. */
  predicate Ordered(g: Graph) {
    forall k, p :: k in g && (g[k].inProgress || g[k].completed) && p in g[k].predecessors ==>
      p in g && g[p].completed
  }

  lemma {:induction false} AssignAllOrdered(g: Graph, ws: seq<Worker>, factor: int)
    requires Ordered(g) && AssignAll(g, ws, factor).Some?
    ensures Ordered(AssignAll(g, ws, factor).value.0)
  {
    var h := AssignAll(g, ws, factor).value.0;
    AssignAllFrame(g, ws, factor);
    forall k, p | k in h && (h[k].inProgress || h[k].completed) && p in h[k].predecessors
      ensures p in h && h[p].completed
    {
      if !g[k].inProgress && !g[k].completed {
        AssignAllReady(g, ws, factor, k);
      }
    }
  }

  lemma {:induction false} AdvanceOrdered(g: Graph, ws: seq<Worker>)
    requires Consistent(g, ws) && Ordered(g)
    ensures Ordered(Advance(g, ws).0)
  {
    AdvanceCompletes(g, ws);
  }

  /** One second of part two, from a table and elves in agreement and in order, keeps them so;
      it adds no step and completes no step before its predecessors, and what was completed
      stays completed. */
  lemma {:induction false} RoundKeeps(g: Graph, ws: seq<Worker>, factor: int)
    requires factor >= 0 && Consistent(g, ws) && Ordered(g) && AssignAll(g, ws, factor).Some?
    ensures var a := AssignAll(g, ws, factor).value;
      var n := Advance(a.0, a.1);
      Consistent(n.0, n.1) && Ordered(n.0) && n.0.Keys == g.Keys && |n.1| == |ws|
      && forall k :: k in g ==> (g[k].completed ==> n.0[k].completed)
  {
    var a := AssignAll(g, ws, factor).value;
    AssignAllFrame(g, ws, factor);
    AssignAllConsistent(g, ws, factor);
    AssignAllOrdered(g, ws, factor);
    AdvanceCompletes(a.0, a.1);
    AdvanceConsistent(a.0, a.1);
    AdvanceOrdered(a.0, a.1);
  }

  // ---------------------------------------------------------------------
  // The worked example

  /** The table of `testDataPartOne`, which says that C comes before A and F, A before B and D,
      and B, D and F before E: every step with the steps put before it and after it. */
  const SampleTable: Graph := map[
    "A" := Node("A", ["C"], ["B", "D"], false, false),
    "B" := Node("B", ["A"], ["E"], false, false),
    "C" := Node("C", [], ["A", "F"], false, false),
    "D" := Node("D", ["A"], ["E"], false, false),
    "E" := Node("E", ["B", "D", "F"], [], false, false),
    "F" := Node("F", ["C"], ["E"], false, false)]

  /** The seven instructions of `testDataPartOne`, one per line of its text. */
  const SampleEdges: seq<Edge> :=
    [("C", "A"), ("C", "F"), ("A", "B"), ("A", "D"), ("B", "E"), ("D", "E"), ("F", "E")]

  /** Reading the puzzle input of a non-empty list of plain instructions gives the table the
      reading loop builds from them, each step labelled with its letter. */
  lemma {:induction false} InstructionsText(edges: seq<Edge>)
    requires |edges| > 0 && Plain(edges)
    ensures Instructions(Text(edges)) == Some(Label(Build(edges)))
  {
    TextEdges(edges);
  }

  /** The instructions of the example name their steps without whitespace. */
  lemma {:induction false} SamplePlain()
    ensures Plain(SampleEdges)
  {
    forall i | 0 <= i < |SampleEdges|
      ensures NoSpace(SampleEdges[i].0) && NoSpace(SampleEdges[i].1)
    {
      var a, b := SampleEdges[i].0, SampleEdges[i].1;
      assert |a| == 1 && |b| == 1 && !IsSpace(a[0]) && !IsSpace(b[0]);
    }
  }

  /** One more instruction adds its earlier step to those its later step waits for. */
  lemma {:induction false} PrecedingSnoc(edges: seq<Edge>, e: Edge, k: string)
    ensures Preceding(edges + [e], k) == Preceding(edges, k) + (if e.1 == k then [e.0] else [])
  {
    assert (edges + [e])[..|edges|] == edges;
  }

  /** One more instruction adds its later step to those waiting for its earlier step. */
  lemma {:induction false} FollowingSnoc(edges: seq<Edge>, e: Edge, k: string)
    ensures Following(edges + [e], k) == Following(edges, k) + (if e.0 == k then [e.1] else [])
  {
    assert (edges + [e])[..|edges|] == edges;
  }

  /** Every step of the example waits for the steps the instructions put before it and is
      waited for by those they put after it. */
  lemma {:induction false} SampleNeighbours(k: string)
    requires k in SampleTable
    ensures Preceding(SampleEdges, k) == SampleTable[k].predecessors
    ensures Following(SampleEdges, k) == SampleTable[k].successors
  {
    var e1: seq<Edge> := [("C", "A")];
    PrecedingSnoc([], ("C", "A"), k);
    FollowingSnoc([], ("C", "A"), k);
    var e2 := e1 + [("C", "F")];
    PrecedingSnoc(e1, ("C", "F"), k);
    FollowingSnoc(e1, ("C", "F"), k);
    var e3 := e2 + [("A", "B")];
    PrecedingSnoc(e2, ("A", "B"), k);
    FollowingSnoc(e2, ("A", "B"), k);
    var e4 := e3 + [("A", "D")];
    PrecedingSnoc(e3, ("A", "D"), k);
    FollowingSnoc(e3, ("A", "D"), k);
    var e5 := e4 + [("B", "E")];
    PrecedingSnoc(e4, ("B", "E"), k);
    FollowingSnoc(e4, ("B", "E"), k);
    var e6 := e5 + [("D", "E")];
    PrecedingSnoc(e5, ("D", "E"), k);
    FollowingSnoc(e5, ("D", "E"), k);
    var e7 := e6 + [("F", "E")];
    PrecedingSnoc(e6, ("F", "E"), k);
    FollowingSnoc(e6, ("F", "E"), k);
    assert e7 == SampleEdges;
  }

  /** The example's instructions name exactly the steps of the example table. */
  lemma {:induction false} SampleNames()
    ensures Names(SampleEdges) == SampleTable.Keys
  {
    var e := SampleEdges;
    assert e[0].0 == "C" && e[0].1 == "A" && e[1].1 == "F" && e[2].1 == "B" && e[3].1 == "D" && e[4].1 == "E";
  }

  /** The labelled table the reading loop builds is the one whose every step lists, in order,
      the steps the instructions put before it and after it. */
  lemma {:induction false} BuildTable(edges: seq<Edge>, t: Graph)
    requires Names(edges) == t.Keys
    requires forall k :: k in t ==> t[k] == Node(k, Preceding(edges, k), Following(edges, k), false, false)
    ensures Label(Build(edges)) == t
  {
    BuildKeys(edges);
    BuildNodes(edges);
    var g := Label(Build(edges));
    forall k | k in g
      ensures g[k] == t[k]
    {
      assert Get(Build(edges), k) == Build(edges)[k];
    }
  }

  /** The reading loop on the example's instructions builds the example table. */
  lemma {:induction false} SampleBuild()
    ensures Label(Build(SampleEdges)) == SampleTable
  {
    SampleNames();
    forall k | k in SampleTable
      ensures SampleTable[k] == Node(k, Preceding(SampleEdges, k), Following(SampleEdges, k), false, false)
    {
      SampleNeighbours(k);
    }
    BuildTable(SampleEdges, SampleTable);
  }

  /** Reading the example's text gives the example table. */
  lemma {:induction false} SampleInstructions()
    ensures Instructions(Text(SampleEdges)) == Some(SampleTable)
  {
    SamplePlain();
    InstructionsText(SampleEdges);
    SampleBuild();
  }

  /** The first available step, when it comes before every other available one. */
  lemma {:induction false} FirstIs(g: Graph, x: string)
    requires Available(g, x) && forall k :: Available(g, k) ==> k == x || StrLess(x, k)
    ensures First(g) == Some(x)
  {
    var y := First(g).value;
    if y != x {
      StrLessAsymmetric(x, y);
    }
  }

  /** The order part one finds on the example. */
  const SampleSteps := ["C", "A", "B", "D", "F", "E"]

  /** The example table once its first steps in the order C, A, B, D, F, E are completed. */
  const Sample1 := Complete(SampleTable, "C")
  const Sample2 := Complete(Sample1, "A")
  const Sample3 := Complete(Sample2, "B")
  const Sample4 := Complete(Sample3, "D")
  const Sample5 := Complete(Sample4, "F")
  const Sample6 := Complete(Sample5, "E")

  lemma {:induction false} SampleFirst0()
    ensures First(SampleTable) == Some("C")
  {
    var g := SampleTable;
    forall k | k in g
      ensures Available(g, k) ==> k == "C" || StrLess("C", k)
    {
      if k == "A" {
        assert "C" in g[k].predecessors && !g["C"].completed;
      }
      if k == "B" {
        assert "A" in g[k].predecessors && !g["A"].completed;
      }
      if k == "D" {
        assert "A" in g[k].predecessors && !g["A"].completed;
      }
      if k == "E" {
        assert "B" in g[k].predecessors && !g["B"].completed;
      }
      if k == "F" {
        assert "C" in g[k].predecessors && !g["C"].completed;
      }
    }
    FirstIs(g, "C");
  }

  lemma {:induction false} SampleFirst1()
    ensures First(Sample1) == Some("A")
  {
    var g := Sample1;
    forall k | k in g
      ensures Available(g, k) ==> k == "A" || StrLess("A", k)
    {
      if k == "B" {
        assert "A" in g[k].predecessors && !g["A"].completed;
      }
      if k == "C" {
        assert g[k].completed;
      }
      if k == "D" {
        assert "A" in g[k].predecessors && !g["A"].completed;
      }
      if k == "E" {
        assert "B" in g[k].predecessors && !g["B"].completed;
      }
    }
    FirstIs(g, "A");
  }

  lemma {:induction false} SampleFirst2()
    ensures First(Sample2) == Some("B")
  {
    var g := Sample2;
    forall k | k in g
      ensures Available(g, k) ==> k == "B" || StrLess("B", k)
    {
      if k == "A" {
        assert g[k].completed;
      }
      if k == "C" {
        assert g[k].completed;
      }
      if k == "E" {
        assert "B" in g[k].predecessors && !g["B"].completed;
      }
    }
    FirstIs(g, "B");
  }

  lemma {:induction false} SampleFirst3()
    ensures First(Sample3) == Some("D")
  {
    var g := Sample3;
    forall k | k in g
      ensures Available(g, k) ==> k == "D" || StrLess("D", k)
    {
      if k == "A" {
        assert g[k].completed;
      }
      if k == "B" {
        assert g[k].completed;
      }
      if k == "C" {
        assert g[k].completed;
      }
      if k == "E" {
        assert "D" in g[k].predecessors && !g["D"].completed;
      }
    }
    FirstIs(g, "D");
  }

  lemma {:induction false} SampleFirst4()
    ensures First(Sample4) == Some("F")
  {
    var g := Sample4;
    forall k | k in g
      ensures Available(g, k) ==> k == "F" || StrLess("F", k)
    {
      if k == "A" {
        assert g[k].completed;
      }
      if k == "B" {
        assert g[k].completed;
      }
      if k == "C" {
        assert g[k].completed;
      }
      if k == "D" {
        assert g[k].completed;
      }
      if k == "E" {
        assert "F" in g[k].predecessors && !g["F"].completed;
      }
    }
    FirstIs(g, "F");
  }

  lemma {:induction false} SampleFirst5()
    ensures First(Sample5) == Some("E")
  {
    var g := Sample5;
    forall k | k in g
      ensures Available(g, k) ==> k == "E" || StrLess("E", k)
    {
      if k == "A" {
        assert g[k].completed;
      }
      if k == "B" {
        assert g[k].completed;
      }
      if k == "C" {
        assert g[k].completed;
      }
      if k == "D" {
        assert g[k].completed;
      }
      if k == "F" {
        assert g[k].completed;
      }
    }
    FirstIs(g, "E");
  }

  /** One step of part one on a table whose first available step is `k`. */
  lemma {:induction false} SerialFirst(g: Graph, k: string, rest: seq<string>)
    requires First(g) == Some(k) && k != "" && !g[k].completed && Serial(Complete(g, k)) == Some(rest)
    ensures Serial(g) == Some([k] + rest)
  {
    PendingShrinks(g, k);
  }

  lemma {:induction false} SampleSerial5()
    ensures Serial(Sample5) == Some(SampleSteps[5..])
  {
    assert Finished(Sample6);
    SampleFirst5();
    assert Sample6 == Complete(Sample5, "E");
    assert SampleSteps[5..] == [SampleSteps[5]] + SampleSteps[6..];
    SerialFirst(Sample5, "E", SampleSteps[6..]);
  }

  lemma {:induction false} SampleSerial4()
    ensures Serial(Sample4) == Some(SampleSteps[4..])
  {
    SampleSerial5();
    SampleFirst4();
    assert Sample5 == Complete(Sample4, "F");
    assert SampleSteps[4..] == [SampleSteps[4]] + SampleSteps[5..];
    SerialFirst(Sample4, "F", SampleSteps[5..]);
  }

  lemma {:induction false} SampleSerial3()
    ensures Serial(Sample3) == Some(SampleSteps[3..])
  {
    SampleSerial4();
    SampleFirst3();
    assert Sample4 == Complete(Sample3, "D");
    assert SampleSteps[3..] == [SampleSteps[3]] + SampleSteps[4..];
    SerialFirst(Sample3, "D", SampleSteps[4..]);
  }

  lemma {:induction false} SampleSerial2()
    ensures Serial(Sample2) == Some(SampleSteps[2..])
  {
    SampleSerial3();
    SampleFirst2();
    assert Sample3 == Complete(Sample2, "B");
    assert SampleSteps[2..] == [SampleSteps[2]] + SampleSteps[3..];
    SerialFirst(Sample2, "B", SampleSteps[3..]);
  }

  lemma {:induction false} SampleSerial1()
    ensures Serial(Sample1) == Some(SampleSteps[1..])
  {
    SampleSerial2();
    SampleFirst1();
    assert Sample2 == Complete(Sample1, "A");
    assert SampleSteps[1..] == [SampleSteps[1]] + SampleSteps[2..];
    SerialFirst(Sample1, "A", SampleSteps[2..]);
  }

  lemma {:induction false} SampleSerial0()
    ensures Serial(SampleTable) == Some(SampleSteps[0..])
  {
    SampleSerial1();
    SampleFirst0();
    assert Sample1 == Complete(SampleTable, "C");
    assert SampleSteps[0..] == [SampleSteps[0]] + SampleSteps[1..];
    SerialFirst(SampleTable, "C", SampleSteps[1..]);
  }

  lemma {:induction false} SampleAnswer()
    ensures Concat(SampleSteps) == "CABDFE"
  {
  }

  /** Part one on the example: the steps are done in the order C, A, B, D, F, E. */
  lemma {:induction false} SamplePartOne()
    ensures PartOne(SampleTable) == Some("CABDFE")
  {
    SampleSerial0();
    assert SampleSteps[0..] == SampleSteps;
    SampleAnswer();
  }

  /** A table of the single step A. */
  const Solo: Graph := map["A" := Node("A", [], [], false, false)]

  const SoloStarted: Graph := map["A" := Node("A", [], [], false, true)]

  lemma {:induction false} SoloAssign()
    ensures AssignAll(Solo, Rested(2), 0) == Some((SoloStarted, [Worker("A", 1), Worker("", 0)]))
  {
    var ws := Rested(2);
    assert ws == [Worker("", 0), Worker("", 0)];
    FirstIs(Solo, "A");
    LetterTime('A', 0);
    assert ['A'] == "A";
    var ws1 := ws[0 := Worker("A", 1)];
    assert Solo["A" := Solo["A"].(inProgress := true)] == SoloStarted;
    assert FirstIdle(ws) == 0 && TaskTime("A", 0) == Some(1);
    AssignUnfold(Solo, ws, 0);
    assert AssignAll(Solo, ws, 0) == AssignAll(SoloStarted, ws1, 0);
    assert FirstIdle(ws1) == 1;
    assert forall k :: !Available(SoloStarted, k);
    assert First(SoloStarted).None?;
    AssignUnfold(SoloStarted, ws1, 0);
    assert ws1 == [Worker("A", 1), Worker("", 0)];
  }

  lemma {:induction false} SoloAdvance()
    ensures Advance(SoloStarted, [Worker("A", 1), Worker("", 0)]).0 == Mark(SoloStarted, "A")
  {
    var ws := [Worker("A", 1), Worker("", 0)];
    assert Tick(ws[0]) == (Some("A"), Worker("", 0));
    assert ws[1..] == [Worker("", 0)] && ws[1..][1..] == [];
    assert Tick(ws[1..][0]) == (None, Worker("", 0));
  }

  /** Part two on it: the first elf spends one second on A, which is then completed. */
  lemma {:induction false} SoloPartTwo()
    ensures PartTwo(Solo, 1) == Some(1)
  {
    SoloAssign();
    SoloAdvance();
    assert Finished(Mark(SoloStarted, "A"));
  }

  /** Idle elves hand nothing back and stay idle. */
  lemma {:induction false} RestedAdvance(g: Graph, n: nat)
    ensures Advance(g, Rested(n)) == (g, Rested(n))
  {
    if n > 0 {
      RestedAdvance(g, n - 1);
      assert Rested(n)[1..] == Rested(n - 1);
      assert Rested(n) == [Worker("", 0)] + Rested(n - 1);
    }
  }

  /** Two steps that wait for each other. */
  const Knot: Graph := map["A" := Node("A", ["B"], ["B"], false, false), "B" := Node("B", ["A"], ["A"], false, false)]

  /** Part one on it finds nothing available while steps remain: the "something has gone wrong"
      exception. */
  lemma {:induction false} KnotPartOne()
    ensures PartOne(Knot) == None
  {
    assert !Knot["A"].completed;
    KnotBlocked();
  }

  lemma {:induction false} KnotBlocked()
    ensures forall k :: !Available(Knot, k)
  {
    forall k | k in Knot
      ensures !Available(Knot, k)
    {
      if k == "A" {
        assert "B" in Knot[k].predecessors;
      } else {
        assert "A" in Knot[k].predecessors;
      }
    }
  }

  /** Part two on it never finishes: the elves stay idle however long the loop runs. */
  lemma {:induction false} KnotStalls(time: int, fuel: nat)
    ensures Timed(Knot, Rested(2), 0, time, fuel) == None
    decreases fuel
  {
    var ws := Rested(2);
    assert ws == [Worker("", 0), Worker("", 0)];
    assert !Knot["A"].completed;
    if fuel > 0 {
      KnotBlocked();
      AssignUnfold(Knot, ws, 0);
      RestedAdvance(Knot, 2);
      KnotStalls(time + 1, fuel - 1);
    }
  }

  lemma {:induction false} KnotPartTwo(fuel: nat)
    ensures PartTwo(Knot, fuel) == None
  {
    KnotStalls(0, fuel);
  }
}

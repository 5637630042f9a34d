/** Day 7 as the program runs it: `Step` and `Elf` objects whose flags, tasks and timers are
    updated in place, and the solver's loops over them, each proved to compute what the value
    model in module `Sleigh` describes. */
module SleighObjects {
  import opened Wrappers
  import opened Strings
  import opened Sleigh

  /** A step of the sleigh instructions. */
  class Step {
    var letter: string
    var predecessors: seq<string>
    var successors: seq<string>
    var completed: bool
    var inProgress: bool

    /** `Step(letter, successor, predecessor)`; a falsy `''` successor or predecessor is not
        listed. */
    constructor (letter: string, successor: string, predecessor: string)
      ensures Value() == Node(letter, if predecessor != "" then [predecessor] else [],
                              if successor != "" then [successor] else [], false, false)
    {
      this.letter := letter;
      predecessors := if predecessor != "" then [predecessor] else [];
      successors := if successor != "" then [successor] else [];
      completed := false;
      inProgress := false;
    }

    /** The step's fields as a value. */
    function Value(): Node
      reads this
    {
      Node(letter, predecessors, successors, completed, inProgress)
    }
  }

  /** The table of steps as a value. */
  ghost function View(data: map<string, Step>): (g: Graph)
    reads data.Values
    ensures g.Keys == data.Keys
  {
    map k | k in data :: data[k].Value()
  }

  /** `g` is the table of steps as it stands, and every predecessor it names is one of its
      steps. */
  ghost predicate Mirrors(data: map<string, Step>, g: Graph)
    reads data.Values
  {
    g == View(data) && Closed(g)
  }

  /** No two keys share one `Step` object. */
  ghost predicate Separate(data: map<string, Step>) {
    forall a, b :: a in data && b in data && a != b ==> data[a] != data[b]
  }

  /** Every key of `data` is still in `data'`, under the same step object: the `defaultdict`
      only ever gains keys. */
  ghost predicate Keeps(data: map<string, Step>, data': map<string, Step>) {
    forall k :: k in data ==> k in data' && data'[k] == data[k]
  }

  lemma {:induction false} KeepsTrans(a: map<string, Step>, b: map<string, Step>, c: map<string, Step>)
    requires Keeps(a, b) && Keeps(b, c)
    ensures Keeps(a, c)
  {
  }

  /** When every step of a table that kept `data`'s steps is completed, so is every step
      of `data`. */
  lemma {:induction false} FinishedKept(data: map<string, Step>, table: map<string, Step>)
    requires Keeps(data, table) && Finished(View(table))
    ensures Finished(View(data))
  {
    forall k | k in View(data)
      ensures View(data)[k].completed
    {
      assert View(table)[k] == table[k].Value();
    }
  }

  /** `processed[k]` on the `defaultdict(Step)`: the step under `k`, a fresh `Step()` put in
      when there is none. */
  method Touch(processed: map<string, Step>, k: string, ghost g: Graph) returns (processed': map<string, Step>)
    requires g == View(processed) && Separate(processed)
    ensures k in processed' && View(processed') == g[k := Get(g, k)] && Separate(processed')
    ensures forall s :: s in processed'.Values ==> s in processed.Values || fresh(s)
  {
    processed' := processed;
    if k !in processed {
      var step := new Step("", "", "");
      processed' := processed[k := step];
      forall j | j in processed'
        ensures View(processed')[j] == g[k := Get(g, k)][j]
      {
        if j != k {
          assert processed'[j] == processed[j];
        }
      }
    }
  }

  /** `processed[a].successors.append(b)` on the `defaultdict(Step)`: only that step changes. */
  method AddSuccessor(processed: map<string, Step>, a: string, b: string, ghost g: Graph)
      returns (processed': map<string, Step>)
    requires g == View(processed) && Separate(processed)
    modifies processed.Values
    ensures View(processed') == g[a := Get(g, a).(successors := Get(g, a).successors + [b])]
    ensures Separate(processed') && forall s :: s in processed'.Values ==> s in processed.Values || fresh(s)
  {
    processed' := Touch(processed, a, g);
    AppendSuccessor(processed', a, b, g[a := Get(g, a)]);
  }

  method AppendSuccessor(processed: map<string, Step>, a: string, b: string, ghost g: Graph)
    requires g == View(processed) && Separate(processed) && a in processed
    modifies processed[a]
    ensures View(processed) == g[a := g[a].(successors := g[a].successors + [b])]
  {
    processed[a].successors := processed[a].successors + [b];
    assert forall j :: j in processed && j != a ==> processed[j] != processed[a];
  }

  /** `processed[b].predecessors.append(a)` on the `defaultdict(Step)`: only that step changes. */
  method AddPredecessor(processed: map<string, Step>, b: string, a: string, ghost g: Graph)
      returns (processed': map<string, Step>)
    requires g == View(processed) && Separate(processed)
    modifies processed.Values
    ensures View(processed') == g[b := Get(g, b).(predecessors := Get(g, b).predecessors + [a])]
    ensures Separate(processed') && forall s :: s in processed'.Values ==> s in processed.Values || fresh(s)
  {
    processed' := Touch(processed, b, g);
    AppendPredecessor(processed', b, a, g[b := Get(g, b)]);
  }

  method AppendPredecessor(processed: map<string, Step>, b: string, a: string, ghost g: Graph)
    requires g == View(processed) && Separate(processed) && b in processed
    modifies processed[b]
    ensures View(processed) == g[b := g[b].(predecessors := g[b].predecessors + [a])]
  {
    processed[b].predecessors := processed[b].predecessors + [a];
    assert forall j :: j in processed && j != b ==> processed[j] != processed[b];
  }

  /** One pass of the reading loop, for the instruction `e`. */
  method LinkEdge(processed: map<string, Step>, e: Edge, ghost g: Graph) returns (processed': map<string, Step>)
    requires g == View(processed) && Separate(processed)
    modifies processed.Values
    ensures View(processed') == Link(g, e) && Separate(processed')
    ensures forall s :: s in processed'.Values ==> s in processed.Values || fresh(s)
  {
    var first := AddSuccessor(processed, e.0, e.1, g);
    processed' := AddPredecessor(first, e.1, e.0, View(first));
  }

  /** The table part way through the labelling loop: the steps of `rest` still lack a letter. */
  function Labelled(g: Graph, rest: set<string>): Graph {
    map j | j in g :: if j in rest then g[j] else g[j].(letter := j)
  }

  lemma {:induction false} LabelStep(g: Graph, rest: set<string>, k: string)
    requires k in rest && k in g
    ensures var h := Labelled(g, rest); h[k := h[k].(letter := k)] == Labelled(g, rest - {k})
  {
    var h := Labelled(g, rest);
    assert h[k := h[k].(letter := k)].Keys == Labelled(g, rest - {k}).Keys;
  }

  /** `processed[key].letter = key`: only that step changes. */
  method SetLetter(processed: map<string, Step>, k: string, ghost g: Graph, ghost rest: set<string>)
    requires View(processed) == Labelled(g, rest) && Separate(processed) && k in rest && k in processed
    modifies processed[k]
    ensures View(processed) == Labelled(g, rest - {k})
  {
    ghost var h := Labelled(g, rest);
    processed[k].letter := k;
    assert forall j :: j in processed && j != k ==> processed[j] != processed[k];
    assert View(processed) == h[k := h[k].(letter := k)];
    LabelStep(g, rest, k);
  }

  /** The labelling loop `for key in processed`. */
  method LabelAll(processed: map<string, Step>, ghost g: Graph)
    requires g == View(processed) && Separate(processed)
    modifies processed.Values
    ensures View(processed) == Label(g)
  {
    var rest := processed.Keys;
    assert Labelled(g, rest) == g;
    while rest != {}
      invariant rest <= processed.Keys && View(processed) == Labelled(g, rest)
      decreases rest
    {
      Inhabited(rest);
      var k :| k in rest;
      SetLetter(processed, k, g, rest);
      rest := rest - {k};
    }
  }

  /** One pass of the reading loop over `line`; `false` for the IndexError of a short line. */
  method ReadLine(processed: map<string, Step>, line: string, ghost edges: seq<Edge>)
      returns (ok: bool, processed': map<string, Step>)
    requires View(processed) == Build(edges) && Separate(processed)
    modifies processed.Values
    ensures ok == LineEdge(line).Some?
    ensures ok ==> View(processed') == Build(edges + [LineEdge(line).value]) && Separate(processed')
    ensures forall s :: s in processed'.Values ==> s in processed.Values || fresh(s)
  {
    var tokens := Split(line, " ");
    if |tokens| < 3 {
      return false, processed;
    }
    var e := (tokens[1], tokens[|tokens| - 3]);
    assert (edges + [e])[..|edges|] == edges;
    processed' := LinkEdge(processed, e, Build(edges));
    return true, processed';
  }

  /** `ProcessInput(data)`: the table of fresh steps the instructions describe; `None` for the
      IndexError of a line of fewer than three words. */
  method ProcessInput(data: string) returns (r: Option<map<string, Step>>)
    ensures r.Some? <==> Instructions(data).Some?
    ensures r.Some? ==> View(r.value) == Instructions(data).value && Separate(r.value)
    ensures r.Some? ==> forall s :: s in r.value.Values ==> fresh(s)
  {
    var lines := Split(data, "\n");
    var processed: map<string, Step> := map[];
    ghost var edges: seq<Edge> := [];
    for i := 0 to |lines|
      invariant ParseEdges(lines[..i]) == Some(edges)
      invariant View(processed) == Build(edges) && Separate(processed)
      invariant forall s :: s in processed.Values ==> fresh(s)
    {
      var ok;
      ok, processed := ReadLine(processed, lines[i], edges);
      if !ok {
        ParseEdgesMeaning(lines);
        return None;
      }
      assert lines[..i + 1][..i] == lines[..i];
      edges := edges + [LineEdge(lines[i]).value];
    }
    assert lines[..|lines|] == lines;
    LabelAll(processed, Build(edges));
    return Some(processed);
  }

  /** `allFinished`: `true` when every step is completed. */
  method AllFinished(instructions: map<string, Step>, ghost g: Graph) returns (r: bool)
    requires g == View(instructions)
    ensures r == Finished(g)
  {
    var rest := instructions.Keys;
    while rest != {}
      invariant rest <= instructions.Keys
      invariant forall k :: k in instructions && k !in rest ==> instructions[k].completed
      decreases rest
    {
      Inhabited(rest);
      var i :| i in rest;
      if !instructions[i].completed {
        assert View(instructions)[i].completed == instructions[i].completed;
        return false;
      }
      rest := rest - {i};
    }
    return true;
  }

  /** `sorted(keys)`: the keys in increasing order. */
  method SortedKeys(keys: set<string>) returns (ks: seq<string>)
    ensures Increasing(ks) && forall k :: k in ks <==> k in keys
  {
    ks := [];
    var rest := keys;
    while rest != {}
      invariant rest <= keys && Increasing(ks)
      invariant forall k :: k in keys <==> k in ks || k in rest
      invariant forall k :: k in ks ==> k !in rest
      decreases rest
    {
      Inhabited(rest);
      var x :| x in rest;
      ks := InsertSorted(ks, x);
      rest := rest - {x};
    }
  }

  /** `x` put into an increasing sequence that lacks it, in its place. */
  function InsertSorted(ks: seq<string>, x: string): (r: seq<string>)
    requires Increasing(ks) && x !in ks
    ensures Increasing(r) && forall k :: k in r <==> k in ks || k == x
  {
    if |ks| == 0 then [x]
    else if StrLess(x, ks[0]) then
      assert forall j :: 0 <= j < |ks| ==> StrLess(x, ks[j]) by {
        forall j | 0 < j < |ks| ensures StrLess(x, ks[j]) {
          StrLessTransitive(x, ks[0], ks[j]);
        }
      }
      [x] + ks
    else
      StrLessTotal(x, ks[0]);
      var r := InsertSorted(ks[1..], x);
      assert forall k :: k in ks[1..] ==> StrLess(ks[0], k) by {
        forall k | k in ks[1..] ensures StrLess(ks[0], k) {
          var j :| 0 <= j < |ks[1..]| && ks[1..][j] == k;
          assert ks[j + 1] == k;
        }
      }
      assert ks == [ks[0]] + ks[1..];
      [ks[0]] + r
  }

  /** The first of the sorted keys that may start, after none before it could, is the first
      available step. */
  lemma {:induction false} FirstAt(g: Graph, ks: seq<string>, n: int)
    requires Increasing(ks) && (forall k :: k in g ==> k in ks) && 0 <= n < |ks|
    requires (forall j :: 0 <= j < n ==> !Available(g, ks[j])) && Available(g, ks[n])
    ensures First(g) == Some(ks[n])
  {
    var ready := Ready(g);
    assert ks[n] in ready;
    forall t | t in ready && t != ks[n]
      ensures StrLess(ks[n], t)
    {
      var j :| 0 <= j < |ks| && ks[j] == t;
      assert j > n;
    }
    LeastIs(ready, ks[n]);
  }

  /** When none of the sorted keys may start, no step is available. */
  lemma {:induction false} NoneAt(g: Graph, ks: seq<string>)
    requires (forall k :: k in g ==> k in ks) && forall j :: 0 <= j < |ks| ==> !Available(g, ks[j])
    ensures First(g) == None
  {
    forall k | k in g
      ensures !Available(g, k)
    {
      var j :| 0 <= j < |ks| && ks[j] == k;
    }
  }

  /** The test `firstAvailable` makes of one key: not completed, not in progress, and
      `allFinished` on the table of its predecessors. */
  method MayStart(instructions: map<string, Step>, i: string) returns (b: bool)
    requires Closed(View(instructions)) && i in instructions
    ensures b == Available(View(instructions), i)
  {
    b := false;
    if !instructions[i].completed && !instructions[i].inProgress {
      var predecessors := map p | p in instructions[i].predecessors :: instructions[p];
      b := AllFinished(predecessors, View(predecessors));
      assert forall p :: p in predecessors ==> View(predecessors)[p] == View(instructions)[p];
    }
  }

  /** `firstAvailable`: the alphabetically first step that is neither completed nor in progress
      and whose predecessors are all completed. */
  method FirstAvailable(instructions: map<string, Step>, ghost g: Graph) returns (r: Option<string>)
    requires g == View(instructions) && Closed(g)
    ensures r == First(g)
  {
    var ks := SortedKeys(instructions.Keys);
    var n := 0;
    while n < |ks|
      invariant 0 <= n <= |ks|
      invariant forall j :: 0 <= j < n ==> !Available(View(instructions), ks[j])
    {
      var ok := MayStart(instructions, ks[n]);
      if ok {
        FirstAt(View(instructions), ks, n);
        return Some(ks[n]);
      }
      n := n + 1;
    }
    NoneAt(View(instructions), ks);
    return None;
  }

  /** `data[k].completed = True`: only that step changes. */
  method MarkCompleted(data: map<string, Step>, k: string, pool: seq<Elf>)
    requires Separate(data) && k in data
    modifies data[k]
    ensures View(data) == Complete(old(View(data)), k) && Workers(pool) == old(Workers(pool))
  {
    data[k].completed := true;
    assert forall j :: j in data && j != k ==> data[j] != data[k];
  }

  /** `order` put in front of a result, if there is one. */
  function Prepend(order: seq<string>, rest: Option<seq<string>>): Option<seq<string>> {
    if rest.Some? then Some(order + rest.value) else None
  }

  /** One round of part one: the first available step goes in front of the rest. */
  lemma {:induction false} SerialStep(g: Graph, k: string)
    requires !Finished(g) && First(g) == Some(k) && k != ""
    ensures k in g && Serial(g) == Prepend([k], Serial(Complete(g, k)))
  {
    PendingShrinks(g, k);
  }

  lemma {:induction false} PrependTwice(o: seq<string>, p: seq<string>, rest: Option<seq<string>>)
    ensures Prepend(o, Prepend(p, rest)) == Prepend(o + p, rest)
  {
    if rest.Some? {
      assert o + (p + rest.value) == (o + p) + rest.value;
    }
  }

  lemma {:induction false} PrependNothing(rest: Option<seq<string>>)
    ensures Prepend([], rest) == rest
  {
    if rest.Some? {
      assert [] + rest.value == rest.value;
    }
  }

  lemma {:induction false} SerialFinished(g: Graph, order: seq<string>)
    requires Finished(g)
    ensures Prepend(order, Serial(g)) == Some(order)
  {
    assert order + [] == order;
  }

  lemma {:induction false} ClosedComplete(g: Graph, k: string)
    requires Closed(g) && k in g
    ensures Closed(Complete(g, k))
  {
  }

  /** One pass of the loop of part one: complete the first available step and append it to the
      order, or report that nothing is available. */
  method CompleteFirst(data: map<string, Step>, order: seq<string>, ghost g: Graph)
      returns (ok: bool, order': seq<string>, ghost g': Graph)
    requires Mirrors(data, g) && Separate(data) && !Finished(g)
    modifies data.Values
    ensures ok ==> Mirrors(data, g') && Pending(g') < Pending(g)
    ensures ok <==> First(g).Some? && First(g).value != ""
    ensures ok ==> First(g).value in g && g' == Complete(g, First(g).value)
                   && order' == order + [First(g).value]
    ensures ok ==> Prepend(order, Serial(g)) == Prepend(order', Serial(g'))
    ensures !ok ==> Serial(g) == None && order' == order && View(data) == g
  {
    var first := FirstAvailable(data, g);
    if first.None? || first.value == "" {
      return false, order, g;
    }
    SerialStep(g, first.value);
    PendingShrinks(g, first.value);
    PrependTwice(order, [first.value], Serial(Complete(g, first.value)));
    ClosedComplete(g, first.value);
    MarkCompleted(data, first.value, []);
    return true, order + [first.value], Complete(g, first.value);
  }

  /** The table with every step completed and nothing else changed. */
  function CompleteAll(g: Graph): (r: Graph)
    ensures r.Keys == g.Keys && Finished(r)
    ensures forall k :: k in g ==> r[k] == g[k].(completed := true)
  {
    map k | k in g :: g[k].(completed := true)
  }

  /** `h` is `g` with some more steps completed. */
  ghost predicate OnlyCompleted(g: Graph, h: Graph) {
    h.Keys == g.Keys && forall k :: k in g ==> h[k] == g[k].(completed := h[k].completed)
  }

  /** Completing one more step keeps `OnlyCompleted`. */
  lemma {:induction false} OnlyCompletedStep(g0: Graph, g: Graph, k: string)
    requires OnlyCompleted(g0, g) && k in g
    ensures OnlyCompleted(g0, Complete(g, k))
  {
  }

  /** At the end of part one, a table that only gained completions and has every step
      completed is `CompleteAll` of the start. */
  lemma {:induction false} OnlyCompletedFinished(g: Graph, h: Graph)
    requires OnlyCompleted(g, h) && Finished(h)
    ensures h == CompleteAll(g)
  {
    forall k | k in h
      ensures h[k] == CompleteAll(g)[k]
    {
      assert h[k].completed;
    }
  }

  /** `SolvePartOne`: complete the first available step until all are completed, and join them
      in that order; `None` for the exception when nothing is available. A table that is
      solved is left with every step completed and nothing else changed. */
  method SolvePartOne(data: map<string, Step>) returns (r: Option<string>)
    requires Closed(View(data)) && Separate(data)
    modifies data.Values
    ensures r == PartOne(old(View(data)))
    ensures r.Some? ==> View(data) == CompleteAll(old(View(data))) && Finished(View(data))
  {
    ghost var g := View(data);
    ghost var g0 := g;
    var completedOrder := [];
    PrependNothing(Serial(g));
    var done := AllFinished(data, g);
    while !done
      invariant Mirrors(data, g)
      invariant Serial(g0) == Prepend(completedOrder, Serial(g))
      invariant done == Finished(g)
      invariant OnlyCompleted(g0, g)
      decreases Pending(g)
    {
      var ok;
      ghost var prev := g;
      ok, completedOrder, g := CompleteFirst(data, completedOrder, g);
      if !ok {
        return None;
      }
      OnlyCompletedStep(g0, prev, First(prev).value);
      done := AllFinished(data, g);
    }
    SerialFinished(g, completedOrder);
    OnlyCompletedFinished(g0, g);
    return Some(Concat(completedOrder));
  }

  /** A worker of part two. */
  class Elf {
    const name: int
    var task: string
    var timer: int

    /** `Elf(name)`: idle, with nothing on the timer. */
    constructor (name: int)
      ensures this.name == name && State() == Worker("", 0)
    {
      this.name := name;
      task := "";
      timer := 0;
    }

    /** The elf's task and timer as a value. */
    function State(): Worker
      reads this
    {
      Worker(task, timer)
    }

    /** `update`: count down one second, never below 0; hand back the task when the timer has
        run out. */
    method Update() returns (r: Option<string>)
      modifies this
      ensures (r, State()) == Tick(old(State()))
    {
      timer := timer - 1;
      timer := if timer > 0 then timer else 0;
      if timer == 0 && task != "" {
        var t := task;
        task := "";
        return Some(t);
      }
      return None;
    }

    /** `isAvailable`: the elf holds no task, so counting down hands nothing back; a busy elf on
        their last second hands their step back. */
    predicate IsAvailable()
      reads this
      ensures IsAvailable() ==> Tick(State()).0.None?
      ensures !IsAvailable() && timer <= 1 ==> Tick(State()).0 == Some(task)
    {
      task == ""
    }

    /** `assignTask`: `false` for the exception raised at a busy elf, who keeps their task;
        otherwise the elf takes the task and the timer. */
    method AssignTask(task: string, timer: int) returns (ok: bool)
      modifies this
      ensures ok == old(IsAvailable())
      ensures State() == if ok then Worker(task, timer) else old(State())
    {
      if !IsAvailable() {
        return false;
      }
      this.task := task;
      this.timer := timer;
      return true;
    }
  }

  /** The elves of the pool as values. */
  ghost function Workers(pool: seq<Elf>): (ws: seq<Worker>)
    reads pool
    ensures |ws| == |pool| && forall i :: 0 <= i < |pool| ==> ws[i] == pool[i].State()
  {
    seq(|pool|, i reads pool requires 0 <= i < |pool| => pool[i].State())
  }

  /** No elf appears twice in the pool. */
  ghost predicate Crew(pool: seq<Elf>) {
    forall i, j :: 0 <= i < |pool| && 0 <= j < |pool| && i != j ==> pool[i] != pool[j]
  }

  /** `firstAvailableWorker`: the index of the first idle elf, -1 when all are busy. */
  method FirstAvailableWorker(workers: seq<Elf>, ghost ws: seq<Worker>) returns (i: int)
    requires ws == Workers(workers)
    ensures i == FirstIdle(ws)
  {
    var j := 0;
    while j < |workers|
      invariant 0 <= j <= |workers|
      invariant forall k :: 0 <= k < j ==> workers[k].task != ""
    {
      if workers[j].IsAvailable() {
        return j;
      }
      j := j + 1;
    }
    return -1;
  }

  /** `data[newTask].inProgress = True`: only that step changes. */
  method MarkInProgress(data: map<string, Step>, k: string, pool: seq<Elf>)
    requires Separate(data) && k in data
    modifies data[k]
    ensures View(data) == old(View(data))[k := old(View(data))[k].(inProgress := true)]
    ensures Workers(pool) == old(Workers(pool))
  {
    data[k].inProgress := true;
    assert forall j :: j in data && j != k ==> data[j] != data[k];
  }

  /** `workerPool[i].assignTask(task, timer)` on an idle elf: only that elf changes. */
  method AssignElf(pool: seq<Elf>, i: int, task: string, timer: int, data: map<string, Step>)
    requires Crew(pool) && 0 <= i < |pool| && pool[i].IsAvailable()
    modifies pool[i]
    ensures Workers(pool) == old(Workers(pool))[i := Worker(task, timer)]
    ensures View(data) == old(View(data))
  {
    var taken := pool[i].AssignTask(task, timer);
    assert forall j :: 0 <= j < |pool| && j != i ==> pool[j] != pool[i];
  }


  /** Putting a step in progress keeps every waited-for step in the table. */
  lemma {:induction false} ClosedStart(g: Graph, t: string)
    requires Closed(g) && t in g
    ensures Closed(g[t := g[t].(inProgress := true)])
  {
  }

  /** Give step `t` for `d` seconds to elf `i` and mark it in progress. */
  method Start(data: map<string, Step>, pool: seq<Elf>, t: string, i: int, d: int,
               ghost g: Graph, ghost ws: seq<Worker>)
    requires g == View(data) && ws == Workers(pool) && Separate(data) && Crew(pool)
    requires t in data && 0 <= i < |pool| && ws[i].task == ""
    modifies data[t], pool[i]
    ensures View(data) == g[t := g[t].(inProgress := true)]
    ensures Workers(pool) == ws[i := Worker(t, d)]
  {
    AssignElf(pool, i, t, d, data);
    MarkInProgress(data, t, pool);
  }

  /** One pass of the assignment loop, with an idle elf: give the first available step to the
      first idle elf, or stop when no step may start; `ok` is `false` for the ValueError of
      `getTaskTime`. What the rest of the loop computes does not change. */
  method AssignNext(data: map<string, Step>, pool: seq<Elf>, factor: int, ghost g: Graph, ghost ws: seq<Worker>)
      returns (more: bool, ok: bool, ghost g': Graph, ghost ws': seq<Worker>)
    requires Mirrors(data, g) && ws == Workers(pool) && Separate(data) && Crew(pool)
    requires FirstIdle(ws) >= 0
    modifies data.Values, pool
    ensures !ok ==> AssignAll(g, ws, factor) == None
    ensures ok ==> Mirrors(data, g') && ws' == Workers(pool)
                   && AssignAll(g', ws', factor) == AssignAll(g, ws, factor)
    ensures ok && more ==> |Idle(ws')| < |Idle(ws)|
    ensures ok && !more ==> AssignAll(g, ws, factor) == Some((g', ws'))
  {
    AssignUnfold(g, ws, factor);
    var newTask := FirstAvailable(data, g);
    if newTask.None? || newTask.value == "" {
      return false, true, g, ws;
    }
    var t := newTask.value;
    var taskTime := TaskTime(t, factor);
    if taskTime.None? {
      return false, false, g, ws;
    }
    var i := FirstAvailableWorker(pool, ws);
    Start(data, pool, t, i, taskTime.value, g, ws);
    ClosedStart(g, t);
    return true, true, g[t := g[t].(inProgress := true)], ws[i := Worker(t, taskTime.value)];
  }

  /** The test of the assignment loop and one pass of it: stop when every elf is busy, else
      go on as `AssignNext` does. */
  method AssignRound(data: map<string, Step>, pool: seq<Elf>, factor: int, ghost g: Graph, ghost ws: seq<Worker>)
      returns (more: bool, ok: bool, ghost g': Graph, ghost ws': seq<Worker>)
    requires Mirrors(data, g) && ws == Workers(pool) && Separate(data) && Crew(pool)
    modifies data.Values, pool
    ensures !ok ==> AssignAll(g, ws, factor) == None
    ensures ok ==> Mirrors(data, g') && ws' == Workers(pool)
    ensures ok && more ==> AssignAll(g', ws', factor) == AssignAll(g, ws, factor) && |Idle(ws')| < |Idle(ws)|
    ensures ok && !more ==> AssignAll(g, ws, factor) == Some((g', ws'))
  {
    var w := FirstAvailableWorker(pool, ws);
    if w == -1 {
      return false, true, g, ws;
    }
    more, ok, g', ws' := AssignNext(data, pool, factor, g, ws);
  }

  /** The assignment loop of part two: while some elf is idle, hand out the first available
      step; `false` for the ValueError of `getTaskTime`. */
  method AssignPhase(data: map<string, Step>, pool: seq<Elf>, factor: int, ghost g: Graph, ghost ws: seq<Worker>)
      returns (ok: bool, ghost g': Graph, ghost ws': seq<Worker>)
    requires Mirrors(data, g) && ws == Workers(pool) && Separate(data) && Crew(pool)
    modifies data.Values, pool
    ensures ok == AssignAll(g, ws, factor).Some?
    ensures ok ==> AssignAll(g, ws, factor) == Some((g', ws')) && Mirrors(data, g')
                   && ws' == Workers(pool)
  {
    g', ws' := g, ws;
    ok := true;
    var more := true;
    while more
      invariant ok && Mirrors(data, g') && ws' == Workers(pool)
      invariant more ==> AssignAll(g', ws', factor) == AssignAll(g, ws, factor)
      invariant !more ==> AssignAll(g, ws, factor) == Some((g', ws'))
      decreases if more then |Idle(ws')| + 1 else 0
    {
      more, ok, g', ws' := AssignRound(data, pool, factor, g', ws');
      if !ok {
        return;
      }
    }
  }

  /** `worker.update()` on elf `j`: only that elf changes. */
  method UpdateElf(pool: seq<Elf>, j: int, data: map<string, Step>, ghost ws: seq<Worker>)
      returns (r: Option<string>)
    requires Crew(pool) && 0 <= j < |pool| && ws == Workers(pool)
    modifies pool[j]
    ensures r == Tick(ws[j]).0 && Workers(pool) == ws[j := Tick(ws[j]).1]
    ensures View(data) == old(View(data))
  {
    r := pool[j].Update();
    assert forall i :: 0 <= i < |pool| && i != j ==> pool[i] != pool[j];
  }

  /** `Step()`, then marked completed. */
  method NewCompleted() returns (step: Step)
    ensures fresh(step) && step.Value() == Blank.(completed := true)
  {
    step := new Step("", "", "");
    step.completed := true;
  }

  /** A completed `Step()` put in for a key the table lacks. */
  method AddCompleted(data: map<string, Step>, t: string, pool: seq<Elf>, ghost g: Graph, ghost ws: seq<Worker>)
      returns (data': map<string, Step>)
    requires g == View(data) && ws == Workers(pool) && Separate(data) && t !in data
    ensures View(data') == Mark(g, t) && Workers(pool) == ws && Separate(data') && Keeps(data, data')
    ensures forall s :: s in data'.Values ==> s in data.Values || fresh(s)
  {
    var step := NewCompleted();
    data' := data[t := step];
    forall k | k in data'
      ensures View(data')[k] == Mark(g, t)[k]
    {
      if k != t {
        assert data'[k] == data[k];
      }
    }
  }

  /** `data[completedTask].completed = True` on the `defaultdict`: a step missing from the table
      comes in as a fresh `Step()`. */
  method CompleteTask(data: map<string, Step>, t: string, pool: seq<Elf>, ghost g: Graph, ghost ws: seq<Worker>)
      returns (data': map<string, Step>)
    requires g == View(data) && ws == Workers(pool) && Separate(data)
    modifies if t in data then {data[t]} else {}
    ensures View(data') == Mark(g, t) && Workers(pool) == ws && Separate(data') && Keeps(data, data')
    ensures forall s :: s in data'.Values ==> s in data.Values || fresh(s)
  {
    if t in data {
      MarkCompleted(data, t, pool);
      data' := data;
    } else {
      data' := AddCompleted(data, t, pool, g, ws);
    }
  }

  /** One pass of the update loop: elf `j` counts down, and the step they hand back, if any, is
      marked completed. */
  method UpdateOne(data: map<string, Step>, pool: seq<Elf>, j: int, ghost g: Graph, ghost ws: seq<Worker>,
                   ghost orig: map<string, Step>)
      returns (data': map<string, Step>, ghost g': Graph)
    requires g == View(data) && ws == Workers(pool) && Separate(data) && Crew(pool) && 0 <= j < |pool|
    requires Keeps(orig, data)
    modifies data.Values, pool[j]
    ensures g' == View(data') && Separate(data') && Workers(pool) == ws[j := Tick(ws[j]).1]
    ensures Keeps(orig, data')
    ensures g' == if Tick(ws[j]).0.Some? then Mark(g, Tick(ws[j]).0.value) else g
    ensures forall s :: s in data'.Values ==> s in data.Values || fresh(s)
  {
    var completedTask := UpdateElf(pool, j, data, ws);
    data', g' := data, g;
    if completedTask.Some? {
      data' := CompleteTask(data, completedTask.value, pool, g, ws[j := Tick(ws[j]).1]);
      KeepsTrans(orig, data, data');
      g' := Mark(g, completedTask.value);
    }
  }

  /** One pass of the update loop, as the rest of the loop sees it. */
  lemma {:induction false} AdvanceStep(h: Graph, ws: seq<Worker>, j: int)
    requires 0 <= j < |ws|
    ensures var h' := if Tick(ws[j]).0.Some? then Mark(h, Tick(ws[j]).0.value) else h;
      Advance(h, ws[j..]) == (Advance(h', ws[j + 1..]).0, [Tick(ws[j]).1] + Advance(h', ws[j + 1..]).1)
  {
    assert ws[j..][0] == ws[j] && ws[j..][1..] == ws[j + 1..];
  }

  lemma {:induction false} PrefixTick(done: seq<Worker>, ws: seq<Worker>, j: int)
    requires 0 <= j < |done| == |ws|
    ensures var done' := done[j := Tick(ws[j]).1];
      forall rest :: done'[..j + 1] + rest == done[..j] + ([Tick(ws[j]).1] + rest)
  {
    var done' := done[j := Tick(ws[j]).1];
    assert done'[..j + 1] == done[..j] + [Tick(ws[j]).1];
  }

  /** How far the update loop has got: elves before `j` have counted down, the rest have not. */
  ghost predicate Advancing(g: Graph, ws: seq<Worker>, g': Graph, ws': seq<Worker>, j: int) {
    0 <= j <= |ws| && |ws'| == |ws| && ws'[j..] == ws[j..]
    && Advance(g, ws) == (Advance(g', ws[j..]).0, ws'[..j] + Advance(g', ws[j..]).1)
  }

  /** One pass of the update loop, carrying the loop's bookkeeping from elf `j` to elf `j + 1`. */
  method AdvanceOne(data: map<string, Step>, pool: seq<Elf>, j: int, ghost g: Graph, ghost ws: seq<Worker>,
                    ghost h: Graph, ghost done: seq<Worker>, ghost orig: map<string, Step>)
      returns (data': map<string, Step>, ghost h': Graph, ghost done': seq<Worker>)
    requires Advancing(g, ws, h, done, j) && j < |pool| == |ws|
    requires h == View(data) && done == Workers(pool) && Separate(data) && Crew(pool) && Keeps(orig, data)
    modifies data.Values, pool[j]
    ensures Advancing(g, ws, h', done', j + 1)
    ensures h' == View(data') && done' == Workers(pool) && Separate(data') && Keeps(orig, data')
    ensures forall s :: s in data'.Values ==> s in data.Values || fresh(s)
  {
    AdvanceStep(h, ws, j);
    PrefixTick(done, ws, j);
    data', h' := UpdateOne(data, pool, j, h, done, orig);
    done' := done[j := Tick(ws[j]).1];
  }

  /** The update loop of part two: every elf in turn counts down, and the step they hand back is
      marked completed. */
  method AdvancePhase(data: map<string, Step>, pool: seq<Elf>, ghost g: Graph, ghost ws: seq<Worker>)
      returns (data': map<string, Step>, ghost g': Graph, ghost ws': seq<Worker>)
    requires g == View(data) && ws == Workers(pool) && Separate(data) && Crew(pool)
    modifies data.Values, pool
    ensures (g', ws') == Advance(g, ws) && g' == View(data') && ws' == Workers(pool) && Separate(data')
    ensures Keeps(data, data')
    ensures forall s :: s in data'.Values ==> s in data.Values || fresh(s)
  {
    data', g', ws' := data, g, ws;
    var j := 0;
    assert ws[0..] == ws && ws'[..0] + Advance(g, ws).1 == Advance(g, ws).1;
    while j < |pool|
      invariant Advancing(g, ws, g', ws', j) && |ws| == |pool|
      invariant g' == View(data') && ws' == Workers(pool) && Separate(data') && Keeps(data, data')
      invariant forall s :: s in data'.Values ==> s in data.Values || fresh(s)
    {
      data', g', ws' := AdvanceOne(data', pool, j, g, ws, g', ws', data);
      j := j + 1;
    }
    assert ws[j..] == [] && ws'[..j] + [] == ws';
  }

  /** `[Elf(i) for i in range(n)]`. */
  method MakePool(n: nat) returns (pool: seq<Elf>)
    ensures Crew(pool) && Workers(pool) == Rested(n)
    ensures forall i :: 0 <= i < |pool| ==> fresh(pool[i]) && pool[i].name == i
  {
    pool := [];
    for i := 0 to n
      invariant |pool| == i && Crew(pool) && Workers(pool) == Rested(i)
      invariant forall j :: 0 <= j < i ==> fresh(pool[j]) && pool[j].name == j
    {
      var elf := new Elf(i);
      pool := pool + [elf];
    }
  }

  /** Part two never lets a step wait for a step missing from the table. */
  lemma {:induction false} ClosedAdvance(g: Graph, ws: seq<Worker>)
    requires Closed(g)
    ensures Closed(Advance(g, ws).0)
  {
    AdvanceMarks(g, ws);
  }

  lemma {:induction false} ViewSize(data: map<string, Step>)
    ensures |View(data)| == |data|
  {
    assert View(data).Keys == data.Keys;
  }

  /** One second of part two, as the rest of the run sees it. */
  lemma {:induction false} TimedStep(g: Graph, ws: seq<Worker>, factor: int, time: int, fuel: nat, time': int, fuel': nat)
    requires !Finished(g) && fuel > 0 && time' == time + 1 && fuel' == fuel - 1
    ensures AssignAll(g, ws, factor).None? ==> Timed(g, ws, factor, time, fuel) == None
    ensures AssignAll(g, ws, factor).Some? ==>
              var a := AssignAll(g, ws, factor).value;
              Timed(g, ws, factor, time, fuel)
                == Timed(Advance(a.0, a.1).0, Advance(a.0, a.1).1, factor, time', fuel')
  {
  }

  /** One second of part two: the assignment loop, then the update loop. */
  method Second(table: map<string, Step>, pool: seq<Elf>, factor: int, ghost g: Graph, ghost ws: seq<Worker>,
                time: int, left: nat)
      returns (ok: bool, table': map<string, Step>, ghost g': Graph, ghost ws': seq<Worker>, time': int, left': nat)
    requires g == View(table) && ws == Workers(pool) && Closed(g) && Separate(table) && Crew(pool)
    requires !Finished(g) && left > 0
    modifies table.Values, pool
    ensures !ok ==> Timed(g, ws, factor, time, left) == None
    ensures time' == time + 1 && left' == left - 1
    ensures ok ==> g' == View(table') && ws' == Workers(pool) && Closed(g') && Separate(table')
                   && Timed(g', ws', factor, time', left') == Timed(g, ws, factor, time, left)
    ensures Keeps(table, table')
    ensures forall s :: s in table'.Values ==> s in table.Values || fresh(s)
  {
    time', left' := time + 1, left - 1;
    TimedStep(g, ws, factor, time, left, time', left');
    ok, g', ws' := AssignPhase(table, pool, factor, g, ws);
    if !ok {
      return false, table, g, ws, time', left';
    }
    ClosedAdvance(g', ws');
    table', g', ws' := AdvancePhase(table, pool, g', ws');
  }

  /** One pass of the main loop: a second, then the `allFinished` test of its condition. */
  method Round(table: map<string, Step>, pool: seq<Elf>, factor: int, ghost g: Graph, ghost ws: seq<Worker>,
               time: int, left: nat)
      returns (ok: bool, table': map<string, Step>, ghost g': Graph, ghost ws': seq<Worker>, time': int, left': nat,
               done: bool)
    requires g == View(table) && ws == Workers(pool) && Closed(g) && Separate(table) && Crew(pool)
    requires !Finished(g) && left > 0
    modifies table.Values, pool
    ensures !ok ==> Timed(g, ws, factor, time, left) == None
    ensures time' == time + 1 && left' == left - 1
    ensures ok ==> g' == View(table') && ws' == Workers(pool) && Closed(g') && Separate(table')
                   && Timed(g', ws', factor, time', left') == Timed(g, ws, factor, time, left)
                   && done == Finished(g')
    ensures Keeps(table, table')
    ensures forall s :: s in table'.Values ==> s in table.Values || fresh(s)
  {
    ok, table', g', ws', time', left' := Second(table, pool, factor, g, ws, time, left);
    done := false;
    if ok {
      done := AllFinished(table', g');
    }
  }

  /** `SolvePartTwo` within `fuel` seconds: the second at which every step is completed; `None`
      when that takes longer or for the ValueError of `getTaskTime`. */
  method SolvePartTwo(data: map<string, Step>, fuel: nat) returns (r: Option<int>)
    requires Closed(View(data)) && Separate(data)
    modifies data.Values
    ensures r == PartTwo(old(View(data)), fuel)
    ensures r.Some? ==> Finished(View(data))
  {
    var taskFactor := 0;
    var workerPoolSize := 2;
    if |data| > 10 {
      taskFactor := 60;
      workerPoolSize := 5;
    }
    ViewSize(data);
    var workerPool := MakePool(workerPoolSize);
    ghost var g, ws := View(data), Workers(workerPool);
    ghost var target := PartTwo(g, fuel);
    var table := data;
    var time := 0;
    var left := fuel;
    var done := AllFinished(table, g);
    while !done
      invariant g == View(table) && ws == Workers(workerPool) && Closed(g) && Separate(table)
      invariant Crew(workerPool) && forall i :: 0 <= i < |workerPool| ==> fresh(workerPool[i])
      invariant forall s :: s in table.Values ==> s in data.Values || fresh(s)
      invariant Keeps(data, table)
      invariant Timed(g, ws, taskFactor, time, left) == target
      invariant done == Finished(g)
      decreases left
    {
      if left == 0 {
        return None;
      }
      var ok;
      label before:
      ghost var prev := table;
      ok, table, g, ws, time, left, done := Round(table, workerPool, taskFactor, g, ws, time, left);
      if !ok {
        return None;
      }
      forall s | s in table.Values
        ensures s in data.Values || fresh(s)
      {
        if s !in prev.Values {
          assert fresh@before(s);
        }
      }
    }
    FinishedKept(data, table);
    return Some(time);
  }
}

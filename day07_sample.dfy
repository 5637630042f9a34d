/** Day 7, part two on the worked example: two elves and no extra seconds per step finish the
    six steps in 15 seconds. */
module SleighSample {
  import opened Wrappers
  import opened Strings
  import opened Sleigh

  // ---------------------------------------------------------------------
  // The example table with its flags set

  /** The example table with the steps of `done` completed and those of `busy` in progress. */
  function Flags(done: set<string>, busy: set<string>): (r: Graph)
    ensures r.Keys == SampleTable.Keys
  {
    map k | k in SampleTable :: SampleTable[k].(completed := k in done, inProgress := k in busy)
  }

  lemma {:induction false} FlagsStart()
    ensures Flags({}, {}) == SampleTable
  {
    forall k | k in SampleTable
      ensures Flags({}, {})[k] == SampleTable[k]
    {
    }
  }

  /** `data[newTask].inProgress = True`. */
  lemma {:induction false} FlagsBusy(done: set<string>, busy: set<string>, t: string)
    requires t in SampleTable
    ensures var g := Flags(done, busy); g[t := g[t].(inProgress := true)] == Flags(done, busy + {t})
  {
  }

  /** `data[completedTask].completed = True`. */
  lemma {:induction false} FlagsMark(done: set<string>, busy: set<string>, t: string)
    requires t in SampleTable
    ensures Mark(Flags(done, busy), t) == Flags(done + {t}, busy)
  {
  }

  /** A step of the example that may start: neither completed nor in progress, and every step
      it waits for completed. */
  ghost predicate ReadyIn(done: set<string>, busy: set<string>, k: string) {
    k in SampleTable && k !in done && k !in busy
    && forall p :: p in SampleTable[k].predecessors ==> p in done
  }

  /** On the example table with its flags set, a step may start exactly when it is ready. */
  lemma {:induction false} AvailableFlags(done: set<string>, busy: set<string>, k: string)
    ensures Available(Flags(done, busy), k) <==> ReadyIn(done, busy, k)
  {
    if k in SampleTable {
      assert forall p :: p in SampleTable[k].predecessors ==> p in SampleTable;
    }
  }

  /** The ready step that comes alphabetically first is the one `First` picks. */
  lemma {:induction false} FirstFlags(done: set<string>, busy: set<string>, x: string)
    requires ReadyIn(done, busy, x)
    requires forall k :: ReadyIn(done, busy, k) ==> k == x || StrLess(x, k)
    ensures First(Flags(done, busy)) == Some(x)
  {
    var g := Flags(done, busy);
    forall k | Available(g, k)
      ensures k == x || StrLess(x, k)
    {
      AvailableFlags(done, busy, k);
    }
    AvailableFlags(done, busy, x);
    FirstIs(g, x);
  }

  /** With no step ready, `First` finds nothing. */
  lemma {:induction false} NoneFlags(done: set<string>, busy: set<string>)
    requires forall k :: !ReadyIn(done, busy, k)
    ensures First(Flags(done, busy)) == None
  {
    forall k
      ensures !Available(Flags(done, busy), k)
    {
      AvailableFlags(done, busy, k);
    }
  }

  // ---------------------------------------------------------------------
  // One second of the outer loop

  /** The assignment loop hands the first available step to the first idle elf. */
  lemma {:induction false} AssignOne(done: set<string>, busy: set<string>, ws: seq<Worker>, t: string, d: int)
    requires FirstIdle(ws) >= 0 && First(Flags(done, busy)) == Some(t) && t != ""
    requires TaskTime(t, 0) == Some(d)
    ensures AssignAll(Flags(done, busy), ws, 0)
         == AssignAll(Flags(done, busy + {t}), ws[FirstIdle(ws) := Worker(t, d)], 0)
  {
    AssignUnfold(Flags(done, busy), ws, 0);
    FlagsBusy(done, busy, t);
  }

  /** The first idle one of two elves, and a step handed to either of them. */
  lemma {:induction false} IdleTwo(w0: Worker, w1: Worker, x: Worker)
    ensures FirstIdle([w0, w1]) == if w0.task == "" then 0 else if w1.task == "" then 1 else -1
    ensures [w0, w1][0 := x] == [x, w1] && [w0, w1][1 := x] == [w0, x]
  {
    assert [w0, w1][1..] == [w1];
    assert [w1][1..] == [];
  }

  /** The assignment loop stops when no elf is idle or no step may start. */
  lemma {:induction false} AssignStop(g: Graph, ws: seq<Worker>)
    requires FirstIdle(ws) < 0 || First(g).None?
    ensures AssignAll(g, ws, 0) == Some((g, ws))
  {
    if FirstIdle(ws) >= 0 {
      AssignUnfold(g, ws, 0);
    }
  }

  /** The assignment loop hands out one step and then stops, every elf being busy. */
  lemma {:induction false} AssignLast(g: Graph, ws: seq<Worker>, t: string, d: int, g1: Graph, ws1: seq<Worker>)
    requires FirstIdle(ws) >= 0 && First(g) == Some(t) && t != "" && TaskTime(t, 0) == Some(d)
    requires g1 == g[t := g[t].(inProgress := true)] && ws1 == ws[FirstIdle(ws) := Worker(t, d)]
    requires FirstIdle(ws1) < 0 || First(g1).None?
    ensures AssignAll(g, ws, 0) == Some((g1, ws1))
  {
    AssignUnfold(g, ws, 0);
    AssignStop(g1, ws1);
  }

  /** What one elf's update does to the table. */
  function Hand(g: Graph, w: Worker): Graph {
    if Tick(w).0.Some? then Mark(g, Tick(w).0.value) else g
  }

  lemma {:induction false} AdvanceTwo(g: Graph, w0: Worker, w1: Worker)
    ensures Advance(g, [w0, w1]) == (Hand(Hand(g, w0), w1), [Tick(w0).1, Tick(w1).1])
  {
    var ws := [w0, w1];
    assert ws[1..] == [w1] && ws[1..][1..] == [];
    var g1 := Hand(g, w0);
    assert [w1][1..] == [];
    assert Advance(g1, [w1]) == (Hand(g1, w1), [Tick(w1).1] + []);
    assert [Tick(w0).1] + ([Tick(w1).1] + []) == [Tick(w0).1, Tick(w1).1];
  }

  /** One turn of the outer loop, given what its two inner loops do. */
  lemma {:induction false} Round(g: Graph, ws: seq<Worker>, a: (Graph, seq<Worker>), n: (Graph, seq<Worker>),
                                 time: int, fuel: nat)
    requires !Finished(g) && fuel > 0
    requires AssignAll(g, ws, 0) == Some(a) && Advance(a.0, a.1) == n
    ensures Timed(g, ws, 0, time, fuel) == Timed(n.0, n.1, 0, time + 1, fuel - 1)
  {
  }

  // ---------------------------------------------------------------------
  // The example, second by second

  const Idle0 := Worker("", 0)

  /** The steps completed so far, in the order they are completed. */
  const D0: set<string> := {}
  const D1 := D0 + {"C"}
  const D2 := D1 + {"A"}
  const D3 := D2 + {"B"}
  const D4 := D3 + {"F"}
  const D5 := D4 + {"D"}
  const D6 := D5 + {"E"}

  /** The steps handed out so far, in the order they are handed out. */
  const B0: set<string> := {}
  const B1 := B0 + {"C"}
  const B2 := B1 + {"A"}
  const B3 := B2 + {"F"}
  const B4 := B3 + {"B"}
  const B5 := B4 + {"D"}
  const B6 := B5 + {"E"}

  /** The table and the elves at the start of second `k`. */
  function State(k: nat): (Graph, seq<Worker>)
    requires k <= 15
  {
    if k == 0 then (Flags(D0, B0), [Idle0, Idle0])
    else if k == 1 then (Flags(D0, B1), [Worker("C", 2), Idle0])
    else if k == 2 then (Flags(D0, B1), [Worker("C", 1), Idle0])
    else if k == 3 then (Flags(D1, B1), [Idle0, Idle0])
    else if k == 4 then (Flags(D2, B3), [Idle0, Worker("F", 5)])
    else if k == 5 then (Flags(D2, B4), [Worker("B", 1), Worker("F", 4)])
    else if k == 6 then (Flags(D3, B4), [Idle0, Worker("F", 3)])
    else if k == 7 then (Flags(D3, B5), [Worker("D", 3), Worker("F", 2)])
    else if k == 8 then (Flags(D3, B5), [Worker("D", 2), Worker("F", 1)])
    else if k == 9 then (Flags(D4, B5), [Worker("D", 1), Idle0])
    else if k == 10 then (Flags(D5, B5), [Idle0, Idle0])
    else if k < 15 then (Flags(D5, B6), [Worker("E", 15 - k), Idle0])
    else (Flags(D6, B6), [Idle0, Idle0])
  }

  /** C comes before A and F, A before B and D, and B, D and F before E. */
  lemma {:induction false} Waits()
    ensures "C" in SampleTable["A"].predecessors && "C" in SampleTable["F"].predecessors
    ensures "A" in SampleTable["B"].predecessors && "A" in SampleTable["D"].predecessors
    ensures "B" in SampleTable["E"].predecessors && "D" in SampleTable["E"].predecessors
    ensures "F" in SampleTable["E"].predecessors
  {
    assert SampleTable["E"].predecessors == ["B", "D", "F"];
  }

  // The first available step at each choice

  lemma {:induction false} FirstC()
    ensures First(Flags(D0, B0)) == Some("C")
  {
    Waits();
    forall k | ReadyIn(D0, B0, k)
      ensures k == "C" || StrLess("C", k)
    {
    }
    FirstFlags(D0, B0, "C");
  }

  lemma {:induction false} NothingWhileC()
    ensures First(Flags(D0, B1)) == None
  {
    Waits();
    forall k
      ensures !ReadyIn(D0, B1, k)
    {
    }
    NoneFlags(D0, B1);
  }

  lemma {:induction false} FirstA()
    ensures First(Flags(D1, B1)) == Some("A")
  {
    Waits();
    forall k | ReadyIn(D1, B1, k)
      ensures k == "A" || StrLess("A", k)
    {
    }
    FirstFlags(D1, B1, "A");
  }

  lemma {:induction false} FirstF()
    ensures First(Flags(D1, B2)) == Some("F")
  {
    Waits();
    forall k | ReadyIn(D1, B2, k)
      ensures k == "F" || StrLess("F", k)
    {
    }
    FirstFlags(D1, B2, "F");
  }

  lemma {:induction false} FirstB()
    ensures First(Flags(D2, B3)) == Some("B")
  {
    Waits();
    forall k | ReadyIn(D2, B3, k)
      ensures k == "B" || StrLess("B", k)
    {
    }
    FirstFlags(D2, B3, "B");
  }

  lemma {:induction false} FirstD()
    ensures First(Flags(D3, B4)) == Some("D")
  {
    Waits();
    forall k | ReadyIn(D3, B4, k)
      ensures k == "D" || StrLess("D", k)
    {
    }
    FirstFlags(D3, B4, "D");
  }

  lemma {:induction false} NothingBeforeD()
    ensures First(Flags(D4, B5)) == None
  {
    Waits();
    forall k
      ensures !ReadyIn(D4, B5, k)
    {
    }
    NoneFlags(D4, B5);
  }

  lemma {:induction false} FirstE()
    ensures First(Flags(D5, B5)) == Some("E")
  {
    Waits();
    forall k | ReadyIn(D5, B5, k)
      ensures k == "E"
    {
    }
    FirstFlags(D5, B5, "E");
  }

  lemma {:induction false} NothingWhileE()
    ensures First(Flags(D5, B6)) == None
  {
    Waits();
    forall k
      ensures !ReadyIn(D5, B6, k)
    {
    }
    NoneFlags(D5, B6);
  }

  // The seconds each step takes, A being 1

  lemma {:induction false} TimeOfA()
    ensures TaskTime("A", 0) == Some(1)
  {
    LetterTime('A', 0);
    assert ['A'] == "A";
  }

  lemma {:induction false} TimeOfB()
    ensures TaskTime("B", 0) == Some(2)
  {
    LetterTime('B', 0);
    assert ['B'] == "B";
  }

  lemma {:induction false} TimeOfC()
    ensures TaskTime("C", 0) == Some(3)
  {
    LetterTime('C', 0);
    assert ['C'] == "C";
  }

  lemma {:induction false} TimeOfD()
    ensures TaskTime("D", 0) == Some(4)
  {
    LetterTime('D', 0);
    assert ['D'] == "D";
  }

  lemma {:induction false} TimeOfE()
    ensures TaskTime("E", 0) == Some(5)
  {
    LetterTime('E', 0);
    assert ['E'] == "E";
  }

  lemma {:induction false} TimeOfF()
    ensures TaskTime("F", 0) == Some(6)
  {
    LetterTime('F', 0);
    assert ['F'] == "F";
  }

  // The assignment loop in the seconds where a step is handed out

  lemma {:induction false} Assign0()
    ensures AssignAll(Flags(D0, B0), [Idle0, Idle0], 0) == Some((Flags(D0, B1), [Worker("C", 3), Idle0]))
  {
    FirstC();
    TimeOfC();
    FlagsBusy(D0, B0, "C");
    NothingWhileC();
    IdleTwo(Idle0, Idle0, Worker("C", 3));
    IdleTwo(Worker("C", 3), Idle0, Worker("C", 3));
    AssignLast(Flags(D0, B0), [Idle0, Idle0], "C", 3, Flags(D0, B1), [Worker("C", 3), Idle0]);
  }

  lemma {:induction false} Assign3()
    ensures AssignAll(Flags(D1, B1), [Idle0, Idle0], 0) == Some((Flags(D1, B3), [Worker("A", 1), Worker("F", 6)]))
  {
    FirstA();
    TimeOfA();
    FlagsBusy(D1, B1, "A");
    AssignOne(D1, B1, [Idle0, Idle0], "A", 1);
    assert [Idle0, Idle0][0 := Worker("A", 1)] == [Worker("A", 1), Idle0];
    Assign3F();
  }

  lemma {:induction false} Assign3F()
    ensures AssignAll(Flags(D1, B2), [Worker("A", 1), Idle0], 0) == Some((Flags(D1, B3), [Worker("A", 1), Worker("F", 6)]))
  {
    FirstF();
    TimeOfF();
    FlagsBusy(D1, B2, "F");
    IdleTwo(Worker("A", 1), Idle0, Worker("F", 6));
    IdleTwo(Worker("A", 1), Worker("F", 6), Worker("F", 6));
    AssignLast(Flags(D1, B2), [Worker("A", 1), Idle0], "F", 6, Flags(D1, B3), [Worker("A", 1), Worker("F", 6)]);
  }

  lemma {:induction false} Assign4()
    ensures AssignAll(Flags(D2, B3), [Idle0, Worker("F", 5)], 0) == Some((Flags(D2, B4), [Worker("B", 2), Worker("F", 5)]))
  {
    FirstB();
    TimeOfB();
    FlagsBusy(D2, B3, "B");
    IdleTwo(Idle0, Worker("F", 5), Worker("B", 2));
    IdleTwo(Worker("B", 2), Worker("F", 5), Worker("B", 2));
    AssignLast(Flags(D2, B3), [Idle0, Worker("F", 5)], "B", 2, Flags(D2, B4), [Worker("B", 2), Worker("F", 5)]);
  }

  lemma {:induction false} Assign6()
    ensures AssignAll(Flags(D3, B4), [Idle0, Worker("F", 3)], 0) == Some((Flags(D3, B5), [Worker("D", 4), Worker("F", 3)]))
  {
    FirstD();
    TimeOfD();
    FlagsBusy(D3, B4, "D");
    IdleTwo(Idle0, Worker("F", 3), Worker("D", 4));
    IdleTwo(Worker("D", 4), Worker("F", 3), Worker("D", 4));
    AssignLast(Flags(D3, B4), [Idle0, Worker("F", 3)], "D", 4, Flags(D3, B5), [Worker("D", 4), Worker("F", 3)]);
  }

  lemma {:induction false} Assign10()
    ensures AssignAll(Flags(D5, B5), [Idle0, Idle0], 0) == Some((Flags(D5, B6), [Worker("E", 5), Idle0]))
  {
    FirstE();
    TimeOfE();
    FlagsBusy(D5, B5, "E");
    NothingWhileE();
    IdleTwo(Idle0, Idle0, Worker("E", 5));
    IdleTwo(Worker("E", 5), Idle0, Worker("E", 5));
    AssignLast(Flags(D5, B5), [Idle0, Idle0], "E", 5, Flags(D5, B6), [Worker("E", 5), Idle0]);
  }

  // ---------------------------------------------------------------------
  // Each second

  /** The table is not finished while E is not completed. */
  /** E is not completed before second 14. */
  lemma {:induction false} Pending()
    ensures "E" !in D5 && "E" !in D4 && "E" !in D3 && "E" !in D2 && "E" !in D1 && "E" !in D0
  {
    assert "E"[0] == 'E';
    assert forall x :: x in D5 ==> x[0] != 'E';
  }

  lemma {:induction false} Unfinished(done: set<string>, busy: set<string>)
    requires "E" !in done
    ensures !Finished(Flags(done, busy))
  {
    assert !Flags(done, busy)["E"].completed;
  }

  lemma {:induction false} Advance0()
    ensures Advance(Flags(D0, B1), [Worker("C", 3), Idle0]) == (Flags(D0, B1), [Worker("C", 2), Idle0])
  {
    AdvanceTwo(Flags(D0, B1), Worker("C", 3), Idle0);
  }

  /** C goes to the first elf for 3 seconds; nothing else may start. */
  lemma {:induction false} Second0(fuel: nat)
    requires fuel > 0
    ensures Timed(Flags(D0, B0), [Idle0, Idle0], 0, 0, fuel) == Timed(Flags(D0, B1), [Worker("C", 2), Idle0], 0, 1, fuel - 1)
  {
    Assign0();
    Advance0();
    Pending();
    Unfinished(D0, B0);
    Round(Flags(D0, B0), [Idle0, Idle0], (Flags(D0, B1), [Worker("C", 3), Idle0]), (Flags(D0, B1), [Worker("C", 2), Idle0]), 0, fuel);
  }

  lemma {:induction false} Advance1()
    ensures Advance(Flags(D0, B1), [Worker("C", 2), Idle0]) == (Flags(D0, B1), [Worker("C", 1), Idle0])
  {
    AdvanceTwo(Flags(D0, B1), Worker("C", 2), Idle0);
  }

  /** The first elf works on C; the second finds nothing to start. */
  lemma {:induction false} Second1(fuel: nat)
    requires fuel > 0
    ensures Timed(Flags(D0, B1), [Worker("C", 2), Idle0], 0, 1, fuel) == Timed(Flags(D0, B1), [Worker("C", 1), Idle0], 0, 2, fuel - 1)
  {
    NothingWhileC();
    IdleTwo(Worker("C", 2), Idle0, Idle0);
    AssignStop(Flags(D0, B1), [Worker("C", 2), Idle0]);
    Advance1();
    Pending();
    Unfinished(D0, B1);
    Round(Flags(D0, B1), [Worker("C", 2), Idle0], (Flags(D0, B1), [Worker("C", 2), Idle0]), (Flags(D0, B1), [Worker("C", 1), Idle0]), 1, fuel);
  }

  lemma {:induction false} Advance2()
    ensures Advance(Flags(D0, B1), [Worker("C", 1), Idle0]) == (Flags(D1, B1), [Idle0, Idle0])
  {
    AdvanceTwo(Flags(D0, B1), Worker("C", 1), Idle0);
    FlagsMark(D0, B1, "C");
  }

  /** C is completed. */
  lemma {:induction false} Second2(fuel: nat)
    requires fuel > 0
    ensures Timed(Flags(D0, B1), [Worker("C", 1), Idle0], 0, 2, fuel) == Timed(Flags(D1, B1), [Idle0, Idle0], 0, 3, fuel - 1)
  {
    NothingWhileC();
    IdleTwo(Worker("C", 1), Idle0, Idle0);
    AssignStop(Flags(D0, B1), [Worker("C", 1), Idle0]);
    Advance2();
    Pending();
    Unfinished(D0, B1);
    Round(Flags(D0, B1), [Worker("C", 1), Idle0], (Flags(D0, B1), [Worker("C", 1), Idle0]), (Flags(D1, B1), [Idle0, Idle0]), 2, fuel);
  }

  lemma {:induction false} Advance3()
    ensures Advance(Flags(D1, B3), [Worker("A", 1), Worker("F", 6)]) == (Flags(D2, B3), [Idle0, Worker("F", 5)])
  {
    AdvanceTwo(Flags(D1, B3), Worker("A", 1), Worker("F", 6));
    FlagsMark(D1, B3, "A");
  }

  /** A goes to the first elf for 1 second and F to the second for 6; A is completed. */
  lemma {:induction false} Second3(fuel: nat)
    requires fuel > 0
    ensures Timed(Flags(D1, B1), [Idle0, Idle0], 0, 3, fuel) == Timed(Flags(D2, B3), [Idle0, Worker("F", 5)], 0, 4, fuel - 1)
  {
    Assign3();
    Advance3();
    Pending();
    Unfinished(D1, B1);
    Round(Flags(D1, B1), [Idle0, Idle0], (Flags(D1, B3), [Worker("A", 1), Worker("F", 6)]), (Flags(D2, B3), [Idle0, Worker("F", 5)]), 3, fuel);
  }

  lemma {:induction false} Advance4()
    ensures Advance(Flags(D2, B4), [Worker("B", 2), Worker("F", 5)]) == (Flags(D2, B4), [Worker("B", 1), Worker("F", 4)])
  {
    AdvanceTwo(Flags(D2, B4), Worker("B", 2), Worker("F", 5));
  }

  /** B goes to the first elf for 2 seconds. */
  lemma {:induction false} Second4(fuel: nat)
    requires fuel > 0
    ensures Timed(Flags(D2, B3), [Idle0, Worker("F", 5)], 0, 4, fuel) == Timed(Flags(D2, B4), [Worker("B", 1), Worker("F", 4)], 0, 5, fuel - 1)
  {
    Assign4();
    Advance4();
    Pending();
    Unfinished(D2, B3);
    Round(Flags(D2, B3), [Idle0, Worker("F", 5)], (Flags(D2, B4), [Worker("B", 2), Worker("F", 5)]), (Flags(D2, B4), [Worker("B", 1), Worker("F", 4)]), 4, fuel);
  }

  lemma {:induction false} Advance5()
    ensures Advance(Flags(D2, B4), [Worker("B", 1), Worker("F", 4)]) == (Flags(D3, B4), [Idle0, Worker("F", 3)])
  {
    AdvanceTwo(Flags(D2, B4), Worker("B", 1), Worker("F", 4));
    FlagsMark(D2, B4, "B");
  }

  /** B is completed. */
  lemma {:induction false} Second5(fuel: nat)
    requires fuel > 0
    ensures Timed(Flags(D2, B4), [Worker("B", 1), Worker("F", 4)], 0, 5, fuel) == Timed(Flags(D3, B4), [Idle0, Worker("F", 3)], 0, 6, fuel - 1)
  {
    IdleTwo(Worker("B", 1), Worker("F", 4), Idle0);
    AssignStop(Flags(D2, B4), [Worker("B", 1), Worker("F", 4)]);
    Advance5();
    Pending();
    Unfinished(D2, B4);
    Round(Flags(D2, B4), [Worker("B", 1), Worker("F", 4)], (Flags(D2, B4), [Worker("B", 1), Worker("F", 4)]), (Flags(D3, B4), [Idle0, Worker("F", 3)]), 5, fuel);
  }

  lemma {:induction false} Advance6()
    ensures Advance(Flags(D3, B5), [Worker("D", 4), Worker("F", 3)]) == (Flags(D3, B5), [Worker("D", 3), Worker("F", 2)])
  {
    AdvanceTwo(Flags(D3, B5), Worker("D", 4), Worker("F", 3));
  }

  /** D goes to the first elf for 4 seconds. */
  lemma {:induction false} Second6(fuel: nat)
    requires fuel > 0
    ensures Timed(Flags(D3, B4), [Idle0, Worker("F", 3)], 0, 6, fuel) == Timed(Flags(D3, B5), [Worker("D", 3), Worker("F", 2)], 0, 7, fuel - 1)
  {
    Assign6();
    Advance6();
    Pending();
    Unfinished(D3, B4);
    Round(Flags(D3, B4), [Idle0, Worker("F", 3)], (Flags(D3, B5), [Worker("D", 4), Worker("F", 3)]), (Flags(D3, B5), [Worker("D", 3), Worker("F", 2)]), 6, fuel);
  }

  lemma {:induction false} Advance7()
    ensures Advance(Flags(D3, B5), [Worker("D", 3), Worker("F", 2)]) == (Flags(D3, B5), [Worker("D", 2), Worker("F", 1)])
  {
    AdvanceTwo(Flags(D3, B5), Worker("D", 3), Worker("F", 2));
  }

  /** Both elves work. */
  lemma {:induction false} Second7(fuel: nat)
    requires fuel > 0
    ensures Timed(Flags(D3, B5), [Worker("D", 3), Worker("F", 2)], 0, 7, fuel) == Timed(Flags(D3, B5), [Worker("D", 2), Worker("F", 1)], 0, 8, fuel - 1)
  {
    IdleTwo(Worker("D", 3), Worker("F", 2), Idle0);
    AssignStop(Flags(D3, B5), [Worker("D", 3), Worker("F", 2)]);
    Advance7();
    Pending();
    Unfinished(D3, B5);
    Round(Flags(D3, B5), [Worker("D", 3), Worker("F", 2)], (Flags(D3, B5), [Worker("D", 3), Worker("F", 2)]), (Flags(D3, B5), [Worker("D", 2), Worker("F", 1)]), 7, fuel);
  }

  lemma {:induction false} Advance8()
    ensures Advance(Flags(D3, B5), [Worker("D", 2), Worker("F", 1)]) == (Flags(D4, B5), [Worker("D", 1), Idle0])
  {
    AdvanceTwo(Flags(D3, B5), Worker("D", 2), Worker("F", 1));
    FlagsMark(D3, B5, "F");
  }

  /** F is completed. */
  lemma {:induction false} Second8(fuel: nat)
    requires fuel > 0
    ensures Timed(Flags(D3, B5), [Worker("D", 2), Worker("F", 1)], 0, 8, fuel) == Timed(Flags(D4, B5), [Worker("D", 1), Idle0], 0, 9, fuel - 1)
  {
    IdleTwo(Worker("D", 2), Worker("F", 1), Idle0);
    AssignStop(Flags(D3, B5), [Worker("D", 2), Worker("F", 1)]);
    Advance8();
    Pending();
    Unfinished(D3, B5);
    Round(Flags(D3, B5), [Worker("D", 2), Worker("F", 1)], (Flags(D3, B5), [Worker("D", 2), Worker("F", 1)]), (Flags(D4, B5), [Worker("D", 1), Idle0]), 8, fuel);
  }

  lemma {:induction false} Advance9()
    ensures Advance(Flags(D4, B5), [Worker("D", 1), Idle0]) == (Flags(D5, B5), [Idle0, Idle0])
  {
    AdvanceTwo(Flags(D4, B5), Worker("D", 1), Idle0);
    FlagsMark(D4, B5, "D");
  }

  /** E still waits for D; D is completed. */
  lemma {:induction false} Second9(fuel: nat)
    requires fuel > 0
    ensures Timed(Flags(D4, B5), [Worker("D", 1), Idle0], 0, 9, fuel) == Timed(Flags(D5, B5), [Idle0, Idle0], 0, 10, fuel - 1)
  {
    NothingBeforeD();
    IdleTwo(Worker("D", 1), Idle0, Idle0);
    AssignStop(Flags(D4, B5), [Worker("D", 1), Idle0]);
    Advance9();
    Pending();
    Unfinished(D4, B5);
    Round(Flags(D4, B5), [Worker("D", 1), Idle0], (Flags(D4, B5), [Worker("D", 1), Idle0]), (Flags(D5, B5), [Idle0, Idle0]), 9, fuel);
  }

  lemma {:induction false} Advance10()
    ensures Advance(Flags(D5, B6), [Worker("E", 5), Idle0]) == (Flags(D5, B6), [Worker("E", 4), Idle0])
  {
    AdvanceTwo(Flags(D5, B6), Worker("E", 5), Idle0);
  }

  /** E goes to the first elf for 5 seconds; nothing else is left to start. */
  lemma {:induction false} Second10(fuel: nat)
    requires fuel > 0
    ensures Timed(Flags(D5, B5), [Idle0, Idle0], 0, 10, fuel) == Timed(Flags(D5, B6), [Worker("E", 4), Idle0], 0, 11, fuel - 1)
  {
    Assign10();
    Advance10();
    Pending();
    Unfinished(D5, B5);
    Round(Flags(D5, B5), [Idle0, Idle0], (Flags(D5, B6), [Worker("E", 5), Idle0]), (Flags(D5, B6), [Worker("E", 4), Idle0]), 10, fuel);
  }

  lemma {:induction false} AdvanceOnE(k: nat)
    requires 11 <= k <= 13
    ensures Advance(Flags(D5, B6), [Worker("E", 15 - k), Idle0]) == (Flags(D5, B6), [Worker("E", 14 - k), Idle0])
  {
    AdvanceTwo(Flags(D5, B6), Worker("E", 15 - k), Idle0);
  }

  /** The first elf works on E, the last step. */
  lemma {:induction false} SecondOnE(k: nat, fuel: nat)
    requires 11 <= k <= 13 && fuel > 0
    ensures Timed(Flags(D5, B6), [Worker("E", 15 - k), Idle0], 0, k, fuel)
         == Timed(Flags(D5, B6), [Worker("E", 14 - k), Idle0], 0, k + 1, fuel - 1)
  {
    var g, ws := Flags(D5, B6), [Worker("E", 15 - k), Idle0];
    NothingWhileE();
    AssignStop(g, ws);
    AdvanceOnE(k);
    Pending();
    Unfinished(D5, B6);
    Round(g, ws, (g, ws), (g, [Worker("E", 14 - k), Idle0]), k, fuel);
  }

  lemma {:induction false} Advance14()
    ensures Advance(Flags(D5, B6), [Worker("E", 1), Idle0]) == (Flags(D6, B6), [Idle0, Idle0])
  {
    AdvanceTwo(Flags(D5, B6), Worker("E", 1), Idle0);
    FlagsMark(D5, B6, "E");
  }

  /** E is completed. */
  lemma {:induction false} Second14(fuel: nat)
    requires fuel > 0
    ensures Timed(Flags(D5, B6), [Worker("E", 1), Idle0], 0, 14, fuel) == Timed(Flags(D6, B6), [Idle0, Idle0], 0, 15, fuel - 1)
  {
    NothingWhileE();
    IdleTwo(Worker("E", 1), Idle0, Idle0);
    AssignStop(Flags(D5, B6), [Worker("E", 1), Idle0]);
    Advance14();
    Pending();
    Unfinished(D5, B6);
    Round(Flags(D5, B6), [Worker("E", 1), Idle0], (Flags(D5, B6), [Worker("E", 1), Idle0]), (Flags(D6, B6), [Idle0, Idle0]), 14, fuel);
  }

  // ---------------------------------------------------------------------
  // The whole run

  /** Until second 15 some step is not completed. */
  lemma {:induction false} StateUnfinished(k: nat)
    requires k < 15
    ensures !Finished(State(k).0)
  {
    Pending();
    if k <= 2 { Unfinished(D0, B1); Unfinished(D0, B0); }
    else if k == 3 { Unfinished(D1, B1); }
    else if k <= 5 { Unfinished(D2, B3); Unfinished(D2, B4); }
    else if k == 6 { Unfinished(D3, B4); }
    else if k <= 8 { Unfinished(D3, B5); }
    else if k == 9 { Unfinished(D4, B5); }
    else if k == 10 { Unfinished(D5, B5); }
    else { Unfinished(D5, B6); }
  }

  /** Out of time before every step is completed, the run gives up. */
  lemma {:induction false} Stop(g: Graph, ws: seq<Worker>, time: int)
    requires !Finished(g)
    ensures Timed(g, ws, 0, time, 0) == None
  {
  }

  /** Until second 15, a run allowed no more time gives up. */
  lemma {:induction false} OutOfTime(k: nat)
    requires k < 15
    ensures Timed(State(k).0, State(k).1, 0, k, 0) == None
  {
    StateUnfinished(k);
    Stop(State(k).0, State(k).1, k);
  }

  /** At second 15 every step is completed. */
  lemma {:induction false} AllDone()
    ensures Finished(Flags(D6, B6))
  {
    var g := Flags(D6, B6);
    assert SampleTable.Keys == {"A", "B", "C", "D", "E", "F"};
    assert forall k :: k in g ==> g[k].completed;
  }

  /** Once every step is completed, the run reports the time. */
  lemma {:induction false} Done(g: Graph, ws: seq<Worker>, time: int, fuel: nat)
    requires Finished(g)
    ensures Timed(g, ws, 0, time, fuel) == Some(time)
  {
  }

  /** At second 15 the run reports the time. */
  lemma {:induction false} Finish(fuel: nat)
    ensures Timed(State(15).0, State(15).1, 0, 15, fuel) == Some(15)
  {
    assert State(15) == (Flags(D6, B6), [Idle0, Idle0]);
    AllDone();
    Done(State(15).0, State(15).1, 15, fuel);
  }

  /** One second of the outer loop, from the state at second `k` to the state at second `k + 1`. */
  lemma {:induction false} Second(k: nat, fuel: nat)
    requires k < 15 && fuel > 0
    ensures Timed(State(k).0, State(k).1, 0, k, fuel) == Timed(State(k + 1).0, State(k + 1).1, 0, k + 1, fuel - 1)
  {
    if k == 0 { Second0(fuel); }
    else if k == 1 { Second1(fuel); }
    else if k == 2 { Second2(fuel); }
    else if k == 3 { Second3(fuel); }
    else if k == 4 { Second4(fuel); }
    else if k == 5 { Second5(fuel); }
    else if k == 6 { Second6(fuel); }
    else if k == 7 { Second7(fuel); }
    else if k == 8 { Second8(fuel); }
    else if k == 9 { Second9(fuel); }
    else if k == 10 { Second10(fuel); }
    else if k < 14 { SecondOnE(k, fuel); }
    else { Second14(fuel); }
  }

  /** A run that from second `k` either moves one second on or, out of time, gives up, and that
      stops at second 15, ends at second 15 exactly when it may last the `15 - k` seconds left. */
  lemma {:induction false} Countdown(run: (nat, nat) -> Option<int>, k: nat, fuel: nat)
    requires k <= 15
    requires forall j: nat, u: nat :: k <= j < 15 && u > 0 ==> run(j, u) == run(j + 1, u - 1)
    requires forall j: nat :: k <= j < 15 ==> run(j, 0) == None
    requires forall u: nat :: run(15, u) == Some(15)
    ensures run(k, fuel) == if fuel >= 15 - k then Some(15) else None
    decreases 15 - k
  {
    if k < 15 && fuel > 0 {
      Countdown(run, k + 1, fuel - 1);
    }
  }

  /** The run from the state at second `k`, for at most `fuel` more seconds. */
  ghost function Run(k: nat, fuel: nat): Option<int> {
    if k <= 15 then Timed(State(k).0, State(k).1, 0, k, fuel) else None
  }

  lemma {:induction false} Steps()
    ensures forall j: nat, u: nat :: j < 15 && u > 0 ==> Run(j, u) == Run(j + 1, u - 1)
  {
    forall j: nat, u: nat | j < 15 && u > 0
      ensures Run(j, u) == Run(j + 1, u - 1)
    {
      Second(j, u);
    }
  }

  lemma {:induction false} Stops()
    ensures forall j: nat :: j < 15 ==> Run(j, 0) == None
  {
    forall j: nat | j < 15
      ensures Run(j, 0) == None
    {
      OutOfTime(j);
    }
  }

  lemma {:induction false} Ends()
    ensures forall u: nat :: Run(15, u) == Some(15)
  {
    forall u: nat
      ensures Run(15, u) == Some(15)
    {
      Finish(u);
    }
  }

  /** From the start, the run ends at second 15 if it may last 15 seconds. */
  lemma {:induction false} SampleRun(fuel: nat)
    ensures Run(0, fuel) == if fuel >= 15 then Some(15) else None
  {
    Steps();
    Stops();
    Ends();
    Countdown(Run, 0, fuel);
  }

  /** The example has six steps. */
  lemma {:induction false} SampleSize()
    ensures |SampleTable| == 6
  {
    assert SampleTable.Keys == {"A", "B", "C", "D", "E", "F"};
  }

  /** On a table of at most ten steps, part two sends two elves and adds no extra seconds. */
  lemma {:induction false} SmallTable(g: Graph, fuel: nat)
    requires |g| <= 10
    ensures PartTwo(g, fuel) == Timed(g, Rested(2), 0, 0, fuel)
  {
  }

  /** The run starts from the example table with two idle elves. */
  lemma {:induction false} Start()
    ensures State(0) == (SampleTable, Rested(2))
  {
    FlagsStart();
    assert Rested(2) == [Idle0, Idle0];
  }

  /** Part two on the example: two elves with no extra seconds per step complete every step
      after exactly 15 seconds, and the search gives up when allowed fewer. */
  lemma {:induction false} SamplePartTwo(fuel: nat)
    ensures PartTwo(SampleTable, fuel) == if fuel >= 15 then Some(15) else None
  {
    SampleSize();
    SmallTable(SampleTable, fuel);
    Start();
    SampleRun(fuel);
  }
}

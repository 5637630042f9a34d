/** Day 8: a pointer-driven reading of a flat list of integers into numbered tree nodes,
    the sum of all metadata, and the value of the root. */
module TreeNodes {
  import opened Wrappers
  import opened Strings
  import opened Utils

  // ---------------------------------------------------------------------------
  // Nodes and the reading loop
  // ---------------------------------------------------------------------------

  /** `Node`: its number, the child and metadata counts from its header, the metadata and
      child numbers found so far, and the number of its parent (0 for the root). */
  datatype Node = Node(id: int, numChildren: int, numMetaDatas: int, metaData: seq<int>,
                       children: seq<int>, parent: int)

  /** `needsMetadata`. */
  predicate NeedsMetadata(n: Node) {
    |n.metaData| < n.numMetaDatas
  }

  /** `childrenDiscovered`. */
  predicate ChildrenDiscovered(n: Node) {
    |n.children| == n.numChildren
  }

  /** How many entries the metadata loop appends to a node. */
  function Missing(n: Node): (k: nat)
    ensures k == 0 <==> !NeedsMetadata(n)
  {
    if NeedsMetadata(n) then n.numMetaDatas - |n.metaData| else 0
  }

  /** The variables of the reading loop (`isMetaData` is false between iterations). */
  datatype Parser = Parser(nodes: map<int, Node>, pointer: int, currentNode: int, isNewID: bool)

  /** The loop's state before its first iteration. */
  function Start(): Parser {
    Parser(map[], 0, 0, true)
  }

  /** The nodes are numbered 1, 2, ..., without gaps. */
  ghost predicate Numbered(nodes: map<int, Node>) {
    forall i :: i in nodes <==> 1 <= i <= |nodes|
  }

  /** Every node's parent is an earlier node, or 0. */
  ghost predicate ParentsFirst(nodes: map<int, Node>) {
    forall i :: i in nodes ==> 0 <= nodes[i].parent < i
  }

  /** What every state of the loop satisfies, and what keeps it going down. */
  ghost predicate Inv(ints: seq<int>, s: Parser) {
    0 <= s.pointer <= |ints| && Numbered(s.nodes) && ParentsFirst(s.nodes) &&
    0 <= s.currentNode && (s.currentNode == 0 || s.currentNode in s.nodes)
  }

  /** Node `i` carries its own number, its parent is 0 exactly for node 1, and its
      children are later nodes that name it as their parent. */
  predicate Linked(nodes: map<int, Node>, i: int)
    requires i in nodes
  {
    var n := nodes[i];
    n.id == i && (n.parent == 0 <==> i == 1) &&
    forall j :: 0 <= j < |n.children| ==>
      i < n.children[j] && n.children[j] in nodes && nodes[n.children[j]].parent == i
  }

  ghost predicate WellLinked(nodes: map<int, Node>) {
    forall i :: i in nodes ==> Linked(nodes, i)
  }

  /** The links of a state: a new header read under no node only while the table is empty. */
  ghost predicate Links(s: Parser) {
    WellLinked(s.nodes) && (s.isNewID && s.currentNode == 0 ==> |s.nodes| == 0)
  }

  /** One iteration makes progress: the pointer moves on, or the loop climbs to an earlier
      node, or it turns to reading a new header. */
  predicate Progress(ints: seq<int>, t: Parser, s: Parser) {
    t.pointer > s.pointer ||
    (t.pointer == s.pointer &&
     (t.currentNode < s.currentNode ||
      (t.currentNode == s.currentNode && t.isNewID && !s.isNewID)))
  }

  /** The header part of an iteration: a new node numbered one past the count, with its
      two counts read at the pointer, added as the last child of the current node, which
      it replaces. `None` where the count lies past the end of the list. */
  function Create(ints: seq<int>, s: Parser): (r: Option<Parser>)
    requires Inv(ints, s) && s.pointer < |ints|
    ensures r.Some? ==> Inv(ints, r.value) && r.value.currentNode in r.value.nodes
    ensures r.Some? && s.isNewID ==> r.value.pointer == s.pointer + 2 && r.value.isNewID
    ensures r.Some? && !s.isNewID ==> r.value == s
  {
    if !s.isNewID then
      if s.currentNode in s.nodes then Some(s) else None
    else if s.pointer + 1 >= |ints| then None
    else
      var parent := s.currentNode;
      var id := |s.nodes| + 1;
      var added := s.nodes[id := Node(id, ints[s.pointer], ints[s.pointer + 1], [], [], parent)];
      var nodes := if parent != 0 then
                     added[parent := added[parent].(children := added[parent].children + [id])]
                   else added;
      Some(Parser(nodes, s.pointer + 2, id, true))
  }

  /** The header part of an iteration that reads a new header, written out. */
  lemma {:induction false} CreateNew(ints: seq<int>, s: Parser, added: map<int, Node>, r: map<int, Node>)
    requires Inv(ints, s) && s.isNewID && s.pointer + 1 < |ints|
    requires added == s.nodes[|s.nodes| + 1 := Node(|s.nodes| + 1, ints[s.pointer], ints[s.pointer + 1], [], [], s.currentNode)]
    requires r == if s.currentNode != 0 then
                    added[s.currentNode := added[s.currentNode].(children := added[s.currentNode].children + [|s.nodes| + 1])]
                  else added
    ensures Create(ints, s) == Some(Parser(r, s.pointer + 2, |s.nodes| + 1, true))
  {
  }

  /** The metadata loop on node `id`: the missing entries taken from the pointer on,
      `None` where the list ends first. */
  function Gather(ints: seq<int>, nodes: map<int, Node>, id: int, pointer: int): (r: Option<(map<int, Node>, int)>)
    requires id in nodes && 0 <= pointer <= |ints|
    ensures r.Some? ==> pointer <= r.value.1 <= |ints| && r.value.0.Keys == nodes.Keys
  {
    var node := nodes[id];
    var k := Missing(node);
    if pointer + k > |ints| then None
    else Some((nodes[id := node.(metaData := node.metaData + ints[pointer..pointer + k])], pointer + k))
  }

  /** The metadata loop ends with exactly the declared number of entries. */
  lemma {:induction false} GatherFills(ints: seq<int>, nodes: map<int, Node>, id: int, pointer: int)
    requires id in nodes && 0 <= pointer <= |ints| && Gather(ints, nodes, id, pointer).Some?
    requires |nodes[id].metaData| <= nodes[id].numMetaDatas
    ensures var (m, p) := Gather(ints, nodes, id, pointer).value;
      |m[id].metaData| == nodes[id].numMetaDatas &&
      m[id].metaData == nodes[id].metaData + ints[pointer..p] &&
      forall j :: j in nodes && j != id ==> m[j] == nodes[j]
  {
  }

  /** One iteration of the reading loop. After the header part, a node whose children are
      all found takes its missing metadata from the pointer on and hands over to its
      parent; any other node waits for a new child header. `None` where the loop raises:
      a missing list entry, or a climb past the root while entries are left. */
  function Step(ints: seq<int>, s: Parser): (r: Option<Parser>)
    requires Inv(ints, s) && s.pointer < |ints|
    ensures r.Some? ==> Inv(ints, r.value) && Progress(ints, r.value, s)
  {
    var c :- Create(ints, s);
    var node := c.nodes[c.currentNode];
    if !ChildrenDiscovered(node) then Some(c.(isNewID := true))
    else
      var g :- Gather(ints, c.nodes, c.currentNode, c.pointer);
      var nodes := g.0;
      Some(Parser(nodes, g.1, node.parent, false))
  }

  /** The node table the loop leaves behind, or `None` where it raises. */
  function Parse(ints: seq<int>, s: Parser): Option<map<int, Node>>
    requires Inv(ints, s)
    decreases |ints| - s.pointer, s.currentNode, if s.isNewID then 0 else 1
  {
    if s.pointer >= |ints| then Some(s.nodes)
    else
      match Step(ints, s)
      case None => None
      case Some(t) => Parse(ints, t)
  }

  /** The header part keeps the links: the new node names its parent, which lists it last. */
  lemma {:induction false} CreateLinks(ints: seq<int>, s: Parser)
    requires Inv(ints, s) && s.pointer < |ints| && Links(s) && Create(ints, s).Some?
    ensures Links(Create(ints, s).value)
  {
    if s.isNewID {
      var c := Create(ints, s).value;
      var id := |s.nodes| + 1;
      forall i | i in c.nodes
        ensures Linked(c.nodes, i)
      {
        if i != id {
          assert Linked(s.nodes, i);
        }
      }
    }
  }

  /** A whole iteration keeps the links: gathering metadata touches nothing else. */
  lemma {:induction false} StepLinks(ints: seq<int>, s: Parser)
    requires Inv(ints, s) && s.pointer < |ints| && Links(s) && Step(ints, s).Some?
    ensures Links(Step(ints, s).value)
  {
    CreateLinks(ints, s);
    var c := Create(ints, s).value;
    var node := c.nodes[c.currentNode];
    if ChildrenDiscovered(node) {
      var nodes := Gather(ints, c.nodes, c.currentNode, c.pointer).value.0;
      forall i | i in nodes
        ensures Linked(nodes, i)
      {
        assert Linked(c.nodes, i);
      }
    }
  }

  /** Whatever the input, a table the loop leaves behind is numbered without gaps and
      linked both ways between parents and children. */
  lemma {:induction false} ParseWellLinked(ints: seq<int>, s: Parser)
    requires Inv(ints, s) && Links(s) && Parse(ints, s).Some?
    ensures Numbered(Parse(ints, s).value) && WellLinked(Parse(ints, s).value)
    decreases |ints| - s.pointer, s.currentNode, if s.isNewID then 0 else 1
  {
    if s.pointer < |ints| {
      StepLinks(ints, s);
      ParseWellLinked(ints, Step(ints, s).value);
    }
  }

  /** The inner metadata loop of `ProcessInput`. */
  method ReadMetadata(ints: seq<int>, nodes0: map<int, Node>, currentNode: int, pointer0: int)
    returns (r: Option<(map<int, Node>, int)>)
    requires currentNode in nodes0 && 0 <= pointer0 <= |ints|
    ensures r == Gather(ints, nodes0, currentNode, pointer0)
  {
    var nodes, pointer := nodes0, pointer0;
    ghost var node := nodes[currentNode];
    assert ints[pointer0..pointer] == [] && node.metaData + [] == node.metaData;
    assert nodes0[currentNode := node.(metaData := node.metaData)] == nodes0;
    while NeedsMetadata(nodes[currentNode])
      invariant currentNode in nodes
      invariant pointer0 <= pointer <= pointer0 + Missing(node) && pointer <= |ints|
      invariant nodes == nodes0[currentNode := node.(metaData := node.metaData + ints[pointer0..pointer])]
      decreases pointer0 + Missing(node) - pointer
    {
      if pointer >= |ints| {
        return None;
      }
      assert ints[pointer0..pointer + 1] == ints[pointer0..pointer] + [ints[pointer]];
      assert (node.metaData + ints[pointer0..pointer]) + [ints[pointer]] ==
             node.metaData + ints[pointer0..pointer + 1];
      nodes := nodes[currentNode := nodes[currentNode].(metaData := nodes[currentNode].metaData + [ints[pointer]])];
      pointer := pointer + 1;
    }
    return Some((nodes, pointer));
  }

  /** One pass through the body of the reading loop of `ProcessInput`, on the loop's
      variables; `None` where the body raises. */
  method Iterate(ints: seq<int>, nodes0: map<int, Node>, pointer0: int, currentNode0: int, isNewID0: bool)
    returns (r: Option<Parser>)
    requires Inv(ints, Parser(nodes0, pointer0, currentNode0, isNewID0)) && pointer0 < |ints|
    ensures r == Step(ints, Parser(nodes0, pointer0, currentNode0, isNewID0))
  {
    ghost var s := Parser(nodes0, pointer0, currentNode0, isNewID0);
    var nodes, pointer, currentNode, isNewID := nodes0, pointer0, currentNode0, isNewID0;
    var isMetaData := false;
    if isNewID {
      var parent := currentNode;
      currentNode := |nodes| + 1;
      if pointer + 1 >= |ints| {
        return None;
      }
      var numChildren, numMetaDatas := ints[pointer], ints[pointer + 1];
      nodes := nodes[currentNode := Node(currentNode, numChildren, numMetaDatas, [], [], parent)];
      ghost var added := nodes;
      if parent != 0 {
        nodes := nodes[parent := nodes[parent].(children := nodes[parent].children + [currentNode])];
      }
      CreateNew(ints, s, added, nodes);
      pointer := pointer + 2;
    } else if currentNode !in nodes {
      return None;
    }
    ghost var c := Parser(nodes, pointer, currentNode, isNewID);
    if ChildrenDiscovered(nodes[currentNode]) {
      isMetaData := true;
      isNewID := false;
    } else {
      isNewID := true;
      isMetaData := false;
      StepWait(ints, s, c);
    }
    if isMetaData {
      var g := ReadMetadata(ints, nodes, currentNode, pointer);
      if g.None? {
        StepDrop(ints, s, c);
        return None;
      }
      StepClimb(ints, s, c, g.value.0, g.value.1);
      nodes, pointer := g.value.0, g.value.1;
      isMetaData := false;
      currentNode := nodes[currentNode].parent;
    }
    return Some(Parser(nodes, pointer, currentNode, isNewID));
  }

  /** The reading loop of `ProcessInput`. */
  method ReadNodes(ints: seq<int>) returns (r: Option<map<int, Node>>)
    ensures r == Parse(ints, Start())
  {
    var nodes: map<int, Node> := map[];
    var isNewID := true;
    var currentNode := 0;
    var pointer := 0;
    while pointer < |ints|
      invariant Inv(ints, Parser(nodes, pointer, currentNode, isNewID))
      invariant Parse(ints, Parser(nodes, pointer, currentNode, isNewID)) == Parse(ints, Start())
      decreases |ints| - pointer, currentNode, if isNewID then 0 else 1
    {
      ghost var s := Parser(nodes, pointer, currentNode, isNewID);
      var next := Iterate(ints, nodes, pointer, currentNode, isNewID);
      if next.None? {
        ParseFails(ints, s);
        return None;
      }
      ParseStep(ints, s, next.value);
      nodes, pointer, currentNode, isNewID := next.value.nodes, next.value.pointer, next.value.currentNode, next.value.isNewID;
    }
    return Some(nodes);
  }

  /** `ProcessInput`: every word read as an integer, then the reading loop. */
  method ProcessInput(data: string) returns (r: Option<map<int, Node>>)
    ensures ParseAll(SplitWs(data)).None? ==> r.None?
    ensures ParseAll(SplitWs(data)).Some? ==> r == Parse(ParseAll(SplitWs(data)).value, Start())
  {
    var parsed := ParseAll(SplitWs(data));
    if parsed.None? {
      return None;
    }
    r := ReadNodes(parsed.value);
  }

  // ---------------------------------------------------------------------------
  // The tree the list describes
  // ---------------------------------------------------------------------------

  /** A node of the puzzle's tree: its child nodes and its metadata entries. */
  datatype Tree = Tree(children: seq<Tree>, meta: seq<int>)

  /** The puzzle's format read from position `pos`: a header of two counts, that many child
      nodes, then that many metadata entries. `None` where the list ends early or a count
      is negative; otherwise the tree and the position after it. */
  function ReadTree(ints: seq<int>, pos: int): (r: Option<(Tree, int)>)
    requires 0 <= pos <= |ints|
    ensures r.Some? ==> pos + 2 <= r.value.1 <= |ints|
    decreases |ints| - pos, 0, 0
  {
    if pos + 1 >= |ints| then None
    else
      var n, m := ints[pos], ints[pos + 1];
      if n < 0 || m < 0 then None
      else
        var cs :- ReadChildren(ints, pos + 2, n);
        if cs.1 + m > |ints| then None
        else Some((Tree(cs.0, ints[cs.1..cs.1 + m]), cs.1 + m))
  }

  /** `n` trees one after the other from position `pos`. */
  function ReadChildren(ints: seq<int>, pos: int, n: nat): (r: Option<(seq<Tree>, int)>)
    requires 0 <= pos <= |ints|
    ensures r.Some? ==> pos <= r.value.1 <= |ints| && |r.value.0| == n
    ensures r.Some? && n > 0 ==> pos + 2 <= r.value.1
    decreases |ints| - pos, 1, n
  {
    if n == 0 then Some(([], pos))
    else
      var first :- ReadTree(ints, pos);
      var rest :- ReadChildren(ints, first.1, n - 1);
      Some(([first.0] + rest.0, rest.1))
  }

  /** The number of nodes of a tree. */
  function Size(t: Tree): (r: nat)
    ensures r >= 1
    decreases t, |t.children| + 1
  {
    1 + SizeUpTo(t, |t.children|)
  }

  /** The number of nodes of the first `j` children of `t`. */
  function SizeUpTo(t: Tree, j: nat): nat
    requires j <= |t.children|
    decreases t, j
  {
    if j == 0 then 0 else SizeUpTo(t, j - 1) + Size(t.children[j - 1])
  }

  /** The numbers of the children of a node numbered `k`, in pre-order: the first child is
      `k + 1`, and each next one comes after all nodes below its elder sibling. */
  function ChildIds(t: Tree, j: nat, k: int): (r: seq<int>)
    requires j <= |t.children|
    ensures |r| == j
    ensures forall i :: 0 <= i < j ==> r[i] == k + 1 + SizeUpTo(t, i)
  {
    if j == 0 then [] else ChildIds(t, j - 1, k) + [k + 1 + SizeUpTo(t, j - 1)]
  }

  /** The node table of tree `t` numbered in pre-order from `k`, below parent `parent`. */
  function Flat(t: Tree, k: int, parent: int): map<int, Node>
    decreases t, |t.children| + 1
  {
    FlatUpTo(t, |t.children|, k)[k := Node(k, |t.children|, |t.meta|, t.meta,
                                           ChildIds(t, |t.children|, k), parent)]
  }

  /** The node tables of the first `j` children of a node numbered `k`. */
  function FlatUpTo(t: Tree, j: nat, k: int): map<int, Node>
    requires j <= |t.children|
    decreases t, j
  {
    if j == 0 then map[]
    else FlatUpTo(t, j - 1, k) + Flat(t.children[j - 1], k + 1 + SizeUpTo(t, j - 1), k)
  }

  /** The numbers `Flat` uses are exactly `k` up to `k + Size(t) - 1`. */
  lemma {:induction false} FlatKeys(t: Tree, k: int, parent: int)
    ensures forall x :: x in Flat(t, k, parent) <==> k <= x < k + Size(t)
    decreases t, |t.children| + 1
  {
    FlatUpToKeys(t, |t.children|, k);
  }

  lemma {:induction false} FlatUpToKeys(t: Tree, j: nat, k: int)
    requires j <= |t.children|
    ensures forall x :: x in FlatUpTo(t, j, k) <==> k + 1 <= x < k + 1 + SizeUpTo(t, j)
    decreases t, j
  {
    if j > 0 {
      FlatUpToKeys(t, j - 1, k);
      FlatKeys(t.children[j - 1], k + 1 + SizeUpTo(t, j - 1), k);
    }
  }

  // ---------------------------------------------------------------------------
  // The loop reads the tree in pre-order
  // ---------------------------------------------------------------------------

  /** Node `k` appended to the children of node `c` (nothing for `c == 0`). */
  function AddChild(nodes: map<int, Node>, c: int, k: int): (r: map<int, Node>)
    requires c == 0 || c in nodes
    ensures r.Keys == nodes.Keys
  {
    if c == 0 then nodes else nodes[c := nodes[c].(children := nodes[c].children + [k])]
  }

  /** The table once tree `t` is read as a new child of node `c`, numbered from `k`. */
  function Attach(nodes: map<int, Node>, t: Tree, k: int, c: int): map<int, Node>
    requires c == 0 || c in nodes
  {
    AddChild(nodes, c, k) + Flat(t, k, c)
  }

  /** The loop's state after reading tree `t` from state `s`. */
  function After(s: Parser, t: Tree, e: int): Parser
    requires s.currentNode == 0 || s.currentNode in s.nodes
  {
    Parser(Attach(s.nodes, t, |s.nodes| + 1, s.currentNode), e, s.currentNode, false)
  }

  /** The table while node `k` of tree `t` has its first `i` children read. */
  function Building(nodes: map<int, Node>, c: int, t: Tree, k: int, i: nat): map<int, Node>
    requires c == 0 || c in nodes
    requires i <= |t.children|
  {
    (AddChild(nodes, c, k) + FlatUpTo(t, i, k))[k := Node(k, |t.children|, |t.meta|, [], ChildIds(t, i, k), c)]
  }

  lemma {:induction false} BuildingKeys(nodes: map<int, Node>, c: int, t: Tree, k: int, i: nat)
    requires Numbered(nodes) && k == |nodes| + 1 && (c == 0 || c in nodes)
    requires i <= |t.children|
    ensures forall x :: x in Building(nodes, c, t, k, i) <==> 1 <= x <= k + SizeUpTo(t, i)
  {
    FlatUpToKeys(t, i, k);
    SpanKeys(AddChild(nodes, c, k), FlatUpTo(t, i, k), k, Node(k, |t.children|, |t.meta|, [], ChildIds(t, i, k), c),
             k + SizeUpTo(t, i), Building(nodes, c, t, k, i));
  }

  /** Numbers below `k`, then `k` itself, then numbers above it up to `h`, make up `1..h`. */
  lemma {:induction false} SpanKeys(a: map<int, Node>, f: map<int, Node>, k: int, v: Node, h: int, m: map<int, Node>)
    requires forall x :: x in a <==> 1 <= x < k
    requires forall x :: x in f <==> k + 1 <= x <= h
    requires 1 <= k <= h && m == (a + f)[k := v]
    ensures forall x :: x in m <==> 1 <= x <= h
  {
    forall x
      ensures x in m <==> 1 <= x <= h
    {
      assert x in m <==> x in a || x in f || x == k;
    }
  }

  /** The building table holds the nodes numbered so far. */
  lemma {:induction false} BuildingCount(nodes: map<int, Node>, c: int, t: Tree, k: int, i: nat)
    requires Numbered(nodes) && k == |nodes| + 1 && (c == 0 || c in nodes)
    requires i <= |t.children| && Numbered(Building(nodes, c, t, k, i))
    ensures |Building(nodes, c, t, k, i)| == k + SizeUpTo(t, i)
  {
    BuildingKeys(nodes, c, t, k, i);
    CountFromKeys(Building(nodes, c, t, k, i), k + SizeUpTo(t, i));
  }

  /** A table numbered without gaps up to `h` has `h` entries. */
  lemma {:induction false} CountFromKeys(m: map<int, Node>, h: int)
    requires Numbered(m) && h >= 0
    requires forall x :: x in m <==> 1 <= x <= h
    ensures |m| == h
  {
    assert h in m <==> 1 <= h <= |m|;
    assert |m| in m <==> 1 <= |m| <= h;
  }

  /** An updated key that the right-hand table avoids stays updated through a merge. */
  lemma {:induction false} MergeStep(a: map<int, Node>, g: map<int, Node>, f: map<int, Node>, k: int, v0: Node, v: Node)
    requires k !in f
    ensures (a + g)[k := v0][k := v] + f == (a + (g + f))[k := v]
  {
  }

  /** The header part of the first iteration of a tree gives its building table. */
  lemma {:induction false} BuildingStart(nodes: map<int, Node>, c: int, t: Tree, k: int, added: map<int, Node>, r: map<int, Node>)
    requires c == 0 || c in nodes
    requires k !in nodes && k != c
    requires added == nodes[k := Node(k, |t.children|, |t.meta|, [], [], c)]
    requires r == if c != 0 then added[c := added[c].(children := added[c].children + [k])] else added
    ensures r == Building(nodes, c, t, k, 0)
  {
    assert AddChild(nodes, c, k) + FlatUpTo(t, 0, k) == AddChild(nodes, c, k);
    if c != 0 {
      assert added[c] == nodes[c];
    }
  }

  /** Reading child `i` of node `k` moves the building table on by one child. */
  lemma {:induction false} BuildingStep(nodes: map<int, Node>, c: int, t: Tree, k: int, i: nat, k': int)
    requires c == 0 || c in nodes
    requires i < |t.children| && k !in nodes && 0 <= c < k && k' == k + 1 + SizeUpTo(t, i)
    ensures k in Building(nodes, c, t, k, i)
    ensures Attach(Building(nodes, c, t, k, i), t.children[i], k', k) == Building(nodes, c, t, k, i + 1)
  {
    var a := AddChild(nodes, c, k);
    var g := FlatUpTo(t, i, k);
    var f := Flat(t.children[i], k', k);
    var vi := Node(k, |t.children|, |t.meta|, [], ChildIds(t, i, k), c);
    var v := Node(k, |t.children|, |t.meta|, [], ChildIds(t, i + 1, k), c);
    assert k !in f by {
      FlatKeys(t.children[i], k', k);
    }
    assert ChildIds(t, i + 1, k) == ChildIds(t, i, k) + [k'];
    var b := Building(nodes, c, t, k, i);
    assert b == (a + g)[k := vi];
    assert AddChild(b, k, k') == (a + g)[k := vi][k := v];
    assert FlatUpTo(t, i + 1, k) == g + f;
    MergeStep(a, g, f, k, vi, v);
  }

  /** The state after reading child `i` below node `k` is the building table with one
      more child. */
  lemma {:induction false} AfterChild(nodes: map<int, Node>, c: int, t: Tree, k: int, i: nat, q: int, q1: int)
    requires Numbered(nodes) && k == |nodes| + 1 && (c == 0 || c in nodes) && 0 <= c
    requires i < |t.children| && Numbered(Building(nodes, c, t, k, i))
    ensures k in Building(nodes, c, t, k, i)
    ensures After(Parser(Building(nodes, c, t, k, i), q, k, true), t.children[i], q1) ==
            Parser(Building(nodes, c, t, k, i + 1), q1, k, false)
  {
    var b := Building(nodes, c, t, k, i);
    BuildingCount(nodes, c, t, k, i);
    BuildingStep(nodes, c, t, k, i, |b| + 1);
    AfterIs(b, q, k, t.children[i], q1, Building(nodes, c, t, k, i + 1));
  }

  lemma {:induction false} AfterIs(b: map<int, Node>, q: int, c: int, t: Tree, e: int, m: map<int, Node>)
    requires c == 0 || c in b
    requires Attach(b, t, |b| + 1, c) == m
    ensures After(Parser(b, q, c, true), t, e) == Parser(m, e, c, false)
  {
  }

  /** The metadata of node `k` completes its building table into the table of the tree. */
  lemma {:induction false} BuildingFinish(nodes: map<int, Node>, c: int, t: Tree, k: int)
    requires c == 0 || c in nodes
    ensures var b := Building(nodes, c, t, k, |t.children|);
      b[k := b[k].(metaData := b[k].metaData + t.meta)] == Attach(nodes, t, k, c)
  {
    var a := AddChild(nodes, c, k);
    var f := FlatUpTo(t, |t.children|, k);
    var ids := ChildIds(t, |t.children|, k);
    var v0 := Node(k, |t.children|, |t.meta|, [], ids, c);
    var v := Node(k, |t.children|, |t.meta|, t.meta, ids, c);
    assert [] + t.meta == t.meta;
    UpdateTwice(a, f, k, v0, v);
  }

  lemma {:induction false} UpdateTwice(a: map<int, Node>, b: map<int, Node>, k: int, v0: Node, v: Node)
    ensures (a + b)[k := v0][k := v] == a + b[k := v]
  {
  }

  /** The header and metadata of a successful `ReadTree`. */
  lemma {:induction false} ReadTreeParts(ints: seq<int>, p: int, t: Tree, e: int)
    requires 0 <= p <= |ints| && TreeAt(ints, p, t, e)
    ensures p + 1 < |ints| && ints[p] == |t.children| && ints[p + 1] == |t.meta|
    ensures p + 2 <= e - |t.meta| && t.meta == ints[e - |t.meta|..e]
  {
  }

  /** The children of a successful `ReadTree`. */
  lemma {:induction false} ReadTreeChildren(ints: seq<int>, p: int, t: Tree, e: int)
    requires 0 <= p <= |ints| && TreeAt(ints, p, t, e)
    ensures p + 2 <= e - |t.meta| <= |ints|
    ensures ChildrenFrom(ints, t, 0, p + 2, e - |t.meta|)
  {
    assert t.children[0..] == t.children;
  }

  /** What a successful `ReadChildren` of at least one tree is made of. */
  lemma {:induction false} ReadChildrenParts(ints: seq<int>, q: int, n: nat, cs: seq<Tree>, e: int) returns (q1: int)
    requires 0 <= q <= |ints| && n > 0 && ReadChildren(ints, q, n) == Some((cs, e))
    ensures |cs| == n && q + 2 <= q1 <= e && TreeAt(ints, q, cs[0], q1)
    ensures ReadChildren(ints, q1, n - 1) == Some((cs[1..], e))
  {
    q1 := ReadTree(ints, q).value.1;
  }

  /** Tree `t` is read from position `p`, ending at `e`. */
  predicate TreeAt(ints: seq<int>, p: int, t: Tree, e: int)
    requires 0 <= p <= |ints|
  {
    ReadTree(ints, p) == Some((t, e))
  }

  /** The children of `t` from child `i` on are read from position `q` to `qEnd`. */
  predicate ChildrenFrom(ints: seq<int>, t: Tree, i: nat, q: int, qEnd: int)
    requires i <= |t.children| && 0 <= q <= |ints|
  {
    ReadChildren(ints, q, |t.children| - i) == Some((t.children[i..], qEnd))
  }

  /** The header part of the first iteration of a tree starts its building table. */
  lemma {:induction false} CreateHeader(ints: seq<int>, s: Parser, t: Tree)
    requires Inv(ints, s) && s.isNewID && s.pointer + 1 < |ints|
    requires ints[s.pointer] == |t.children| && ints[s.pointer + 1] == |t.meta|
    ensures s.currentNode == 0 || s.currentNode in s.nodes
    ensures Create(ints, s) ==
            Some(Parser(Building(s.nodes, s.currentNode, t, |s.nodes| + 1, 0), s.pointer + 2, |s.nodes| + 1, true))
  {
    var p, c, k := s.pointer, s.currentNode, |s.nodes| + 1;
    var added := s.nodes[k := Node(k, ints[p], ints[p + 1], [], [], c)];
    var r := if c != 0 then added[c := added[c].(children := added[c].children + [k])] else added;
    CreateNew(ints, s, added, r);
    BuildingStart(s.nodes, c, t, k, added, r);
  }

  /** A leaf is read in a single iteration. */
  lemma {:induction false} StepLeaf(ints: seq<int>, s: Parser, t: Tree, e: int)
    requires Inv(ints, s) && s.isNewID && TreeAt(ints, s.pointer, t, e) && |t.children| == 0
    ensures Step(ints, s) == Some(After(s, t, e))
  {
    var p, nodes, c, k := s.pointer, s.nodes, s.currentNode, |s.nodes| + 1;
    ReadTreeParts(ints, p, t, e);
    ReadTreeChildren(ints, p, t, e);
    CreateHeader(ints, s, t);
    LeafGather(ints, nodes, c, t, k, p + 2, e);
    StepClimb(ints, s, Parser(Building(nodes, c, t, k, 0), p + 2, k, true), Attach(nodes, t, k, c), e);
  }

  /** The metadata of a leaf completes its table. */
  lemma {:induction false} LeafGather(ints: seq<int>, nodes: map<int, Node>, c: int, t: Tree, k: int, q: int, e: int)
    requires c == 0 || c in nodes
    requires |t.children| == 0 && 0 <= q && q + |t.meta| == e <= |ints| && t.meta == ints[q..e]
    ensures k in Building(nodes, c, t, k, 0) && ChildrenDiscovered(Building(nodes, c, t, k, 0)[k])
    ensures Building(nodes, c, t, k, 0)[k].parent == c
    ensures Gather(ints, Building(nodes, c, t, k, 0), k, q) == Some((Attach(nodes, t, k, c), e))
  {
    var b0 := Building(nodes, c, t, k, 0);
    assert b0[k] == Node(k, 0, |t.meta|, [], [], c);
    BuildingFinish(nodes, c, t, k);
    assert b0[k].metaData + t.meta == t.meta;
  }

  /** An iteration whose node has all its children ends with its metadata gathered and
      the parent current. */
  lemma {:induction false} StepClimb(ints: seq<int>, s: Parser, c: Parser, r: map<int, Node>, e: int)
    requires Inv(ints, s) && s.pointer < |ints| && Create(ints, s) == Some(c)
    requires ChildrenDiscovered(c.nodes[c.currentNode])
    requires Gather(ints, c.nodes, c.currentNode, c.pointer) == Some((r, e))
    ensures Step(ints, s) == Some(Parser(r, e, c.nodes[c.currentNode].parent, false))
  {
  }

  /** An iteration on a node with children still to come turns to a new header. */
  lemma {:induction false} StepWait(ints: seq<int>, s: Parser, c: Parser)
    requires Inv(ints, s) && s.pointer < |ints| && Create(ints, s) == Some(c)
    requires !ChildrenDiscovered(c.nodes[c.currentNode])
    ensures Step(ints, s) == Some(c.(isNewID := true))
  {
  }

  /** An iteration whose metadata runs past the end of the list raises. */
  lemma {:induction false} StepDrop(ints: seq<int>, s: Parser, c: Parser)
    requires Inv(ints, s) && s.pointer < |ints| && Create(ints, s) == Some(c)
    requires ChildrenDiscovered(c.nodes[c.currentNode])
    requires Gather(ints, c.nodes, c.currentNode, c.pointer).None?
    ensures Step(ints, s).None?
  {
  }

  /** Where an iteration raises, so does the loop. */
  lemma {:induction false} ParseFails(ints: seq<int>, s: Parser)
    requires Inv(ints, s) && s.pointer < |ints|
    requires Step(ints, s).None?
    ensures Parse(ints, s).None?
  {
  }

  /** One iteration from a state the loop goes on from leaves what that state leaves. */
  lemma {:induction false} ParseStep(ints: seq<int>, s: Parser, s1: Parser)
    requires Inv(ints, s) && s.pointer < |ints| && Step(ints, s) == Some(s1)
    ensures Inv(ints, s1) && Parse(ints, s) == Parse(ints, s1)
  {
  }

  /** Reading a tree whose header is at the pointer: the loop reaches the state where the
      whole tree is numbered in pre-order below the current node, with the pointer just
      past it; what the loop leaves behind from there is what it leaves behind now. */
  lemma {:induction false} SimTree(ints: seq<int>, s: Parser, t: Tree, e: int)
    requires Inv(ints, s) && s.isNewID && TreeAt(ints, s.pointer, t, e)
    ensures Inv(ints, After(s, t, e)) && Parse(ints, s) == Parse(ints, After(s, t, e))
    decreases t, |t.children| + 1
  {
    if |t.children| == 0 {
      StepLeaf(ints, s, t, e);
      ParseStep(ints, s, After(s, t, e));
    } else {
      SimNode(ints, s, t, e);
    }
  }

  /** A tree with children: its header, then its children and metadata. */
  lemma {:induction false} SimNode(ints: seq<int>, s: Parser, t: Tree, e: int)
    requires Inv(ints, s) && s.isNewID && TreeAt(ints, s.pointer, t, e) && |t.children| > 0
    ensures s.currentNode == 0 || s.currentNode in s.nodes
    ensures Inv(ints, After(s, t, e)) && Parse(ints, s) == Parse(ints, After(s, t, e))
    decreases t, |t.children| + 1, 0
  {
    var p, nodes, c, k := s.pointer, s.nodes, s.currentNode, |s.nodes| + 1;
    ReadTreeParts(ints, p, t, e);
    ReadTreeChildren(ints, p, t, e);
    CreateHeader(ints, s, t);
    var b0 := Building(nodes, c, t, k, 0);
    BuildingNode(nodes, c, t, k, 0);
    StepOpen(ints, s, b0, p + 2, k, Node(k, |t.children|, |t.meta|, [], ChildIds(t, 0, k), c));
    SimRest(ints, nodes, c, t, k, 0, p + 2, e - |t.meta|, e, Parser(b0, p + 2, k, true));
  }

  /** An iteration that reads the header of a node with children to come. */
  lemma {:induction false} StepOpen(ints: seq<int>, s: Parser, b: map<int, Node>, q: int, k: int, node: Node)
    requires Inv(ints, s) && s.pointer < |ints| && Create(ints, s) == Some(Parser(b, q, k, true))
    requires k in b && b[k] == node && !ChildrenDiscovered(node)
    ensures Inv(ints, Parser(b, q, k, true)) && Parse(ints, s) == Parse(ints, Parser(b, q, k, true))
  {
    assert Step(ints, s) == Some(Parser(b, q, k, true));
    ParseStep(ints, s, Parser(b, q, k, true));
  }

  /** The entry of node `k` in its building table. */
  lemma {:induction false} BuildingNode(nodes: map<int, Node>, c: int, t: Tree, k: int, i: nat)
    requires c == 0 || c in nodes
    requires i <= |t.children|
    ensures k in Building(nodes, c, t, k, i)
    ensures Building(nodes, c, t, k, i)[k] == Node(k, |t.children|, |t.meta|, [], ChildIds(t, i, k), c)
  {
  }

  /** With children still to come, an iteration on node `k` turns to a new header. */
  lemma {:induction false} StepNext(ints: seq<int>, b: map<int, Node>, q: int, k: int, node: Node)
    requires Inv(ints, Parser(b, q, k, false)) && q < |ints| && k in b
    requires b[k] == node && !ChildrenDiscovered(node)
    ensures Inv(ints, Parser(b, q, k, true))
    ensures Parse(ints, Parser(b, q, k, false)) == Parse(ints, Parser(b, q, k, true))
  {
    assert Step(ints, Parser(b, q, k, false)) == Some(Parser(b, q, k, true));
    ParseStep(ints, Parser(b, q, k, false), Parser(b, q, k, true));
  }

  /** An iteration on a node with all its children found and no metadata yet: it takes
      the declared number of entries from the pointer and climbs to the parent. */
  lemma {:induction false} StepGather(ints: seq<int>, b: map<int, Node>, q: int, k: int, node: Node, e: int, r: map<int, Node>)
    requires Inv(ints, Parser(b, q, k, false)) && q < |ints| && k in b
    requires b[k] == node && ChildrenDiscovered(node) && node.metaData == []
    requires 0 <= node.numMetaDatas && q + node.numMetaDatas == e <= |ints|
    requires r == b[k := node.(metaData := ints[q..e])]
    ensures Step(ints, Parser(b, q, k, false)) == Some(Parser(r, e, node.parent, false))
    ensures Inv(ints, Parser(r, e, node.parent, false))
    ensures Parse(ints, Parser(b, q, k, false)) == Parse(ints, Parser(r, e, node.parent, false))
  {
    assert [] + ints[q..e] == ints[q..e];
    assert Step(ints, Parser(b, q, k, false)) == Some(Parser(r, e, node.parent, false));
    ParseStep(ints, Parser(b, q, k, false), Parser(r, e, node.parent, false));
  }

  /** The metadata of node `k`, read once all its children are, completes the table of
      its tree. */
  lemma {:induction false} BuildingDone(ints: seq<int>, nodes: map<int, Node>, c: int, t: Tree, k: int, j: nat, q: int, e: int)
    requires c == 0 || c in nodes
    requires j == |t.children| && 0 <= q && q + |t.meta| == e <= |ints| && t.meta == ints[q..e]
    ensures var b := Building(nodes, c, t, k, j);
      k in b && b[k := b[k].(metaData := ints[q..e])] == Attach(nodes, t, k, c)
  {
    BuildingNode(nodes, c, t, k, j);
    BuildingFinish(nodes, c, t, k);
    assert [] + t.meta == t.meta;
  }

  /** A last child that ends the list, below a node without metadata: nothing is left to do. */
  lemma {:induction false} SimLast(ints: seq<int>, nodes: map<int, Node>, c: int, t: Tree, k: int, j: nat, q: int, e: int)
    requires 0 <= c && (c == 0 || c in nodes)
    requires j == |t.children| && |t.meta| == 0 && q == e == |ints|
    requires Inv(ints, Parser(Building(nodes, c, t, k, j), q, k, false))
    ensures Inv(ints, Parser(Attach(nodes, t, k, c), e, c, false))
    ensures Parse(ints, Parser(Building(nodes, c, t, k, j), q, k, false)) ==
            Parse(ints, Parser(Attach(nodes, t, k, c), e, c, false))
  {
    LastTable(ints, nodes, c, t, k, j, q, e);
    ParseDone(ints, Building(nodes, c, t, k, j), q, k, Attach(nodes, t, k, c), e, c);
  }

  /** Without metadata, the building table with every child read is the tree's table. */
  lemma {:induction false} LastTable(ints: seq<int>, nodes: map<int, Node>, c: int, t: Tree, k: int, j: nat, q: int, e: int)
    requires c == 0 || c in nodes
    requires j == |t.children| && |t.meta| == 0 && 0 <= q == e <= |ints|
    ensures Attach(nodes, t, k, c) == Building(nodes, c, t, k, j)
    ensures c == 0 || c in Attach(nodes, t, k, c)
  {
    var b := Building(nodes, c, t, k, j);
    BuildingDone(ints, nodes, c, t, k, j, q, e);
    BuildingNode(nodes, c, t, k, j);
    assert b[k].(metaData := ints[q..e]) == b[k];
    assert c == 0 || c in AddChild(nodes, c, k);
  }

  /** Once the list is read the loop stops with the table it holds. */
  lemma {:induction false} ParseDone(ints: seq<int>, b: map<int, Node>, q: int, k: int, a: map<int, Node>, e: int, c: int)
    requires Inv(ints, Parser(b, q, k, false)) && q == e == |ints| && a == b && 0 <= c && (c == 0 || c in a)
    ensures Inv(ints, Parser(a, e, c, false)) && Parse(ints, Parser(b, q, k, false)) == Parse(ints, Parser(a, e, c, false))
  {
  }

  /** Reading child `i` of node `k`: the loop reaches the building table with one more
      child, the pointer just past that child. */
  lemma {:induction false} ReadChild(ints: seq<int>, nodes: map<int, Node>, c: int, t: Tree, k: int,
                                     i: nat, q: int, qEnd: int, s: Parser) returns (q1: int)
    requires Numbered(nodes) && k == |nodes| + 1 && (c == 0 || c in nodes) && 0 <= c
    requires i < |t.children|
    requires s == Parser(Building(nodes, c, t, k, i), q, k, true) && Inv(ints, s)
    requires 0 <= q <= |ints| && ChildrenFrom(ints, t, i, q, qEnd)
    ensures Inv(ints, Parser(Building(nodes, c, t, k, i + 1), q1, k, false))
    ensures Parse(ints, s) == Parse(ints, Parser(Building(nodes, c, t, k, i + 1), q1, k, false))
    ensures q <= q1 <= |ints|
    ensures ChildrenFrom(ints, t, i + 1, q1, qEnd)
    decreases t, |t.children| - i, 0
  {
    var n := |t.children|;
    q1 := ReadChildrenParts(ints, q, n - i, t.children[i..], qEnd);
    assert t.children[i..][1..] == t.children[i + 1..];
    var next := Parser(Building(nodes, c, t, k, i + 1), q1, k, false);
    AfterChild(nodes, c, t, k, i, q, q1);
    SimTree(ints, s, t.children[i], q1);
  }

  /** Reading the children of node `k` from child `i` on, then its metadata. */
  lemma {:induction false} SimRest(ints: seq<int>, nodes: map<int, Node>, c: int, t: Tree, k: int,
                                   i: nat, q: int, qEnd: int, e: int, s: Parser)
    requires Numbered(nodes) && k == |nodes| + 1 && (c == 0 || c in nodes) && 0 <= c
    requires i < |t.children|
    requires s == Parser(Building(nodes, c, t, k, i), q, k, true) && Inv(ints, s)
    requires 0 <= q <= |ints| && ChildrenFrom(ints, t, i, q, qEnd)
    requires qEnd + |t.meta| == e <= |ints| && t.meta == ints[qEnd..e]
    ensures Inv(ints, Parser(Attach(nodes, t, k, c), e, c, false))
    ensures Parse(ints, s) == Parse(ints, Parser(Attach(nodes, t, k, c), e, c, false))
    decreases t, |t.children| - i, 1
  {
    var n := |t.children|;
    var q1 := ReadChild(ints, nodes, c, t, k, i, q, qEnd, s);
    if q1 == |ints| {
      assert i + 1 == n && qEnd == q1 && |t.meta| == 0;
      SimLast(ints, nodes, c, t, k, i + 1, q1, e);
    } else if i + 1 < n {
      SimMore(ints, nodes, c, t, k, i + 1, Building(nodes, c, t, k, i + 1), q1, qEnd, e);
    } else {
      assert qEnd == q1;
      SimFinish(ints, nodes, c, t, k, i + 1, q1, e);
    }
  }

  /** A further child to come: the loop turns to its header, then reads on. */
  lemma {:induction false} SimMore(ints: seq<int>, nodes: map<int, Node>, c: int, t: Tree, k: int,
                                   i: nat, b: map<int, Node>, q: int, qEnd: int, e: int)
    requires Numbered(nodes) && k == |nodes| + 1 && (c == 0 || c in nodes) && 0 <= c
    requires i < |t.children| && q < |ints|
    requires b == Building(nodes, c, t, k, i) && Inv(ints, Parser(b, q, k, false))
    requires 0 <= q <= |ints| && ChildrenFrom(ints, t, i, q, qEnd)
    requires qEnd + |t.meta| == e <= |ints| && t.meta == ints[qEnd..e]
    ensures Inv(ints, Parser(Attach(nodes, t, k, c), e, c, false))
    ensures Parse(ints, Parser(b, q, k, false)) == Parse(ints, Parser(Attach(nodes, t, k, c), e, c, false))
    decreases t, |t.children| - i, 2
  {
    BuildingNode(nodes, c, t, k, i);
    StepNext(ints, b, q, k, Node(k, |t.children|, |t.meta|, [], ChildIds(t, i, k), c));
    SimRest(ints, nodes, c, t, k, i, q, qEnd, e, Parser(b, q, k, true));
  }

  /** The last child read: the loop takes the metadata and climbs to the parent. */
  lemma {:induction false} SimFinish(ints: seq<int>, nodes: map<int, Node>, c: int, t: Tree, k: int, j: nat, q: int, e: int)
    requires c == 0 || c in nodes
    requires j == |t.children| && q < |ints|
    requires Inv(ints, Parser(Building(nodes, c, t, k, j), q, k, false))
    requires q + |t.meta| == e <= |ints| && t.meta == ints[q..e]
    ensures Inv(ints, Parser(Attach(nodes, t, k, c), e, c, false))
    ensures Parse(ints, Parser(Building(nodes, c, t, k, j), q, k, false)) ==
            Parse(ints, Parser(Attach(nodes, t, k, c), e, c, false))
  {
    BuildingNode(nodes, c, t, k, j);
    BuildingDone(ints, nodes, c, t, k, j, q, e);
    StepGather(ints, Building(nodes, c, t, k, j), q, k, Node(k, |t.children|, |t.meta|, [], ChildIds(t, j, k), c),
               e, Attach(nodes, t, k, c));
  }

  /** On a list that is exactly one tree in the puzzle's format, the loop numbers the
      tree's nodes in pre-order from 1, the root under parent 0. */
  lemma {:induction false} ParseWellFormed(ints: seq<int>, t: Tree)
    requires ReadTree(ints, 0) == Some((t, |ints|))
    ensures Parse(ints, Start()) == Some(Flat(t, 1, 0))
  {
    SimTree(ints, Start(), t, |ints|);
    AfterRoot(t, |ints|);
    ParseEnd(ints, Parser(Flat(t, 1, 0), |ints|, 0, false));
  }

  /** The state after reading the whole tree from the start holds the tree's table. */
  lemma {:induction false} AfterRoot(t: Tree, e: int)
    ensures After(Start(), t, e) == Parser(Flat(t, 1, 0), e, 0, false)
  {
    var s := Start();
    var m: map<int, Node> := map[];
    assert s.nodes == m && s.currentNode == 0 && |m| + 1 == 1;
    assert After(s, t, e) == Parser(Attach(m, t, 1, 0), e, 0, false);
    AttachEmpty(t);
  }

  lemma {:induction false} AttachEmpty(t: Tree)
    ensures Attach(map[], t, 1, 0) == Flat(t, 1, 0)
  {
    UnionEmpty(Flat(t, 1, 0));
  }

  lemma {:induction false} UnionEmpty(f: map<int, Node>)
    ensures map[] + f == f
  {
    var u: map<int, Node> := map[] + f;
    assert u.Keys == f.Keys;
    assert forall i :: i in u ==> u[i] == f[i];
  }

  /** At the end of the list the loop stops with the table it holds. */
  lemma {:induction false} ParseEnd(ints: seq<int>, s: Parser)
    requires Inv(ints, s) && s.pointer == |ints|
    ensures Parse(ints, s) == Some(s.nodes)
  {
  }

  /** Entries after a complete tree make the loop climb past the root, where it raises. */
  lemma {:induction false} ParseTrailing(ints: seq<int>, t: Tree, e: int)
    requires ReadTree(ints, 0) == Some((t, e)) && e < |ints|
    ensures Parse(ints, Start()) == None
  {
    SimTree(ints, Start(), t, e);
    var a := After(Start(), t, e);
    FlatKeys(t, 1, 0);
    assert 0 !in a.nodes;
  }

  // ---------------------------------------------------------------------------
  // Part one: the sum of all metadata
  // ---------------------------------------------------------------------------

  /** The metadata of the nodes numbered in `keys`, summed node by node in any order. */
  ghost function MetaOver(nodes: map<int, Node>, keys: set<int>): int
    requires keys <= nodes.Keys
    decreases keys
  {
    if keys == {} then 0
    else
      var n := Member(keys);
      Sum(nodes[n].metaData) + MetaOver(nodes, keys - {n})
  }

  /** Any node may be taken first. */
  lemma {:induction false} MetaOverRemove(nodes: map<int, Node>, keys: set<int>, n: int)
    requires keys <= nodes.Keys && n in keys
    ensures MetaOver(nodes, keys) == Sum(nodes[n].metaData) + MetaOver(nodes, keys - {n})
    decreases keys
  {
    var x :| x in keys && MetaOver(nodes, keys) == Sum(nodes[x].metaData) + MetaOver(nodes, keys - {x});
    if x != n {
      MetaOverRemove(nodes, keys - {x}, n);
      MetaOverRemove(nodes, keys - {n}, x);
      assert keys - {x} - {n} == keys - {n} - {x};
    }
  }

  /** Disjoint sets of nodes add up separately. */
  lemma {:induction false} MetaOverUnion(nodes: map<int, Node>, a: set<int>, b: set<int>)
    requires a <= nodes.Keys && b <= nodes.Keys && a !! b
    ensures MetaOver(nodes, a + b) == MetaOver(nodes, a) + MetaOver(nodes, b)
    decreases a
  {
    if a == {} {
      assert a + b == b;
    } else {
      var n := Member(a);
      MetaOverRemove(nodes, a + b, n);
      MetaOverRemove(nodes, a, n);
      assert (a + b) - {n} == (a - {n}) + b;
      MetaOverUnion(nodes, a - {n}, b);
    }
  }

  /** Two tables whose nodes in `keys` have the same metadata have the same sum over them. */
  lemma {:induction false} MetaOverAgree(m1: map<int, Node>, m2: map<int, Node>, keys: set<int>)
    requires keys <= m1.Keys && keys <= m2.Keys
    requires forall x :: x in keys ==> m1[x].metaData == m2[x].metaData
    ensures MetaOver(m1, keys) == MetaOver(m2, keys)
    decreases keys
  {
    if keys != {} {
      var n := Member(keys);
      MetaOverRemove(m1, keys, n);
      MetaOverRemove(m2, keys, n);
      MetaOverAgree(m1, m2, keys - {n});
    }
  }

  /** `SolvePartOne`: the metadata lists of all nodes joined, then summed. */
  method SolvePartOne(nodes: map<int, Node>) returns (total: int)
    ensures total == MetaOver(nodes, nodes.Keys)
  {
    total := 0;
    var keys := nodes.Keys;
    while keys != {}
      invariant keys <= nodes.Keys
      invariant total + MetaOver(nodes, keys) == MetaOver(nodes, nodes.Keys)
      decreases keys
    {
      var n :| n in keys;
      MetaOverRemove(nodes, keys, n);
      total := total + Sum(nodes[n].metaData);
      keys := keys - {n};
    }
  }

  /** All metadata of a tree. */
  function MetaTotal(t: Tree): int
    decreases t, |t.children| + 1
  {
    Sum(t.meta) + MetaTotalUpTo(t, |t.children|)
  }

  /** All metadata below the first `j` children of a tree. */
  function MetaTotalUpTo(t: Tree, j: nat): int
    requires j <= |t.children|
    decreases t, j
  {
    if j == 0 then 0 else MetaTotalUpTo(t, j - 1) + MetaTotal(t.children[j - 1])
  }

  /** The table of a tree carries all of the tree's metadata. */
  lemma {:induction false} FlatMeta(t: Tree, k: int, p: int)
    ensures MetaOver(Flat(t, k, p), Flat(t, k, p).Keys) == MetaTotal(t)
    decreases t, |t.children| + 1
  {
    var f, u := Flat(t, k, p), FlatUpTo(t, |t.children|, k);
    FlatUpToKeys(t, |t.children|, k);
    assert f.Keys == u.Keys + {k};
    MetaOverUnion(f, u.Keys, {k});
    MetaOverAgree(f, u, u.Keys);
    FlatUpToMeta(t, |t.children|, k);
    MetaOverRemove(f, {k}, k);
    assert {k} - {k} == {};
  }

  lemma {:induction false} FlatUpToMeta(t: Tree, j: nat, k: int)
    requires j <= |t.children|
    ensures MetaOver(FlatUpTo(t, j, k), FlatUpTo(t, j, k).Keys) == MetaTotalUpTo(t, j)
    decreases t, j
  {
    if j == 0 {
      assert FlatUpTo(t, j, k).Keys == {};
    } else {
      var a, k' := FlatUpTo(t, j - 1, k), k + 1 + SizeUpTo(t, j - 1);
      var g, m := Flat(t.children[j - 1], k', k), FlatUpTo(t, j, k);
      FlatUpToKeys(t, j - 1, k);
      FlatKeys(t.children[j - 1], k', k);
      assert a.Keys !! g.Keys;
      assert m == a + g;
      MetaOverUnion(m, a.Keys, g.Keys);
      MetaOverAgree(m, a, a.Keys);
      MetaOverAgree(m, g, g.Keys);
      assert m.Keys == a.Keys + g.Keys;
      FlatUpToMeta(t, j - 1, k);
      FlatMeta(t.children[j - 1], k', k);
    }
  }

  /** The loop's tables on a whole tree carry all its metadata. */
  lemma {:induction false} PartOneTree(ints: seq<int>, t: Tree)
    requires ReadTree(ints, 0) == Some((t, |ints|))
    ensures Parse(ints, Start()).Some?
    ensures MetaOver(Parse(ints, Start()).value, Parse(ints, Start()).value.Keys) == MetaTotal(t)
  {
    ParseWellFormed(ints, t);
    FlatMeta(t, 1, 0);
  }

  // ---------------------------------------------------------------------------
  // Part two: the value of a node
  // ---------------------------------------------------------------------------

  /** How a metadata entry of a node with children picks a child: as `getValue` is
      written, or as the puzzle intends (entries 1 up to the number of children only). */
  datatype Rule = AsWritten | Intended

  /** What an entry picks: nothing, the child at a position, or an index error. */
  datatype Pick = Skip | Child(pos: nat) | OutOfRange

  /** The entry `m` of a node with `n` children. As written, an entry up to `n` is lowered
      by one and used as a list index, so 0 and negative entries count from the end, and
      those below `1 - n` raise. */
  function PickChild(m: int, n: nat, rule: Rule): (r: Pick)
    ensures r.Child? ==> r.pos < n
    ensures rule == Intended ==> !r.OutOfRange? && (r.Child? <==> 1 <= m <= n)
    ensures rule == AsWritten ==> (r.Skip? <==> m > n) && (r.OutOfRange? <==> m + n < 1)
    ensures r.Child? && 1 <= m ==> r.pos == m - 1
  {
    if rule == Intended then
      if 1 <= m <= n then Child(m - 1) else Skip
    else if m > n then Skip
    else if m + n < 1 then OutOfRange
    else if m - 1 < 0 then Child(n + (m - 1))
    else Child(m - 1)
  }

  /** Every child number of a node is larger than the node's own number. */
  ghost predicate Ordered(nodes: map<int, Node>) {
    forall i, j :: i in nodes && 0 <= j < |nodes[i].children| ==> i < nodes[i].children[j]
  }

  /** The numbers in the table from `id` on. */
  function Later(nodes: map<int, Node>, id: int): set<int> {
    set x | x in nodes.Keys && x >= id
  }

  lemma {:induction false} LaterShrinks(nodes: map<int, Node>, id: int, c: int)
    requires id in nodes && id < c
    ensures |Later(nodes, c)| < |Later(nodes, id)|
  {
    assert Later(nodes, c) <= Later(nodes, id) - {id};
    SubsetCard(Later(nodes, c), Later(nodes, id) - {id});
  }

  lemma {:induction false} SubsetCard(a: set<int>, b: set<int>)
    requires a <= b
    ensures |a| <= |b|
    decreases b
  {
    if b != {} {
      var x := Member(b);
      SubsetCard(a - {x}, b - {x});
    }
  }

  /** `getValue` on node `id`: a node without children is worth the sum of its metadata,
      any other node the sum of the values of the children its entries pick. `None` where
      it raises: an index error or a child number missing from the table. */
  function ValueOf(nodes: map<int, Node>, id: int, rule: Rule): Option<int>
    requires id in nodes && Ordered(nodes)
    decreases |Later(nodes, id)|, 1, 0
  {
    var n := nodes[id];
    if n.numChildren == 0 then Some(Sum(n.metaData))
    else ChildValues(nodes, id, rule, |n.metaData|)
  }

  /** The sum over the first `i` metadata entries of node `id`. */
  function ChildValues(nodes: map<int, Node>, id: int, rule: Rule, i: nat): Option<int>
    requires id in nodes && Ordered(nodes) && i <= |nodes[id].metaData|
    decreases |Later(nodes, id)|, 0, i
  {
    if i == 0 then Some(0)
    else
      var total :- ChildValues(nodes, id, rule, i - 1);
      var n := nodes[id];
      match PickChild(n.metaData[i - 1], |n.children|, rule)
      case Skip => Some(total)
      case OutOfRange => None
      case Child(pos) =>
        var c := n.children[pos];
        if c !in nodes then None
        else
          LaterShrinks(nodes, id, c);
          var v :- ValueOf(nodes, c, rule);
          Some(total + v)
  }

  /** Once an entry raises, the sum over any longer prefix raises. */
  lemma {:induction false} ChildValuesFail(nodes: map<int, Node>, id: int, rule: Rule, i: nat, j: nat)
    requires id in nodes && Ordered(nodes) && i <= j <= |nodes[id].metaData|
    requires ChildValues(nodes, id, rule, i).None?
    ensures ChildValues(nodes, id, rule, j).None?
    decreases j
  {
    if i < j {
      ChildValuesFail(nodes, id, rule, i, j - 1);
    }
  }

  /** `getValue`: the loop over the metadata entries, recursing into the picked children. */
  method GetValue(nodes: map<int, Node>, id: int, rule: Rule) returns (r: Option<int>)
    requires id in nodes && Ordered(nodes)
    ensures r == ValueOf(nodes, id, rule)
    decreases |Later(nodes, id)|, 1
  {
    var node := nodes[id];
    if node.numChildren == 0 {
      return Some(Sum(node.metaData));
    }
    var total := 0;
    for i := 0 to |node.metaData|
      invariant ChildValues(nodes, id, rule, i) == Some(total)
    {
      match PickChild(node.metaData[i], |node.children|, rule)
      case Skip =>
      case OutOfRange =>
        ChildValuesFail(nodes, id, rule, i + 1, |node.metaData|);
        return None;
      case Child(pos) =>
        var c := node.children[pos];
        if c !in nodes {
          ChildValuesFail(nodes, id, rule, i + 1, |node.metaData|);
          return None;
        }
        LaterShrinks(nodes, id, c);
        var value := GetValue(nodes, c, rule);
        if value.None? {
          ChildValuesFail(nodes, id, rule, i + 1, |node.metaData|);
          return None;
        }
        total := total + value.value;
    }
    r := Some(total);
  }

  /** `SolvePartTwo`: the value of node 1, the root; `None` where the table has no node 1. */
  method SolvePartTwo(nodes: map<int, Node>, rule: Rule) returns (r: Option<int>)
    requires Ordered(nodes)
    ensures 1 !in nodes ==> r.None?
    ensures 1 in nodes ==> r == ValueOf(nodes, 1, rule)
  {
    if 1 !in nodes {
      return None;
    }
    r := GetValue(nodes, 1, rule);
  }

  /** Whatever the input, the loop's table numbers every child after its parent. */
  lemma {:induction false} ParsedOrdered(ints: seq<int>)
    requires Parse(ints, Start()).Some?
    ensures Ordered(Parse(ints, Start()).value)
  {
    ParseWellLinked(ints, Start());
    var nodes := Parse(ints, Start()).value;
    forall i, j | i in nodes && 0 <= j < |nodes[i].children|
      ensures i < nodes[i].children[j]
    {
      assert Linked(nodes, i);
    }
  }

  /** The value of a tree, read off the tree itself. */
  function TreeValue(t: Tree, rule: Rule): Option<int>
    decreases t, 1, 0
  {
    if |t.children| == 0 then Some(Sum(t.meta))
    else TreeChildValues(t, rule, |t.meta|)
  }

  /** The sum over the first `i` metadata entries of a tree. */
  function TreeChildValues(t: Tree, rule: Rule, i: nat): Option<int>
    requires i <= |t.meta|
    decreases t, 0, i
  {
    if i == 0 then Some(0)
    else
      var total :- TreeChildValues(t, rule, i - 1);
      match PickChild(t.meta[i - 1], |t.children|, rule)
      case Skip => Some(total)
      case OutOfRange => None
      case Child(pos) =>
        var v :- TreeValue(t.children[pos], rule);
        Some(total + v)
  }

  /** Every node of `f` is in `m`, unchanged. */
  ghost predicate Within(f: map<int, Node>, m: map<int, Node>) {
    forall x :: x in f ==> x in m && m[x] == f[x]
  }

  lemma {:induction false} WithinTrans(a: map<int, Node>, b: map<int, Node>, c: map<int, Node>)
    requires Within(a, b) && Within(b, c)
    ensures Within(a, c)
  {
  }

  /** The left table of a merge with disjoint keys lies in the merge. */
  lemma {:induction false} LeftWithin(a: map<int, Node>, g: map<int, Node>, m: map<int, Node>)
    requires a.Keys !! g.Keys && m == a + g
    ensures Within(a, m)
  {
  }

  /** The tables of the first children lie in those of more children. */
  lemma {:induction false} UpToWithin(t: Tree, i: nat, j: nat, k: int)
    requires i <= j <= |t.children|
    ensures Within(FlatUpTo(t, i, k), FlatUpTo(t, j, k))
    decreases j
  {
    if i < j {
      var a, k' := FlatUpTo(t, j - 1, k), k + 1 + SizeUpTo(t, j - 1);
      var g := Flat(t.children[j - 1], k', k);
      assert a.Keys !! g.Keys by {
        FlatUpToKeys(t, j - 1, k);
        FlatKeys(t.children[j - 1], k', k);
      }
      LeftWithin(a, g, FlatUpTo(t, j, k));
      UpToWithin(t, i, j - 1, k);
      WithinTrans(FlatUpTo(t, i, k), FlatUpTo(t, j - 1, k), FlatUpTo(t, j, k));
    }
  }

  /** The table of a child lies in the table of its parent's tree. */
  lemma {:induction false} ChildWithin(t: Tree, k: int, p: int, pos: nat)
    requires pos < |t.children|
    ensures Within(Flat(t.children[pos], k + 1 + SizeUpTo(t, pos), k), Flat(t, k, p))
  {
    var n := |t.children|;
    UpToWithin(t, pos + 1, n, k);
    FlatUpToKeys(t, n, k);
    assert Within(FlatUpTo(t, n, k), Flat(t, k, p));
    WithinTrans(FlatUpTo(t, pos + 1, k), FlatUpTo(t, n, k), Flat(t, k, p));
    WithinTrans(Flat(t.children[pos], k + 1 + SizeUpTo(t, pos), k), FlatUpTo(t, pos + 1, k), Flat(t, k, p));
  }

  /** In any table holding the table of tree `t` from `k`, node `k` is worth what `t` is. */
  lemma {:induction false} ValueFlat(m: map<int, Node>, t: Tree, k: int, p: int, rule: Rule)
    requires Ordered(m) && Within(Flat(t, k, p), m)
    ensures k in m && ValueOf(m, k, rule) == TreeValue(t, rule)
    decreases t, 1
  {
    assert k in Flat(t, k, p);
    if |t.children| > 0 {
      ChildValuesFlat(m, t, k, p, rule, |t.meta|);
    }
  }

  lemma {:induction false} ChildValuesFlat(m: map<int, Node>, t: Tree, k: int, p: int, rule: Rule, i: nat)
    requires Ordered(m) && Within(Flat(t, k, p), m) && i <= |t.meta|
    ensures k in m && |m[k].metaData| == |t.meta|
    ensures ChildValues(m, k, rule, i) == TreeChildValues(t, rule, i)
    decreases t, 0, i
  {
    assert k in Flat(t, k, p);
    if i > 0 {
      ChildValuesFlat(m, t, k, p, rule, i - 1);
      match PickChild(t.meta[i - 1], |t.children|, rule)
      case Skip =>
      case OutOfRange =>
      case Child(pos) =>
        var c := k + 1 + SizeUpTo(t, pos);
        assert m[k].children[pos] == c;
        ChildWithin(t, k, p, pos);
        WithinTrans(Flat(t.children[pos], c, k), Flat(t, k, p), m);
        ValueFlat(m, t.children[pos], c, k, rule);
    }
  }

  /** On a list that is exactly one tree, part two on the loop's table is the tree's value. */
  lemma {:induction false} PartTwoTree(ints: seq<int>, t: Tree, rule: Rule)
    requires ReadTree(ints, 0) == Some((t, |ints|))
    ensures Parse(ints, Start()).Some? && Ordered(Parse(ints, Start()).value)
    ensures 1 in Parse(ints, Start()).value
    ensures ValueOf(Parse(ints, Start()).value, 1, rule) == TreeValue(t, rule)
  {
    ParseWellFormed(ints, t);
    ParsedOrdered(ints);
    ValueFlat(Flat(t, 1, 0), t, 1, 0, rule);
  }

  /** Part two does not depend on the rule where no node with children has an entry
      below 1. */
  predicate PositiveEntries(t: Tree)
    decreases t
  {
    (|t.children| == 0 || forall i :: 0 <= i < |t.meta| ==> t.meta[i] >= 1) &&
    forall i :: 0 <= i < |t.children| ==> PositiveEntries(t.children[i])
  }

  lemma {:induction false} RulesAgree(t: Tree)
    requires PositiveEntries(t)
    ensures TreeValue(t, AsWritten) == TreeValue(t, Intended)
    decreases t, 1
  {
    if |t.children| > 0 {
      RulesAgreeUpTo(t, |t.meta|);
    }
  }

  lemma {:induction false} RulesAgreeUpTo(t: Tree, i: nat)
    requires PositiveEntries(t) && |t.children| > 0 && i <= |t.meta|
    ensures TreeChildValues(t, AsWritten, i) == TreeChildValues(t, Intended, i)
    decreases t, 0, i
  {
    if i > 0 {
      RulesAgreeUpTo(t, i - 1);
      var m := t.meta[i - 1];
      if m <= |t.children| {
        RulesAgree(t.children[m - 1]);
      }
    }
  }

  // ---------------------------------------------------------------------------
  // Complete nodes
  // ---------------------------------------------------------------------------

  /** Every node has as many children and metadata entries as its header declares. */
  ghost predicate Complete(nodes: map<int, Node>) {
    forall x :: x in nodes ==> ChildrenDiscovered(nodes[x]) && !NeedsMetadata(nodes[x]) &&
                               |nodes[x].metaData| == nodes[x].numMetaDatas
  }

  lemma {:induction false} FlatComplete(t: Tree, k: int, p: int)
    ensures Complete(Flat(t, k, p))
    decreases t, |t.children| + 1
  {
    FlatUpToComplete(t, |t.children|, k);
  }

  lemma {:induction false} FlatUpToComplete(t: Tree, j: nat, k: int)
    requires j <= |t.children|
    ensures Complete(FlatUpTo(t, j, k))
    decreases t, j
  {
    if j > 0 {
      FlatUpToComplete(t, j - 1, k);
      FlatComplete(t.children[j - 1], k + 1 + SizeUpTo(t, j - 1), k);
    }
  }

  /** On a list that is exactly one tree, every node the loop leaves has all its
      declared children and metadata. */
  lemma {:induction false} ParseComplete(ints: seq<int>, t: Tree)
    requires ReadTree(ints, 0) == Some((t, |ints|))
    ensures Parse(ints, Start()).Some? && Complete(Parse(ints, Start()).value)
  {
    ParseWellFormed(ints, t);
    FlatComplete(t, 1, 0);
  }

  // ---------------------------------------------------------------------------
  // Reading given lists
  // ---------------------------------------------------------------------------

  /** The entries from position `q` on spell out `xs`. */
  predicate Spells(ints: seq<int>, q: int, xs: seq<int>) {
    0 <= q && q + |xs| <= |ints| && forall i :: 0 <= i < |xs| ==> ints[q + i] == xs[i]
  }

  /** A header, its children already read, then its metadata. */
  lemma {:induction false} NodeAt(ints: seq<int>, pos: int, cs: seq<Tree>, meta: seq<int>, q: int, e: int)
    requires 0 <= pos && pos + 2 <= q && e == q + |meta|
    requires q <= |ints| && ints[pos] == |cs| && ints[pos + 1] == |meta| && Spells(ints, q, meta)
    requires ReadChildren(ints, pos + 2, |cs|) == Some((cs, q))
    ensures ReadTree(ints, pos) == Some((Tree(cs, meta), e))
  {
    assert ints[q..q + |meta|] == meta;
  }

  /** No children. */
  lemma {:induction false} NoChildrenAt(ints: seq<int>, pos: int)
    requires 0 <= pos <= |ints|
    ensures ReadChildren(ints, pos, 0) == Some(([], pos))
  {
  }

  /** A first child, then the others. */
  lemma {:induction false} ChildrenAt(ints: seq<int>, pos: int, c: Tree, q: int, cs: seq<Tree>, e: int, n: nat, r: seq<Tree>)
    requires 0 <= pos <= |ints| && ReadTree(ints, pos) == Some((c, q))
    requires q <= |ints| && ReadChildren(ints, q, |cs|) == Some((cs, e))
    requires n == |cs| + 1 && r == [c] + cs
    ensures ReadChildren(ints, pos, n) == Some((r, e))
  {
  }

  /** A leaf. */
  lemma {:induction false} LeafAt(ints: seq<int>, pos: int, meta: seq<int>, e: int)
    requires 0 <= pos && e == pos + 2 + |meta|
    requires pos + 2 <= |ints| && ints[pos] == 0 && ints[pos + 1] == |meta| && Spells(ints, pos + 2, meta)
    ensures ReadTree(ints, pos) == Some((Tree([], meta), e))
  {
    NoChildrenAt(ints, pos + 2);
    NodeAt(ints, pos, [], meta, pos + 2, e);
  }

  // ---------------------------------------------------------------------------
  // Examples
  // ---------------------------------------------------------------------------

  /** The tree of the puzzle's example: root A with children B and C; C has child D. */
  lemma {:induction false} ExampleRead(ints: seq<int>, b: Tree, d: Tree, c: Tree, t: Tree)
    requires ints == [2, 3, 0, 3, 10, 11, 12, 1, 1, 0, 1, 99, 2, 1, 1, 2]
    requires b == Tree([], [10, 11, 12]) && d == Tree([], [99]) && c == Tree([d], [2])
    requires t == Tree([b, c], [1, 1, 2])
    ensures ReadTree(ints, 0) == Some((t, |ints|))
  {
    LeafAt(ints, 2, [10, 11, 12], 7);
    LeafAt(ints, 9, [99], 12);
    NoChildrenAt(ints, 12);
    ChildrenAt(ints, 9, d, 12, [], 12, 1, [d]);
    NodeAt(ints, 7, [d], [2], 12, 13);
    NoChildrenAt(ints, 13);
    ChildrenAt(ints, 7, c, 13, [], 13, 1, [c]);
    ChildrenAt(ints, 2, b, 7, [c], 13, 2, [b, c]);
    NodeAt(ints, 0, [b, c], [1, 1, 2], 13, 16);
  }

  /** Part one of the example: the metadata sums to 138. */
  lemma {:induction false} ExampleMeta(b: Tree, d: Tree, c: Tree, t: Tree)
    requires b == Tree([], [10, 11, 12]) && d == Tree([], [99]) && c == Tree([d], [2])
    requires t == Tree([b, c], [1, 1, 2])
    ensures MetaTotal(t) == 138
  {
    SumThree(10, 11, 12);
    SumOne(99);
    SumOne(2);
    SumThree(1, 1, 2);
    assert MetaTotal(b) == 33;
    assert MetaTotal(d) == 99;
    assert MetaTotalUpTo(c, 1) == 99;
    assert MetaTotal(c) == 101;
    assert MetaTotalUpTo(t, 1) == 33;
    assert MetaTotalUpTo(t, 2) == 134;
  }

  /** Part two of the example: the root is worth 66 under either rule. */
  lemma {:induction false} ExampleValue(b: Tree, d: Tree, c: Tree, t: Tree, rule: Rule)
    requires b == Tree([], [10, 11, 12]) && d == Tree([], [99]) && c == Tree([d], [2])
    requires t == Tree([b, c], [1, 1, 2])
    ensures TreeValue(t, rule) == Some(66)
  {
    SumThree(10, 11, 12);
    assert TreeValue(b, rule) == Some(33);
    assert TreeChildValues(c, rule, 1) == Some(0);
    assert TreeValue(c, rule) == Some(0);
    assert TreeChildValues(t, rule, 1) == Some(33);
    assert TreeChildValues(t, rule, 2) == Some(66);
  }

  /** Both parts of the example, from the list of integers to the answers 138 and 66. */
  lemma {:induction false} Example(ints: seq<int>, rule: Rule)
    requires ints == [2, 3, 0, 3, 10, 11, 12, 1, 1, 0, 1, 99, 2, 1, 1, 2]
    ensures Parse(ints, Start()).Some?
    ensures MetaOver(Parse(ints, Start()).value, Parse(ints, Start()).value.Keys) == 138
    ensures Ordered(Parse(ints, Start()).value) && 1 in Parse(ints, Start()).value
    ensures ValueOf(Parse(ints, Start()).value, 1, rule) == Some(66)
  {
    var b, d := Tree([], [10, 11, 12]), Tree([], [99]);
    var c := Tree([d], [2]);
    var t := Tree([b, c], [1, 1, 2]);
    ExampleRead(ints, b, d, c, t);
    ExampleMeta(b, d, c, t);
    ExampleValue(b, d, c, t, rule);
    PartOneTree(ints, t);
    PartTwoTree(ints, t, rule);
  }

  /** A metadata entry 0 under a node with one child: as written, index -1 picks that
      (last) child, so the list `1 1 0 1 7 0` is worth 7. */
  lemma {:induction false} ZeroEntryAsWritten(ints: seq<int>, t: Tree)
    requires ints == [1, 1, 0, 1, 7, 0] && t == Tree([Tree([], [7])], [0])
    ensures ReadTree(ints, 0) == Some((t, |ints|))
    ensures Parse(ints, Start()).Some? && Ordered(Parse(ints, Start()).value)
    ensures 1 in Parse(ints, Start()).value
    ensures ValueOf(Parse(ints, Start()).value, 1, AsWritten) == Some(7)
  {
    LeafAt(ints, 2, [7], 5);
    NoChildrenAt(ints, 5);
    ChildrenAt(ints, 2, Tree([], [7]), 5, [], 5, 1, [Tree([], [7])]);
    NodeAt(ints, 0, [Tree([], [7])], [0], 5, 6);
    assert TreeValue(t, AsWritten) == Some(7);
    PartTwoTree(ints, t, AsWritten);
  }

  /** The same list under the puzzle's rule: entry 0 refers to no child, so the root is
      worth 0. */
  lemma {:induction false} ZeroEntryIntended(ints: seq<int>, t: Tree)
    requires ints == [1, 1, 0, 1, 7, 0] && t == Tree([Tree([], [7])], [0])
    ensures Parse(ints, Start()).Some? && Ordered(Parse(ints, Start()).value)
    ensures 1 in Parse(ints, Start()).value
    ensures ValueOf(Parse(ints, Start()).value, 1, Intended) == Some(0)
  {
    ZeroEntryAsWritten(ints, t);
    assert TreeValue(t, Intended) == Some(0);
    PartTwoTree(ints, t, Intended);
  }
}

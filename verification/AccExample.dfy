/** Straight-line code, and an example of it in which the accumulator pass loses a value
    (bytecode_optimizer/reg_acc_alloc.cpp). */
module AccExample {
  import opened AccGraph
  import opened AccAllocPass
  import AccMachine

  // ----- straight-line code -----

  /** One block with the given instructions. */
  function StraightLine(nodes: seq<Node>, users: seq<seq<nat>>): (g: Graph)
    ensures g.nodes == nodes && g.users == users && |g.blocks| == |g.succs| == |g.preds| == 1 && g.entry == 0
    ensures g.succs[0] == [] && g.preds[0] == []
    ensures |g.where| == |g.blocks[0]| == |nodes|
    ensures forall i :: 0 <= i < |nodes| ==> g.where[i] == Pos(0, i) && g.blocks[0][i] == i
  {
    Graph(nodes, [seq(|nodes|, i => i)], [[]], [[]], users, seq(|nodes|, i requires 0 <= i => Pos(0, i)), 0)
  }

  lemma StraightIsConsistent(nodes: seq<Node>, users: seq<seq<nat>>)
    requires |users| == |nodes|
    ensures ConsistentBlocks(StraightLine(nodes, users)) && ConsistentEdges(StraightLine(nodes, users))
  {
    hide StraightLine;
  }

  lemma {:induction false} StraightPath(nodes: seq<Node>, users: seq<seq<nat>>, path: seq<Pos>, j: nat)
    requires |users| == |nodes| && IsPath(StraightLine(nodes, users), path) && j < |path|
    ensures path[j] == Pos(0, path[0].index + j)
  {
    hide StraightLine;
    if j > 0 {
      StraightPath(nodes, users, path, j - 1);
      assert Edge(StraightLine(nodes, users), path[j - 1], path[j]);
    }
  }

  lemma StraightIsReached(nodes: seq<Node>, users: seq<seq<nat>>, u: nat) returns (path: seq<Pos>)
    requires |users| == |nodes| && u < |nodes|
    ensures FromEntry(StraightLine(nodes, users), path, StraightLine(nodes, users).where[u])
  {
    hide StraightLine;
    path := seq(u + 1, i requires 0 <= i => Pos(0, i));
  }

  lemma StraightPasses(nodes: seq<Node>, users: seq<seq<nat>>, a: nat, u: nat, path: seq<Pos>)
    requires |users| == |nodes| && a < u < |nodes| && FromEntry(StraightLine(nodes, users), path, StraightLine(nodes, users).where[u])
    ensures StraightLine(nodes, users).where[a] in path[..|path| - 1]
  {
    hide StraightLine;
    StraightPath(nodes, users, path, |path| - 1);
    StraightPath(nodes, users, path, a);
    assert path[..|path| - 1][a] == StraightLine(nodes, users).where[a];
  }

  /** Operands that come earlier dominate. */
  lemma StraightIsDominated(nodes: seq<Node>, users: seq<seq<nat>>)
    requires |users| == |nodes| && forall u, k :: 0 <= u < |nodes| && 0 <= k < |nodes[u].inputs| ==> nodes[u].inputs[k] < u
    ensures ConsistentBlocks(StraightLine(nodes, users)) && Dominated(StraightLine(nodes, users))
  {
    hide StraightLine, ConsistentBlocks, Edge;
    StraightIsConsistent(nodes, users);
    var g := StraightLine(nodes, users);
    forall u | 0 <= u < |g.nodes|
      ensures Reachable(g, u)
    {
      var path := StraightIsReached(nodes, users, u);
    }
    forall u, k, path | 0 <= u < |g.nodes| && !g.nodes[u].phi && 0 <= k < |g.nodes[u].inputs| && FromEntry(g, path, g.where[u])
      ensures g.where[g.nodes[u].inputs[k]] in path[..|path| - 1]
    {
      StraightPasses(nodes, users, g.nodes[u].inputs[k], u, path);
    }
  }

  lemma {:induction false} StraightChain(nodes: seq<Node>, users: seq<seq<nat>>, a: nat, u: nat, c: seq<Pos>, j: nat)
    requires |users| == |nodes| && a < |nodes| && u < |nodes| && ConsistentBlocks(StraightLine(nodes, users))
    requires ChainBetween(StraightLine(nodes, users), a, u, c) && j < |c|
    ensures c[j] == Pos(0, a + j)
  {
    hide StraightLine, ConsistentBlocks;
    if j > 0 {
      StraightChain(nodes, users, a, u, c, j - 1);
      assert Linked(StraightLine(nodes, users), c[j - 1], c[j]);
    }
  }

  /** Neighbours are linked. */
  lemma NeighboursAreLinked(nodes: seq<Node>, users: seq<seq<nat>>, a: nat)
    requires |users| == |nodes| && a + 1 < |nodes| && ConsistentBlocks(StraightLine(nodes, users))
    ensures nodes[a].WritesAcc() ==> SilentlyLinked(StraightLine(nodes, users), a, a + 1)
    ensures LinkedThrough(StraightLine(nodes, users), a, a + 1)
  {
    hide StraightLine, ConsistentBlocks;
    var g := StraightLine(nodes, users);
    var c := [Pos(0, a), Pos(0, a + 1)];
    assert Linked(g, c[0], c[1]);
    assert ChainBetween(g, a, a + 1, c) && Silent(g, c) && OnlyReadersOf(g, a, c);
  }

  /** A writer in between disturbs. */
  lemma WriterDisturbs(nodes: seq<Node>, users: seq<seq<nat>>, a: nat, w: nat, u: nat)
    requires |users| == |nodes| && a < w < u < |nodes| && nodes[w].WritesAcc() && ConsistentBlocks(StraightLine(nodes, users))
    ensures !SilentlyLinked(StraightLine(nodes, users), a, u)
  {
    hide StraightLine, ConsistentBlocks;
    var g := StraightLine(nodes, users);
    forall c | ChainBetween(g, a, u, c)
      ensures !Silent(g, c)
    {
      StraightChain(nodes, users, a, u, c, |c| - 1);
      StraightChain(nodes, users, a, u, c, w - a);
      assert !AtEnd(g, c[w - a]) && NodeAt(g, c[w - a]) == w;
    }
  }

  // ----- a constant that is another operand -----

  const CONSTANT := Node(false, true, false, false, false, false, false, false, true, [])
  const VALUE := Node(false, false, false, false, false, false, false, false, true, [])

  /** A reader of the accumulator without a result. */
  function Reader(inputs: seq<nat>): Node { Node(false, false, false, false, false, false, true, true, false, inputs) }

  /** A constant 0, a value 1, the instruction 2 that takes 1 from the accumulator and 0 from its
      register, and the instruction 3 that wants 0 in the accumulator. */
  function ExampleNodes(): seq<Node> { [CONSTANT, VALUE, Reader([1, 0]), Reader([0])] }

  function ExampleUsers(): seq<seq<nat>> { [[2, 3], [2], [], []] }

  function CrowdedExample(): Graph { StraightLine(ExampleNodes(), ExampleUsers()) }

  lemma ExampleIsGood()
    ensures WellFormed(CrowdedExample()) && Dominated(CrowdedExample()) && IsOrder(CrowdedExample(), [0])
  {
    hide StraightLine, Dominated, ConsistentBlocks, ConsistentEdges, ConsistentNode, ExampleNodes, ExampleUsers;
    ExampleOperands();
    StraightIsConsistent(ExampleNodes(), ExampleUsers());
    StraightIsDominated(ExampleNodes(), ExampleUsers());
    forall a | 0 <= a < 4
      ensures ConsistentNode(CrowdedExample(), a)
    {
      ExampleNode(a);
    }
  }

  lemma ExampleOperands()
    ensures |ExampleNodes()| == |ExampleUsers()| == 4
    ensures forall u :: 0 <= u < 4 ==> !ExampleNodes()[u].phi
    ensures forall u, k :: 0 <= u < 4 && 0 <= k < |ExampleNodes()[u].inputs| ==> ExampleNodes()[u].inputs[k] < u
  {
  }

  lemma ExampleNode(a: nat)
    requires a < 4
    ensures ConsistentNode(CrowdedExample(), a)
  {
    hide StraightLine;
    assert ExampleUsers()[0] == [2, 3] && ExampleUsers()[1] == [2] && ExampleUsers()[2] == [] && ExampleUsers()[3] == [];
  }

  /** The value stays in the accumulator. */
  lemma ExampleRemains(marked: set<nat>)
    ensures WellFormed(CrowdedExample()) && Remains(CrowdedExample(), marked, Everything(CrowdedExample(), [0]), 1)
  {
    hide StraightLine, Dominated, ConsistentBlocks, SilentlyLinked, LinkedThrough, PhisFirst;
    ExampleIsGood();
    WellFormedBlocks(CrowdedExample());
    NeighboursAreLinked(ExampleNodes(), ExampleUsers(), 1);
    var g := CrowdedExample();
    assert IsNode(g, 1);
    assert Ready(g, marked, 1, 2);
  }

  /** And its user is crowded by the constant. */
  lemma ExampleIsCrowded()
    ensures WellFormed(CrowdedExample()) && Crowded(CrowdedExample(), Everything(CrowdedExample(), [0]), 1, 2)
  {
    hide StraightLine, Dominated, ConsistentBlocks, SilentlyLinked, PhisFirst;
    ExampleIsGood();
    WellFormedBlocks(CrowdedExample());
    WriterDisturbs(ExampleNodes(), ExampleUsers(), 0, 1, 3);
    var g, pr := CrowdedExample(), Everything(CrowdedExample(), [0]);
    assert IsNode(g, 3) && Checks(g, 3, 0);
    assert Overrides(g, pr, 0, 1);
  }

  /** Whatever the pass makes of the example, a value is lost: the store of 1 is left out, and the
      load of it before 2 is not. */
  lemma ExampleLosesAValue(marked: set<nat>, accDst: seq<bool>, needLda: seq<bool>)
    requires WellFormed(CrowdedExample()) && |accDst| == |needLda| == 4
    requires ExactDst(CrowdedExample(), marked, Everything(CrowdedExample(), [0]), accDst)
    requires ExactLda(CrowdedExample(), marked, Everything(CrowdedExample(), [0]), needLda)
    ensures accDst[1] && needLda[2] && !NothingLost(CrowdedExample(), accDst, needLda)
  {
    hide WellFormed, Remains, Crowded, StraightLine, Everything, ConsistentBlocks;
    ExampleRemains(marked);
    ExampleIsCrowded();
    var g := CrowdedExample();
    assert accDst[1];
    assert Covered(g, 2) && AccInput(g, 2) == 1;
    assert NeedsFromAcc(g, 1, 2);
  }

  /** The pass itself on the example: the code computes something else than the graph means. */
  method RunExample(marked: set<nat>) returns (accDst: seq<bool>, needLda: seq<bool>)
    ensures |accDst| == |needLda| == 4 && accDst[1] && needLda[2]
    ensures !NothingLost(CrowdedExample(), accDst, needLda)
    ensures WellFormed(CrowdedExample()) && !AccMachine.Preserves(CrowdedExample(), AccMachine.Allocation(accDst, needLda))
  {
    hide WellFormed, Dominated, ExactDst, ExactLda, Sound, NothingLost, Uncrowded, StraightLine, IsOrder, Everything, ConsistentBlocks,
         AccMachine.Preserves, AccMachine.Plain;
    ExampleIsGood();
    ExampleIsPlain();
    var pass := new RegAccAlloc(CrowdedExample(), marked, [0]);
    pass.RunImpl();
    accDst, needLda := pass.accDst, pass.needLda;
    ExampleLosesAValue(marked, accDst, needLda);
    AccMachine.PreservesIff(CrowdedExample(), AccMachine.Allocation(accDst, needLda));
  }

  lemma ExampleIsPlain()
    ensures AccMachine.Plain(CrowdedExample())
  {
  }

  // ----- a reader on the way to a save state -----

  /** A save state that lists a constant. */
  function State(inputs: seq<nat>): Node { Node(false, false, true, false, false, false, true, false, false, inputs) }

  function StateNodes(): seq<Node> { [CONSTANT, Reader([0]), State([0])] }

  function StateUsers(): seq<seq<nat>> { [[1, 2], [], []] }

  /** A reader of the constant between it and a save state is no disturbance while the constant is in
      the accumulator, although the way is not silent. */
  lemma ReadOnTheWay()
    ensures var g := StraightLine(StateNodes(), StateUsers());
            ConsistentBlocks(g) && Checks(g, 2, 0) && LinkedThrough(g, 0, 2) && !SilentlyLinked(g, 0, 2)
  {
    hide StraightLine, ConsistentBlocks;
    StraightIsConsistent(StateNodes(), StateUsers());
    var g := StraightLine(StateNodes(), StateUsers());
    var d := [Pos(0, 0), Pos(0, 1), Pos(0, 2)];
    assert Linked(g, d[0], d[1]) && Linked(g, d[1], d[2]);
    assert ChainBetween(g, 0, 2, d) && OnlyReadersOf(g, 0, d);
    forall c | ChainBetween(g, 0, 2, c)
      ensures !Silent(g, c)
    {
      StraightChain(StateNodes(), StateUsers(), 0, 2, c, |c| - 1);
      StraightChain(StateNodes(), StateUsers(), 0, 2, c, 1);
      assert !AtEnd(g, c[1]) && NodeAt(g, c[1]) == 1;
    }
  }

  // ----- an intrinsic -----

  /** An intrinsic that reads the accumulator. */
  function Intrinsic(inputs: seq<nat>): Node { Node(false, false, false, false, true, false, true, true, false, inputs) }

  /** Values 0 and 1, a save state 2, and an intrinsic that takes 0, its last operand before the save
      state, from the accumulator. */
  function IntrinsicNodes(): seq<Node> { [VALUE, VALUE, State([]), Intrinsic([1, 0, 2])] }

  function IntrinsicUsers(): seq<seq<nat>> { [[3], [3], [3], []] }

  function IntrinsicExample(): Graph { StraightLine(IntrinsicNodes(), IntrinsicUsers()) }

  lemma IntrinsicOperands()
    ensures |IntrinsicNodes()| == |IntrinsicUsers()| == 4
    ensures forall u :: 0 <= u < 4 ==> !IntrinsicNodes()[u].phi
    ensures forall u, k :: 0 <= u < 4 && 0 <= k < |IntrinsicNodes()[u].inputs| ==> IntrinsicNodes()[u].inputs[k] < u
  {
  }

  lemma IntrinsicNode(a: nat)
    requires a < 4
    ensures ConsistentNode(IntrinsicExample(), a)
  {
    hide StraightLine;
    assert IntrinsicUsers()[0] == [3] && IntrinsicUsers()[1] == [3] && IntrinsicUsers()[2] == [3] && IntrinsicUsers()[3] == [];
  }

  lemma IntrinsicIsGood()
    ensures WellFormed(IntrinsicExample()) && Dominated(IntrinsicExample()) && IsOrder(IntrinsicExample(), [0])
  {
    hide StraightLine, Dominated, ConsistentBlocks, ConsistentEdges, ConsistentNode, IntrinsicNodes, IntrinsicUsers;
    IntrinsicOperands();
    StraightIsConsistent(IntrinsicNodes(), IntrinsicUsers());
    StraightIsDominated(IntrinsicNodes(), IntrinsicUsers());
    forall a | 0 <= a < 4
      ensures ConsistentNode(IntrinsicExample(), a)
    {
      IntrinsicNode(a);
    }
  }

  /** Value 1 is written in between: the intrinsic has to load 0 again, and 1 has to be stored. */
  lemma IntrinsicLoads(marked: set<nat>, accDst: seq<bool>, needLda: seq<bool>)
    requires WellFormed(IntrinsicExample()) && |accDst| == |needLda| == 4
    requires ExactDst(IntrinsicExample(), marked, Everything(IntrinsicExample(), [0]), accDst)
    requires ExactLda(IntrinsicExample(), marked, Everything(IntrinsicExample(), [0]), needLda)
    ensures needLda[3] && !accDst[1]
  {
    hide WellFormed, StraightLine, ConsistentBlocks, Crowded, SilentlyLinked;
    var g := IntrinsicExample();
    IntrinsicIsGood();
    WellFormedBlocks(g);
    WriterDisturbs(IntrinsicNodes(), IntrinsicUsers(), 0, 1, 3);
    assert Covered(g, 3) && AccInput(g, 3) == 0;
    assert 3 in g.users[1] && !TakesAt(g.nodes[3], 1);
  }

  /** The pass itself on the intrinsic. */
  method RunIntrinsic(marked: set<nat>) returns (accDst: seq<bool>, needLda: seq<bool>)
    ensures |accDst| == |needLda| == 4 && needLda[3] && !accDst[1]
  {
    hide WellFormed, Dominated, ExactDst, ExactLda, Sound, NothingLost, Uncrowded, StraightLine, IsOrder, Everything, ConsistentBlocks;
    IntrinsicIsGood();
    var pass := new RegAccAlloc(IntrinsicExample(), marked, [0]);
    pass.RunImpl();
    accDst, needLda := pass.accDst, pass.needLda;
    IntrinsicLoads(marked, accDst, needLda);
  }
}

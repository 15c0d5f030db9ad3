/** The control-flow graph RegAccAlloc works on, straight-line chains in it, and what the
    emitted code does to the accumulator (bytecode_optimizer/reg_acc_alloc.cpp,
    bytecode_optimizer/codegen.cpp). */
module AccGraph {

  /** An instruction; accRead and accWrite are its ACC_READ and ACC_WRITE flags. */
  datatype Node = Node(phi: bool, constant: bool, saveState: bool, call: bool, intrinsic: bool, commutative: bool,
                       noDest: bool, accRead: bool, accWrite: bool, inputs: seq<nat>)
  {
    /** Inst::IsAccWrite (compiler/optimizer/ir/inst.cpp): constants always write it, whatever
        has become of their flag. */
    predicate WritesAcc() { constant || accWrite }

    /** AccReadIndex (bytecode_optimizer/common.cpp). */
    function AccReadIndex(): int { if intrinsic && accRead then |inputs| - 2 else 0 }
  }

  /** A point in a block: before instruction i, or at the end of the block. */
  datatype Pos = Pos(block: nat, index: nat)

  /** where is the position of every instruction; blocks list phis first. */
  datatype Graph = Graph(nodes: seq<Node>, blocks: seq<seq<nat>>, succs: seq<seq<nat>>, preds: seq<seq<nat>>,
                         users: seq<seq<nat>>, where: seq<Pos>, entry: nat)

  predicate ValidPos(g: Graph, p: Pos) {
    p.block < |g.blocks| && p.index <= |g.blocks[p.block]|
  }

  predicate AtEnd(g: Graph, p: Pos)
    requires ValidPos(g, p)
  {
    p.index == |g.blocks[p.block]|
  }

  predicate ConsistentBlocks(g: Graph) {
    && |g.where| == |g.users| == |g.nodes|
    && |g.succs| == |g.preds| == |g.blocks|
    && (forall a :: 0 <= a < |g.nodes| ==> ValidPos(g, g.where[a]) && !AtEnd(g, g.where[a])
                                           && g.blocks[g.where[a].block][g.where[a].index] == a)
    && (forall b, i :: 0 <= b < |g.blocks| && 0 <= i < |g.blocks[b]| ==>
          g.blocks[b][i] < |g.nodes| && g.where[g.blocks[b][i]] == Pos(b, i))
  }

  predicate ConsistentEdges(g: Graph)
    requires |g.succs| == |g.preds| == |g.blocks|
  {
    && g.entry < |g.blocks|
    && (forall b, k :: 0 <= b < |g.succs| && 0 <= k < |g.succs[b]| ==>
          g.succs[b][k] < |g.blocks| && g.succs[b][k] != g.entry && b in g.preds[g.succs[b][k]])
  }

  predicate ConsistentNode(g: Graph, a: nat)
    requires a < |g.nodes| && |g.users| == |g.nodes|
  {
    var n := g.nodes[a];
    && (forall k :: 0 <= k < |n.inputs| ==> n.inputs[k] < |g.nodes| && a in g.users[n.inputs[k]])
    && (forall k :: 0 <= k < |g.users[a]| ==> g.users[a][k] < |g.nodes| && a in g.nodes[g.users[a][k]].inputs)
    && (n.intrinsic && n.accRead ==>
          && |n.inputs| >= 2 && g.nodes[n.inputs[|n.inputs| - 1]].saveState && !g.nodes[n.inputs[|n.inputs| - 2]].saveState)
    && (n.accRead ==> n.inputs != [])
    && (n.phi || n.saveState ==> !n.constant && !n.accRead && !n.accWrite)
  }

  /** The operand that a reader takes from the accumulator: the first one, or for an intrinsic the
      last one before the save state that ends its inputs. */
  function AccPlace(g: Graph, a: nat): (k: nat)
    requires a < |g.nodes| && |g.users| == |g.nodes| && ConsistentNode(g, a) && g.nodes[a].accRead
    ensures k < |g.nodes[a].inputs|
  {
    if g.nodes[a].intrinsic then LastPlain(g, g.nodes[a].inputs) else 0
  }

  /** The last of some operands that is no save state. */
  function LastPlain(g: Graph, inputs: seq<nat>): (k: nat)
    requires inputs != [] && forall k :: 0 <= k < |inputs| ==> inputs[k] < |g.nodes|
    ensures k < |inputs|
  {
    var n := |inputs| - 1;
    if n == 0 || !g.nodes[inputs[n]].saveState then n else LastPlain(g, inputs[..n])
  }

  /** That is the operand the pass looks at. */
  lemma AccPlaceIs(g: Graph, a: nat)
    requires a < |g.nodes| && |g.users| == |g.nodes| && ConsistentNode(g, a) && g.nodes[a].accRead
    ensures g.nodes[a].AccReadIndex() == AccPlace(g, a)
  {
    var inputs := g.nodes[a].inputs;
    if g.nodes[a].intrinsic {
      var init := inputs[..|inputs| - 1];
      assert init[|init| - 1] == inputs[|inputs| - 2];
      assert LastPlain(g, init) == |init| - 1;
    }
  }

  /** Phis stand first in their block, and a block entered from one place only has none. */
  predicate PhisFirst(g: Graph)
    requires ConsistentBlocks(g)
  {
    && (forall a, b :: 0 <= a < |g.nodes| && 0 <= b < |g.nodes| && g.nodes[a].phi && !g.nodes[b].phi ==>
          g.where[a].block == g.where[b].block ==> g.where[a].index < g.where[b].index)
    && (forall a :: 0 <= a < |g.nodes| && g.nodes[a].phi ==> |g.preds[g.where[a].block]| != 1)
  }

  // ----- paths -----

  predicate Edge(g: Graph, p: Pos, q: Pos)
    requires |g.succs| == |g.blocks| && ValidPos(g, p)
  {
    if AtEnd(g, p) then q.index == 0 && q.block in g.succs[p.block] else q == Pos(p.block, p.index + 1)
  }

  ghost predicate IsPath(g: Graph, path: seq<Pos>)
    requires |g.succs| == |g.blocks|
  {
    && path != []
    && (forall j :: 0 <= j < |path| ==> ValidPos(g, path[j]))
    && (forall j :: 0 <= j < |path| - 1 ==> Edge(g, path[j], path[j + 1]))
  }

  ghost predicate FromEntry(g: Graph, path: seq<Pos>, last: Pos)
    requires |g.succs| == |g.blocks|
  {
    IsPath(g, path) && path[0] == Pos(g.entry, 0) && path[|path| - 1] == last
  }

  ghost predicate Reachable(g: Graph, u: nat)
    requires ConsistentBlocks(g) && u < |g.nodes|
  {
    exists path :: FromEntry(g, path, g.where[u])
  }

  /** SSA: every instruction can be reached, and every way to reach it passes the definitions
      it uses first. Phis use their inputs on the incoming edges and are not included. */
  ghost predicate Dominated(g: Graph)
    requires ConsistentBlocks(g)
  {
    && (forall u :: 0 <= u < |g.nodes| ==> Reachable(g, u))
    && (forall u, k, path :: 0 <= u < |g.nodes| && !g.nodes[u].phi && 0 <= k < |g.nodes[u].inputs| ==>
          g.nodes[u].inputs[k] < |g.nodes| && FromEntry(g, path, g.where[u]) ==>
            g.where[g.nodes[u].inputs[k]] in path[..|path| - 1])
  }

  ghost predicate WellFormed(g: Graph) {
    && ConsistentBlocks(g) && ConsistentEdges(g) && PhisFirst(g)
    && (forall a :: 0 <= a < |g.nodes| ==> ConsistentNode(g, a))
  }

  /** The use of a at u is on a path from a to u. */
  ghost predicate Reaches(g: Graph, a: nat, u: nat, path: seq<Pos>)
    requires ConsistentBlocks(g) && a < |g.nodes| && u < |g.nodes|
  {
    IsPath(g, path) && |path| >= 2 && path[0] == g.where[a] && path[|path| - 1] == g.where[u]
  }

  lemma DefinitionReachesUse(g: Graph, u: nat, k: nat) returns (path: seq<Pos>)
    requires WellFormed(g) && Dominated(g)
    requires u < |g.nodes| && !g.nodes[u].phi && k < |g.nodes[u].inputs|
    ensures g.nodes[u].inputs[k] < |g.nodes|
    ensures Reaches(g, g.nodes[u].inputs[k], u, path)
  {
    assert ConsistentNode(g, u);
    var a := g.nodes[u].inputs[k];
    assert Reachable(g, u);
    var whole :| FromEntry(g, whole, g.where[u]);
    assert g.where[a] in whole[..|whole| - 1];
    var t :| 0 <= t < |whole| - 1 && whole[t] == g.where[a];
    path := whole[t..];
  }

  // ----- chains: the linear flow the scan follows -----

  /** The only way on from p, and into a place that can only be entered from p. */
  predicate Linked(g: Graph, p: Pos, q: Pos)
    requires |g.succs| == |g.preds| == |g.blocks| && ValidPos(g, p)
  {
    && Edge(g, p, q) && q.block < |g.blocks|
    && (AtEnd(g, p) ==> |g.succs[p.block]| == 1 && |g.preds[q.block]| == 1)
  }

  ghost predicate IsChain(g: Graph, c: seq<Pos>)
    requires |g.succs| == |g.preds| == |g.blocks|
  {
    && c != []
    && (forall j :: 0 <= j < |c| ==> ValidPos(g, c[j]))
    && (forall j :: 0 <= j < |c| - 1 ==> Linked(g, c[j], c[j + 1]))
  }

  ghost predicate ChainBetween(g: Graph, a: nat, u: nat, c: seq<Pos>)
    requires ConsistentBlocks(g) && a < |g.nodes| && u < |g.nodes|
  {
    IsChain(g, c) && |c| >= 2 && c[0] == g.where[a] && c[|c| - 1] == g.where[u]
  }

  /** Chains from one place agree as far as both go. */
  lemma {:induction false} ChainsAgreeForward(g: Graph, c: seq<Pos>, d: seq<Pos>, j: nat)
    requires |g.succs| == |g.preds| == |g.blocks| && IsChain(g, c) && IsChain(g, d) && c[0] == d[0]
    requires j < |c| && j < |d|
    ensures c[j] == d[j]
  {
    if j > 0 {
      ChainsAgreeForward(g, c, d, j - 1);
      assert Linked(g, c[j - 1], c[j]) && Linked(g, d[j - 1], d[j]);
    }
  }

  /** A place a chain enters has one predecessor. */
  lemma UniquePredecessor(g: Graph, p: Pos, q: Pos, r: Pos)
    requires ConsistentBlocks(g) && ConsistentEdges(g) && ValidPos(g, p) && ValidPos(g, r)
    requires Linked(g, p, q) && Edge(g, r, q)
    ensures p == r && q != Pos(g.entry, 0)
  {
    if AtEnd(g, p) {
      var k :| 0 <= k < |g.succs[p.block]| && g.succs[p.block][k] == q.block;
      assert p.block in g.preds[q.block];
      var j :| 0 <= j < |g.succs[r.block]| && g.succs[r.block][j] == q.block;
      assert r.block in g.preds[q.block];
    }
  }

  /** A path from the entry that ends where a chain ends runs along the whole chain. */
  lemma {:induction false} ChainIsSuffix(g: Graph, c: seq<Pos>, path: seq<Pos>, j: nat)
    requires ConsistentBlocks(g) && ConsistentEdges(g) && IsChain(g, c) && j < |c|
    requires FromEntry(g, path, c[|c| - 1])
    ensures |path| > j && path[|path| - 1 - j] == c[|c| - 1 - j]
  {
    if j > 0 {
      ChainIsSuffix(g, c, path, j - 1);
      var n, m := |c| - j, |path| - j;
      assert Linked(g, c[n - 1], c[n]);
      if m == 0 {
        UniquePredecessor(g, c[n - 1], c[n], c[n - 1]);
      } else {
        assert Edge(g, path[m - 1], path[m]);
        UniquePredecessor(g, c[n - 1], c[n], path[m - 1]);
      }
    }
  }

  /** Of two chains to one place, the shorter is the end of the longer. */
  lemma {:induction false} ChainsAgreeBackward(g: Graph, c: seq<Pos>, d: seq<Pos>, j: nat)
    requires ConsistentBlocks(g) && ConsistentEdges(g) && IsChain(g, c) && IsChain(g, d)
    requires c[|c| - 1] == d[|d| - 1] && j < |c| && j < |d|
    ensures c[|c| - 1 - j] == d[|d| - 1 - j]
  {
    if j > 0 {
      ChainsAgreeBackward(g, c, d, j - 1);
      var n, m := |c| - j, |d| - j;
      assert Linked(g, c[n - 1], c[n]) && Linked(g, d[m - 1], d[m]);
      UniquePredecessor(g, c[n - 1], c[n], d[m - 1]);
    }
  }

  /** Beyond its first block, a chain runs through blocks with one predecessor. */
  lemma {:induction false} ChainBlocks(g: Graph, c: seq<Pos>, j: nat)
    requires |g.succs| == |g.preds| == |g.blocks| && IsChain(g, c) && j < |c|
    ensures (c[j].block == c[0].block && c[j].index >= c[0].index + (if j > 0 then 1 else 0)) || |g.preds[c[j].block]| == 1
  {
    if j > 0 {
      ChainBlocks(g, c, j - 1);
      assert Linked(g, c[j - 1], c[j]);
    }
  }

  // ----- what the emitted code does to the accumulator -----

  /** The instruction executed on the way from p on. */
  function NodeAt(g: Graph, p: Pos): nat
    requires ConsistentBlocks(g) && ValidPos(g, p) && !AtEnd(g, p)
  {
    g.blocks[p.block][p.index]
  }

  /** DoLda: the accumulator is loaded from the register of the acc-read input. */
  predicate EmitsLda(n: Node, needLda: bool) {
    n.accRead && !n.phi && !n.call && needLda
  }

  /** When a was last executed on path; the step from the last place is yet to come. */
  ghost function LastTime(g: Graph, path: seq<Pos>, a: nat): (t: int)
    requires a < |g.where|
    ensures -1 <= t < |path|
    ensures t >= 0 ==> t < |path| - 1 && path[t] == g.where[a]
    ensures forall s :: t < s < |path| - 1 ==> path[s] != g.where[a]
  {
    if |path| <= 1 then -1
    else if path[|path| - 2] == g.where[a] then |path| - 2
    else LastTime(g, path[..|path| - 1], a)
  }

  /** The accumulator at the end of path, where vals(t) is the value computed by the
      instruction executed at step t. */
  ghost function AccAfter(g: Graph, needLda: seq<bool>, vals: int -> int, path: seq<Pos>): int
    requires WellFormed(g) && |needLda| == |g.nodes| && IsPath(g, path)
    decreases |path|
  {
    if |path| == 1 then vals(-1)
    else
      var before := path[..|path| - 1];
      var p := path[|path| - 2];
      var acc := AccAfter(g, needLda, vals, before);
      if AtEnd(g, p) then acc
      else
        var a := NodeAt(g, p);
        assert ConsistentNode(g, a);
        var n := g.nodes[a];
        var loaded := if EmitsLda(n, needLda[a]) then vals(LastTime(g, before, n.inputs[n.AccReadIndex()])) else acc;
        if n.WritesAcc() then vals(|path| - 2) else loaded
  }

  predicate Inert(n: Node) { !n.WritesAcc() && !n.accRead }

  /** Nothing strictly inside the chain touches the accumulator. */
  ghost predicate Silent(g: Graph, c: seq<Pos>)
    requires ConsistentBlocks(g) && IsChain(g, c)
  {
    forall j :: 0 < j < |c| - 1 && !AtEnd(g, c[j]) ==> Inert(g.nodes[NodeAt(g, c[j])])
  }

  /** An instruction whose accumulator operand is under the theorem: no phi, call or
      commutative instruction, and the operand is no phi. */
  predicate Covered(g: Graph, u: nat)
    requires u < |g.nodes|
  {
    var n := g.nodes[u];
    && n.accRead && !n.phi && !n.call && !n.commutative
    && 0 <= n.AccReadIndex() < |n.inputs|
    && n.inputs[n.AccReadIndex()] < |g.nodes|
    && !g.nodes[n.inputs[n.AccReadIndex()]].phi
  }

  function AccInput(g: Graph, u: nat): (a: nat)
    requires u < |g.nodes| && Covered(g, u)
    ensures a < |g.nodes|
  {
    g.nodes[u].inputs[g.nodes[u].AccReadIndex()]
  }

  /** Every instruction that reads the accumulator without an lda comes at the end of a silent
      chain from the instruction whose value it wants. */
  ghost predicate Sound(g: Graph, needLda: seq<bool>)
    requires WellFormed(g) && |needLda| == |g.nodes|
  {
    forall u :: 0 <= u < |g.nodes| && Covered(g, u) && !needLda[u] ==> SilentlyLinked(g, AccInput(g, u), u)
  }

  ghost predicate SilentlyLinked(g: Graph, a: nat, u: nat)
    requires ConsistentBlocks(g) && a < |g.nodes| && u < |g.nodes|
  {
    g.nodes[a].WritesAcc() && exists c :: ChainBetween(g, a, u, c) && Silent(g, c)
  }

  lemma {:induction false} AccAlongChain(g: Graph, needLda: seq<bool>, vals: int -> int, a: nat, path: seq<Pos>, t: nat)
    requires WellFormed(g) && |needLda| == |g.nodes| && IsPath(g, path) && a < |g.nodes|
    requires t < |path| - 1 && path[t] == g.where[a] && g.nodes[a].WritesAcc()
    requires forall i :: t < i < |path| - 1 && !AtEnd(g, path[i]) ==> Inert(g.nodes[NodeAt(g, path[i])])
    ensures AccAfter(g, needLda, vals, path) == vals(t)
    ensures LastTime(g, path, a) == t
    decreases |path|
  {
    assert NodeAt(g, g.where[a]) == a;
    if t < |path| - 2 {
      AccAlongChain(g, needLda, vals, a, path[..|path| - 1], t);
    }
  }

  /** Whenever u is reached, by whatever path, and has been told that its operand is in the
      accumulator, the accumulator of the emitted code holds the value of the operand's last
      execution. */
  lemma AccumulatorHoldsInput(g: Graph, needLda: seq<bool>, vals: int -> int, u: nat, path: seq<Pos>)
    requires WellFormed(g) && |needLda| == |g.nodes| && Sound(g, needLda)
    requires u < |g.nodes| && Covered(g, u) && !needLda[u] && FromEntry(g, path, g.where[u])
    ensures LastTime(g, path, AccInput(g, u)) >= 0
    ensures AccAfter(g, needLda, vals, path) == vals(LastTime(g, path, AccInput(g, u)))
  {
    var a := AccInput(g, u);
    assert SilentlyLinked(g, a, u);
    var c :| ChainBetween(g, a, u, c) && Silent(g, c);
    var t := PathEndsSilently(g, a, u, c, path);
    AccAlongChain(g, needLda, vals, a, path, t);
  }

  /** The stretch of path from the last execution of a on is the chain. */
  lemma PathEndsSilently(g: Graph, a: nat, u: nat, c: seq<Pos>, path: seq<Pos>) returns (t: nat)
    requires WellFormed(g) && a < |g.nodes| && u < |g.nodes|
    requires ChainBetween(g, a, u, c) && Silent(g, c) && FromEntry(g, path, g.where[u])
    ensures t == |path| - |c| && path[t] == g.where[a]
    ensures forall i :: t < i < |path| - 1 && !AtEnd(g, path[i]) ==> Inert(g.nodes[NodeAt(g, path[i])])
  {
    ChainIsSuffix(g, c, path, |c| - 1);
    t := |path| - |c|;
    forall i | t < i < |path| - 1 && !AtEnd(g, path[i])
      ensures Inert(g.nodes[NodeAt(g, path[i])])
    {
      ChainIsSuffix(g, c, path, |path| - 1 - i);
      assert c[i - t] == path[i];
    }
  }
}

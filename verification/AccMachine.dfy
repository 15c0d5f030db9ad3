/** The code that is emitted after the accumulator pass, on a machine with an accumulator and a
    register for each value: DoLda and DoSta in bytecode_optimizer/codegen.cpp. */
module AccMachine {
  import opened AccGraph
  import opened AccAllocPass

  /** What the pass has decided. */
  datatype Allocation = Allocation(accDst: seq<bool>, needLda: seq<bool>)

  /** latest is what each instruction computed when it was last executed; no code reads it. */
  datatype Machine = Machine(acc: int, regs: seq<int>, latest: seq<int>)

  /** What an instruction computes from the operands it read, at some step of the run. */
  type Semantics = (nat, nat, seq<int>) -> int

  predicate Fits(g: Graph, al: Allocation, m: Machine) {
    |al.accDst| == |al.needLda| == |m.regs| == |m.latest| == |g.nodes|
  }

  /** The graph has no phis, which are moves on edges rather than instructions. */
  predicate NoPhis(g: Graph) { forall a :: 0 <= a < |g.nodes| ==> !g.nodes[a].phi }

  /** A save state reads nothing. */
  function Operands(n: Node): seq<nat> { if n.saveState then [] else n.inputs }

  // ----- execution -----

  /** The accumulator when a is executed: after its lda, if there is one. */
  function AccFor(g: Graph, al: Allocation, m: Machine, a: nat): int
    requires WellFormed(g) && Fits(g, al, m) && a < |g.nodes|
  {
    var n := g.nodes[a];
    assert ConsistentNode(g, a);
    if n.accRead && EmitsLda(n, al.needLda[a]) then m.regs[n.inputs[AccPlace(g, a)]] else m.acc
  }

  /** One operand is in the accumulator, the others are in their registers. */
  function ReadAt(g: Graph, al: Allocation, m: Machine, a: nat, k: nat): int
    requires WellFormed(g) && Fits(g, al, m) && a < |g.nodes| && k < |g.nodes[a].inputs|
  {
    var n := g.nodes[a];
    assert ConsistentNode(g, a);
    if n.accRead && k == AccPlace(g, a) then AccFor(g, al, m, a) else m.regs[n.inputs[k]]
  }

  function Reads(g: Graph, al: Allocation, m: Machine, a: nat): (res: seq<int>)
    requires WellFormed(g) && Fits(g, al, m) && a < |g.nodes|
    ensures |res| == |Operands(g.nodes[a])|
  {
    seq(|Operands(g.nodes[a])|, k requires 0 <= k < |Operands(g.nodes[a])| => ReadAt(g, al, m, a, k))
  }

  /** lda, the instruction, sta. */
  function Execute(g: Graph, al: Allocation, sem: Semantics, m: Machine, a: nat, t: nat): (m': Machine)
    requires WellFormed(g) && Fits(g, al, m) && a < |g.nodes|
    ensures Fits(g, al, m')
  {
    var v := sem(a, t, Reads(g, al, m, a));
    Machine(if g.nodes[a].constant || g.nodes[a].accWrite then v else AccFor(g, al, m, a),
            if al.accDst[a] then m.regs else m.regs[a := v],
            m.latest[a := v])
  }

  /** The machine at the end of a path. */
  ghost function Run(g: Graph, al: Allocation, sem: Semantics, start: Machine, path: seq<Pos>): (m: Machine)
    requires WellFormed(g) && Fits(g, al, start) && IsPath(g, path)
    ensures Fits(g, al, m)
    decreases |path|
  {
    if |path| == 1 then start
    else
      var m, p := Run(g, al, sem, start, path[..|path| - 1]), path[|path| - 2];
      if AtEnd(g, p) then m else Execute(g, al, sem, m, NodeAt(g, p), |path| - 2)
  }

  /** Instructions whose operands are under the theorem. */
  predicate Reader(n: Node) { PlainUser(n) && !n.call && !n.commutative }

  /** u reads, for each of its operands, the value that was computed last. */
  ghost predicate ReadsRight(g: Graph, al: Allocation, sem: Semantics, start: Machine, u: nat, path: seq<Pos>)
    requires WellFormed(g) && Fits(g, al, start) && u < |g.nodes| && IsPath(g, path)
  {
    var m, n := Run(g, al, sem, start, path), g.nodes[u];
    forall k :: 0 <= k < |n.inputs| ==> n.inputs[k] < |g.nodes| && ReadAt(g, al, m, u, k) == m.latest[n.inputs[k]]
  }

  /** So do all, whatever is computed, whatever the registers held at first, by whatever path. */
  ghost predicate RunsRight(g: Graph, al: Allocation)
    requires WellFormed(g) && |al.accDst| == |al.needLda| == |g.nodes|
  {
    forall sem, start, u, path :: 0 <= u < |g.nodes| && Reader(g.nodes[u]) && Fits(g, al, start) && FromEntry(g, path, g.where[u]) ==>
      ReadsRight(g, al, sem, start, u, path)
  }

  // ----- registers -----

  /** The register of a value that is stored holds the latest one; the others never change. */
  lemma {:induction false} Registers(g: Graph, al: Allocation, sem: Semantics, start: Machine, path: seq<Pos>, a: nat)
    requires WellFormed(g) && Fits(g, al, start) && IsPath(g, path) && a < |g.nodes|
    ensures var m := Run(g, al, sem, start, path);
            && (al.accDst[a] ==> m.regs[a] == start.regs[a])
            && (!al.accDst[a] && g.where[a] in path[..|path| - 1] ==> m.regs[a] == m.latest[a])
    decreases |path|
  {
    hide Execute, PhisFirst, ConsistentNode, ConsistentEdges;
    if |path| > 1 {
      var init := path[..|path| - 1];
      Registers(g, al, sem, start, init, a);
      var p := path[|path| - 2];
      assert init == init[..|init| - 1] + [p];
      if !AtEnd(g, p) {
        ExecuteStores(g, al, sem, Run(g, al, sem, start, init), NodeAt(g, p), |path| - 2, a);
        assert g.where[NodeAt(g, p)] == p;
      }
    }
  }

  lemma ExecuteStores(g: Graph, al: Allocation, sem: Semantics, m: Machine, b: nat, t: nat, a: nat)
    requires WellFormed(g) && Fits(g, al, m) && b < |g.nodes| && a < |g.nodes|
    ensures var m' := Execute(g, al, sem, m, b, t);
            && (al.accDst[a] || a != b ==> m'.regs[a] == m.regs[a])
            && (a != b ==> m'.latest[a] == m.latest[a])
            && (a == b && !al.accDst[a] ==> m'.regs[a] == m'.latest[a])
  {
    hide WellFormed, Reads, AccFor;
  }

  /** What is executed over and over computes the same if its semantics says so. */
  lemma {:induction false} LatestIs(g: Graph, al: Allocation, sem: Semantics, v: int, start: Machine, path: seq<Pos>, a: nat)
    requires WellFormed(g) && Fits(g, al, start) && IsPath(g, path) && a < |g.nodes| && g.where[a] in path[..|path| - 1]
    requires forall b, t, operands :: sem(b, t, operands) == v
    ensures Run(g, al, sem, start, path).latest[a] == v
    decreases |path|
  {
    hide Reads;
    var init := path[..|path| - 1];
    var p := path[|path| - 2];
    assert init == init[..|init| - 1] + [p];
    if p != g.where[a] {
      LatestIs(g, al, sem, v, start, init, a);
    } else {
      assert NodeAt(g, p) == a;
    }
  }

  // ----- the accumulator -----

  /** Along a stretch that leaves the accumulator alone it holds what was computed at its start. */
  lemma {:induction false} AccAlong(g: Graph, al: Allocation, sem: Semantics, start: Machine, a: nat, path: seq<Pos>, t: nat)
    requires WellFormed(g) && Fits(g, al, start) && IsPath(g, path) && a < |g.nodes|
    requires t < |path| - 1 && path[t] == g.where[a] && g.nodes[a].WritesAcc()
    requires forall i :: t < i < |path| - 1 && !AtEnd(g, path[i]) ==> Inert(g.nodes[NodeAt(g, path[i])])
    ensures var m := Run(g, al, sem, start, path); m.acc == m.latest[a]
    decreases |path|
  {
    hide Reads;
    assert NodeAt(g, g.where[a]) == a;
    if t < |path| - 2 {
      AccAlong(g, al, sem, start, a, path[..|path| - 1], t);
    }
  }

  /** A reader without its lda finds its operand in the accumulator. */
  lemma AccIsOperand(g: Graph, al: Allocation, sem: Semantics, start: Machine, u: nat, path: seq<Pos>)
    requires WellFormed(g) && Fits(g, al, start) && Sound(g, al.needLda)
    requires u < |g.nodes| && Covered(g, u) && !al.needLda[u] && FromEntry(g, path, g.where[u])
    ensures var m := Run(g, al, sem, start, path); m.acc == m.latest[AccInput(g, u)]
  {
    hide Run;
    var a := AccInput(g, u);
    assert SilentlyLinked(g, a, u);
    var c :| ChainBetween(g, a, u, c) && Silent(g, c);
    var t := PathEndsSilently(g, a, u, c, path);
    AccAlong(g, al, sem, start, a, path, t);
  }

  // ----- both directions -----

  /** Where nothing is lost, an operand is read right. */
  lemma OperandIsRight(g: Graph, al: Allocation, sem: Semantics, start: Machine, u: nat, path: seq<Pos>, k: nat)
    requires WellFormed(g) && Dominated(g) && NoPhis(g) && Fits(g, al, start)
    requires Sound(g, al.needLda) && NothingLost(g, al.accDst, al.needLda)
    requires u < |g.nodes| && Reader(g.nodes[u]) && FromEntry(g, path, g.where[u]) && k < |g.nodes[u].inputs|
    ensures g.nodes[u].inputs[k] < |g.nodes|
    ensures var m := Run(g, al, sem, start, path); ReadAt(g, al, m, u, k) == m.latest[g.nodes[u].inputs[k]]
  {
    hide Run, Sound, PhisFirst;
    var n := g.nodes[u];
    assert ConsistentNode(g, u);
    var x := n.inputs[k];
    assert g.where[x] in path[..|path| - 1];
    Registers(g, al, sem, start, path, x);
    assert x in n.inputs && NeedsFromAcc(g, x, u);
    assert al.accDst[x] ==> TakesFromAcc(g, al.needLda, x, u);
    if n.accRead {
      AccPlaceIs(g, u);
    }
    if n.accRead && k == n.AccReadIndex() && !al.needLda[u] {
      assert Covered(g, u);
      AccIsOperand(g, al, sem, start, u, path);
    }
  }

  /** A value that is lost is read from a register that was never stored to. */
  lemma LostIsWrong(g: Graph, al: Allocation, x: nat, u: nat)
    requires WellFormed(g) && Dominated(g) && NoPhis(g) && |al.accDst| == |al.needLda| == |g.nodes|
    requires x < |g.nodes| && u < |g.nodes| && al.accDst[x] && NeedsFromAcc(g, x, u) && !TakesFromAcc(g, al.needLda, x, u)
    ensures !RunsRight(g, al)
  {
    hide Run, PhisFirst;
    var n := g.nodes[u];
    assert ConsistentNode(g, u);
    assert Reachable(g, u);
    var path :| FromEntry(g, path, g.where[u]);
    var zeros := seq(|g.nodes|, _ => 0);
    var sem: Semantics := (b, t, operands) => 1;
    var start := Machine(0, zeros, zeros);
    var k := LostAt(g, al, x, u);
    assert g.where[x] in path[..|path| - 1];
    Registers(g, al, sem, start, path, x);
    LatestIs(g, al, sem, 1, start, path, x);
    assert !ReadsRight(g, al, sem, start, u, path);
  }

  /** The operand that is read from its register although it is not there. */
  lemma LostAt(g: Graph, al: Allocation, x: nat, u: nat) returns (k: nat)
    requires WellFormed(g) && NoPhis(g) && |al.accDst| == |al.needLda| == |g.nodes|
    requires x < |g.nodes| && u < |g.nodes| && NeedsFromAcc(g, x, u) && !TakesFromAcc(g, al.needLda, x, u)
    ensures k < |g.nodes[u].inputs| && g.nodes[u].inputs[k] == x
    ensures forall m :: Fits(g, al, m) ==> ReadAt(g, al, m, u, k) == m.regs[x]
  {
    var n := g.nodes[u];
    assert ConsistentNode(g, u);
    if n.accRead {
      AccPlaceIs(g, u);
    }
    if n.accRead && !al.needLda[u] {
      k :| 0 <= k < |n.inputs| && n.inputs[k] == x && k != n.AccReadIndex();
    } else {
      k :| 0 <= k < |n.inputs| && n.inputs[k] == x;
    }
  }

  /** All operands are read right, in every run, if and only if nothing is lost. */
  lemma RunsRightIff(g: Graph, al: Allocation)
    requires WellFormed(g) && Dominated(g) && NoPhis(g) && |al.accDst| == |al.needLda| == |g.nodes| && Sound(g, al.needLda)
    ensures RunsRight(g, al) <==> NothingLost(g, al.accDst, al.needLda)
  {
    hide Dominated, Sound, WellFormed, NeedsFromAcc, TakesFromAcc, ReadAt, Run;
    WellFormedBlocks(g);
    if NothingLost(g, al.accDst, al.needLda) {
      forall sem, start, u, path | 0 <= u < |g.nodes| && Reader(g.nodes[u]) && Fits(g, al, start) && FromEntry(g, path, g.where[u])
        ensures ReadsRight(g, al, sem, start, u, path)
      {
        forall k | 0 <= k < |g.nodes[u].inputs|
          ensures g.nodes[u].inputs[k] < |g.nodes|
          ensures ReadAt(g, al, Run(g, al, sem, start, path), u, k) == Run(g, al, sem, start, path).latest[g.nodes[u].inputs[k]]
        {
          OperandIsRight(g, al, sem, start, u, path, k);
        }
      }
    } else {
      var x, u :| 0 <= x < |g.nodes| && al.accDst[x] && 0 <= u < |g.nodes| && NeedsFromAcc(g, x, u) && !TakesFromAcc(g, al.needLda, x, u);
      LostIsWrong(g, al, x, u);
    }
  }

  // ----- what the graph means -----

  /** Every operand of every instruction is under the theorem. */
  predicate Plain(g: Graph) { forall a :: 0 <= a < |g.nodes| ==> !g.nodes[a].phi && !g.nodes[a].call && !g.nodes[a].commutative }

  function Values(g: Graph, env: seq<int>, a: nat): (res: seq<int>)
    requires WellFormed(g) && |env| == |g.nodes| && a < |g.nodes|
    ensures |res| == |Operands(g.nodes[a])|
  {
    assert ConsistentNode(g, a);
    seq(|Operands(g.nodes[a])|, k requires 0 <= k < |Operands(g.nodes[a])| => env[g.nodes[a].inputs[k]])
  }

  /** The values at the end of a path, without any accumulator or register. */
  ghost function Meaning(g: Graph, sem: Semantics, env: seq<int>, path: seq<Pos>): (res: seq<int>)
    requires WellFormed(g) && |env| == |g.nodes| && IsPath(g, path)
    ensures |res| == |g.nodes|
    decreases |path|
  {
    if |path| == 1 then env
    else
      var now, p := Meaning(g, sem, env, path[..|path| - 1]), path[|path| - 2];
      if AtEnd(g, p) then now else now[NodeAt(g, p) := sem(NodeAt(g, p), |path| - 2, Values(g, now, NodeAt(g, p)))]
  }

  /** The emitted code computes what the graph means. */
  ghost predicate Preserves(g: Graph, al: Allocation)
    requires WellFormed(g) && |al.accDst| == |al.needLda| == |g.nodes|
  {
    forall sem, start, path :: Fits(g, al, start) && IsPath(g, path) && path[0] == Pos(g.entry, 0) ==> SameValues(g, al, sem, start, path)
  }

  ghost predicate SameValues(g: Graph, al: Allocation, sem: Semantics, start: Machine, path: seq<Pos>)
    requires WellFormed(g) && Fits(g, al, start) && IsPath(g, path)
  {
    Run(g, al, sem, start, path).latest == Meaning(g, sem, start.latest, path)
  }

  lemma StepIsSame(g: Graph, al: Allocation, sem: Semantics, start: Machine, path: seq<Pos>, u: nat)
    requires WellFormed(g) && Plain(g) && RunsRightOn(g, al) && Fits(g, al, start)
    requires u < |g.nodes| && FromEntry(g, path, g.where[u])
    ensures var m := Run(g, al, sem, start, path); Reads(g, al, m, u) == Values(g, m.latest, u)
  {
    hide Run, ReadAt, PhisFirst;
    var m := Run(g, al, sem, start, path);
    if !g.nodes[u].saveState {
      assert ReadsRight(g, al, sem, start, u, path);
    }
  }

  ghost predicate RunsRightOn(g: Graph, al: Allocation) {
    WellFormed(g) && |al.accDst| == |al.needLda| == |g.nodes| && RunsRight(g, al)
  }

  lemma {:induction false} RunIsMeaning(g: Graph, al: Allocation, sem: Semantics, start: Machine, path: seq<Pos>)
    requires WellFormed(g) && Plain(g) && RunsRightOn(g, al) && Fits(g, al, start)
    requires IsPath(g, path) && path[0] == Pos(g.entry, 0)
    ensures SameValues(g, al, sem, start, path)
    decreases |path|
  {
    hide RunsRightOn, Plain, Reads, Values;
    if |path| > 1 {
      var init, p := path[..|path| - 1], path[|path| - 2];
      RunIsMeaning(g, al, sem, start, init);
      if !AtEnd(g, p) {
        StepIsSame(g, al, sem, start, init, NodeAt(g, p));
      }
    }
  }

  // ----- a lost value changes what is computed -----

  /** No instruction is its own operand. */
  lemma {:induction false} NotItself(g: Graph, u: nat, k: nat, path: seq<Pos>)
    requires WellFormed(g) && Dominated(g) && NoPhis(g) && u < |g.nodes| && k < |g.nodes[u].inputs| && FromEntry(g, path, g.where[u])
    ensures g.nodes[u].inputs[k] != u
    decreases |path|
  {
    hide PhisFirst;
    if g.nodes[u].inputs[k] == u {
      assert g.where[u] in path[..|path| - 1];
      var t :| 0 <= t < |path| - 1 && path[t] == g.where[u];
      NotItself(g, u, k, path[..t + 1]);
    }
  }

  lemma {:induction false} MeaningIs(g: Graph, sem: Semantics, env: seq<int>, v: int, path: seq<Pos>, a: nat)
    requires WellFormed(g) && |env| == |g.nodes| && IsPath(g, path) && a < |g.nodes| && g.where[a] in path[..|path| - 1]
    requires forall t, operands :: sem(a, t, operands) == v
    ensures Meaning(g, sem, env, path)[a] == v
    decreases |path|
  {
    hide Values;
    var init := path[..|path| - 1];
    var p := path[|path| - 2];
    assert init == init[..|init| - 1] + [p];
    if p != g.where[a] {
      MeaningIs(g, sem, env, v, init, a);
    } else {
      assert NodeAt(g, p) == a;
    }
  }

  /** u hands on the operand that is lost, everything else computes 1. */
  function Reveal(u: nat, k: nat): Semantics {
    (b, t, operands) => if b == u && k < |operands| then operands[k] else 1
  }

  lemma LostIsSeen(g: Graph, al: Allocation, x: nat, u: nat)
    requires WellFormed(g) && Dominated(g) && Plain(g) && |al.accDst| == |al.needLda| == |g.nodes|
    requires x < |g.nodes| && u < |g.nodes| && al.accDst[x] && NeedsFromAcc(g, x, u) && !TakesFromAcc(g, al.needLda, x, u)
    ensures !Preserves(g, al)
  {
    hide PhisFirst, Dominated, TakesFromAcc, ReadAt, Execute, Run, Meaning, ConsistentNode, Values;
    assert Reachable(g, u) by {
      Reached(g, u);
    }
    var path :| FromEntry(g, path, g.where[u]);
    var zeros := seq(|g.nodes|, _ => 0);
    var start := Machine(0, zeros, zeros);
    var k := LostAt(g, al, x, u);
    var sem := Reveal(u, k);
    var next := path + [Pos(g.where[u].block, g.where[u].index + 1)];
    LostReads(g, al, sem, start, x, u, k, path);
    LostComputes(g, al, sem, start, u, k, path);
    OneStepOn(g, al, sem, start, u, path, next);
    assert Run(g, al, sem, start, next).latest[u] == 0 != Meaning(g, sem, zeros, next)[u];
    assert !SameValues(g, al, sem, start, next);
  }

  lemma PathGoesOn(g: Graph, u: nat, path: seq<Pos>, next: seq<Pos>)
    requires WellFormed(g) && u < |g.nodes| && FromEntry(g, path, g.where[u])
    requires next == path + [Pos(g.where[u].block, g.where[u].index + 1)]
    ensures |path| > 0 && IsPath(g, next) && next[0] == Pos(g.entry, 0) && next[..|next| - 1] == path && next[|next| - 2] == g.where[u]
    ensures ValidPos(g, g.where[u]) && !AtEnd(g, g.where[u]) && NodeAt(g, g.where[u]) == u
  {
    hide PhisFirst, ConsistentNode, ConsistentEdges;
  }

  lemma OneStepOn(g: Graph, al: Allocation, sem: Semantics, start: Machine, u: nat, path: seq<Pos>, next: seq<Pos>)
    requires WellFormed(g) && Fits(g, al, start) && u < |g.nodes| && FromEntry(g, path, g.where[u])
    requires next == path + [Pos(g.where[u].block, g.where[u].index + 1)]
    ensures IsPath(g, next) && next[0] == Pos(g.entry, 0)
    ensures Run(g, al, sem, start, next) == Execute(g, al, sem, Run(g, al, sem, start, path), u, |path| - 1)
    ensures Meaning(g, sem, start.latest, next)[u] == sem(u, |path| - 1, Values(g, Meaning(g, sem, start.latest, path), u))
  {
    hide WellFormed, ConsistentBlocks, IsPath, Execute, Values, AtEnd, ValidPos, NodeAt;
    PathGoesOn(g, u, path, next);
  }

  lemma Reached(g: Graph, u: nat)
    requires WellFormed(g) && Dominated(g) && u < |g.nodes|
    ensures Reachable(g, u)
  {
  }

  /** At u the register still holds 0, and the value that is meant is 1. */
  lemma LostReads(g: Graph, al: Allocation, sem: Semantics, start: Machine, x: nat, u: nat, k: nat, path: seq<Pos>)
    requires WellFormed(g) && Dominated(g) && NoPhis(g) && Fits(g, al, start) && x < |g.nodes| && u < |g.nodes| && al.accDst[x]
    requires k < |g.nodes[u].inputs| && g.nodes[u].inputs[k] == x && sem == Reveal(u, k) && FromEntry(g, path, g.where[u])
    ensures Run(g, al, sem, start, path).regs[x] == start.regs[x]
    ensures Meaning(g, sem, start.latest, path)[x] == 1
  {
    hide PhisFirst, Run, Meaning;
    assert g.where[x] in path[..|path| - 1];
    NotItself(g, u, k, path);
    Registers(g, al, sem, start, path, x);
    MeaningIs(g, sem, start.latest, 1, path, x);
  }

  /** One more step shows it. */
  lemma LostComputes(g: Graph, al: Allocation, sem: Semantics, start: Machine, u: nat, k: nat, path: seq<Pos>)
    requires WellFormed(g) && Fits(g, al, start) && u < |g.nodes| && FromEntry(g, path, g.where[u])
    requires k < |g.nodes[u].inputs| && !g.nodes[u].saveState && sem == Reveal(u, k) && g.nodes[u].inputs[k] < |g.nodes|
    ensures Execute(g, al, sem, Run(g, al, sem, start, path), u, |path| - 1).latest[u] == ReadAt(g, al, Run(g, al, sem, start, path), u, k)
    ensures sem(u, |path| - 1, Values(g, Meaning(g, sem, start.latest, path), u)) == Meaning(g, sem, start.latest, path)[g.nodes[u].inputs[k]]
  {
    hide Run, Meaning, PhisFirst, ReadAt;
  }

  /** The emitted code computes what the graph means, in every run, if and only if nothing is lost. */
  lemma PreservesIff(g: Graph, al: Allocation)
    requires WellFormed(g) && Dominated(g) && Plain(g) && |al.accDst| == |al.needLda| == |g.nodes| && Sound(g, al.needLda)
    ensures Preserves(g, al) <==> NothingLost(g, al.accDst, al.needLda)
  {
    hide Dominated, Sound, WellFormed, NeedsFromAcc, TakesFromAcc, SameValues, RunsRight;
    WellFormedBlocks(g);
    if NothingLost(g, al.accDst, al.needLda) {
      RunsRightIff(g, al);
      forall sem, start, path | Fits(g, al, start) && IsPath(g, path) && path[0] == Pos(g.entry, 0)
        ensures SameValues(g, al, sem, start, path)
      {
        RunIsMeaning(g, al, sem, start, path);
      }
    } else {
      var x, u :| 0 <= x < |g.nodes| && al.accDst[x] && 0 <= u < |g.nodes| && NeedsFromAcc(g, x, u) && !TakesFromAcc(g, al.needLda, x, u);
      LostIsSeen(g, al, x, u);
    }
  }

  // ----- the pass -----

  /** The pass, and what the code it leads to computes: what the graph means, on every path, if and
      only if no user of a value in the accumulator is crowded. */
  method Allocate(g: Graph, marked: set<nat>, order: seq<nat>) returns (al: Allocation)
    requires WellFormed(g) && Dominated(g) && IsOrder(g, order)
    ensures |al.accDst| == |al.needLda| == |g.nodes|
    ensures NoPhis(g) ==> (RunsRight(g, al) <==> Uncrowded(g, Everything(g, order), al.accDst))
    ensures Plain(g) ==> (Preserves(g, al) <==> Uncrowded(g, Everything(g, order), al.accDst))
  {
    hide WellFormed, Dominated, Sound, NothingLost, Uncrowded, RunsRight, Preserves, ExactDst, ExactLda, IsOrder, Everything, ConsistentBlocks;
    WellFormedBlocks(g);
    var pass := new RegAccAlloc(g, marked, order);
    pass.RunImpl();
    al := Allocation(pass.accDst, pass.needLda);
    if NoPhis(g) {
      RunsRightIff(g, al);
    }
    if Plain(g) {
      PreservesIff(g, al);
    }
  }
}

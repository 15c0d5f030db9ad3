/** The accumulator allocation pass: bytecode_optimizer/reg_acc_alloc.cpp. */
module AccAllocPass {
  import opened AccGraph

  const MAX_NUM_NON_RANGE_ARGS := 4

  /** What IsAccWriteBetween accepts between two instructions, given the destinations that
      have been put in the accumulator so far. */
  predicate CalmNode(g: Graph, accDst: seq<bool>, n: Node)
    requires |accDst| == |g.nodes|
  {
    && !n.WritesAcc()
    && (n.accRead ==> 0 <= n.AccReadIndex() < |n.inputs| && n.inputs[n.AccReadIndex()] < |g.nodes|
                      && accDst[n.inputs[n.AccReadIndex()]])
  }

  ghost predicate Calm(g: Graph, accDst: seq<bool>, c: seq<Pos>)
    requires ConsistentBlocks(g) && IsChain(g, c) && |accDst| == |g.nodes|
  {
    forall j :: 0 < j < |c| - 1 && !AtEnd(g, c[j]) ==> CalmNode(g, accDst, g.nodes[NodeAt(g, c[j])])
  }

  ghost predicate Quiet(g: Graph, accDst: seq<bool>, a: nat, u: nat)
    requires ConsistentBlocks(g) && a < |g.nodes| && u < |g.nodes| && |accDst| == |g.nodes|
  {
    exists c :: ChainBetween(g, a, u, c) && Calm(g, accDst, c)
  }

  /** No instruction strictly inside the chain writes the accumulator. */
  ghost predicate NoWrites(g: Graph, c: seq<Pos>)
    requires ConsistentBlocks(g) && IsChain(g, c)
  {
    forall j :: 0 < j < |c| - 1 && !AtEnd(g, c[j]) ==> !g.nodes[NodeAt(g, c[j])].WritesAcc()
  }

  ghost predicate Undisturbed(g: Graph, a: nat, u: nat)
    requires ConsistentBlocks(g) && a < |g.nodes| && u < |g.nodes|
  {
    exists c :: ChainBetween(g, a, u, c) && NoWrites(g, c)
  }

  /** IsAccWriteBetween for an instruction that is no phi. It ends because it follows the way
      from src to dst, and it answers false exactly when that way is one chain of calm
      instructions. */
  method IsAccWriteBetween(g: Graph, accDst: seq<bool>, src: nat, dst: nat, ghost path: seq<Pos>) returns (r: bool)
    requires WellFormed(g) && |accDst| == |g.nodes| && src < |g.nodes| && dst < |g.nodes|
    requires Reaches(g, src, dst, path)
    ensures r <==> !Quiet(g, accDst, src, dst)
  {
    hide Quiet, PhisFirst, Calm;
    var pos := Pos(g.where[src].block, g.where[src].index + 1);
    ghost var c := [g.where[src], pos];
    assert Edge(g, path[0], path[1]);
    ShortIsCalm(g, accDst, c);
    while pos != g.where[dst]
      invariant IsChain(g, c) && |c| >= 2 && c[0] == g.where[src] && c[|c| - 1] == pos
      invariant |c| <= |path| && path[|c| - 1] == pos
      invariant Calm(g, accDst, c)
      invariant forall j :: 0 < j < |c| - 1 ==> c[j] != g.where[dst]
      decreases |path| - |c|
    {
      assert Edge(g, path[|c| - 1], path[|c|]);
      if AtEnd(g, pos) {
        if |g.succs[pos.block]| > 1 {
          StoppedScan(g, accDst, src, dst, c);
          return true;
        }
        assert |g.succs[pos.block]| == 1;
        var next := g.succs[pos.block][0];
        if |g.preds[next]| > 1 {
          StoppedScan(g, accDst, src, dst, c);
          return true;
        }
        assert pos.block in g.preds[next];
        pos := Pos(next, 0);
      } else {
        var n := g.nodes[g.blocks[pos.block][pos.index]];
        assert ConsistentNode(g, NodeAt(g, pos));
        if n.WritesAcc() {
          StoppedScan(g, accDst, src, dst, c);
          return true;
        }
        if n.accRead && !accDst[n.inputs[n.AccReadIndex()]] {
          StoppedScan(g, accDst, src, dst, c);
          return true;
        }
        pos := Pos(pos.block, pos.index + 1);
      }
      ScanGoesOn(g, accDst, c, pos);
      c := c + [pos];
    }
    FinishedScan(g, accDst, src, dst, c);
    r := false;
  }

  lemma ShortIsCalm(g: Graph, accDst: seq<bool>, c: seq<Pos>)
    requires ConsistentBlocks(g) && |accDst| == |g.nodes| && IsChain(g, c) && |c| == 2
    ensures Calm(g, accDst, c)
  {
  }

  /** One place further. */
  lemma ScanGoesOn(g: Graph, accDst: seq<bool>, c: seq<Pos>, next: Pos)
    requires ConsistentBlocks(g) && |accDst| == |g.nodes| && IsChain(g, c) && |c| >= 2 && Calm(g, accDst, c)
    requires ValidPos(g, next) && Linked(g, c[|c| - 1], next)
    requires !AtEnd(g, c[|c| - 1]) ==> CalmNode(g, accDst, g.nodes[NodeAt(g, c[|c| - 1])])
    ensures IsChain(g, c + [next]) && Calm(g, accDst, c + [next])
  {
  }

  lemma FinishedScan(g: Graph, accDst: seq<bool>, src: nat, dst: nat, c: seq<Pos>)
    requires ConsistentBlocks(g) && |accDst| == |g.nodes| && src < |g.nodes| && dst < |g.nodes|
    requires ChainBetween(g, src, dst, c) && Calm(g, accDst, c)
    ensures Quiet(g, accDst, src, dst)
  {
  }

  /** Where the scan cannot go on, no calm chain goes on. */
  lemma StoppedScan(g: Graph, accDst: seq<bool>, src: nat, dst: nat, c: seq<Pos>)
    requires WellFormed(g) && |accDst| == |g.nodes| && src < |g.nodes| && dst < |g.nodes|
    requires IsChain(g, c) && |c| >= 2 && c[0] == g.where[src]
    requires forall j :: 0 < j < |c| ==> c[j] != g.where[dst]
    requires var p := c[|c| - 1];
             if AtEnd(g, p) then forall q :: !Linked(g, p, q) else !CalmNode(g, accDst, g.nodes[NodeAt(g, p)])
    ensures !Quiet(g, accDst, src, dst)
  {
    forall d | ChainBetween(g, src, dst, d)
      ensures !Calm(g, accDst, d)
    {
      var k := |c| - 1;
      if |d| <= |c| {
        ChainsAgreeForward(g, c, d, |d| - 1);
      } else {
        ChainsAgreeForward(g, c, d, k);
        assert d[k] == c[k];
        assert Linked(g, d[k], d[k + 1]);
      }
    }
  }

  // ----- destinations in the accumulator -----

  /** A user whose operands RunImpl looks at. */
  predicate PlainUser(n: Node) { !n.phi && !n.saveState }

  /** a is the operand at the acc-read position. */
  predicate TakesAt(n: Node, a: nat) { 0 <= n.AccReadIndex() < |n.inputs| && n.inputs[n.AccReadIndex()] == a }

  /** Destinations in the accumulator: processed writers with an undisturbed way to each user. */
  ghost predicate GoodDestinations(g: Graph, accDst: seq<bool>, done: set<nat>)
    requires WellFormed(g) && |accDst| == |g.nodes|
  {
    forall x :: 0 <= x < |g.nodes| && accDst[x] ==> x in done && GoodDestination(g, x)
  }

  ghost predicate GoodDestination(g: Graph, x: nat)
    requires WellFormed(g) && x < |g.nodes|
  {
    && (g.nodes[x].WritesAcc() || g.nodes[x].phi)
    && forall u :: 0 <= u < |g.nodes| && x in g.nodes[u].inputs && PlainUser(g.nodes[u]) ==> Undisturbed(g, x, u)
  }

  /** Inside a calm chain from a, a reader of the accumulator can only read a: anything else in
      the accumulator would have been disturbed by a. */
  lemma ReadersInside(g: Graph, accDst: seq<bool>, done: set<nat>, a: nat, c: seq<Pos>, j: nat)
    requires WellFormed(g) && |accDst| == |g.nodes| && GoodDestinations(g, accDst, done)
    requires a < |g.nodes| && g.nodes[a].WritesAcc() && !g.nodes[a].phi
    requires IsChain(g, c) && c[0] == g.where[a] && Calm(g, accDst, c)
    requires 0 < j < |c| - 1 && !AtEnd(g, c[j])
    ensures var n := g.nodes[NodeAt(g, c[j])]; n.accRead ==> TakesAt(n, a) && accDst[a]
  {
    var i := NodeAt(g, c[j]);
    var n := g.nodes[i];
    assert CalmNode(g, accDst, n) && ConsistentNode(g, i);
    if n.accRead {
      var x := n.inputs[n.AccReadIndex()];
      assert x in n.inputs && GoodDestination(g, x);
      assert Undisturbed(g, x, i);
      var d :| ChainBetween(g, x, i, d) && NoWrites(g, d);
      hide GoodDestinations, GoodDestination, Undisturbed;
      var c' := c[..j + 1];
      assert NodeAt(g, g.where[a]) == a && NodeAt(g, g.where[x]) == x;
      if |d| > |c'| {
        ChainsAgreeBackward(g, d, c', |c'| - 1);
        assert false;
      } else {
        ChainsAgreeBackward(g, c', d, |d| - 1);
        ChainBlocks(g, c, j + 1 - |d|);
        if |d| < |c'| {
          assert false;
        }
      }
    }
  }

  lemma CalmIsSilent(g: Graph, accDst: seq<bool>, done: set<nat>, a: nat, u: nat, c: seq<Pos>)
    requires WellFormed(g) && |accDst| == |g.nodes| && GoodDestinations(g, accDst, done)
    requires a < |g.nodes| && u < |g.nodes| && !accDst[a] && g.nodes[a].WritesAcc() && !g.nodes[a].phi
    requires ChainBetween(g, a, u, c) && Calm(g, accDst, c)
    ensures Silent(g, c)
  {
    forall j | 0 < j < |c| - 1 && !AtEnd(g, c[j])
      ensures Inert(g.nodes[NodeAt(g, c[j])])
    {
      assert CalmNode(g, accDst, g.nodes[NodeAt(g, c[j])]);
      ReadersInside(g, accDst, done, a, c, j);
    }
  }

  /** A chain from a on which only a itself is read from the accumulator, and nothing written. */
  ghost predicate OnlyReadersOf(g: Graph, a: nat, c: seq<Pos>)
    requires ConsistentBlocks(g) && IsChain(g, c)
  {
    forall j :: 0 < j < |c| - 1 && !AtEnd(g, c[j]) ==>
      var n := g.nodes[NodeAt(g, c[j])]; !n.WritesAcc() && (n.accRead ==> TakesAt(n, a))
  }

  ghost predicate LinkedThrough(g: Graph, a: nat, u: nat)
    requires ConsistentBlocks(g) && a < |g.nodes| && u < |g.nodes|
  {
    exists c :: ChainBetween(g, a, u, c) && OnlyReadersOf(g, a, c)
  }

  // ----- what a scan finds, whatever has been decided so far -----

  lemma SilentIsQuiet(g: Graph, accDst: seq<bool>, a: nat, u: nat)
    requires ConsistentBlocks(g) && |accDst| == |g.nodes| && a < |g.nodes| && u < |g.nodes| && SilentlyLinked(g, a, u)
    ensures Quiet(g, accDst, a, u)
  {
    var c :| ChainBetween(g, a, u, c) && Silent(g, c);
    assert Calm(g, accDst, c);
  }

  lemma ThroughIsQuiet(g: Graph, accDst: seq<bool>, a: nat, u: nat)
    requires ConsistentBlocks(g) && |accDst| == |g.nodes| && a < |g.nodes| && u < |g.nodes| && accDst[a] && LinkedThrough(g, a, u)
    ensures Quiet(g, accDst, a, u)
  {
    var c :| ChainBetween(g, a, u, c) && OnlyReadersOf(g, a, c);
    assert Calm(g, accDst, c);
  }

  lemma QuietIsThrough(g: Graph, accDst: seq<bool>, done: set<nat>, a: nat, u: nat)
    requires WellFormed(g) && |accDst| == |g.nodes| && GoodDestinations(g, accDst, done)
    requires a < |g.nodes| && u < |g.nodes| && g.nodes[a].WritesAcc() && !g.nodes[a].phi && Quiet(g, accDst, a, u)
    ensures LinkedThrough(g, a, u)
    ensures !accDst[a] ==> SilentlyLinked(g, a, u)
  {
    var c :| ChainBetween(g, a, u, c) && Calm(g, accDst, c);
    if !accDst[a] {
      CalmIsSilent(g, accDst, done, a, u, c);
    }
    forall j | 0 < j < |c| - 1 && !AtEnd(g, c[j])
      ensures var n := g.nodes[NodeAt(g, c[j])]; !n.WritesAcc() && (n.accRead ==> TakesAt(n, a))
    {
      assert CalmNode(g, accDst, g.nodes[NodeAt(g, c[j])]);
      ReadersInside(g, accDst, done, a, c, j);
    }
  }

  lemma QuietIsUndisturbed(g: Graph, accDst: seq<bool>, a: nat, u: nat)
    requires ConsistentBlocks(g) && |accDst| == |g.nodes| && a < |g.nodes| && u < |g.nodes| && Quiet(g, accDst, a, u)
    ensures Undisturbed(g, a, u)
  {
    var c :| ChainBetween(g, a, u, c) && Calm(g, accDst, c);
    assert NoWrites(g, c);
  }

  // ----- who can read what -----

  predicate OccursOnce(inputs: seq<nat>, a: nat) {
    forall j, k :: 0 <= j < k < |inputs| ==> !(inputs[j] == a && inputs[k] == a)
  }

  /** CanUserReadAcc. */
  ghost predicate CanRead(g: Graph, marked: set<nat>, accDst: seq<bool>, a: nat, u: nat)
    requires ConsistentBlocks(g) && a < |g.nodes| && u < |g.nodes| && |accDst| == |g.nodes|
  {
    var n := g.nodes[u];
    if n.phi then u in marked
    else
      && n.accRead && Quiet(g, accDst, a, u) && OccursOnce(n.inputs, a)
      && (if n.call then |n.inputs| <= 5 else TakesAt(n, a) || n.commutative)
  }

  /** The same without the registers decided so far. */
  ghost predicate Ready(g: Graph, marked: set<nat>, a: nat, u: nat)
    requires ConsistentBlocks(g) && a < |g.nodes| && u < |g.nodes|
  {
    var n := g.nodes[u];
    if n.phi then u in marked
    else
      && n.accRead && SilentlyLinked(g, a, u) && OccursOnce(n.inputs, a)
      && (if n.call then |n.inputs| <= 5 else TakesAt(n, a) || n.commutative)
  }

  lemma CanReadIsReady(g: Graph, marked: set<nat>, accDst: seq<bool>, done: set<nat>, a: nat, u: nat)
    requires WellFormed(g) && |accDst| == |g.nodes| && GoodDestinations(g, accDst, done)
    requires a < |g.nodes| && u < |g.nodes| && !accDst[a] && g.nodes[a].WritesAcc() && !g.nodes[a].phi
    ensures CanRead(g, marked, accDst, a, u) <==> Ready(g, marked, a, u)
  {
    hide GoodDestinations, Quiet, SilentlyLinked;
    if Quiet(g, accDst, a, u) {
      QuietIsThrough(g, accDst, done, a, u);
    }
    if SilentlyLinked(g, a, u) {
      SilentIsQuiet(g, accDst, a, u);
    }
  }

  ghost predicate AllCan(g: Graph, marked: set<nat>, accDst: seq<bool>, a: nat)
    requires ConsistentBlocks(g) && a < |g.nodes| && |accDst| == |g.nodes|
  {
    forall u: nat :: u < |g.nodes| && a in g.nodes[u].inputs && !g.nodes[u].saveState ==> CanRead(g, marked, accDst, a, u)
  }

  ghost predicate AllReady(g: Graph, marked: set<nat>, a: nat)
    requires ConsistentBlocks(g) && a < |g.nodes|
  {
    forall u: nat :: u < |g.nodes| && a in g.nodes[u].inputs && !g.nodes[u].saveState ==> Ready(g, marked, a, u)
  }

  lemma Agreement(g: Graph, marked: set<nat>, accDst: seq<bool>, done: set<nat>, a: nat)
    requires WellFormed(g) && |accDst| == |g.nodes| && GoodDestinations(g, accDst, done)
    requires a < |g.nodes| && !accDst[a] && !g.nodes[a].phi && g.nodes[a].WritesAcc()
    ensures AllReady(g, marked, a) <==> AllCan(g, marked, accDst, a)
  {
    hide GoodDestinations, Quiet, SilentlyLinked, CanRead, Ready;
    forall u: nat | u < |g.nodes|
      ensures CanRead(g, marked, accDst, a, u) <==> Ready(g, marked, a, u)
    {
      CanReadIsReady(g, marked, accDst, done, a, u);
    }
  }

  // ----- how far the pass has come -----

  /** The blocks in the order they are visited, the instructions whose destination has been
      decided, and those whose operand has been checked. */
  datatype Progress = Progress(order: seq<nat>, done: set<nat>, checked: set<nat>)

  function RankOf(order: seq<nat>, b: nat): nat {
    if order == [] || order[0] == b then 0 else 1 + RankOf(order[1..], b)
  }

  lemma {:induction false} RankIs(order: seq<nat>, k: nat)
    requires k < |order| && forall i, j :: 0 <= i < j < |order| ==> order[i] != order[j]
    ensures RankOf(order, order[k]) == k
  {
    if k > 0 {
      RankIs(order[1..], k - 1);
      assert order[1..][k - 1] == order[k];
    }
  }

  /** The block of v is visited before that of a. */
  predicate BlockBefore(g: Graph, order: seq<nat>, v: nat, a: nat)
    requires v < |g.where| && a < |g.where|
  {
    RankOf(order, g.where[v].block) < RankOf(order, g.where[a].block)
  }

  /** c's destination is decided after that of a. */
  predicate Later(g: Graph, order: seq<nat>, c: nat, a: nat)
    requires c < |g.where| && a < |g.where|
  {
    BlockBefore(g, order, a, c) || (g.where[a].block == g.where[c].block && g.where[a].index < g.where[c].index)
  }

  /** v is an instruction whose operand c at the acc-read position is looked at in the second half;
      a save state is one too. */
  predicate Checks(g: Graph, v: nat, c: nat)
    requires v < |g.nodes|
  {
    !g.nodes[v].phi && !g.nodes[v].call && TakesAt(g.nodes[v], c)
  }

  // ----- what the pass decides -----

  /** The destination of a is put in the accumulator. */
  ghost predicate Stays(g: Graph, marked: set<nat>, a: nat)
    requires ConsistentBlocks(g) && a < |g.nodes|
  {
    !g.nodes[a].noDest && g.nodes[a].WritesAcc() && AllReady(g, marked, a)
  }

  /** And it is not taken out again: nobody that is checked later finds it disturbed. */
  ghost predicate Remains(g: Graph, marked: set<nat>, pr: Progress, a: nat)
    requires ConsistentBlocks(g) && a < |g.nodes|
  {
    && a in pr.done && Stays(g, marked, a)
    && forall v: nat :: v in pr.checked && v < |g.nodes| && Checks(g, v, a) && !BlockBefore(g, pr.order, v, a) ==> LinkedThrough(g, a, v)
  }

  /** The constant c makes its users load again after the value x was offered to them: because its
      own destination is decided later, or because it is found disturbed later. */
  ghost predicate Overrides(g: Graph, pr: Progress, c: nat, x: nat)
    requires ConsistentBlocks(g) && c < |g.nodes| && x < |g.nodes|
  {
    || (c in pr.done && !g.nodes[c].noDest && Later(g, pr.order, c, x))
    || (exists v: nat :: v in pr.checked && v < |g.nodes| && Checks(g, v, c) && !BlockBefore(g, pr.order, v, x) && !SilentlyLinked(g, c, v))
  }

  /** Another operand of u is such a constant. */
  ghost predicate Crowded(g: Graph, pr: Progress, x: nat, u: nat)
    requires ConsistentBlocks(g) && x < |g.nodes| && u < |g.nodes|
  {
    exists c: nat :: c in g.nodes[u].inputs && c < |g.nodes| && c != x && g.nodes[c].constant && Overrides(g, pr, c, x)
  }

  /** The lda of u is left out. */
  ghost predicate Leaves(g: Graph, marked: set<nat>, pr: Progress, a: nat, u: nat)
    requires ConsistentBlocks(g) && a < |g.nodes| && u < |g.nodes|
  {
    && a in pr.done && !g.nodes[a].noDest && g.nodes[a].WritesAcc() && Ready(g, marked, a, u)
    && (g.nodes[a].constant ==> Remains(g, marked, pr, a))
    && !Crowded(g, pr, a, u)
  }

  /** Exactly the destinations that remain are in the accumulator. */
  ghost predicate ExactDst(g: Graph, marked: set<nat>, pr: Progress, accDst: seq<bool>)
    requires ConsistentBlocks(g) && |accDst| == |g.nodes|
  {
    forall a :: 0 <= a < |g.nodes| && !g.nodes[a].phi ==> (accDst[a] <==> Remains(g, marked, pr, a))
  }

  /** Exactly these ldas are missing. */
  ghost predicate ExactLda(g: Graph, marked: set<nat>, pr: Progress, needLda: seq<bool>)
    requires ConsistentBlocks(g) && |needLda| == |g.nodes|
  {
    forall u :: 0 <= u < |g.nodes| && Covered(g, u) ==> (!needLda[u] <==> Leaves(g, marked, pr, AccInput(g, u), u))
  }

  /** An instruction that has to take x from the accumulator, if x is there. */
  predicate NeedsFromAcc(g: Graph, x: nat, u: nat)
    requires u < |g.nodes|
  {
    x in g.nodes[u].inputs && PlainUser(g.nodes[u]) && !g.nodes[u].call && !g.nodes[u].commutative
  }

  /** u reads x at the acc-read position and nowhere else; its lda is back just when it is crowded. */
  ghost predicate HeldFor(g: Graph, pr: Progress, needLda: seq<bool>, x: nat, u: nat)
    requires ConsistentBlocks(g) && |needLda| == |g.nodes| && x < |g.nodes| && u < |g.nodes|
  {
    && g.nodes[u].accRead && TakesAt(g.nodes[u], x) && OccursOnce(g.nodes[u].inputs, x)
    && (needLda[u] <==> Crowded(g, pr, x, u))
  }

  ghost predicate Held(g: Graph, pr: Progress, accDst: seq<bool>, needLda: seq<bool>)
    requires ConsistentBlocks(g) && |accDst| == |needLda| == |g.nodes|
  {
    forall x, u :: 0 <= x < |g.nodes| && accDst[x] && 0 <= u < |g.nodes| && NeedsFromAcc(g, x, u) ==> HeldFor(g, pr, needLda, x, u)
  }

  ghost predicate Exact(g: Graph, marked: set<nat>, pr: Progress, accDst: seq<bool>, needLda: seq<bool>) {
    && WellFormed(g) && |accDst| == |needLda| == |g.nodes|
    && Sound(g, needLda) && GoodDestinations(g, accDst, pr.done)
    && ExactDst(g, marked, pr, accDst) && ExactLda(g, marked, pr, needLda) && Held(g, pr, accDst, needLda)
  }

  // ----- deciding a destination: what changes -----

  /** It is a's turn: everything decided so far comes before it. */
  ghost predicate Turn(g: Graph, pr: Progress, a: nat)
    requires |g.where| == |g.nodes| && a < |g.nodes|
  {
    && a !in pr.done
    && (forall c: nat :: c in pr.done && c < |g.nodes| ==> Later(g, pr.order, a, c) && !Later(g, pr.order, c, a))
    && (forall v: nat :: v in pr.checked && v < |g.nodes| ==> BlockBefore(g, pr.order, v, a))
  }

  function Decided(pr: Progress, a: nat): Progress { pr.(done := pr.done + {a}) }

  lemma RemainsStep(g: Graph, marked: set<nat>, pr: Progress, a: nat, x: nat)
    requires ConsistentBlocks(g) && a < |g.nodes| && x < |g.nodes| && Turn(g, pr, a)
    ensures Remains(g, marked, Decided(pr, a), x) <==> if x == a then Stays(g, marked, a) else Remains(g, marked, pr, x)
  {
    hide Stays, LinkedThrough, Checks;
  }

  /** A constant makes the loads of its users come back when it is decided. */
  predicate Reloads(g: Graph, a: nat, u: nat)
    requires a < |g.nodes| && u < |g.nodes|
  {
    a in g.nodes[u].inputs && g.nodes[a].constant && !g.nodes[a].noDest
  }

  lemma CrowdedStep(g: Graph, pr: Progress, a: nat, x: nat, u: nat)
    requires ConsistentBlocks(g) && a < |g.nodes| && x < |g.nodes| && u < |g.nodes| && Turn(g, pr, a) && x in pr.done
    ensures Crowded(g, Decided(pr, a), x, u) <==> Crowded(g, pr, x, u) || Reloads(g, a, u)
  {
    hide SilentlyLinked, Checks, Later, BlockBefore;
    if Reloads(g, a, u) {
      assert Overrides(g, Decided(pr, a), a, x);
    }
    forall c: nat | c < |g.nodes| && c != a
      ensures Overrides(g, Decided(pr, a), c, x) <==> Overrides(g, pr, c, x)
    {
    }
    forall c: nat | c < |g.nodes| && Overrides(g, pr, c, x)
      ensures Overrides(g, Decided(pr, a), c, x)
    {
    }
    hide Overrides;
    if Crowded(g, Decided(pr, a), x, u) && !Crowded(g, pr, x, u) {
      var c: nat :| c in g.nodes[u].inputs && c < |g.nodes| && c != x && g.nodes[c].constant && Overrides(g, Decided(pr, a), c, x);
      DecidedOverrides(g, pr, a, x, c);
    }
  }

  lemma DecidedOverrides(g: Graph, pr: Progress, a: nat, x: nat, c: nat)
    requires ConsistentBlocks(g) && a < |g.nodes| && x < |g.nodes| && c < |g.nodes|
    requires Overrides(g, Decided(pr, a), c, x) && !Overrides(g, pr, c, x)
    ensures c == a && !g.nodes[a].noDest
  {
    hide SilentlyLinked, Checks, Later, BlockBefore;
  }

  /** Nothing has come after a yet. */
  lemma NotCrowdedYet(g: Graph, pr: Progress, a: nat, u: nat)
    requires ConsistentBlocks(g) && a < |g.nodes| && u < |g.nodes| && Turn(g, pr, a)
    ensures !Crowded(g, Decided(pr, a), a, u)
  {
    hide SilentlyLinked, Checks, Later, BlockBefore;
  }

  // ----- the loads after a destination has been decided -----

  /** An instruction whose lda can be left out or brought back for a's sake. */
  predicate CanDrop(g: Graph, a: nat, u: nat)
    requires u < |g.nodes|
  {
    var n := g.nodes[u]; a in n.inputs && n.accRead && !n.phi && !n.call && !n.saveState
  }

  /** The lda is left out by every user up to now that can read a. */
  ghost predicate Offered(g: Graph, marked: set<nat>, accDst: seq<bool>, before: seq<bool>, a: nat, told: seq<nat>, after: seq<bool>)
    requires ConsistentBlocks(g) && |accDst| == |before| == |g.nodes| && a < |g.nodes|
  {
    && |after| == |before|
    && forall u :: 0 <= u < |g.nodes| ==>
         after[u] == (before[u] && !(u in told && CanDrop(g, a, u) && CanRead(g, marked, accDst, a, u)))
  }

  /** The lda is brought back by every user. */
  ghost predicate Loaded(g: Graph, before: seq<bool>, a: nat, after: seq<bool>)
    requires |before| == |g.nodes|
  {
    |after| == |before| && forall u :: 0 <= u < |g.nodes| ==> after[u] == (before[u] || CanDrop(g, a, u))
  }

  /** a is looked at in the first half of the loop. */
  predicate Active(g: Graph, marked: set<nat>, a: nat)
    requires a < |g.nodes|
  {
    !g.nodes[a].noDest && if g.nodes[a].phi then a in marked else g.nodes[a].WritesAcc()
  }

  /** What deciding a's destination does to the loads. */
  ghost predicate LoadsDecided(g: Graph, marked: set<nat>, accDst: seq<bool>, before: seq<bool>, a: nat, after: seq<bool>)
    requires ConsistentBlocks(g) && |accDst| == |before| == |g.nodes| && a < |g.nodes|
  {
    && |after| == |before|
    && forall u :: 0 <= u < |g.nodes| ==> after[u] == LoadDecided(g, marked, accDst, before[u], a, u)
  }

  ghost predicate LoadDecided(g: Graph, marked: set<nat>, accDst: seq<bool>, before: bool, a: nat, u: nat)
    requires ConsistentBlocks(g) && |accDst| == |g.nodes| && a < |g.nodes| && u < |g.nodes|
  {
    if !Active(g, marked, a) || !CanDrop(g, a, u) then before
    else if g.nodes[a].constant && !AllCan(g, marked, accDst, a) then true
    else before && !CanRead(g, marked, accDst, a, u)
  }

  lemma UserNotReady(g: Graph, marked: set<nat>, accDst: seq<bool>, a: nat, u: nat)
    requires WellFormed(g) && |accDst| == |g.nodes| && a < |g.nodes| && u < |g.nodes|
    requires a in g.nodes[u].inputs && PlainUser(g.nodes[u]) && !g.nodes[u].call && !g.nodes[u].commutative && !TakesAt(g.nodes[u], a)
    ensures !CanRead(g, marked, accDst, a, u) && !AllCan(g, marked, accDst, a)
  {
    hide WellFormed, Quiet;
  }

  /** A user that takes another value from the accumulator: only a constant makes a difference. */
  lemma LoadOfOther(g: Graph, marked: set<nat>, accDst: seq<bool>, before: bool, a: nat, x: nat, u: nat)
    requires WellFormed(g) && |accDst| == |g.nodes| && a < |g.nodes| && u < |g.nodes| && a != x
    requires NeedsFromAcc(g, x, u) && g.nodes[u].accRead && TakesAt(g.nodes[u], x)
    ensures LoadDecided(g, marked, accDst, before, a, u) == (before || Reloads(g, a, u))
  {
    hide WellFormed, CanRead, AllCan;
    if a in g.nodes[u].inputs {
      UserNotReady(g, marked, accDst, a, u);
    }
    NoSpecialConstants(g, a);
  }

  lemma NoSpecialConstants(g: Graph, a: nat)
    requires WellFormed(g) && a < |g.nodes|
    ensures g.nodes[a].constant ==> !g.nodes[a].phi && !g.nodes[a].saveState && g.nodes[a].WritesAcc()
  {
    assert ConsistentNode(g, a);
  }

  lemma NotSaved(g: Graph, u: nat)
    requires WellFormed(g) && u < |g.nodes|
    ensures g.nodes[u].accRead ==> !g.nodes[u].saveState && !g.nodes[u].phi
  {
    assert ConsistentNode(g, u);
  }

  lemma CoveredNeeds(g: Graph, u: nat)
    requires WellFormed(g) && u < |g.nodes| && Covered(g, u)
    ensures NeedsFromAcc(g, AccInput(g, u), u) && TakesAt(g.nodes[u], AccInput(g, u)) && CanDrop(g, AccInput(g, u), u)
  {
    NotSaved(g, u);
    var n := g.nodes[u];
    assert n.inputs[n.AccReadIndex()] in n.inputs;
  }

  // ----- deciding a destination keeps everything exact -----

  /** The destination that a gets. */
  ghost predicate DstDecided(g: Graph, marked: set<nat>, accDst: seq<bool>, a: nat, after: seq<bool>)
    requires ConsistentBlocks(g) && |accDst| == |g.nodes| && a < |g.nodes|
  {
    after == if Active(g, marked, a) && AllCan(g, marked, accDst, a) then accDst[a := true] else accDst
  }

  /** The situation in which a is decided. */
  ghost predicate AtTurn(g: Graph, marked: set<nat>, pr: Progress, accDst: seq<bool>, needLda: seq<bool>, a: nat) {
    a < |g.nodes| && Exact(g, marked, pr, accDst, needLda) && Turn(g, pr, a)
  }

  lemma TurnFacts(g: Graph, marked: set<nat>, pr: Progress, accDst: seq<bool>, needLda: seq<bool>, a: nat)
    requires AtTurn(g, marked, pr, accDst, needLda, a)
    ensures WellFormed(g) && ConsistentBlocks(g) && |accDst| == |needLda| == |g.nodes| && a < |g.nodes| && !accDst[a] && a !in pr.done
    ensures !g.nodes[a].phi && g.nodes[a].WritesAcc() ==> (AllReady(g, marked, a) <==> AllCan(g, marked, accDst, a))
  {
    hide Sound, ExactDst, ExactLda, Held, AllReady, AllCan;
    if !g.nodes[a].phi && g.nodes[a].WritesAcc() {
      Agreement(g, marked, accDst, pr.done, a);
    }
  }

  lemma DstStaysExact(g: Graph, marked: set<nat>, pr: Progress, accDst: seq<bool>, needLda: seq<bool>, a: nat, accDst': seq<bool>)
    requires AtTurn(g, marked, pr, accDst, needLda, a) && ConsistentBlocks(g) && |accDst| == |g.nodes| && DstDecided(g, marked, accDst, a, accDst')
    ensures |accDst'| == |g.nodes| && ExactDst(g, marked, Decided(pr, a), accDst')
  {
    hide WellFormed, Sound, GoodDestinations, ExactLda, Held, Remains, AllReady, AllCan, Turn;
    TurnFacts(g, marked, pr, accDst, needLda, a);
    forall x | 0 <= x < |g.nodes| && !g.nodes[x].phi
      ensures accDst'[x] <==> Remains(g, marked, Decided(pr, a), x)
    {
      RemainsStep(g, marked, pr, a, x);
    }
  }

  lemma LdaStaysExact(g: Graph, marked: set<nat>, pr: Progress, accDst: seq<bool>, needLda: seq<bool>, a: nat, needLda': seq<bool>, u: nat)
    requires AtTurn(g, marked, pr, accDst, needLda, a) && ConsistentBlocks(g) && |accDst| == |needLda| == |g.nodes|
    requires LoadsDecided(g, marked, accDst, needLda, a, needLda') && u < |g.nodes| && Covered(g, u)
    ensures !needLda'[u] <==> Leaves(g, marked, Decided(pr, a), AccInput(g, u), u)
  {
    hide WellFormed, Sound, GoodDestinations, ExactDst, Held, Remains, AllReady, AllCan, Turn, CanRead, Ready, Crowded, LoadDecided;
    TurnFacts(g, marked, pr, accDst, needLda, a);
    var x := AccInput(g, u);
    CoveredNeeds(g, u);
    assert !needLda[u] <==> Leaves(g, marked, pr, x, u);
    assert needLda'[u] == LoadDecided(g, marked, accDst, needLda[u], a, u);
    RemainsStep(g, marked, pr, a, x);
    if x == a {
      NotCrowdedYet(g, pr, a, u);
      OwnLoad(g, marked, pr, accDst, needLda, a, u);
    } else {
      LoadOfOther(g, marked, accDst, needLda[u], a, x, u);
      if x in pr.done {
        CrowdedStep(g, pr, a, x, u);
      }
    }
  }

  /** The load of a user of a itself. */
  lemma OwnLoad(g: Graph, marked: set<nat>, pr: Progress, accDst: seq<bool>, needLda: seq<bool>, a: nat, u: nat)
    requires AtTurn(g, marked, pr, accDst, needLda, a) && ConsistentBlocks(g) && |accDst| == |g.nodes|
    requires u < |g.nodes| && Covered(g, u) && AccInput(g, u) == a
    ensures !LoadDecided(g, marked, accDst, true, a, u) <==>
              !g.nodes[a].noDest && g.nodes[a].WritesAcc() && Ready(g, marked, a, u) && (g.nodes[a].constant ==> Stays(g, marked, a))
  {
    hide Sound, ExactDst, ExactLda, Held, AllReady, AllCan, Turn, CanRead, Ready;
    TurnFacts(g, marked, pr, accDst, needLda, a);
    CoveredNeeds(g, u);
    if g.nodes[a].WritesAcc() {
      CanReadIsReady(g, marked, accDst, pr.done, a, u);
    }
  }

  lemma HeldStays(g: Graph, marked: set<nat>, pr: Progress, accDst: seq<bool>, needLda: seq<bool>, a: nat, needLda': seq<bool>, x: nat, u: nat)
    requires AtTurn(g, marked, pr, accDst, needLda, a) && ConsistentBlocks(g) && |accDst| == |needLda| == |g.nodes|
    requires LoadsDecided(g, marked, accDst, needLda, a, needLda') && x < |g.nodes| && u < |g.nodes| && NeedsFromAcc(g, x, u)
    requires accDst[x]
    ensures HeldFor(g, Decided(pr, a), needLda', x, u)
  {
    hide WellFormed, Sound, ExactDst, ExactLda, AllCan, Turn, CanRead, Crowded, LoadDecided, NeedsFromAcc, GoodDestination;
    TurnFacts(g, marked, pr, accDst, needLda, a);
    assert HeldFor(g, pr, needLda, x, u) && x in pr.done;
    LoadOfOther(g, marked, accDst, needLda[u], a, x, u);
    CrowdedStep(g, pr, a, x, u);
  }

  lemma HeldFromNow(g: Graph, marked: set<nat>, pr: Progress, accDst: seq<bool>, needLda: seq<bool>, a: nat, needLda': seq<bool>, u: nat)
    requires AtTurn(g, marked, pr, accDst, needLda, a) && ConsistentBlocks(g) && |accDst| == |needLda| == |g.nodes|
    requires LoadsDecided(g, marked, accDst, needLda, a, needLda') && u < |g.nodes| && NeedsFromAcc(g, a, u)
    requires Active(g, marked, a) && AllCan(g, marked, accDst, a)
    ensures HeldFor(g, Decided(pr, a), needLda', a, u)
  {
    hide WellFormed, Sound, ExactDst, ExactLda, Held, GoodDestinations, Turn, Crowded;
    TurnFacts(g, marked, pr, accDst, needLda, a);
    assert CanRead(g, marked, accDst, a, u);
    NotCrowdedYet(g, pr, a, u);
  }

  lemma SoundStays(g: Graph, marked: set<nat>, pr: Progress, accDst: seq<bool>, needLda: seq<bool>, a: nat, needLda': seq<bool>)
    requires AtTurn(g, marked, pr, accDst, needLda, a) && ConsistentBlocks(g) && |accDst| == |needLda| == |g.nodes|
    requires LoadsDecided(g, marked, accDst, needLda, a, needLda')
    ensures WellFormed(g) && |needLda'| == |g.nodes| && Sound(g, needLda')
  {
    hide WellFormed, ExactDst, Held, GoodDestinations, Turn, Crowded, LoadDecided, Remains, SilentlyLinked, LoadsDecided, AtTurn, ConsistentBlocks;
    TurnFacts(g, marked, pr, accDst, needLda, a);
    LoadsSize(g, marked, accDst, needLda, a, needLda');
    forall u | 0 <= u < |g.nodes| && Covered(g, u) && !needLda'[u]
      ensures SilentlyLinked(g, AccInput(g, u), u)
    {
      LdaStaysExact(g, marked, pr, accDst, needLda, a, needLda', u);
    }
  }

  lemma LoadsSize(g: Graph, marked: set<nat>, accDst: seq<bool>, before: seq<bool>, a: nat, after: seq<bool>)
    requires ConsistentBlocks(g) && |accDst| == |before| == |g.nodes| && a < |g.nodes| && LoadsDecided(g, marked, accDst, before, a, after)
    ensures |after| == |g.nodes|
  {
  }

  lemma DestinationsStayGood(g: Graph, marked: set<nat>, pr: Progress, accDst: seq<bool>, needLda: seq<bool>, a: nat, accDst': seq<bool>)
    requires AtTurn(g, marked, pr, accDst, needLda, a) && ConsistentBlocks(g) && |accDst| == |g.nodes| && DstDecided(g, marked, accDst, a, accDst')
    ensures WellFormed(g) && |accDst'| == |g.nodes| && GoodDestinations(g, accDst', Decided(pr, a).done)
  {
    hide WellFormed, Sound, ExactDst, ExactLda, Held, Turn, CanRead, GoodDestination, Undisturbed;
    TurnFacts(g, marked, pr, accDst, needLda, a);
    if Active(g, marked, a) && AllCan(g, marked, accDst, a) {
      AllCanIsGood(g, marked, accDst, a);
    }
  }

  lemma AllCanIsGood(g: Graph, marked: set<nat>, accDst: seq<bool>, a: nat)
    requires WellFormed(g) && |accDst| == |g.nodes| && a < |g.nodes| && Active(g, marked, a) && AllCan(g, marked, accDst, a)
    ensures GoodDestination(g, a)
  {
    hide WellFormed, Quiet, Undisturbed;
    WellFormedBlocks(g);
    forall u | 0 <= u < |g.nodes| && a in g.nodes[u].inputs && PlainUser(g.nodes[u])
      ensures Undisturbed(g, a, u)
    {
      assert CanRead(g, marked, accDst, a, u);
      QuietIsUndisturbed(g, accDst, a, u);
    }
  }

  lemma WellFormedBlocks(g: Graph)
    requires WellFormed(g)
    ensures ConsistentBlocks(g)
  {
  }

  /** Deciding a destination keeps everything exact. */
  lemma DecidedIsExact(g: Graph, marked: set<nat>, pr: Progress, accDst: seq<bool>, needLda: seq<bool>, a: nat, accDst': seq<bool>, needLda': seq<bool>)
    requires AtTurn(g, marked, pr, accDst, needLda, a) && ConsistentBlocks(g) && |accDst| == |needLda| == |g.nodes|
    requires LoadsDecided(g, marked, accDst, needLda, a, needLda') && DstDecided(g, marked, accDst, a, accDst')
    ensures Exact(g, marked, Decided(pr, a), accDst', needLda')
  {
    hide WellFormed, ConsistentBlocks, Sound, ExactDst, GoodDestinations, AllCan, Leaves, HeldFor, NeedsFromAcc, LoadsDecided, Turn, AtTurn;
    TurnFacts(g, marked, pr, accDst, needLda, a);
    DstStaysExact(g, marked, pr, accDst, needLda, a, accDst');
    DestinationsStayGood(g, marked, pr, accDst, needLda, a, accDst');
    SoundStays(g, marked, pr, accDst, needLda, a, needLda');
    forall u | 0 <= u < |g.nodes| && Covered(g, u)
      ensures !needLda'[u] <==> Leaves(g, marked, Decided(pr, a), AccInput(g, u), u)
    {
      LdaStaysExact(g, marked, pr, accDst, needLda, a, needLda', u);
    }
    forall x, u | 0 <= x < |g.nodes| && accDst'[x] && 0 <= u < |g.nodes| && NeedsFromAcc(g, x, u)
      ensures HeldFor(g, Decided(pr, a), needLda', x, u)
    {
      if x == a {
        HeldFromNow(g, marked, pr, accDst, needLda, a, needLda', u);
      } else {
        HeldStays(g, marked, pr, accDst, needLda, a, needLda', x, u);
      }
    }
  }

  // ----- checking an operand -----

  /** v is checked after everything that has been decided, or in the same block. */
  ghost predicate CheckTurn(g: Graph, pr: Progress, v: nat)
    requires |g.where| == |g.nodes| && v < |g.nodes|
  {
    forall a: nat :: a in pr.done && a < |g.nodes| ==> !BlockBefore(g, pr.order, v, a)
  }

  function Checked(pr: Progress, v: nat): Progress { pr.(checked := pr.checked + {v}) }

  /** The operand c of v is found disturbed. */
  ghost predicate Disturbed(g: Graph, accDst: seq<bool>, c: nat, v: nat)
    requires ConsistentBlocks(g) && |accDst| == |g.nodes| && v < |g.nodes|
  {
    c < |g.nodes| && Checks(g, v, c) && !Quiet(g, accDst, c, v)
  }

  /** What checking v, whose operand is c, does. */
  ghost predicate LoadsChecked(g: Graph, accDst: seq<bool>, before: seq<bool>, c: nat, v: nat, after: seq<bool>)
    requires ConsistentBlocks(g) && |accDst| == |before| == |g.nodes| && c < |g.nodes| && v < |g.nodes|
  {
    && |after| == |before|
    && forall u :: 0 <= u < |g.nodes| ==>
         after[u] == (before[u] || (Disturbed(g, accDst, c, v) && ((u == v && CanDrop(g, c, u)) || (g.nodes[c].constant && CanDrop(g, c, u)))))
  }

  ghost predicate AtCheck(g: Graph, marked: set<nat>, pr: Progress, accDst: seq<bool>, needLda: seq<bool>, c: nat, v: nat) {
    && v < |g.nodes| && c < |g.nodes| && Exact(g, marked, pr, accDst, needLda) && CheckTurn(g, pr, v) && Checks(g, v, c)
  }

  lemma CheckFacts(g: Graph, marked: set<nat>, pr: Progress, accDst: seq<bool>, needLda: seq<bool>, c: nat, v: nat)
    requires AtCheck(g, marked, pr, accDst, needLda, c, v)
    ensures WellFormed(g) && ConsistentBlocks(g) && |accDst| == |needLda| == |g.nodes| && c < |g.nodes| && v < |g.nodes|
    ensures Quiet(g, accDst, c, v) <== SilentlyLinked(g, c, v)
    ensures accDst[c] && !g.nodes[c].phi ==> g.nodes[c].WritesAcc() && (Quiet(g, accDst, c, v) <==> LinkedThrough(g, c, v))
    ensures !accDst[c] && !g.nodes[c].phi && g.nodes[c].WritesAcc() ==> (Quiet(g, accDst, c, v) <==> SilentlyLinked(g, c, v))
  {
    hide Sound, ExactDst, ExactLda, Held, Quiet, SilentlyLinked, LinkedThrough, CheckTurn;
    if SilentlyLinked(g, c, v) {
      SilentIsQuiet(g, accDst, c, v);
    }
    if accDst[c] {
      assert GoodDestination(g, c);
      if LinkedThrough(g, c, v) {
        ThroughIsQuiet(g, accDst, c, v);
      }
    }
    if !g.nodes[c].phi && g.nodes[c].WritesAcc() && Quiet(g, accDst, c, v) {
      QuietIsThrough(g, accDst, pr.done, c, v);
    }
  }

  lemma RemainsChecked(g: Graph, marked: set<nat>, pr: Progress, c: nat, v: nat, x: nat)
    requires ConsistentBlocks(g) && c < |g.nodes| && v < |g.nodes| && x < |g.nodes| && CheckTurn(g, pr, v) && Checks(g, v, c)
    ensures Remains(g, marked, Checked(pr, v), x) <==> Remains(g, marked, pr, x) && (x == c ==> LinkedThrough(g, c, v))
  {
    hide Stays, LinkedThrough, BlockBefore;
  }

  /** The check of v crowds a user of x if v's operand is a constant among its operands. */
  ghost predicate CrowdsNow(g: Graph, c: nat, v: nat, x: nat, u: nat)
    requires ConsistentBlocks(g) && c < |g.nodes| && v < |g.nodes| && u < |g.nodes|
  {
    c in g.nodes[u].inputs && c != x && g.nodes[c].constant && !SilentlyLinked(g, c, v)
  }

  lemma CrowdedChecked(g: Graph, pr: Progress, c: nat, v: nat, x: nat, u: nat)
    requires ConsistentBlocks(g) && c < |g.nodes| && v < |g.nodes| && x < |g.nodes| && u < |g.nodes|
    requires CheckTurn(g, pr, v) && Checks(g, v, c) && x in pr.done
    ensures Crowded(g, Checked(pr, v), x, u) <==> Crowded(g, pr, x, u) || CrowdsNow(g, c, v, x, u)
  {
    hide SilentlyLinked, Later, BlockBefore;
    forall d: nat | d < |g.nodes|
      ensures Overrides(g, Checked(pr, v), d, x) <==> Overrides(g, pr, d, x) || (d == c && !SilentlyLinked(g, c, v))
    {
      OverridesChecked(g, pr, c, v, x, d);
    }
    hide Overrides;
  }

  lemma OverridesChecked(g: Graph, pr: Progress, c: nat, v: nat, x: nat, d: nat)
    requires ConsistentBlocks(g) && c < |g.nodes| && v < |g.nodes| && x < |g.nodes| && d < |g.nodes|
    requires CheckTurn(g, pr, v) && Checks(g, v, c) && x in pr.done
    ensures Overrides(g, Checked(pr, v), d, x) <==> Overrides(g, pr, d, x) || (d == c && !SilentlyLinked(g, c, v))
  {
    hide SilentlyLinked, Later, BlockBefore;
    if d == c && !SilentlyLinked(g, c, v) {
      assert v in Checked(pr, v).checked;
    }
  }

  lemma DstStaysExactChecked(g: Graph, marked: set<nat>, pr: Progress, accDst: seq<bool>, needLda: seq<bool>, c: nat, v: nat, accDst': seq<bool>)
    requires AtCheck(g, marked, pr, accDst, needLda, c, v) && ConsistentBlocks(g) && |accDst| == |g.nodes|
    requires accDst' == if Disturbed(g, accDst, c, v) then accDst[c := false] else accDst
    ensures |accDst'| == |g.nodes| && ExactDst(g, marked, Checked(pr, v), accDst')
  {
    hide WellFormed, Sound, GoodDestinations, ExactLda, Held, Remains, CheckTurn, Quiet, LinkedThrough, SilentlyLinked;
    CheckFacts(g, marked, pr, accDst, needLda, c, v);
    forall x | 0 <= x < |g.nodes| && !g.nodes[x].phi
      ensures accDst'[x] <==> Remains(g, marked, Checked(pr, v), x)
    {
      RemainsChecked(g, marked, pr, c, v, x);
    }
  }

  /** A constant that is another operand of u does not live in the accumulator. */
  lemma OtherConstantElsewhere(g: Graph, marked: set<nat>, pr: Progress, accDst: seq<bool>, needLda: seq<bool>, c: nat, x: nat, u: nat)
    requires Exact(g, marked, pr, accDst, needLda) && c < |g.nodes| && u < |g.nodes| && c != x
    requires c in g.nodes[u].inputs && NeedsFromAcc(g, x, u) && TakesAt(g.nodes[u], x)
    ensures |accDst| == |g.nodes| && !accDst[c]
  {
    hide WellFormed, Sound, GoodDestinations, ExactLda, ExactDst, Crowded;
    WellFormedBlocks(g);
    assert accDst[c] ==> HeldFor(g, pr, needLda, c, u);
  }

  lemma LdaStaysExactChecked(g: Graph, marked: set<nat>, pr: Progress, accDst: seq<bool>, needLda: seq<bool>, c: nat, v: nat, needLda': seq<bool>, u: nat)
    requires AtCheck(g, marked, pr, accDst, needLda, c, v) && ConsistentBlocks(g) && |accDst| == |needLda| == |g.nodes|
    requires LoadsChecked(g, accDst, needLda, c, v, needLda') && u < |g.nodes| && Covered(g, u)
    ensures !needLda'[u] <==> Leaves(g, marked, Checked(pr, v), AccInput(g, u), u)
  {
    hide WellFormed, Sound, GoodDestinations, Held, Remains, CheckTurn, Quiet, LinkedThrough, SilentlyLinked, Crowded, Ready;
    CheckFacts(g, marked, pr, accDst, needLda, c, v);
    var a := AccInput(g, u);
    CoveredNeeds(g, u);
    assert !needLda[u] <==> Leaves(g, marked, pr, a, u);
    RemainsChecked(g, marked, pr, c, v, a);
    if a in pr.done {
      CrowdedChecked(g, pr, c, v, a, u);
    }
    NoSpecialConstants(g, c);
    if u == v {
      ReadyIsQuiet(g, marked, accDst, a, u);
    }
    if c in g.nodes[u].inputs && c != a {
      OtherConstantElsewhere(g, marked, pr, accDst, needLda, c, a, u);
    }
  }

  lemma ReadyIsQuiet(g: Graph, marked: set<nat>, accDst: seq<bool>, a: nat, u: nat)
    requires ConsistentBlocks(g) && |accDst| == |g.nodes| && a < |g.nodes| && u < |g.nodes| && !g.nodes[u].phi
    ensures Ready(g, marked, a, u) ==> Quiet(g, accDst, a, u)
  {
    if SilentlyLinked(g, a, u) {
      SilentIsQuiet(g, accDst, a, u);
    }
  }

  lemma HeldStaysChecked(g: Graph, marked: set<nat>, pr: Progress, accDst: seq<bool>, needLda: seq<bool>, c: nat, v: nat, needLda': seq<bool>, x: nat, u: nat)
    requires AtCheck(g, marked, pr, accDst, needLda, c, v) && ConsistentBlocks(g) && |accDst| == |needLda| == |g.nodes|
    requires LoadsChecked(g, accDst, needLda, c, v, needLda') && x < |g.nodes| && u < |g.nodes| && NeedsFromAcc(g, x, u)
    requires accDst[x] && (x == c ==> !Disturbed(g, accDst, c, v))
    ensures HeldFor(g, Checked(pr, v), needLda', x, u)
  {
    hide WellFormed, Sound, ExactDst, ExactLda, CheckTurn, Quiet, LinkedThrough, SilentlyLinked, Crowded, GoodDestination;
    CheckFacts(g, marked, pr, accDst, needLda, c, v);
    assert HeldFor(g, pr, needLda, x, u) && x in pr.done;
    CrowdedChecked(g, pr, c, v, x, u);
    NoSpecialConstants(g, c);
    if c in g.nodes[u].inputs && c != x {
      OtherConstantElsewhere(g, marked, pr, accDst, needLda, c, x, u);
    }
  }

  lemma SafeAfterCheck(g: Graph, marked: set<nat>, pr: Progress, accDst: seq<bool>, needLda: seq<bool>, c: nat, v: nat, accDst': seq<bool>, needLda': seq<bool>)
    requires AtCheck(g, marked, pr, accDst, needLda, c, v) && ConsistentBlocks(g) && |accDst| == |needLda| == |g.nodes|
    requires LoadsChecked(g, accDst, needLda, c, v, needLda')
    requires accDst' == if Disturbed(g, accDst, c, v) then accDst[c := false] else accDst
    ensures WellFormed(g) && |accDst'| == |needLda'| == |g.nodes| && Sound(g, needLda') && GoodDestinations(g, accDst', pr.done)
  {
    hide ExactDst, ExactLda, Held, CheckTurn, Disturbed, SilentlyLinked, GoodDestination;
  }

  /** Checking an operand keeps everything exact. */
  lemma CheckedIsExact(g: Graph, marked: set<nat>, pr: Progress, accDst: seq<bool>, needLda: seq<bool>, c: nat, v: nat, accDst': seq<bool>, needLda': seq<bool>)
    requires AtCheck(g, marked, pr, accDst, needLda, c, v) && ConsistentBlocks(g) && |accDst| == |needLda| == |g.nodes|
    requires LoadsChecked(g, accDst, needLda, c, v, needLda')
    requires accDst' == if Disturbed(g, accDst, c, v) then accDst[c := false] else accDst
    ensures Exact(g, marked, Checked(pr, v), accDst', needLda')
  {
    hide WellFormed, ConsistentBlocks, Sound, ExactDst, GoodDestinations, Leaves, HeldFor, NeedsFromAcc, LoadsChecked, Disturbed, CheckTurn, AtCheck;
    CheckFacts(g, marked, pr, accDst, needLda, c, v);
    DstStaysExactChecked(g, marked, pr, accDst, needLda, c, v, accDst');
    SafeAfterCheck(g, marked, pr, accDst, needLda, c, v, accDst', needLda');
    forall u | 0 <= u < |g.nodes| && Covered(g, u)
      ensures !needLda'[u] <==> Leaves(g, marked, Checked(pr, v), AccInput(g, u), u)
    {
      LdaStaysExactChecked(g, marked, pr, accDst, needLda, c, v, needLda', u);
    }
    forall x, u | 0 <= x < |g.nodes| && accDst'[x] && 0 <= u < |g.nodes| && NeedsFromAcc(g, x, u)
      ensures HeldFor(g, Checked(pr, v), needLda', x, u)
    {
      HeldStaysChecked(g, marked, pr, accDst, needLda, c, v, needLda', x, u);
    }
  }

  /** An instruction whose operand is not looked at changes nothing. */
  lemma UncheckedIsExact(g: Graph, marked: set<nat>, pr: Progress, accDst: seq<bool>, needLda: seq<bool>, v: nat)
    requires Exact(g, marked, pr, accDst, needLda) && v < |g.nodes| && forall c: nat :: c < |g.nodes| ==> !Checks(g, v, c)
    ensures Exact(g, marked, Checked(pr, v), accDst, needLda)
  {
    hide Sound, GoodDestinations, SilentlyLinked, LinkedThrough, Stays, Ready, Later, BlockBefore, Checks;
    assert forall x: nat :: x < |g.nodes| ==> (Remains(g, marked, Checked(pr, v), x) <==> Remains(g, marked, pr, x));
    assert forall d: nat, x: nat :: d < |g.nodes| && x < |g.nodes| ==> (Overrides(g, Checked(pr, v), d, x) <==> Overrides(g, pr, d, x));
    hide Overrides, Remains;
    assert forall x: nat, u: nat :: x < |g.nodes| && u < |g.nodes| ==> (Crowded(g, Checked(pr, v), x, u) <==> Crowded(g, pr, x, u));
    hide Crowded;
    assert forall a: nat, u: nat :: a < |g.nodes| && u < |g.nodes| ==> (Leaves(g, marked, Checked(pr, v), a, u) <==> Leaves(g, marked, pr, a, u));
  }

  // ----- what is lost -----

  /** u takes x from the accumulator and from nowhere else. */
  predicate TakesFromAcc(g: Graph, needLda: seq<bool>, x: nat, u: nat)
    requires u < |g.nodes| == |needLda|
  {
    var n := g.nodes[u];
    && n.accRead && !needLda[u]
    && forall k :: 0 <= k < |n.inputs| && n.inputs[k] == x ==> k == n.AccReadIndex()
  }

  /** No register is read that was never stored: what lives only in the accumulator is taken
      from the accumulator by each of its users. */
  ghost predicate NothingLost(g: Graph, accDst: seq<bool>, needLda: seq<bool>)
    requires |accDst| == |needLda| == |g.nodes|
  {
    forall x, u :: 0 <= x < |g.nodes| && accDst[x] && 0 <= u < |g.nodes| && NeedsFromAcc(g, x, u) ==> TakesFromAcc(g, needLda, x, u)
  }

  /** No user of a value in the accumulator has another operand that makes it load again. */
  ghost predicate Uncrowded(g: Graph, pr: Progress, accDst: seq<bool>)
    requires ConsistentBlocks(g) && |accDst| == |g.nodes|
  {
    forall x, u :: 0 <= x < |g.nodes| && accDst[x] && 0 <= u < |g.nodes| && NeedsFromAcc(g, x, u) ==> !Crowded(g, pr, x, u)
  }

  lemma HeldIsTaken(g: Graph, pr: Progress, needLda: seq<bool>, x: nat, u: nat)
    requires ConsistentBlocks(g) && |needLda| == |g.nodes| && x < |g.nodes| && u < |g.nodes| && HeldFor(g, pr, needLda, x, u)
    ensures TakesFromAcc(g, needLda, x, u) <==> !Crowded(g, pr, x, u)
  {
    hide ConsistentBlocks, Crowded;
    var n := g.nodes[u];
    forall k | 0 <= k < |n.inputs| && n.inputs[k] == x
      ensures k == n.AccReadIndex()
    {
      var j := n.AccReadIndex();
      assert n.inputs[j] == x && (k < j || k == j || j < k);
    }
  }

  /** Nothing is lost if and only if nobody is crowded. */
  lemma LostIffCrowded(g: Graph, marked: set<nat>, pr: Progress, accDst: seq<bool>, needLda: seq<bool>)
    requires Exact(g, marked, pr, accDst, needLda)
    ensures ConsistentBlocks(g) && |accDst| == |needLda| == |g.nodes|
    ensures NothingLost(g, accDst, needLda) <==> Uncrowded(g, pr, accDst)
  {
    hide WellFormed, Sound, GoodDestinations, ExactDst, ExactLda, Crowded, HeldFor, TakesFromAcc, NeedsFromAcc;
    WellFormedBlocks(g);
    forall x, u | 0 <= x < |g.nodes| && accDst[x] && 0 <= u < |g.nodes| && NeedsFromAcc(g, x, u)
      ensures TakesFromAcc(g, needLda, x, u) <==> !Crowded(g, pr, x, u)
    {
      assert HeldFor(g, pr, needLda, x, u);
      HeldIsTaken(g, pr, needLda, x, u);
    }
  }

  /** The same for one value that is no phi, in terms of graph and order alone. */
  lemma ValueLostIff(g: Graph, marked: set<nat>, pr: Progress, accDst: seq<bool>, needLda: seq<bool>, x: nat)
    requires Exact(g, marked, pr, accDst, needLda) && x < |g.nodes| && !g.nodes[x].phi
    ensures ConsistentBlocks(g) && |accDst| == |needLda| == |g.nodes|
    ensures (accDst[x] && exists u :: 0 <= u < |g.nodes| && NeedsFromAcc(g, x, u) && !TakesFromAcc(g, needLda, x, u)) <==>
            (Remains(g, marked, pr, x) && exists u :: 0 <= u < |g.nodes| && NeedsFromAcc(g, x, u) && Crowded(g, pr, x, u))
  {
    hide WellFormed, Sound, GoodDestinations, ExactLda, Crowded, HeldFor, TakesFromAcc, NeedsFromAcc, Remains;
    WellFormedBlocks(g);
    forall u | accDst[x] && 0 <= u < |g.nodes| && NeedsFromAcc(g, x, u)
      ensures TakesFromAcc(g, needLda, x, u) <==> !Crowded(g, pr, x, u)
    {
      assert HeldFor(g, pr, needLda, x, u);
      HeldIsTaken(g, pr, needLda, x, u);
    }
  }

  /** Constants are operands of the accumulator only. */
  predicate ConstantsAtAcc(g: Graph) {
    forall u, k :: 0 <= u < |g.nodes| && 0 <= k < |g.nodes[u].inputs| && g.nodes[u].inputs[k] < |g.nodes| ==>
      g.nodes[g.nodes[u].inputs[k]].constant && PlainUser(g.nodes[u]) ==> k == g.nodes[u].AccReadIndex()
  }

  /** Then nobody is crowded. */
  lemma ConstantsAtAccIsSafe(g: Graph, marked: set<nat>, pr: Progress, accDst: seq<bool>, needLda: seq<bool>)
    requires Exact(g, marked, pr, accDst, needLda) && ConstantsAtAcc(g)
    ensures |accDst| == |needLda| == |g.nodes| && NothingLost(g, accDst, needLda)
  {
    hide WellFormed, Sound, GoodDestinations, ExactDst, ExactLda, Overrides;
    LostIffCrowded(g, marked, pr, accDst, needLda);
    forall x, u | 0 <= x < |g.nodes| && accDst[x] && 0 <= u < |g.nodes| && NeedsFromAcc(g, x, u)
      ensures !Crowded(g, pr, x, u)
    {
      assert HeldFor(g, pr, needLda, x, u);
      forall c: nat | c in g.nodes[u].inputs && c < |g.nodes| && g.nodes[c].constant
        ensures c == x
      {
        var k :| 0 <= k < |g.nodes[u].inputs| && g.nodes[u].inputs[k] == c;
      }
    }
  }

  // ----- the order of the blocks -----

  predicate IsNode(g: Graph, x: nat) { x < |g.nodes| }

  ghost function AllNodes(g: Graph): set<nat> {
    set x: nat | x < |g.nodes| && IsNode(g, x)
  }

  ghost function NodesOf(g: Graph, blocks: seq<nat>): set<nat>
    requires |g.where| == |g.nodes|
  {
    set x: nat | x < |g.nodes| && g.where[x].block in blocks
  }

  /** All blocks, each once. */
  predicate IsOrder(g: Graph, order: seq<nat>) {
    && (forall k :: 0 <= k < |order| ==> order[k] < |g.blocks|)
    && (forall j, k :: 0 <= j < k < |order| ==> order[j] != order[k])
    && (forall b :: 0 <= b < |g.blocks| ==> b in order)
  }

  /** The end of the pass. */
  ghost function Everything(g: Graph, order: seq<nat>): Progress { Progress(order, AllNodes(g), AllNodes(g)) }

  lemma EveryNode(g: Graph, order: seq<nat>)
    requires ConsistentBlocks(g) && IsOrder(g, order)
    ensures NodesOf(g, order) == AllNodes(g) && NodesOf(g, []) == {}
  {
    assert forall x :: 0 <= x < |g.nodes| ==> ValidPos(g, g.where[x]);
  }

  /** The first i instructions of a block. */
  function FirstOf(block: seq<nat>, i: nat): set<nat>
    requires i <= |block|
  {
    set k | 0 <= k < i :: block[k]
  }

  lemma BlockNodes(g: Graph, before: seq<nat>, b: nat)
    requires ConsistentBlocks(g) && b < |g.blocks|
    ensures forall k :: 0 <= k < |g.blocks[b]| ==> g.blocks[b][k] < |g.nodes| && g.where[g.blocks[b][k]] == Pos(b, k)
    ensures NodesOf(g, before + [b]) == NodesOf(g, before) + FirstOf(g.blocks[b], |g.blocks[b]|)
  {
    var block := g.blocks[b];
    forall x: nat | x < |g.nodes| && g.where[x].block in before + [b]
      ensures x in NodesOf(g, before) + FirstOf(block, |block|)
    {
      assert ValidPos(g, g.where[x]);
      if g.where[x].block == b {
        assert block[g.where[x].index] == x;
      }
    }
  }

  /** Blocks that were visited have a lower rank. */
  lemma EarlierRank(g: Graph, order: seq<nat>, k: nat, x: nat)
    requires ConsistentBlocks(g) && IsOrder(g, order) && k < |order| && x in NodesOf(g, order[..k])
    ensures RankOf(order, g.where[x].block) < k == RankOf(order, order[k])
  {
    hide RankOf;
    var j :| 0 <= j < |order[..k]| && order[..k][j] == g.where[x].block;
    RankIs(order, j);
    RankIs(order, k);
  }

  /** The instructions of a block come up in turn. */
  lemma TurnComes(g: Graph, order: seq<nat>, k: nat, i: nat)
    requires ConsistentBlocks(g) && IsOrder(g, order) && k < |order| && i < |g.blocks[order[k]]|
    ensures var a := g.blocks[order[k]][i];
            && a < |g.nodes| && Turn(g, HalfVisited(g, order, k, i), a)
            && Decided(HalfVisited(g, order, k, i), a) == HalfVisited(g, order, k, i + 1)
  {
    var block, visited := g.blocks[order[k]], NodesOf(g, order[..k]);
    BlockNodes(g, order[..k], order[k]);
    hide RankOf, ConsistentBlocks, IsOrder, NodesOf;
    forall x: nat | x in visited && x < |g.nodes|
      ensures BlockBefore(g, order, x, block[i]) && !BlockBefore(g, order, block[i], x) && x != block[i]
      ensures g.where[x].block != g.where[block[i]].block
    {
      EarlierRank(g, order, k, x);
    }
    assert visited + FirstOf(block, i) + {block[i]} == visited + FirstOf(block, i + 1);
  }

  lemma CheckTurnComes(g: Graph, order: seq<nat>, k: nat, i: nat)
    requires ConsistentBlocks(g) && IsOrder(g, order) && k < |order| && i < |g.blocks[order[k]]|
    ensures var v := g.blocks[order[k]][i];
            && v < |g.nodes| && CheckTurn(g, Checking(g, order, k, i), v)
            && Checked(Checking(g, order, k, i), v) == Checking(g, order, k, i + 1)
  {
    var block, visited := g.blocks[order[k]], NodesOf(g, order[..k]);
    BlockNodes(g, order[..k], order[k]);
    hide RankOf, ConsistentBlocks, IsOrder, NodesOf;
    forall x: nat | x in visited && x < |g.nodes|
      ensures !BlockBefore(g, order, block[i], x)
    {
      EarlierRank(g, order, k, x);
    }
    assert visited + FirstOf(block, i) + {block[i]} == visited + FirstOf(block, i + 1);
  }

  lemma UsersAreUses(g: Graph, a: nat)
    requires WellFormed(g) && a < |g.nodes|
    ensures forall u: nat :: u in g.users[a] <==> u < |g.nodes| && a in g.nodes[u].inputs
    ensures forall k :: 0 <= k < |g.users[a]| ==> g.users[a][k] < |g.nodes| && a in g.nodes[g.users[a][k]].inputs
  {
    assert ConsistentNode(g, a);
    forall u: nat | u < |g.nodes| && a in g.nodes[u].inputs
      ensures u in g.users[a]
    {
      assert ConsistentNode(g, u);
      var k :| 0 <= k < |g.nodes[u].inputs| && g.nodes[u].inputs[k] == a;
    }
  }

  /** SetNeedLda. */
  function SetNeedLda(g: Graph, needLda: seq<bool>, u: nat, need: bool): (res: seq<bool>)
    requires u < |g.nodes| == |needLda|
    ensures |res| == |needLda|
    ensures forall v :: 0 <= v < |res| && v != u ==> res[v] == needLda[v]
  {
    var n := g.nodes[u];
    if n.phi || !n.accRead || n.call then needLda else needLda[u := need]
  }

  // ----- the pass -----

  class RegAccAlloc {
    const g: Graph
    const marked: set<nat>     // phis marked as optimizable
    const order: seq<nat>      // the blocks in reverse post-order
    var accDst: seq<bool>      // destination register is ACC_REG_ID
    var needLda: seq<bool>     // source register at the acc-read position is not ACC_REG_ID

    constructor (g: Graph, marked: set<nat>, order: seq<nat>)
      ensures this.g == g && this.marked == marked && this.order == order
      ensures accDst == seq(|g.nodes|, _ => false)
    {
      this.g, this.marked, this.order := g, marked, order;
      accDst, needLda := seq(|g.nodes|, _ => false), seq(|g.nodes|, _ => false);
    }

    method CanUserReadAcc(a: nat, u: nat) returns (r: bool)
      requires WellFormed(g) && Dominated(g) && |accDst| == |g.nodes|
      requires a < |g.nodes| && u < |g.nodes| && a in g.nodes[u].inputs
      ensures r <==> CanRead(g, marked, accDst, a, u)
    {
      hide PhisFirst, Quiet;
      var n := g.nodes[u];
      if n.phi {
        return u in marked;
      }
      if !n.accRead {
        return false;
      }
      ghost var k :| 0 <= k < |n.inputs| && n.inputs[k] == a;
      ghost var path := DefinitionReachesUse(g, u, k);
      var disturbed := IsAccWriteBetween(g, accDst, a, u, path);
      if disturbed {
        return false;
      }
      var found := false;
      for i := 0 to |n.inputs|
        invariant found <==> a in n.inputs[..i]
        invariant OccursOnce(n.inputs[..i], a)
      {
        assert n.inputs[..i + 1] == n.inputs[..i] + [n.inputs[i]];
        if n.inputs[i] == a {
          if found {
            var j :| 0 <= j < i && n.inputs[j] == a;
            return false;
          }
          found := true;
        }
      }
      assert n.inputs[..|n.inputs|] == n.inputs;
      assert ConsistentNode(g, u);
      if n.call {
        return |n.inputs| <= MAX_NUM_NON_RANGE_ARGS + 1;
      }
      return n.inputs[n.AccReadIndex()] == a || n.commutative;
    }

    /** All users of a load it. */
    method LoadInUsers(a: nat)
      requires WellFormed(g) && |needLda| == |g.nodes| && a < |g.nodes|
      modifies this`needLda
      ensures Loaded(g, old(needLda), a, needLda)
    {
      UsersAreUses(g, a);
      assert |g.users| == |g.nodes|;
      hide WellFormed;
      var users := g.users[a];
      for i := 0 to |users|
        invariant |needLda| == |g.nodes|
        invariant forall u :: 0 <= u < |g.nodes| ==> needLda[u] == (old(needLda)[u] || (u in users[..i] && CanDrop(g, a, u)))
      {
        assert users[..i + 1] == users[..i] + [users[i]];
        if !g.nodes[users[i]].saveState {
          needLda := SetNeedLda(g, needLda, users[i], true);
        }
      }
      assert users[..|users|] == users;
    }

    /** One user of a; save states are passed over. */
    method OfferTo(a: nat, u: nat, ghost before: seq<bool>, ghost told: seq<nat>) returns (can: bool)
      requires WellFormed(g) && Dominated(g) && |accDst| == |needLda| == |before| == |g.nodes| && a < |g.nodes|
      requires u < |g.nodes| && a in g.nodes[u].inputs && Offered(g, marked, accDst, before, a, told, needLda)
      modifies this`needLda
      ensures Offered(g, marked, accDst, before, a, told + [u], needLda)
      ensures can <==> g.nodes[u].saveState || CanRead(g, marked, accDst, a, u)
    {
      WellFormedBlocks(g);
      hide ConsistentBlocks, WellFormed, CanRead, Dominated;
      can := true;
      if !g.nodes[u].saveState {
        can := CanUserReadAcc(a, u);
        if can {
          CanReadDrops(g, marked, accDst, a, u);
          needLda := SetNeedLda(g, needLda, u, false);
        }
      }
    }

    /** Every user that can read a does so. */
    method OfferToUsers(a: nat) returns (useAccDstReg: bool)
      requires WellFormed(g) && Dominated(g) && |accDst| == |needLda| == |g.nodes| && a < |g.nodes|
      modifies this`needLda
      ensures Offered(g, marked, accDst, old(needLda), a, g.users[a], needLda)
      ensures useAccDstReg <==> AllCan(g, marked, accDst, a)
    {
      UsersAreUses(g, a);
      WellFormedBlocks(g);
      assert |g.users| == |g.nodes|;
      var users := g.users[a];
      StartOfOffers(g, marked, accDst, needLda, a);
      hide ConsistentBlocks, WellFormed, CanRead, Dominated, Offered;
      useAccDstReg := true;
      for i := 0 to |users|
        invariant |needLda| == |g.nodes| && Offered(g, marked, accDst, old(needLda), a, users[..i], needLda)
        invariant useAccDstReg <==> Willing(g, marked, accDst, a, users[..i])
      {
        assert users[..i + 1] == users[..i] + [users[i]];
        var can := OfferTo(a, users[i], old(needLda), users[..i]);
        OfferedSize(g, marked, accDst, old(needLda), a, users[..i + 1], needLda);
        if !can {
          useAccDstReg := false;
        }
      }
      assert users[..|users|] == users;
    }

    /** The first half of RunImpl's block step, for one instruction. */
    method AllocateDestination(a: nat)
      requires WellFormed(g) && Dominated(g) && |accDst| == |needLda| == |g.nodes| && a < |g.nodes|
      modifies this`accDst, this`needLda
      ensures LoadsDecided(g, marked, old(accDst), old(needLda), a, needLda)
      ensures DstDecided(g, marked, old(accDst), a, accDst)
    {
      UsersAreUses(g, a);
      NoSpecialConstants(g, a);
      WellFormedBlocks(g);
      assert |g.users| == |g.nodes|;
      hide ConsistentBlocks, WellFormed, CanRead, Dominated, AllCan;
      var n := g.nodes[a];
      if n.noDest || !(if n.phi then a in marked else n.WritesAcc()) {
        return;
      }
      var useAccDstReg := OfferToUsers(a);
      if useAccDstReg {
        accDst := accDst[a := true];
      } else if n.constant {
        LoadInUsers(a);
      }
    }

    /** The second half, for one instruction. */
    method CheckOperand(v: nat, ghost c: nat)
      requires WellFormed(g) && Dominated(g) && |accDst| == |needLda| == |g.nodes| && c < |g.nodes| && v < |g.nodes| && Checks(g, v, c)
      modifies this`accDst, this`needLda
      ensures LoadsChecked(g, old(accDst), old(needLda), c, v, needLda)
      ensures accDst == if Disturbed(g, old(accDst), c, v) then old(accDst)[c := false] else old(accDst)
    {
      WellFormedBlocks(g);
      var n := g.nodes[v];
      var input := n.inputs[n.AccReadIndex()];
      ghost var path := DefinitionReachesUse(g, v, n.AccReadIndex());
      assert input in n.inputs;
      NotSaved(g, v);
      hide ConsistentBlocks, WellFormed, Dominated, Quiet;
      var disturbed := IsAccWriteBetween(g, accDst, input, v, path);
      if disturbed {
        accDst := accDst[input := false];
        needLda := SetNeedLda(g, needLda, v, true);
        if g.nodes[input].constant {
          LoadInUsers(input);
        }
      }
    }

    method DecideNext(a: nat, ghost pr: Progress)
      requires WellFormed(g) && Dominated(g) && a < |g.nodes| && Exact(g, marked, pr, accDst, needLda) && Turn(g, pr, a)
      modifies this`accDst, this`needLda
      ensures Exact(g, marked, Decided(pr, a), accDst, needLda)
    {
      hide Exact, WellFormed, ConsistentBlocks, Dominated, LoadsDecided, DstDecided, Turn;
      WellFormedBlocks(g);
      ghost var dst, lda := accDst, needLda;
      ExactSize(g, marked, pr, accDst, needLda);
      AllocateDestination(a);
      DecidedIsExact(g, marked, pr, dst, lda, a, accDst, needLda);
    }

    method CheckNext(v: nat, ghost pr: Progress)
      requires WellFormed(g) && Dominated(g) && v < |g.nodes| && Exact(g, marked, pr, accDst, needLda) && CheckTurn(g, pr, v)
      modifies this`accDst, this`needLda
      ensures Exact(g, marked, Checked(pr, v), accDst, needLda)
    {
      hide Exact, WellFormed, ConsistentBlocks, Dominated, LoadsChecked, Disturbed, CheckTurn;
      WellFormedBlocks(g);
      ghost var dst, lda := accDst, needLda;
      ExactSize(g, marked, pr, accDst, needLda);
      if g.nodes[v].phi || g.nodes[v].inputs == [] || g.nodes[v].call {
        UncheckedIsExact(g, marked, pr, accDst, needLda, v);
      } else {
        ghost var c := OperandOf(g, v);
        CheckOperand(v, c);
        CheckedIsExact(g, marked, pr, dst, lda, c, v, accDst, needLda);
      }
    }

    /** All destinations of a block. */
    method DecideBlock(k: nat)
      requires WellFormed(g) && Dominated(g) && IsOrder(g, order) && k < |order|
      requires Exact(g, marked, Visited(g, order, k), accDst, needLda)
      modifies this`accDst, this`needLda
      ensures Exact(g, marked, HalfVisited(g, order, k, |g.blocks[order[k]]|), accDst, needLda)
    {
      hide Exact, WellFormed, ConsistentBlocks, NodesOf, Dominated, HalfVisited, Visited, Turn, IsOrder;
      InOrder(g, order, k);
      VisitBegins(g, order, k);
      var block := g.blocks[order[k]];
      for i := 0 to |block|
        invariant Exact(g, marked, HalfVisited(g, order, k, i), accDst, needLda)
      {
        TurnComes(g, order, k, i);
        DecideNext(block[i], HalfVisited(g, order, k, i));
      }
    }

    /** All operands of a block. */
    method CheckBlock(k: nat)
      requires WellFormed(g) && Dominated(g) && IsOrder(g, order) && k < |order|
      requires Exact(g, marked, HalfVisited(g, order, k, |g.blocks[order[k]]|), accDst, needLda)
      modifies this`accDst, this`needLda
      ensures Exact(g, marked, Visited(g, order, k + 1), accDst, needLda)
    {
      hide Exact, WellFormed, ConsistentBlocks, NodesOf, Dominated, HalfVisited, Visited, CheckTurn, Checking, IsOrder;
      InOrder(g, order, k);
      VisitEnds(g, order, k);
      var block := g.blocks[order[k]];
      for i := 0 to |block|
        invariant Exact(g, marked, Checking(g, order, k, i), accDst, needLda)
      {
        CheckTurnComes(g, order, k, i);
        CheckNext(block[i], Checking(g, order, k, i));
      }
    }

    /** The whole pass: a missing lda is sound; exactly the destinations that remain are in the
        accumulator, and exactly the loads of their users that nothing overrides are missing; and
        nothing is lost if and only if nobody is crowded. */
    method RunImpl()
      requires WellFormed(g) && Dominated(g) && IsOrder(g, order) && accDst == seq(|g.nodes|, _ => false)
      modifies this`accDst, this`needLda
      ensures |needLda| == |accDst| == |g.nodes|
      ensures Sound(g, needLda)
      ensures ExactDst(g, marked, Everything(g, order), accDst)
      ensures ExactLda(g, marked, Everything(g, order), needLda)
      ensures NothingLost(g, accDst, needLda) <==> Uncrowded(g, Everything(g, order), accDst)
    {
      needLda := seq(|g.nodes|, _ => true);
      NothingVisited(g, marked, order, accDst, needLda);
      hide Exact, WellFormed, Dominated, Visited, HalfVisited;
      for k := 0 to |order|
        invariant Exact(g, marked, Visited(g, order, k), accDst, needLda)
      {
        DecideBlock(k);
        CheckBlock(k);
      }
      AllVisited(g, order);
      Finished(g, marked, Everything(g, order), accDst, needLda);
    }
  }

  // ----- the progress of the loops -----

  /** The first k blocks have been visited. */
  ghost function Visited(g: Graph, order: seq<nat>, k: nat): Progress
    requires |g.where| == |g.nodes| && k <= |order|
  {
    Progress(order, NodesOf(g, order[..k]), NodesOf(g, order[..k]))
  }

  /** And the destinations of the first i instructions of the next one. */
  ghost function HalfVisited(g: Graph, order: seq<nat>, k: nat, i: nat): Progress
    requires |g.where| == |g.nodes| && k < |order| && order[k] < |g.blocks| && i <= |g.blocks[order[k]]|
  {
    Progress(order, NodesOf(g, order[..k]) + FirstOf(g.blocks[order[k]], i), NodesOf(g, order[..k]))
  }

  /** All its destinations, and the operands of the first i. */
  ghost function Checking(g: Graph, order: seq<nat>, k: nat, i: nat): Progress
    requires |g.where| == |g.nodes| && k < |order| && order[k] < |g.blocks| && i <= |g.blocks[order[k]]|
  {
    var block := g.blocks[order[k]];
    Progress(order, NodesOf(g, order[..k]) + FirstOf(block, |block|), NodesOf(g, order[..k]) + FirstOf(block, i))
  }

  lemma InOrder(g: Graph, order: seq<nat>, k: nat)
    requires WellFormed(g) && IsOrder(g, order) && k < |order|
    ensures ConsistentBlocks(g) && |g.where| == |g.nodes| && order[k] < |g.blocks|
  {
  }

  lemma VisitBegins(g: Graph, order: seq<nat>, k: nat)
    requires ConsistentBlocks(g) && k < |order| && order[k] < |g.blocks|
    ensures HalfVisited(g, order, k, 0) == Visited(g, order, k)
  {
    assert NodesOf(g, order[..k]) + FirstOf(g.blocks[order[k]], 0) == NodesOf(g, order[..k]);
  }

  lemma VisitEnds(g: Graph, order: seq<nat>, k: nat)
    requires ConsistentBlocks(g) && k < |order| && order[k] < |g.blocks|
    ensures Checking(g, order, k, 0) == HalfVisited(g, order, k, |g.blocks[order[k]]|)
    ensures Checking(g, order, k, |g.blocks[order[k]]|) == Visited(g, order, k + 1)
  {
    assert NodesOf(g, order[..k]) + FirstOf(g.blocks[order[k]], 0) == NodesOf(g, order[..k]);
    BlockNodes(g, order[..k], order[k]);
    assert order[..k + 1] == order[..k] + [order[k]];
  }

  lemma AllVisited(g: Graph, order: seq<nat>)
    requires ConsistentBlocks(g) && IsOrder(g, order)
    ensures Visited(g, order, |order|) == Everything(g, order)
  {
    EveryNode(g, order);
    assert order[..|order|] == order;
  }

  lemma NothingVisited(g: Graph, marked: set<nat>, order: seq<nat>, accDst: seq<bool>, needLda: seq<bool>)
    requires WellFormed(g) && accDst == seq(|g.nodes|, _ => false) && needLda == seq(|g.nodes|, _ => true)
    ensures Exact(g, marked, Visited(g, order, 0), accDst, needLda)
  {
    hide SilentlyLinked, Crowded, Ready, LinkedThrough, ConsistentNode, PhisFirst;
    assert NodesOf(g, order[..0]) == {};
  }

  lemma ExactSize(g: Graph, marked: set<nat>, pr: Progress, accDst: seq<bool>, needLda: seq<bool>)
    requires Exact(g, marked, pr, accDst, needLda)
    ensures |accDst| == |needLda| == |g.nodes|
  {
  }

  lemma Finished(g: Graph, marked: set<nat>, pr: Progress, accDst: seq<bool>, needLda: seq<bool>)
    requires Exact(g, marked, pr, accDst, needLda)
    ensures WellFormed(g) && |accDst| == |needLda| == |g.nodes| && Sound(g, needLda)
    ensures ExactDst(g, marked, pr, accDst) && ExactLda(g, marked, pr, needLda)
    ensures NothingLost(g, accDst, needLda) <==> Uncrowded(g, pr, accDst)
  {
    hide WellFormed, Sound, ExactDst, ExactLda, Held, GoodDestinations;
    LostIffCrowded(g, marked, pr, accDst, needLda);
  }

  /** The operand that is looked at. */
  ghost function OperandOf(g: Graph, v: nat): (c: nat)
    requires WellFormed(g) && v < |g.nodes| && !g.nodes[v].phi && g.nodes[v].inputs != [] && !g.nodes[v].call
    ensures c < |g.nodes| && Checks(g, v, c)
  {
    assert ConsistentNode(g, v);
    g.nodes[v].inputs[g.nodes[v].AccReadIndex()]
  }

  lemma StartOfOffers(g: Graph, marked: set<nat>, accDst: seq<bool>, needLda: seq<bool>, a: nat)
    requires ConsistentBlocks(g) && a < |g.nodes| && |accDst| == |needLda| == |g.nodes|
    ensures Offered(g, marked, accDst, needLda, a, [], needLda)
  {
  }

  lemma OfferedSize(g: Graph, marked: set<nat>, accDst: seq<bool>, before: seq<bool>, a: nat, told: seq<nat>, after: seq<bool>)
    requires ConsistentBlocks(g) && a < |g.nodes| && |accDst| == |before| == |g.nodes| && Offered(g, marked, accDst, before, a, told, after)
    ensures |after| == |g.nodes|
  {
  }

  ghost predicate Willing(g: Graph, marked: set<nat>, accDst: seq<bool>, a: nat, told: seq<nat>)
    requires ConsistentBlocks(g) && a < |g.nodes| && |accDst| == |g.nodes|
  {
    forall u: nat :: u in told && u < |g.nodes| && !g.nodes[u].saveState ==> CanRead(g, marked, accDst, a, u)
  }

  lemma CanReadDrops(g: Graph, marked: set<nat>, accDst: seq<bool>, a: nat, u: nat)
    requires ConsistentBlocks(g) && a < |g.nodes| && u < |g.nodes| && |accDst| == |g.nodes| && CanRead(g, marked, accDst, a, u)
    requires a in g.nodes[u].inputs && !g.nodes[u].saveState
    ensures g.nodes[u].phi || g.nodes[u].call || CanDrop(g, a, u)
  {
  }
}

/** The spill moves RegEncoder inserts, and the simulation of the original code by the
    rewritten one (bytecode_optimizer/reg_encoder.cpp, InsertSpillsForInst and
    InsertSpillsForDynInputsInst). */
module RegSpills {
  import opened BytecodeIr
  import opened RegEncoding

  // ----- range instructions: all operands but the accumulator move into the window -----

  /** Register of the window, counted from its start, that operand i is moved to. */
  function Slot(inst: Inst, i: int): int
    requires inst.Op?
  {
    if inst.accRead && |inst.srcs| - 2 < i then i - 1 else i
  }

  /** The operand that is moved to register k of the window. */
  function Position(inst: Inst, k: int): int
    requires inst.Op?
  {
    if inst.accRead && |inst.srcs| - 2 <= k then k + 1 else k
  }

  function RangeMoves(inst: Inst, start: Reg, n: nat): (moves: seq<Move>)
    requires RangeShape(inst) && n <= |inst.srcs|
    ensures |moves| == Slot(inst, n)
  {
    seq(Slot(inst, n), k requires 0 <= k < Slot(inst, n) => Move(inst.srcs[Position(inst, k)], start + k))
  }

  function RangeSrc(inst: Inst, start: Reg, n: nat, i: nat): Reg
    requires RangeShape(inst) && n <= |inst.srcs| && i < |inst.srcs|
  {
    if i < n && !IsAccPosition(inst, i) then start + Slot(inst, i) else inst.srcs[i]
  }

  function RangeSrcs(inst: Inst, start: Reg, n: nat): (srcs: seq<Reg>)
    requires RangeShape(inst) && n <= |inst.srcs|
    ensures |srcs| == |inst.srcs|
  {
    seq(|inst.srcs|, i requires 0 <= i < |inst.srcs| => RangeSrc(inst, start, n, i))
  }

  // ----- narrow instructions: high operands move into the temps, each register once -----

  predicate Spilled(moves: seq<Move>, r: Reg) {
    exists k :: 0 <= k < |moves| && moves[k].src == r
  }

  function TempOf(moves: seq<Move>, r: Reg): (t: Reg)
    requires Spilled(moves, r)
    ensures exists k :: 0 <= k < |moves| && moves[k].src == r && moves[k].dst == t
  {
    if moves[0].src == r then moves[0].dst
    else
      assert forall k :: 0 < k < |moves| ==> moves[k] == moves[1..][k - 1];
      TempOf(moves[1..], r)
  }

  function NarrowMoves(w: RegMax, srcs: seq<Reg>, n: nat): (moves: seq<Move>)
    requires n <= |srcs|
    ensures |moves| <= n
  {
    if n == 0 then []
    else
      var moves := NarrowMoves(w, srcs, n - 1);
      var r := srcs[n - 1];
      if !NeedsSpill(w, r) || Spilled(moves, r) then moves else moves + [Move(r, |moves|)]
  }

  lemma {:induction false} NarrowMovesFacts(w: RegMax, srcs: seq<Reg>, n: nat)
    requires n <= |srcs|
    ensures var moves := NarrowMoves(w, srcs, n);
            && (forall k :: 0 <= k < |moves| ==> moves[k].dst == k && NeedsSpill(w, moves[k].src) && moves[k].src in srcs[..n])
            && (forall j, k :: 0 <= j < k < |moves| ==> moves[j].src != moves[k].src)
            && (forall k :: 0 <= k < n && NeedsSpill(w, srcs[k]) ==> Spilled(moves, srcs[k]))
  {
    if n > 0 {
      NarrowMovesFacts(w, srcs, n - 1);
      var moves, before := NarrowMoves(w, srcs, n), NarrowMoves(w, srcs, n - 1);
      assert forall k :: 0 <= k < |before| ==> moves[k] == before[k];
      assert srcs[n - 1] in srcs[..n];
      assert forall r :: r in srcs[..n - 1] ==> r in srcs[..n];
      if NeedsSpill(w, srcs[n - 1]) && !Spilled(before, srcs[n - 1]) {
        assert moves[|before|].src == srcs[n - 1];
      }
      forall k | 0 <= k < n && NeedsSpill(w, srcs[k])
        ensures Spilled(moves, srcs[k])
      {
        if k < n - 1 {
          var j :| 0 <= j < |before| && before[j].src == srcs[k];
          assert moves[j].src == srcs[k];
        }
      }
    }
  }

  /** The operand that replaces srcs[k]: its temp, or itself. */
  function NarrowSrc(w: RegMax, moves: seq<Move>, r: Reg): Reg {
    if NeedsSpill(w, r) && Spilled(moves, r) then TempOf(moves, r) else r
  }

  function NarrowSrcs(w: RegMax, srcs: seq<Reg>): (res: seq<Reg>)
    ensures |res| == |srcs|
  {
    var moves := NarrowMoves(w, srcs, |srcs|);
    seq(|srcs|, k requires 0 <= k < |srcs| => NarrowSrc(w, moves, srcs[k]))
  }

  // ----- the instructions that take the place of one -----

  function MovesBefore(w: RegMax, start: Reg, inst: Inst): seq<Move> {
    if RangeShape(inst) then RangeMoves(inst, start, NumArgs(inst))
    else if inst.Op? && inst.kind == Narrow then NarrowMoves(w, inst.srcs, |inst.srcs|)
    else []
  }

  function SpilledInst(w: RegMax, start: Reg, inst: Inst): Inst {
    if RangeShape(inst) then inst.(srcs := RangeSrcs(inst, start, NumArgs(inst)))
    else if inst.Op? && inst.kind == Narrow then inst.(srcs := NarrowSrcs(w, inst.srcs))
    else inst
  }

  function SpillInst(w: RegMax, start: Reg, inst: Inst): seq<Inst> {
    var moves := MovesBefore(w, start, inst);
    (if moves == [] then [] else [SpillFill(moves)]) + [SpilledInst(w, start, inst)]
  }

  function SpillBlock(w: RegMax, start: Reg, block: seq<Inst>): seq<Inst> {
    if block == [] then []
    else SpillBlock(w, start, block[..|block| - 1]) + SpillInst(w, start, block[|block| - 1])
  }

  function SpillCode(w: RegMax, start: Reg, code: Code): Code {
    seq(|code|, b requires 0 <= b < |code| => SpillBlock(w, start, code[b]))
  }

  // ----- the code that may come out -----

  /** out takes the place of inst. The moves of a narrow instruction are taken from an unordered
      map, so their order is open. */
  ghost predicate SpillsInst(w: RegMax, start: Reg, inst: Inst, out: seq<Inst>) {
    var moves := MovesBefore(w, start, inst);
    if moves == [] then out == [SpilledInst(w, start, inst)]
    else
      && |out| == 2 && out[1] == SpilledInst(w, start, inst) && out[0].SpillFill?
      && if RangeShape(inst) then out[0].moves == moves else multiset(out[0].moves) == multiset(moves)
  }

  ghost predicate SpillsBlock(w: RegMax, start: Reg, block: seq<Inst>, out: seq<Inst>) {
    if block == [] then out == []
    else
      var last := block[|block| - 1];
      var n := |out| - |SpillInst(w, start, last)|;
      n >= 0 && SpillsBlock(w, start, block[..|block| - 1], out[..n]) && SpillsInst(w, start, last, out[n..])
  }

  ghost predicate SpillsCode(w: RegMax, start: Reg, code: Code, code': Code) {
    |code'| == |code| && forall b :: 0 <= b < |code| ==> SpillsBlock(w, start, code[b], code'[b])
  }

  lemma SpillsBlockNext(w: RegMax, start: Reg, block: seq<Inst>, out: seq<Inst>, last: Inst, insts: seq<Inst>)
    requires SpillsBlock(w, start, block, out) && SpillsInst(w, start, last, insts)
    ensures SpillsBlock(w, start, block + [last], out + insts)
  {
    hide SpilledInst, MovesBefore;
    assert (block + [last])[..|block|] == block;
    assert (out + insts)[..|out|] == out && (out + insts)[|out|..] == insts;
  }

  lemma SpillsItself(w: RegMax, start: Reg, inst: Inst)
    ensures SpillsInst(w, start, inst, SpillInst(w, start, inst))
  {
  }

  /** First-occurrence order is one of the possible ones. */
  lemma {:induction false} SpillBlockIsOne(w: RegMax, start: Reg, block: seq<Inst>)
    ensures SpillsBlock(w, start, block, SpillBlock(w, start, block))
  {
    hide SpillInst, SpillsInst;
    if block != [] {
      var init, last := block[..|block| - 1], block[|block| - 1];
      SpillBlockIsOne(w, start, init);
      SpillsItself(w, start, last);
      SpillsBlockNext(w, start, init, SpillBlock(w, start, init), last, SpillInst(w, start, last));
      assert init + [last] == block;
    }
  }

  lemma SpillCodeIsOne(w: RegMax, start: Reg, code: Code)
    ensures SpillsCode(w, start, code, SpillCode(w, start, code))
  {
    hide SpillsBlock, SpillBlock;
    forall b | 0 <= b < |code|
      ensures SpillsBlock(w, start, code[b], SpillCode(w, start, code)[b])
    {
      SpillBlockIsOne(w, start, code[b]);
    }
  }

  // ----- what the encoding promises -----

  /** After spilling, a narrow instruction names only registers four bits can hold, and a
      range instruction names consecutive registers from the start of the window. */
  predicate Encodable(w: RegMax, start: Reg, window: nat, inst: Inst) {
    match inst
    case Op(_, Narrow, _, srcs, _, _) =>
      forall k :: 0 <= k < |srcs| ==> IsSpecial(w, srcs[k]) || srcs[k] < 16
    case Op(_, Range, _, srcs, _, _) =>
      forall k :: 0 <= k < NumArgs(inst) && !IsAccPosition(inst, k) && k < |srcs| ==>
        srcs[k] == start + Slot(inst, k) && start <= srcs[k] < start + window
    case _ => true
  }

  /** window is the operand count of the widest range instruction. */
  predicate FitsWindow(window: nat, inst: Inst) {
    inst.Op? && inst.kind == Range ==> NumArgs(inst) <= window
  }

  lemma SpilledIsEncodable(w: RegMax, used: seq<bool>, p: Placement, start: Reg, window: nat, inst: Inst)
    requires p.down <= p.minReg && GoodInst(w, used, inst) && FitsWindow(window, inst)
    ensures Encodable(w, start, window, SpilledInst(w, start, PlaceInst(w, p, inst)))
  {
    var placed := PlaceInst(w, p, inst);
    var spilled := SpilledInst(w, start, placed);
    if inst.Op? && inst.kind == Narrow {
      var moves := NarrowMoves(w, placed.srcs, |placed.srcs|);
      NarrowMovesFacts(w, placed.srcs, |placed.srcs|);
      forall k | 0 <= k < |placed.srcs|
        ensures IsSpecial(w, spilled.srcs[k]) || spilled.srcs[k] < COMPACT_REGS
      {
        assert spilled.srcs[k] == NarrowSrc(w, moves, placed.srcs[k]);
      }
    } else if inst.Op? && inst.kind == Range {
      forall k | 0 <= k < NumArgs(placed) && !IsAccPosition(placed, k) && k < |placed.srcs|
        ensures spilled.srcs[k] == start + Slot(placed, k) && start <= spilled.srcs[k] < start + window
      {
        assert spilled.srcs[k] == RangeSrc(placed, start, NumArgs(placed), k);
      }
    }
  }

  // ----- simulation -----

  /** m' is the machine of the rewritten code: same accumulator, branch and trace of values
      read, and every used register's value at its new place. */
  ghost predicate Tracks(w: RegMax, used: seq<bool>, p: Placement, m: Machine, m': Machine)
    requires p.down <= p.minReg
  {
    && |m.regs| == |m'.regs| == FrameSize(w)
    && m.acc == m'.acc && m.branch == m'.branch && m.trace == m'.trace
    && forall r: Reg :: RealReg(w, used, r) ==> p.Place(r) < FrameSize(w) && m'.regs[p.Place(r)] == m.regs[r]
  }

  lemma TracksWrite(w: RegMax, used: seq<bool>, p: Placement, m: Machine, m': Machine, start: nat, window: nat, dst: Reg, v: int)
    requires SafePlacement(w, used, p, start, window) && Tracks(w, used, p, m, m')
    requires RealReg(w, used, dst)
    ensures Tracks(w, used, p, m.(regs := m.regs[dst := v]), m'.(regs := m'.regs[p.Place(dst) := v]))
  {
  }

  lemma MovesAreGood(w: RegMax, used: seq<bool>, moves: seq<Move>)
    requires moves != [] && GoodInst(w, used, SpillFill(moves))
    ensures RealReg(w, used, moves[0].src) && RealReg(w, used, moves[0].dst) && GoodInst(w, used, SpillFill(moves[1..]))
  {
    assert forall k :: 0 <= k < |moves[1..]| ==> moves[1..][k] == moves[k + 1];
  }

  /** The allocator's own spill-fills, renumbered. */
  lemma {:induction false} TracksMoves(w: RegMax, used: seq<bool>, p: Placement, start: nat, window: nat,
                                       moves: seq<Move>, m: Machine, m': Machine)
    requires SafePlacement(w, used, p, start, window) && Tracks(w, used, p, m, m')
    requires GoodInst(w, used, SpillFill(moves))
    ensures Tracks(w, used, p, m.(regs := ExecMoves(moves, m.regs)), m'.(regs := ExecMoves(PlaceMoves(p, moves), m'.regs)))
  {
    hide GoodInst;
    if moves != [] {
      var mv := moves[0];
      var rest := moves[1..];
      MovesAreGood(w, used, moves);
      TracksWrite(w, used, p, m, m', start, window, mv.dst, m.regs[mv.src]);
      var n := m.(regs := m.regs[mv.dst := m.regs[mv.src]]);
      var n' := m'.(regs := m'.regs[p.Place(mv.dst) := m.regs[mv.src]]);
      TracksMoves(w, used, p, start, window, rest, n, n');
      assert PlaceMoves(p, moves)[1..] == PlaceMoves(p, rest);
      assert PlaceMoves(p, moves)[0] == Move(p.Place(mv.src), p.Place(mv.dst));
    }
  }

  /** Moves into the temps and the window leave every used register alone. */
  lemma TracksSpills(w: RegMax, used: seq<bool>, p: Placement, start: nat, window: nat, inst: Inst, m: Machine, m': Machine)
    requires SafePlacement(w, used, p, start, window) && Tracks(w, used, p, m, m')
    requires GoodInst(w, used, inst) && FitsWindow(window, inst)
    requires NeededForInst(w, PlaceInst(w, p, inst)) <= p.up <= COMPACT_REGS
    ensures var moves := MovesBefore(w, start, PlaceInst(w, p, inst));
            var m1 := m'.(regs := ExecMoves(moves, m'.regs));
            Tracks(w, used, p, m, m1) && MovesDone(moves, m', m1)
  {
    var placed := PlaceInst(w, p, inst);
    var moves := MovesBefore(w, start, placed);
    if inst.Op? && inst.kind == Range {
      SpillTargetsRange(w, used, p, start, window, inst);
    } else if inst.Op? && inst.kind == Narrow {
      SpillTargetsNarrow(w, used, p, start, window, inst);
    }
    assert CleanMoves(w, used, p, start, window, moves);
    MovesInParallel(moves, m'.regs);
  }

  /** The number of distinct spilled registers is at most the number of spilled operands. */
  lemma {:induction false} NarrowMovesCount(w: RegMax, srcs: seq<Reg>, n: nat)
    requires n <= |srcs|
    ensures |NarrowMoves(w, srcs, n)| <= CountSpills(w, srcs[..n])
  {
    if n > 0 {
      NarrowMovesCount(w, srcs, n - 1);
      assert srcs[..n][..n - 1] == srcs[..n - 1];
    }
  }

  /** Targets of inserted moves are distinct, inside the temps or the window, and no source
      of a move is a target. */
  ghost predicate CleanMoves(w: RegMax, used: seq<bool>, p: Placement, start: nat, window: nat, moves: seq<Move>)
    requires p.down <= p.minReg
  {
    && (forall k :: 0 <= k < |moves| ==> moves[k].dst < p.up || start <= moves[k].dst < start + window)
    && (forall k :: 0 <= k < |moves| ==> IsPlace(w, used, p, moves[k].src))
    && (forall j, k :: 0 <= j < k < |moves| ==> moves[j].dst != moves[k].dst)
  }

  /** q holds a used register of the original code. */
  ghost predicate IsPlace(w: RegMax, used: seq<bool>, p: Placement, q: Reg)
    requires p.down <= p.minReg
  {
    exists r: Reg :: RealReg(w, used, r) && p.Place(r) == q
  }

  lemma SpillTargetsRange(w: RegMax, used: seq<bool>, p: Placement, start: nat, window: nat, inst: Inst)
    requires p.down <= p.minReg && GoodInst(w, used, inst) && RangeShape(inst) && FitsWindow(window, inst)
    ensures CleanMoves(w, used, p, start, window, MovesBefore(w, start, PlaceInst(w, p, inst)))
  {
    var placed := PlaceInst(w, p, inst);
    var moves := MovesBefore(w, start, placed);
    forall k | 0 <= k < |moves|
      ensures IsPlace(w, used, p, moves[k].src)
    {
      var i := Position(placed, k);
      assert !IsAccPosition(inst, i) && moves[k].src == placed.srcs[i];
      assert RealReg(w, used, inst.srcs[i]);
    }
  }

  lemma SpillTargetsNarrow(w: RegMax, used: seq<bool>, p: Placement, start: nat, window: nat, inst: Inst)
    requires p.down <= p.minReg && GoodInst(w, used, inst) && inst.Op? && inst.kind == Narrow
    requires NeededForInst(w, PlaceInst(w, p, inst)) <= p.up
    ensures CleanMoves(w, used, p, start, window, MovesBefore(w, start, PlaceInst(w, p, inst)))
  {
    var placed := PlaceInst(w, p, inst);
    var moves := MovesBefore(w, start, placed);
    NarrowMovesFacts(w, placed.srcs, |placed.srcs|);
    NarrowMovesCount(w, placed.srcs, |placed.srcs|);
    assert placed.srcs[..|placed.srcs|] == placed.srcs;
    forall k | 0 <= k < |moves|
      ensures IsPlace(w, used, p, moves[k].src)
    {
      var i :| 0 <= i < |placed.srcs| && moves[k].src == placed.srcs[i];
      assert NeedsSpill(w, placed.srcs[i]);
      assert GoodReg(w, used, inst.srcs[i]);
    }
  }

  /** The moves made before inst, seen from the machine m1 they lead to. */
  ghost predicate MovesDone(moves: seq<Move>, m': Machine, m1: Machine) {
    && m1 == m'.(regs := m1.regs) && |m1.regs| == |m'.regs|
    && forall k :: 0 <= k < |moves| ==>
         moves[k].src < |m'.regs| && moves[k].dst < |m'.regs| && m1.regs[moves[k].dst] == m'.regs[moves[k].src]
  }

  /** An operand that is left where the renumbering put it. */
  lemma ReadsPlaced(w: RegMax, used: seq<bool>, p: Placement, m: Machine, m1: Machine, r: Reg)
    requires p.down <= p.minReg && Tracks(w, used, p, m, m1) && GoodReg(w, used, r)
    ensures Read(w, m1, PlaceOperand(w, p, r)) == Read(w, m, r)
  {
  }

  /** After the moves the rewritten instruction reads what the original one reads. */
  lemma ReadsSameNarrow(w: RegMax, used: seq<bool>, p: Placement, start: nat, inst: Inst, m: Machine, m': Machine, m1: Machine, i: nat)
    requires p.down <= p.minReg && Tracks(w, used, p, m, m') && Tracks(w, used, p, m, m1)
    requires inst.Op? && inst.kind == Narrow && i < |inst.srcs| && GoodReg(w, used, inst.srcs[i])
    requires MovesDone(MovesBefore(w, start, PlaceInst(w, p, inst)), m', m1)
    ensures Read(w, m1, SpilledInst(w, start, PlaceInst(w, p, inst)).srcs[i]) == Read(w, m, inst.srcs[i])
  {
    var placed := PlaceInst(w, p, inst);
    var moves := MovesBefore(w, start, placed);
    NarrowMovesFacts(w, placed.srcs, |placed.srcs|);
    ReadsPlaced(w, used, p, m, m', inst.srcs[i]);
    ReadsPlaced(w, used, p, m, m1, inst.srcs[i]);
    assert SpilledInst(w, start, placed).srcs[i] == NarrowSrc(w, moves, placed.srcs[i]);
    if NeedsSpill(w, placed.srcs[i]) {
      assert Spilled(moves, placed.srcs[i]);
      var k :| 0 <= k < |moves| && moves[k].src == placed.srcs[i] && moves[k].dst == TempOf(moves, placed.srcs[i]);
    }
  }

  lemma ReadsSameRange(w: RegMax, used: seq<bool>, p: Placement, start: nat, inst: Inst, m: Machine, m': Machine, m1: Machine, i: nat)
    requires p.down <= p.minReg && Tracks(w, used, p, m, m') && Tracks(w, used, p, m, m1)
    requires RangeShape(inst) && i < |inst.srcs| && GoodReg(w, used, inst.srcs[i])
    requires MovesDone(MovesBefore(w, start, PlaceInst(w, p, inst)), m', m1)
    ensures Read(w, m1, SpilledInst(w, start, PlaceInst(w, p, inst)).srcs[i]) == Read(w, m, inst.srcs[i])
  {
    var placed := PlaceInst(w, p, inst);
    var moves := MovesBefore(w, start, placed);
    ReadsPlaced(w, used, p, m, m', inst.srcs[i]);
    ReadsPlaced(w, used, p, m, m1, inst.srcs[i]);
    assert SpilledInst(w, start, placed).srcs[i] == RangeSrc(placed, start, NumArgs(placed), i);
    if i < NumArgs(inst) && !IsAccPosition(inst, i) {
      var k := Slot(placed, i);
      assert Position(placed, k) == i;
      assert moves[k] == Move(placed.srcs[i], start + k);
    }
  }

  lemma ReadsSame(w: RegMax, used: seq<bool>, p: Placement, start: nat, inst: Inst, m: Machine, m': Machine, m1: Machine)
    requires p.down <= p.minReg && Tracks(w, used, p, m, m') && Tracks(w, used, p, m, m1)
    requires GoodInst(w, used, inst) && inst.Op?
    requires MovesDone(MovesBefore(w, start, PlaceInst(w, p, inst)), m', m1)
    ensures ReadAll(w, m1, SpilledInst(w, start, PlaceInst(w, p, inst)).srcs) == ReadAll(w, m, inst.srcs)
  {
    var srcs' := SpilledInst(w, start, PlaceInst(w, p, inst)).srcs;
    forall i | 0 <= i < |inst.srcs|
      ensures Read(w, m1, srcs'[i]) == Read(w, m, inst.srcs[i])
    {
      assert GoodReg(w, used, inst.srcs[i]);
      match inst.kind
      case Narrow => ReadsSameNarrow(w, used, p, start, inst, m, m', m1, i);
      case Range => ReadsSameRange(w, used, p, start, inst, m, m', m1, i);
      case Plain => ReadsPlaced(w, used, p, m, m1, inst.srcs[i]);
    }
  }

  /** The moves can be made in any order. */
  lemma MovesReordered(w: RegMax, used: seq<bool>, p: Placement, start: nat, window: nat, inst: Inst, moves: seq<Move>, regs: seq<int>)
    requires SafePlacement(w, used, p, start, window) && Ready(w, used, p, window, inst) && |regs| == FrameSize(w)
    requires multiset(moves) == multiset(MovesBefore(w, start, PlaceInst(w, p, inst)))
    ensures ExecMoves(moves, regs) == ExecMoves(MovesBefore(w, start, PlaceInst(w, p, inst)), regs)
  {
    hide MovesBefore, PlaceInst, GoodInst;
    var listed := MovesBefore(w, start, PlaceInst(w, p, inst));
    SpillTargets(w, used, p, start, window, inst);
    MovesInAnyOrder(listed, moves, regs);
  }

  lemma SpillTargets(w: RegMax, used: seq<bool>, p: Placement, start: nat, window: nat, inst: Inst)
    requires SafePlacement(w, used, p, start, window) && Ready(w, used, p, window, inst)
    ensures CleanMoves(w, used, p, start, window, MovesBefore(w, start, PlaceInst(w, p, inst)))
  {
    hide CleanMoves;
    if inst.Op? && inst.kind == Range {
      SpillTargetsRange(w, used, p, start, window, inst);
    } else if inst.Op? && inst.kind == Narrow {
      SpillTargetsNarrow(w, used, p, start, window, inst);
    } else {
      NoMovesAreClean(w, used, p, start, window);
    }
  }

  lemma NoMovesAreClean(w: RegMax, used: seq<bool>, p: Placement, start: nat, window: nat)
    requires p.down <= p.minReg
    ensures CleanMoves(w, used, p, start, window, [])
  {
  }

  lemma ExecTwo(w: RegMax, sem: Semantics, first: Inst, last: Inst, m: Machine)
    ensures ExecBlock(w, sem, [first, last], m) == Exec(w, sem, last, Exec(w, sem, first, m))
    ensures ExecBlock(w, sem, [last], m) == Exec(w, sem, last, m)
  {
    hide Exec;
    assert [first, last][1..] == [last] && [last][1..] == [];
    var n := Exec(w, sem, first, m);
    assert ExecBlock(w, sem, [last], n) == ExecBlock(w, sem, [], Exec(w, sem, last, n));
    assert ExecBlock(w, sem, [first, last], m) == ExecBlock(w, sem, [last], n);
  }

  /** Whatever order the moves came in, the instruction runs after all of them. */
  lemma ExecSpilled(w: RegMax, sem: Semantics, used: seq<bool>, p: Placement, start: nat, window: nat, inst: Inst, out: seq<Inst>, m': Machine)
    requires SafePlacement(w, used, p, start, window) && Ready(w, used, p, window, inst) && |m'.regs| == FrameSize(w)
    requires SpillsInst(w, start, PlaceInst(w, p, inst), out)
    ensures var placed := PlaceInst(w, p, inst);
            ExecBlock(w, sem, out, m') ==
            Exec(w, sem, SpilledInst(w, start, placed), m'.(regs := ExecMoves(MovesBefore(w, start, placed), m'.regs)))
  {
    hide Ready, PlaceInst, MovesBefore, SpilledInst, ExecBlock;
    var placed := PlaceInst(w, p, inst);
    var last := SpilledInst(w, start, placed);
    if MovesBefore(w, start, placed) == [] {
      ExecTwo(w, sem, last, last, m');
    } else {
      assert out == [out[0], last];
      ExecTwo(w, sem, out[0], last, m');
      MovesReordered(w, used, p, start, window, inst, out[0].moves, m'.regs);
    }
  }

  /** One original instruction and the instructions that replaced it. */
  lemma SimulateInst(w: RegMax, sem: Semantics, used: seq<bool>, p: Placement, start: nat, window: nat, inst: Inst, out: seq<Inst>, m: Machine, m': Machine)
    requires SafePlacement(w, used, p, start, window) && Tracks(w, used, p, m, m')
    requires Ready(w, used, p, window, inst) && p.up <= COMPACT_REGS
    requires SpillsInst(w, start, PlaceInst(w, p, inst), out)
    ensures Tracks(w, used, p, Exec(w, sem, inst, m), ExecBlock(w, sem, out, m'))
  {
    hide SpillsInst, ExecBlock;
    var placed := PlaceInst(w, p, inst);
    ExecSpilled(w, sem, used, p, start, window, inst, out, m');
    match inst
    case Phi(_) =>
    case SpillFill(ms) => TracksMoves(w, used, p, start, window, ms, m, m');
    case Op(id, _, dst, srcs, _, _) =>
      var m1 := m'.(regs := ExecMoves(MovesBefore(w, start, placed), m'.regs));
      TracksSpills(w, used, p, start, window, inst, m, m');
      ReadsSame(w, used, p, start, inst, m, m', m1);
      if RealReg(w, used, dst) {
        TracksWrite(w, used, p, m, m1, start, window, dst, sem(id, ReadAll(w, m, srcs), m.acc).result);
      }
  }

  /** Everything RegEncoder has to get right about one function: code is the original,
      code' what it became, for a used-register mask, a placement and a range window. */
  ghost predicate Encodes(w: RegMax, used: seq<bool>, p: Placement, start: nat, window: nat, code: Code, code': Code) {
    && SafePlacement(w, used, p, start, window)
    && p.up <= COMPACT_REGS
    && SpillsCode(w, start, PlaceCode(w, p, code), code')
    && Needed(w, PlaceCode(w, p, code)) <= p.up
    && forall b, k :: 0 <= b < |code| && 0 <= k < |code[b]| ==> FitsWindow(window, code[b][k])
  }

  /** The last instruction's part of a block. */
  lemma SpillsBlockLast(w: RegMax, p: Placement, start: nat, block: seq<Inst>, out: seq<Inst>) returns (n: nat)
    requires p.down <= p.minReg && block != [] && SpillsBlock(w, start, PlaceBlock(w, p, block), out)
    ensures n <= |out| && SpillsBlock(w, start, PlaceBlock(w, p, block[..|block| - 1]), out[..n])
    ensures SpillsInst(w, start, PlaceInst(w, p, block[|block| - 1]), out[n..])
  {
    hide SpillsInst, SpillInst, PlaceInst;
    var placed, k := PlaceBlock(w, p, block), |block| - 1;
    assert placed[..k] == PlaceBlock(w, p, block[..k]) && placed[k] == PlaceInst(w, p, block[k]);
    n := |out| - |SpillInst(w, start, placed[k])|;
  }

  ghost predicate Ready(w: RegMax, used: seq<bool>, p: Placement, window: nat, inst: Inst)
    requires p.down <= p.minReg
  {
    GoodInst(w, used, inst) && FitsWindow(window, inst) && NeededForInst(w, PlaceInst(w, p, inst)) <= p.up
  }

  lemma {:induction false} SimulateBlock(w: RegMax, sem: Semantics, used: seq<bool>, p: Placement, start: nat, window: nat,
                                         block: seq<Inst>, out: seq<Inst>, m: Machine, m': Machine)
    requires SafePlacement(w, used, p, start, window) && Tracks(w, used, p, m, m') && p.up <= COMPACT_REGS
    requires forall k :: 0 <= k < |block| ==> Ready(w, used, p, window, block[k])
    requires SpillsBlock(w, start, PlaceBlock(w, p, block), out)
    ensures Tracks(w, used, p, ExecBlock(w, sem, block, m), ExecBlock(w, sem, out, m'))
  {
    hide Tracks, Ready, SpillsInst, PlaceInst, Exec;
    if block != [] {
      var k := |block| - 1;
      var init, last := block[..k], block[k];
      var n := SpillsBlockLast(w, p, start, block, out);
      SimulateBlock(w, sem, used, p, start, window, init, out[..n], m, m');
      assert block == init + [last] && out == out[..n] + out[n..];
      ExecBlockAppend(w, sem, init, [last], m);
      ExecBlockAppend(w, sem, out[..n], out[n..], m');
      var m1 := ExecBlock(w, sem, init, m);
      ExecTwo(w, sem, last, last, m1);
      SimulateInst(w, sem, used, p, start, window, last, out[n..], m1, ExecBlock(w, sem, out[..n], m'));
    }
  }

  lemma BlockReady(w: RegMax, used: seq<bool>, p: Placement, start: nat, window: nat, code: Code, code': Code, b: nat)
    requires GoodCode(w, used, code) && Encodes(w, used, p, start, window, code, code') && b < |code|
    ensures forall k :: 0 <= k < |code[b]| ==> Ready(w, used, p, window, code[b][k])
  {
    var block := code[b];
    var placed := PlaceCode(w, p, code);
    assert GoodBlock(w, used, block);
    NeededIsMax(w, placed);
    forall k | 0 <= k < |block|
      ensures Ready(w, used, p, window, block[k])
    {
      assert GoodInst(w, used, block[k]);
      assert placed[b][k] == PlaceInst(w, p, block[k]);
    }
  }

  lemma SimulateNthBlock(w: RegMax, sem: Semantics, used: seq<bool>, p: Placement, start: nat, window: nat,
                         code: Code, code': Code, b: nat, m: Machine, m': Machine)
    requires GoodCode(w, used, code) && Encodes(w, used, p, start, window, code, code')
    requires b < |code| && Tracks(w, used, p, m, m')
    ensures |code'| == |code|
    ensures Tracks(w, used, p, ExecBlock(w, sem, code[b], m), ExecBlock(w, sem, code'[b], m'))
  {
    var block := code[b];
    BlockReady(w, used, p, start, window, code, code', b);
    assert SpillsBlock(w, start, PlaceBlock(w, p, block), code'[b]);
    SimulateBlock(w, sem, used, p, start, window, block, code'[b], m, m');
  }

  /** Every register named by inst is special or inside the frame. */
  predicate InFrame(w: RegMax, inst: Inst) {
    match inst
    case Phi(dst) => IsSpecial(w, dst) || dst < FrameSize(w)
    case SpillFill(moves) => forall k :: 0 <= k < |moves| ==> moves[k].src < FrameSize(w) && moves[k].dst < FrameSize(w)
    case Op(_, _, dst, srcs, _, _) =>
      && (IsSpecial(w, dst) || dst < FrameSize(w))
      && forall k :: 0 <= k < |srcs| ==> IsSpecial(w, srcs[k]) || srcs[k] < FrameSize(w)
  }

  predicate WellEncoded(w: RegMax, start: Reg, window: nat, inst: Inst) {
    Encodable(w, start, window, inst) && InFrame(w, inst)
  }

  /** Moves into the temps and the window stay in the frame. */
  lemma MovesInFrame(w: RegMax, used: seq<bool>, p: Placement, start: nat, window: nat, inst: Inst)
    requires SafePlacement(w, used, p, start, window) && Ready(w, used, p, window, inst)
    ensures InFrame(w, SpillFill(MovesBefore(w, start, PlaceInst(w, p, inst))))
  {
    hide MovesBefore, PlaceInst, Ready;
    SpillTargets(w, used, p, start, window, inst);
  }

  lemma NarrowInFrame(w: RegMax, used: seq<bool>, p: Placement, start: nat, window: nat, inst: Inst, k: nat)
    requires SafePlacement(w, used, p, start, window) && Ready(w, used, p, window, inst)
    requires inst.Op? && inst.kind == Narrow && k < |inst.srcs|
    ensures var r := SpilledInst(w, start, PlaceInst(w, p, inst)).srcs[k]; IsSpecial(w, r) || r < FrameSize(w)
  {
    var placed := PlaceInst(w, p, inst);
    var moves := NarrowMoves(w, placed.srcs, |placed.srcs|);
    MovesInFrame(w, used, p, start, window, inst);
    assert GoodReg(w, used, inst.srcs[k]);
    assert SpilledInst(w, start, placed).srcs[k] == NarrowSrc(w, moves, placed.srcs[k]);
    hide NarrowMoves;
  }

  lemma RangeInFrame(w: RegMax, used: seq<bool>, p: Placement, start: nat, window: nat, inst: Inst, k: nat)
    requires SafePlacement(w, used, p, start, window) && Ready(w, used, p, window, inst)
    requires RangeShape(inst) && k < |inst.srcs|
    ensures var r := SpilledInst(w, start, PlaceInst(w, p, inst)).srcs[k]; IsSpecial(w, r) || r < FrameSize(w)
  {
    var placed := PlaceInst(w, p, inst);
    assert GoodReg(w, used, inst.srcs[k]);
    assert SpilledInst(w, start, placed).srcs[k] == RangeSrc(placed, start, NumArgs(placed), k);
  }

  lemma SpilledInFrame(w: RegMax, used: seq<bool>, p: Placement, start: nat, window: nat, inst: Inst)
    requires SafePlacement(w, used, p, start, window) && Ready(w, used, p, window, inst)
    ensures InFrame(w, SpilledInst(w, start, PlaceInst(w, p, inst)))
  {
    var spilled := SpilledInst(w, start, PlaceInst(w, p, inst));
    if inst.Op? {
      forall k | 0 <= k < |inst.srcs|
        ensures IsSpecial(w, spilled.srcs[k]) || spilled.srcs[k] < FrameSize(w)
      {
        assert GoodReg(w, used, inst.srcs[k]);
        match inst.kind
        case Narrow => NarrowInFrame(w, used, p, start, window, inst, k);
        case Range => RangeInFrame(w, used, p, start, window, inst, k);
        case Plain =>
      }
    }
  }

  lemma InstWellEncoded(w: RegMax, used: seq<bool>, p: Placement, start: nat, window: nat, inst: Inst, out: seq<Inst>, k: nat)
    requires SafePlacement(w, used, p, start, window) && p.up <= COMPACT_REGS && Ready(w, used, p, window, inst)
    requires SpillsInst(w, start, PlaceInst(w, p, inst), out) && k < |out|
    ensures WellEncoded(w, start, window, out[k])
  {
    hide GoodInst, FitsWindow, PlaceInst, MovesBefore, SpilledInst;
    SpilledIsEncodable(w, used, p, start, window, inst);
    SpilledInFrame(w, used, p, start, window, inst);
    MovesInFrame(w, used, p, start, window, inst);
    if MovesBefore(w, start, PlaceInst(w, p, inst)) != [] {
      SameElements(out[0].moves, MovesBefore(w, start, PlaceInst(w, p, inst)));
    }
  }

  lemma {:induction false} BlockWellEncoded(w: RegMax, used: seq<bool>, p: Placement, start: nat, window: nat, block: seq<Inst>, out: seq<Inst>, k: nat)
    requires SafePlacement(w, used, p, start, window) && p.up <= COMPACT_REGS
    requires forall k :: 0 <= k < |block| ==> Ready(w, used, p, window, block[k])
    requires SpillsBlock(w, start, PlaceBlock(w, p, block), out) && k < |out|
    ensures WellEncoded(w, start, window, out[k])
  {
    hide Ready, SpillsInst, WellEncoded, PlaceInst;
    if block != [] {
      var n := SpillsBlockLast(w, p, start, block, out);
      if k < n {
        BlockWellEncoded(w, used, p, start, window, block[..|block| - 1], out[..n], k);
      } else {
        InstWellEncoded(w, used, p, start, window, block[|block| - 1], out[n..], k - n);
      }
    }
  }

  /** After a successful run every instruction of the function can be encoded: narrow operands
      fit four bits, range operands are consecutive inside the window, and no renumbering has
      left the frame. */
  lemma CodeWellEncoded(w: RegMax, used: seq<bool>, p: Placement, start: nat, window: nat, code: Code, code': Code, b: nat, k: nat)
    requires GoodCode(w, used, code) && Encodes(w, used, p, start, window, code, code')
    requires b < |code'| && k < |code'[b]|
    ensures WellEncoded(w, start, window, code'[b][k])
  {
    var block := code[b];
    BlockReady(w, used, p, start, window, code, code', b);
    assert SpillsBlock(w, start, PlaceBlock(w, p, block), code'[b]);
    BlockWellEncoded(w, used, p, start, window, block, code'[b], k);
  }

  /** Block by block, code' does what code does. */
  ghost predicate BlocksTrack(w: RegMax, sem: Semantics, used: seq<bool>, p: Placement, code: Code, code': Code)
    requires p.down <= p.minReg
  {
    && |code| == |code'|
    && forall b: nat, m: Machine, m': Machine :: b < |code| && Tracks(w, used, p, m, m') ==>
         Tracks(w, used, p, ExecBlock(w, sem, code[b], m), ExecBlock(w, sem, code'[b], m'))
  }

  lemma {:induction false} RunsTrack(w: RegMax, sem: Semantics, next: Successors, used: seq<bool>, p: Placement,
                                     code: Code, code': Code, c: Config, c': Config, n: nat)
    requires p.down <= p.minReg && BlocksTrack(w, sem, used, p, code, code')
    requires c.block == c'.block && Tracks(w, used, p, c.machine, c'.machine)
    ensures Run(w, sem, next, code, c, n).block == Run(w, sem, next, code', c', n).block
    ensures Tracks(w, used, p, Run(w, sem, next, code, c, n).machine, Run(w, sem, next, code', c', n).machine)
    decreases n
  {
    if n > 0 && c.block < |code| {
      var m, m' := ExecBlock(w, sem, code[c.block], c.machine), ExecBlock(w, sem, code'[c.block], c'.machine);
      assert Tracks(w, used, p, m, m');
      RunsTrack(w, sem, next, used, p, code, code', Config(next(c.block, m.branch), m), Config(next(c.block, m'.branch), m'), n - 1);
    }
  }

  /** Every run of the rewritten code, inserted moves included, tracks the original run:
      block by block the same values are read and every used register is at its new place. */
  lemma Simulation(w: RegMax, sem: Semantics, next: Successors, used: seq<bool>, p: Placement,
                   start: nat, window: nat, code: Code, code': Code, c: Config, c': Config, n: nat)
    requires GoodCode(w, used, code) && Encodes(w, used, p, start, window, code, code')
    requires c.block == c'.block && Tracks(w, used, p, c.machine, c'.machine)
    ensures Run(w, sem, next, code, c, n).block == Run(w, sem, next, code', c', n).block
    ensures Tracks(w, used, p, Run(w, sem, next, code, c, n).machine, Run(w, sem, next, code', c', n).machine)
  {
    forall b: nat, m: Machine, m': Machine | b < |code| && Tracks(w, used, p, m, m')
      ensures Tracks(w, used, p, ExecBlock(w, sem, code[b], m), ExecBlock(w, sem, code'[b], m'))
    {
      SimulateNthBlock(w, sem, used, p, start, window, code, code', b, m, m');
    }
    RunsTrack(w, sem, next, used, p, code, code', c, c', n);
  }
}

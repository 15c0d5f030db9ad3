/** What RegEncoder does to registers and instructions, as functions, and why the rewritten
    code computes what the original did (bytecode_optimizer/reg_encoder.cpp). */
module RegEncoding {
  import opened BytecodeIr

  // ----- renumbering (RenumberReg, RenumberSpillFillRegs, RenumberRegs) -----

  function RenumberReg(w: RegMax, r: Reg, delta: nat): Reg {
    if r == AccReg(w) then r else ToRegister(w, r + delta)
  }

  function RenumberOperand(w: RegMax, r: Reg, minReg: nat, delta: nat): Reg {
    if !IsSpecial(w, r) && r >= minReg then RenumberReg(w, r, delta) else r
  }

  function RenumberLocation(w: RegMax, r: Reg, minReg: nat, delta: nat): Reg {
    if r >= minReg then RenumberReg(w, r, delta) else r
  }

  function RenumberMove(w: RegMax, m: Move, minReg: nat, delta: nat): Move {
    Move(RenumberLocation(w, m.src, minReg, delta), RenumberLocation(w, m.dst, minReg, delta))
  }

  function RenumberMoves(w: RegMax, moves: seq<Move>, minReg: nat, delta: nat): seq<Move> {
    seq(|moves|, k requires 0 <= k < |moves| => RenumberMove(w, moves[k], minReg, delta))
  }

  function RenumberOperands(w: RegMax, srcs: seq<Reg>, minReg: nat, delta: nat): seq<Reg> {
    seq(|srcs|, k requires 0 <= k < |srcs| => RenumberOperand(w, srcs[k], minReg, delta))
  }

  function RenumberInst(w: RegMax, inst: Inst, minReg: nat, delta: nat): Inst {
    match inst
    case Phi(dst) => Phi(RenumberOperand(w, dst, minReg, delta))
    case SpillFill(moves) => SpillFill(RenumberMoves(w, moves, minReg, delta))
    case Op(_, _, dst, srcs, _, _) =>
      inst.(dst := RenumberOperand(w, dst, minReg, delta), srcs := RenumberOperands(w, srcs, minReg, delta))
  }

  function RenumberBlock(w: RegMax, block: seq<Inst>, minReg: nat, delta: nat): seq<Inst> {
    seq(|block|, k requires 0 <= k < |block| => RenumberInst(w, block[k], minReg, delta))
  }

  function RenumberCode(w: RegMax, code: Code, minReg: nat, delta: nat): Code {
    seq(|code|, b requires 0 <= b < |code| => RenumberBlock(w, code[b], minReg, delta))
  }

  // ----- where every original register ends up -----

  /** Registers from minReg on moved down, then everything moved up. */
  datatype Placement = Placement(minReg: nat, down: nat, up: nat) {
    function Place(r: Reg): Reg
      requires down <= minReg
    {
      (if r >= minReg then r - down else r) + up
    }
  }

  function PlaceOperand(w: RegMax, p: Placement, r: Reg): Reg
    requires p.down <= p.minReg
  {
    if IsSpecial(w, r) then r else p.Place(r)
  }

  function PlaceMoves(p: Placement, moves: seq<Move>): seq<Move>
    requires p.down <= p.minReg
  {
    seq(|moves|, k requires 0 <= k < |moves| => Move(p.Place(moves[k].src), p.Place(moves[k].dst)))
  }

  function PlaceOperands(w: RegMax, p: Placement, srcs: seq<Reg>): seq<Reg>
    requires p.down <= p.minReg
  {
    seq(|srcs|, k requires 0 <= k < |srcs| => PlaceOperand(w, p, srcs[k]))
  }

  function PlaceInst(w: RegMax, p: Placement, inst: Inst): Inst
    requires p.down <= p.minReg
  {
    match inst
    case Phi(dst) => Phi(PlaceOperand(w, p, dst))
    case SpillFill(moves) => SpillFill(PlaceMoves(p, moves))
    case Op(_, _, dst, srcs, _, _) =>
      inst.(dst := PlaceOperand(w, p, dst), srcs := PlaceOperands(w, p, srcs))
  }

  function PlaceBlock(w: RegMax, p: Placement, block: seq<Inst>): seq<Inst>
    requires p.down <= p.minReg
  {
    seq(|block|, k requires 0 <= k < |block| => PlaceInst(w, p, block[k]))
  }

  function PlaceCode(w: RegMax, p: Placement, code: Code): Code
    requires p.down <= p.minReg
  {
    seq(|code|, b requires 0 <= b < |code| => PlaceBlock(w, p, code[b]))
  }

  /** The used registers keep clear of the spill temps [0, up), of the range window
      [start, start + window) and of one another, and stay inside the frame. */
  ghost predicate SafePlacement(w: RegMax, used: seq<bool>, p: Placement, start: nat, window: nat) {
    && p.down <= p.minReg
    && p.up <= start
    && start + window <= FrameSize(w)
    && (forall r: Reg :: RealReg(w, used, r) ==>
          p.up <= p.Place(r) < FrameSize(w) && !(start <= p.Place(r) < start + window))
    && (forall r: Reg, s: Reg :: RealReg(w, used, r) && RealReg(w, used, s) && p.Place(r) == p.Place(s) ==> r == s)
  }

  /** Adding delta modulo the width is how RenumberRegs moves registers down. */
  lemma RenumberMovesDown(w: RegMax, used: seq<bool>, code: Code, minReg: nat, down: nat)
    requires 0 < down <= minReg && down <= w
    requires GoodCode(w, used, code)
    ensures RenumberCode(w, code, minReg, ToRegister(w, 0 - down)) == PlaceCode(w, Placement(minReg, down, 0), code)
  {
    var p := Placement(minReg, down, 0);
    var delta := ToRegister(w, 0 - down);
    forall r: Reg | RealReg(w, used, r)
      ensures RenumberLocation(w, r, minReg, delta) == RenumberOperand(w, r, minReg, delta) == p.Place(r)
    {
      WrapDown(w, r, down);
    }
    PlaceNothing(w, code, 0);
    SameRenumbering(w, used, code, code, minReg, delta, Placement(0, 0, 0), p);
  }

  lemma WrapDown(w: RegMax, r: nat, down: nat)
    requires 0 < down <= w && r < w
    ensures ToRegister(w, 0 - down) == w + 1 - down
    ensures r >= down ==> ToRegister(w, r + ToRegister(w, 0 - down)) == r - down
  {
    assert (0 - down) % (w + 1) == w + 1 - down by {
      assert 0 - down == -1 * (w + 1) + (w + 1 - down);
      RemainderIs(0 - down, w + 1, -1, w + 1 - down);
    }
    if r >= down {
      assert r + (w + 1 - down) == 1 * (w + 1) + (r - down);
      RemainderIs(r + (w + 1 - down), w + 1, 1, r - down);
    }
  }

  lemma RemainderIs(x: int, m: int, q: int, rem: int)
    requires m > 0 && x == q * m + rem && 0 <= rem < m
    ensures x % m == rem
  {
    var d, e := x / m, x % m;
    assert x == d * m + e;
    assert (q - d) * m == e - rem;
    assert q - d >= 1 ==> (q - d) * m >= m;
    assert q - d <= -1 ==> (q - d) * m <= -m;
  }

  /** A renumbering that agrees with going from placement p to placement q on the used
      registers does so on the code. */
  lemma SameRenumbering(w: RegMax, used: seq<bool>, code: Code, placed: Code, minReg: nat, delta: nat,
                        p: Placement, q: Placement)
    requires p.down <= p.minReg && q.down <= q.minReg
    requires GoodCode(w, used, code) && placed == PlaceCode(w, p, code)
    requires forall r: Reg :: RealReg(w, used, r) ==>
               && !IsSpecial(w, p.Place(r))
               && RenumberLocation(w, p.Place(r), minReg, delta) == q.Place(r)
    ensures RenumberCode(w, placed, minReg, delta) == PlaceCode(w, q, code)
  {
    forall b | 0 <= b < |code|
      ensures RenumberBlock(w, placed[b], minReg, delta) == PlaceBlock(w, q, code[b])
    {
      assert GoodBlock(w, used, code[b]);
      forall k | 0 <= k < |code[b]|
        ensures RenumberInst(w, placed[b][k], minReg, delta) == PlaceInst(w, q, code[b][k])
      {
        assert GoodInst(w, used, code[b][k]);
        SameRenumberingInst(w, used, code[b][k], minReg, delta, p, q);
      }
    }
  }

  lemma SameRenumberingInst(w: RegMax, used: seq<bool>, inst: Inst, minReg: nat, delta: nat,
                            p: Placement, q: Placement)
    requires p.down <= p.minReg && q.down <= q.minReg
    requires GoodInst(w, used, inst)
    requires forall r: Reg :: RealReg(w, used, r) ==>
               && !IsSpecial(w, p.Place(r))
               && RenumberLocation(w, p.Place(r), minReg, delta) == q.Place(r)
    ensures RenumberInst(w, PlaceInst(w, p, inst), minReg, delta) == PlaceInst(w, q, inst)
  {
    var placed := PlaceInst(w, p, inst);
    match inst
    case Phi(_) =>
    case SpillFill(moves) =>
      assert RenumberMoves(w, placed.moves, minReg, delta) == PlaceMoves(q, moves);
    case Op(_, _, _, srcs, _, _) =>
      assert RenumberOperands(w, placed.srcs, minReg, delta) == PlaceOperands(w, q, srcs);
  }

  /** Moving everything up once more, as long as the frame is not left. */
  lemma RenumberMovesUp(w: RegMax, used: seq<bool>, code: Code, p: Placement, delta: nat)
    requires p.down <= p.minReg && GoodCode(w, used, code)
    requires forall r: Reg :: RealReg(w, used, r) ==> p.Place(r) + delta < FrameSize(w)
    ensures RenumberCode(w, PlaceCode(w, p, code), 0, delta) == PlaceCode(w, p.(up := p.up + delta), code)
  {
    var q := p.(up := p.up + delta);
    forall r: Reg | RealReg(w, used, r)
      ensures RenumberLocation(w, p.Place(r), 0, delta) == q.Place(r)
    {
      RemainderIs(p.Place(r) + delta, w + 1, 0, p.Place(r) + delta);
    }
    SameRenumbering(w, used, code, PlaceCode(w, p, code), 0, delta, p, q);
  }

  lemma PlaceNothing(w: RegMax, code: Code, minReg: nat)
    ensures PlaceCode(w, Placement(minReg, 0, 0), code) == code
  {
    var p := Placement(minReg, 0, 0);
    forall b | 0 <= b < |code|
      ensures PlaceBlock(w, p, code[b]) == code[b]
    {
      forall k | 0 <= k < |code[b]|
        ensures PlaceInst(w, p, code[b][k]) == code[b][k]
      {
        match code[b][k]
        case Phi(_) =>
        case SpillFill(moves) => assert PlaceMoves(p, moves) == moves;
        case Op(_, _, _, srcs, _, _) => assert PlaceOperands(w, p, srcs) == srcs;
      }
    }
  }

  // ----- how many temps are needed (CalculateNumNeededTemps) -----

  function Max(a: nat, b: nat): nat { if a < b then b else a }

  function CountSpills(w: RegMax, srcs: seq<Reg>): (n: nat)
    ensures n <= |srcs|
  {
    if srcs == [] then 0
    else CountSpills(w, srcs[..|srcs| - 1]) + (if NeedsSpill(w, srcs[|srcs| - 1]) then 1 else 0)
  }

  function NeededForInst(w: RegMax, inst: Inst): nat {
    if inst.Op? && inst.kind == Narrow then CountSpills(w, inst.srcs) else 0
  }

  function NeededForBlock(w: RegMax, block: seq<Inst>): nat {
    if block == [] then 0
    else Max(NeededForBlock(w, block[..|block| - 1]), NeededForInst(w, block[|block| - 1]))
  }

  function Needed(w: RegMax, code: Code): nat {
    if code == [] then 0
    else Max(Needed(w, code[..|code| - 1]), NeededForBlock(w, code[|code| - 1]))
  }

  /** The same count without renumbering anything: how many temps code needs when its
      registers sit where p puts them, whether or not they fit the frame there. */
  ghost predicate DemandsAtLeast(w: RegMax, code: Code, p: Placement, n: nat)
    requires p.down <= p.minReg
  {
    n == 0 || exists b, k :: 0 <= b < |code| && 0 <= k < |code[b]| && DemandOfInst(w, code[b][k], p) >= n
  }

  ghost function DemandOfInst(w: RegMax, inst: Inst, p: Placement): nat
    requires p.down <= p.minReg
  {
    if inst.Op? && inst.kind == Narrow then |HighOperands(w, inst.srcs, p)| else 0
  }

  /** Operand positions whose register ends up beyond the four-bit range. */
  ghost function HighOperands(w: RegMax, srcs: seq<Reg>, p: Placement): set<nat>
    requires p.down <= p.minReg
  {
    set i: nat | i < |srcs| && !IsSpecial(w, srcs[i]) && p.Place(srcs[i]) >= 16
  }

  /** n is exactly what code needs under placement p. */
  ghost predicate Demands(w: RegMax, code: Code, p: Placement, n: nat)
    requires p.down <= p.minReg
  {
    DemandsAtLeast(w, code, p, n) && !DemandsAtLeast(w, code, p, n + 1)
  }

  lemma NoHighOperands(w: RegMax, srcs: seq<Reg>, p: Placement)
    requires p.down <= p.minReg && srcs == []
    ensures HighOperands(w, srcs, p) == {}
  {
  }

  lemma {:induction false} CountIsHighOperands(w: RegMax, used: seq<bool>, srcs: seq<Reg>, p: Placement)
    requires p.down <= p.minReg
    requires forall k :: 0 <= k < |srcs| ==> GoodReg(w, used, srcs[k])
    requires forall r: Reg :: RealReg(w, used, r) ==> p.Place(r) < FrameSize(w)
    ensures CountSpills(w, PlaceOperands(w, p, srcs)) == |HighOperands(w, srcs, p)|
  {
    hide HighOperands;
    if srcs == [] {
      NoHighOperands(w, srcs, p);
    } else {
      var n := |srcs| - 1;
      var init := srcs[..n];
      CountIsHighOperands(w, used, init, p);
      assert PlaceOperands(w, p, srcs)[..n] == PlaceOperands(w, p, init);
      assert GoodReg(w, used, srcs[n]);
      HighMore(w, srcs, p);
    }
  }

  lemma HighMore(w: RegMax, srcs: seq<Reg>, p: Placement)
    requires p.down <= p.minReg && srcs != []
    ensures var n := |srcs| - 1;
            var high := HighOperands(w, srcs[..n], p);
            n !in high && HighOperands(w, srcs, p) == if !IsSpecial(w, srcs[n]) && p.Place(srcs[n]) >= 16 then high + {n} else high
  {
    hide IsSpecial;
    var n := |srcs| - 1;
    assert forall i :: 0 <= i < n ==> srcs[..n][i] == srcs[i];
  }

  lemma {:induction false} NeededBlockIsMax(w: RegMax, block: seq<Inst>)
    ensures forall k :: 0 <= k < |block| ==> NeededForInst(w, block[k]) <= NeededForBlock(w, block)
    ensures NeededForBlock(w, block) == 0 || exists k :: 0 <= k < |block| && NeededForInst(w, block[k]) == NeededForBlock(w, block)
  {
    if block != [] {
      var n := |block| - 1;
      NeededBlockIsMax(w, block[..n]);
      assert forall k :: 0 <= k < n ==> block[..n][k] == block[k];
    }
  }

  lemma {:induction false} NeededIsMax(w: RegMax, code: Code)
    ensures forall b, k :: 0 <= b < |code| && 0 <= k < |code[b]| ==> NeededForInst(w, code[b][k]) <= Needed(w, code)
    ensures Needed(w, code) == 0
            || exists b, k :: 0 <= b < |code| && 0 <= k < |code[b]| && NeededForInst(w, code[b][k]) == Needed(w, code)
  {
    if code != [] {
      var n := |code| - 1;
      NeededIsMax(w, code[..n]);
      NeededBlockIsMax(w, code[n]);
      assert forall b :: 0 <= b < n ==> code[..n][b] == code[b];
      forall b, k | 0 <= b < |code| && 0 <= k < |code[b]|
        ensures NeededForInst(w, code[b][k]) <= Needed(w, code)
      {
        if b < n { assert code[..n][b] == code[b]; }
      }
    }
  }

  /** What CalculateNumNeededTemps finds in renumbered code is the demand of the placement. */
  lemma NeededIsDemand(w: RegMax, used: seq<bool>, code: Code, p: Placement)
    requires p.down <= p.minReg && GoodCode(w, used, code)
    requires forall r: Reg :: RealReg(w, used, r) ==> p.Place(r) < FrameSize(w)
    ensures Demands(w, code, p, Needed(w, PlaceCode(w, p, code)))
    ensures Needed(w, PlaceCode(w, p, code)) <= MAX_NARROW_INPUTS
  {
    var placed := PlaceCode(w, p, code);
    NeededIsMax(w, placed);
    forall b, k | 0 <= b < |code| && 0 <= k < |code[b]|
      ensures NeededForInst(w, placed[b][k]) == DemandOfInst(w, code[b][k], p)
    {
      assert GoodBlock(w, used, code[b]);
      var inst := code[b][k];
      assert GoodInst(w, used, inst);
      if inst.Op? && inst.kind == Narrow {
        CountIsHighOperands(w, used, inst.srcs, p);
      }
    }
    var n := Needed(w, placed);
    if n != 0 {
      var b, k :| 0 <= b < |placed| && 0 <= k < |placed[b]| && NeededForInst(w, placed[b][k]) == n;
      assert DemandOfInst(w, code[b][k], p) == n;
      assert GoodBlock(w, used, code[b]);
      assert GoodInst(w, used, code[b][k]);
    }
    assert forall b, k :: 0 <= b < |code| && 0 <= k < |code[b]| ==> DemandOfInst(w, code[b][k], p) <= n;
  }

  /** Moving registers up never lowers the demand. */
  lemma DemandGrows(w: RegMax, code: Code, p: Placement, q: Placement, n: nat)
    requires p.down <= p.minReg && q == p.(up := q.up) && p.up <= q.up
    requires DemandsAtLeast(w, code, p, n)
    ensures DemandsAtLeast(w, code, q, n)
  {
    if n > 0 {
      var b, k :| 0 <= b < |code| && 0 <= k < |code[b]| && DemandOfInst(w, code[b][k], p) >= n;
      var inst := code[b][k];
      assert HighOperands(w, inst.srcs, p) <= HighOperands(w, inst.srcs, q);
      SubsetSize(HighOperands(w, inst.srcs, p), HighOperands(w, inst.srcs, q));
    }
  }

  lemma SubsetSize(a: set<nat>, b: set<nat>)
    requires a <= b
    ensures |a| <= |b|
  {
    assert b == a + (b - a);
  }

  lemma DemandIsUnique(w: RegMax, code: Code, p: Placement, m: nat, n: nat)
    requires p.down <= p.minReg && Demands(w, code, p, m) && DemandsAtLeast(w, code, p, n)
    ensures n <= m
  {
    if n > 0 {
      var b, k :| 0 <= b < |code| && 0 <= k < |code[b]| && DemandOfInst(w, code[b][k], p) >= n;
      assert DemandOfInst(w, code[b][k], p) <= m;
    }
  }
}

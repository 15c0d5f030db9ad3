/** The pass itself: bytecode_optimizer/reg_encoder.cpp, RegEncoder::RunImpl and the steps it
    is made of, on the graph's code, usage mask and slot count. */
module RegEncoderPass {
  import opened BytecodeIr
  import opened RegEncoding
  import opened Options
  import opened RegSpills

  /** The frame as register allocation leaves it (reg_encoder.h): locals, free registers,
      allocator temps, arguments. Locals and temps have no holes. Without free registers
      everything below the arguments counts as locals. */
  ghost predicate DenseLayout(w: RegMax, used: seq<bool>, numArgs: nat, locals: nat, temps: nat) {
    && |used| == FrameSize(w)
    && locals + temps + numArgs <= FrameSize(w)
    && (locals + temps + numArgs == FrameSize(w) ==> temps == 0)
    && (forall r :: 0 <= r < locals ==> used[r])
    && (forall r :: locals <= r < FrameSize(w) - numArgs - temps ==> !used[r])
    && (forall r :: FrameSize(w) - numArgs - temps <= r < FrameSize(w) - numArgs ==> used[r])
  }

  /** Temps and arguments move down until only the range window separates them from the locals. */
  ghost function BasePlacement(w: RegMax, numArgs: nat, locals: nat, temps: nat, window: nat): (p: Placement)
    requires locals + temps + window + numArgs <= FrameSize(w)
    ensures p.down <= p.minReg
  {
    Placement(FrameSize(w) - numArgs - temps, FrameSize(w) - numArgs - locals - temps - window, 0)
  }

  /** The mask that marks the first temps and exactly the new places of the used registers. */
  ghost function ImageMask(w: RegMax, used: seq<bool>, p: Placement, temps: nat): (mask: seq<bool>)
    requires p.down <= p.minReg
    ensures |mask| == FrameSize(w)
  {
    seq(FrameSize(w), q requires 0 <= q < FrameSize(w) => q < temps || IsPlace(w, used, p, q))
  }

  ghost predicate PlacedBelow(w: RegMax, used: seq<bool>, p: Placement, n: nat)
    requires p.down <= p.minReg
  {
    forall r: Reg :: RealReg(w, used, r) ==> p.Place(r) < n
  }

  lemma BasePlacementIsSafe(w: RegMax, used: seq<bool>, numArgs: nat, locals: nat, temps: nat, window: nat, up: nat)
    requires DenseLayout(w, used, numArgs, locals, temps)
    requires locals + temps + window + numArgs + up <= FrameSize(w)
    ensures var p := BasePlacement(w, numArgs, locals, temps, window).(up := up);
            && SafePlacement(w, used, p, locals + up, window)
            && PlacedBelow(w, used, p, locals + temps + window + numArgs + up)
            // locals keep their order at the bottom, temps and arguments theirs right after the window
            && (forall r: Reg :: RealReg(w, used, r) && r < locals ==> p.Place(r) == up + r)
            && (forall r: Reg :: RealReg(w, used, r) && r >= locals ==>
                  p.Place(r) == up + locals + window + (r - (FrameSize(w) - numArgs - temps)))
  {
  }

  /** after is before with everything from minReg on moved down, leaving free registers behind. */
  ghost predicate MovedDown(before: seq<bool>, after: seq<bool>, minReg: nat, down: nat) {
    && |after| == |before| && down <= minReg <= |after|
    && (forall q :: 0 <= q < minReg - down ==> after[q] == before[q])
    && (forall q :: minReg - down <= q < |after| - down ==> after[q] == before[q + down])
    && (forall q :: |after| - down <= q < |after| ==> !after[q])
  }

  /** The mask after everything from minReg on moved down by down. */
  lemma ShiftedDownIsImage(w: RegMax, used: seq<bool>, numArgs: nat, locals: nat, temps: nat, window: nat, mask: seq<bool>)
    requires DenseLayout(w, used, numArgs, locals, temps)
    requires locals + temps + window + numArgs <= FrameSize(w)
    requires var p := BasePlacement(w, numArgs, locals, temps, window);
             (mask == used && (p.down == 0 || p.minReg == FrameSize(w))) || MovedDown(used, mask, p.minReg, p.down)
    ensures mask == ImageMask(w, used, BasePlacement(w, numArgs, locals, temps, window), 0)
  {
    var p := BasePlacement(w, numArgs, locals, temps, window);
    forall q: Reg | q < |mask|
      ensures mask[q] == IsPlace(w, used, p, q)
    {
      if mask[q] {
        var r := if q < p.minReg - p.down || p.minReg == FrameSize(w) then q else q + p.down;
        assert RealReg(w, used, r) && p.Place(r) == q;
      }
    }
  }

  /** Moving the image up and filling the bottom gives the image of the raised placement. */
  lemma ShiftedUpIsImage(w: RegMax, used: seq<bool>, p: Placement, regs: nat, up: nat, before: seq<bool>, mask: seq<bool>)
    requires p.down <= p.minReg && p.up == 0 && before == ImageMask(w, used, p, 0)
    requires PlacedBelow(w, used, p, regs)
    requires regs + up <= FrameSize(w) == |mask|
    requires forall q :: 0 <= q < up ==> mask[q]
    requires forall q :: up <= q < regs + up ==> mask[q] == before[q - up]
    requires forall q :: regs + up <= q < |mask| ==> mask[q] == before[q]
    ensures mask == ImageMask(w, used, p.(up := up), up)
  {
    var p' := p.(up := up);
    forall q: Reg | q < |mask|
      ensures mask[q] == (q < up || IsPlace(w, used, p', q))
    {
      forall r: Reg | RealReg(w, used, r) ensures p'.Place(r) == p.Place(r) + up {}
      if up <= q < regs + up {
        assert mask[q] == IsPlace(w, used, p, q - up);
        if mask[q] {
          var r: Reg :| RealReg(w, used, r) && p.Place(r) == q - up;
          assert p'.Place(r) == q;
        }
      } else if q >= regs + up {
        assert !before[q];
      }
    }
  }

  /** A demand between two rounds of the reservation loop is no fixpoint. */
  lemma NoFixpointBetween(w: RegMax, code: Code, p: Placement, lo: nat, need: nat, t: nat)
    requires p.down <= p.minReg && Demands(w, code, p.(up := lo), need)
    requires lo <= t < need
    ensures !Demands(w, code, p.(up := t), t)
  {
    DemandGrows(w, code, p.(up := lo), p.(up := t), need);
    if Demands(w, code, p.(up := t), t) {
      DemandIsUnique(w, code, p.(up := t), t, need);
    }
  }

  /** CalculateNumNeededRangeTemps: the operand count of the widest range instruction. */
  method CalculateNumNeededRangeTemps(w: RegMax, code: Code, ghost used: seq<bool>) returns (ret: nat)
    requires GoodCode(w, used, code)
    ensures IsWindow(code, ret)
  {
    ret := 0;
    for b := 0 to |code|
      invariant forall i, k :: 0 <= i < b && 0 <= k < |code[i]| ==> FitsWindow(ret, code[i][k])
      invariant ret == 0 || exists i, k :: 0 <= i < |code| && 0 <= k < |code[i]| && RangeShape(code[i][k]) && NumArgs(code[i][k]) == ret
    {
      var block := code[b];
      assert GoodBlock(w, used, block);
      for j := 0 to |block|
        invariant forall i, k :: 0 <= i < b && 0 <= k < |code[i]| ==> FitsWindow(ret, code[i][k])
        invariant forall k :: 0 <= k < j ==> FitsWindow(ret, block[k])
        invariant ret == 0 || exists i, k :: 0 <= i < |code| && 0 <= k < |code[i]| && RangeShape(code[i][k]) && NumArgs(code[i][k]) == ret
      {
        var inst := block[j];
        assert GoodInst(w, used, inst);
        if inst.Op? && inst.kind == Range {
          var nargs := NumArgs(inst);
          if ret < nargs {
            RemainderIs(nargs, w + 1, 0, nargs);
            ret := ToRegister(w, nargs);
            assert inst == code[b][j];
          }
        }
      }
    }
  }

  method RenumberOneInst(w: RegMax, inst: Inst, minReg: nat, delta: nat) returns (res: Inst)
    ensures res == RenumberInst(w, inst, minReg, delta)
  {
    res := inst;
    match inst
    case Phi(dst) =>
      if !IsSpecial(w, dst) && dst >= minReg { res := Phi(RenumberReg(w, dst, delta)); }
    case SpillFill(_) =>
      var moves := inst.moves;
      for k := 0 to |moves|
        invariant |moves| == |inst.moves|
        invariant forall i :: 0 <= i < k ==> moves[i] == RenumberMove(w, inst.moves[i], minReg, delta)
        invariant forall i :: k <= i < |moves| ==> moves[i] == inst.moves[i]
      {
        var sf := moves[k];
        if sf.src >= minReg { sf := sf.(src := RenumberReg(w, sf.src, delta)); }
        if sf.dst >= minReg { sf := sf.(dst := RenumberReg(w, sf.dst, delta)); }
        moves := moves[k := sf];
      }
      assert moves == RenumberMoves(w, inst.moves, minReg, delta);
      res := SpillFill(moves);
    case Op(_, _, dst, _, _, _) =>
      if !IsSpecial(w, dst) && dst >= minReg { res := res.(dst := RenumberReg(w, dst, delta)); }
      var srcs := inst.srcs;
      for i := 0 to |srcs|
        invariant |srcs| == |inst.srcs|
        invariant forall k :: 0 <= k < i ==> srcs[k] == RenumberOperand(w, inst.srcs[k], minReg, delta)
        invariant forall k :: i <= k < |srcs| ==> srcs[k] == inst.srcs[k]
      {
        if !IsSpecial(w, srcs[i]) && srcs[i] >= minReg {
          srcs := srcs[i := RenumberReg(w, srcs[i], delta)];
        }
      }
      assert srcs == RenumberOperands(w, inst.srcs, minReg, delta);
      res := res.(srcs := srcs);
  }

  method RenumberOneBlock(w: RegMax, block: seq<Inst>, minReg: nat, delta: nat) returns (res: seq<Inst>)
    ensures res == RenumberBlock(w, block, minReg, delta)
  {
    res := block;
    for k := 0 to |res|
      invariant |res| == |block|
      invariant forall i :: 0 <= i < k ==> res[i] == RenumberInst(w, block[i], minReg, delta)
      invariant forall i :: k <= i < |res| ==> res[i] == block[i]
    {
      var inst := RenumberOneInst(w, res[k], minReg, delta);
      res := res[k := inst];
    }
  }

  /** InsertSpillsForDynInputsInst for a range intrinsic. */
  method SpillRangeInst(w: RegMax, start: Reg, inst: Inst) returns (moves: seq<Move>, res: Inst)
    requires RangeShape(inst)
    ensures moves == MovesBefore(w, start, inst) && res == SpilledInst(w, start, inst)
  {
    var nargs := NumArgs(inst);
    var temp := start;
    var srcs := inst.srcs;
    moves := [];
    for i := 0 to nargs
      invariant |srcs| == |inst.srcs|
      invariant temp == start + Slot(inst, i)
      invariant moves == RangeMoves(inst, start, i)
      invariant srcs == RangeSrcs(inst, start, i)
    {
      if !IsAccPosition(inst, i) {
        assert srcs[i] == inst.srcs[i] && Position(inst, Slot(inst, i)) == i;
        moves := moves + [Move(srcs[i], temp)];
        srcs := srcs[i := temp];
        temp := temp + 1;
      }
      assert srcs == RangeSrcs(inst, start, i + 1);
      assert moves == RangeMoves(inst, start, i + 1);
    }
    res := inst.(srcs := srcs);
  }

  /** InsertSpillsForInst: a register used twice is moved once. */
  method SpillNarrowInst(w: RegMax, start: Reg, inst: Inst) returns (moves: seq<Move>, res: Inst)
    requires inst.Op? && inst.kind == Narrow
    ensures moves == MovesBefore(w, start, inst) && res == SpilledInst(w, start, inst)
  {
    var temp: Reg := 0;
    var srcs := inst.srcs;
    var spillMap: map<Reg, Reg> := map[];
    moves := [];
    for i := 0 to |srcs|
      invariant |srcs| == |inst.srcs|
      invariant moves == NarrowMoves(w, inst.srcs, i) && temp == |moves|
      invariant forall k :: 0 <= k < |moves| ==> moves[k].src in spillMap
      invariant forall r :: r in spillMap ==> spillMap[r] < |moves| && moves[spillMap[r]].src == r
      invariant forall k :: 0 <= k < i && NeedsSpill(w, inst.srcs[k]) ==> inst.srcs[k] in spillMap && srcs[k] == spillMap[inst.srcs[k]]
      invariant forall k :: 0 <= k < i && !NeedsSpill(w, inst.srcs[k]) ==> srcs[k] == inst.srcs[k]
      invariant forall k :: i <= k < |srcs| ==> srcs[k] == inst.srcs[k]
    {
      var reg := srcs[i];
      if !IsSpecial(w, reg) && reg >= COMPACT_REGS {
        if reg !in spillMap {
          assert !Spilled(moves, reg);
          moves := moves + [Move(reg, temp)];
          spillMap := spillMap[reg := temp];
          srcs := srcs[i := temp];
          temp := temp + 1;
        } else {
          assert moves[spillMap[reg]].src == reg;
          srcs := srcs[i := spillMap[reg]];
        }
      }
    }
    SpilledOperands(w, inst.srcs, moves, spillMap, srcs);
    res := inst.(srcs := srcs);
  }

  lemma SpilledOperands(w: RegMax, srcs: seq<Reg>, moves: seq<Move>, spillMap: map<Reg, Reg>, res: seq<Reg>)
    requires moves == NarrowMoves(w, srcs, |srcs|) && |res| == |srcs|
    requires forall r :: r in spillMap ==> spillMap[r] < |moves| && moves[spillMap[r]].src == r
    requires forall k :: 0 <= k < |srcs| && NeedsSpill(w, srcs[k]) ==> srcs[k] in spillMap && res[k] == spillMap[srcs[k]]
    requires forall k :: 0 <= k < |srcs| && !NeedsSpill(w, srcs[k]) ==> res[k] == srcs[k]
    ensures res == NarrowSrcs(w, srcs)
  {
    NarrowMovesFacts(w, srcs, |srcs|);
    forall k | 0 <= k < |srcs|
      ensures res[k] == NarrowSrc(w, moves, srcs[k])
    {
      if NeedsSpill(w, srcs[k]) {
        var j := spillMap[srcs[k]];
        assert moves[j].src == srcs[k] && moves[j].dst == j;
      }
    }
  }

  /** AddMoveBefore walks the unordered map of moves: they come in an order that nobody knows. */
  method ListMoves(entries: seq<Move>) returns (moves: seq<Move>)
    ensures multiset(moves) == multiset(entries)
  {
    moves := entries;
  }

  method SpillOneInst(w: RegMax, start: Reg, inst: Inst) returns (res: seq<Inst>)
    requires inst.Op? && inst.kind == Range ==> RangeShape(inst)
    ensures SpillsInst(w, start, inst, res)
  {
    var moves: seq<Move> := [];
    var spilled := inst;
    if inst.Op? && inst.kind == Range {
      moves, spilled := SpillRangeInst(w, start, inst);
    } else if inst.Op? && inst.kind == Narrow {
      moves, spilled := SpillNarrowInst(w, start, inst);
      moves := ListMoves(moves);
    }
    res := (if moves == [] then [] else [SpillFill(moves)]) + [spilled];
  }

  lemma EmptyBlockSpills(w: RegMax, start: Reg)
    ensures SpillsBlock(w, start, [], [])
  {
  }

  lemma PlacedShape(w: RegMax, used: seq<bool>, p: Placement, inst: Inst)
    requires p.down <= p.minReg && GoodInst(w, used, inst)
    ensures var placed := PlaceInst(w, p, inst); placed.Op? && placed.kind == Range ==> RangeShape(placed)
  {
  }

  method SpillOneBlock(w: RegMax, start: Reg, block: seq<Inst>, ghost used: seq<bool>, ghost p: Placement, ghost block0: seq<Inst>)
    returns (res: seq<Inst>)
    requires p.down <= p.minReg && GoodBlock(w, used, block0) && block == PlaceBlock(w, p, block0)
    ensures SpillsBlock(w, start, block, res)
  {
    hide SpillsBlock, SpillsInst, GoodInst;
    res := [];
    EmptyBlockSpills(w, start);
    for k := 0 to |block|
      invariant SpillsBlock(w, start, block[..k], res)
    {
      PlacedShape(w, used, p, block0[k]);
      assert block[k] == PlaceInst(w, p, block0[k]);
      var insts := SpillOneInst(w, start, block[k]);
      SpillsBlockNext(w, start, block[..k], res, block[k], insts);
      res := res + insts;
      assert block[..k + 1] == block[..k] + [block[k]];
    }
    assert block[..|block|] == block;
  }

  lemma RenumberDown(w: RegMax, r: nat, down: nat, delta: nat)
    requires 0 < down <= r < FrameSize(w) && delta == ToRegister(w, 0 - down)
    ensures RenumberReg(w, r, delta) == r - down
  {
    hide ToRegister;
    WrapDown(w, r, down);
  }

  /** The mask update of RenumberArgRegs: source and target overlap. */
  method ShiftMaskDown(w: RegMax, mask: array<bool>, minReg: nat, ghost down: nat, delta: nat)
    requires 0 < down <= minReg <= mask.Length == FrameSize(w) && delta == ToRegister(w, 0 - down)
    requires forall q :: minReg - down <= q < minReg ==> !mask[q]
    modifies mask
    ensures MovedDown(old(mask[..]), mask[..], minReg, down)
  {
    hide ToRegister, RenumberReg;
    ghost var before := mask[..];
    for r := minReg to mask.Length
      invariant forall q :: 0 <= q < minReg - down ==> mask[q] == before[q]
      invariant forall q :: minReg - down <= q < r - down ==> mask[q] == before[q + down]
      invariant forall q :: r - down <= q < r ==> !mask[q]
      invariant forall q :: r <= q < mask.Length ==> mask[q] == before[q]
    {
      RenumberDown(w, r, down, delta);
      mask[RenumberReg(w, r, delta)] := mask[r];
      mask[r] := false;
    }
  }

  /** The mask update of RunImpl: up by temps, highest register first, then the fill. */
  method ShiftMaskUp(mask: array<bool>, numRegs: nat, temps: nat)
    requires numRegs + temps <= mask.Length
    modifies mask
    ensures forall q :: 0 <= q < temps ==> mask[q]
    ensures forall q :: temps <= q < numRegs + temps ==> mask[q] == old(mask[..])[q - temps]
    ensures forall q :: numRegs + temps <= q < mask.Length ==> mask[q] == old(mask[..])[q]
  {
    ghost var before := mask[..];
    for r := 0 to numRegs
      invariant forall q :: numRegs + temps - r <= q < numRegs + temps ==> mask[q] == before[q - temps]
      invariant forall q :: 0 <= q < numRegs - r ==> mask[q] == before[q]
      invariant forall q :: numRegs + temps <= q < mask.Length ==> mask[q] == before[q]
    {
      mask[numRegs + temps - r - 1] := mask[numRegs - r - 1];
    }
    for r := 0 to temps
      invariant forall q :: 0 <= q < r ==> mask[q]
      invariant forall q :: temps <= q < numRegs + temps ==> mask[q] == before[q - temps]
      invariant forall q :: numRegs + temps <= q < mask.Length ==> mask[q] == before[q]
    {
      mask[r] := true;
    }
  }

  /** The mask of registers moved up. */
  method RaiseMask(w: RegMax, mask: array<bool>, numRegs: nat, temps: nat, ghost used: seq<bool>, ghost base: Placement)
    requires base.down <= base.minReg && base.up == 0 && PlacedBelow(w, used, base, numRegs)
    requires numRegs + temps <= FrameSize(w) && mask[..] == ImageMask(w, used, base, 0)
    modifies mask
    ensures mask[..] == ImageMask(w, used, base.(up := temps), temps)
  {
    hide ImageMask, PlacedBelow;
    ghost var before := mask[..];
    ShiftMaskUp(mask, numRegs, temps);
    ShiftedUpIsImage(w, used, base, numRegs, temps, before, mask[..]);
  }

  /** The two counting loops of RenumberArgRegs; the second counts down in an unsigned register. */
  method CountLocalsAndTemps(w: RegMax, mask: array<bool>, numNonArgs: nat, ghost locals: nat, ghost temps: nat)
    returns (numLocals: nat, numTemps: nat)
    requires numNonArgs <= FrameSize(w) && DenseLayout(w, mask[..], FrameSize(w) - numNonArgs, locals, temps)
    ensures numLocals == locals && numTemps == temps
  {
    ghost var used := mask[..];
    assert forall r :: 0 <= r < mask.Length ==> mask[r] == used[r];
    numLocals := 0;
    while numLocals != numNonArgs && mask[numLocals]
      invariant numLocals <= locals
      decreases numNonArgs - numLocals
    {
      numLocals := numLocals + 1;
    }
    numTemps := 0;
    if numLocals != numNonArgs {
      var r: Reg := numNonArgs - 1;
      assert !used[numNonArgs - temps - 1];
      while r < numNonArgs && mask[r]
        invariant numTemps <= temps && r == numNonArgs - 1 - numTemps
        decreases temps - numTemps
      {
        numTemps := numTemps + 1;
        RemainderIs(r - 1, w + 1, 0, r - 1);
        r := ToRegister(w, r - 1);
      }
    }
  }

  datatype State = Idle | RenumberArgs | ReservingTemps | InsertingSpills

  class RegEncoder {
    const w: RegMax
    const numArgs: nat            // arguments of the method
    const mask: array<bool>       // the graph's used registers
    var code: Code                // the graph's instructions, block by block
    var numLocals: nat            // the graph's stack slots
    var state: State
    var numTemps: nat
    var numMaxRangeInput: nat
    var rangeTempsStart: nat

    constructor (w: RegMax, code: Code, mask: array<bool>, numArgs: nat, numLocals: nat)
      ensures this.w == w && this.code == code && this.mask == mask && this.numArgs == numArgs
      ensures this.numLocals == numLocals && state == Idle && numTemps == 0
    {
      this.w, this.code, this.mask, this.numArgs, this.numLocals := w, code, mask, numArgs, numLocals;
      state, numTemps, numMaxRangeInput, rangeTempsStart := Idle, 0, 0, 0;
    }

    method RenumberRegs(minReg: nat, delta: nat)
      modifies this`code
      ensures code == RenumberCode(w, old(code), minReg, delta)
    {
      for b := 0 to |code|
        invariant |code| == |old(code)|
        invariant forall i :: 0 <= i < b ==> code[i] == RenumberBlock(w, old(code)[i], minReg, delta)
        invariant forall i :: b <= i < |code| ==> code[i] == old(code)[i]
      {
        var block := RenumberOneBlock(w, code[b], minReg, delta);
        code := code[b := block];
      }
    }

    method CalculateNumNeededTemps()
      requires state == ReservingTemps
      modifies this`numTemps
      ensures numTemps == Needed(w, code)
    {
      numTemps := 0;
      for b := 0 to |code|
        invariant numTemps == Needed(w, code[..b])
      {
        var block := code[b];
        for k := 0 to |block|
          invariant numTemps == Max(Needed(w, code[..b]), NeededForBlock(w, block[..k]))
        {
          var inst := block[k];
          if inst.Op? && inst.kind == Narrow {
            var needed := 0;
            for i := 0 to |inst.srcs|
              invariant needed == CountSpills(w, inst.srcs[..i])
            {
              if !IsSpecial(w, inst.srcs[i]) && inst.srcs[i] >= COMPACT_REGS { needed := needed + 1; }
              assert inst.srcs[..i + 1][..i] == inst.srcs[..i];
            }
            assert inst.srcs[..|inst.srcs|] == inst.srcs;
            numTemps := if needed < numTemps then numTemps else needed;
          }
          assert block[..k + 1][..k] == block[..k];
        }
        assert block[..|block|] == block;
        assert code[..b + 1][..b] == code[..b];
      }
      assert code[..|code|] == code;
    }

    method InsertSpills(ghost used: seq<bool>, ghost p: Placement, ghost code0: Code)
      requires state == InsertingSpills
      requires p.down <= p.minReg && GoodCode(w, used, code0) && code == PlaceCode(w, p, code0)
      modifies this`code
      ensures SpillsCode(w, rangeTempsStart, old(code), code)
    {
      hide SpillsBlock;
      for b := 0 to |code|
        invariant |code| == |old(code)|
        invariant forall i :: 0 <= i < b ==> SpillsBlock(w, rangeTempsStart, old(code)[i], code[i])
        invariant forall i :: b <= i < |code| ==> code[i] == old(code)[i]
      {
        assert GoodBlock(w, used, code0[b]);
        var block := SpillOneBlock(w, rangeTempsStart, code[b], used, p, code0[b]);
        code := code[b := block];
      }
    }

    /** Advances every register from minReg on by a negative amount, wrapping around, in the
        code and in the mask. */
    method ShiftDown(minReg: nat, amount: int)
      requires amount < 0 <= minReg + amount && minReg <= FrameSize(w) == mask.Length
      requires GoodCode(w, mask[..], code)
      requires forall q :: minReg + amount <= q < minReg ==> !mask[q]
      modifies this`code, mask
      ensures code == PlaceCode(w, Placement(minReg, -amount, 0), old(code))
      ensures MovedDown(old(mask[..]), mask[..], minReg, -amount)
    {
      hide GoodCode, PlaceCode, RenumberCode, MovedDown;
      var delta := ToRegister(w, amount);
      RenumberMovesDown(w, mask[..], code, minReg, -amount);
      RenumberRegs(minReg, delta);
      ShiftMaskDown(w, mask, minReg, -amount, delta);
    }

    /** Closes the gap between locals and temps down to the range window, if there is a need. */
    method CloseGap(locals: nat, temps: nat)
      requires DenseLayout(w, mask[..], numArgs, locals, temps) && GoodCode(w, mask[..], code)
      requires locals + temps + numMaxRangeInput + numArgs <= FrameSize(w)
      modifies this`code, mask
      ensures var p := BasePlacement(w, numArgs, locals, temps, numMaxRangeInput);
              code == PlaceCode(w, p, old(code)) && mask[..] == ImageMask(w, old(mask[..]), p, 0)
    {
      hide GoodCode, PlaceCode, ImageMask, MovedDown;
      ghost var used := mask[..];
      assert forall r :: 0 <= r < mask.Length ==> mask[r] == used[r];
      ghost var p := BasePlacement(w, numArgs, locals, temps, numMaxRangeInput);
      var numNonArgs := mask.Length - numArgs;
      var doRenumber := true;
      if numNonArgs == 0 && numMaxRangeInput == 0 { doRenumber := false; }
      if locals + temps + numMaxRangeInput == numNonArgs { doRenumber := false; }
      if temps + numArgs == 0 { doRenumber := false; }
      if doRenumber {
        var minReg := numNonArgs - temps;
        assert minReg > 0;
        ShiftDown(minReg, locals + temps + numMaxRangeInput - numNonArgs);
      } else {
        NothingAboveMinReg(w, used, code, p);
      }
      ShiftedDownIsImage(w, used, numArgs, locals, temps, numMaxRangeInput, mask[..]);
    }

    /** Shifts temps and arguments down to the range window, all in arithmetic modulo the width. */
    method RenumberArgRegs(ghost locals: nat, ghost temps: nat) returns (ok: bool)
      requires state == RenumberArgs
      requires DenseLayout(w, mask[..], numArgs, locals, temps) && GoodCode(w, mask[..], code)
      modifies this`code, this`rangeTempsStart, this`numLocals, mask
      ensures ok <==> locals + temps + numMaxRangeInput + numArgs <= FrameSize(w)
      ensures ok ==> rangeTempsStart == locals && numLocals == locals + temps + numMaxRangeInput
      ensures ok ==>
                var p := BasePlacement(w, numArgs, locals, temps, numMaxRangeInput);
                code == PlaceCode(w, p, old(code)) && mask[..] == ImageMask(w, old(mask[..]), p, 0)
    {
      var numNonArgs := mask.Length - numArgs;
      if numMaxRangeInput > numNonArgs { return false; }
      var nLocals, nTemps := CountLocalsAndTemps(w, mask, numNonArgs, locals, temps);
      if nLocals + nTemps > numNonArgs - numMaxRangeInput { return false; }
      rangeTempsStart := nLocals;
      CloseGap(nLocals, nTemps);
      numLocals := nLocals + nTemps + numMaxRangeInput;
      return true;
    }

    /** Grows the temps at the bottom of the frame until nothing more is needed. */
    method ReserveTemps(ghost used: seq<bool>, ghost code0: Code, ghost base: Placement, numRegs: nat) returns (ok: bool)
      requires state == ReservingTemps
      requires base.down <= base.minReg && base.up == 0
      requires GoodCode(w, used, code0) && code == PlaceCode(w, base, code0)
      requires PlacedBelow(w, used, base, numRegs)
      requires numRegs <= FrameSize(w) && numTemps == 0
      modifies this`code, this`numTemps, this`rangeTempsStart
      ensures ok <==> Reserve(w, code0, base, numRegs, 0).Some?
      ensures ok ==> numTemps == Reserve(w, code0, base, numRegs, 0).value
      ensures ok ==> numRegs + numTemps <= FrameSize(w)
      ensures ok ==> code == PlaceCode(w, base.(up := numTemps), code0) && Needed(w, code) == numTemps
      ensures ok ==> rangeTempsStart == old(rangeTempsStart) + numTemps
    {
      hide GoodCode, PlaceCode, Needed, Demands;
      ok := true;
      var maxNumTemps := numTemps;
      assert base.(up := 0) == base;
      CalculateNumNeededTemps();
      while maxNumTemps != numTemps
        invariant maxNumTemps <= MAX_NARROW_INPUTS && numRegs + maxNumTemps <= FrameSize(w)
        invariant rangeTempsStart == old(rangeTempsStart) + maxNumTemps
        invariant code == PlaceCode(w, base.(up := maxNumTemps), code0) && numTemps == Needed(w, code)
        invariant Reserve(w, code0, base, numRegs, maxNumTemps) == Reserve(w, code0, base, numRegs, 0)
        invariant maxNumTemps == 0 || exists lo: nat :: lo < maxNumTemps && NeededAt(w, code0, base, lo) == maxNumTemps
        decreases MAX_NARROW_INPUTS - maxNumTemps
      {
        NeedGrows(w, used, code0, base, numRegs, maxNumTemps);
        assert numTemps > maxNumTemps;
        if numRegs > FrameSize(w) - numTemps {
          return false;
        }
        var delta := numTemps - maxNumTemps;
        rangeTempsStart := rangeTempsStart + delta;
        RenumberMovesUp(w, used, code0, base.(up := maxNumTemps), delta);
        RenumberRegs(0, delta);
        maxNumTemps := numTemps;
        CalculateNumNeededTemps();
      }
    }

    /** The whole pass. */
    method RunImpl(ghost locals: nat, ghost temps: nat) returns (ok: bool)
      requires state == Idle && numTemps == 0
      requires DenseLayout(w, mask[..], numArgs, locals, temps) && GoodCode(w, mask[..], code)
      modifies this, mask
      ensures IsWindow(old(code), numMaxRangeInput)
      ensures ok <==> PassTemps(w, old(code), numArgs, locals, temps, numMaxRangeInput).Some?
      ensures ok ==>
                && numTemps == PassTemps(w, old(code), numArgs, locals, temps, numMaxRangeInput).value
                && rangeTempsStart == locals + numTemps
                && numLocals == locals + temps + numMaxRangeInput + numTemps
                && state == Idle
      ensures ok ==>
                var p := BasePlacement(w, numArgs, locals, temps, numMaxRangeInput).(up := numTemps);
                && SpillsCode(w, rangeTempsStart, PlaceCode(w, p, old(code)), code)
                && mask[..] == ImageMask(w, old(mask[..]), p, numTemps)
    {
      hide GoodCode, DenseLayout, IsWindow, PlaceCode, ImageMask, SafePlacement, Reserve;
      ghost var used, code0 := mask[..], code;
      numMaxRangeInput := CalculateNumNeededRangeTemps(w, code, used);
      state := RenumberArgs;
      ok := RenumberArgRegs(locals, temps);
      if !ok { return; }
      ghost var base := BasePlacement(w, numArgs, locals, temps, numMaxRangeInput);
      BasePlacementIsSafe(w, used, numArgs, locals, temps, numMaxRangeInput, 0);

      state := ReservingTemps;
      var numRegs := numLocals + numArgs;
      assert base.(up := 0) == base;
      ok := ReserveTemps(used, code0, base, numRegs);
      if !ok { return; }
      FinishSpills(used, code0, base, numRegs);
      numLocals := numLocals + numTemps;
      state := Idle;
    }

    /** The last step of RunImpl: spills and the mask of the moved-up registers. */
    method FinishSpills(ghost used: seq<bool>, ghost code0: Code, ghost base: Placement, numRegs: nat)
      requires base.down <= base.minReg && base.up == 0 && GoodCode(w, used, code0)
      requires IsWindow(code0, numMaxRangeInput)
      requires PlacedBelow(w, used, base, numRegs)
      requires numRegs + numTemps <= FrameSize(w)
      requires code == PlaceCode(w, base.(up := numTemps), code0) && Needed(w, code) == numTemps
      requires mask[..] == ImageMask(w, used, base, 0)
      modifies this`state, this`code, mask
      ensures SpillsCode(w, rangeTempsStart, old(code), code)
      ensures mask[..] == ImageMask(w, used, base.(up := numTemps), numTemps)
    {
      hide GoodCode, ImageMask, PlaceCode, SpillsCode, PlacedBelow, IsWindow, Needed;
      assert numTemps == 0 ==> base.(up := numTemps) == base;
      if numTemps > 0 || numMaxRangeInput > 0 {
        state := InsertingSpills;
        InsertSpills(used, base.(up := numTemps), code0);
        RaiseMask(w, mask, numRegs, numTemps, used, base);
      } else {
        PlacedNothingToSpill(w, rangeTempsStart, base.(up := numTemps), code0);
      }
    }
  }

  /** The widest range instruction. */
  ghost predicate IsWindow(code: Code, window: nat) {
    && (forall b, k :: 0 <= b < |code| && 0 <= k < |code[b]| ==> FitsWindow(window, code[b][k]))
    && (window == 0 || exists b, k :: 0 <= b < |code| && 0 <= k < |code[b]| && RangeShape(code[b][k]) && NumArgs(code[b][k]) == window)
  }

  ghost function NeededAt(w: RegMax, code: Code, base: Placement, up: nat): nat
    requires base.down <= base.minReg
  {
    Needed(w, PlaceCode(w, base.(up := up), code))
  }

  /** The reservation loop from lo temps on: the number of temps it ends with, if it succeeds. */
  ghost function Reserve(w: RegMax, code: Code, base: Placement, numRegs: nat, lo: nat): Option<nat>
    requires base.down <= base.minReg
    decreases MAX_NARROW_INPUTS - lo
  {
    var need := NeededAt(w, code, base, lo);
    if need == lo then Some(lo)
    else if numRegs + need > FrameSize(w) then None
    else if lo < need <= MAX_NARROW_INPUTS then Reserve(w, code, base, numRegs, need)
    else None
  }

  ghost function PassTemps(w: RegMax, code: Code, numArgs: nat, locals: nat, temps: nat, window: nat): Option<nat> {
    var numRegs := locals + temps + window + numArgs;
    if numRegs > FrameSize(w) then None
    else Reserve(w, code, BasePlacement(w, numArgs, locals, temps, window), numRegs, 0)
  }

  /** The rounds of the loop grow, and by no more than the operands of one instruction. */
  lemma NeedGrows(w: RegMax, used: seq<bool>, code: Code, base: Placement, numRegs: nat, lo: nat)
    requires base.down <= base.minReg && base.up == 0 && GoodCode(w, used, code)
    requires PlacedBelow(w, used, base, numRegs)
    requires numRegs + lo <= FrameSize(w)
    requires lo == 0 || exists lo': nat :: lo' < lo && NeededAt(w, code, base, lo') == lo
    ensures lo <= NeededAt(w, code, base, lo) <= MAX_NARROW_INPUTS
    ensures Demands(w, code, base.(up := lo), NeededAt(w, code, base, lo))
  {
    NeededIsDemand(w, used, code, base.(up := lo));
    if lo > 0 {
      var lo': nat :| lo' < lo && NeededAt(w, code, base, lo') == lo;
      NeededIsDemand(w, used, code, base.(up := lo'));
      DemandGrows(w, code, base.(up := lo'), base.(up := lo), lo);
      DemandIsUnique(w, code, base.(up := lo), NeededAt(w, code, base, lo), lo);
    }
  }

  /** t temps are exactly what the code needs once t temps are reserved. */
  ghost predicate Fixpoint(w: RegMax, code: Code, base: Placement, t: nat)
    requires base.down <= base.minReg
  {
    Demands(w, code, base.(up := t), t)
  }

  /** The loop ends at the least fixpoint of the demand, and fails exactly when the frame has
      no room for it. */
  lemma {:induction false} ReserveIsLeast(w: RegMax, used: seq<bool>, code: Code, base: Placement, numRegs: nat, lo: nat)
    requires base.down <= base.minReg && base.up == 0 && GoodCode(w, used, code)
    requires PlacedBelow(w, used, base, numRegs)
    requires numRegs + lo <= FrameSize(w)
    requires lo == 0 || exists lo': nat :: lo' < lo && NeededAt(w, code, base, lo') == lo
    requires forall t: nat :: t < lo ==> !Fixpoint(w, code, base, t)
    ensures match Reserve(w, code, base, numRegs, lo)
            case Some(n) => numRegs + n <= FrameSize(w) && n <= MAX_NARROW_INPUTS && Fixpoint(w, code, base, n)
                            && (forall t: nat :: t < n ==> !Fixpoint(w, code, base, t)) && NeededAt(w, code, base, n) == n
            case None => forall t: nat :: Fixpoint(w, code, base, t) ==> numRegs + t > FrameSize(w)
    decreases MAX_NARROW_INPUTS - lo
  {
    NeedGrows(w, used, code, base, numRegs, lo);
    var need := NeededAt(w, code, base, lo);
    forall t: nat | t < need ensures !Fixpoint(w, code, base, t) {
      if t >= lo { NoFixpointBetween(w, code, base, lo, need, t); }
    }
    if need != lo && numRegs + need <= FrameSize(w) {
      ReserveIsLeast(w, used, code, base, numRegs, need);
    }
  }

  /** What a run of the pass achieves. It succeeds exactly when the function fits its frame
      together with the temps it needs; it then reserves the least such number of temps, and
      its code encodes the original. */
  lemma PassIsCorrect(w: RegMax, used: seq<bool>, code: Code, numArgs: nat, locals: nat, temps: nat, window: nat)
    requires DenseLayout(w, used, numArgs, locals, temps) && GoodCode(w, used, code) && IsWindow(code, window)
    ensures match PassTemps(w, code, numArgs, locals, temps, window)
            case None => forall t: nat :: !HasRoom(w, code, numArgs, locals, temps, window, t)
            case Some(n) =>
              && HasRoom(w, code, numArgs, locals, temps, window, n)
              && (forall t: nat :: t < n ==> !HasRoom(w, code, numArgs, locals, temps, window, t))
              && var p := BasePlacement(w, numArgs, locals, temps, window).(up := n);
                 forall code' :: FinalCode(w, code, numArgs, locals, temps, window, n, code') ==> Encodes(w, used, p, locals + n, window, code, code')
  {
    hide DenseLayout, GoodCode, Demands, SafePlacement, PlaceCode, SpillsCode, Reserve;
    var numRegs := locals + temps + window + numArgs;
    if numRegs <= FrameSize(w) {
      var base := BasePlacement(w, numArgs, locals, temps, window);
      assert base.(up := 0) == base;
      BasePlacementIsSafe(w, used, numArgs, locals, temps, window, 0);
      ReserveIsLeast(w, used, code, base, numRegs, 0);
      match PassTemps(w, code, numArgs, locals, temps, window)
      case None =>
      case Some(n) => BasePlacementIsSafe(w, used, numArgs, locals, temps, window, n);
    }
  }

  /** Where the pass ends: the placement and the code of a run that reserved t temps. */
  ghost function FinalPlacement(w: RegMax, numArgs: nat, locals: nat, temps: nat, window: nat, t: nat): (p: Placement)
    requires locals + temps + window + numArgs <= FrameSize(w)
    ensures p.down <= p.minReg
  {
    BasePlacement(w, numArgs, locals, temps, window).(up := t)
  }

  /** code' is what RunImpl may leave of code. */
  ghost predicate FinalCode(w: RegMax, code: Code, numArgs: nat, locals: nat, temps: nat, window: nat, t: nat, code': Code)
    requires locals + temps + window + numArgs <= FrameSize(w)
  {
    SpillsCode(w, locals + t, PlaceCode(w, FinalPlacement(w, numArgs, locals, temps, window, t), code), code')
  }

  /** Whatever code a successful pass leaves, it does, in runs of any length, what the original did:
      the same values are read and every used register is found at its new place; and all of it
      can be encoded. */
  lemma PassPreservesRuns(w: RegMax, sem: Semantics, next: Successors, used: seq<bool>, code: Code, numArgs: nat, locals: nat,
                          temps: nat, window: nat, t: nat, code': Code, c: Config, c': Config, n: nat)
    requires DenseLayout(w, used, numArgs, locals, temps) && GoodCode(w, used, code) && IsWindow(code, window)
    requires locals + temps + window + numArgs <= FrameSize(w) && PassTemps(w, code, numArgs, locals, temps, window) == Some(t)
    requires FinalCode(w, code, numArgs, locals, temps, window, t, code')
    requires c.block == c'.block
    requires Tracks(w, used, FinalPlacement(w, numArgs, locals, temps, window, t), c.machine, c'.machine)
    ensures var d, d' := Run(w, sem, next, code, c, n), Run(w, sem, next, code', c', n);
            && d.block == d'.block
            && Tracks(w, used, FinalPlacement(w, numArgs, locals, temps, window, t), d.machine, d'.machine)
            && forall b, k :: 0 <= b < |code'| && 0 <= k < |code'[b]| ==> WellEncoded(w, locals + t, window, code'[b][k])
  {
    hide DenseLayout, GoodCode, IsWindow, PassTemps, Encodes, Run, Tracks, SpillsCode, PlaceCode, WellEncoded, HasRoom;
    PassIsCorrect(w, used, code, numArgs, locals, temps, window);
    var p := FinalPlacement(w, numArgs, locals, temps, window, t);
    Simulation(w, sem, next, used, p, locals + t, window, code, code', c, c', n);
    forall b, k | 0 <= b < |code'| && 0 <= k < |code'[b]|
      ensures WellEncoded(w, locals + t, window, code'[b][k])
    {
      CodeWellEncoded(w, used, p, locals + t, window, code, code', b, k);
    }
  }

  /** The function fits its frame with t spill temps, and t is what it then needs. */
  ghost predicate HasRoom(w: RegMax, code: Code, numArgs: nat, locals: nat, temps: nat, window: nat, t: nat) {
    && locals + temps + window + numArgs + t <= FrameSize(w)
    && Fixpoint(w, code, BasePlacement(w, numArgs, locals, temps, window), t)
  }

  /** Without temps and without a window there is nothing to spill. */
  lemma NothingToSpill(w: RegMax, start: Reg, code: Code)
    requires Needed(w, code) == 0
    requires forall b, k :: 0 <= b < |code| && 0 <= k < |code[b]| ==> FitsWindow(0, code[b][k])
    ensures SpillCode(w, start, code) == code
  {
    NeededIsMax(w, code);
    forall b | 0 <= b < |code|
      ensures SpillBlock(w, start, code[b]) == code[b]
    {
      NothingToSpillInBlock(w, start, code[b]);
    }
  }

  lemma PlacedNothingToSpill(w: RegMax, start: Reg, p: Placement, code: Code)
    requires p.down <= p.minReg && IsWindow(code, 0) && Needed(w, PlaceCode(w, p, code)) == 0
    ensures SpillsCode(w, start, PlaceCode(w, p, code), PlaceCode(w, p, code))
  {
    hide Needed, SpillsCode, SpillCode;
    var placed := PlaceCode(w, p, code);
    forall b, k | 0 <= b < |placed| && 0 <= k < |placed[b]|
      ensures FitsWindow(0, placed[b][k])
    {
      assert placed[b][k] == PlaceInst(w, p, code[b][k]) && FitsWindow(0, code[b][k]);
    }
    NothingToSpill(w, start, placed);
    SpillCodeIsOne(w, start, placed);
  }

  lemma {:induction false} NothingToSpillInBlock(w: RegMax, start: Reg, block: seq<Inst>)
    requires forall k :: 0 <= k < |block| ==> FitsWindow(0, block[k]) && NeededForInst(w, block[k]) == 0
    ensures SpillBlock(w, start, block) == block
  {
    if block != [] {
      var n := |block| - 1;
      NothingToSpillInBlock(w, start, block[..n]);
      NothingToSpillInst(w, start, block[n]);
      assert block == block[..n] + [block[n]];
    }
  }

  lemma NothingToSpillInst(w: RegMax, start: Reg, inst: Inst)
    requires FitsWindow(0, inst) && NeededForInst(w, inst) == 0
    ensures SpillInst(w, start, inst) == [inst]
  {
    if RangeShape(inst) {
      assert RangeSrcs(inst, start, NumArgs(inst)) == inst.srcs;
    } else if inst.Op? && inst.kind == Narrow {
      NarrowMovesCount(w, inst.srcs, |inst.srcs|);
      assert inst.srcs[..|inst.srcs|] == inst.srcs;
      assert NarrowSrcs(w, inst.srcs) == inst.srcs;
    }
  }

  /** When nothing is renumbered, the placement changes no used register. */
  lemma NothingAboveMinReg(w: RegMax, used: seq<bool>, code: Code, p: Placement)
    requires p.down <= p.minReg && p.up == 0 && GoodCode(w, used, code)
    requires p.down == 0 || p.minReg >= FrameSize(w)
    ensures PlaceCode(w, p, code) == code
  {
    forall b, k | 0 <= b < |code| && 0 <= k < |code[b]|
      ensures PlaceInst(w, p, code[b][k]) == code[b][k]
    {
      assert GoodBlock(w, used, code[b]) && GoodInst(w, used, code[b][k]);
      match code[b][k]
      case Phi(_) =>
      case SpillFill(moves) => assert PlaceMoves(p, moves) == moves;
      case Op(_, _, _, srcs, _, _) =>
        assert forall i :: 0 <= i < |srcs| ==> GoodReg(w, used, srcs[i]);
        assert PlaceOperands(w, p, srcs) == srcs;
    }
    assert forall b :: 0 <= b < |code| ==> PlaceBlock(w, p, code[b]) == code[b];
  }
}

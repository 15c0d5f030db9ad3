/** The register-level view of the optimizer's IR that RegEncoder works on
    (compiler/optimizer/ir/constants.h, bytecode_optimizer/reg_encoder.h), and a machine
    that executes it. */
module BytecodeIr {

  /** The largest value of the unsigned type compiler::Register (255, or 65535 in the
      defect-scan build). Every property below holds for every width. */
  type RegMax = w: nat | 1 <= w witness 255

  type Reg = nat

  function InvalidReg(w: RegMax): Reg { w }
  function AccReg(w: RegMax): Reg { w - 1 }
  function FrameSize(w: RegMax): nat { w - 1 }

  /** Conversion to compiler::Register: reduction modulo the width. */
  function ToRegister(w: RegMax, x: int): Reg { x % (w + 1) }

  const COMPACT_REGS := 16        // NUM_COMPACTLY_ENCODED_REGS
  const MAX_NARROW_INPUTS := 4    // MAX_NUM_INPUTS

  datatype Move = Move(src: Reg, dst: Reg)

  /** Range: an intrinsic of IsIntrinsicRange; Narrow: an instruction with operands of known
      number whose registers are encoded in four bits; Plain: everything else. */
  datatype Kind = Range | Narrow | Plain

  datatype Inst =
    | Phi(dst: Reg)
    | SpillFill(moves: seq<Move>)
    | Op(id: int, kind: Kind, dst: Reg, srcs: seq<Reg>, accRead: bool, requireState: bool)

  type Code = seq<seq<Inst>>

  /** Inputs without the trailing save state. */
  function NumArgs(inst: Inst): int
    requires inst.Op?
  {
    |inst.srcs| - (if inst.requireState then 1 else 0)
  }

  /** Range instructions read the accumulator at the last input before the save state. */
  predicate IsAccPosition(inst: Inst, i: int)
    requires inst.Op?
  {
    inst.accRead && i == |inst.srcs| - 2
  }

  predicate RangeShape(inst: Inst) {
    && inst.Op? && inst.kind == Range
    && (inst.accRead ==> 2 <= |inst.srcs|)
    && (inst.requireState ==> 1 <= |inst.srcs|)
  }

  predicate IsSpecial(w: RegMax, r: Reg) {
    r == AccReg(w) || r == InvalidReg(w)
  }

  /** A register that has to be spilled for a four-bit encoding. */
  predicate NeedsSpill(w: RegMax, r: Reg) {
    !IsSpecial(w, r) && r >= COMPACT_REGS
  }

  // ----- what register allocation hands over -----

  predicate RealReg(w: RegMax, used: seq<bool>, r: Reg) {
    r < FrameSize(w) && r < |used| && used[r]
  }

  predicate GoodReg(w: RegMax, used: seq<bool>, r: Reg) {
    IsSpecial(w, r) || RealReg(w, used, r)
  }

  predicate GoodInst(w: RegMax, used: seq<bool>, inst: Inst) {
    match inst
    case Phi(dst) => GoodReg(w, used, dst)
    case SpillFill(moves) =>
      forall k :: 0 <= k < |moves| ==> RealReg(w, used, moves[k].src) && RealReg(w, used, moves[k].dst)
    case Op(_, kind, dst, srcs, accRead, requireState) =>
      && GoodReg(w, used, dst)
      && (forall k :: 0 <= k < |srcs| ==> GoodReg(w, used, srcs[k]))
      && (requireState ==> 1 <= |srcs|)
      && (kind == Narrow ==> |srcs| <= MAX_NARROW_INPUTS)
      && (kind == Range ==>
            && RangeShape(inst)
            && NumArgs(inst) <= w
            && forall k :: 0 <= k < NumArgs(inst) && !IsAccPosition(inst, k) ==> RealReg(w, used, srcs[k]))
  }

  predicate GoodBlock(w: RegMax, used: seq<bool>, block: seq<Inst>) {
    forall k :: 0 <= k < |block| ==> GoodInst(w, used, block[k])
  }

  predicate GoodCode(w: RegMax, used: seq<bool>, code: Code) {
    forall b :: 0 <= b < |code| ==> GoodBlock(w, used, code[b])
  }

  // ----- execution -----

  datatype Event = Event(id: int, vals: seq<int>)

  /** What an instruction does with the values it reads: its result, the accumulator it
      leaves behind and the branch it decides. */
  datatype Effect = Effect(result: int, acc: int, branch: int)
  type Semantics = (int, seq<int>, int) -> Effect

  /** regs is the virtual frame; trace lists every instruction executed with the values it read. */
  datatype Machine = Machine(regs: seq<int>, acc: int, branch: int, trace: seq<Event>)

  function Read(w: RegMax, m: Machine, r: Reg): int {
    if r < |m.regs| then m.regs[r] else if r == AccReg(w) then m.acc else 0
  }

  function Write(regs: seq<int>, r: Reg, v: int): (res: seq<int>)
    ensures |res| == |regs|
  {
    if r < |regs| then regs[r := v] else regs
  }

  function ReadAll(w: RegMax, m: Machine, srcs: seq<Reg>): (vals: seq<int>)
    ensures |vals| == |srcs|
    ensures forall k :: 0 <= k < |srcs| ==> vals[k] == Read(w, m, srcs[k])
  {
    seq(|srcs|, k requires 0 <= k < |srcs| => Read(w, m, srcs[k]))
  }

  /** Moves are emitted one mov after another (codegen.cpp, EncodeSpillFillData). */
  function ExecMoves(moves: seq<Move>, regs: seq<int>): (res: seq<int>)
    ensures |res| == |regs|
  {
    if moves == [] then regs
    else
      var m := moves[0];
      ExecMoves(moves[1..], if m.src < |regs| then Write(regs, m.dst, regs[m.src]) else regs)
  }

  function Exec(w: RegMax, sem: Semantics, inst: Inst, m: Machine): (res: Machine)
    ensures |res.regs| == |m.regs|
  {
    match inst
    case Phi(_) => m
    case SpillFill(moves) => m.(regs := ExecMoves(moves, m.regs))
    case Op(id, _, dst, srcs, _, _) =>
      var vals := ReadAll(w, m, srcs);
      var e := sem(id, vals, m.acc);
      Machine(if dst < FrameSize(w) then Write(m.regs, dst, e.result) else m.regs,
              e.acc, e.branch, m.trace + [Event(id, vals)])
  }

  function ExecBlock(w: RegMax, sem: Semantics, block: seq<Inst>, m: Machine): (res: Machine)
    ensures |res.regs| == |m.regs|
  {
    if block == [] then m else ExecBlock(w, sem, block[1..], Exec(w, sem, block[0], m))
  }

  /** next picks the successor of a block from the branch decided in it. */
  type Successors = (nat, int) -> nat

  datatype Config = Config(block: nat, machine: Machine)

  /** n blocks of a run; a block number outside the code has left the function. */
  function Run(w: RegMax, sem: Semantics, next: Successors, code: Code, c: Config, n: nat): Config
    decreases n
  {
    if n == 0 || c.block >= |code| then c
    else
      var m := ExecBlock(w, sem, code[c.block], c.machine);
      Run(w, sem, next, code, Config(next(c.block, m.branch), m), n - 1)
  }

  lemma {:induction false} ExecBlockAppend(w: RegMax, sem: Semantics, a: seq<Inst>, b: seq<Inst>, m: Machine)
    ensures ExecBlock(w, sem, a + b, m) == ExecBlock(w, sem, b, ExecBlock(w, sem, a, m))
  {
    if a == [] {
      assert a + b == b;
    } else {
      assert (a + b)[1..] == a[1..] + b;
      ExecBlockAppend(w, sem, a[1..], b, Exec(w, sem, a[0], m));
    }
  }

  /** Moves whose targets are distinct and are no one's source act all at once. */
  lemma {:induction false} MovesInParallel(moves: seq<Move>, regs: seq<int>)
    requires forall k :: 0 <= k < |moves| ==> moves[k].src < |regs| && moves[k].dst < |regs|
    requires forall j, k :: 0 <= j < |moves| && 0 <= k < |moves| ==> moves[j].dst != moves[k].src
    requires forall j, k :: 0 <= j < k < |moves| ==> moves[j].dst != moves[k].dst
    ensures forall k :: 0 <= k < |moves| ==> ExecMoves(moves, regs)[moves[k].dst] == regs[moves[k].src]
    ensures forall r :: 0 <= r < |regs| && (forall k :: 0 <= k < |moves| ==> moves[k].dst != r)
                        ==> ExecMoves(moves, regs)[r] == regs[r]
  {
    if moves != [] {
      var m := moves[0];
      var regs1 := regs[m.dst := regs[m.src]];
      var rest := moves[1..];
      assert forall k :: 0 <= k < |rest| ==> rest[k] == moves[k + 1];
      MovesInParallel(rest, regs1);
      assert ExecMoves(moves, regs) == ExecMoves(rest, regs1);
      forall k | 0 <= k < |moves|
        ensures ExecMoves(moves, regs)[moves[k].dst] == regs[moves[k].src]
      {
        if k > 0 {
          assert moves[k] == rest[k - 1];
          assert regs1[rest[k - 1].src] == regs[moves[k].src];
        }
      }
    }
  }

  /** The order in which such moves are made is irrelevant: spills of a narrow instruction are
      listed by iterating an unordered map. */
  lemma MovesInAnyOrder(a: seq<Move>, b: seq<Move>, regs: seq<int>)
    requires multiset(a) == multiset(b)
    requires forall k :: 0 <= k < |a| ==> a[k].src < |regs| && a[k].dst < |regs|
    requires forall j, k :: 0 <= j < |a| && 0 <= k < |a| ==> a[j].dst != a[k].src
    requires forall j, k :: 0 <= j < k < |a| ==> a[j].dst != a[k].dst
    ensures ExecMoves(a, regs) == ExecMoves(b, regs)
  {
    hide ExecMoves;
    SameElements(a, b);
    DistinctTargetsOfPermutation(a, b);
    MovesInParallel(a, regs);
    MovesInParallel(b, regs);
    forall r | 0 <= r < |regs|
      ensures ExecMoves(a, regs)[r] == ExecMoves(b, regs)[r]
    {
      if k :| 0 <= k < |a| && a[k].dst == r {
        var j :| 0 <= j < |b| && b[j] == a[k];
        assert ExecMoves(b, regs)[b[j].dst] == regs[b[j].src];
      } else {
        assert forall k :: 0 <= k < |b| ==> b[k] in a;
      }
    }
  }

  lemma SameElements<T>(a: seq<T>, b: seq<T>)
    requires multiset(a) == multiset(b)
    ensures forall x :: x in a <==> x in b
    ensures forall k :: 0 <= k < |a| ==> a[k] in b
    ensures forall k :: 0 <= k < |b| ==> b[k] in a
  {
    forall x ensures x in a <==> x in b {
      assert x in a <==> x in multiset(a);
      assert x in b <==> x in multiset(b);
    }
  }

  lemma DistinctTargetsOfPermutation(a: seq<Move>, b: seq<Move>)
    requires multiset(a) == multiset(b)
    requires forall j, k :: 0 <= j < k < |a| ==> a[j].dst != a[k].dst
    ensures forall j, k :: 0 <= j < k < |b| ==> b[j].dst != b[k].dst
  {
    SameElements(a, b);
    forall j, k | 0 <= j < k < |b|
      ensures b[j].dst != b[k].dst
    {
      var x :| 0 <= x < |a| && a[x] == b[j];
      var y :| 0 <= y < |a| && a[y] == b[k];
      if x == y {
        TwiceInSequence(b, j, k);
        OnceInSequence(a, x);
      }
    }
  }

  lemma TwiceInSequence<T>(s: seq<T>, j: int, k: int)
    requires 0 <= j < k < |s| && s[j] == s[k]
    ensures multiset(s)[s[j]] >= 2
  {
    assert s == s[..j + 1] + s[j + 1..];
    assert s[j] == s[..j + 1][j];
    assert s[k] == s[j + 1..][k - j - 1];
    assert s[j] in multiset(s[..j + 1]);
    assert s[j] in multiset(s[j + 1..]);
    assert multiset(s) == multiset(s[..j + 1]) + multiset(s[j + 1..]);
  }

  lemma OnceInSequence(s: seq<Move>, k: int)
    requires 0 <= k < |s|
    requires forall i, j :: 0 <= i < j < |s| ==> s[i].dst != s[j].dst
    ensures multiset(s)[s[k]] == 1
  {
    assert s == s[..k] + [s[k]] + s[k + 1..];
    assert s[k] !in s[..k];
    assert s[k] !in s[k + 1..];
    assert multiset(s) == multiset(s[..k]) + multiset{s[k]} + multiset(s[k + 1..]);
  }
}

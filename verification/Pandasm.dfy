/** A function before assembly and the bytecode it is assembled to: assembler/assembly-ins.h,
    assembler/assembly-function.h and the code items of libpandafile. */
module Pandasm {
  import opened Options
  import opened Sums

  /** An encoded instruction: its size and, for a jump, its offset. */
  datatype BcIns = BcIns(size: nat, jump: Option<int>)

  datatype Catch = Catch(handlerPc: nat, codeSize: nat, exceptionRecord: string)
  datatype TryBlock = TryBlock(startPc: nat, length: nat, catches: seq<Catch>)

  /** pandasm::Ins; valid unless the opcode is INVALID. imm is a jump's offset, id its label. */
  datatype PaIns = PaIns(valid: bool, labelName: Option<string>, imm: Option<int>, id: Option<string>, line: int, column: int)

  /** pandasm::Function::CatchBlock. */
  datatype CatchBlock = CatchBlock(tryBegin: string, tryEnd: string, catchBegin: string, catchEnd: string, exceptionRecord: string)

  const UINT32 := 0x1_0000_0000
  const UINT_MAX := 0xFFFF_FFFF

  function CodeSizes(code: seq<BcIns>): (s: seq<nat>)
    ensures |s| == |code| && forall i :: 0 <= i < |code| ==> s[i] == code[i].size
  {
    seq(|code|, i requires 0 <= i < |code| => code[i].size)
  }

  function PcOf(code: seq<BcIns>, i: nat): nat
    requires i <= |code|
  {
    Sum(CodeSizes(code), i)
  }

  /** Instructions take room, and the code size fits the reader's 32-bit counters. */
  predicate FitsReader(code: seq<BcIns>) {
    (forall i :: 0 <= i < |code| ==> 0 < code[i].size) && PcOf(code, |code|) < UINT_MAX
  }

  lemma PcGrows(code: seq<BcIns>, i: nat, j: nat)
    requires i < j <= |code| && forall i :: 0 <= i < |code| ==> 0 < code[i].size
    ensures PcOf(code, i) < PcOf(code, j)
  {
    SumGrows(CodeSizes(code), i, j);
  }

  lemma PcInjective(code: seq<BcIns>, i: nat, j: nat)
    requires i <= |code| && j <= |code| && FitsReader(code) && PcOf(code, i) == PcOf(code, j)
    ensures i == j
  {
    if i < j {
      PcGrows(code, i, j);
    } else if j < i {
      PcGrows(code, j, i);
    }
  }

  /** pc is where one of the first n instructions begins (n may count the end of the code). */
  predicate OnBoundary(code: seq<BcIns>, n: nat, pc: int)
    requires n <= |code| + 1
  {
    exists i :: 0 <= i < n && PcOf(code, i) == pc
  }

  /** The index of the instruction at pc. */
  ghost function IndexAt(code: seq<BcIns>, n: nat, pc: int): (i: nat)
    requires n <= |code| + 1 && OnBoundary(code, n, pc)
    ensures i < n && PcOf(code, i) == pc
  {
    var i :| 0 <= i < n && PcOf(code, i) == pc;
    i
  }
}

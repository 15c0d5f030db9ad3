/** Reading a function back from its bytecode: abc2program/abc_code_processor.cpp. */
module CodeReader {
  import opened Options
  import opened Labels
  import opened Pandasm
  import LP = LineProgram

  // ----- what the reader is given -----

  /** Some catch block ends where the code ends. */
  predicate EndsAtCodeEnd(code: seq<BcIns>, tries: seq<TryBlock>) {
    exists i, j :: 0 <= i < |tries| && 0 <= j < |tries[i].catches| && CatchEndsAt(tries[i].catches[j], PcOf(code, |code|))
  }

  predicate CatchEndsAt(c: Catch, pc: nat) { (c.handlerPc + c.codeSize) % 0x1_0000_0000 == pc }

  /** How many instructions the reader makes: a dummy one follows the code if a catch block ends there. */
  function Slots(code: seq<BcIns>, tries: seq<TryBlock>): (n: nat)
    ensures |code| <= n <= |code| + 1
  {
    |code| + if EndsAtCodeEnd(code, tries) then 1 else 0
  }

  predicate GoodJump(code: seq<BcIns>, n: nat, i: nat)
    requires i < |code| && n <= |code| + 1
  {
    code[i].jump.Some? ==> OnBoundary(code, n, PcOf(code, i) + code[i].jump.value)
  }

  predicate GoodTry(code: seq<BcIns>, n: nat, t: TryBlock)
    requires n <= |code| + 1
  {
    && OnBoundary(code, n, t.startPc) && OnBoundary(code, n, t.startPc + t.length)
    && forall j :: 0 <= j < |t.catches| ==> GoodCatch(code, n, t.catches[j])
  }

  predicate GoodCatch(code: seq<BcIns>, n: nat, c: Catch)
    requires n <= |code| + 1
  {
    OnBoundary(code, n, c.handlerPc) && OnBoundary(code, n, c.handlerPc + c.codeSize)
  }

  /** Jumps, tries and catches begin and end at one of the first n instructions. */
  predicate InBounds(code: seq<BcIns>, tries: seq<TryBlock>, n: nat)
    requires n <= |code| + 1
  {
    && (forall i :: 0 <= i < |code| ==> GoodJump(code, n, i))
    && (forall i :: 0 <= i < |tries| ==> GoodTry(code, n, tries[i]))
  }

  predicate WellFormed(code: seq<BcIns>, tries: seq<TryBlock>) {
    FitsReader(code) && InBounds(code, tries, Slots(code, tries))
  }

  // ----- the two maps -----

  function Emplace<K, V>(m: map<K, V>, k: K, v: V): map<K, V> { if k in m then m else m[k := v] }

  /** The maps between the first n instructions and their offsets. */
  ghost predicate Mapped(code: seq<BcIns>, n: nat, pcIdx: map<nat, nat>, idxPc: map<nat, nat>) {
    && n <= |code| + 1
    && (forall i: nat :: i in idxPc <==> i < n)
    && (forall i: nat :: i < n ==> Located(code, i, pcIdx, idxPc))
    && (forall pc: nat :: pc in pcIdx ==> Begins(code, n, pcIdx, pc))
  }

  ghost predicate Located(code: seq<BcIns>, i: nat, pcIdx: map<nat, nat>, idxPc: map<nat, nat>) {
    && i <= |code| && i in idxPc && idxPc[i] == PcOf(code, i)
    && PcOf(code, i) in pcIdx && pcIdx[PcOf(code, i)] == i
  }

  ghost predicate Begins(code: seq<BcIns>, n: nat, pcIdx: map<nat, nat>, pc: nat) {
    n <= |code| + 1 && pc in pcIdx && pcIdx[pc] < n && PcOf(code, pcIdx[pc]) == pc
  }

  lemma MapNext(code: seq<BcIns>, n: nat, pcIdx: map<nat, nat>, idxPc: map<nat, nat>)
    requires FitsReader(code) && Mapped(code, n, pcIdx, idxPc) && n <= |code|
    ensures Mapped(code, n + 1, Emplace(pcIdx, PcOf(code, n), n), Emplace(idxPc, n, PcOf(code, n)))
  {
    var pc := PcOf(code, n);
    var pcIdx', idxPc' := Emplace(pcIdx, pc, n), Emplace(idxPc, n, pc);
    if pc in pcIdx {
      assert Begins(code, n, pcIdx, pc);
      PcInjective(code, n, pcIdx[pc]);
    }
    forall i: nat | i < n
      ensures Located(code, i, pcIdx', idxPc')
    {
      assert Located(code, i, pcIdx, idxPc);
      PcGrows(code, i, n);
    }
    forall p: nat | p in pcIdx'
      ensures Begins(code, n + 1, pcIdx', p)
    {
      assert p == pc || Begins(code, n, pcIdx, p);
    }
    assert Located(code, n, pcIdx', idxPc');
    hide Located, Begins, PcOf;
  }

  // ----- the instructions -----

  const NO_LINE := -1

  function Converted(b: BcIns): PaIns { PaIns(true, None, b.jump, None, NO_LINE, UINT_MAX) }

  predicate Unlabelled(code: seq<BcIns>, ins: seq<PaIns>) {
    |ins| <= |code| && forall i :: 0 <= i < |ins| ==> ins[i] == Converted(code[i])
  }

  /** One instruction for each encoded one, and perhaps a dummy; whoever has a label has its own. */
  ghost predicate Shape(code: seq<BcIns>, ins: seq<PaIns>) {
    && |code| <= |ins| <= |code| + 1
    && (forall i :: 0 <= i < |ins| ==> ins[i].valid == (i < |code|))
    && LabelsRight(ins)
  }

  ghost predicate LabelsRight(ins: seq<PaIns>) {
    forall i :: 0 <= i < |ins| && ins[i].labelName.Some? ==> ins[i].labelName.value == Label(i)
  }

  /** The instruction with its own label. */
  function Marked(ins: seq<PaIns>, i: nat): (ins': seq<PaIns>)
    requires i < |ins|
  {
    ins[i := ins[i].(labelName := Some(Label(i)))]
  }

  /** Whether the instruction at pc carries the label named after its index. */
  ghost predicate HasLabelAt(code: seq<BcIns>, ins: seq<PaIns>, pc: int) {
    && |ins| <= |code| + 1 && OnBoundary(code, |ins|, pc)
    && var k := IndexAt(code, |ins|, pc); ins[k].labelName == Some(Label(k))
  }

  /** The jump at i has become a jump to the label of the instruction it led to. */
  ghost predicate JumpDone(code: seq<BcIns>, ins: seq<PaIns>, i: nat)
    requires i < |code|
  {
    && |code| <= |ins| <= |code| + 1
    && (code[i].jump.Some? ==>
          var pc := PcOf(code, i) + code[i].jump.value;
          HasLabelAt(code, ins, pc) && ins[i].imm.None? && ins[i].id == Some(Label(IndexAt(code, |ins|, pc))))
  }

  ghost predicate JumpPending(code: seq<BcIns>, ins: seq<PaIns>, i: nat)
    requires i < |code|
  {
    |code| <= |ins| <= |code| + 1 && ins[i].imm == code[i].jump && ins[i].id.None?
  }

  /** later is earlier with more labels. */
  ghost predicate Extends(earlier: seq<PaIns>, later: seq<PaIns>) {
    && |earlier| == |later|
    && forall i :: 0 <= i < |later| ==>
         later[i] == earlier[i] || later[i] == earlier[i].(labelName := Some(Label(i)))
  }

  lemma ExtendsFurther(a: seq<PaIns>, b: seq<PaIns>, c: seq<PaIns>)
    requires Extends(a, b) && Extends(b, c)
    ensures Extends(a, c)
  {
  }

  lemma ExtendsItself(a: seq<PaIns>)
    ensures Extends(a, a)
  {
  }

  lemma ExtendsKeeps(code: seq<BcIns>, a: seq<PaIns>, b: seq<PaIns>)
    requires Shape(code, a) && Extends(a, b)
    ensures Shape(code, b)
    ensures forall pc: int :: HasLabelAt(code, a, pc) ==> HasLabelAt(code, b, pc)
    ensures forall i :: 0 <= i < |code| && JumpDone(code, a, i) ==> JumpDone(code, b, i)
    ensures forall i :: 0 <= i < |code| && JumpPending(code, a, i) ==> JumpPending(code, b, i)
  {
    hide Label;
  }

  lemma MarkExtends(code: seq<BcIns>, ins: seq<PaIns>, k: nat)
    requires Shape(code, ins) && k < |ins|
    ensures Extends(ins, Marked(ins, k)) && Shape(code, Marked(ins, k))
  {
  }

  /** The instruction at i jumps to the label of the one at k. */
  function Jumping(ins: seq<PaIns>, i: nat, k: nat): seq<PaIns>
    requires i < |ins|
  {
    ins[i := ins[i].(imm := None, id := Some(Label(k)))]
  }

  /** The jumps among the first n instructions. */
  function JumpList(code: seq<BcIns>, n: nat): seq<nat>
    requires n <= |code|
  {
    if n == 0 then []
    else if code[n - 1].jump.Some? then JumpList(code, n - 1) + [n - 1]
    else JumpList(code, n - 1)
  }

  ghost predicate AreJumps(code: seq<BcIns>, jumps: seq<nat>) {
    && (forall j :: 0 <= j < |jumps| ==> jumps[j] < |code| && code[jumps[j]].jump.Some?)
    && (forall j, k :: 0 <= j < k < |jumps| ==> jumps[j] < jumps[k])
  }

  lemma {:induction false} JumpListIs(code: seq<BcIns>, n: nat)
    requires n <= |code|
    ensures AreJumps(code, JumpList(code, n))
    ensures forall j :: 0 <= j < |JumpList(code, n)| ==> JumpList(code, n)[j] < n
  {
    if n > 0 {
      JumpListIs(code, n - 1);
    }
  }

  lemma {:induction false} JumpListHas(code: seq<BcIns>, n: nat, i: nat) returns (j: nat)
    requires i < n <= |code| && code[i].jump.Some?
    ensures j < |JumpList(code, n)| && JumpList(code, n)[j] == i
  {
    if i == n - 1 {
      j := |JumpList(code, n)| - 1;
    } else {
      j := JumpListHas(code, n - 1, i);
    }
  }

  /** The first m jumps have been turned into jumps to labels, the others not yet. */
  ghost predicate JumpsLeft(code: seq<BcIns>, ins: seq<PaIns>, jumps: seq<nat>, m: nat) {
    && AreJumps(code, jumps)
    && (forall j :: 0 <= j < |jumps| ==> if j < m then JumpDone(code, ins, jumps[j]) else JumpPending(code, ins, jumps[j]))
  }

  lemma JumpNext(code: seq<BcIns>, ins: seq<PaIns>, jumps: seq<nat>, m: nat, k: nat)
    requires Shape(code, ins) && m < |jumps| && JumpsLeft(code, ins, jumps, m) && k < |ins|
    requires JumpDone(code, Jumping(Marked(ins, k), jumps[m], k), jumps[m])
    ensures JumpsLeft(code, Jumping(Marked(ins, k), jumps[m], k), jumps, m + 1)
  {
    MarkExtends(code, ins, k);
    var marked := Marked(ins, k);
    ExtendsKeeps(code, ins, marked);
    var ins' := Jumping(marked, jumps[m], k);
    forall j | 0 <= j < |jumps| && j != m
      ensures if j < m then JumpDone(code, ins', jumps[j]) else JumpPending(code, ins', jumps[j])
    {
      OthersKept(code, marked, jumps[m], k, jumps[j]);
    }
    hide JumpDone, JumpPending, Shape, Label;
  }

  lemma OthersKept(code: seq<BcIns>, ins: seq<PaIns>, i: nat, k: nat, j: nat)
    requires i < |code| && j < |code| && i != j && |code| <= |ins|
    ensures JumpDone(code, ins, j) ==> JumpDone(code, Jumping(ins, i, k), j)
    ensures JumpPending(code, ins, j) ==> JumpPending(code, Jumping(ins, i, k), j)
  {
  }

  // ----- the try table -----

  /** One catch block with the range it guards. */
  datatype Guard = Guard(range: Range, catch: Catch)
  datatype Range = Range(startPc: nat, length: nat)

  function GuardsOf(t: TryBlock, n: nat): (gs: seq<Guard>)
    requires n <= |t.catches|
  {
    if n == 0 then [] else GuardsOf(t, n - 1) + [Guard(Range(t.startPc, t.length), t.catches[n - 1])]
  }

  /** The catch blocks of the first n tries, in order. */
  function Flatten(tries: seq<TryBlock>, n: nat): (gs: seq<Guard>)
    requires n <= |tries|
  {
    if n == 0 then [] else Flatten(tries, n - 1) + GuardsOf(tries[n - 1], |tries[n - 1].catches|)
  }

  ghost predicate GoodRange(code: seq<BcIns>, n: nat, r: Range)
    requires n <= |code| + 1
  {
    OnBoundary(code, n, r.startPc) && OnBoundary(code, n, r.startPc + r.length)
  }

  ghost predicate GoodGuard(code: seq<BcIns>, n: nat, g: Guard)
    requires n <= |code| + 1
  {
    GoodRange(code, n, g.range) && GoodCatch(code, n, g.catch)
  }

  ghost function LabelAt(code: seq<BcIns>, n: nat, pc: int): string
    requires n <= |code| + 1 && OnBoundary(code, n, pc)
  {
    Label(IndexAt(code, n, pc))
  }

  ghost function BlockOf(code: seq<BcIns>, n: nat, g: Guard): CatchBlock
    requires n <= |code| + 1 && GoodGuard(code, n, g)
  {
    CatchBlock(LabelAt(code, n, g.range.startPc), LabelAt(code, n, g.range.startPc + g.range.length),
               LabelAt(code, n, g.catch.handlerPc), LabelAt(code, n, g.catch.handlerPc + g.catch.codeSize),
               g.catch.exceptionRecord)
  }

  /** The block stands for the guard, and its four labels are on their instructions. */
  ghost predicate Stands(code: seq<BcIns>, ins: seq<PaIns>, g: Guard, block: CatchBlock) {
    && |ins| <= |code| + 1 && GoodGuard(code, |ins|, g) && block == BlockOf(code, |ins|, g)
    && HasLabelAt(code, ins, g.range.startPc) && HasLabelAt(code, ins, g.range.startPc + g.range.length)
    && HasLabelAt(code, ins, g.catch.handlerPc) && HasLabelAt(code, ins, g.catch.handlerPc + g.catch.codeSize)
  }

  ghost predicate AllStand(code: seq<BcIns>, ins: seq<PaIns>, gs: seq<Guard>, blocks: seq<CatchBlock>) {
    |gs| == |blocks| && forall i :: 0 <= i < |gs| ==> Stands(code, ins, gs[i], blocks[i])
  }

  lemma NoneStand(code: seq<BcIns>, ins: seq<PaIns>)
    ensures AllStand(code, ins, [], [])
  {
  }

  lemma AllStandKept(code: seq<BcIns>, a: seq<PaIns>, b: seq<PaIns>, gs: seq<Guard>, blocks: seq<CatchBlock>)
    requires Shape(code, a) && Extends(a, b) && AllStand(code, a, gs, blocks)
    ensures AllStand(code, b, gs, blocks)
  {
    ExtendsKeeps(code, a, b);
    hide HasLabelAt, Shape, BlockOf, GoodGuard, JumpDone, JumpPending;
  }

  // ----- debug information -----

  function LineAt(table: seq<LP.Entry>, pc: nat): int {
    match LP.Lookup(table, pc) case None => -1 case Some(line) => line
  }

  function ColumnAt(table: seq<LP.Entry>, pc: nat): int {
    match LP.Lookup(table, pc) case None => 0xFFFF_FFFF case Some(column) => column
  }

  /** The first n instructions have been given their lines. */
  ghost predicate LinesSet(code: seq<BcIns>, was: seq<PaIns>, now: seq<PaIns>, table: seq<LP.Entry>, n: nat) {
    && |was| == |now| <= |code| + 1
    && forall i :: 0 <= i < |now| ==> now[i] == if i < n then was[i].(line := LineAt(table, PcOf(code, i))) else was[i]
  }

  ghost predicate ColumnsSet(code: seq<BcIns>, was: seq<PaIns>, now: seq<PaIns>, table: seq<LP.Entry>, n: nat) {
    && |was| == |now| <= |code| + 1
    && forall i :: 0 <= i < |now| ==> now[i] == if i < n then was[i].(column := ColumnAt(table, PcOf(code, i))) else was[i]
  }

  /** The cursor of FillInsDebug stands at entry idx of the table, for offsets from pc on. */
  ghost predicate CursorAt(table: seq<LP.Entry>, idx: nat, offsetStart: nat, offsetEnd: nat, pc: nat) {
    && idx <= |table|
    && (idx > 0 ==> offsetStart == table[idx - 1].offset <= pc && offsetEnd == if idx < |table| then table[idx].offset else UINT_MAX)
  }

  /** SkipToNextEntryIfNeeded: the entry reached is the one in force at pc. */
  method SkipToNextEntryIfNeeded(idx0: nat, offsetStart0: nat, offsetEnd0: nat, pc: nat, table: seq<LP.Entry>)
    returns (idx: nat, offsetStart: nat, offsetEnd: nat)
    requires LP.Sorted(table) && pc < UINT_MAX && CursorAt(table, idx0, offsetStart0, offsetEnd0, pc)
    requires idx0 == 0 ==> table == [] || (pc < offsetStart0 && table[0].offset <= pc)
                           || (offsetStart0 == 0 && offsetEnd0 == table[0].offset)
    ensures idx0 <= idx && CursorAt(table, idx, offsetStart, offsetEnd, pc)
    ensures idx == 0 ==> offsetStart == offsetStart0 && offsetEnd == offsetEnd0
    ensures LP.Lookup(table, pc) == if idx == 0 then None else Some(table[idx - 1].value)
  {
    idx, offsetStart, offsetEnd := idx0, offsetStart0, offsetEnd0;
    while idx < |table| && (pc < offsetStart || pc >= offsetEnd)
      invariant idx0 <= idx && CursorAt(table, idx, offsetStart, offsetEnd, pc)
      invariant idx == idx0 ==> offsetStart == offsetStart0 && offsetEnd == offsetEnd0
    {
      offsetStart := table[idx].offset;
      idx := idx + 1;
      offsetEnd := if idx < |table| then table[idx].offset else UINT_MAX;
    }
    LP.LookupBetween(table, idx, pc);
  }

  /** The map knows the offset of instruction i, which is not before that of i - 1. */
  lemma PcKnown(code: seq<BcIns>, n: nat, pcIdx: map<nat, nat>, idxPc: map<nat, nat>, i: nat)
    requires FitsReader(code) && Mapped(code, n, pcIdx, idxPc) && i < n
    ensures n <= |code| + 1 && i in idxPc && idxPc[i] == PcOf(code, i) < UINT_MAX
    ensures i > 0 ==> PcOf(code, i - 1) <= PcOf(code, i)
  {
    assert Located(code, i, pcIdx, idxPc);
    BoundaryFits(code, n, PcOf(code, i));
  }

  lemma LinesKeepShape(code: seq<BcIns>, was: seq<PaIns>, now: seq<PaIns>, table: seq<LP.Entry>)
    requires Shape(code, was) && LinesSet(code, was, now, table, |now|)
    ensures Shape(code, now)
  {
    hide LineAt, Label, PcOf;
  }

  lemma ColumnsKeepShape(code: seq<BcIns>, was: seq<PaIns>, now: seq<PaIns>, table: seq<LP.Entry>)
    requires Shape(code, was) && ColumnsSet(code, was, now, table, |now|)
    ensures Shape(code, now)
  {
    hide ColumnAt, Label, PcOf;
  }

  /** One entry of the local variable table, read as a range of instructions. */
  ghost function LocalRead(code: seq<BcIns>, n: nat, v: LP.Var): LP.Local
    requires n <= |code| + 1
  {
    var start, end := Found(code, n, v.start), Found(code, n, v.end);
    LP.Local(v.name, v.reg, start, (end - start) % 0x1_0000_0000)
  }

  ghost predicate LocalsRead(code: seq<BcIns>, n: nat, vars: seq<LP.Var>, read: seq<LP.Local>) {
    n <= |code| + 1 && |read| <= |vars| && forall k :: 0 <= k < |read| ==> read[k] == LocalRead(code, n, vars[k])
  }

  /** Instruction i has the line and column in force at its offset. */
  ghost predicate DebugSet(code: seq<BcIns>, ins: seq<PaIns>, i: nat, lines: seq<LP.Entry>, columns: seq<LP.Entry>)
    requires i < |ins| <= |code| + 1
  {
    ins[i].line == LineAt(lines, PcOf(code, i)) && ins[i].column == ColumnAt(columns, PcOf(code, i))
  }

  ghost predicate AllDebugSet(code: seq<BcIns>, ins: seq<PaIns>, lines: seq<LP.Entry>, columns: seq<LP.Entry>) {
    |ins| <= |code| + 1 && forall i :: 0 <= i < |ins| ==> DebugSet(code, ins, i, lines, columns)
  }

  ghost predicate AllJumpsDone(code: seq<BcIns>, ins: seq<PaIns>) {
    forall i :: 0 <= i < |code| ==> JumpDone(code, ins, i)
  }

  lemma JumpsFilled(code: seq<BcIns>, ins: seq<PaIns>)
    requires Shape(code, ins) && JumpsLeft(code, ins, JumpList(code, |code|), |JumpList(code, |code|)|)
    ensures AllJumpsDone(code, ins)
  {
    forall i | 0 <= i < |code|
      ensures JumpDone(code, ins, i)
    {
      if code[i].jump.Some? {
        var j := JumpListHas(code, |code|, i);
      }
    }
  }

  /** Lines and columns leave the rest alone. */
  lemma DebugFilled(code: seq<BcIns>, a: seq<PaIns>, b: seq<PaIns>, c: seq<PaIns>, lines: seq<LP.Entry>, columns: seq<LP.Entry>)
    requires LinesSet(code, a, b, lines, |b|) && ColumnsSet(code, b, c, columns, |c|) && AllJumpsDone(code, a)
    ensures |a| == |c| && AllDebugSet(code, c, lines, columns) && AllJumpsDone(code, c)
  {
    hide LineAt, ColumnAt, PcOf, Label;
    forall i | 0 <= i < |code|
      ensures JumpDone(code, c, i)
    {
      assert JumpDone(code, a, i);
    }
  }

  lemma ExtendsKeepsAll(code: seq<BcIns>, a: seq<PaIns>, b: seq<PaIns>, lines: seq<LP.Entry>, columns: seq<LP.Entry>)
    requires Shape(code, a) && Extends(a, b) && AllDebugSet(code, a, lines, columns) && AllJumpsDone(code, a)
    ensures AllDebugSet(code, b, lines, columns) && AllJumpsDone(code, b)
  {
    ExtendsKeeps(code, a, b);
    hide JumpDone, LineAt, ColumnAt, PcOf, Label;
    forall i | 0 <= i < |b|
      ensures DebugSet(code, b, i, lines, columns)
    {
      assert DebugSet(code, a, i, lines, columns);
    }
  }

  lemma NoJumpDoneYet(code: seq<BcIns>, ins: seq<PaIns>)
    requires |code| <= |ins| <= |code| + 1 && forall i :: 0 <= i < |code| ==> ins[i] == Converted(code[i])
    ensures JumpsLeft(code, ins, JumpList(code, |code|), 0)
  {
    hide JumpList, JumpDone;
    JumpListIs(code, |code|);
  }

  // ----- the processor -----

  /** AbcCodeProcessor. */
  class AbcCodeProcessor {
    const code: seq<BcIns>
    const tries: seq<TryBlock>
    var ins: seq<PaIns>
    var catchBlocks: seq<CatchBlock>
    var pcIdx: map<nat, nat>
    var idxPc: map<nat, nat>
    var jumps: seq<nat>
    var tryBegin: nat
    var tryEnd: nat
    var locals: seq<LP.Local>

    constructor (code: seq<BcIns>, tries: seq<TryBlock>)
      ensures this.code == code && this.tries == tries
      ensures ins == [] && catchBlocks == [] && pcIdx == map[] && idxPc == map[] && jumps == [] && locals == []
    {
      this.code, this.tries := code, tries;
      ins, catchBlocks, pcIdx, idxPc, jumps, tryBegin, tryEnd, locals := [], [], map[], map[], [], 0, 0, [];
    }

    /** The instructions and the maps agree with the code. */
    ghost predicate Valid()
      reads this
    {
      FitsReader(code) && Shape(code, ins) && Mapped(code, |ins|, pcIdx, idxPc)
    }

    /** The first i instructions have been read. */
    ghost predicate HasRead(i: nat)
      reads this
    {
      && i <= |code| && |ins| == i && Mapped(code, i, pcIdx, idxPc) && jumps == JumpList(code, i)
      && Unlabelled(code, ins)
    }

    method FillInsWithoutLabels()
      requires FitsReader(code) && ins == [] && pcIdx == map[] && idxPc == map[] && jumps == []
      modifies this`ins, this`pcIdx, this`idxPc, this`jumps
      ensures HasRead(|code|) && Valid()
    {
      var pc := 0;
      NothingMapped(code);
      assert HasRead(0);
      for i := 0 to |code|
        invariant pc == PcOf(code, i) && HasRead(i)
      {
        hide HasRead, Mapped, FitsReader;
        ReadIns(i, pc);
        pc := pc + code[i].size;
      }
    }

    method ReadIns(i: nat, pc: nat)
      requires FitsReader(code) && i < |code| && pc == PcOf(code, i) && HasRead(i)
      modifies this`ins, this`pcIdx, this`idxPc, this`jumps
      ensures HasRead(i + 1)
    {
      MapNext(code, i, pcIdx, idxPc);
      assert Unlabelled(code, ins + [Converted(code[i])]);
      hide Mapped, PcOf, FitsReader, Emplace, Converted, Unlabelled;
      if code[i].jump.Some? {
        jumps := jumps + [i];
      }
      ins := ins + [Converted(code[i])];
      pcIdx := Emplace(pcIdx, pc, i);
      idxPc := Emplace(idxPc, i, pc);
    }

    method NeedToAddDummyEndIns() returns (need: bool)
      ensures need <==> EndsAtCodeEnd(code, tries)
    {
      need := false;
      for i := 0 to |tries|
        invariant need <==> exists k, j :: 0 <= k < i && 0 <= j < |tries[k].catches| && CatchEndsAt(tries[k].catches[j], PcOf(code, |code|))
      {
        ghost var before := need;
        for j := 0 to |tries[i].catches|
          invariant need <==> before || exists k :: 0 <= k < j && CatchEndsAt(tries[i].catches[k], PcOf(code, |code|))
        {
          if (tries[i].catches[j].handlerPc + tries[i].catches[j].codeSize) % UINT32 == PcOf(code, |code|) {
            need := true;
          }
        }
      }
    }

    method AddDummyEndIns()
      requires Valid() && |ins| == |code|
      modifies this`ins, this`pcIdx, this`idxPc
      ensures |ins| == |code| + 1 && Valid()
      ensures ins == old(ins) + [PaIns(false, Some(Label(|code|)), None, None, NO_LINE, UINT_MAX)]
    {
      MapNext(code, |code|, pcIdx, idxPc);
      hide Mapped;
      var idx, size := |ins|, PcOf(code, |code|);
      pcIdx := Emplace(pcIdx, size, idx);
      idxPc := Emplace(idxPc, idx, size);
      ins := ins + [PaIns(false, Some(Label(idx)), None, None, NO_LINE, UINT_MAX)];
    }

    /** GetInstIdxByInstPc: the instruction at pc, or one past the last. */
    method GetInstIdxByInstPc(pc: nat) returns (idx: nat)
      requires Valid()
      ensures idx == Found(code, |ins|, pc)
    {
      LastPc(code, |ins|, pcIdx, idxPc);
      FoundIs(code, |ins|, pcIdx, idxPc, pc);
      hide Mapped, Found, Shape;
      if |pcIdx| == 0 {
        return 0;
      }
      if pc !in pcIdx {
        var last :| last in pcIdx && forall p :: p in pcIdx ==> p <= last;
        return pcIdx[last] + 1;
      }
      return pcIdx[pc];
    }

    /** AddLabel4InsAtIndex: in bounds only for an instruction that exists. */
    method AddLabel4InsAtIndex(idx: nat)
      requires Valid() && idx < |ins|
      modifies this`ins
      ensures ins == Marked(old(ins), idx) && Valid()
    {
      MarkExtends(code, ins, idx);
      if ins[idx].labelName.Some? {
        return;
      }
      ins := ins[idx := ins[idx].(labelName := Some(Label(idx)))];
    }

    method AddLabel4InsAtPc(pc: nat)
      requires Valid() && OnBoundary(code, |ins|, pc)
      modifies this`ins
      ensures Extends(old(ins), ins) && Valid() && HasLabelAt(code, ins, pc)
    {
      MarkExtends(code, ins, IndexAt(code, |ins|, pc));
      hide Mapped, FitsReader;
      var idx := GetInstIdxByInstPc(pc);
      AddLabel4InsAtIndex(idx);
    }

    // ----- jumps -----

    /** AddJumpLabel4InsAtIndex; the target is computed in 32 bits. */
    method AddJumpLabel4InsAtIndex(i: nat)
      requires Valid() && i < |code| && code[i].jump.Some? && JumpPending(code, ins, i) && GoodJump(code, |ins|, i)
      modifies this`ins
      ensures var k := IndexAt(code, old(|ins|), PcOf(code, i) + code[i].jump.value);
              ins == Jumping(Marked(old(ins), k), i, k)
      ensures Valid() && JumpDone(code, ins, i)
    {
      hide Mapped, Located, PcOf, FitsReader, OnBoundary;
      ShapeSize(code, ins);
      PcKnown(code, |ins|, pcIdx, idxPc, i);
      BoundaryFits(code, |ins|, PcOf(code, i) + code[i].jump.value);
      MarkExtends(code, ins, IndexAt(code, |ins|, PcOf(code, i) + code[i].jump.value));
      var pc := idxPc[i];
      var dst := (pc + ins[i].imm.value) % UINT32;
      var k := GetInstIdxByInstPc(dst);
      AddLabel4InsAtIndex(k);
      ins := ins[i := ins[i].(imm := None, id := ins[k].labelName)];
    }

    method AddJumpLabels()
      requires Valid() && JumpsLeft(code, ins, jumps, 0)
      requires forall i :: 0 <= i < |code| ==> GoodJump(code, |ins|, i)
      modifies this`ins
      ensures Valid() && |ins| == old(|ins|) && JumpsLeft(code, ins, jumps, |jumps|)
    {
      for m := 0 to |jumps|
        invariant Valid() && |ins| == old(|ins|) && JumpsLeft(code, ins, jumps, m)
      {
        ghost var was := ins;
        assert JumpPending(code, ins, jumps[m]) && GoodJump(code, |ins|, jumps[m]);
        hide Mapped, JumpDone, JumpPending, GoodJump, Shape, FitsReader;
        AddJumpLabel4InsAtIndex(jumps[m]);
        JumpNext(code, was, jumps, m, IndexAt(code, |was|, PcOf(code, jumps[m]) + code[jumps[m]].jump.value));
      }
    }

    // ----- catch blocks -----

    method HandleTryBlock(t: TryBlock)
      requires Valid() && GoodTry(code, |ins|, t)
      modifies this`ins, this`tryBegin, this`tryEnd
      ensures Valid() && Extends(old(ins), ins)
      ensures tryBegin == t.startPc && tryEnd == t.startPc + t.length
      ensures HasLabelAt(code, ins, tryBegin) && HasLabelAt(code, ins, tryEnd)
    {
      BoundaryFits(code, |ins|, t.startPc + t.length);
      ghost var was := ins;
      hide Mapped, FitsReader;
      tryBegin := t.startPc;
      tryEnd := (t.startPc + t.length) % UINT32;
      AddLabel4InsAtPc(tryBegin);
      ghost var half := ins;
      AddLabel4InsAtPc(tryEnd);
      ExtendsKeeps(code, half, ins);
      ExtendsFurther(was, half, ins);
    }

    /** HandleCatchBlock, after HandleTryBlock has set the range. */
    method HandleCatchBlock(c: Catch, ghost r: Range) returns (block: CatchBlock)
      requires Valid() && GoodCatch(code, |ins|, c) && tryBegin == r.startPc && tryEnd == r.startPc + r.length
      requires HasLabelAt(code, ins, tryBegin) && HasLabelAt(code, ins, tryEnd)
      modifies this`ins, this`catchBlocks
      ensures Valid() && Extends(old(ins), ins)
      ensures catchBlocks == old(catchBlocks) + [block] && Stands(code, ins, Guard(r, c), block)
    {
      hide Mapped, FitsReader, HasLabelAt, Shape, Extends, GoodGuard, GoodCatch, BlockOf, OnBoundary, PcOf;
      ShapeSize(code, ins);
      GuardIsGood(code, ins, r, c);
      ghost var was := ins;
      var end := AddCatchLabels(c);
      ExtendsLength(was, ins);
      block := FillCatchBlockLabels(c, end, r);
      catchBlocks := catchBlocks + [block];
    }

    method FillCatchBlockLabels(c: Catch, end: nat, ghost r: Range) returns (block: CatchBlock)
      requires Valid() && GoodGuard(code, |ins|, Guard(r, c))
      requires tryBegin == r.startPc && tryEnd == r.startPc + r.length && end == c.handlerPc + c.codeSize
      ensures block == BlockOf(code, |ins|, Guard(r, c))
    {
      hide Mapped, FitsReader, OnBoundary, LabelAt;
      var a := GetLabelNameAtPc(tryBegin);
      var b := GetLabelNameAtPc(tryEnd);
      var d := GetLabelNameAtPc(c.handlerPc);
      var e := GetLabelNameAtPc(end);
      block := CatchBlock(a, b, d, e, c.exceptionRecord);
    }

    method AddCatchLabels(c: Catch) returns (end: nat)
      requires Valid() && GoodCatch(code, |ins|, c)
      modifies this`ins
      ensures Valid() && Extends(old(ins), ins) && end == c.handlerPc + c.codeSize
      ensures HasLabelAt(code, ins, c.handlerPc) && HasLabelAt(code, ins, end)
      ensures forall pc: int :: old(HasLabelAt(code, ins, pc)) ==> HasLabelAt(code, ins, pc)
    {
      BoundaryFits(code, |ins|, c.handlerPc + c.codeSize);
      ghost var was := ins;
      hide Mapped, FitsReader;
      end := (c.handlerPc + c.codeSize) % UINT32;
      AddLabel4InsAtPc(c.handlerPc);
      ghost var half := ins;
      AddLabel4InsAtPc(end);
      ExtendsKeeps(code, half, ins);
      ExtendsFurther(was, half, ins);
      ExtendsKeeps(code, was, ins);
    }

    method GetLabelNameAtPc(pc: nat) returns (name: string)
      requires Valid() && OnBoundary(code, |ins|, pc)
      ensures name == LabelAt(code, |ins|, pc)
    {
      var idx := GetInstIdxByInstPc(pc);
      name := Label(idx);
    }

    /** The catch blocks of one try. */
    method FillTry(t: TryBlock, ghost gs: seq<Guard>)
      requires Valid() && GoodTry(code, |ins|, t) && AllStand(code, ins, gs, catchBlocks)
      modifies this`ins, this`catchBlocks, this`tryBegin, this`tryEnd
      ensures Valid() && Extends(old(ins), ins)
      ensures AllStand(code, ins, gs + GuardsOf(t, |t.catches|), catchBlocks)
    {
      hide Mapped, FitsReader, HasLabelAt, Extends, Shape, AllStand, OnBoundary, GoodCatch;
      ghost var was := ins;
      ShapeSize(code, ins);
      HandleTryBlock(t);
      AllStandKept(code, was, ins, gs, catchBlocks);
      assert gs + GuardsOf(t, 0) == gs;
      for j := 0 to |t.catches|
        invariant Valid() && Extends(was, ins)
        invariant tryBegin == t.startPc && tryEnd == t.startPc + t.length
        invariant HasLabelAt(code, ins, tryBegin) && HasLabelAt(code, ins, tryEnd)
        invariant AllStand(code, ins, gs + GuardsOf(t, j), catchBlocks)
      {
        ghost var half, blocks := ins, catchBlocks;
        ExtendsLength(was, half);
        var block := HandleCatchBlock(t.catches[j], Range(t.startPc, t.length));
        ExtendsFurther(was, half, ins);
        ExtendsKeeps(code, half, ins);
        AllStandKept(code, half, ins, gs + GuardsOf(t, j), blocks);
        OneMore(code, ins, gs, t, j, blocks, block);
      }
    }

    method FillCatchBlocks()
      requires Valid() && catchBlocks == [] && forall i :: 0 <= i < |tries| ==> GoodTry(code, |ins|, tries[i])
      modifies this`ins, this`catchBlocks, this`tryBegin, this`tryEnd
      ensures Valid() && Extends(old(ins), ins)
      ensures AllStand(code, ins, Flatten(tries, |tries|), catchBlocks)
    {
      hide Mapped, FitsReader, Shape, AllStand, GoodTry, GuardsOf, Extends, PcOf;
      ShapeSize(code, ins);
      ExtendsItself(ins);
      NoneStand(code, ins);
      for i := 0 to |tries|
        invariant Valid() && Extends(old(ins), ins)
        invariant AllStand(code, ins, Flatten(tries, i), catchBlocks)
      {
        ghost var half := ins;
        ExtendsLength(old(ins), half);
        FillTry(tries[i], Flatten(tries, i));
        ExtendsFurther(old(ins), half, ins);
      }
    }

    // ----- debug information -----

    /** The first half of FillInsDebug. */
    method FillLines(table: seq<LP.Entry>)
      requires Valid() && LP.Sorted(table) && (table != [] ==> table[0].offset == 0)
      modifies this`ins
      ensures Valid() && LinesSet(code, old(ins), ins, table, |ins|)
    {
      hide Mapped, FitsReader, LP.Sorted, LP.Lookup, Shape, OnBoundary;
      ShapeSize(code, ins);
      var idx: nat, start: nat, end: nat, line := 0, UINT_MAX, UINT_MAX, NO_LINE;
      for i := 0 to |ins|
        invariant |ins| == old(|ins|) && LinesSet(code, old(ins), ins, table, i)
        invariant CursorAt(table, idx, start, end, if i == 0 then 0 else PcOf(code, i - 1))
        invariant idx == 0 ==> start == UINT_MAX && line == NO_LINE
      {
        PcKnown(code, |ins|, pcIdx, idxPc, i);
        idx, start, end := SkipToNextEntryIfNeeded(idx, start, end, idxPc[i], table);
        line := if idx > 0 then table[idx - 1].value else line;
        ins := ins[i := ins[i].(line := line)];
      }
      LinesKeepShape(code, old(ins), ins, table);
    }

    /** The second half; here the first entry need not be at the first instruction. */
    method FillColumns(table: seq<LP.Entry>)
      requires Valid() && LP.Sorted(table)
      modifies this`ins
      ensures Valid() && ColumnsSet(code, old(ins), ins, table, |ins|)
    {
      hide Mapped, FitsReader, LP.Sorted, LP.Lookup, Shape, OnBoundary;
      ShapeSize(code, ins);
      var idx: nat, start: nat, column := 0, 0, UINT_MAX;
      var end: nat := if |table| > 0 then table[0].offset else UINT_MAX;
      for i := 0 to |ins|
        invariant |ins| == old(|ins|) && ColumnsSet(code, old(ins), ins, table, i)
        invariant CursorAt(table, idx, start, end, if i == 0 then 0 else PcOf(code, i - 1))
        invariant idx == 0 ==> start == 0 && column == UINT_MAX && (table != [] ==> end == table[0].offset)
      {
        PcKnown(code, |ins|, pcIdx, idxPc, i);
        idx, start, end := SkipToNextEntryIfNeeded(idx, start, end, idxPc[i], table);
        column := if idx > 0 then table[idx - 1].value else column;
        ins := ins[i := ins[i].(column := column)];
      }
      ColumnsKeepShape(code, old(ins), ins, table);
    }

    /** FillIns up to the labels of the jumps. */
    method FillInsAndJumps()
      requires WellFormed(code, tries) && ins == [] && pcIdx == map[] && idxPc == map[] && jumps == []
      modifies this`ins, this`pcIdx, this`idxPc, this`jumps
      ensures Valid() && |ins| == Slots(code, tries) && AllJumpsDone(code, ins)
    {
      assert FitsReader(code);
      assert forall i :: 0 <= i < |code| ==> GoodJump(code, Slots(code, tries), i);
      hide WellFormed, Mapped, FitsReader, GoodJump, EndsAtCodeEnd;
      FillInsWithoutLabels();
      var need := NeedToAddDummyEndIns();
      if need {
        AddDummyEndIns();
      }
      NoJumpDoneYet(code, ins);
      AddJumpLabels();
      JumpsFilled(code, ins);
    }

    method FillIns(lines: seq<LP.Entry>, columns: seq<LP.Entry>)
      requires WellFormed(code, tries) && ins == [] && pcIdx == map[] && idxPc == map[] && jumps == []
      requires LP.Sorted(lines) && LP.Sorted(columns) && (lines != [] ==> lines[0].offset == 0)
      modifies this`ins, this`pcIdx, this`idxPc, this`jumps
      ensures Valid() && |ins| == Slots(code, tries) && AllJumpsDone(code, ins) && AllDebugSet(code, ins, lines, columns)
    {
      hide WellFormed, AllJumpsDone, Mapped, AllDebugSet, FitsReader, LP.Sorted, Shape;
      FillInsAndJumps();
      ghost var a := ins;
      FillLines(lines);
      ghost var b := ins;
      FillColumns(columns);
      DebugFilled(code, a, b, ins, lines, columns);
    }

    /** FillProgramData: the whole function is read back. */
    method FillProgramData(lines: seq<LP.Entry>, columns: seq<LP.Entry>, vars: seq<LP.Var>)
      requires WellFormed(code, tries) && ins == [] && catchBlocks == [] && locals == []
      requires pcIdx == map[] && idxPc == map[] && jumps == []
      requires LP.Sorted(lines) && LP.Sorted(columns) && (lines != [] ==> lines[0].offset == 0)
      modifies this
      ensures |ins| == Slots(code, tries) && Shape(code, ins)
      ensures AllJumpsDone(code, ins) && AllDebugSet(code, ins, lines, columns)
      ensures AllStand(code, ins, Flatten(tries, |tries|), catchBlocks)
      ensures LocalsRead(code, |ins|, vars, locals) && |locals| == |vars|
    {
      FillIns(lines, columns);
      assert forall i :: 0 <= i < |tries| ==> GoodTry(code, |ins|, tries[i]);
      hide WellFormed, AllJumpsDone, Mapped, AllDebugSet, FitsReader, LP.Sorted, Shape, GoodTry, AllStand, LocalsRead, Slots, Flatten;
      ghost var a := ins;
      FillCatchBlocks();
      ExtendsKeepsAll(code, a, ins, lines, columns);
      ExtendsLength(a, ins);
      FillLocalVariableTable(vars);
    }

    method FillLocalVariableTable(vars: seq<LP.Var>)
      requires Valid() && locals == []
      modifies this`locals
      ensures LocalsRead(code, |ins|, vars, locals) && |locals| == |vars|
    {
      for k := 0 to |vars|
        invariant LocalsRead(code, |ins|, vars, locals) && |locals| == k
      {
        hide Mapped, Shape, Found, FitsReader;
        var start := GetInstIdxByInstPc(vars[k].start);
        var end := GetInstIdxByInstPc(vars[k].end);
        locals := locals + [LP.Local(vars[k].name, vars[k].reg, start, (end - start) % UINT32)];
      }
    }
  }

  lemma GuardIsGood(code: seq<BcIns>, ins: seq<PaIns>, r: Range, c: Catch)
    requires |ins| <= |code| + 1 && GoodCatch(code, |ins|, c)
    requires HasLabelAt(code, ins, r.startPc) && HasLabelAt(code, ins, r.startPc + r.length)
    ensures GoodGuard(code, |ins|, Guard(r, c))
  {
  }

  lemma ShapeSize(code: seq<BcIns>, ins: seq<PaIns>)
    requires Shape(code, ins)
    ensures |code| <= |ins| <= |code| + 1
  {
  }

  lemma ExtendsLength(a: seq<PaIns>, b: seq<PaIns>)
    requires Extends(a, b)
    ensures |a| == |b|
  {
  }

  lemma OneMore(code: seq<BcIns>, ins: seq<PaIns>, gs: seq<Guard>, t: TryBlock, j: nat, blocks: seq<CatchBlock>, block: CatchBlock)
    requires j < |t.catches| && AllStand(code, ins, gs + GuardsOf(t, j), blocks)
    requires Stands(code, ins, Guard(Range(t.startPc, t.length), t.catches[j]), block)
    ensures AllStand(code, ins, gs + GuardsOf(t, j + 1), blocks + [block])
  {
    hide Stands;
    assert gs + GuardsOf(t, j + 1) == (gs + GuardsOf(t, j)) + [Guard(Range(t.startPc, t.length), t.catches[j])];
  }

  lemma BoundaryFits(code: seq<BcIns>, n: nat, pc: int)
    requires FitsReader(code) && n <= |code| + 1 && OnBoundary(code, n, pc)
    ensures 0 <= pc < UINT_MAX && pc % UINT32 == pc
  {
    var k := IndexAt(code, n, pc);
    if k < |code| {
      PcGrows(code, k, |code|);
    }
  }

  lemma NothingMapped(code: seq<BcIns>)
    ensures Mapped(code, 0, map[], map[])
  {
  }

  /** What looking an offset up among n instructions gives. */
  ghost function Found(code: seq<BcIns>, n: nat, pc: int): (idx: nat)
    requires n <= |code| + 1
    ensures idx <= n
  {
    if OnBoundary(code, n, pc) then IndexAt(code, n, pc) else n
  }

  lemma FoundIs(code: seq<BcIns>, n: nat, pcIdx: map<nat, nat>, idxPc: map<nat, nat>, pc: nat)
    requires FitsReader(code) && Mapped(code, n, pcIdx, idxPc)
    ensures Found(code, n, pc) == if pc in pcIdx then pcIdx[pc] else n
    ensures |pcIdx| == 0 ==> n == 0
  {
    assert pc in pcIdx ==> Begins(code, n, pcIdx, pc);
    if OnBoundary(code, n, pc) {
      assert Located(code, IndexAt(code, n, pc), pcIdx, idxPc);
    }
    if n > 0 {
      assert Located(code, 0, pcIdx, idxPc);
    }
  }

  /** The map's greatest offset is that of the last instruction. */
  lemma LastPc(code: seq<BcIns>, n: nat, pcIdx: map<nat, nat>, idxPc: map<nat, nat>)
    requires FitsReader(code) && Mapped(code, n, pcIdx, idxPc)
    ensures |pcIdx| > 0 ==> exists last :: last in pcIdx && forall p :: p in pcIdx ==> p <= last
    ensures forall last :: last in pcIdx && (forall p :: p in pcIdx ==> p <= last) ==> pcIdx[last] == n - 1
  {
    forall any | any in pcIdx
      ensures n > 0 && PcOf(code, n - 1) in pcIdx && any <= PcOf(code, n - 1)
      ensures any == PcOf(code, n - 1) ==> pcIdx[any] == n - 1
    {
      assert Begins(code, n, pcIdx, any);
      assert Located(code, n - 1, pcIdx, idxPc);
      if pcIdx[any] < n - 1 {
        PcGrows(code, pcIdx[any], n - 1);
      }
    }
    if |pcIdx| > 0 {
      var any :| any in pcIdx;
      assert PcOf(code, n - 1) in pcIdx;
    }
  }

  // ----- when the reader stays inside the instructions -----

  /** A jump or a try goes to the very end of the code. */
  predicate ReachesEnd(code: seq<BcIns>, tries: seq<TryBlock>) {
    || (exists i :: 0 <= i < |code| && JumpsToEnd(code, i))
    || (exists i :: 0 <= i < |tries| && TryReachesEnd(code, tries[i]))
  }

  predicate JumpsToEnd(code: seq<BcIns>, i: nat)
    requires i < |code|
  {
    code[i].jump.Some? && PcOf(code, i) + code[i].jump.value == PcOf(code, |code|)
  }

  predicate TryReachesEnd(code: seq<BcIns>, t: TryBlock) {
    var end := PcOf(code, |code|);
    t.startPc == end || t.startPc + t.length == end || exists j :: 0 <= j < |t.catches| && CatchReachesEnd(t.catches[j], end)
  }

  predicate CatchReachesEnd(c: Catch, end: nat) { c.handlerPc == end || c.handlerPc + c.codeSize == end }

  lemma BeforeEnd(code: seq<BcIns>, pc: int)
    requires FitsReader(code) && OnBoundary(code, |code| + 1, pc)
    ensures OnBoundary(code, |code|, pc) <==> pc != PcOf(code, |code|)
  {
    var k := IndexAt(code, |code| + 1, pc);
    if OnBoundary(code, |code|, pc) {
      PcGrows(code, IndexAt(code, |code|, pc), |code|);
    } else {
      assert k == |code|;
    }
  }

  lemma CatchBeforeEnd(code: seq<BcIns>, c: Catch)
    requires FitsReader(code) && GoodCatch(code, |code| + 1, c)
    ensures GoodCatch(code, |code|, c) <==> !CatchReachesEnd(c, PcOf(code, |code|))
  {
    hide OnBoundary, PcOf, FitsReader;
    BeforeEnd(code, c.handlerPc);
    BeforeEnd(code, c.handlerPc + c.codeSize);
  }

  lemma TryBeforeEnd(code: seq<BcIns>, t: TryBlock)
    requires FitsReader(code) && GoodTry(code, |code| + 1, t)
    ensures GoodTry(code, |code|, t) <==> !TryReachesEnd(code, t)
  {
    hide OnBoundary, PcOf, FitsReader, GoodCatch, CatchReachesEnd;
    BeforeEnd(code, t.startPc);
    BeforeEnd(code, t.startPc + t.length);
    forall j | 0 <= j < |t.catches|
      ensures GoodCatch(code, |code|, t.catches[j]) <==> !CatchReachesEnd(t.catches[j], PcOf(code, |code|))
    {
      CatchBeforeEnd(code, t.catches[j]);
    }
  }

  /** Every offset that the reader looks up leads to one of its instructions. */
  ghost predicate LooksInside(code: seq<BcIns>, tries: seq<TryBlock>) {
    && (forall i :: 0 <= i < |code| ==> JumpLooksInside(code, Slots(code, tries), i))
    && (forall i :: 0 <= i < |tries| ==> TryLooksInside(code, Slots(code, tries), tries[i]))
  }

  ghost predicate JumpLooksInside(code: seq<BcIns>, n: nat, i: nat)
    requires n <= |code| + 1 && i < |code|
  {
    code[i].jump.Some? ==> Found(code, n, (PcOf(code, i) + code[i].jump.value) % 0x1_0000_0000) < n
  }

  ghost predicate TryLooksInside(code: seq<BcIns>, n: nat, t: TryBlock)
    requires n <= |code| + 1
  {
    && Found(code, n, t.startPc) < n && Found(code, n, (t.startPc + t.length) % 0x1_0000_0000) < n
    && forall j :: 0 <= j < |t.catches| ==> CatchLooksInside(code, n, t.catches[j])
  }

  ghost predicate CatchLooksInside(code: seq<BcIns>, n: nat, c: Catch)
    requires n <= |code| + 1
  {
    Found(code, n, c.handlerPc) < n && Found(code, n, (c.handlerPc + c.codeSize) % 0x1_0000_0000) < n
  }

  /** An offset of the code is looked up as it is, and found just when an instruction begins there. */
  lemma FoundInside(code: seq<BcIns>, n: nat, pc: int)
    requires FitsReader(code) && n <= |code| + 1 && OnBoundary(code, |code| + 1, pc)
    ensures pc % UINT32 == pc && (Found(code, n, pc) < n <==> OnBoundary(code, n, pc))
  {
    BoundaryFits(code, |code| + 1, pc);
  }

  lemma CatchInside(code: seq<BcIns>, n: nat, c: Catch)
    requires FitsReader(code) && n <= |code| + 1 && GoodCatch(code, |code| + 1, c)
    ensures CatchLooksInside(code, n, c) <==> GoodCatch(code, n, c)
  {
    hide OnBoundary, FitsReader, Found;
    FoundInside(code, n, c.handlerPc);
    FoundInside(code, n, c.handlerPc + c.codeSize);
  }

  lemma TryInside(code: seq<BcIns>, n: nat, t: TryBlock)
    requires FitsReader(code) && n <= |code| + 1 && GoodTry(code, |code| + 1, t)
    ensures TryLooksInside(code, n, t) <==> GoodTry(code, n, t)
  {
    hide OnBoundary, FitsReader, Found, GoodCatch, CatchLooksInside;
    FoundInside(code, n, t.startPc);
    FoundInside(code, n, t.startPc + t.length);
    forall j | 0 <= j < |t.catches|
      ensures CatchLooksInside(code, n, t.catches[j]) <==> GoodCatch(code, n, t.catches[j])
    {
      CatchInside(code, n, t.catches[j]);
    }
  }

  /** The reader can be used, in this sense, on well-formed functions and no others. */
  lemma WellFormedLooksInside(code: seq<BcIns>, tries: seq<TryBlock>)
    requires FitsReader(code) && InBounds(code, tries, |code| + 1)
    ensures LooksInside(code, tries) <==> WellFormed(code, tries)
  {
    hide OnBoundary, FitsReader, Found, GoodTry, TryLooksInside, PcOf, EndsAtCodeEnd;
    var n := Slots(code, tries);
    forall i | 0 <= i < |code|
      ensures JumpLooksInside(code, n, i) <==> GoodJump(code, n, i)
    {
      assert GoodJump(code, |code| + 1, i);
      if code[i].jump.Some? {
        FoundInside(code, n, PcOf(code, i) + code[i].jump.value);
      }
    }
    forall i | 0 <= i < |tries|
      ensures TryLooksInside(code, n, tries[i]) <==> GoodTry(code, n, tries[i])
    {
      TryInside(code, n, tries[i]);
    }
    hide JumpLooksInside, GoodJump;
  }

  /** With every target at an instruction or at the end of the code, the reader uses only
      instructions that exist if and only if nothing goes to the end, or some catch block ends there. */
  lemma StaysInsideIff(code: seq<BcIns>, tries: seq<TryBlock>)
    requires FitsReader(code) && InBounds(code, tries, |code| + 1)
    ensures LooksInside(code, tries) <==> EndsAtCodeEnd(code, tries) || !ReachesEnd(code, tries)
  {
    hide FitsReader, InBounds, LooksInside, WellFormed, EndsAtCodeEnd, ReachesEnd;
    WellFormedLooksInside(code, tries);
    WellFormedIff(code, tries);
  }

  lemma WellFormedIff(code: seq<BcIns>, tries: seq<TryBlock>)
    requires FitsReader(code) && InBounds(code, tries, |code| + 1)
    ensures WellFormed(code, tries) <==> EndsAtCodeEnd(code, tries) || !ReachesEnd(code, tries)
  {
    hide OnBoundary, PcOf, FitsReader, GoodTry, TryReachesEnd, EndsAtCodeEnd;
    forall i | 0 <= i < |code|
      ensures GoodJump(code, |code|, i) <==> !JumpsToEnd(code, i)
    {
      assert GoodJump(code, |code| + 1, i);
      if code[i].jump.Some? {
        BeforeEnd(code, PcOf(code, i) + code[i].jump.value);
      }
    }
    forall i | 0 <= i < |tries|
      ensures GoodTry(code, |code|, tries[i]) <==> !TryReachesEnd(code, tries[i])
    {
      TryBeforeEnd(code, tries[i]);
    }
    hide GoodJump, JumpsToEnd;
  }

  /** A try that ends with the code while its catch block does not: the end has no instruction. */
  lemma TryEndOutside()
    ensures var code, tries := [BcIns(1, None)], [TryBlock(0, 1, [Catch(0, 0, "")])];
            FitsReader(code) && InBounds(code, tries, |code| + 1) && !LooksInside(code, tries)
            && Found(code, Slots(code, tries), 1) == 1 == Slots(code, tries)
  {
    var code, tries := [BcIns(1, None)], [TryBlock(0, 1, [Catch(0, 0, "")])];
    assert PcOf(code, 0) == 0 && PcOf(code, 1) == 1;
    assert !EndsAtCodeEnd(code, tries);
    assert GoodCatch(code, 2, tries[0].catches[0]);
    assert GoodTry(code, 2, tries[0]);
    assert !OnBoundary(code, 1, 1);
    assert !TryLooksInside(code, 1, tries[0]);
  }
}

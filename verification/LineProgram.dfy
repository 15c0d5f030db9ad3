/** The line number program of a function: what the assembler emits
    (assembler/assembly-emitter.cpp) and what replaying it gives
    (libpandafile/line_number_program.h, libpandafile/debug_info_extractor.cpp). */
module LineProgram {
  import opened Options
  import opened Sums

  // ----- the program -----

  /** The operations of LineNumberProgramItem; Special holds the opcode byte. */
  datatype Op =
    | AdvancePc(pcInc: nat)
    | AdvanceLine(lineInc: int)
    | Special(opcode: nat)
    | SetColumn(column: nat)
    | StartLocal(reg: int, name: string)
    | EndLocal(reg: int)

  const OPCODE_BASE := 12
  const LINE_RANGE := 15
  const LINE_BASE := -4
  const UINT32_MAX := 0xFFFF_FFFF

  /** LineNumberProgramItem::EmitSpecialOpcode; the product is taken in 32 bits. */
  function SpecialOpcode(pcInc: nat, lineInc: int): Option<Op> {
    if lineInc < LINE_BASE || lineInc - LINE_BASE >= LINE_RANGE then None
    else
      var opcode := (lineInc - LINE_BASE) + (pcInc * LINE_RANGE) % (UINT32_MAX + 1) + OPCODE_BASE;
      if opcode > 255 then None else Some(Special(opcode))
  }

  datatype Entry = Entry(offset: nat, value: int)
  datatype Var = Var(reg: int, name: string, start: nat, end: nat)

  /** LineProgramState together with the tables of LineNumberProgramHandler. */
  datatype Tables = Tables(addr: nat, line: int, lines: seq<Entry>, columns: seq<Entry>, locals: seq<Var>)

  function Begin(line: int): Tables { Tables(0, line, [Entry(0, line)], [], []) }

  function SpecialPc(opcode: nat): nat
    requires opcode >= OPCODE_BASE
  {
    (opcode - OPCODE_BASE) / LINE_RANGE
  }

  function SpecialLine(opcode: nat): int
    requires opcode >= OPCODE_BASE
  {
    (opcode - OPCODE_BASE) % LINE_RANGE + LINE_BASE
  }

  /** HandleEndLocal: the youngest variable of the register ends. */
  function EndYoungest(locals: seq<Var>, reg: int, addr: nat): (res: seq<Var>)
    ensures |res| == |locals|
  {
    if locals == [] then []
    else
      var n := |locals| - 1;
      if locals[n].reg == reg then locals[..n] + [locals[n].(end := addr)]
      else EndYoungest(locals[..n], reg, addr) + [locals[n]]
  }

  function Step(t: Tables, op: Op): Tables {
    match op
    case AdvancePc(n) => t.(addr := t.addr + n)
    case AdvanceLine(d) => t.(line := t.line + d)
    case Special(opcode) =>
      if opcode < OPCODE_BASE then t
      else
        var addr, line := t.addr + SpecialPc(opcode), t.line + SpecialLine(opcode);
        t.(addr := addr, line := line, lines := t.lines + [Entry(addr, line)])
    case SetColumn(c) => t.(columns := t.columns + [Entry(t.addr, c)])
    case StartLocal(reg, name) => t.(locals := t.locals + [Var(reg, name, t.addr, 0)])
    case EndLocal(reg) => t.(locals := EndYoungest(t.locals, reg, t.addr))
  }

  function Replay(line: int, ops: seq<Op>): Tables {
    if ops == [] then Begin(line) else Step(Replay(line, ops[..|ops| - 1]), ops[|ops| - 1])
  }

  lemma ReplayAppend(line: int, ops: seq<Op>, op: Op)
    ensures Replay(line, ops + [op]) == Step(Replay(line, ops), op)
  {
    assert (ops + [op])[..|ops|] == ops;
  }

  /** A special opcode says what was asked for exactly when the product did not wrap. */
  lemma SpecialOpcodeExact(pcInc: nat, lineInc: int)
    requires SpecialOpcode(pcInc, lineInc).Some?
    ensures SpecialOpcode(pcInc, lineInc).value.opcode >= OPCODE_BASE
    ensures var opcode := SpecialOpcode(pcInc, lineInc).value.opcode;
            (SpecialPc(opcode) == pcInc && SpecialLine(opcode) == lineInc) <==> pcInc <= UINT32_MAX / LINE_RANGE
  {
    var l := lineInc - LINE_BASE;
    var opcode := SpecialOpcode(pcInc, lineInc).value.opcode;
    if pcInc <= UINT32_MAX / LINE_RANGE {
      assert opcode - OPCODE_BASE == pcInc * LINE_RANGE + l;
    } else {
      assert SpecialPc(opcode) <= 16 < pcInc;
    }
  }

  /** There is one for a line increment from -4 to 10 if all of it fits in a byte. */
  lemma SpecialIff(pcInc: nat, lineInc: int)
    requires pcInc <= 286331153
    ensures SpecialOpcode(pcInc, lineInc) == if -4 <= lineInc <= 10 && 15 * pcInc + lineInc + 16 <= 255 then Some(Special(15 * pcInc + lineInc + 16)) else None
  {
  }

  /** An increment for which the product wraps: 286331154 bytes are read back as 1. */
  lemma SpecialOpcodeWraps()
    ensures SpecialOpcode(286331154, 0) == Some(Special(30)) && SpecialPc(30) == 1
  {
  }

  lemma ZeroIsSpecial()
    ensures SpecialOpcode(0, 0) == Some(Special(16)) && SpecialPc(16) == 0 && SpecialLine(16) == 0
  {
  }

  // ----- reading a table -----

  predicate Sorted(table: seq<Entry>) {
    forall j, k :: 0 <= j < k < |table| ==> table[j].offset <= table[k].offset
  }

  /** The value in force at an offset: that of the last entry at or before it. */
  function Lookup(table: seq<Entry>, offset: nat): Option<int> {
    if table == [] then None
    else
      var n := |table| - 1;
      if table[n].offset <= offset then Some(table[n].value) else Lookup(table[..n], offset)
  }

  lemma {:induction false} LookupBetween(table: seq<Entry>, k: nat, offset: nat)
    requires Sorted(table) && k <= |table|
    requires k > 0 ==> table[k - 1].offset <= offset
    requires k < |table| ==> offset < table[k].offset
    ensures Lookup(table, offset) == if k == 0 then None else Some(table[k - 1].value)
  {
    if k < |table| {
      LookupBetween(table[..|table| - 1], k, offset);
    }
  }

  lemma LookupAppend(table: seq<Entry>, e: Entry, offset: nat)
    ensures Lookup(table + [e], offset) == if e.offset <= offset then Some(e.value) else Lookup(table, offset)
  {
    assert (table + [e])[..|table|] == table;
  }

  // ----- the function that is emitted -----

  /** An instruction: valid unless its opcode is INVALID, in which case it emits no code. */
  datatype Ins = Ins(valid: bool, size: nat, canThrow: bool, line: int, column: nat)
  datatype Local = Local(name: string, reg: int, start: nat, length: nat)
  datatype Pair = Pair(insnOrder: nat, variable: nat)

  predicate GoodIns(i: Ins) { 0 < i.size && 0 <= i.line < 0x8000_0000 && i.column <= UINT32_MAX }
  predicate Emittable(ins: seq<Ins>) { forall k :: 0 <= k < |ins| ==> GoodIns(ins[k]) }

  /** No code offset is so large that EmitSpecialOpcode's product could wrap. */
  predicate CodeFits(ins: seq<Ins>) { Pc(ins, |ins|) <= UINT32_MAX / LINE_RANGE }

  /** The offset of instruction i in the emitted code. */
  function Pc(ins: seq<Ins>, i: nat): nat
    requires i <= |ins|
  {
    Sum(EmittedSizes(ins), i)
  }

  function EmittedSizes(ins: seq<Ins>): (s: seq<nat>)
    ensures |s| == |ins| && forall i :: 0 <= i < |ins| ==> s[i] == if ins[i].valid then ins[i].size else 0
  {
    seq(|ins|, i requires 0 <= i < |ins| => if ins[i].valid then ins[i].size else 0)
  }

  lemma PcMonotone(ins: seq<Ins>, i: nat, j: nat)
    requires i <= j <= |ins|
    ensures Pc(ins, i) <= Pc(ins, j)
    ensures i < j && ins[i].valid && ins[i].size > 0 ==> Pc(ins, i) < Pc(ins, j)
  {
    SumGrows(EmittedSizes(ins), i, j);
  }

  /** What a reader of the tables finds for instruction j. */
  predicate LineFound(t: Tables, ins: seq<Ins>, j: nat)
    requires j < |ins|
  {
    Lookup(t.lines, Pc(ins, j)) == Some(ins[j].line)
  }

  predicate ColumnFound(t: Tables, ins: seq<Ins>, j: nat)
    requires j < |ins|
  {
    match Lookup(t.columns, Pc(ins, j))
    case None => ins[j].column == UINT32_MAX
    case Some(c) => ins[j].column == c
  }

  /** The instructions whose line is recorded: all of them, or those that can throw. */
  predicate Recorded(i: Ins, emitDebugInfo: bool) { i.valid && (emitDebugInfo || i.canThrow) }

  // ----- local variables -----

  datatype Event = Started(reg: int, name: string, addr: nat) | Ended(reg: int, addr: nat)

  /** The starts and ends of variables in a program, with the offsets they take effect at. */
  function Events(line: int, ops: seq<Op>): seq<Event> {
    if ops == [] then []
    else
      var init, op := ops[..|ops| - 1], ops[|ops| - 1];
      Events(line, init) + (match op
                            case StartLocal(reg, name) => [Started(reg, name, Replay(line, init).addr)]
                            case EndLocal(reg) => [Ended(reg, Replay(line, init).addr)]
                            case _ => [])
  }

  lemma EventsAppend(line: int, ops: seq<Op>, op: Op)
    ensures Events(line, ops + [op]) == Events(line, ops) + (match op
                                                           case StartLocal(reg, name) => [Started(reg, name, Replay(line, ops).addr)]
                                                           case EndLocal(reg) => [Ended(reg, Replay(line, ops).addr)]
                                                           case _ => [])
  {
    assert (ops + [op])[..|ops|] == ops;
  }

  predicate IsParameter(regsNum: nat, v: Local) { v.reg >= regsNum }

  /** CollectLocalVariable before the sort. */
  function Collect(locals: seq<Local>, regsNum: nat): seq<Pair> {
    if locals == [] then []
    else
      var n := |locals| - 1;
      var v := locals[n];
      Collect(locals[..n], regsNum) + (if IsParameter(regsNum, v) then [] else [Pair(v.start, n), Pair(v.start + v.length, n)])
  }

  predicate SortedPairs(order: seq<Pair>) {
    forall j, k :: 0 <= j < k < |order| ==> order[j].insnOrder <= order[k].insnOrder
  }

  /** Any result of std::sort, which leaves the order of ties open. */
  ghost predicate SortOf(order: seq<Pair>, pairs: seq<Pair>) {
    SortedPairs(order) && multiset(order) == multiset(pairs)
  }

  predicate GoodLocal(v: Local, numIns: nat) { v.start + v.length <= numIns }

  predicate LocalFits(v: Local, regsNum: nat, numIns: nat) { IsParameter(regsNum, v) || GoodLocal(v, numIns) }

  predicate GoodLocals(ins: seq<Ins>, locals: seq<Local>, regsNum: nat) {
    forall i :: 0 <= i < |locals| ==> LocalFits(locals[i], regsNum, |ins|)
  }

  function StartEvent(ins: seq<Ins>, v: Local): Event
    requires v.start <= |ins|
  {
    Started(v.reg, v.name, Pc(ins, v.start))
  }

  function EndEvent(ins: seq<Ins>, v: Local): Event
    requires v.start + v.length <= |ins|
  {
    Ended(v.reg, Pc(ins, v.start + v.length))
  }

  /** What one end of a variable stands for: its start, its end, or both if it has no length. */
  function EventsAt(ins: seq<Ins>, v: Local, n: nat): seq<Event>
    requires GoodLocal(v, |ins|)
  {
    (if n == v.start then [StartEvent(ins, v)] else []) + (if n == v.start + v.length then [EndEvent(ins, v)] else [])
  }

  lemma {:induction false} CollectFacts(locals: seq<Local>, regsNum: nat)
    ensures forall p :: p in Collect(locals, regsNum) ==> p.variable < |locals|
    ensures forall p :: p in Collect(locals, regsNum) ==>
              var v := locals[p.variable];
              !IsParameter(regsNum, v) && (p.insnOrder == v.start || p.insnOrder == v.start + v.length)
  {
    if locals != [] {
      CollectFacts(locals[..|locals| - 1], regsNum);
    }
  }

  lemma {:induction false} CollectHas(locals: seq<Local>, regsNum: nat, x: nat)
    requires x < |locals| && !IsParameter(regsNum, locals[x])
    ensures Pair(locals[x].start, x) in Collect(locals, regsNum)
    ensures Pair(locals[x].start + locals[x].length, x) in Collect(locals, regsNum)
  {
    if x < |locals| - 1 {
      CollectHas(locals[..|locals| - 1], regsNum, x);
    }
  }

  // ----- the emitter -----

  /** The tables once the line has changed at pc bytes further on. */
  function LineRecorded(t: Tables, pc: nat, line: int): Tables {
    t.(addr := t.addr + pc, line := line, lines := t.lines + [Entry(t.addr + pc, line)])
  }

  function ColumnRecorded(t: Tables, pc: nat, column: nat): Tables {
    t.(addr := t.addr + pc, columns := t.columns + [Entry(t.addr + pc, column)])
  }

  /** Where the program stands after all instructions before i: what is still to be advanced,
      and that every recorded instruction so far can be looked up. */
  ghost predicate Tracks(t: Tables, pcInc: nat, prevLine: int, prevColumn: nat, ins: seq<Ins>, i: nat, emitDebugInfo: bool)
    requires i <= |ins|
  {
    && t.addr + pcInc == Pc(ins, i)
    && t.line == prevLine
    && GoodTables(t)
    && t.lines[|t.lines| - 1].value == prevLine
    && (if t.columns == [] then prevColumn == UINT32_MAX else prevColumn == t.columns[|t.columns| - 1].value)
    && (forall j :: 0 <= j < i && Recorded(ins[j], emitDebugInfo) ==> LineFound(t, ins, j))
    && (emitDebugInfo ==> forall j :: 0 <= j < i && ins[j].valid ==> ColumnFound(t, ins, j))
  }

  ghost predicate GoodTables(t: Tables) {
    && Sorted(t.lines) && Sorted(t.columns)
    && (forall k :: 0 <= k < |t.lines| ==> t.lines[k].offset <= t.addr)
    && (forall k :: 0 <= k < |t.columns| ==> t.columns[k].offset <= t.addr)
    && t.lines != [] && t.lines[0].offset == 0
  }

  /** The last entry is in force from its offset on. */
  lemma LastEntryStands(table: seq<Entry>, offset: nat)
    requires table != [] && table[|table| - 1].offset <= offset
    ensures Lookup(table, offset) == Some(table[|table| - 1].value)
  {
  }

  /** A new entry at the offset of instruction i leaves the earlier instructions alone. */
  lemma EarlierUntouched(table: seq<Entry>, e: Entry, ins: seq<Ins>, i: nat)
    requires i < |ins| && Emittable(ins) && e.offset == Pc(ins, i)
    ensures forall j :: 0 <= j < i && ins[j].valid ==> Lookup(table + [e], Pc(ins, j)) == Lookup(table, Pc(ins, j))
    ensures Lookup(table + [e], Pc(ins, i)) == Some(e.value)
  {
    forall j | 0 <= j < i && ins[j].valid
      ensures Lookup(table + [e], Pc(ins, j)) == Lookup(table, Pc(ins, j))
    {
      PcMonotone(ins, j, i);
      assert GoodIns(ins[j]);
      LookupAppend(table, e, Pc(ins, j));
    }
    LookupAppend(table, e, Pc(ins, i));
  }

  lemma LineStep(t: Tables, pcInc: nat, prevLine: int, prevColumn: nat, ins: seq<Ins>, i: nat, emitDebugInfo: bool)
    requires i < |ins| && Emittable(ins) && Tracks(t, pcInc, prevLine, prevColumn, ins, i, emitDebugInfo)
    ensures ins[i].line == prevLine ==> LineFound(t, ins, i)
    ensures var t' := LineRecorded(t, pcInc, ins[i].line);
            Tracks(t', 0, ins[i].line, prevColumn, ins, i, emitDebugInfo) && LineFound(t', ins, i)
  {
    hide Lookup, Pc, Emittable;
    LastEntryStands(t.lines, Pc(ins, i));
    EarlierUntouched(t.lines, Entry(t.addr + pcInc, ins[i].line), ins, i);
  }

  lemma ColumnStep(t: Tables, pcInc: nat, prevLine: int, prevColumn: nat, ins: seq<Ins>, i: nat, emitDebugInfo: bool)
    requires i < |ins| && Emittable(ins) && Tracks(t, pcInc, prevLine, prevColumn, ins, i, emitDebugInfo)
    ensures ins[i].column == prevColumn ==> ColumnFound(t, ins, i)
    ensures var t' := ColumnRecorded(t, pcInc, ins[i].column);
            Tracks(t', 0, prevLine, ins[i].column, ins, i, emitDebugInfo) && ColumnFound(t', ins, i)
  {
    if t.columns != [] {
      LastEntryStands(t.columns, Pc(ins, i));
    }
    hide Pc, Emittable;
    EarlierUntouched(t.columns, Entry(t.addr + pcInc, ins[i].column), ins, i);
  }

  lemma NextIns(t: Tables, pcInc: nat, prevLine: int, prevColumn: nat, ins: seq<Ins>, i: nat, emitDebugInfo: bool)
    requires i < |ins| && Tracks(t, pcInc, prevLine, prevColumn, ins, i, emitDebugInfo)
    requires Recorded(ins[i], emitDebugInfo) ==> LineFound(t, ins, i)
    requires ins[i].valid && emitDebugInfo ==> ColumnFound(t, ins, i)
    ensures Tracks(t, pcInc + (if ins[i].valid then ins[i].size else 0), prevLine, prevColumn, ins, i + 1, emitDebugInfo)
  {
    hide LineFound, ColumnFound, GoodTables;
  }

  /** The increments that are written for pc and line: what the special opcode says if there is
      one, and otherwise the increments themselves. */
  function WrittenPc(pc: nat, line: int): nat {
    if SpecialOpcode(pc, line).None? then pc
    else SpecialOpcodeExact(pc, line); SpecialPc(SpecialOpcode(pc, line).value.opcode)
  }

  function WrittenLine(pc: nat, line: int): int {
    if SpecialOpcode(pc, line).None? then line
    else SpecialOpcodeExact(pc, line); SpecialLine(SpecialOpcode(pc, line).value.opcode)
  }

  /** They are the right ones unless there is an opcode although the product wraps. */
  lemma WrittenExactly(pc: nat, line: int)
    ensures (WrittenPc(pc, line) == pc && WrittenLine(pc, line) == line) <==> SpecialOpcode(pc, line).None? || pc <= UINT32_MAX / LINE_RANGE
  {
    if SpecialOpcode(pc, line).Some? {
      SpecialOpcodeExact(pc, line);
    }
  }

  /** One special opcode records the line. */
  lemma SpecialStep(t: Tables, pc: nat, line: int)
    requires SpecialOpcode(pc, line).Some?
    ensures SpecialOpcode(pc, line).value.Special?
    ensures Step(t, SpecialOpcode(pc, line).value) == LineRecorded(t, WrittenPc(pc, line), t.line + WrittenLine(pc, line))
  {
    SpecialOpcodeExact(pc, line);
  }

  lemma TracksTo(t: Tables, pcInc: nat, prevLine: int, prevColumn: nat, ins: seq<Ins>, i: nat, emitDebugInfo: bool)
    requires i <= |ins| && Tracks(t, pcInc, prevLine, prevColumn, ins, i, emitDebugInfo)
    ensures t.addr + pcInc == Pc(ins, i)
  {
  }

  lemma VariableStep(t: Tables, op: Op)
    requires op.StartLocal? || op.EndLocal?
    ensures Step(t, op) == t.(locals := Step(t, op).locals)
  {
  }

  lemma PendingFits(t: Tables, pcInc: nat, prevLine: int, prevColumn: nat, ins: seq<Ins>, i: nat, emitDebugInfo: bool)
    requires i <= |ins| && CodeFits(ins) && Tracks(t, pcInc, prevLine, prevColumn, ins, i, emitDebugInfo)
    ensures pcInc <= UINT32_MAX / LINE_RANGE && t.line == prevLine
  {
    PcMonotone(ins, i, |ins|);
  }

  lemma NoOpcode(pc: nat, line: int)
    ensures SpecialOpcode(pc, line).None? ==> WrittenPc(pc, line) == pc && WrittenLine(pc, line) == line
  {
  }

  // ----- where the program ends -----

  /** The line and the column that were recorded before instruction i, with debug info. */
  function PrevLine(ins: seq<Ins>, i: nat): int
    requires ins != [] && i <= |ins|
  {
    if i == 0 then ins[0].line else if ins[i - 1].valid then ins[i - 1].line else PrevLine(ins, i - 1)
  }

  function PrevColumn(ins: seq<Ins>, i: nat): nat
    requires i <= |ins|
  {
    if i == 0 then UINT32_MAX else if ins[i - 1].valid then ins[i - 1].column else PrevColumn(ins, i - 1)
  }

  predicate Changes(ins: seq<Ins>, i: nat)
    requires i < |ins|
  {
    ins[i].valid && (ins[i].line != PrevLine(ins, i) || ins[i].column != PrevColumn(ins, i))
  }

  /** The offset of the last of the first i instructions at which the line or the column changes. */
  function LastChange(ins: seq<Ins>, i: nat): nat
    requires i <= |ins|
  {
    if i == 0 then 0 else if Changes(ins, i - 1) then Pc(ins, i - 1) else LastChange(ins, i - 1)
  }

  function Max(a: nat, b: nat): nat { if a < b then b else a }

  lemma {:induction false} ChangedBefore(ins: seq<Ins>, i: nat)
    requires i <= |ins|
    ensures LastChange(ins, i) <= Pc(ins, i)
  {
    if i > 0 {
      ChangedBefore(ins, i - 1);
    }
  }

  /** With debug info the program stands at the last change or at the last variable, at done. */
  ghost predicate Standing(addr: nat, prevLine: int, prevColumn: nat, ins: seq<Ins>, i: nat, done: nat)
    requires ins != [] && i <= |ins|
  {
    prevLine == PrevLine(ins, i) && prevColumn == PrevColumn(ins, i) && addr == Max(LastChange(ins, i), done)
  }

  lemma StandsNext(addr: nat, prevLine: int, prevColumn: nat, ins: seq<Ins>, i: nat, done: nat, addr': nat)
    requires i < |ins| && Standing(addr, prevLine, prevColumn, ins, i, done) && done <= Pc(ins, i)
    requires addr' == if ins[i].line != prevLine || ins[i].column != prevColumn then Pc(ins, i) else addr
    ensures ins[i].valid ==> Standing(addr', ins[i].line, ins[i].column, ins, i + 1, done)
    ensures !ins[i].valid ==> Standing(addr, prevLine, prevColumn, ins, i + 1, done)
  {
    ChangedBefore(ins, i);
  }

  lemma StandsAt(addr: nat, prevLine: int, prevColumn: nat, ins: seq<Ins>, i: nat, done: nat)
    requires ins != [] && i <= |ins| && Standing(addr, prevLine, prevColumn, ins, i, done)
    ensures Standing(Pc(ins, i), prevLine, prevColumn, ins, i, Pc(ins, i))
  {
    ChangedBefore(ins, i);
  }

  /** Where the last variable ends. */
  function LatestEnd(locals: seq<Local>, regsNum: nat): nat {
    if locals == [] then 0
    else
      var n, v := LatestEnd(locals[..|locals| - 1], regsNum), locals[|locals| - 1];
      if IsParameter(regsNum, v) then n else Max(n, v.start + v.length)
  }

  lemma {:induction false} LatestFits(ins: seq<Ins>, locals: seq<Local>, regsNum: nat)
    requires GoodLocals(ins, locals, regsNum)
    ensures LatestEnd(locals, regsNum) <= |ins|
  {
    if locals != [] {
      LatestFits(ins, locals[..|locals| - 1], regsNum);
      assert LocalFits(locals[|locals| - 1], regsNum, |ins|);
    }
  }

  /** The offset at which the program of a function ends, with debug info. */
  function EndAddress(ins: seq<Ins>, locals: seq<Local>, regsNum: nat): nat
    requires GoodLocals(ins, locals, regsNum)
  {
    LatestFits(ins, locals, regsNum);
    Max(LastChange(ins, |ins|), Pc(ins, LatestEnd(locals, regsNum)))
  }

  lemma {:induction false} LatestCollected(locals: seq<Local>, regsNum: nat)
    ensures forall p :: p in Collect(locals, regsNum) ==> p.insnOrder <= LatestEnd(locals, regsNum)
    ensures LatestEnd(locals, regsNum) > 0 ==> exists p :: p in Collect(locals, regsNum) && p.insnOrder == LatestEnd(locals, regsNum)
  {
    if locals != [] {
      var n := |locals| - 1;
      LatestCollected(locals[..n], regsNum);
      if !IsParameter(regsNum, locals[n]) {
        assert Pair(locals[n].start + locals[n].length, n) in Collect(locals, regsNum);
      }
    }
  }

  /** The last pair of the sorted list is where the last variable ends, whatever order ties came in. */
  lemma LastIsLatest(ins: seq<Ins>, locals: seq<Local>, regsNum: nat, order: seq<Pair>)
    requires GoodOrder(ins, locals, regsNum, order, true)
    ensures LatestEnd(locals, regsNum) == if order == [] then 0 else order[|order| - 1].insnOrder
  {
    hide LatestEnd, Collect;
    LatestCollected(locals, regsNum);
    if order != [] {
      assert order[|order| - 1] in multiset(order);
    }
    if LatestEnd(locals, regsNum) > 0 {
      var p :| p in Collect(locals, regsNum) && p.insnOrder == LatestEnd(locals, regsNum);
      assert p in multiset(order);
      var k :| 0 <= k < |order| && order[k] == p;
    }
  }

  class Builder {
    const startLine: int
    var ops: seq<Op>
    var pcInc: nat
    var prevLine: int
    var prevColumn: nat

    ghost function Now(): Tables
      reads this
    {
      Replay(startLine, ops)
    }

    ghost predicate At(ins: seq<Ins>, i: nat, emitDebugInfo: bool)
      requires i <= |ins|
      reads this
    {
      Tracks(Now(), pcInc, prevLine, prevColumn, ins, i, emitDebugInfo)
    }

    ghost predicate Stands(ins: seq<Ins>, i: nat, done: nat, emitDebugInfo: bool)
      requires ins != [] && i <= |ins|
      reads this
    {
      emitDebugInfo ==> Standing(Now().addr, prevLine, prevColumn, ins, i, done)
    }

    constructor (ins: seq<Ins>, emitDebugInfo: bool)
      requires ins != []
      ensures startLine == ins[0].line && At(ins, 0, emitDebugInfo) && Stands(ins, 0, 0, emitDebugInfo)
      ensures Events(startLine, ops) == [] && fresh(this)
    {
      startLine, ops, pcInc, prevLine, prevColumn := ins[0].line, [], 0, ins[0].line, UINT32_MAX;
    }

    method Emit(op: Op)
      modifies this`ops
      ensures Now() == Step(old(Now()), op)
      ensures Events(startLine, ops) == old(Events(startLine, ops)) + (match op
                case StartLocal(reg, name) => [Started(reg, name, old(Now()).addr)]
                case EndLocal(reg) => [Ended(reg, old(Now()).addr)]
                case _ => [])
    {
      ReplayAppend(startLine, ops, op);
      EventsAppend(startLine, ops, op);
      ops := ops + [op];
    }

    method EmitSpecialOpcode(pc: nat, line: int) returns (ok: bool)
      modifies this`ops
      ensures ok <==> SpecialOpcode(pc, line).Some?
      ensures !ok ==> ops == old(ops)
      ensures ok ==> Now() == LineRecorded(old(Now()), WrittenPc(pc, line), old(Now()).line + WrittenLine(pc, line))
      ensures Events(startLine, ops) == old(Events(startLine, ops))
    {
      hide SpecialOpcode, LineRecorded, Step, Replay, Events, WrittenPc, WrittenLine;
      var op := SpecialOpcode(pc, line);
      ok := op.Some?;
      if ok {
        SpecialStep(Now(), pc, line);
        Emit(op.value);
      }
    }

    /** Whatever the special opcode can hold, one entry with the written line is made at the written
        offset. */
    method EmitNumber(pc: nat, line: int)
      modifies this`ops
      ensures Now() == LineRecorded(old(Now()), WrittenPc(pc, line), old(Now()).line + WrittenLine(pc, line))
      ensures Events(startLine, ops) == old(Events(startLine, ops))
    {
      hide Replay, Events, SpecialOpcode, SpecialPc, SpecialLine, EndYoungest, WrittenPc, WrittenLine;
      ZeroIsSpecial();
      NoOpcode(pc, line);
      WrittenExactly(0, line);
      WrittenExactly(0, 0);
      var ok := EmitSpecialOpcode(pc, line);
      if !ok {
        if pc != 0 {
          Emit(AdvancePc(pc));
          ok := EmitSpecialOpcode(0, line);
          if !ok {
            Emit(AdvanceLine(line));
            ok := EmitSpecialOpcode(0, 0);
          }
        } else {
          Emit(AdvanceLine(line));
          ok := EmitSpecialOpcode(0, 0);
        }
      }
    }

    /** A line that changes is recorded. */
    method EmitLineNumber(line: int)
      requires Now().line == prevLine
      modifies this`ops, this`pcInc, this`prevLine
      ensures prevLine == line
      ensures line == old(prevLine) ==> ops == old(ops) && pcInc == old(pcInc)
      ensures line != old(prevLine) ==>
                var inc := line - old(prevLine);
                && pcInc == 0
                && Now() == LineRecorded(old(Now()), WrittenPc(old(pcInc), inc), old(Now()).line + WrittenLine(old(pcInc), inc))
      ensures Events(startLine, ops) == old(Events(startLine, ops))
    {
      hide Replay, Events, WrittenPc, WrittenLine;
      var lineInc := line - prevLine;
      if lineInc != 0 {
        prevLine := line;
        EmitNumber(pcInc, lineInc);
        pcInc := 0;
      }
    }

    method EmitColumnNumber(column: nat)
      modifies this`ops, this`pcInc, this`prevColumn
      ensures prevColumn == column
      ensures column == old(prevColumn) ==> ops == old(ops) && pcInc == old(pcInc)
      ensures column != old(prevColumn) ==>
                && pcInc == 0
                && Now() == ColumnRecorded(old(Now()), old(pcInc), column)
      ensures Events(startLine, ops) == old(Events(startLine, ops))
    {
      hide Replay, Events, SpecialPc, SpecialLine, EndYoungest;
      if column != prevColumn {
        if pcInc != 0 {
          Emit(AdvancePc(pcInc));
        }
        Emit(SetColumn(column));
        pcInc := 0;
        prevColumn := column;
      }
    }

    method EmitLineOf(ins: seq<Ins>, i: nat, emitDebugInfo: bool)
      requires i < |ins| && Emittable(ins) && CodeFits(ins) && At(ins, i, emitDebugInfo)
      modifies this`ops, this`pcInc, this`prevLine
      ensures At(ins, i, emitDebugInfo) && LineFound(Now(), ins, i)
      ensures prevLine == ins[i].line && Now().addr == if ins[i].line != old(prevLine) then Pc(ins, i) else old(Now()).addr
      ensures Events(startLine, ops) == old(Events(startLine, ops))
    {
      hide Tracks, Replay, Events, LineFound, SpecialOpcode, Pc, WrittenPc, WrittenLine, Emittable, CodeFits;
      PendingFits(Now(), pcInc, prevLine, prevColumn, ins, i, emitDebugInfo);
      TracksTo(Now(), pcInc, prevLine, prevColumn, ins, i, emitDebugInfo);
      LineStep(Now(), pcInc, prevLine, prevColumn, ins, i, emitDebugInfo);
      WrittenExactly(pcInc, ins[i].line - prevLine);
      EmitLineNumber(ins[i].line);
    }

    method EmitColumnOf(ins: seq<Ins>, i: nat, emitDebugInfo: bool)
      requires i < |ins| && Emittable(ins) && At(ins, i, emitDebugInfo)
      modifies this`ops, this`pcInc, this`prevColumn
      ensures At(ins, i, emitDebugInfo) && ColumnFound(Now(), ins, i)
      ensures LineFound(Now(), ins, i) == old(LineFound(Now(), ins, i))
      ensures prevColumn == ins[i].column && Now().addr == if ins[i].column != old(prevColumn) then Pc(ins, i) else old(Now()).addr
      ensures Events(startLine, ops) == old(Events(startLine, ops))
    {
      ColumnStep(Now(), pcInc, prevLine, prevColumn, ins, i, emitDebugInfo);
      TracksTo(Now(), pcInc, prevLine, prevColumn, ins, i, emitDebugInfo);
      hide Tracks, Replay, Events, ColumnFound, Pc;
      EmitColumnNumber(ins[i].column);
    }

    /** The body of BuildLineNumberProgram's inner loop. */
    method EmitInstruction(ins: seq<Ins>, i: nat, emitDebugInfo: bool, ghost done: nat)
      requires i < |ins| && Emittable(ins) && CodeFits(ins) && At(ins, i, emitDebugInfo)
      requires Stands(ins, i, done, emitDebugInfo) && done <= Pc(ins, i)
      modifies this`ops, this`pcInc, this`prevLine, this`prevColumn
      ensures At(ins, i + 1, emitDebugInfo) && Stands(ins, i + 1, done, emitDebugInfo)
      ensures Events(startLine, ops) == old(Events(startLine, ops))
    {
      hide Tracks, Replay, Events, LineFound, ColumnFound, Emittable, Standing, Pc, CodeFits;
      if emitDebugInfo {
        StandsNext(Now().addr, prevLine, prevColumn, ins, i, done,
                   if ins[i].line != prevLine || ins[i].column != prevColumn then Pc(ins, i) else Now().addr);
      }
      if !ins[i].valid {
        NextIns(Now(), pcInc, prevLine, prevColumn, ins, i, emitDebugInfo);
        return;
      }
      if emitDebugInfo || ins[i].canThrow {
        EmitLineOf(ins, i, emitDebugInfo);
      }
      if emitDebugInfo {
        EmitColumnOf(ins, i, emitDebugInfo);
      }
      NextIns(Now(), pcInc, prevLine, prevColumn, ins, i, emitDebugInfo);
      pcInc := pcInc + ins[i].size;
    }

    method TryEmitPc()
      modifies this`ops, this`pcInc
      ensures pcInc == 0 && Now() == old(Now()).(addr := old(Now()).addr + old(pcInc))
      ensures Events(startLine, ops) == old(Events(startLine, ops))
    {
      if pcInc != 0 {
        Emit(AdvancePc(pcInc));
        pcInc := 0;
      }
    }

    /** A variable starts or ends at instruction n, to which the program has come. */
    method EmitVariableOp(ins: seq<Ins>, n: nat, op: Op, emitDebugInfo: bool)
      requires n <= |ins| && At(ins, n, emitDebugInfo) && (op.StartLocal? || op.EndLocal?)
      modifies this`ops, this`pcInc
      ensures At(ins, n, emitDebugInfo) && Now().addr == Pc(ins, n)
      ensures Events(startLine, ops) == old(Events(startLine, ops)) + [EventAt(op, Pc(ins, n))]
    {
      hide Tracks, Replay, Events, Step, Pc;
      ghost var t, inc := Now(), pcInc;
      TracksTo(t, inc, prevLine, prevColumn, ins, n, emitDebugInfo);
      TryEmitPc();
      VariableStep(Now(), op);
      Emit(op);
      Flushed(t, inc, prevLine, prevColumn, ins, n, emitDebugInfo, Now().locals);
    }

    /** One end of a variable's range; n is the instruction the program has come to. A variable
        without length starts and ends at once. */
    method EmitLocalVariable(ins: seq<Ins>, n: nat, v: Local, emitDebugInfo: bool)
      requires n <= |ins| && At(ins, n, emitDebugInfo) && GoodLocal(v, |ins|)
      modifies this`ops, this`pcInc
      ensures At(ins, n, emitDebugInfo) && (n == v.start || n == v.start + v.length ==> Now().addr == Pc(ins, n))
      ensures Events(startLine, ops) == old(Events(startLine, ops)) + EventsAt(ins, v, n)
    {
      hide Tracks, Replay, Events, Pc;
      if n == v.start {
        EmitVariableOp(ins, n, StartLocal(v.reg, v.name), emitDebugInfo);
      }
      if n == v.start + v.length {
        EmitVariableOp(ins, n, EndLocal(v.reg), emitDebugInfo);
      }
      Appended(old(Events(startLine, ops)), EventsAt(ins, v, n));
    }

    method EmitRange(ins: seq<Ins>, start: nat, end: nat, emitDebugInfo: bool)
      requires ins != [] && start <= end <= |ins| && Emittable(ins) && CodeFits(ins) && At(ins, start, emitDebugInfo)
      requires Stands(ins, start, Pc(ins, start), emitDebugInfo)
      modifies this`ops, this`pcInc, this`prevLine, this`prevColumn
      ensures At(ins, end, emitDebugInfo) && Events(startLine, ops) == old(Events(startLine, ops))
      ensures Stands(ins, end, Pc(ins, start), emitDebugInfo)
    {
      hide Tracks, Replay, Events, Emittable, CodeFits, Standing, Pc;
      for i := start to end
        invariant At(ins, i, emitDebugInfo) && Events(startLine, ops) == old(Events(startLine, ops))
        invariant Stands(ins, i, Pc(ins, start), emitDebugInfo)
      {
        PcMonotone(ins, start, i);
        EmitInstruction(ins, i, emitDebugInfo, Pc(ins, start));
      }
    }

    /** What one round of BuildLineNumberProgram's loop has done: the code before start and the
        first iter pairs. */
    ghost predicate Reached(ins: seq<Ins>, locals: seq<Local>, order: seq<Pair>, emitDebugInfo: bool, start: nat, iter: nat)
      requires ins != [] && InRange(ins, locals, order)
      reads this
    {
      && start <= |ins| && iter <= |order| && At(ins, start, emitDebugInfo) && Stands(ins, start, Pc(ins, start), emitDebugInfo)
      && start == (if iter == 0 then 0 else order[iter - 1].insnOrder)
      && Events(startLine, ops) == EventsOf(ins, locals, order, iter)
    }

    /** One pair of the sorted list: the code before it, then the variable's start or end. */
    method EmitPair(ins: seq<Ins>, locals: seq<Local>, regsNum: nat, order: seq<Pair>, emitDebugInfo: bool, start: nat, iter: nat)
      requires ins != [] && Emittable(ins) && CodeFits(ins) && GoodOrder(ins, locals, regsNum, order, emitDebugInfo)
      requires InRange(ins, locals, order) && iter < |order| && Reached(ins, locals, order, emitDebugInfo, start, iter)
      modifies this`ops, this`pcInc, this`prevLine, this`prevColumn
      ensures Reached(ins, locals, order, emitDebugInfo, order[iter].insnOrder, iter + 1)
    {
      OrderFacts(ins, locals, regsNum, order, emitDebugInfo, iter);
      EventsOfNext(ins, locals, order, iter);
      var end := order[iter].insnOrder;
      hide Tracks, Replay, Events, GoodOrder, Emittable, CodeFits, Pc, EventsOf, EventsAt, InRange, Standing;
      EmitRange(ins, start, end, emitDebugInfo);
      if emitDebugInfo {
        StandsAt(Now().addr, prevLine, prevColumn, ins, end, Pc(ins, start));
      }
      EmitLocalVariable(ins, end, locals[order[iter].variable], emitDebugInfo);
    }

    method EmitAll(ins: seq<Ins>, locals: seq<Local>, regsNum: nat, order: seq<Pair>, emitDebugInfo: bool)
      requires ins != [] && Emittable(ins) && CodeFits(ins) && GoodOrder(ins, locals, regsNum, order, emitDebugInfo)
      requires At(ins, 0, emitDebugInfo) && Stands(ins, 0, 0, emitDebugInfo) && Events(startLine, ops) == [] && InRange(ins, locals, order)
      modifies this`ops, this`pcInc, this`prevLine, this`prevColumn
      ensures At(ins, |ins|, emitDebugInfo)
      ensures Stands(ins, |ins|, if order == [] then 0 else Pc(ins, order[|order| - 1].insnOrder), emitDebugInfo)
      ensures Events(startLine, ops) == EventsOf(ins, locals, order, |order|)
    {
      hide Tracks, Replay, Events, GoodOrder, Emittable, CodeFits, InRange, Standing;
      assert Pc(ins, 0) == 0;
      hide Pc;
      var start: nat, iter: nat := 0, 0;
      assert Reached(ins, locals, order, emitDebugInfo, start, iter);
      hide EventsOf;
      while iter < |order|
        invariant iter <= |order| && Reached(ins, locals, order, emitDebugInfo, start, iter)
      {
        EmitPair(ins, locals, regsNum, order, emitDebugInfo, start, iter);
        start := order[iter].insnOrder;
        iter := iter + 1;
      }
      EmitRange(ins, start, |ins|, emitDebugInfo);
    }
  }

  function EventAt(op: Op, addr: nat): Event
    requires op.StartLocal? || op.EndLocal?
  {
    if op.StartLocal? then Started(op.reg, op.name, addr) else Ended(op.reg, addr)
  }

  /** Advancing the offset and recording variables disturbs neither lines nor columns. */
  lemma Flushed(t: Tables, pcInc: nat, prevLine: int, prevColumn: nat, ins: seq<Ins>, i: nat, emitDebugInfo: bool, locals: seq<Var>)
    requires i <= |ins| && Tracks(t, pcInc, prevLine, prevColumn, ins, i, emitDebugInfo)
    ensures Tracks(t.(addr := t.addr + pcInc, locals := locals), 0, prevLine, prevColumn, ins, i, emitDebugInfo)
  {
    hide Lookup, Pc;
    var t' := t.(addr := t.addr + pcInc, locals := locals);
    assert forall j :: 0 <= j < i && Recorded(ins[j], emitDebugInfo) ==> LineFound(t', ins, j) == LineFound(t, ins, j);
    assert forall j :: 0 <= j < i && ins[j].valid ==> ColumnFound(t', ins, j) == ColumnFound(t, ins, j);
  }

  /** What replaying the program of a function gives back. */
  ghost predicate Recovers(t: Tables, ins: seq<Ins>, emitDebugInfo: bool) {
    && GoodTables(t) && t.addr <= Pc(ins, |ins|)
    && (forall j :: 0 <= j < |ins| && Recorded(ins[j], emitDebugInfo) ==> LineFound(t, ins, j))
    && (emitDebugInfo ==> forall j :: 0 <= j < |ins| && ins[j].valid ==> ColumnFound(t, ins, j))
  }

  /** order lists, for every variable that is no parameter, its two ends, sorted; nothing
      without debug info. */
  ghost predicate GoodOrder(ins: seq<Ins>, locals: seq<Local>, regsNum: nat, order: seq<Pair>, emitDebugInfo: bool) {
    && GoodLocals(ins, locals, regsNum)
    && (if emitDebugInfo then SortOf(order, Collect(locals, regsNum)) else order == [])
  }

  lemma OrderFacts(ins: seq<Ins>, locals: seq<Local>, regsNum: nat, order: seq<Pair>, emitDebugInfo: bool, k: nat)
    requires GoodOrder(ins, locals, regsNum, order, emitDebugInfo) && k < |order|
    ensures order[k].variable < |locals| && order[k].insnOrder <= |ins|
    ensures var v := locals[order[k].variable];
            GoodLocal(v, |ins|) && (order[k].insnOrder == v.start || order[k].insnOrder == v.start + v.length)
    ensures k > 0 ==> order[k - 1].insnOrder <= order[k].insnOrder
  {
    CollectFacts(locals, regsNum);
    assert order[k] in multiset(order);
    assert order[k] in Collect(locals, regsNum);
  }

  predicate InRange(ins: seq<Ins>, locals: seq<Local>, order: seq<Pair>) {
    forall k :: 0 <= k < |order| ==>
      order[k].variable < |locals| && order[k].insnOrder <= |ins| && GoodLocal(locals[order[k].variable], |ins|)
  }

  lemma OrderInRange(ins: seq<Ins>, locals: seq<Local>, regsNum: nat, order: seq<Pair>, emitDebugInfo: bool)
    requires GoodOrder(ins, locals, regsNum, order, emitDebugInfo)
    ensures InRange(ins, locals, order)
  {
    forall k | 0 <= k < |order|
      ensures order[k].variable < |locals| && order[k].insnOrder <= |ins| && GoodLocal(locals[order[k].variable], |ins|)
    {
      OrderFacts(ins, locals, regsNum, order, emitDebugInfo, k);
    }
  }

  /** The events of the first n pairs. */
  function EventsOf(ins: seq<Ins>, locals: seq<Local>, order: seq<Pair>, n: nat): (events: seq<Event>)
    requires InRange(ins, locals, order) && n <= |order|
  {
    if n == 0 then [] else EventsOf(ins, locals, order, n - 1) + EventsAt(ins, locals[order[n - 1].variable], order[n - 1].insnOrder)
  }

  lemma EventsOfNext(ins: seq<Ins>, locals: seq<Local>, order: seq<Pair>, k: nat)
    requires InRange(ins, locals, order) && k < |order|
    ensures EventsOf(ins, locals, order, k + 1) ==
            EventsOf(ins, locals, order, k) + EventsAt(ins, locals[order[k].variable], order[k].insnOrder)
  {
  }

  /** The variables whose register is below regsNum start and end, each at its offset, and no
      others. */
  ghost predicate OfLocals(ins: seq<Ins>, locals: seq<Local>, regsNum: nat, events: seq<Event>) {
    && (forall x :: 0 <= x < |locals| && locals[x].reg < regsNum ==>
          && GoodLocal(locals[x], |ins|)
          && Started(locals[x].reg, locals[x].name, Pc(ins, locals[x].start)) in events
          && Ended(locals[x].reg, Pc(ins, locals[x].start + locals[x].length)) in events)
    && (forall e :: e in events ==> exists x :: 0 <= x < |locals| && OfLocal(ins, locals[x], regsNum, e))
  }

  ghost predicate OfLocal(ins: seq<Ins>, v: Local, regsNum: nat, e: Event) {
    && v.reg < regsNum && GoodLocal(v, |ins|)
    && (e == Started(v.reg, v.name, Pc(ins, v.start)) || e == Ended(v.reg, Pc(ins, v.start + v.length)))
  }

  lemma {:induction false} EventsOfHas(ins: seq<Ins>, locals: seq<Local>, order: seq<Pair>, n: nat, k: nat, e: Event)
    requires InRange(ins, locals, order) && k < n <= |order| && e in EventsAt(ins, locals[order[k].variable], order[k].insnOrder)
    ensures e in EventsOf(ins, locals, order, n)
  {
    hide EventsAt;
    if k < n - 1 {
      EventsOfHas(ins, locals, order, n - 1, k, e);
    }
  }

  lemma {:induction false} EventsOfFrom(ins: seq<Ins>, locals: seq<Local>, order: seq<Pair>, n: nat, e: Event) returns (k: nat)
    requires InRange(ins, locals, order) && n <= |order| && e in EventsOf(ins, locals, order, n)
    ensures k < n && e in EventsAt(ins, locals[order[k].variable], order[k].insnOrder)
  {
    hide EventsAt;
    if e in EventsOf(ins, locals, order, n - 1) {
      k := EventsOfFrom(ins, locals, order, n - 1, e);
    } else {
      k := n - 1;
    }
  }

  lemma LocalHasEvents(ins: seq<Ins>, locals: seq<Local>, regsNum: nat, order: seq<Pair>, x: nat)
    requires GoodOrder(ins, locals, regsNum, order, true) && InRange(ins, locals, order) && x < |locals| && locals[x].reg < regsNum
    ensures GoodLocal(locals[x], |ins|)
    ensures var events := EventsOf(ins, locals, order, |order|);
            StartEvent(ins, locals[x]) in events && EndEvent(ins, locals[x]) in events
  {
    hide EventsOf, Collect, StartEvent, EndEvent, InRange;
    assert LocalFits(locals[x], regsNum, |ins|);
    CollectHas(locals, regsNum, x);
    var s, t := Pair(locals[x].start, x), Pair(locals[x].start + locals[x].length, x);
    assert s in multiset(order) && t in multiset(order);
    var j :| 0 <= j < |order| && order[j] == s;
    var k :| 0 <= k < |order| && order[k] == t;
    EventsOfHas(ins, locals, order, |order|, j, StartEvent(ins, locals[x]));
    EventsOfHas(ins, locals, order, |order|, k, EndEvent(ins, locals[x]));
  }

  lemma EventHasLocal(ins: seq<Ins>, locals: seq<Local>, regsNum: nat, order: seq<Pair>, e: Event) returns (x: nat)
    requires GoodOrder(ins, locals, regsNum, order, true) && InRange(ins, locals, order) && e in EventsOf(ins, locals, order, |order|)
    ensures x < |locals| && OfLocal(ins, locals[x], regsNum, e)
  {
    hide EventsOf, Collect, Pc;
    var k := EventsOfFrom(ins, locals, order, |order|, e);
    CollectFacts(locals, regsNum);
    assert order[k] in multiset(order);
    x := order[k].variable;
  }

  lemma EventsAreOfLocals(ins: seq<Ins>, locals: seq<Local>, regsNum: nat, order: seq<Pair>)
    requires GoodOrder(ins, locals, regsNum, order, true)
    ensures InRange(ins, locals, order) && OfLocals(ins, locals, regsNum, EventsOf(ins, locals, order, |order|))
  {
    hide Pc, EventsOf, GoodOrder, InRange, OfLocal;
    OrderInRange(ins, locals, regsNum, order, true);
    var events := EventsOf(ins, locals, order, |order|);
    forall x | 0 <= x < |locals| && locals[x].reg < regsNum
      ensures GoodLocal(locals[x], |ins|) && StartEvent(ins, locals[x]) in events && EndEvent(ins, locals[x]) in events
    {
      LocalHasEvents(ins, locals, regsNum, order, x);
    }
    forall e | e in events
      ensures exists x :: 0 <= x < |locals| && OfLocal(ins, locals[x], regsNum, e)
    {
      var x := EventHasLocal(ins, locals, regsNum, order, e);
    }
  }

  /** A start, an end, or one after the other. */
  lemma Appended(before: seq<Event>, events: seq<Event>)
    ensures |events| == 0 ==> before + events == before
    ensures |events| == 2 ==> before + [events[0]] + [events[1]] == before + events
  {
  }

  /** BuildLineNumberProgram. The program records every line and column where it changes, and
      each end of each variable exactly once, at its own offset, whatever order ties came in. With
      debug info it ends where the last of these is, which no tie order changes. */
  method BuildLineNumberProgram(ins: seq<Ins>, locals: seq<Local>, regsNum: nat, order: seq<Pair>, emitDebugInfo: bool)
    returns (startLine: int, ops: seq<Op>)
    requires Emittable(ins) && CodeFits(ins) && GoodOrder(ins, locals, regsNum, order, emitDebugInfo)
    ensures ins == [] ==> ops == []
    ensures ins != [] ==> startLine == ins[0].line && Recovers(Replay(startLine, ops), ins, emitDebugInfo)
    ensures InRange(ins, locals, order)
    ensures ins != [] ==> Events(startLine, ops) == EventsOf(ins, locals, order, |order|)
    ensures ins != [] && emitDebugInfo ==> OfLocals(ins, locals, regsNum, Events(startLine, ops))
    ensures ins != [] && emitDebugInfo ==> Replay(startLine, ops).addr == EndAddress(ins, locals, regsNum)
  {
    OrderInRange(ins, locals, regsNum, order, emitDebugInfo);
    if ins == [] {
      return 0, [];
    }
    if emitDebugInfo {
      EventsAreOfLocals(ins, locals, regsNum, order);
      LastIsLatest(ins, locals, regsNum, order);
    }
    hide Tracks, Replay, Events, Emittable, CodeFits, Recovers, InRange, LastChange, LatestEnd, OfLocals;
    var b := new Builder(ins, emitDebugInfo);
    b.EmitAll(ins, locals, regsNum, order, emitDebugInfo);
    Finished(b.Now(), b.pcInc, b.prevLine, b.prevColumn, ins, emitDebugInfo);
    return b.startLine, b.ops;
  }

  lemma Finished(t: Tables, pcInc: nat, prevLine: int, prevColumn: nat, ins: seq<Ins>, emitDebugInfo: bool)
    requires Tracks(t, pcInc, prevLine, prevColumn, ins, |ins|, emitDebugInfo)
    ensures Recovers(t, ins, emitDebugInfo)
  {
  }
}

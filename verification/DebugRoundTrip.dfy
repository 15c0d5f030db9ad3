/** Debug information that is emitted (assembler/assembly-emitter.cpp) and read back
    (abc2program/abc_code_processor.cpp). */
module DebugRoundTrip {
  import opened Options
  import opened Sums
  import opened Pandasm
  import opened CodeReader
  import opened LocalRanges
  import LP = LineProgram
  import VE = VariableEvents
  import Ties = LocalTies

  // ----- the code of a function -----

  /** How many of the first i instructions emit code. */
  function Count(ins: seq<LP.Ins>, i: nat): (n: nat)
    requires i <= |ins|
  {
    Sum(ValidBits(ins), i)
  }

  function ValidBits(ins: seq<LP.Ins>): (s: seq<nat>)
    ensures |s| == |ins| && forall i :: 0 <= i < |ins| ==> s[i] == Bit(ins[i].valid)
  {
    seq(|ins|, i requires 0 <= i < |ins| => Bit(ins[i].valid))
  }

  lemma CountGrows(ins: seq<LP.Ins>, i: nat, j: nat)
    requires i <= j <= |ins|
    ensures Count(ins, i) <= Count(ins, j)
    ensures i < j && ins[i].valid ==> Count(ins, i) < Count(ins, j)
  {
    SumGrows(ValidBits(ins), i, j);
  }

  /** code holds the valid instructions, in order. */
  ghost predicate EncodesTo(ins: seq<LP.Ins>, code: seq<BcIns>) {
    && |code| == Count(ins, |ins|)
    && forall i :: 0 <= i < |ins| && ins[i].valid ==> EncodedAt(ins, code, i)
  }

  ghost predicate EncodedAt(ins: seq<LP.Ins>, code: seq<BcIns>, i: nat)
    requires i < |ins|
  {
    Count(ins, i) < |code| && code[Count(ins, i)].size == ins[i].size
  }

  lemma {:induction false} PcAgrees(ins: seq<LP.Ins>, code: seq<BcIns>, i: nat)
    requires EncodesTo(ins, code) && i <= |ins|
    ensures Count(ins, i) <= |code| && PcOf(code, Count(ins, i)) == LP.Pc(ins, i)
  {
    CountGrows(ins, i, |ins|);
    if i > 0 {
      PcAgrees(ins, code, i - 1);
      assert ins[i - 1].valid ==> EncodedAt(ins, code, i - 1);
    }
  }

  lemma {:induction false} CountAll(ins: seq<LP.Ins>, i: nat)
    requires i <= |ins| && forall j :: 0 <= j < |ins| ==> ins[j].valid
    ensures Count(ins, i) == i
  {
    if i > 0 {
      CountAll(ins, i - 1);
    }
  }

  // ----- lines and columns -----

  /** Instruction i, if its line was recorded, is read with its line, and with its column if
      columns were recorded. */
  ghost predicate ReadBack(ins: seq<LP.Ins>, read: seq<PaIns>, i: nat, emitDebugInfo: bool)
    requires i < |ins|
  {
    ins[i].valid ==>
      && Count(ins, i) < |read|
      && (LP.Recorded(ins[i], emitDebugInfo) ==> read[Count(ins, i)].line == ins[i].line)
      && (emitDebugInfo ==> read[Count(ins, i)].column == ins[i].column)
  }

  lemma LinesReadBack(ins: seq<LP.Ins>, code: seq<BcIns>, read: seq<PaIns>, t: LP.Tables, i: nat, emitDebugInfo: bool)
    requires i < |ins| && EncodesTo(ins, code) && LP.Recovers(t, ins, emitDebugInfo)
    requires |code| <= |read| && AllDebugSet(code, read, t.lines, t.columns)
    ensures ReadBack(ins, read, i, emitDebugInfo)
  {
    hide LP.Lookup, LP.Pc, PcOf, LP.GoodTables;
    CountGrows(ins, i, |ins|);
    PcAgrees(ins, code, i);
    if ins[i].valid {
      CountGrows(ins, i, |ins|);
      assert DebugSet(code, read, Count(ins, i), t.lines, t.columns);
      assert LP.Recorded(ins[i], emitDebugInfo) ==> LP.LineFound(t, ins, i);
      assert emitDebugInfo ==> LP.ColumnFound(t, ins, i);
    }
  }

  // ----- local variables -----

  /** A variable as the reader sees it: INVALID instructions do not count. */
  function Renumbered(ins: seq<LP.Ins>, v: LP.Local): LP.Local
    requires EndOf(v) <= |ins|
  {
    CountGrows(ins, v.start, EndOf(v));
    LP.Local(v.name, v.reg, Count(ins, v.start), Count(ins, EndOf(v)) - Count(ins, v.start))
  }

  lemma RenumberedIsSame(ins: seq<LP.Ins>, v: LP.Local)
    requires EndOf(v) <= |ins| && AllValid(ins)
    ensures Renumbered(ins, v) == v
  {
    CountAll(ins, v.start);
    CountAll(ins, EndOf(v));
  }

  /** The variables that are no parameters, in the order they start. */
  ghost function InStartOrder(f: Body, n: nat): seq<LP.Local>
    requires Good(f) && n <= |f.order|
  {
    if n == 0 then []
    else
      EntryFacts(f, n - 1);
      InStartOrder(f, n - 1) + (if IsStart(f, n - 1) then [Renumbered(f.ins, VariableAt(f, n - 1))] else [])
  }

  /** Without INVALID instructions these are the variables themselves. */
  lemma {:induction false} StartOrderIsOriginal(f: Body, n: nat)
    requires Good(f) && AllValid(f.ins) && n <= |f.order|
    ensures VE.Names(f.locals, f.order[..n]) && InStartOrder(f, n) == VE.StartingIn(f.locals, f.order[..n])
  {
    hide Good, AllValid, Renumbered;
    InOrder(f);
    if n > 0 {
      StartOrderIsOriginal(f, n - 1);
      EntryFacts(f, n - 1);
      RenumberedIsSame(f.ins, VariableAt(f, n - 1));
      assert f.order[..n][..n - 1] == f.order[..n - 1];
    }
  }

  lemma OriginalOrder(f: Body)
    requires Good(f) && AllValid(f.ins)
    ensures VE.Names(f.locals, f.order) && InStartOrder(f, |f.order|) == VE.StartingIn(f.locals, f.order)
  {
    hide Good, AllValid, InStartOrder, VE.StartingIn;
    StartOrderIsOriginal(f, |f.order|);
    assert f.order[..|f.order|] == f.order;
  }

  lemma {:induction false} StartOrderSize(f: Body, n: nat)
    requires Good(f) && n <= |f.order|
    ensures |InStartOrder(f, n)| == |Whole(f, n)|
  {
    hide Good, Renumbered, WholeVar;
    InOrder(f);
    if n > 0 {
      EntryFacts(f, n - 1);
      StartOrderSize(f, n - 1);
    }
  }

  lemma {:induction false} StartOrderAt(f: Body, n: nat, p: nat)
    requires Good(f) && p < n <= |f.order| && IsStart(f, p)
    ensures EndOf(VariableAt(f, p)) <= |f.ins| && |Whole(f, p)| < |InStartOrder(f, n)|
    ensures InStartOrder(f, n)[|Whole(f, p)|] == Renumbered(f.ins, VariableAt(f, p))
  {
    hide Good, Renumbered, WholeVar;
    InOrder(f);
    EntryFacts(f, p);
    StartOrderSize(f, p);
    if p < n - 1 {
      StartOrderAt(f, n - 1, p);
    }
  }

  /** An instruction's offset, and the end of the code, lead back to the index. */
  lemma FoundAgain(code: seq<BcIns>, n: nat, i: nat)
    requires FitsReader(code) && |code| <= n <= |code| + 1 && i <= |code|
    ensures Found(code, n, PcOf(code, i)) == i
  {
    var pc := PcOf(code, i);
    if OnBoundary(code, n, pc) {
      PcInjective(code, i, IndexAt(code, n, pc));
    } else {
      assert i >= n;
    }
  }

  lemma {:induction false} AtLeast(code: seq<BcIns>, i: nat)
    requires i <= |code| && forall j :: 0 <= j < |code| ==> 0 < code[j].size
    ensures i <= PcOf(code, i)
  {
    if i > 0 {
      AtLeast(code, i - 1);
    }
  }

  ghost predicate Placed(ins: seq<LP.Ins>, code: seq<BcIns>, n: nat) {
    FitsReader(code) && EncodesTo(ins, code) && |code| <= n <= |code| + 1
  }

  lemma PlacedPc(ins: seq<LP.Ins>, code: seq<BcIns>, n: nat, i: nat)
    requires Placed(ins, code, n) && i <= |ins|
    ensures Count(ins, i) <= |code| < UINT32 - 1 && PcOf(code, Count(ins, i)) == LP.Pc(ins, i)
    ensures Found(code, n, LP.Pc(ins, i)) == Count(ins, i)
  {
    PcAgrees(ins, code, i);
    FoundAgain(code, n, Count(ins, i));
    AtLeast(code, |code|);
  }

  /** Offsets that are read as the same instruction are the same, for those of instructions and for
      any between the offset and the end of the code. */
  lemma SameFound(ins: seq<LP.Ins>, code: seq<BcIns>, n: nat, pc: nat, j: nat)
    requires Placed(ins, code, n) && j <= |ins|
    requires LP.Pc(ins, j) <= pc <= LP.Pc(ins, |ins|) || exists i :: 0 <= i <= |ins| && pc == LP.Pc(ins, i)
    ensures Found(code, n, pc) == Count(ins, j) <==> pc == LP.Pc(ins, j)
  {
    hide EncodesTo, LP.Pc, Found;
    PlacedPc(ins, code, n, j);
    PlacedPc(ins, code, n, |ins|);
    FoundOrEnd(code, n, pc);
    if i :| 0 <= i <= |ins| && pc == LP.Pc(ins, i) {
      PlacedPc(ins, code, n, i);
    }
    CountIsAll(ins, code, n);
  }

  lemma CountIsAll(ins: seq<LP.Ins>, code: seq<BcIns>, n: nat)
    requires Placed(ins, code, n)
    ensures Count(ins, |ins|) == |code|
  {
  }

  lemma FoundOrEnd(code: seq<BcIns>, n: nat, pc: nat)
    requires n <= |code| + 1
    ensures var i := Found(code, n, pc); i <= n && (i < n ==> PcOf(code, i) == pc)
  {
  }

  /** Unsigned 32-bit differences tell the ends apart. */
  lemma DifferencesDiffer(start: nat, a: nat, b: nat)
    requires start <= b < UINT32 && a < UINT32
    ensures (a - start) % UINT32 == b - start <==> a == b
  {
  }

  /** The entry of a variable is read back as that variable if and only if its end is right. */
  lemma EntryReadBack(f: Body, code: seq<BcIns>, n: nat, p: nat, addr: nat)
    requires Good(f) && Placed(f.ins, code, n) && p < |f.order| && IsStart(f, p)
    requires WholeVar(f, p).end <= addr <= LP.Pc(f.ins, |f.ins|)
    ensures EndOf(VariableAt(f, p)) <= |f.ins|
    ensures LocalRead(code, n, WholeVar(f, p).(end := FinalEnd(f, p, addr))) == Renumbered(f.ins, VariableAt(f, p)) <==> RightAt(f, p, addr)
  {
    hide Good, Placed, LP.Pc, Found, LP.InRange;
    InOrder(f);
    EntryFacts(f, p);
    var v, e := VariableAt(f, p), FinalEnd(f, p, addr);
    PlacedSize(f.ins, code, n);
    PlacedPc(f.ins, code, n, v.start);
    PlacedPc(f.ins, code, n, EndOf(v));
    FinalEndIs(f, p, addr);
    SameFound(f.ins, code, n, e, EndOf(v));
    CountGrows(f.ins, v.start, EndOf(v));
    DifferencesDiffer(Count(f.ins, v.start), Found(code, n, e), Count(f.ins, EndOf(v)));
  }

  lemma PlacedSize(ins: seq<LP.Ins>, code: seq<BcIns>, n: nat)
    requires Placed(ins, code, n)
    ensures n <= |code| + 1
  {
  }

  lemma FinalEndIs(f: Body, p: nat, addr: nat)
    requires Good(f) && p < |f.order| && LP.InRange(f.ins, f.locals, f.order)
    ensures FinalEnd(f, p, addr) == addr || exists i :: 0 <= i <= |f.ins| && FinalEnd(f, p, addr) == LP.Pc(f.ins, i)
  {
    hide LP.Pc, Good;
    var r := LastEnd(f, p, |f.order|);
    if r >= 0 {
      assert FinalEnd(f, p, addr) == addr || FinalEnd(f, p, addr) == LP.Pc(f.ins, f.order[r].insnOrder);
    }
  }

  /** The program reaches the end of every variable. */
  lemma ReachesEnds(f: Body, line: int, ops: seq<LP.Op>, k: nat)
    requires Good(f) && k < |f.order| && LP.Events(line, ops) == LP.EventsOf(f.ins, f.locals, f.order, |f.order|)
    ensures WholeVar(f, k).end <= LP.Replay(line, ops).addr
  {
    hide Good, LP.Events, LP.EventsOf, LP.Replay, LP.Pc;
    InOrder(f);
    var s, e := OtherEnd(f, k);
    EntryFacts(f, e);
    EventAtEntry(f, |f.order|, e);
    ReplayReaches(line, ops, e);
  }

  /** The variables that are read are those that were emitted, in the order they start, if and only
      if every one of them has its own end in the table. */
  lemma LocalsReadBack(f: Body, code: seq<BcIns>, n: nat, line: int, ops: seq<LP.Op>, read: seq<LP.Local>)
    requires Good(f) && Placed(f.ins, code, n)
    requires LP.Events(line, ops) == LP.EventsOf(f.ins, f.locals, f.order, |f.order|)
    requires var t := LP.Replay(line, ops);
             t.addr <= LP.Pc(f.ins, |f.ins|) && LocalsRead(code, n, Processed(t.locals, t.addr), read) && |read| == |t.locals|
    ensures read == InStartOrder(f, |f.order|) <==> AllRight(f, LP.Replay(line, ops).addr)
    ensures AllValid(f.ins) ==> VE.Names(f.locals, f.order) && InStartOrder(f, |f.order|) == VE.StartingIn(f.locals, f.order)
  {
    hide Good, Placed, LP.Events, LP.EventsOf, LP.Replay, Whole, LocalRead, InStartOrder, LP.InRange, FinalEnd, RightAt, Played, Processed, WholeVar, Renumbered, LP.Pc, AllValid,
         VE.StartingIn, VE.Names;
    if AllValid(f.ins) {
      OriginalOrder(f);
    }
    InOrder(f);
    ReplayIsPlayed(f, line, ops);
    SameLength(f, |f.order|);
    StartOrderSize(f, |f.order|);
    var addr, all := LP.Replay(line, ops).addr, InStartOrder(f, |f.order|);
    forall p | 0 <= p < |f.order| && IsStart(f, p)
      ensures |Whole(f, p)| < |read| && (read[|Whole(f, p)|] == all[|Whole(f, p)|] <==> RightAt(f, p, addr))
    {
      ReachesEnds(f, line, ops, p);
      TableEntry(f, p, addr);
      StartOrderAt(f, |f.order|, p);
      EntryReadBack(f, code, n, p, addr);
    }
    if AllRight(f, addr) {
      forall e | 0 <= e < |read|
        ensures read[e] == all[e]
      {
        var p := WholeFrom(f, |f.order|, e);
        assert RightAt(f, p, addr);
      }
    }
  }

  /** Without INVALID instructions and without overlapping: if and only if ends are listed first. */
  lemma RightForEnds(f: Body, line: int, ops: seq<LP.Op>)
    requires Good(f) && AllValid(f.ins) && NoOverlap(f.locals, f.regsNum)
    requires LP.Events(line, ops) == LP.EventsOf(f.ins, f.locals, f.order, |f.order|)
    ensures LP.InRange(f.ins, f.locals, f.order) && (AllRight(f, LP.Replay(line, ops).addr) <==> EndsFirst(f))
  {
    hide Good, AllValid, NoOverlap, LP.Events, LP.EventsOf, LP.Replay, AllRight, EndsFirst, WholeVar, LP.InRange;
    InOrder(f);
    forall k | 0 <= k < |f.order|
      ensures WholeVar(f, k).end <= LP.Replay(line, ops).addr
    {
      ReachesEnds(f, line, ops, k);
    }
    RightIffEndsFirst(f, LP.Replay(line, ops).addr);
  }

  // ----- the whole trip -----

  /** Emitting a function's debug information, replaying it and reading the function back gives
      every recorded line and column to the instruction it was recorded for; as many local variables
      as there were if and only if none is without length; and then exactly the same ones if and only
      if each has its own end, as it has under every tie order where all are clear. Without INVALID instructions those are the variables themselves, all
      that are no parameters, by their start. end is where the program ends. */
  method EmitAndRead(f: Body, emitDebugInfo: bool, code: seq<BcIns>, tries: seq<TryBlock>)
    returns (read: seq<PaIns>, vars: seq<LP.Local>, end: nat)
    requires f.ins != [] && LP.Emittable(f.ins) && LP.CodeFits(f.ins)
    requires LP.GoodOrder(f.ins, f.locals, f.regsNum, f.order, emitDebugInfo)
    requires EncodesTo(f.ins, code) && WellFormed(code, tries)
    ensures forall i :: 0 <= i < |f.ins| ==> ReadBack(f.ins, read, i, emitDebugInfo)
    ensures emitDebugInfo ==> end == LP.EndAddress(f.ins, f.locals, f.regsNum)
    ensures emitDebugInfo ==> |vars| == VE.Variables(f.locals, f.regsNum) + VE.Empties(f.locals, f.regsNum)
    ensures emitDebugInfo ==> (|vars| == VE.Variables(f.locals, f.regsNum) <==> Lasting(f.locals, f.regsNum))
    ensures emitDebugInfo && Good(f) ==> (vars == InStartOrder(f, |f.order|) <==> AllRight(f, end))
    ensures emitDebugInfo && Good(f) && Ties.AllClear(f.ins, f.locals, f.regsNum, end) ==> vars == InStartOrder(f, |f.order|)
    ensures emitDebugInfo && Good(f) && AllValid(f.ins) ==>
              && VE.Names(f.locals, f.order)
              && (vars == VE.StartingIn(f.locals, f.order) <==> AllRight(f, end))
              && multiset(VE.StartingIn(f.locals, f.order)) == multiset(VE.NonParameters(f.locals, f.regsNum))
              && VE.ByStart(VE.StartingIn(f.locals, f.order))
    ensures emitDebugInfo && Good(f) && AllValid(f.ins) && NoOverlap(f.locals, f.regsNum) ==>
              (vars == InStartOrder(f, |f.order|) <==> EndsFirst(f))
  {
    hide LP.Emittable, LP.CodeFits, LP.GoodOrder, EncodesTo, WellFormed, LP.Recovers, LP.InRange, LP.Events, LP.EventsOf, LP.Replay, LP.Pc,
         AllDebugSet, AllJumpsDone, AllStand, Shape, LocalsRead, Good, NoOverlap, EndsFirst, InStartOrder, ReadBack, AllRight, AllValid, Placed, Play, Lasting, LP.EndAddress,
         VE.StartingIn, VE.NonParameters, VE.ByStart, VE.Names, Ties.AllClear, LP.GoodLocals;
    var line, ops := LP.BuildLineNumberProgram(f.ins, f.locals, f.regsNum, f.order, emitDebugInfo);
    var t := LP.Replay(line, ops);
    end := t.addr;
    TablesUsable(t, f.ins, emitDebugInfo);
    var p := new AbcCodeProcessor(code, tries);
    p.FillProgramData(t.lines, t.columns, Processed(t.locals, t.addr));
    read, vars := p.ins, p.locals;
    forall i | 0 <= i < |f.ins|
      ensures ReadBack(f.ins, read, i, emitDebugInfo)
    {
      LinesReadBack(f.ins, code, read, t, i, emitDebugInfo);
    }
    if emitDebugInfo {
      VE.TableSize(f.ins, f.locals, f.regsNum, f.order);
      VE.EmptiesIff(f.locals, f.regsNum);
      ReplayLocals(line, ops);
    }
    if emitDebugInfo && Good(f) {
      CodeIsPlaced(f.ins, code, tries, |read|);
      LocalsReadBack(f, code, |read|, line, ops, vars);
      AllOriginals(f);
      if Ties.AllClear(f.ins, f.locals, f.regsNum, end) {
        ClearComesBack(f, end);
      }
      if AllValid(f.ins) && NoOverlap(f.locals, f.regsNum) {
        RightForEnds(f, line, ops);
      }
    }
  }

  /** Whatever order ties came in. */
  lemma ClearComesBack(f: Body, end: nat)
    requires Good(f) && LP.GoodLocals(f.ins, f.locals, f.regsNum) && Ties.AllClear(f.ins, f.locals, f.regsNum, end)
    ensures AllRight(f, end)
  {
    Ties.ClearIsAllRight(f.ins, f.locals, f.regsNum, end, f.order);
    assert f == Body(f.ins, f.locals, f.regsNum, f.order);
  }

  lemma AllOriginals(f: Body)
    requires Good(f)
    ensures VE.Names(f.locals, f.order) && VE.ByStart(VE.StartingIn(f.locals, f.order)) && LP.GoodLocals(f.ins, f.locals, f.regsNum)
    ensures multiset(VE.StartingIn(f.locals, f.order)) == multiset(VE.NonParameters(f.locals, f.regsNum))
  {
    VE.StartingIsAll(f.ins, f.locals, f.regsNum, f.order);
  }

  lemma TablesUsable(t: LP.Tables, ins: seq<LP.Ins>, emitDebugInfo: bool)
    requires LP.Recovers(t, ins, emitDebugInfo)
    ensures LP.Sorted(t.lines) && LP.Sorted(t.columns) && (t.lines != [] ==> t.lines[0].offset == 0)
    ensures t.addr <= LP.Pc(ins, |ins|)
  {
  }

  lemma CodeIsPlaced(ins: seq<LP.Ins>, code: seq<BcIns>, tries: seq<TryBlock>, n: nat)
    requires WellFormed(code, tries) && EncodesTo(ins, code) && n == Slots(code, tries)
    ensures Placed(ins, code, n)
  {
  }
}

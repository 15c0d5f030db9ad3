/** The ranges of local variables, from CollectLocalVariable and EmitLocalVariable
    (assembler/assembly-emitter.cpp) to the table that replaying the program gives
    (libpandafile/debug_info_extractor.cpp). */
module LocalRanges {
  import opened LineProgram

  /** A function with its variables and the sorted list of their ends. */
  datatype Body = Body(ins: seq<Ins>, locals: seq<Local>, regsNum: nat, order: seq<Pair>)

  /** Variables that are no parameters have a length. */
  predicate Lasting(locals: seq<Local>, regsNum: nat) {
    forall i :: 0 <= i < |locals| && !IsParameter(regsNum, locals[i]) ==> 0 < locals[i].length
  }

  ghost predicate Good(f: Body) {
    && Emittable(f.ins) && InRange(f.ins, f.locals, f.order) && GoodOrder(f.ins, f.locals, f.regsNum, f.order, true)
    && Lasting(f.locals, f.regsNum)
  }

  /** No INVALID instruction, so no two of them share an offset. */
  predicate AllValid(ins: seq<Ins>) { forall i :: 0 <= i < |ins| ==> ins[i].valid }

  function VariableAt(f: Body, k: nat): Local
    requires InRange(f.ins, f.locals, f.order) && k < |f.order|
  {
    f.locals[f.order[k].variable]
  }

  predicate IsStart(f: Body, k: nat)
    requires InRange(f.ins, f.locals, f.order) && k < |f.order|
  {
    f.order[k].insnOrder == VariableAt(f, k).start
  }

  function EndOf(v: Local): nat { v.start + v.length }

  lemma InOrder(f: Body)
    requires Good(f)
    ensures InRange(f.ins, f.locals, f.order)
  {
  }

  // ----- the sorted list -----

  lemma {:induction false} CollectUnique(locals: seq<Local>, regsNum: nat, p: Pair)
    requires Lasting(locals, regsNum)
    ensures multiset(Collect(locals, regsNum))[p] <= 1
    ensures p in Collect(locals, regsNum) ==> p.variable < |locals|
  {
    if locals != [] {
      CollectUnique(locals[..|locals| - 1], regsNum, p);
    }
  }

  lemma CountTwice<T>(s: seq<T>, a: nat, b: nat)
    requires a < b < |s| && s[a] == s[b]
    ensures multiset(s)[s[a]] >= 2
  {
    assert s == s[..b] + [s[b]] + s[b + 1..];
    assert s[..b][a] in s[..b];
    assert multiset(s[..b])[s[a]] >= 1;
  }

  /** A pair occurs once. */
  lemma OrderUnique(f: Body, a: nat, b: nat)
    requires Good(f) && a < |f.order| && b < |f.order| && f.order[a] == f.order[b]
    ensures a == b
  {
    CollectUnique(f.locals, f.regsNum, f.order[a]);
    if a < b {
      CountTwice(f.order, a, b);
    } else if b < a {
      CountTwice(f.order, b, a);
    }
  }

  /** What every entry of the list is: one end of a variable that is no parameter. */
  lemma EntryFacts(f: Body, k: nat)
    requires Good(f) && k < |f.order|
    ensures GoodLocal(VariableAt(f, k), |f.ins|) && !IsParameter(f.regsNum, VariableAt(f, k)) && 0 < VariableAt(f, k).length
    ensures f.order[k].insnOrder == if IsStart(f, k) then VariableAt(f, k).start else EndOf(VariableAt(f, k))
  {
    CollectFacts(f.locals, f.regsNum);
    assert f.order[k] in multiset(f.order);
    assert f.order[k] in Collect(f.locals, f.regsNum);
  }

  lemma OrderSorted(f: Body, a: nat, b: nat)
    requires Good(f) && a <= b < |f.order|
    ensures f.order[a].insnOrder <= f.order[b].insnOrder
  {
    assert SortedPairs(f.order);
  }

  /** Where the two ends of a variable are listed. */
  lemma Places(f: Body, x: nat) returns (s: nat, e: nat)
    requires Good(f) && x < |f.locals| && !IsParameter(f.regsNum, f.locals[x])
    ensures InRange(f.ins, f.locals, f.order) && s < e < |f.order|
    ensures f.order[s] == Pair(f.locals[x].start, x) && f.order[e] == Pair(EndOf(f.locals[x]), x) && IsStart(f, s) && !IsStart(f, e)
  {
    hide Collect, Emittable, InRange, GoodLocals;
    CollectHas(f.locals, f.regsNum, x);
    var p, q := Pair(f.locals[x].start, x), Pair(EndOf(f.locals[x]), x);
    assert p in multiset(f.order) && q in multiset(f.order);
    s :| 0 <= s < |f.order| && f.order[s] == p;
    e :| 0 <= e < |f.order| && f.order[e] == q;
    assert p.insnOrder < q.insnOrder;
    if e < s {
      OrderSorted(f, e, s);
    }
  }

  /** Where the other end of a variable is. */
  lemma OtherEnd(f: Body, k: nat) returns (s: nat, e: nat)
    requires Good(f) && k < |f.order|
    ensures s < e < |f.order| && f.order[s].variable == f.order[e].variable == f.order[k].variable
    ensures IsStart(f, s) && !IsStart(f, e) && (k == s || k == e)
  {
    hide Good;
    InOrder(f);
    EntryFacts(f, k);
    s, e := Places(f, f.order[k].variable);
    OrderUnique(f, k, if IsStart(f, k) then s else e);
  }

  // ----- playing the events -----

  function Apply(vars: seq<Var>, e: Event): seq<Var> {
    match e
    case Started(reg, name, addr) => vars + [Var(reg, name, addr, 0)]
    case Ended(reg, addr) => EndYoungest(vars, reg, addr)
  }

  function Play(events: seq<Event>): seq<Var> {
    if events == [] then [] else Apply(Play(events[..|events| - 1]), events[|events| - 1])
  }

  lemma PlayAppend(events: seq<Event>, e: Event)
    ensures Play(events + [e]) == Apply(Play(events), e)
  {
    assert (events + [e])[..|events|] == events;
  }

  /** The variable table depends on the events alone. */
  lemma {:induction false} ReplayLocals(line: int, ops: seq<Op>)
    ensures Replay(line, ops).locals == Play(Events(line, ops))
  {
    if ops != [] {
      var init, op := ops[..|ops| - 1], ops[|ops| - 1];
      ReplayLocals(line, init);
      if op.StartLocal? {
        PlayAppend(Events(line, init), Started(op.reg, op.name, Replay(line, init).addr));
      } else if op.EndLocal? {
        PlayAppend(Events(line, init), Ended(op.reg, Replay(line, init).addr));
      } else {
        assert Events(line, ops) == Events(line, init);
      }
    }
  }

  function AddrOf(e: Event): nat { e.addr }

  /** The program ends no earlier than its last event. */
  lemma {:induction false} ReplayReaches(line: int, ops: seq<Op>, k: nat)
    requires k < |Events(line, ops)|
    ensures AddrOf(Events(line, ops)[k]) <= Replay(line, ops).addr
  {
    var init := ops[..|ops| - 1];
    if k < |Events(line, init)| {
      ReplayReaches(line, init, k);
    }
  }

  function PlayedEvents(f: Body, k: nat): seq<Event>
    requires InRange(f.ins, f.locals, f.order) && k <= |f.order|
  {
    EventsOf(f.ins, f.locals, f.order, k)
  }

  /** The table after the first k entries of the list. */
  function Played(f: Body, k: nat): seq<Var>
    requires InRange(f.ins, f.locals, f.order) && k <= |f.order|
  {
    Play(PlayedEvents(f, k))
  }

  function StartVar(f: Body, k: nat): Var
    requires InRange(f.ins, f.locals, f.order) && k < |f.order|
  {
    var v := VariableAt(f, k);
    Var(v.reg, v.name, Pc(f.ins, f.order[k].insnOrder), 0)
  }

  /** A variable with a length has one event at each end. */
  lemma OneEvent(f: Body, k: nat)
    requires Good(f) && k < |f.order|
    ensures EventsAt(f.ins, VariableAt(f, k), f.order[k].insnOrder) ==
            [if IsStart(f, k) then StartEvent(f.ins, VariableAt(f, k)) else EndEvent(f.ins, VariableAt(f, k))]
  {
    EntryFacts(f, k);
  }

  lemma {:induction false} EventsSize(f: Body, n: nat)
    requires Good(f) && n <= |f.order|
    ensures |PlayedEvents(f, n)| == n
  {
    hide Good, EventsAt;
    InOrder(f);
    if n > 0 {
      EventsSize(f, n - 1);
      OneEvent(f, n - 1);
    }
  }

  lemma {:induction false} EventAtEntry(f: Body, n: nat, k: nat)
    requires Good(f) && k < n <= |f.order|
    ensures |PlayedEvents(f, n)| == n
    ensures PlayedEvents(f, n)[k] == if IsStart(f, k) then StartEvent(f.ins, VariableAt(f, k)) else EndEvent(f.ins, VariableAt(f, k))
    decreases n
  {
    hide Good, EventsAt, Pc;
    InOrder(f);
    OneEvent(f, n - 1);
    EventsSize(f, n - 1);
    if k < n - 1 {
      EventAtEntry(f, n - 1, k);
    }
  }

  /** Replaying the program of the function plays its list. */
  lemma ReplayIsPlayed(f: Body, line: int, ops: seq<Op>)
    requires InRange(f.ins, f.locals, f.order) && Events(line, ops) == EventsOf(f.ins, f.locals, f.order, |f.order|)
    ensures Replay(line, ops).locals == Played(f, |f.order|)
  {
    hide Replay, Events, EventsOf, Play;
    ReplayLocals(line, ops);
  }

  lemma PlayedNext(f: Body, k: nat)
    requires Good(f) && k < |f.order|
    ensures Played(f, k + 1) ==
            if IsStart(f, k) then Played(f, k) + [StartVar(f, k)]
            else EndYoungest(Played(f, k), VariableAt(f, k).reg, Pc(f.ins, f.order[k].insnOrder))
  {
    hide Play, EventsOf, Pc, Good, EventsAt, InRange;
    InOrder(f);
    EntryFacts(f, k);
    OneEvent(f, k);
    EventsOfNext(f.ins, f.locals, f.order, k);
    PlayAppend(PlayedEvents(f, k), EventsAt(f.ins, VariableAt(f, k), f.order[k].insnOrder)[0]);
  }

  // ----- what the table should be -----

  /** The variable that starts at entry k, with its whole range. */
  function WholeVar(f: Body, k: nat): Var
    requires Good(f) && k < |f.order|
  {
    EntryFacts(f, k);
    var v := VariableAt(f, k);
    Var(v.reg, v.name, Pc(f.ins, v.start), Pc(f.ins, EndOf(v)))
  }

  /** The variables in the order they start. */
  function Whole(f: Body, n: nat): seq<Var>
    requires Good(f) && n <= |f.order|
  {
    if n == 0 then []
    else Whole(f, n - 1) + (if IsStart(f, n - 1) then [WholeVar(f, n - 1)] else [])
  }

  lemma {:induction false} WholeAt(f: Body, n: nat, p: nat)
    requires Good(f) && p < n <= |f.order| && IsStart(f, p)
    ensures |Whole(f, p)| < |Whole(f, n)| && Whole(f, n)[|Whole(f, p)|] == WholeVar(f, p)
  {
    hide Good, WholeVar;
    InOrder(f);
    if p < n - 1 {
      WholeAt(f, n - 1, p);
    }
  }

  /** Every entry of the table belongs to a start. */
  lemma {:induction false} WholeFrom(f: Body, n: nat, e: nat) returns (p: nat)
    requires Good(f) && n <= |f.order| && e < |Whole(f, n)|
    ensures p < n && IsStart(f, p) && |Whole(f, p)| == e
  {
    hide Good, WholeVar;
    InOrder(f);
    if e < |Whole(f, n - 1)| {
      p := WholeFrom(f, n - 1, e);
    } else {
      p := n - 1;
    }
  }

  // ----- what ends a variable -----

  predicate SameReg(f: Body, p: nat, j: nat)
    requires InRange(f.ins, f.locals, f.order) && p < |f.order| && j < |f.order|
  {
    VariableAt(f, p).reg == VariableAt(f, j).reg
  }

  /** Between entries p and k no variable of p's register starts. */
  ghost predicate Open(f: Body, p: nat, k: nat)
    requires InRange(f.ins, f.locals, f.order) && p < |f.order| && k <= |f.order|
  {
    forall j :: p < j < k && IsStart(f, j) ==> !SameReg(f, p, j)
  }

  /** Entry j ends a variable of p's register while p's is the youngest of it. */
  ghost predicate EndsIn(f: Body, p: nat, j: nat)
    requires InRange(f.ins, f.locals, f.order) && p < |f.order| && j < |f.order|
  {
    p < j && !IsStart(f, j) && SameReg(f, p, j) && Open(f, p, j)
  }

  /** The last such entry before k; -1 if there is none. */
  ghost function LastEnd(f: Body, p: nat, k: nat): (r: int)
    requires InRange(f.ins, f.locals, f.order) && p < k <= |f.order|
    ensures -1 <= r < k && (r >= 0 ==> EndsIn(f, p, r)) && forall j :: r < j < k && p < j ==> !EndsIn(f, p, j)
  {
    if k == p + 1 then -1 else if EndsIn(f, p, k - 1) then k - 1 else LastEnd(f, p, k - 1)
  }

  /** The offset it gives to the end; zero if there is none. */
  ghost function EndPc(f: Body, p: nat, k: nat): nat
    requires InRange(f.ins, f.locals, f.order) && p < k <= |f.order|
  {
    var r := LastEnd(f, p, k);
    if r < 0 then 0 else Pc(f.ins, f.order[r].insnOrder)
  }

  ghost predicate HasLater(vars: seq<Var>, e: nat, reg: int) {
    exists g :: e < g < |vars| && vars[g].reg == reg
  }

  /** Only the youngest variable of the register ends. */
  lemma {:induction false} EndYoungestAt(vars: seq<Var>, reg: int, addr: nat, e: nat)
    requires e < |vars|
    ensures EndYoungest(vars, reg, addr)[e] ==
            if vars[e].reg == reg && !HasLater(vars, e, reg) then vars[e].(end := addr) else vars[e]
  {
    var n := |vars| - 1;
    if vars[n].reg != reg && e < n {
      EndYoungestAt(vars[..n], reg, addr, e);
      assert HasLater(vars, e, reg) ==> HasLater(vars[..n], e, reg) by {
        if g :| e < g < |vars| && vars[g].reg == reg {
          assert vars[..n][g].reg == reg;
        }
      }
      assert HasLater(vars[..n], e, reg) ==> HasLater(vars, e, reg) by {
        if g :| e < g < n && vars[..n][g].reg == reg {
          assert vars[g].reg == reg;
        }
      }
    }
  }

  lemma EndYoungestLater(vars: seq<Var>, reg: int, addr: nat, e: nat, r: int)
    ensures HasLater(EndYoungest(vars, reg, addr), e, r) <==> HasLater(vars, e, r)
  {
    hide EndYoungest;
    forall g | 0 <= g < |vars|
      ensures EndYoungest(vars, reg, addr)[g].reg == vars[g].reg
    {
      EndYoungestAt(vars, reg, addr, g);
    }
  }

  lemma AppendLater(vars: seq<Var>, v: Var, e: nat, r: int)
    requires e < |vars|
    ensures HasLater(vars + [v], e, r) <==> HasLater(vars, e, r) || v.reg == r
  {
    var vars' := vars + [v];
    if v.reg == r {
      assert vars'[|vars|].reg == r;
    }
    if g :| e < g < |vars| && vars[g].reg == r {
      assert vars'[g].reg == r;
    }
  }

  /** The entry of the variable that started at entry p, after the first k entries. */
  ghost predicate EntryIs(f: Body, p: nat, k: nat, vars: seq<Var>)
    requires Good(f) && p < k <= |f.order|
  {
    var e, v := |Whole(f, p)|, WholeVar(f, p);
    && e < |vars| && vars[e] == v.(end := EndPc(f, p, k))
    && (HasLater(vars, e, v.reg) <==> !Open(f, p, k))
  }

  lemma OpenNext(f: Body, p: nat, k: nat)
    requires InRange(f.ins, f.locals, f.order) && p < k < |f.order|
    ensures Open(f, p, k + 1) <==> Open(f, p, k) && !(IsStart(f, k) && SameReg(f, p, k))
  {
  }

  lemma EntryByStart(f: Body, p: nat, k: nat, vars: seq<Var>)
    requires Good(f) && p < k < |f.order| && EntryIs(f, p, k, vars) && IsStart(f, k)
    ensures EntryIs(f, p, k + 1, vars + [StartVar(f, k)])
  {
    hide Good, Pc, Whole, Open, HasLater;
    InOrder(f);
    OpenNext(f, p, k);
    AppendLater(vars, StartVar(f, k), |Whole(f, p)|, WholeVar(f, p).reg);
  }

  lemma EntryByEnd(f: Body, p: nat, k: nat, vars: seq<Var>)
    requires Good(f) && p < k < |f.order| && EntryIs(f, p, k, vars) && !IsStart(f, k)
    ensures EntryIs(f, p, k + 1, EndYoungest(vars, VariableAt(f, k).reg, Pc(f.ins, f.order[k].insnOrder)))
  {
    hide Good, Pc, Whole, Open, HasLater, EndYoungest;
    InOrder(f);
    OpenNext(f, p, k);
    var reg, addr, e := VariableAt(f, k).reg, Pc(f.ins, f.order[k].insnOrder), |Whole(f, p)|;
    EndYoungestAt(vars, reg, addr, e);
    EndYoungestLater(vars, reg, addr, e, WholeVar(f, p).reg);
  }

  lemma {:induction false} SameLength(f: Body, k: nat)
    requires Good(f) && k <= |f.order|
    ensures |Played(f, k)| == |Whole(f, k)|
  {
    hide Good, Pc, EndYoungest, Played, WholeVar;
    InOrder(f);
    if k == 0 {
      NonePlayed(f);
    } else {
      SameLength(f, k - 1);
      PlayedNext(f, k - 1);
    }
  }

  lemma NonePlayed(f: Body)
    requires Good(f)
    ensures Played(f, 0) == []
  {
  }

  lemma EntryBegins(f: Body, p: nat)
    requires Good(f) && p < |f.order| && IsStart(f, p)
    ensures EntryIs(f, p, p + 1, Played(f, p) + [StartVar(f, p)])
  {
    hide Good, Pc, Whole, Played;
    InOrder(f);
    SameLength(f, p);
  }

  lemma {:induction false} PlayedEntry(f: Body, p: nat, k: nat)
    requires Good(f) && p < k <= |f.order| && IsStart(f, p)
    ensures EntryIs(f, p, k, Played(f, k))
  {
    hide Good, Pc, Whole, Played, EntryIs, EndYoungest, IsStart, VariableAt, InRange;
    InOrder(f);
    PlayedNext(f, k - 1);
    if k - 1 == p {
      EntryBegins(f, p);
    } else {
      PlayedEntry(f, p, k - 1);
      if IsStart(f, k - 1) {
        EntryByStart(f, p, k - 1, Played(f, k - 1));
      } else {
        EntryByEnd(f, p, k - 1, Played(f, k - 1));
      }
    }
  }

  // ----- ProcessVars -----

  /** ProcessVars: a variable still at end zero ends with the program. */
  function Processed(vars: seq<Var>, addr: nat): (res: seq<Var>)
    ensures |res| == |vars|
  {
    if vars == [] then []
    else
      var n := |vars| - 1;
      Processed(vars[..n], addr) + [if vars[n].end == 0 then vars[n].(end := addr) else vars[n]]
  }

  lemma {:induction false} ProcessedAt(vars: seq<Var>, addr: nat, i: nat)
    requires i < |vars|
    ensures Processed(vars, addr)[i] == if vars[i].end == 0 then vars[i].(end := addr) else vars[i]
  {
    if i < |vars| - 1 {
      ProcessedAt(vars[..|vars| - 1], addr, i);
    }
  }

  /** The end that the variable started at entry p has in the table. */
  ghost function FinalEnd(f: Body, p: nat, addr: nat): nat
    requires InRange(f.ins, f.locals, f.order) && p < |f.order|
  {
    var e := EndPc(f, p, |f.order|);
    if e == 0 then addr else e
  }

  ghost predicate RightAt(f: Body, p: nat, addr: nat)
    requires Good(f) && p < |f.order|
  {
    FinalEnd(f, p, addr) == WholeVar(f, p).end
  }

  ghost predicate AllRight(f: Body, addr: nat)
    requires Good(f)
  {
    forall p :: 0 <= p < |f.order| && IsStart(f, p) ==> RightAt(f, p, addr)
  }

  /** What the table has for the variable started at entry p. */
  lemma TableEntry(f: Body, p: nat, addr: nat)
    requires Good(f) && p < |f.order| && IsStart(f, p)
    ensures var table, e := Processed(Played(f, |f.order|), addr), |Whole(f, p)|;
            e < |table| && table[e] == WholeVar(f, p).(end := FinalEnd(f, p, addr))
  {
    hide Good, Pc, Whole, Played, Processed, WholeVar;
    InOrder(f);
    PlayedEntry(f, p, |f.order|);
    ProcessedAt(Played(f, |f.order|), addr, |Whole(f, p)|);
  }

  /** The table that a program gives is right if and only if every variable's last end, among those
      of its register before the next start in it, is its own; or there is none, and it ends with
      the program. Overlapping variables and INVALID instructions are no exception. */
  lemma TableRightIff(f: Body, addr: nat)
    requires Good(f)
    ensures Processed(Played(f, |f.order|), addr) == Whole(f, |f.order|) <==> AllRight(f, addr)
  {
    hide Good, Pc, Whole, Played, Processed, FinalEnd;
    InOrder(f);
    SameLength(f, |f.order|);
    var table, whole := Processed(Played(f, |f.order|), addr), Whole(f, |f.order|);
    forall p | 0 <= p < |f.order| && IsStart(f, p)
      ensures |Whole(f, p)| < |whole| && (table[|Whole(f, p)|] == whole[|Whole(f, p)|] <==> RightAt(f, p, addr))
    {
      TableEntry(f, p, addr);
      WholeAt(f, |f.order|, p);
    }
    if AllRight(f, addr) {
      forall e | 0 <= e < |whole|
        ensures table[e] == whole[e]
      {
        var p := WholeFrom(f, |f.order|, e);
        assert RightAt(f, p, addr);
      }
    }
  }

  // ----- variables that do not overlap -----

  predicate SameRegister(locals: seq<Local>, regsNum: nat, x: nat, y: nat)
    requires x < |locals| && y < |locals|
  {
    locals[x].reg == locals[y].reg && !IsParameter(regsNum, locals[x]) && !IsParameter(regsNum, locals[y])
  }

  predicate Apart(v: Local, w: Local) { EndOf(v) <= w.start || EndOf(w) <= v.start }

  predicate Separate(v: Local, w: Local) { EndOf(v) < w.start || EndOf(w) < v.start }

  /** Variables of one register that are no parameters do not overlap; they may touch. */
  predicate NoOverlap(locals: seq<Local>, regsNum: nat) {
    forall x, y :: 0 <= x < |locals| && 0 <= y < |locals| && x != y && SameRegister(locals, regsNum, x, y) ==> Apart(locals[x], locals[y])
  }

  /** They do not even touch. */
  predicate NoTouch(locals: seq<Local>, regsNum: nat) {
    forall x, y :: 0 <= x < |locals| && 0 <= y < |locals| && x != y && SameRegister(locals, regsNum, x, y) ==> Separate(locals[x], locals[y])
  }

  /** Where a variable starts and another of the same register ends, the end is listed first. */
  predicate EndsFirst(f: Body)
    requires InRange(f.ins, f.locals, f.order)
  {
    forall a, b :: 0 <= a < b < |f.order| ==> !StartsTooSoon(f, a, b)
  }

  predicate StartsTooSoon(f: Body, a: nat, b: nat)
    requires InRange(f.ins, f.locals, f.order) && a < b < |f.order|
  {
    && IsStart(f, a) && !IsStart(f, b) && f.order[a].insnOrder == f.order[b].insnOrder
    && VariableAt(f, a).reg == VariableAt(f, b).reg
  }

  /** Two entries of different variables of one register. */
  lemma ApartAt(f: Body, j: nat, k: nat)
    requires Good(f) && NoOverlap(f.locals, f.regsNum) && j < |f.order| && k < |f.order|
    requires f.order[j].variable != f.order[k].variable && SameReg(f, j, k)
    ensures Apart(VariableAt(f, j), VariableAt(f, k))
  {
    EntryFacts(f, j);
    EntryFacts(f, k);
    assert SameRegister(f.locals, f.regsNum, f.order[j].variable, f.order[k].variable);
  }

  /** Between the start and the end of a variable no other of its register starts. */
  lemma NoneBetween(f: Body, s: nat, k: nat, j: nat)
    requires Good(f) && NoOverlap(f.locals, f.regsNum) && EndsFirst(f) && s < j < k < |f.order|
    requires IsStart(f, s) && !IsStart(f, k) && f.order[s].variable == f.order[k].variable && IsStart(f, j)
    ensures !SameReg(f, s, j)
  {
    hide NoOverlap, Good;
    InOrder(f);
    EntryFacts(f, s);
    EntryFacts(f, j);
    EntryFacts(f, k);
    OrderSorted(f, s, j);
    OrderSorted(f, j, k);
    assert !StartsTooSoon(f, j, k);
    if SameReg(f, s, j) {
      if f.order[s].variable == f.order[j].variable {
        OrderUnique(f, s, j);
      } else {
        ApartAt(f, s, j);
      }
    }
  }

  /** After its own end no older variable of the register ends before a new one starts. */
  lemma NoneAfter(f: Body, p: nat, e: nat, k: nat)
    requires Good(f) && NoOverlap(f.locals, f.regsNum) && p < e < k < |f.order|
    requires IsStart(f, p) && !IsStart(f, e) && f.order[p].variable == f.order[e].variable
    ensures !EndsIn(f, p, k)
  {
    hide NoOverlap, Good;
    InOrder(f);
    if EndsIn(f, p, k) {
      EntryFacts(f, p);
      EntryFacts(f, e);
      EntryFacts(f, k);
      OrderSorted(f, e, k);
      if f.order[k].variable == f.order[p].variable {
        OrderUnique(f, e, k);
        assert false;
      } else {
        var s, k' := OtherEnd(f, k);
        ApartAt(f, p, k);
        if s <= p {
          OrderSorted(f, s, p);
        }
        assert false;
      }
    }
  }

  lemma EndsFirstIsRight(f: Body, p: nat, addr: nat)
    requires Good(f) && AllValid(f.ins) && NoOverlap(f.locals, f.regsNum) && EndsFirst(f) && p < |f.order| && IsStart(f, p)
    ensures RightAt(f, p, addr)
  {
    hide Good, NoOverlap, EndsFirst, Pc;
    InOrder(f);
    var s, e := OtherEnd(f, p);
    EntryFacts(f, p);
    EntryFacts(f, e);
    forall j | p < j < e && IsStart(f, j)
      ensures !SameReg(f, p, j)
    {
      NoneBetween(f, p, e, j);
    }
    assert EndsIn(f, p, e);
    forall k | e < k < |f.order|
      ensures !EndsIn(f, p, k)
    {
      NoneAfter(f, p, e, k);
    }
    assert LastEnd(f, p, |f.order|) == e;
    PcStrict(f.ins, VariableAt(f, p).start, EndOf(VariableAt(f, p)), f);
  }

  /** Without INVALID instructions a later instruction has a greater offset. */
  lemma PcStrict(ins: seq<Ins>, i: nat, j: nat, f: Body)
    requires f.ins == ins && Good(f) && AllValid(ins) && i < j <= |ins|
    ensures Pc(ins, i) < Pc(ins, j)
  {
    assert GoodIns(ins[i]);
    PcMonotone(ins, i, j);
  }

  /** A start listed before the end it touches: the variable that should have ended does not, if
      the program goes on to the end of the one that started. */
  lemma TouchingIsWrong(f: Body, a: nat, b: nat, addr: nat) returns (p: nat)
    requires Good(f) && AllValid(f.ins) && NoOverlap(f.locals, f.regsNum) && a < b < |f.order| && StartsTooSoon(f, a, b)
    requires WholeVar(f, a).end <= addr
    ensures p < |f.order| && IsStart(f, p) && !RightAt(f, p, addr)
  {
    hide Good, NoOverlap, Pc;
    InOrder(f);
    var b';
    p, b' := OtherEnd(f, b);
    EntryFacts(f, a);
    EntryFacts(f, p);
    EntryFacts(f, b);
    if a <= p {
      OrderSorted(f, a, p);
    }
    var v, w := VariableAt(f, p), VariableAt(f, a);
    PcStrict(f.ins, w.start, EndOf(w), f);
    var r := LastEnd(f, p, |f.order|);
    if r >= 0 {
      EarlierEnd(f, p, a, b, r);
      EntryFacts(f, r);
      PcStrict(f.ins, f.order[r].insnOrder, EndOf(v), f);
      PcStrict(f.ins, 0, f.order[r].insnOrder, f);
    }
  }

  /** What ends there lies before the end that is missed. */
  lemma EarlierEnd(f: Body, p: nat, a: nat, b: nat, r: nat)
    requires Good(f) && NoOverlap(f.locals, f.regsNum) && p < a < b < |f.order| && r < |f.order|
    requires IsStart(f, p) && f.order[p].variable == f.order[b].variable && StartsTooSoon(f, a, b) && EndsIn(f, p, r)
    ensures 0 < f.order[r].insnOrder < EndOf(VariableAt(f, p))
  {
    hide Good, NoOverlap;
    InOrder(f);
    assert r < a;
    EntryFacts(f, p);
    EntryFacts(f, b);
    EntryFacts(f, r);
    OrderSorted(f, r, a);
    if f.order[r].variable == f.order[p].variable {
      OrderUnique(f, r, b);
    } else {
      ApartAt(f, p, r);
    }
  }

  /** Whatever order the sort gave ties: the table is right if and only if every end that
      touches a start of the same register is listed before it. */
  lemma RightIffEndsFirst(f: Body, addr: nat)
    requires Good(f) && AllValid(f.ins) && NoOverlap(f.locals, f.regsNum)
    requires forall k :: 0 <= k < |f.order| ==> WholeVar(f, k).end <= addr
    ensures AllRight(f, addr) <==> EndsFirst(f)
  {
    hide Good, NoOverlap, StartsTooSoon, WholeVar, RightAt, AllValid;
    InOrder(f);
    if EndsFirst(f) {
      forall p | 0 <= p < |f.order| && IsStart(f, p)
        ensures RightAt(f, p, addr)
      {
        EndsFirstIsRight(f, p, addr);
      }
    } else {
      var a, b :| 0 <= a < b < |f.order| && StartsTooSoon(f, a, b);
      var p := TouchingIsWrong(f, a, b, addr);
    }
  }

  lemma NoTouchIsSafe(f: Body)
    requires Good(f) && NoTouch(f.locals, f.regsNum)
    ensures NoOverlap(f.locals, f.regsNum) && EndsFirst(f)
  {
    forall a, b | 0 <= a < b < |f.order|
      ensures !StartsTooSoon(f, a, b)
    {
      EntryFacts(f, a);
      EntryFacts(f, b);
      var x, y := f.order[a].variable, f.order[b].variable;
      if x != y && SameRegister(f.locals, f.regsNum, x, y) {
        assert Separate(f.locals[x], f.locals[y]);
      }
    }
  }
}

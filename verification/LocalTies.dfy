/** Which variables are safe whatever order std::sort gives to ties: CollectLocalVariable in
    assembler/assembly-emitter.cpp. */
module LocalTies {
  import opened LineProgram
  import opened LocalRanges

  // ----- one way to break ties -----

  /** How ties are to be broken: at the place of begin everything else first, then begin, end and
      next; elsewhere everything else last. */
  datatype Wish = Wish(begin: Pair, end: Pair, next: Pair) {
    function Level(p: Pair): nat {
      if p == begin then 1 else if p == end then 2 else if p == next then 3 else if p.insnOrder == begin.insnOrder then 0 else 4
    }

    function Key(p: Pair): nat { 5 * p.insnOrder + Level(p) }
  }

  function Insert(wish: Wish, s: seq<Pair>, p: Pair): seq<Pair> {
    if s == [] || wish.Key(s[|s| - 1]) <= wish.Key(p) then s + [p]
    else Insert(wish, s[..|s| - 1], p) + [s[|s| - 1]]
  }

  function Arranged(wish: Wish, s: seq<Pair>): seq<Pair> {
    if s == [] then [] else Insert(wish, Arranged(wish, s[..|s| - 1]), s[|s| - 1])
  }

  predicate ByKey(wish: Wish, s: seq<Pair>) {
    forall i, j :: 0 <= i < j < |s| ==> wish.Key(s[i]) <= wish.Key(s[j])
  }

  predicate Below(wish: Wish, s: seq<Pair>, bound: nat) {
    forall i :: 0 <= i < |s| ==> wish.Key(s[i]) <= bound
  }

  lemma {:induction false} InsertKeeps(wish: Wish, s: seq<Pair>, p: Pair, bound: nat)
    requires ByKey(wish, s) && Below(wish, s, bound) && wish.Key(p) <= bound
    ensures ByKey(wish, Insert(wish, s, p)) && Below(wish, Insert(wish, s, p), bound)
    ensures multiset(Insert(wish, s, p)) == multiset(s) + multiset{p}
  {
    hide Wish.Key;
    if s != [] && wish.Key(s[|s| - 1]) > wish.Key(p) {
      var init, last := s[..|s| - 1], s[|s| - 1];
      InsertKeeps(wish, init, p, wish.Key(last));
      assert s == init + [last];
    }
  }

  function Greatest(wish: Wish, s: seq<Pair>): (b: nat)
    ensures Below(wish, s, b)
  {
    if s == [] then 0
    else
      var b, k := Greatest(wish, s[..|s| - 1]), wish.Key(s[|s| - 1]);
      if b < k then k else b
  }

  lemma {:induction false} ArrangedSorts(wish: Wish, s: seq<Pair>)
    ensures ByKey(wish, Arranged(wish, s)) && multiset(Arranged(wish, s)) == multiset(s)
  {
    hide Wish.Key, Insert, Greatest;
    if s != [] {
      var init, p := s[..|s| - 1], s[|s| - 1];
      ArrangedSorts(wish, init);
      var t := Arranged(wish, init);
      var b := Greatest(wish, t);
      HigherBound(wish, t, b, if b < wish.Key(p) then wish.Key(p) else b);
      InsertKeeps(wish, t, p, if b < wish.Key(p) then wish.Key(p) else b);
      assert s == init + [p];
    }
  }

  lemma HigherBound(wish: Wish, s: seq<Pair>, b: nat, c: nat)
    requires Below(wish, s, b) && b <= c
    ensures Below(wish, s, c)
  {
  }

  // ----- every order -----

  /** All that is required of a function before its variables are sorted. */
  ghost predicate GoodFunction(ins: seq<Ins>, locals: seq<Local>, regsNum: nat) {
    Emittable(ins) && GoodLocals(ins, locals, regsNum) && Lasting(locals, regsNum)
  }

  lemma OrderIsGood(ins: seq<Ins>, locals: seq<Local>, regsNum: nat, order: seq<Pair>)
    requires GoodFunction(ins, locals, regsNum) && GoodOrder(ins, locals, regsNum, order, true)
    ensures Good(Body(ins, locals, regsNum, order)) && InRange(ins, locals, order)
  {
    OrderInRange(ins, locals, regsNum, order, true);
  }

  /** Whatever order ties come in, every variable has its whole range. */
  ghost predicate Safe(ins: seq<Ins>, locals: seq<Local>, regsNum: nat, addr: nat) {
    forall order :: GoodOrder(ins, locals, regsNum, order, true) ==>
      Good(Body(ins, locals, regsNum, order)) && AllRight(Body(ins, locals, regsNum, order), addr)
  }

  // ----- which ends a variable can get -----

  /** Another variable of x's register starts at or after e, and none of the register ends between:
      then it can be the next to start, with e the last end before it. */
  predicate Closes(locals: seq<Local>, regsNum: nat, x: nat, y: nat, e: nat)
    requires x < |locals| && y < |locals|
  {
    && y != x && SameRegister(locals, regsNum, x, y) && e <= locals[y].start
    && forall w :: 0 <= w < |locals| && SameRegister(locals, regsNum, x, w) ==> !(e < EndOf(locals[w]) < locals[y].start)
  }

  /** Nothing need end between the start of x and the next start in its register. */
  predicate MayStayOpen(locals: seq<Local>, regsNum: nat, x: nat)
    requires x < |locals|
  {
    exists y :: 0 <= y < |locals| && Closes(locals, regsNum, x, y, locals[x].start)
  }

  /** The end of z can be the last one before the next start in the register. */
  predicate MayEndAt(locals: seq<Local>, regsNum: nat, x: nat, z: nat)
    requires x < |locals| && z < |locals|
  {
    var e := EndOf(locals[z]);
    && SameRegister(locals, regsNum, x, z) && locals[x].start <= e
    && (forall y :: 0 <= y < |locals| && SameRegister(locals, regsNum, x, y) ==> !(locals[x].start < locals[y].start < e))
    && (|| (exists y :: 0 <= y < |locals| && Closes(locals, regsNum, x, y, e))
        || (forall w :: 0 <= w < |locals| && SameRegister(locals, regsNum, x, w) ==> EndOf(locals[w]) <= e))
  }

  /** The end a variable has in the table, if the last one seen is at offset pc: zero stands for none. */
  function TableEnd(pc: nat, addr: nat): nat { if pc == 0 then addr else pc }

  /** Every end that x can get lies at the offset of its own. */
  predicate Clear(ins: seq<Ins>, locals: seq<Local>, regsNum: nat, addr: nat, x: nat)
    requires GoodLocals(ins, locals, regsNum) && x < |locals| && !IsParameter(regsNum, locals[x])
  {
    assert LocalFits(locals[x], regsNum, |ins|);
    var own := Pc(ins, EndOf(locals[x]));
    && (MayStayOpen(locals, regsNum, x) ==> addr == own)
    && forall z :: 0 <= z < |locals| && MayEndAt(locals, regsNum, x, z) ==>
         assert LocalFits(locals[z], regsNum, |ins|);
         TableEnd(Pc(ins, EndOf(locals[z])), addr) == own
  }

  predicate AllClear(ins: seq<Ins>, locals: seq<Local>, regsNum: nat, addr: nat)
    requires GoodLocals(ins, locals, regsNum)
  {
    forall x :: 0 <= x < |locals| && !IsParameter(regsNum, locals[x]) ==> Clear(ins, locals, regsNum, addr, x)
  }

  // ----- in any order a variable gets one of these -----

  /** The first start in the register after entry p. */
  lemma FirstStart(f: Body, p: nat, k: nat) returns (j: nat)
    requires InRange(f.ins, f.locals, f.order) && p < k < |f.order| && !Open(f, p, k)
    ensures p < j < k && IsStart(f, j) && SameReg(f, p, j) && Open(f, p, j)
  {
    j := p + 1;
    while !(IsStart(f, j) && SameReg(f, p, j))
      invariant p < j < k && Open(f, p, j)
      invariant !Open(f, p, k)
      decreases k - j
    {
      if j + 1 == k {
        assert Open(f, p, k);
      }
      j := j + 1;
    }
  }

  /** If entry k would end p's variable but does not, the first start before it closes. */
  lemma ClosedBefore(f: Body, p: nat, r: int, k: nat) returns (j: nat)
    requires Good(f) && InRange(f.ins, f.locals, f.order) && p < k < |f.order| && IsStart(f, p) && SameReg(f, p, k) && !IsStart(f, k)
    requires r == LastEnd(f, p, |f.order|) && r < k
    ensures p < j < k && r < j && IsStart(f, j)
    ensures Closes(f.locals, f.regsNum, f.order[p].variable, f.order[j].variable, if r < 0 then f.order[p].insnOrder else f.order[r].insnOrder)
  {
    hide Good;
    assert !EndsIn(f, p, k);
    j := FirstStart(f, p, k);
    EntryFacts(f, p);
    EntryFacts(f, j);
    var x, y := f.order[p].variable, f.order[j].variable;
    var e := if r < 0 then f.order[p].insnOrder else f.order[r].insnOrder;
    OrderSorted(f, if r < 0 then p else r, j);
    if x == y {
      OrderUnique(f, p, j);
    }
    forall w | 0 <= w < |f.locals| && SameRegister(f.locals, f.regsNum, x, w)
      ensures !(e < EndOf(f.locals[w]) < f.locals[y].start)
    {
      NotBetween(f, p, r, j, w);
    }
  }

  lemma EndsBetween(f: Body, p: nat, j: nat, k: nat)
    requires InRange(f.ins, f.locals, f.order) && p < k < j < |f.order| && Open(f, p, j) && !IsStart(f, k) && SameReg(f, p, k)
    ensures EndsIn(f, p, k)
  {
  }

  lemma NotBetween(f: Body, p: nat, r: int, j: nat, w: nat)
    requires Good(f) && InRange(f.ins, f.locals, f.order) && p < j < |f.order| && IsStart(f, p) && IsStart(f, j) && Open(f, p, j)
    requires r == LastEnd(f, p, |f.order|) && r < j
    requires w < |f.locals| && SameRegister(f.locals, f.regsNum, f.order[p].variable, w)
    ensures !((if r < 0 then f.order[p].insnOrder else f.order[r].insnOrder) < EndOf(f.locals[w]) < f.order[j].insnOrder)
  {
    hide Good;
    var e := if r < 0 then f.order[p].insnOrder else f.order[r].insnOrder;
    if e < EndOf(f.locals[w]) < f.order[j].insnOrder {
      var s, k := Places(f, w);
      if k < j {
        if k <= p { OrderSorted(f, k, p); }
        if r >= 0 && k <= r { OrderSorted(f, k, r); }
        if r >= 0 { OrderSorted(f, p, r); }
        EndsBetween(f, p, j, k);
      } else {
        OrderSorted(f, j, k);
      }
    }
  }

  /** Nothing ended x: it may stay open. */
  lemma OpenMeansMay(f: Body, p: nat)
    requires Good(f) && InRange(f.ins, f.locals, f.order) && p < |f.order| && IsStart(f, p) && LastEnd(f, p, |f.order|) < 0
    ensures MayStayOpen(f.locals, f.regsNum, f.order[p].variable)
  {
    hide Good, Closes;
    EntryFacts(f, p);
    var s, e := OtherEnd(f, p);
    var j := ClosedBefore(f, p, LastEnd(f, p, |f.order|), e);
    EntryFacts(f, j);
  }

  /** An end was the last one: it may be. */
  lemma EndMeansMay(f: Body, p: nat, r: nat)
    requires Good(f) && InRange(f.ins, f.locals, f.order) && p < |f.order| && IsStart(f, p) && LastEnd(f, p, |f.order|) == r
    ensures r < |f.order| && MayEndAt(f.locals, f.regsNum, f.order[p].variable, f.order[r].variable)
    ensures f.order[r].insnOrder == EndOf(VariableAt(f, r))
  {
    hide Good, Closes;
    EntryFacts(f, p);
    EntryFacts(f, r);
    OrderSorted(f, p, r);
    var x, z := f.order[p].variable, f.order[r].variable;
    var e := EndOf(f.locals[z]);
    forall y | 0 <= y < |f.locals| && SameRegister(f.locals, f.regsNum, x, y)
      ensures !(f.locals[x].start < f.locals[y].start < e)
    {
      NoStartBetween(f, p, r, y);
    }
    if w :| 0 <= w < |f.locals| && SameRegister(f.locals, f.regsNum, x, w) && EndOf(f.locals[w]) > e {
      var s, k := Places(f, w);
      if k <= r {
        OrderSorted(f, k, r);
      }
      var j := ClosedBefore(f, p, r, k);
      EntryFacts(f, j);
    }
  }

  lemma NoStartBetween(f: Body, p: nat, r: nat, y: nat)
    requires Good(f) && InRange(f.ins, f.locals, f.order) && p < r < |f.order| && IsStart(f, p) && Open(f, p, r)
    requires y < |f.locals| && SameRegister(f.locals, f.regsNum, f.order[p].variable, y)
    ensures !(f.order[p].insnOrder < f.locals[y].start < f.order[r].insnOrder)
  {
    hide Good;
    if f.order[p].insnOrder < f.locals[y].start < f.order[r].insnOrder {
      var j, k := Places(f, y);
      if j <= p {
        OrderSorted(f, j, p);
      } else if r <= j {
        OrderSorted(f, r, j);
      }
    }
  }

  /** So what is clear is right in every order. */
  lemma ClearIsRight(f: Body, p: nat, addr: nat)
    requires Good(f) && InRange(f.ins, f.locals, f.order) && GoodLocals(f.ins, f.locals, f.regsNum) && p < |f.order| && IsStart(f, p)
    requires AllClear(f.ins, f.locals, f.regsNum, addr)
    ensures RightAt(f, p, addr)
  {
    hide Good, Pc, MayStayOpen, MayEndAt, GoodLocals;
    EntryFacts(f, p);
    var x, r := f.order[p].variable, LastEnd(f, p, |f.order|);
    assert Clear(f.ins, f.locals, f.regsNum, addr, x);
    if r < 0 {
      OpenMeansMay(f, p);
    } else {
      EndMeansMay(f, p, r);
      assert MayEndAt(f.locals, f.regsNum, x, f.order[r].variable);
    }
  }

  // ----- and each of these in some order -----

  lemma WishedFor(ins: seq<Ins>, locals: seq<Local>, regsNum: nat, wish: Wish) returns (f: Body)
    requires GoodFunction(ins, locals, regsNum)
    ensures f.ins == ins && f.locals == locals && f.regsNum == regsNum && Good(f) && InRange(f.ins, f.locals, f.order)
    ensures GoodOrder(ins, locals, regsNum, f.order, true) && ByKey(wish, f.order)
  {
    hide Arranged, Collect, Good, GoodLocals;
    var order := Arranged(wish, Collect(locals, regsNum));
    ArrangedSorts(wish, Collect(locals, regsNum));
    KeySorts(wish, order);
    OrderIsGood(ins, locals, regsNum, order);
    f := Body(ins, locals, regsNum, order);
  }

  lemma KeySorts(wish: Wish, order: seq<Pair>)
    requires ByKey(wish, order)
    ensures SortedPairs(order)
  {
    forall i, j | 0 <= i < j < |order|
      ensures order[i].insnOrder <= order[j].insnOrder
    {
      assert wish.Key(order[i]) <= wish.Key(order[j]);
    }
  }

  /** A pair with a lower key is listed before. */
  lemma ListedBefore(f: Body, wish: Wish, a: nat, b: nat)
    requires ByKey(wish, f.order)
    requires a < |f.order| && b < |f.order| && wish.Key(f.order[a]) < wish.Key(f.order[b])
    ensures a < b
  {
  }

  /** The start of y comes after that of x and before every end of the register beyond e. */
  lemma Shuts(f: Body, wish: Wish, p: nat, x: nat, y: nat, e: nat, k: nat)
    requires Good(f) && InRange(f.ins, f.locals, f.order)
    requires ByKey(wish, f.order)
    requires x < |f.locals| && y < |f.locals| && Closes(f.locals, f.regsNum, x, y, e) && f.locals[x].start <= e
    requires wish.begin == Pair(f.locals[x].start, x) && wish.next == Pair(f.locals[y].start, y) && wish.end.insnOrder <= e
    requires wish.end.variable < |f.locals| && wish.end != wish.next
    requires p < |f.order| && f.order[p] == wish.begin
    requires k < |f.order| && e < f.order[k].insnOrder && !IsStart(f, k) && SameReg(f, p, k)
    ensures !Open(f, p, k)
  {
    hide Good;
    EntryFacts(f, k);
    var w := f.order[k].variable;
    EntryFacts(f, p);
    assert SameRegister(f.locals, f.regsNum, x, w);
    assert f.locals[y].start <= EndOf(f.locals[w]);
    var q, q' := Places(f, y);
    ListedBefore(f, wish, p, q);
    ListedBefore(f, wish, q, k);
  }

  /** A variable that may stay open does so in some order. */
  lemma StaysOpen(ins: seq<Ins>, locals: seq<Local>, regsNum: nat, x: nat, y: nat) returns (f: Body, p: nat)
    requires GoodFunction(ins, locals, regsNum) && x < |locals| && y < |locals| && Closes(locals, regsNum, x, y, locals[x].start)
    ensures f.ins == ins && f.locals == locals && f.regsNum == regsNum && Good(f) && InRange(f.ins, f.locals, f.order)
    ensures GoodOrder(ins, locals, regsNum, f.order, true)
    ensures p < |f.order| && f.order[p] == Pair(locals[x].start, x) && LastEnd(f, p, |f.order|) < 0
  {
    hide Good, GoodOrder, GoodFunction;
    var begin := Pair(locals[x].start, x);
    var wish := Wish(begin, begin, Pair(locals[y].start, y));
    f := WishedFor(ins, locals, regsNum, wish);
    var e;
    p, e := Places(f, x);
    var r := LastEnd(f, p, |f.order|);
    if r >= 0 {
      OrderSorted(f, p, r);
      if f.order[r].insnOrder == locals[x].start {
        ListedBefore(f, wish, r, p);
      } else {
        Shuts(f, wish, p, x, y, locals[x].start, r);
      }
      assert false;
    }
  }

  /** What is to come next if the last end is at e: a start that closes, or nothing at all. */
  ghost predicate NextFor(locals: seq<Local>, regsNum: nat, x: nat, e: nat, next: Pair)
    requires x < |locals|
  {
    || (exists y :: 0 <= y < |locals| && Closes(locals, regsNum, x, y, e) && next == Pair(locals[y].start, y))
    || (next == Pair(locals[x].start, x) && forall w :: 0 <= w < |locals| && SameRegister(locals, regsNum, x, w) ==> EndOf(locals[w]) <= e)
  }

  lemma SomeNext(locals: seq<Local>, regsNum: nat, x: nat, z: nat) returns (next: Pair)
    requires x < |locals| && z < |locals| && MayEndAt(locals, regsNum, x, z)
    ensures NextFor(locals, regsNum, x, EndOf(locals[z]), next)
  {
    if y :| 0 <= y < |locals| && Closes(locals, regsNum, x, y, EndOf(locals[z])) {
      next := Pair(locals[y].start, y);
    } else {
      next := Pair(locals[x].start, x);
    }
  }

  /** With that wish every other start in the register is listed before that of x or after the end
      of z. */
  lemma StartsOutside(f: Body, wish: Wish, p: nat, k: nat, x: nat, z: nat, j: nat)
    requires Good(f) && InRange(f.ins, f.locals, f.order) && x < |f.locals| && z < |f.locals| && MayEndAt(f.locals, f.regsNum, x, z)
    requires ByKey(wish, f.order)
    requires wish.begin == Pair(f.locals[x].start, x) && wish.end == Pair(EndOf(f.locals[z]), z)
    requires NextFor(f.locals, f.regsNum, x, EndOf(f.locals[z]), wish.next)
    requires p < |f.order| && k < |f.order| && f.order[p] == wish.begin && f.order[k] == wish.end && !IsStart(f, k)
    requires j < |f.order| && j != p && IsStart(f, j) && SameReg(f, p, j)
    ensures j < p || k < j
  {
    hide Good;
    EntryFacts(f, p);
    EntryFacts(f, j);
    var y := f.order[j].variable;
    assert SameRegister(f.locals, f.regsNum, x, y);
    if x == y {
      OrderUnique(f, p, j);
    }
    if f.locals[y].start < f.locals[x].start || (f.locals[y].start == f.locals[x].start && f.order[j] != wish.next) {
      ListedBefore(f, wish, j, p);
    } else {
      ListedBefore(f, wish, k, j);
    }
  }

  /** So nothing of the register starts between the two. */
  lemma OpensUntil(f: Body, wish: Wish, p: nat, k: nat, x: nat, z: nat)
    requires Good(f) && InRange(f.ins, f.locals, f.order) && x < |f.locals| && z < |f.locals| && MayEndAt(f.locals, f.regsNum, x, z)
    requires ByKey(wish, f.order)
    requires wish.begin == Pair(f.locals[x].start, x) && wish.end == Pair(EndOf(f.locals[z]), z)
    requires NextFor(f.locals, f.regsNum, x, EndOf(f.locals[z]), wish.next)
    requires p < k < |f.order| && f.order[p] == wish.begin && f.order[k] == wish.end && !IsStart(f, k)
    ensures Open(f, p, k)
  {
    hide Good, Closes, MayEndAt, NextFor, ByKey;
    forall j | p < j < k && IsStart(f, j)
      ensures !SameReg(f, p, j)
    {
      if SameReg(f, p, j) {
        StartsOutside(f, wish, p, k, x, z, j);
      }
    }
  }

  /** And the last end is no later than that of z. */
  lemma NoneBeyond(f: Body, wish: Wish, p: nat, r: nat, x: nat, z: nat)
    requires Good(f) && InRange(f.ins, f.locals, f.order) && x < |f.locals| && z < |f.locals| && MayEndAt(f.locals, f.regsNum, x, z)
    requires ByKey(wish, f.order)
    requires wish.begin == Pair(f.locals[x].start, x) && wish.end == Pair(EndOf(f.locals[z]), z)
    requires NextFor(f.locals, f.regsNum, x, EndOf(f.locals[z]), wish.next)
    requires p < |f.order| && r < |f.order| && f.order[p] == wish.begin && EndsIn(f, p, r) && 0 < f.locals[z].length
    ensures f.order[r].insnOrder <= EndOf(f.locals[z])
  {
    hide Good, Closes;
    var e := EndOf(f.locals[z]);
    if f.order[r].insnOrder > e {
      EntryFacts(f, p);
      EntryFacts(f, r);
      assert SameRegister(f.locals, f.regsNum, x, f.order[r].variable);
      var y :| 0 <= y < |f.locals| && Closes(f.locals, f.regsNum, x, y, e) && wish.next == Pair(f.locals[y].start, y);
      Shuts(f, wish, p, x, y, e, r);
    }
  }

  /** An end that may be the last one is so in some order. */
  lemma EndsThere(ins: seq<Ins>, locals: seq<Local>, regsNum: nat, x: nat, z: nat) returns (f: Body, p: nat)
    requires GoodFunction(ins, locals, regsNum) && x < |locals| && z < |locals| && MayEndAt(locals, regsNum, x, z)
    ensures f.ins == ins && f.locals == locals && f.regsNum == regsNum && Good(f) && InRange(f.ins, f.locals, f.order)
    ensures GoodOrder(ins, locals, regsNum, f.order, true)
    ensures p < |f.order| && f.order[p] == Pair(locals[x].start, x)
    ensures var r := LastEnd(f, p, |f.order|); r >= 0 && f.order[r].insnOrder == EndOf(locals[z])
  {
    hide Good, GoodOrder, GoodFunction, Closes, NextFor;
    var next := SomeNext(locals, regsNum, x, z);
    var wish := Wish(Pair(locals[x].start, x), Pair(EndOf(locals[z]), z), next);
    f := WishedFor(ins, locals, regsNum, wish);
    var b, s, k;
    p, b := Places(f, x);
    s, k := Places(f, z);
    ListedBefore(f, wish, p, k);
    OpensUntil(f, wish, p, k, x, z);
    EntryFacts(f, k);
    assert EndsIn(f, p, k);
    var r := LastEnd(f, p, |f.order|);
    OrderSorted(f, k, r);
    NoneBeyond(f, wish, p, r, x, z);
  }

  /** So what is not clear goes wrong in some order. */
  lemma SafeIsClear(ins: seq<Ins>, locals: seq<Local>, regsNum: nat, addr: nat, x: nat)
    requires GoodFunction(ins, locals, regsNum) && Safe(ins, locals, regsNum, addr)
    requires GoodLocals(ins, locals, regsNum) && x < |locals| && !IsParameter(regsNum, locals[x])
    ensures Clear(ins, locals, regsNum, addr, x)
  {
    hide GoodFunction, GoodOrder, Good, MayEndAt, Closes, Pc, GoodLocals;
    if MayStayOpen(locals, regsNum, x) {
      var y :| 0 <= y < |locals| && Closes(locals, regsNum, x, y, locals[x].start);
      var f, p := StaysOpen(ins, locals, regsNum, x, y);
      assert AllRight(Body(ins, locals, regsNum, f.order), addr);
      assert RightAt(f, p, addr);
    }
    forall z | 0 <= z < |locals| && MayEndAt(locals, regsNum, x, z)
      ensures EndOf(locals[z]) <= |ins| && EndOf(locals[x]) <= |ins| && TableEnd(Pc(ins, EndOf(locals[z])), addr) == Pc(ins, EndOf(locals[x]))
    {
      var f, p := EndsThere(ins, locals, regsNum, x, z);
      assert AllRight(Body(ins, locals, regsNum, f.order), addr);
      assert RightAt(f, p, addr);
      EntryFacts(f, LastEnd(f, p, |f.order|));
    }
  }

  /** Every order that std::sort may give makes a right table if and only if each variable is clear:
      overlapping variables and INVALID instructions are no exception. */
  lemma SafeIff(ins: seq<Ins>, locals: seq<Local>, regsNum: nat, addr: nat)
    requires GoodFunction(ins, locals, regsNum)
    ensures GoodLocals(ins, locals, regsNum) && (Safe(ins, locals, regsNum, addr) <==> AllClear(ins, locals, regsNum, addr))
  {
    hide GoodOrder, Good, Clear, RightAt;
    if Safe(ins, locals, regsNum, addr) {
      forall x | 0 <= x < |locals| && !IsParameter(regsNum, locals[x])
        ensures Clear(ins, locals, regsNum, addr, x)
      {
        SafeIsClear(ins, locals, regsNum, addr, x);
      }
    }
    if AllClear(ins, locals, regsNum, addr) {
      forall order | GoodOrder(ins, locals, regsNum, order, true)
        ensures Good(Body(ins, locals, regsNum, order)) && AllRight(Body(ins, locals, regsNum, order), addr)
      {
        ClearIsAllRight(ins, locals, regsNum, addr, order);
      }
    }
  }

  lemma ClearIsAllRight(ins: seq<Ins>, locals: seq<Local>, regsNum: nat, addr: nat, order: seq<Pair>)
    requires GoodFunction(ins, locals, regsNum) && GoodLocals(ins, locals, regsNum) && AllClear(ins, locals, regsNum, addr)
    requires GoodOrder(ins, locals, regsNum, order, true)
    ensures Good(Body(ins, locals, regsNum, order)) && AllRight(Body(ins, locals, regsNum, order), addr)
  {
    hide Good, AllClear, RightAt, GoodLocals, GoodFunction, GoodOrder;
    OrderIsGood(ins, locals, regsNum, order);
    var f := Body(ins, locals, regsNum, order);
    forall p | 0 <= p < |f.order| && IsStart(f, p)
      ensures RightAt(f, p, addr)
    {
      ClearIsRight(f, p, addr);
    }
  }

  /** Whatever order ties come in, the table that the program gives is right. */
  ghost predicate AlwaysRight(ins: seq<Ins>, locals: seq<Local>, regsNum: nat)
    requires GoodFunction(ins, locals, regsNum)
  {
    forall order :: GoodOrder(ins, locals, regsNum, order, true) ==> RightFor(ins, locals, regsNum, order)
  }

  ghost predicate RightFor(ins: seq<Ins>, locals: seq<Local>, regsNum: nat, order: seq<Pair>)
    requires GoodFunction(ins, locals, regsNum) && GoodOrder(ins, locals, regsNum, order, true)
  {
    OrderIsGood(ins, locals, regsNum, order);
    var f := Body(ins, locals, regsNum, order);
    Processed(Played(f, |order|), EndAddress(ins, locals, regsNum)) == Whole(f, |order|)
  }

  /** The exact condition on the variables. The program's own end does not depend on the order. */
  lemma AlwaysRightIff(ins: seq<Ins>, locals: seq<Local>, regsNum: nat)
    requires GoodFunction(ins, locals, regsNum)
    ensures GoodLocals(ins, locals, regsNum)
    ensures AlwaysRight(ins, locals, regsNum) <==> AllClear(ins, locals, regsNum, EndAddress(ins, locals, regsNum))
  {
    hide GoodOrder, Good, AllRight, AllClear, Played, Processed, Whole, EndAddress;
    var addr := EndAddress(ins, locals, regsNum);
    SafeIff(ins, locals, regsNum, addr);
    forall order | GoodOrder(ins, locals, regsNum, order, true)
      ensures Good(Body(ins, locals, regsNum, order))
      ensures RightFor(ins, locals, regsNum, order) <==> AllRight(Body(ins, locals, regsNum, order), addr)
    {
      OrderIsGood(ins, locals, regsNum, order);
      TableRightIff(Body(ins, locals, regsNum, order), addr);
    }
  }

  // ----- variables that do not overlap -----

  lemma {:induction false} EndsByLatest(locals: seq<Local>, regsNum: nat, x: nat)
    requires x < |locals| && !IsParameter(regsNum, locals[x])
    ensures EndOf(locals[x]) <= LatestEnd(locals, regsNum)
  {
    if x < |locals| - 1 {
      EndsByLatest(locals[..|locals| - 1], regsNum, x);
    }
  }

  lemma NoTouchIsClear(ins: seq<Ins>, locals: seq<Local>, regsNum: nat, addr: nat, x: nat)
    requires GoodFunction(ins, locals, regsNum) && GoodLocals(ins, locals, regsNum) && AllValid(ins) && NoTouch(locals, regsNum)
    requires x < |locals| && !IsParameter(regsNum, locals[x])
    ensures Clear(ins, locals, regsNum, addr, x)
  {
    hide Pc;
    assert LocalFits(locals[x], regsNum, |ins|);
    assert SameRegister(locals, regsNum, x, x);
    assert !MayStayOpen(locals, regsNum, x);
    forall z | 0 <= z < |locals| && MayEndAt(locals, regsNum, x, z)
      ensures z == x
    {
    }
    PcPositive(ins, EndOf(locals[x]));
  }

  lemma PcPositive(ins: seq<Ins>, i: nat)
    requires Emittable(ins) && AllValid(ins) && 0 < i <= |ins|
    ensures 0 < Pc(ins, i)
  {
    assert GoodIns(ins[0]);
    PcMonotone(ins, 0, i);
  }

  /** A variable that another one touches may stay open. */
  lemma TouchingIsNotClear(ins: seq<Ins>, locals: seq<Local>, regsNum: nat, x: nat, y: nat)
    requires GoodFunction(ins, locals, regsNum) && GoodLocals(ins, locals, regsNum) && AllValid(ins) && NoOverlap(locals, regsNum)
    requires x < |locals| && y < |locals| && x != y && SameRegister(locals, regsNum, x, y) && EndOf(locals[x]) == locals[y].start
    ensures !Clear(ins, locals, regsNum, EndAddress(ins, locals, regsNum), x)
  {
    hide Pc, LatestEnd, LastChange;
    assert LocalFits(locals[x], regsNum, |ins|) && LocalFits(locals[y], regsNum, |ins|);
    assert Closes(locals, regsNum, x, y, locals[x].start);
    assert GoodIns(ins[locals[y].start]);
    EndsByLatest(locals, regsNum, y);
    LatestFits(ins, locals, regsNum);
    PcMonotone(ins, locals[y].start, LatestEnd(locals, regsNum));
  }

  /** For variables that do not overlap, and without INVALID instructions: if and only if no two
      variables of one register touch. */
  lemma SafeIffNoTouch(ins: seq<Ins>, locals: seq<Local>, regsNum: nat)
    requires GoodFunction(ins, locals, regsNum) && AllValid(ins) && NoOverlap(locals, regsNum)
    ensures AlwaysRight(ins, locals, regsNum) <==> NoTouch(locals, regsNum)
  {
    hide AlwaysRight, Clear, AllValid, EndAddress;
    AlwaysRightIff(ins, locals, regsNum);
    if NoTouch(locals, regsNum) {
      forall x | 0 <= x < |locals| && !IsParameter(regsNum, locals[x])
        ensures Clear(ins, locals, regsNum, EndAddress(ins, locals, regsNum), x)
      {
        NoTouchIsClear(ins, locals, regsNum, EndAddress(ins, locals, regsNum), x);
      }
    } else {
      var x, y :| 0 <= x < |locals| && 0 <= y < |locals| && x != y && SameRegister(locals, regsNum, x, y) && !Separate(locals[x], locals[y]);
      assert Apart(locals[x], locals[y]);
      if EndOf(locals[x]) == locals[y].start {
        TouchingIsNotClear(ins, locals, regsNum, x, y);
      } else {
        TouchingIsNotClear(ins, locals, regsNum, y, x);
      }
    }
  }

  // ----- examples -----

  const EXAMPLE_INS := [Ins(true, 1, false, 1, 0), Ins(true, 1, false, 1, 0)]
  const EXAMPLE_LOCALS := [Local("a", 0, 0, 1), Local("b", 0, 1, 1)]

  /** Two variables of one register that touch: some order loses the end of the first. */
  lemma TouchingExampleFails()
    ensures GoodFunction(EXAMPLE_INS, EXAMPLE_LOCALS, 1) && NoOverlap(EXAMPLE_LOCALS, 1) && !AlwaysRight(EXAMPLE_INS, EXAMPLE_LOCALS, 1)
  {
    hide AlwaysRight;
    assert SameRegister(EXAMPLE_LOCALS, 1, 0, 1) && !Separate(EXAMPLE_LOCALS[0], EXAMPLE_LOCALS[1]);
    SafeIffNoTouch(EXAMPLE_INS, EXAMPLE_LOCALS, 1);
  }

  const LABEL_INS := [Ins(false, 1, false, 1, 0), Ins(true, 1, false, 1, 0), Ins(true, 1, false, 2, 0)]
  const LABEL_LOCALS := [Local("a", 0, 0, 1)]

  lemma LabelExamplePcs()
    ensures GoodFunction(LABEL_INS, LABEL_LOCALS, 1) && Pc(LABEL_INS, 1) == 0 && EndAddress(LABEL_INS, LABEL_LOCALS, 1) == 1
  {
    assert Pc(LABEL_INS, 0) == 0 && Pc(LABEL_INS, 1) == 0 && Pc(LABEL_INS, 2) == 1;
    assert PrevLine(LABEL_INS, 2) == 1 && Changes(LABEL_INS, 2);
    assert LABEL_LOCALS[..0] == [] && LatestEnd(LABEL_LOCALS, 1) == 1;
  }

  /** One variable that ends before the first code: its end, offset 0, is taken for none. */
  lemma LabelExampleFails()
    ensures GoodFunction(LABEL_INS, LABEL_LOCALS, 1) && NoTouch(LABEL_LOCALS, 1) && !AlwaysRight(LABEL_INS, LABEL_LOCALS, 1)
  {
    hide AlwaysRight, EndAddress, Pc;
    LabelExamplePcs();
    AlwaysRightIff(LABEL_INS, LABEL_LOCALS, 1);
    assert MayEndAt(LABEL_LOCALS, 1, 0, 0);
    assert !Clear(LABEL_INS, LABEL_LOCALS, 1, EndAddress(LABEL_INS, LABEL_LOCALS, 1), 0);
  }

  // ----- variables that overlap -----

  /** A variable during which another of its register starts has its whole range if and only if
      nothing of the register ends between the two starts, and it ends with the program. */
  lemma OverlappedIsRightIff(f: Body, p: nat, q: nat, addr: nat)
    requires Good(f) && AllValid(f.ins) && p < q < |f.order| && InRange(f.ins, f.locals, f.order) && IsStart(f, p) && IsStart(f, q) && SameReg(f, p, q)
    requires f.order[q].insnOrder < EndOf(VariableAt(f, p))
    ensures RightAt(f, p, addr) <==> WholeVar(f, p).end == addr && LastEnd(f, p, |f.order|) < 0
  {
    hide Good, Pc;
    EntryFacts(f, p);
    var r := LastEnd(f, p, |f.order|);
    if r >= 0 {
      assert r < q;
      OrderSorted(f, r, q);
      EntryFacts(f, r);
      PcStrict(f.ins, f.order[r].insnOrder, EndOf(VariableAt(f, p)), f);
      PcStrict(f.ins, 0, f.order[r].insnOrder, f);
    }
  }
}

/** Giving opcodes to instructions and prefixes that have none: OpcodeAssigner,
    PrefixOpcodeAssigner and their use in isa/isapi.rb. */
module OpcodeAssignment {
  import opened Options

  const OPCODES := 256

  /** An instruction or a prefix as it is declared; one with an opcode is public. */
  datatype Item = Item(name: string, prefix: Option<string>, opcode: Option<nat>)

  /** With its opcode. */
  datatype Insn = Insn(name: string, prefix: Option<string>, opcode: nat, isPublic: bool)

  // ----- choosing -----

  function LowestFree(occupied: set<nat>, x: nat): (r: Option<nat>)
    ensures r.Some? ==> x <= r.value < OPCODES && r.value !in occupied && forall y :: x <= y < r.value ==> y in occupied
    ensures r.None? ==> forall y :: x <= y < OPCODES ==> y in occupied
    decreases OPCODES - x
  {
    if x >= OPCODES then None else if x !in occupied then Some(x) else LowestFree(occupied, x + 1)
  }

  /** The highest free opcode below x. */
  function HighestFree(occupied: set<nat>, x: nat): (r: Option<nat>)
    ensures r.Some? ==> r.value < x && r.value !in occupied && forall y :: r.value < y < x ==> y in occupied
    ensures r.None? ==> forall y :: 0 <= y < x ==> y in occupied
  {
    if x == 0 then None else if x - 1 !in occupied then Some(x - 1) else HighestFree(occupied, x - 1)
  }

  function Choose(highest: bool, occupied: set<nat>): Option<nat> {
    if highest then HighestFree(occupied, OPCODES) else LowestFree(occupied, 0)
  }

  // ----- what is assigned -----

  /** The opcodes that the instructions of a prefix have. */
  function OpcodesOf(insns: seq<Insn>, prefix: Option<string>): set<nat> {
    set i | 0 <= i < |insns| && insns[i].prefix == prefix :: insns[i].opcode
  }

  /** The opcode of an item that comes after others: its own, or one that is free. */
  function OpcodeFor(highest: bool, done: seq<Insn>, item: Item): Option<nat> {
    if item.opcode.Some? then item.opcode else Choose(highest, OpcodesOf(done, item.prefix))
  }

  /** done is what becomes of the first items. */
  ghost predicate Assigned(highest: bool, items: seq<Item>, done: seq<Insn>) {
    |done| <= |items| && forall k :: 0 <= k < |done| ==> AssignedAt(highest, items, done, k)
  }

  ghost predicate AssignedAt(highest: bool, items: seq<Item>, done: seq<Insn>, k: nat)
    requires k < |done| <= |items|
  {
    && done[k].name == items[k].name && done[k].prefix == items[k].prefix && done[k].isPublic == items[k].opcode.Some?
    && OpcodeFor(highest, done[..k], items[k]) == Some(done[k].opcode)
  }

  lemma AssignedMore(highest: bool, items: seq<Item>, done: seq<Insn>, insn: Insn)
    requires Assigned(highest, items, done) && |done| < |items|
    requires insn.name == items[|done|].name && insn.prefix == items[|done|].prefix && insn.isPublic == items[|done|].opcode.Some?
    requires OpcodeFor(highest, done, items[|done|]) == Some(insn.opcode)
    ensures Assigned(highest, items, done + [insn])
  {
    hide OpcodeFor;
    var done' := done + [insn];
    forall k | 0 <= k < |done'|
      ensures AssignedAt(highest, items, done', k)
    {
      if k < |done| {
        assert AssignedAt(highest, items, done, k);
        assert done'[..k] == done[..k];
      } else {
        assert done'[..k] == done;
      }
    }
  }

  lemma OpcodesMore(done: seq<Insn>, insn: Insn, p: Option<string>)
    ensures OpcodesOf(done + [insn], p) == OpcodesOf(done, p) + (if insn.prefix == p then {insn.opcode} else {})
  {
    var done' := done + [insn];
    assert forall i :: 0 <= i < |done| ==> done'[i] == done[i];
    assert done'[|done|] == insn;
  }

  class OpcodeAssigner {
    /** Whether this is a PrefixOpcodeAssigner. */
    const highest: bool
    var table: map<Option<string>, set<nat>>

    constructor (highest: bool)
      ensures this.highest == highest && Holds([])
    {
      this.highest, table := highest, map[];
    }

    function Occupied(p: Option<string>): set<nat>
      reads this
    {
      if p in table then table[p] else {}
    }

    /** The table holds the opcodes of what was consumed. */
    ghost predicate Holds(done: seq<Insn>)
      reads this
    {
      forall p :: Occupied(p) == OpcodesOf(done, p)
    }

    method Consume(insn: Insn, ghost done: seq<Insn>)
      requires Holds(done)
      modifies this
      ensures Holds(done + [insn])
    {
      forall p
        ensures OpcodesOf(done + [insn], p) == OpcodesOf(done, p) + (if insn.prefix == p then {insn.opcode} else {})
      {
        OpcodesMore(done, insn, p);
      }
      table := table[insn.prefix := Occupied(insn.prefix) + {insn.opcode}];
    }

    /** yield_opcode: nothing if all opcodes of the prefix are taken. */
    method YieldOpcode(item: Item, ghost done: seq<Insn>) returns (opcode: Option<nat>)
      requires Holds(done)
      ensures opcode == OpcodeFor(highest, done, item)
    {
      if item.opcode.Some? {
        return item.opcode;
      }
      return Choose(highest, Occupied(item.prefix));
    }
  }

  /** Panda.instructions and Panda.prefixes before they are sorted. The items with an opcode come
      first. Fails, as consume does, on an item for which no opcode is left. */
  method Initialize(highest: bool, items: seq<Item>) returns (ok: bool, done: seq<Insn>)
    ensures Assigned(highest, items, done)
    ensures ok ==> |done| == |items|
    ensures !ok ==> |done| < |items| && OpcodeFor(highest, done, items[|done|]).None?
  {
    hide Assigned, OpcodesOf;
    var opcodes := new OpcodeAssigner(highest);
    ok, done := true, [];
    NothingAssigned(highest, items);
    for k := 0 to |items|
      invariant |done| == k && Assigned(highest, items, done) && opcodes.Holds(done) && opcodes.highest == highest
    {
      var opcode := opcodes.YieldOpcode(items[k], done);
      if opcode.None? {
        return false, done;
      }
      var insn := Insn(items[k].name, items[k].prefix, opcode.value, items[k].opcode.Some?);
      AssignedMore(highest, items, done, insn);
      opcodes.Consume(insn, done);
      done := done + [insn];
    }
  }

  lemma NothingAssigned(highest: bool, items: seq<Item>)
    ensures Assigned(highest, items, [])
  {
  }

  // ----- unique -----

  /** The items with an opcode come first, and no two of a prefix have the same. */
  predicate PublicFirst(items: seq<Item>) {
    && (forall i, j :: 0 <= i < j < |items| && items[j].opcode.Some? ==> items[i].opcode.Some?)
    && (forall i, j :: 0 <= i < j < |items| && items[j].opcode.Some? && items[i].prefix == items[j].prefix ==> items[i].opcode != items[j].opcode)
  }

  predicate Unique(insns: seq<Insn>) {
    forall i, j :: 0 <= i < j < |insns| && insns[i].prefix == insns[j].prefix ==> insns[i].opcode != insns[j].opcode
  }

  /** No two instructions of a prefix get the same opcode, and all that are given are below 256. */
  lemma AssignedUnique(highest: bool, items: seq<Item>, done: seq<Insn>)
    requires PublicFirst(items) && Assigned(highest, items, done)
    ensures Unique(done)
    ensures forall k :: 0 <= k < |done| && !done[k].isPublic ==> done[k].opcode < OPCODES
  {
    forall j | 0 <= j < |done| && !done[j].isPublic
      ensures done[j].opcode < OPCODES
    {
      assert AssignedAt(highest, items, done, j);
    }
    forall i, j | 0 <= i < j < |done| && done[i].prefix == done[j].prefix
      ensures done[i].opcode != done[j].opcode
    {
      assert AssignedAt(highest, items, done, i) && AssignedAt(highest, items, done, j);
      if items[j].opcode.None? {
        assert done[..j][i] == done[i];
        assert done[i].opcode in OpcodesOf(done[..j], done[j].prefix);
      }
    }
  }

  // ----- dense -----

  /** The numbers below n. */
  function Below(n: nat): set<nat> {
    if n == 0 then {} else Below(n - 1) + {n - 1}
  }

  lemma {:induction false} InBelow(n: nat, x: nat)
    ensures x in Below(n) <==> x < n
  {
    if n > 0 {
      InBelow(n - 1, x);
    }
  }

  lemma {:induction false} BelowSize(n: nat)
    ensures |Below(n)| == n
  {
    if n > 0 {
      BelowSize(n - 1);
      InBelow(n - 1, n - 1);
    }
  }

  lemma SubsetSize(a: set<nat>, b: set<nat>)
    requires a <= b
    ensures |a| <= |b| && (|a| == |b| ==> a == b)
  {
    assert b == a + (b - a);
  }

  /** How many of the first k items have a prefix. */
  function Own(items: seq<Item>, p: Option<string>, k: nat): nat
    requires k <= |items|
  {
    if k == 0 then 0 else Own(items, p, k - 1) + (if items[k - 1].prefix == p then 1 else 0)
  }

  lemma {:induction false} OwnGrows(items: seq<Item>, p: Option<string>, j: nat, k: nat)
    requires j < k <= |items|
    ensures Own(items, p, j) + (if items[j].prefix == p then 1 else 0) <= Own(items, p, k)
  {
    if j < k - 1 {
      OwnGrows(items, p, j, k - 1);
    }
  }

  /** A prefix has as many opcodes as items. */
  lemma {:induction false} OpcodesCount(highest: bool, items: seq<Item>, done: seq<Insn>, p: Option<string>, k: nat)
    requires PublicFirst(items) && Assigned(highest, items, done) && k <= |done|
    ensures |OpcodesOf(done[..k], p)| == Own(items, p, k)
  {
    hide OpcodesOf, OpcodeFor, PublicFirst;
    if k == 0 {
      NoOpcodes(done[..k], p);
    } else {
      OpcodesCount(highest, items, done, p, k - 1);
      assert AssignedAt(highest, items, done, k - 1);
      assert done[..k] == done[..k - 1] + [done[k - 1]];
      OpcodesMore(done[..k - 1], done[k - 1], p);
      AssignedUnique(highest, items, done);
      NewOpcode(done, k - 1);
    }
  }

  lemma NoOpcodes(done: seq<Insn>, p: Option<string>)
    requires done == []
    ensures OpcodesOf(done, p) == {}
  {
  }

  lemma NewOpcode(done: seq<Insn>, k: nat)
    requires Unique(done) && k < |done|
    ensures done[k].opcode !in OpcodesOf(done[..k], done[k].prefix)
  {
  }

  /** The lowest free opcode is no higher than the number of those that are taken. */
  lemma LowestWithin(occupied: set<nat>)
    ensures LowestFree(occupied, 0).Some? ==> LowestFree(occupied, 0).value <= |occupied|
  {
    hide LowestFree, Below;
    var r := LowestFree(occupied, 0);
    if r.Some? {
      forall x | x in Below(r.value)
        ensures x in occupied
      {
        InBelow(r.value, x);
      }
      BelowSize(r.value);
      SubsetSize(Below(r.value), occupied);
    }
  }

  /** The given opcodes of a prefix, among the first k items, are lower than n. */
  predicate GivenUnder(items: seq<Item>, p: Option<string>, k: nat, n: nat)
    requires k <= |items|
  {
    forall i :: 0 <= i < k && items[i].prefix == p && items[i].opcode.Some? ==> items[i].opcode.value < n
  }

  /** Whatever is assigned is then lower, too. */
  lemma AssignedUnder(items: seq<Item>, done: seq<Insn>, p: Option<string>, k: nat, i: nat)
    requires PublicFirst(items) && Assigned(false, items, done) && i < k <= |done| && items[i].prefix == p
    requires GivenUnder(items, p, k, Own(items, p, k))
    ensures done[i].prefix == p && done[i].opcode < Own(items, p, k)
  {
    hide OpcodesOf, LowestFree, PublicFirst, Own;
    assert AssignedAt(false, items, done, i);
    OpcodesCount(false, items, done, p, i);
    OwnGrows(items, p, i, k);
    if items[i].opcode.None? {
      LowestWithin(OpcodesOf(done[..i], p));
    }
  }

  /** After any number of items the opcodes of a prefix are the first ones, as many as it has items,
      if and only if none that was given is higher: gaps are filled by items without an opcode. */
  lemma DenseIff(items: seq<Item>, done: seq<Insn>, p: Option<string>, k: nat)
    requires PublicFirst(items) && Assigned(false, items, done) && k <= |done|
    ensures OpcodesOf(done[..k], p) == Below(Own(items, p, k)) <==> GivenUnder(items, p, k, Own(items, p, k))
  {
    hide LowestFree, PublicFirst, Own, Below, OpcodeFor;
    var n := Own(items, p, k);
    OpcodesCount(false, items, done, p, k);
    BelowSize(n);
    if GivenUnder(items, p, k, n) {
      forall x | x in OpcodesOf(done[..k], p)
        ensures x in Below(n)
      {
        var i :| 0 <= i < k && done[..k][i].prefix == p && done[..k][i].opcode == x;
        assert AssignedAt(false, items, done, i);
        AssignedUnder(items, done, p, k, i);
        InBelow(n, x);
      }
      SubsetSize(OpcodesOf(done[..k], p), Below(n));
    }
    if OpcodesOf(done[..k], p) == Below(n) {
      forall i | 0 <= i < k && items[i].prefix == p && items[i].opcode.Some?
        ensures items[i].opcode.value < n
      {
        GivenIsTaken(false, items, done, k, i);
        InBelow(n, items[i].opcode.value);
      }
    }
  }

  lemma GivenIsTaken(highest: bool, items: seq<Item>, done: seq<Insn>, k: nat, i: nat)
    requires Assigned(highest, items, done) && i < k <= |done| && items[i].opcode.Some?
    ensures items[i].opcode.value in OpcodesOf(done[..k], items[i].prefix)
  {
    assert AssignedAt(highest, items, done, i);
    assert done[..k][i] == done[i];
  }

  /** How many of the first k items of a prefix have no opcode. */
  function Private(items: seq<Item>, p: Option<string>, k: nat): nat
    requires k <= |items|
  {
    if k == 0 then 0 else Private(items, p, k - 1) + (if items[k - 1].prefix == p && items[k - 1].opcode.None? then 1 else 0)
  }

  /** The numbers from n to 255. */
  function Above(n: nat): set<nat>
    decreases OPCODES - n
  {
    if n >= OPCODES then {} else {n} + Above(n + 1)
  }

  lemma {:induction false} InAbove(n: nat, x: nat)
    ensures x in Above(n) <==> n <= x < OPCODES
    decreases OPCODES - n
  {
    if n < OPCODES {
      InAbove(n + 1, x);
    }
  }

  lemma HighestIsNext(occupied: set<nat>, low: set<nat>, n: nat)
    requires n < OPCODES && occupied == low + Above(OPCODES - n) && OPCODES - n - 1 !in low
    ensures HighestFree(occupied, OPCODES) == Some(OPCODES - n - 1)
  {
    var r := HighestFree(occupied, OPCODES);
    var x: nat := OPCODES - n - 1;
    InAbove(OPCODES - n, x);
    assert x !in occupied;
    if r.Some? {
      InAbove(OPCODES - n, r.value);
    }
  }

  lemma AboveNext(n: nat)
    requires n < OPCODES
    ensures Above(n + 1) + {n} == Above(n)
  {
  }

  lemma NoneAbove(low: set<nat>)
    ensures low + Above(OPCODES) == low
  {
  }

  /** Prefixes without an opcode fill the highest places in turn, as long as none of the given
      opcodes lies there. */
  lemma {:induction false} FillsTheTop(items: seq<Item>, done: seq<Insn>, p: Option<string>, low: set<nat>, first: nat, k: nat)
    requires Assigned(true, items, done) && first <= k <= |done|
    requires forall i :: first <= i < |items| && items[i].prefix == p ==> items[i].opcode.None?
    requires OpcodesOf(done[..first], p) == low && Private(items, p, first) == 0
    requires Private(items, p, k) <= OPCODES && forall x :: OPCODES - Private(items, p, k) <= x < OPCODES ==> x !in low
    ensures OpcodesOf(done[..k], p) == low + Above(OPCODES - Private(items, p, k))
  {
    hide HighestFree, Above, OpcodesOf;
    if k > first {
      FillsTheTop(items, done, p, low, first, k - 1);
      var n := Private(items, p, k - 1);
      assert AssignedAt(true, items, done, k - 1);
      assert done[..k] == done[..k - 1] + [done[k - 1]];
      OpcodesMore(done[..k - 1], done[k - 1], p);
      if items[k - 1].prefix == p {
        HighestIsNext(OpcodesOf(done[..k - 1], p), low, n);
        AboveNext(OPCODES - n - 1);
      }
    } else {
      NoneAbove(low);
    }
  }

  // ----- both passes -----

  /** The items with an opcode, or those without, in order. */
  function Selected(items: seq<Item>, given: bool): (res: seq<Item>)
    ensures forall k :: 0 <= k < |res| ==> res[k].opcode.Some? == given
  {
    if items == [] then []
    else Selected(items[..|items| - 1], given) + (if items[|items| - 1].opcode.Some? == given then [items[|items| - 1]] else [])
  }

  predicate DistinctGiven(items: seq<Item>) {
    forall i, j :: 0 <= i < j < |items| && items[i].prefix == items[j].prefix ==> items[i].opcode != items[j].opcode
  }

  /** Panda.instructions and Panda.prefixes, before sorting: first the public items, then the
      others, with one assigner. Opcodes are unique within a prefix if the given ones are. */
  method AssignOpcodes(highest: bool, items: seq<Item>) returns (ok: bool, insns: seq<Insn>)
    ensures ok ==> |insns| == |items| && Assigned(highest, Selected(items, true) + Selected(items, false), insns)
    ensures ok && DistinctGiven(Selected(items, true)) ==> Unique(insns)
  {
    var ordered := Selected(items, true) + Selected(items, false);
    ok, insns := Initialize(highest, ordered);
    SelectedAll(items);
    if DistinctGiven(Selected(items, true)) {
      OrderedIsPublicFirst(items);
      AssignedUnique(highest, ordered, insns);
    }
  }

  lemma {:induction false} SelectedAll(items: seq<Item>)
    ensures |Selected(items, true)| + |Selected(items, false)| == |items|
  {
    if items != [] {
      SelectedAll(items[..|items| - 1]);
    }
  }

  lemma OrderedIsPublicFirst(items: seq<Item>)
    requires DistinctGiven(Selected(items, true))
    ensures PublicFirst(Selected(items, true) + Selected(items, false))
  {
    hide Selected;
    var a, b := Selected(items, true), Selected(items, false);
    var ordered: seq<Item> := a + b;
    assert forall j :: 0 <= j < |ordered| && ordered[j].opcode.Some? ==> j < |a|;
  }
}

/** From declared instructions and prefixes to the dispatch table: what Panda.instructions,
    Panda.prefixes and DispatchTable in isa/isapi.rb do one after the other. */
module DispatchLayout {
  import opened Options
  import opened OpcodeAssignment
  import opened DispatchTables

  // ----- what is declared -----

  /** Those with an opcode first, as they are served. */
  function Ordered(items: seq<Item>): seq<Item> {
    Selected(items, true) + Selected(items, false)
  }

  function GivenOpcodes(items: seq<Item>, p: Option<string>): set<nat> {
    set i | 0 <= i < |items| && items[i].prefix == p && items[i].opcode.Some? :: items[i].opcode.value
  }

  /** How many items a prefix has. */
  function Total(items: seq<Item>, p: Option<string>): nat { Own(items, p, |items|) }

  predicate Served(items: seq<Item>, p: Option<string>) { exists i :: 0 <= i < |items| && items[i].prefix == p }

  predicate HasPrefix(prefixItems: seq<Item>, name: string) { exists q :: 0 <= q < |prefixItems| && prefixItems[q].name == name }

  predicate OtherNames(items: seq<Item>) { forall i, j :: 0 <= i < j < |items| ==> items[i].name != items[j].name }

  /** Prefixes, some of them public: different names, different opcodes. */
  predicate GoodPrefixes(prefixItems: seq<Item>) {
    && DistinctGiven(Selected(prefixItems, true)) && Selected(prefixItems, true) != [] && OtherNames(prefixItems)
    && forall q :: 0 <= q < |prefixItems| ==> prefixItems[q].prefix == None
  }

  /** Instructions, some of them without a prefix; no opcode is given twice. */
  predicate WellDeclared(items: seq<Item>, prefixItems: seq<Item>) {
    && DistinctGiven(Selected(items, true)) && GoodPrefixes(prefixItems) && Served(items, None)
    && forall i :: 0 <= i < |items| && items[i].prefix.Some? ==> HasPrefix(prefixItems, items[i].prefix.value)
  }

  /** No given opcode of a prefix is as high as its number of items, so that each gap is filled. */
  predicate GapsFilled(items: seq<Item>, p: Option<string>) { GivenUnder(items, p, |items|, Total(items, p)) }

  /** The given opcodes of prefixes are one interval from start on, with room for the others. */
  ghost predicate OneInterval(prefixItems: seq<Item>, start: nat) {
    && start + |prefixItems| <= OPCODES
    && forall x :: x in GivenOpcodes(prefixItems, None) <==> start <= x < start + |Selected(prefixItems, true)|
  }

  /** The interval lies behind the instructions without a prefix. */
  ghost predicate NoGaps(items: seq<Item>, prefixItems: seq<Item>, start: nat) {
    (forall p :: GapsFilled(items, p)) && OneInterval(prefixItems, start) && Total(items, None) <= start
  }

  // ----- sorting -----

  function AsPrefix(p: Insn): Prefix { Prefix(p.name, p.opcode, p.isPublic) }

  function AsPrefixes(s: seq<Insn>): (res: seq<Prefix>)
    ensures |res| == |s| && forall q :: 0 <= q < |s| ==> res[q] == AsPrefix(s[q])
  {
    seq(|s|, q requires 0 <= q < |s| => AsPrefix(s[q]))
  }

  /** opcode_idx of an instruction: the opcode of the prefix in the lower byte. */
  function WholeOpcode(insn: Insn, prefixes: seq<Prefix>): nat
    requires insn.prefix.Some? ==> Known(prefixes, insn.prefix.value)
  {
    if insn.prefix.Some? then insn.opcode * OPCODES + prefixes[PlaceOf(prefixes, insn.prefix.value)].opcode else insn.opcode
  }

  ghost predicate SortedPrefixes(s: seq<Insn>, done: seq<Insn>) {
    multiset(s) == multiset(done) && forall p, q :: 0 <= p < q < |s| ==> s[p].opcode <= s[q].opcode
  }

  /** Some result of sort_by, which need not be stable; it raises an error on an unknown prefix. */
  ghost predicate SortedInsns(insns: seq<Insn>, done: seq<Insn>, prefixes: seq<Prefix>) {
    && multiset(insns) == multiset(done)
    && (AllKnown(insns, prefixes) ==>
          forall i, j :: 0 <= i < j < |insns| ==> WholeOpcode(insns[i], prefixes) <= WholeOpcode(insns[j], prefixes))
  }

  /** A sorted list without repetitions stays without them. */
  lemma UniquePermuted(s: seq<Insn>, t: seq<Insn>)
    requires multiset(s) == multiset(t) && Unique(s)
    ensures Unique(t)
  {
    forall i, j | 0 <= i < j < |t| && t[i].prefix == t[j].prefix && t[i].opcode == t[j].opcode
      ensures false
    {
      assert t[i] in multiset(s) && t[j] in multiset(s);
      var a :| 0 <= a < |s| && s[a] == t[i];
      var b :| 0 <= b < |s| && s[b] == t[j];
      assert a == b;
      Twice(t, i, j);
      OnceOnly(s, a);
    }
  }

  lemma Twice(t: seq<Insn>, i: nat, j: nat)
    requires i < j < |t| && t[i] == t[j]
    ensures multiset(t)[t[i]] >= 2
  {
    assert t == t[..j] + t[j..] && t[j..][0] == t[j] && t[..j][i] == t[i];
    assert t[i] in multiset(t[..j]) && t[i] in multiset(t[j..]);
  }

  lemma OnceOnly(s: seq<Insn>, a: nat)
    requires a < |s| && Unique(s)
    ensures multiset(s)[s[a]] == 1
  {
    OncePresent(s, a);
  }

  lemma OncePresent(s: seq<Insn>, a: nat)
    requires a < |s| && forall i :: 0 <= i < |s| && i != a ==> s[i] != s[a]
    ensures multiset(s)[s[a]] == 1
  {
    var x := s[a];
    assert s == s[..a] + [x] + s[a + 1..];
    assert x !in s[..a];
    assert x !in s[a + 1..];
  }

  // ----- the order in which items are served -----

  lemma {:induction false} SelectedHas(items: seq<Item>, given: bool, x: Item)
    ensures x in Selected(items, given) <==> x in items && x.opcode.Some? == given
  {
    if items != [] {
      SelectedHas(items[..|items| - 1], given, x);
      assert items == items[..|items| - 1] + [items[|items| - 1]];
    }
  }

  lemma OrderedHas(items: seq<Item>, x: Item)
    ensures x in Ordered(items) <==> x in items
  {
    hide Selected;
    SelectedHas(items, true, x);
    SelectedHas(items, false, x);
  }

  lemma {:induction false} OwnConcat(s: seq<Item>, t: seq<Item>, p: Option<string>, k: nat)
    requires k <= |t|
    ensures Own(s + t, p, |s| + k) == Own(s, p, |s|) + Own(t, p, k)
  {
    if k > 0 {
      OwnConcat(s, t, p, k - 1);
    } else {
      OwnFirst(s, s + t, p, |s|);
    }
  }

  lemma {:induction false} OwnFirst(s: seq<Item>, t: seq<Item>, p: Option<string>, k: nat)
    requires k <= |s| && k <= |t| && forall i :: 0 <= i < k ==> s[i] == t[i]
    ensures Own(s, p, k) == Own(t, p, k)
  {
    if k > 0 {
      OwnFirst(s, t, p, k - 1);
    }
  }

  lemma {:induction false} PrivateNone(s: seq<Item>, p: Option<string>, k: nat)
    requires k <= |s| && forall i :: 0 <= i < k ==> s[i].opcode.Some?
    ensures Private(s, p, k) == 0
  {
    if k > 0 {
      PrivateNone(s, p, k - 1);
    }
  }

  lemma OwnNext(s: seq<Item>, x: Item, p: Option<string>)
    ensures Own(s + [x], p, |s| + 1) == Own(s, p, |s|) + (if x.prefix == p then 1 else 0)
  {
    OwnFirst(s, s + [x], p, |s|);
  }

  lemma {:induction false} OwnSelected(items: seq<Item>, p: Option<string>)
    ensures Total(Selected(items, true), p) + Total(Selected(items, false), p) == Total(items, p)
  {
    hide Own, Selected;
    if items == [] {
      NoneOwned(p);
    } else {
      var init, x := items[..|items| - 1], items[|items| - 1];
      var given := x.opcode.Some?;
      OwnSelected(init, p);
      assert items == init + [x];
      OwnNext(init, x, p);
      OwnNext(Selected(init, given), x, p);
      SelectedLast(items);
    }
  }

  lemma SelectedLast(items: seq<Item>)
    requires items != []
    ensures var init, x := items[..|items| - 1], items[|items| - 1];
            var given := x.opcode.Some?;
            Selected(items, given) == Selected(init, given) + [x] && Selected(items, !given) == Selected(init, !given)
  {
  }

  lemma NoneOwned(p: Option<string>)
    ensures Own([], p, 0) == 0 && Selected([], true) == [] && Selected([], false) == []
  {
  }

  /** Serving the public items first changes none of the numbers. */
  lemma OrderedIs(items: seq<Item>, p: Option<string>)
    ensures |Ordered(items)| == |items| && Total(Ordered(items), p) == Total(items, p)
    ensures Private(Ordered(items), p, |Selected(items, true)|) == 0
  {
    hide Private, Own, Selected;
    var a, b := Selected(items, true), Selected(items, false);
    SelectedAll(items);
    OwnConcat(a, b, p, |b|);
    OwnSelected(items, p);
    PrivateNone(Ordered(items), p, |a|);
  }

  /** What the public items are given is what they have. */
  lemma GivenFirst(highest: bool, items: seq<Item>, done: seq<Insn>, p: Option<string>)
    requires Assigned(highest, Ordered(items), done) && |done| == |items|
    ensures |Selected(items, true)| <= |done|
    ensures OpcodesOf(done[..|Selected(items, true)|], p) == GivenOpcodes(items, p)
  {
    hide Selected, Choose;
    SelectedAll(items);
    var g := Selected(items, true);
    var first := done[..|g|];
    forall k | 0 <= k < |g|
      ensures first[k].prefix == g[k].prefix && g[k].opcode == Some(first[k].opcode)
    {
      assert AssignedAt(highest, Ordered(items), done, k);
      assert Ordered(items)[k] == g[k];
    }
    forall x | x in GivenOpcodes(items, p)
      ensures x in OpcodesOf(first, p)
    {
      var i :| 0 <= i < |items| && items[i].prefix == p && items[i].opcode == Some(x);
      SelectedHas(items, true, items[i]);
      var k :| 0 <= k < |g| && g[k] == items[i];
      assert first[k].opcode == x;
    }
    forall x | x in OpcodesOf(first, p)
      ensures x in GivenOpcodes(items, p)
    {
      var k :| 0 <= k < |first| && first[k].prefix == p && first[k].opcode == x;
      SelectedHas(items, true, g[k]);
      var i :| 0 <= i < |items| && items[i] == g[k];
    }
  }

  // ----- in what order -----

  /** Where the i-th item is served. */
  function Spot(items: seq<Item>, i: nat): nat
    requires i < |items|
  {
    if items[i].opcode.Some? then |Selected(items[..i], true)| else |Selected(items, true)| + |Selected(items[..i], false)|
  }

  /** The items before the i-th that are selected with it come before it, in the same order. */
  lemma {:induction false} SelectedAt(items: seq<Item>, given: bool, i: nat)
    requires i < |items| && items[i].opcode.Some? == given
    ensures |Selected(items[..i], given)| < |Selected(items, given)| && Selected(items, given)[|Selected(items[..i], given)|] == items[i]
  {
    var n := |items| - 1;
    if i < n {
      SelectedAt(items[..n], given, i);
      assert items[..n][..i] == items[..i];
    }
  }

  lemma {:induction false} SelectedGrows(items: seq<Item>, given: bool, i: nat, j: nat)
    requires i < j <= |items| && items[i].opcode.Some? == given
    ensures |Selected(items[..i], given)| < |Selected(items[..j], given)|
  {
    assert items[..j][..j - 1] == items[..j - 1];
    if i < j - 1 {
      SelectedGrows(items, given, i, j - 1);
    }
  }

  /** Every item is served, those with an opcode first, and within both groups in declared order. */
  lemma ServedAt(items: seq<Item>, i: nat)
    requires i < |items|
    ensures Spot(items, i) < |Ordered(items)| && Ordered(items)[Spot(items, i)] == items[i]
    ensures forall j :: i < j < |items| && items[j].opcode.Some? == items[i].opcode.Some? ==> Spot(items, i) < Spot(items, j)
    ensures forall j :: 0 <= j < |items| && items[i].opcode.Some? && items[j].opcode.None? ==> Spot(items, i) < Spot(items, j)
  {
    hide Selected;
    SelectedAt(items, items[i].opcode.Some?, i);
    forall j | i < j < |items| && items[j].opcode.Some? == items[i].opcode.Some?
      ensures Spot(items, i) < Spot(items, j)
    {
      SelectedGrows(items, items[i].opcode.Some?, i, j);
    }
  }

  /** Of two items without an opcode the one declared first gets the lower one; of two such prefixes
      the higher one. */
  lemma InDeclaredOrder(highest: bool, items: seq<Item>, done: seq<Insn>, i: nat, j: nat)
    requires Assigned(highest, Ordered(items), done) && |done| == |items| && i < j < |items|
    requires items[i].opcode.None? && items[j].opcode.None? && items[i].prefix == items[j].prefix
    ensures |Ordered(items)| == |items| && Spot(items, i) < |items| && Spot(items, j) < |items|
    ensures var x, y := done[Spot(items, i)], done[Spot(items, j)];
            && x.name == items[i].name && y.name == items[j].name
            && if highest then x.opcode > y.opcode else x.opcode < y.opcode
  {
    hide Ordered, Spot, LowestFree, HighestFree;
    OrderedIs(items, None);
    ServedAt(items, i);
    ServedAt(items, j);
    var d, e, p := Spot(items, i), Spot(items, j), items[i].prefix;
    assert AssignedAt(highest, Ordered(items), done, d) && AssignedAt(highest, Ordered(items), done, e);
    var s, t := OpcodesOf(done[..d], p), OpcodesOf(done[..e], p);
    assert forall k :: 0 <= k < d ==> done[..e][k] == done[..d][k];
    assert done[..e][d] == done[d];
    assert s <= t && done[d].opcode in t;
  }

  // ----- instructions -----

  lemma GapsFilledInOrder(items: seq<Item>, p: Option<string>)
    requires |Ordered(items)| == |items|
    ensures GapsFilled(items, p) <==> GivenUnder(Ordered(items), p, |items|, Total(items, p))
  {
    hide Ordered, Total;
    var ordered := Ordered(items);
    if GapsFilled(items, p) {
      forall i | 0 <= i < |ordered| && ordered[i].prefix == p && ordered[i].opcode.Some?
        ensures ordered[i].opcode.value < Total(items, p)
      {
        OrderedHas(items, ordered[i]);
        var k :| 0 <= k < |items| && items[k] == ordered[i];
      }
    }
    if GivenUnder(ordered, p, |items|, Total(items, p)) {
      forall i | 0 <= i < |items| && items[i].prefix == p && items[i].opcode.Some?
        ensures items[i].opcode.value < Total(items, p)
      {
        OrderedHas(items, items[i]);
        var k :| 0 <= k < |ordered| && ordered[k] == items[i];
      }
    }
  }

  /** Instructions, assigned and sorted, have the first opcodes under a prefix if and only if no
      given one is as high as the number of its items. */
  lemma InsnsAreDense(items: seq<Item>, done: seq<Insn>, insns: seq<Insn>, p: Option<string>)
    requires DistinctGiven(Selected(items, true)) && Assigned(false, Ordered(items), done) && |done| == |items|
    requires multiset(insns) == multiset(done)
    ensures |OpcodesOf(insns, p)| == Total(items, p)
    ensures Dense(insns, p, Total(items, p)) <==> GapsFilled(items, p)
  {
    hide Selected, Total, Assigned, OpcodesOf, Below, GapsFilled, DistinctGiven, Ordered;
    DoneIsDense(items, done, p);
    OpcodesPermuted(insns, done, p);
    OpcodesPermuted(done, insns, p);
    assert OpcodesOf(insns, p) == OpcodesOf(done, p);
  }

  lemma DoneIsDense(items: seq<Item>, done: seq<Insn>, p: Option<string>)
    requires DistinctGiven(Selected(items, true)) && Assigned(false, Ordered(items), done) && |done| == |items|
    ensures |OpcodesOf(done, p)| == Total(items, p)
    ensures OpcodesOf(done, p) == Below(Total(items, p)) <==> GapsFilled(items, p)
  {
    hide Selected, Own, Assigned, OpcodesOf, Below, PublicFirst, GapsFilled, DistinctGiven, Ordered, GivenUnder;
    OrderedIs(items, p);
    PublicAreFirst(items);
    assert done[..|done|] == done;
    OpcodesCount(false, Ordered(items), done, p, |done|);
    DenseIff(Ordered(items), done, p, |done|);
    GapsFilledInOrder(items, p);
  }

  lemma PublicAreFirst(items: seq<Item>)
    requires DistinctGiven(Selected(items, true))
    ensures PublicFirst(Ordered(items))
  {
    OrderedIsPublicFirst(items);
  }

  lemma AssignedIsUnique(highest: bool, items: seq<Item>, done: seq<Insn>)
    requires DistinctGiven(Selected(items, true)) && Assigned(highest, Ordered(items), done)
    ensures Unique(done)
  {
    hide Selected, Assigned;
    OrderedIsPublicFirst(items);
    AssignedUnique(highest, Ordered(items), done);
  }

  predicate BecomesOf(item: Item, insn: Insn) {
    && item.name == insn.name && item.prefix == insn.prefix && item.opcode.Some? == insn.isPublic
    && (item.opcode.Some? ==> item.opcode.value == insn.opcode)
  }

  /** What is in the sorted list was declared. */
  lemma ComesFrom(highest: bool, items: seq<Item>, done: seq<Insn>, insns: seq<Insn>, i: nat) returns (k: nat)
    requires Assigned(highest, Ordered(items), done) && multiset(insns) == multiset(done) && i < |insns|
    ensures k < |items| && BecomesOf(items[k], insns[i])
  {
    hide Selected, Choose, Ordered;
    assert insns[i] in multiset(done);
    var d :| 0 <= d < |done| && done[d] == insns[i];
    assert AssignedAt(highest, Ordered(items), done, d);
    var x := Ordered(items)[d];
    OrderedHas(items, x);
    k :| 0 <= k < |items| && items[k] == x;
  }

  /** What was declared is in the sorted list. */
  lemma GoesTo(highest: bool, items: seq<Item>, done: seq<Insn>, insns: seq<Insn>, k: nat) returns (i: nat)
    requires Assigned(highest, Ordered(items), done) && |done| == |items| && multiset(insns) == multiset(done) && k < |items|
    ensures i < |insns| && BecomesOf(items[k], insns[i])
  {
    hide Selected, Choose, Ordered;
    OrderedIs(items, None);
    OrderedHas(items, items[k]);
    var d :| 0 <= d < |Ordered(items)| && Ordered(items)[d] == items[k];
    assert AssignedAt(highest, Ordered(items), done, d);
    assert done[d] in multiset(insns);
    i :| 0 <= i < |insns| && insns[i] == done[d];
  }

  // ----- prefixes -----

  /** A prefix without a given opcode gets one of the highest. */
  lemma PrivateAtTheTop(items: seq<Item>, done: seq<Insn>, start: nat, k: nat)
    requires GoodPrefixes(items) && OneInterval(items, start)
    requires Assigned(true, Ordered(items), done) && |done| == |items| && k < |done|
    ensures done[k].isPublic ==> start <= done[k].opcode < start + |Selected(items, true)|
    ensures !done[k].isPublic ==> OPCODES - |Selected(items, false)| <= done[k].opcode < OPCODES
  {
    hide Selected, HighestFree, GivenOpcodes, Private, Above;
    var a := |Selected(items, true)|;
    SelectedAll(items);
    assert AssignedAt(true, Ordered(items), done, k);
    GivenFirst(true, items, done, None);
    PrefixesFill(items, done, start, k);
    NonePrefixed(items, k);
    if k < a {
      assert done[..a][k] == done[k];
      assert done[k].opcode in OpcodesOf(done[..a], None);
    }
  }

  lemma NonePrefixed(items: seq<Item>, k: nat)
    requires k < |Ordered(items)| && forall q :: 0 <= q < |items| ==> items[q].prefix == None
    ensures Ordered(items)[k].prefix == None
    ensures Ordered(items)[k].opcode.Some? <==> k < |Selected(items, true)|
  {
    hide Selected;
    OrderedHas(items, Ordered(items)[k]);
  }

  lemma {:induction false} AllPrivate(items: seq<Item>, k: nat)
    requires |Selected(items, true)| <= k <= |Ordered(items)| && forall q :: 0 <= q < |items| ==> items[q].prefix == None
    ensures Private(Ordered(items), None, k) == k - |Selected(items, true)|
  {
    hide Selected, Ordered;
    if k > |Selected(items, true)| {
      AllPrivate(items, k - 1);
      NonePrefixed(items, k - 1);
    } else {
      OrderedIs(items, None);
    }
  }

  /** After k prefixes: the interval, and the highest places in turn. */
  lemma PrefixesFill(items: seq<Item>, done: seq<Insn>, start: nat, k: nat)
    requires GoodPrefixes(items) && OneInterval(items, start)
    requires Assigned(true, Ordered(items), done) && |done| == |items| && k <= |done|
    ensures var a := |Selected(items, true)|;
            a <= k ==>
            && OpcodesOf(done[..k], None) == GivenOpcodes(items, None) + Above(OPCODES - (k - a))
            && (k < |done| ==> HighestFree(OpcodesOf(done[..k], None), OPCODES) == Some(OPCODES - (k - a) - 1))
  {
    hide Selected, HighestFree, GivenOpcodes, OpcodesOf, Private, Above, Assigned, Ordered, Choose;
    var a := |Selected(items, true)|;
    SelectedAll(items);
    OrderedIs(items, None);
    GivenFirst(true, items, done, None);
    if a <= k {
      AllPrivate(items, k);
      AllPrivate(items, a);
      forall i | a <= i < |items|
        ensures Ordered(items)[i].opcode.None?
      {
        NonePrefixed(items, i);
      }
      FillsTheTop(Ordered(items), done, None, GivenOpcodes(items, None), a, k);
      if k < |done| {
        HighestIsNext(OpcodesOf(done[..k], None), GivenOpcodes(items, None), k - a);
      }
    }
  }

  predicate Climbs(s: seq<Insn>) { forall i, j :: 0 <= i < j < |s| ==> s[i].opcode < s[j].opcode }

  /** Increasing numbers that hold all from start on, and none below, begin with these. */
  lemma {:induction false} FromBelow(s: seq<Insn>, start: nat, i: nat)
    requires Climbs(s) && (forall j :: 0 <= j < |s| ==> start <= s[j].opcode)
    requires forall x :: start <= x < start + i ==> HasOpcode(s, x)
    ensures i <= |s| && forall j :: 0 <= j < i ==> s[j].opcode == start + j
  {
    if i > 0 {
      FromBelow(s, start, i - 1);
      assert HasOpcode(s, start + i - 1);
      var k :| 0 <= k < |s| && s[k].opcode == start + i - 1;
      assert i > 1 ==> s[i - 2].opcode < s[i - 1].opcode;
      assert k <= i - 1;
    }
  }

  /** And those that hold all up to 255, and none above, end with these. */
  lemma {:induction false} FromAbove(s: seq<Insn>, i: nat)
    requires Climbs(s) && i <= OPCODES && (forall j :: 0 <= j < |s| ==> s[j].opcode < OPCODES)
    requires forall x :: OPCODES - i <= x < OPCODES ==> HasOpcode(s, x)
    ensures i <= |s| && forall j :: |s| - i <= j < |s| ==> s[j].opcode == OPCODES - |s| + j
  {
    if i > 0 {
      FromAbove(s, i - 1);
      assert HasOpcode(s, OPCODES - i);
      var k :| 0 <= k < |s| && s[k].opcode == OPCODES - i;
      var last := |s| - i;
      assert 0 <= last && (i > 1 ==> s[last].opcode < s[last + 1].opcode);
      assert k >= last;
    }
  }

  lemma SortedClimbs(s: seq<Insn>, done: seq<Insn>)
    requires SortedPrefixes(s, done) && Unique(done) && forall q :: 0 <= q < |s| ==> s[q].prefix == None
    ensures Climbs(s)
  {
    UniquePermuted(done, s);
  }

  lemma SameLength(s: seq<Insn>, t: seq<Insn>)
    requires multiset(s) == multiset(t)
    ensures |s| == |t|
  {
    assert |multiset(s)| == |s| && |multiset(t)| == |t|;
  }

  /** Where the prefixes lie once they are sorted. */
  lemma PrefixRange(items: seq<Item>, done: seq<Insn>, s: seq<Insn>, start: nat, q: nat)
    requires GoodPrefixes(items) && OneInterval(items, start)
    requires Assigned(true, Ordered(items), done) && |done| == |items| && multiset(s) == multiset(done) && q < |s|
    ensures s[q].prefix == None
    ensures s[q].isPublic ==> start <= s[q].opcode < start + |Selected(items, true)|
    ensures !s[q].isPublic ==> OPCODES - |Selected(items, false)| <= s[q].opcode < OPCODES
  {
    hide Selected, Assigned, Ordered, GivenOpcodes;
    assert s[q] in multiset(done);
    var k :| 0 <= k < |done| && done[k] == s[q];
    PrivateAtTheTop(items, done, start, k);
    var i := ComesFrom(true, items, done, s, q);
  }

  lemma PrefixesHave(items: seq<Item>, done: seq<Insn>, s: seq<Insn>, start: nat, x: nat)
    requires GoodPrefixes(items) && OneInterval(items, start)
    requires Assigned(true, Ordered(items), done) && |done| == |items| && multiset(s) == multiset(done)
    requires start <= x < start + |Selected(items, true)| || OPCODES - |Selected(items, false)| <= x < OPCODES
    ensures HasOpcode(s, x)
  {
    hide Selected, Assigned, Ordered, GivenOpcodes, Above, HighestFree;
    SelectedAll(items);
    PrefixesFill(items, done, start, |done|);
    assert done[..|done|] == done;
    InAbove(OPCODES - |Selected(items, false)|, x);
    OpcodesPermuted(done, s, None);
    assert x in OpcodesOf(s, None);
  }

  lemma PrefixesClimb(items: seq<Item>, done: seq<Insn>, s: seq<Insn>)
    requires GoodPrefixes(items) && Assigned(true, Ordered(items), done) && |done| == |items| && SortedPrefixes(s, done)
    ensures |s| == |items| && Climbs(s)
  {
    hide Selected, Assigned, Ordered, Unique;
    SameLength(s, done);
    AssignedIsUnique(true, items, done);
    forall q | 0 <= q < |s|
      ensures s[q].prefix == None
    {
      var i := ComesFrom(true, items, done, s, q);
    }
    SortedClimbs(s, done);
  }

  lemma IntervalIsBlocks(items: seq<Item>, done: seq<Insn>, s: seq<Insn>, start: nat)
    requires GoodPrefixes(items) && OneInterval(items, start)
    requires Assigned(true, Ordered(items), done) && |done| == |items| && SortedPrefixes(s, done)
    ensures Blocks(AsPrefixes(s), start, |Selected(items, true)|)
  {
    hide Selected, Assigned, Ordered, GivenOpcodes, HasOpcode, Unique;
    var a, b := |Selected(items, true)|, |Selected(items, false)|;
    SelectedAll(items);
    PrefixesClimb(items, done, s);
    forall q | 0 <= q < |s|
      ensures start <= s[q].opcode < OPCODES
      ensures if s[q].isPublic then s[q].opcode < start + a else OPCODES - b <= s[q].opcode
    {
      PrefixRange(items, done, s, start, q);
    }
    forall x | start <= x < start + a || OPCODES - b <= x < OPCODES
      ensures HasOpcode(s, x)
    {
      PrefixesHave(items, done, s, start, x);
    }
    FromBelow(s, start, a);
    FromAbove(s, b);
  }

  /** The public prefixes have the given opcodes. */
  lemma BlockIsGiven(items: seq<Item>, done: seq<Insn>, s: seq<Insn>, start: nat, a: nat, x: nat)
    requires Assigned(true, Ordered(items), done) && |done| == |items| && multiset(s) == multiset(done)
    requires Blocks(AsPrefixes(s), start, a) && forall q :: 0 <= q < |items| ==> items[q].prefix == None
    ensures x in GivenOpcodes(items, None) <==> start <= x < start + a
  {
    hide Assigned, Ordered;
    if x in GivenOpcodes(items, None) {
      var k :| 0 <= k < |items| && items[k].opcode == Some(x);
      var q := GoesTo(true, items, done, s, k);
      assert AsPrefixes(s)[q].isPublic;
    }
    if start <= x < start + a {
      var q := x - start;
      assert AsPrefixes(s)[q].isPublic && AsPrefixes(s)[q].opcode == x;
      var k := ComesFrom(true, items, done, s, q);
    }
  }

  /** The numbers of an interval. */
  function Interval(start: nat, a: nat): set<nat> {
    if a == 0 then {} else Interval(start, a - 1) + {start + a - 1}
  }

  lemma {:induction false} IntervalIs(start: nat, a: nat)
    ensures |Interval(start, a)| == a && forall x :: x in Interval(start, a) <==> start <= x < start + a
  {
    if a > 0 {
      IntervalIs(start, a - 1);
    }
  }

  lemma {:induction false} OwnAll(items: seq<Item>, k: nat)
    requires k <= |items| && forall q :: 0 <= q < k ==> items[q].prefix == None
    ensures Own(items, None, k) == k
  {
    if k > 0 {
      OwnAll(items, k - 1);
    }
  }

  lemma GivenSize(items: seq<Item>, done: seq<Insn>)
    requires GoodPrefixes(items) && Assigned(true, Ordered(items), done) && |done| == |items|
    ensures |GivenOpcodes(items, None)| == |Selected(items, true)|
  {
    hide Selected, Assigned, GivenOpcodes, OpcodesOf, Own, PublicFirst, Ordered;
    var a := |Selected(items, true)|;
    GivenFirst(true, items, done, None);
    PublicAreFirst(items);
    OrderedIs(items, None);
    OpcodesCount(true, Ordered(items), done, None, a);
    forall q | 0 <= q < a
      ensures Ordered(items)[q].prefix == None
    {
      NonePrefixed(items, q);
    }
    OwnAll(Ordered(items), a);
  }

  /** The prefixes, assigned and sorted, form the two blocks if and only if the given opcodes are
      one interval with room for the others. */
  lemma PrefixesAreBlocks(items: seq<Item>, done: seq<Insn>, s: seq<Insn>, start: nat)
    requires GoodPrefixes(items) && Assigned(true, Ordered(items), done) && |done| == |items| && SortedPrefixes(s, done)
    ensures (exists a :: Blocks(AsPrefixes(s), start, a)) <==> OneInterval(items, start)
    ensures OneInterval(items, start) ==> Blocks(AsPrefixes(s), start, |Selected(items, true)|)
  {
    hide Selected, Assigned, GivenOpcodes, Ordered, Blocks, SortedPrefixes, GoodPrefixes;
    if OneInterval(items, start) {
      IntervalIsBlocks(items, done, s, start);
    }
    if a :| Blocks(AsPrefixes(s), start, a) {
      BlocksAreInterval(items, done, s, start, a);
    }
  }

  lemma BlocksAreInterval(items: seq<Item>, done: seq<Insn>, s: seq<Insn>, start: nat, a: nat)
    requires GoodPrefixes(items) && Assigned(true, Ordered(items), done) && |done| == |items| && SortedPrefixes(s, done)
    requires Blocks(AsPrefixes(s), start, a)
    ensures OneInterval(items, start)
  {
    hide Selected, Assigned, GivenOpcodes, Ordered, Interval, Climbs;
    PrefixesClimb(items, done, s);
    forall x: nat
      ensures x in GivenOpcodes(items, None) <==> start <= x < start + a
    {
      BlockIsGiven(items, done, s, start, a, x);
    }
    IntervalIs(start, a);
    assert GivenOpcodes(items, None) == Interval(start, a);
    GivenSize(items, done);
  }

  // ----- the table -----

  lemma SortedHas(items: seq<Item>, prefixItems: seq<Item>, done: seq<Insn>, donePrefixes: seq<Insn>, insns: seq<Insn>, s: seq<Insn>)
    requires WellDeclared(items, prefixItems)
    requires Assigned(false, Ordered(items), done) && |done| == |items| && multiset(insns) == multiset(done)
    requires Assigned(true, Ordered(prefixItems), donePrefixes) && |donePrefixes| == |prefixItems| && multiset(s) == multiset(donePrefixes)
    ensures AllKnown(insns, AsPrefixes(s))
  {
    hide Assigned, Ordered, GoodPrefixes, Served;
    var prefixes := AsPrefixes(s);
    forall i | 0 <= i < |insns| && insns[i].prefix.Some?
      ensures Known(prefixes, insns[i].prefix.value)
    {
      var k := ComesFrom(false, items, done, insns, i);
      var r :| 0 <= r < |prefixItems| && prefixItems[r].name == items[k].prefix.value;
      var q := GoesTo(true, prefixItems, donePrefixes, s, r);
      assert prefixes[q].name == insns[i].prefix.value;
    }
  }

  /** No two items of the sorted list have the same name. */
  lemma NamesDiffer(highest: bool, items: seq<Item>, done: seq<Insn>, s: seq<Insn>, p: nat, q: nat)
    requires OtherNames(items) && Assigned(highest, Ordered(items), done) && multiset(s) == multiset(done) && p < q < |s|
    ensures s[p].name != s[q].name
  {
    hide Assigned, Ordered, OtherNames;
    if s[p].name == s[q].name {
      assert s[p] in multiset(done) && s[q] in multiset(done);
      var a :| 0 <= a < |done| && done[a] == s[p];
      var b :| 0 <= b < |done| && done[b] == s[q];
      forall i, j | 0 <= i < j < |done|
        ensures done[i].name != done[j].name
      {
        OrderedNames(highest, items, done, i, j);
      }
      assert a == b;
      Twice(s, p, q);
      OncePresent(done, a);
    }
  }

  lemma {:induction false} SelectedNames(items: seq<Item>, given: bool)
    requires OtherNames(items)
    ensures OtherNames(Selected(items, given))
  {
    if items != [] {
      var init, x := items[..|items| - 1], items[|items| - 1];
      SelectedNames(init, given);
      forall k | 0 <= k < |Selected(init, given)|
        ensures Selected(init, given)[k].name != x.name
      {
        SelectedHas(init, given, Selected(init, given)[k]);
        var i :| 0 <= i < |init| && init[i] == Selected(init, given)[k];
        assert items[i] == init[i];
      }
    }
  }

  lemma OrderedNames(highest: bool, items: seq<Item>, done: seq<Insn>, a: nat, b: nat)
    requires OtherNames(items) && Assigned(highest, Ordered(items), done) && a < b < |done|
    ensures done[a].name != done[b].name
  {
    hide Selected, OpcodeFor;
    var g, h := Selected(items, true), Selected(items, false);
    assert AssignedAt(highest, Ordered(items), done, a) && AssignedAt(highest, Ordered(items), done, b);
    SelectedNames(items, true);
    SelectedNames(items, false);
    if a < |g| <= b {
      var x, y := g[a], h[b - |g|];
      SelectedHas(items, true, x);
      SelectedHas(items, false, y);
      var i :| 0 <= i < |items| && items[i] == x;
      var j :| 0 <= j < |items| && items[j] == y;
      assert i != j;
    }
  }

  /** Instructions sorted by their whole opcode are sorted under each prefix. */
  lemma InsnsIncrease(done: seq<Insn>, insns: seq<Insn>, prefixes: seq<Prefix>, i: nat, j: nat)
    requires Unique(done) && SortedInsns(insns, done, prefixes) && AllKnown(insns, prefixes)
    requires i < j < |insns| && insns[i].prefix == insns[j].prefix
    ensures insns[i].opcode < insns[j].opcode
  {
    UniquePermuted(done, insns);
    assert WholeOpcode(insns[i], prefixes) <= WholeOpcode(insns[j], prefixes);
  }

  /** Everything that is declared ends up where the interpreter looks for it. */
  ghost predicate Complete(insns: seq<Insn>, prefixes: seq<Prefix>)
    requires Usable(insns, prefixes)
  {
    var names := HandlerNames(insns, prefixes);
    && (forall i :: 0 <= i < |insns| && insns[i].prefix == None ==> FindsAt(names, insns[i].opcode, insns[i].name))
    && (forall q :: 0 <= q < |prefixes| ==> FindsAt(names, prefixes[q].opcode, prefixes[q].name))
    && (forall x :: 0 <= x < PRIMARY && IsFree(insns, prefixes, x) ==> FindsAt(names, x, INVALID))
    && (forall i, q :: 0 <= i < |insns| && 0 <= q < |prefixes| && insns[i].prefix == Some(prefixes[q].name) ==>
          FindsAt(names, SecondaryOpcodeOffset(insns, prefixes, q) + insns[i].opcode, insns[i].name))
  }

  /** Neither an instruction nor a prefix has the opcode. */
  predicate IsFree(insns: seq<Insn>, prefixes: seq<Prefix>, x: nat) {
    && (forall i :: 0 <= i < |insns| && insns[i].prefix == None ==> insns[i].opcode != x)
    && (forall q :: 0 <= q < |prefixes| ==> prefixes[q].opcode != x)
  }

  lemma AtItsPlace(insns: seq<Insn>, prefixes: seq<Prefix>, p: Option<string>, n: nat, i: nat)
    requires Sorted(insns, prefixes) && Dense(insns, p, n) && i < |insns| && insns[i].prefix == p
    ensures insns[i].opcode < n == |WithPrefix(insns, p)| && WithPrefix(insns, p)[insns[i].opcode] == insns[i]
  {
    hide WithPrefix, Dense, Sorted;
    DensePlaces(insns, prefixes, p, n);
    WithPrefixIs(insns, p);
    assert insns[i] in WithPrefix(insns, p);
    var k :| 0 <= k < |WithPrefix(insns, p)| && WithPrefix(insns, p)[k] == insns[i];
  }

  lemma InFirstLevel(insns: seq<Insn>, prefixes: seq<Prefix>, x: nat, name: string)
    requires Usable(insns, prefixes) && FindsAt(PrimaryNames(insns, prefixes), x, name)
    ensures FindsAt(HandlerNames(insns, prefixes), x, name)
  {
    hide PrimaryNames, StableSort, PrefixedKeys, Usable;
  }

  /** If the layout is right under every prefix, the table is complete. */
  lemma LaidOutIsComplete(insns: seq<Insn>, prefixes: seq<Prefix>, n: nat, start: nat, a: nat, total: Option<string> -> nat)
    requires LaidOut(insns, prefixes, n, start, a) && forall p :: Dense(insns, p, total(p))
    requires n == total(None)
    ensures Complete(insns, prefixes)
  {
    hide HandlerNames, PrimaryNames, WithPrefix, Dense, Usable, SecondaryOpcodeOffset, IsFree, FindsAt;
    PrimaryPlaces(insns, prefixes, n, start, a);
    UsableIsSorted(insns, prefixes);
    forall i | 0 <= i < |insns| && insns[i].prefix == None
      ensures FindsAt(HandlerNames(insns, prefixes), insns[i].opcode, insns[i].name)
    {
      AtItsPlace(insns, prefixes, None, n, i);
      InFirstLevel(insns, prefixes, insns[i].opcode, insns[i].name);
    }
    forall q | 0 <= q < |prefixes|
      ensures FindsAt(HandlerNames(insns, prefixes), prefixes[q].opcode, prefixes[q].name)
    {
      InFirstLevel(insns, prefixes, prefixes[q].opcode, prefixes[q].name);
    }
    forall x | 0 <= x < PRIMARY && IsFree(insns, prefixes, x)
      ensures FindsAt(HandlerNames(insns, prefixes), x, INVALID)
    {
      FreeIsGap(insns, prefixes, n, start, a, x);
      InFirstLevel(insns, prefixes, x, INVALID);
    }
    forall i, q | 0 <= i < |insns| && 0 <= q < |prefixes| && insns[i].prefix == Some(prefixes[q].name)
      ensures FindsAt(HandlerNames(insns, prefixes), SecondaryOpcodeOffset(insns, prefixes, q) + insns[i].opcode, insns[i].name)
    {
      var p := Some(prefixes[q].name);
      AtItsPlace(insns, prefixes, p, total(p), i);
      SecondLevel(insns, prefixes, n, start, a, q, total(p), insns[i].opcode);
      Finds(HandlerNames(insns, prefixes), SecondaryOpcodeOffset(insns, prefixes, q) + insns[i].opcode);
    }
  }

  lemma UsableIsSorted(insns: seq<Insn>, prefixes: seq<Prefix>)
    requires Usable(insns, prefixes)
    ensures Sorted(insns, prefixes)
  {
  }

  /** An opcode of nobody lies in one of the two gaps. */
  lemma FreeIsGap(insns: seq<Insn>, prefixes: seq<Prefix>, n: nat, start: nat, a: nat, x: nat)
    requires LaidOut(insns, prefixes, n, start, a) && x < PRIMARY && IsFree(insns, prefixes, x)
    ensures n <= x < start || start + a <= x < PRIMARY - |prefixes| + a
  {
    hide Usable, Below, WithPrefix, IsFree, OpcodesOf;
    if x < n {
      InBelow(n, x);
      TakenByInsn(insns, prefixes, x);
    } else if start <= x < start + a {
      TakenByPrefix(insns, prefixes, x - start);
    } else if PRIMARY - |prefixes| + a <= x {
      TakenByPrefix(insns, prefixes, x - (PRIMARY - |prefixes|));
    }
  }

  lemma TakenByInsn(insns: seq<Insn>, prefixes: seq<Prefix>, x: nat)
    requires x in OpcodesOf(insns, None)
    ensures !IsFree(insns, prefixes, x)
  {
  }

  lemma TakenByPrefix(insns: seq<Insn>, prefixes: seq<Prefix>, q: nat)
    requires q < |prefixes|
    ensures !IsFree(insns, prefixes, prefixes[q].opcode)
  {
  }

  lemma IsSorted(prefixItems: seq<Item>, done: seq<Insn>, donePrefixes: seq<Insn>, insns: seq<Insn>, s: seq<Insn>)
    requires OtherNames(prefixItems) && Unique(done) && SortedInsns(insns, done, AsPrefixes(s)) && AllKnown(insns, AsPrefixes(s)) && Climbs(s)
    requires Assigned(true, Ordered(prefixItems), donePrefixes) && multiset(s) == multiset(donePrefixes)
    ensures Sorted(insns, AsPrefixes(s))
  {
    hide Assigned, Ordered, Unique, WholeOpcode, AllKnown;
    var prefixes := AsPrefixes(s);
    forall p, q | 0 <= p < q < |prefixes|
      ensures prefixes[p].opcode < prefixes[q].opcode && prefixes[p].name != prefixes[q].name
    {
      NamesDiffer(true, prefixItems, donePrefixes, s, p, q);
    }
    forall i, j | 0 <= i < j < |insns| && insns[i].prefix == insns[j].prefix
      ensures insns[i].opcode < insns[j].opcode
    {
      InsnsIncrease(done, insns, prefixes, i, j);
    }
  }

  lemma IsUsable(insns: seq<Insn>, prefixes: seq<Prefix>, i: nat, q: nat)
    requires Sorted(insns, prefixes) && i < |insns| && insns[i].prefix == None && q < |prefixes| && prefixes[q].isPublic
    ensures Usable(insns, prefixes)
  {
    hide WithPrefix, Sorted, PrefixesWhere;
    WithPrefixIs(insns, None);
    assert insns[i] in WithPrefix(insns, None);
    PrefixesWhereHas(prefixes, true, prefixes[q]);
    assert prefixes[q] in PrefixesWhere(prefixes, true);
  }

  /** A table can be made from what is well declared. */
  lemma TableIsUsable(items: seq<Item>, prefixItems: seq<Item>, done: seq<Insn>, donePrefixes: seq<Insn>, insns: seq<Insn>, s: seq<Insn>)
    requires WellDeclared(items, prefixItems)
    requires Assigned(false, Ordered(items), done) && |done| == |items|
    requires Assigned(true, Ordered(prefixItems), donePrefixes) && |donePrefixes| == |prefixItems|
    requires SortedPrefixes(s, donePrefixes) && SortedInsns(insns, done, AsPrefixes(s))
    ensures Usable(insns, AsPrefixes(s))
  {
    hide Assigned, Ordered, Usable, Unique, WholeOpcode, Sorted, Climbs, Selected, AllKnown;
    SortedHas(items, prefixItems, done, donePrefixes, insns, s);
    PrefixesClimb(prefixItems, donePrefixes, s);
    AssignedIsUnique(false, items, done);
    IsSorted(prefixItems, done, donePrefixes, insns, s);
    var k :| 0 <= k < |items| && items[k].prefix == None;
    var i := GoesTo(false, items, done, insns, k);
    var x := Selected(prefixItems, true)[0];
    SelectedHas(prefixItems, true, x);
    var r :| 0 <= r < |prefixItems| && prefixItems[r] == x;
    var q := GoesTo(true, prefixItems, donePrefixes, s, r);
    IsUsable(insns, AsPrefixes(s), i, q);
  }

  /** Instructions whose given opcodes leave no gap that is not filled, and prefixes whose given
      opcodes are one interval behind the instructions without a prefix: however opcode ties are
      sorted, the table has every handler in its place. */
  lemma TableOfDeclarations(items: seq<Item>, prefixItems: seq<Item>, start: nat,
                            done: seq<Insn>, donePrefixes: seq<Insn>, insns: seq<Insn>, s: seq<Insn>)
    requires WellDeclared(items, prefixItems) && NoGaps(items, prefixItems, start)
    requires Assigned(false, Ordered(items), done) && |done| == |items|
    requires Assigned(true, Ordered(prefixItems), donePrefixes) && |donePrefixes| == |prefixItems|
    requires SortedPrefixes(s, donePrefixes) && SortedInsns(insns, done, AsPrefixes(s))
    ensures Usable(insns, AsPrefixes(s)) && Complete(insns, AsPrefixes(s))
  {
    hide Assigned, Ordered, Total, Usable, Complete, Dense, WholeOpcode, Blocks, Selected, GapsFilled, OneInterval, GoodPrefixes, Served, OpcodesOf;
    TableIsUsable(items, prefixItems, done, donePrefixes, insns, s);
    PrefixesAreBlocks(prefixItems, donePrefixes, s, start);
    forall p
      ensures Dense(insns, p, Total(items, p))
    {
      InsnsAreDense(items, done, insns, p);
    }
    LaidOutIsComplete(insns, AsPrefixes(s), Total(items, None), start, |Selected(prefixItems, true)|, p => Total(items, p));
  }
}

/** The dispatch table: DispatchTable in isa/isapi.rb. */
module DispatchTables {
  import opened Options
  import opened OpcodeAssignment

  datatype Prefix = Prefix(name: string, opcode: nat, isPublic: bool)

  // ----- a stable sort -----

  /** An instruction with the opcode of its prefix, by which it is sorted. */
  datatype Keyed = Keyed(key: nat, insn: Insn)

  /** x goes behind everything that is not greater. */
  function Insert(s: seq<Keyed>, x: Keyed): seq<Keyed> {
    if s == [] || s[|s| - 1].key <= x.key then s + [x]
    else Insert(s[..|s| - 1], x) + [s[|s| - 1]]
  }

  /** stable_sort_by. */
  function StableSort(s: seq<Keyed>): seq<Keyed> {
    if s == [] then [] else Insert(StableSort(s[..|s| - 1]), s[|s| - 1])
  }

  function Less(s: seq<Keyed>, k: nat): (n: nat) {
    if s == [] then 0 else Less(s[..|s| - 1], k) + (if s[|s| - 1].key < k then 1 else 0)
  }

  function Equal(s: seq<Keyed>, k: nat): seq<Keyed> {
    if s == [] then [] else Equal(s[..|s| - 1], k) + (if s[|s| - 1].key == k then [s[|s| - 1]] else [])
  }

  predicate KeysSorted(s: seq<Keyed>) { forall i, j :: 0 <= i < j < |s| ==> s[i].key <= s[j].key }

  lemma LessAppend(s: seq<Keyed>, x: Keyed, k: nat)
    ensures Less(s + [x], k) == Less(s, k) + (if x.key < k then 1 else 0)
    ensures Equal(s + [x], k) == Equal(s, k) + (if x.key == k then [x] else [])
  {
    assert (s + [x])[..|s|] == s;
  }

  lemma {:induction false} InsertSorted(s: seq<Keyed>, x: Keyed, bound: nat)
    requires KeysSorted(s) && x.key <= bound && forall i :: 0 <= i < |s| ==> s[i].key <= bound
    ensures KeysSorted(Insert(s, x)) && |Insert(s, x)| == |s| + 1
    ensures forall i :: 0 <= i < |Insert(s, x)| ==> Insert(s, x)[i].key <= bound
  {
    if s != [] && s[|s| - 1].key > x.key {
      InsertSorted(s[..|s| - 1], x, s[|s| - 1].key);
    }
  }

  lemma {:induction false} InsertCounts(s: seq<Keyed>, x: Keyed, k: nat)
    requires KeysSorted(s)
    ensures Less(Insert(s, x), k) == Less(s, k) + (if x.key < k then 1 else 0)
    ensures Equal(Insert(s, x), k) == Equal(s, k) + (if x.key == k then [x] else [])
  {
    hide Less, Equal;
    if s == [] || s[|s| - 1].key <= x.key {
      LessAppend(s, x, k);
    } else {
      var init, y := s[..|s| - 1], s[|s| - 1];
      InsertCounts(init, x, k);
      LessAppend(Insert(init, x), y, k);
      LessAppend(init, y, k);
      assert s == init + [y];
    }
  }

  function Greatest(s: seq<Keyed>): (b: nat)
    ensures forall i :: 0 <= i < |s| ==> s[i].key <= b
  {
    if s == [] then 0
    else
      var b := Greatest(s[..|s| - 1]);
      if b < s[|s| - 1].key then s[|s| - 1].key else b
  }

  lemma EmptyIsSorted()
    ensures KeysSorted([])
  {
  }

  lemma {:induction false} SortKeeps(s: seq<Keyed>, k: nat)
    ensures KeysSorted(StableSort(s)) && |StableSort(s)| == |s|
    ensures Less(StableSort(s), k) == Less(s, k) && Equal(StableSort(s), k) == Equal(s, k)
  {
    hide Insert, KeysSorted;
    if s == [] {
      EmptyIsSorted();
    } else {
      var init, x := s[..|s| - 1], s[|s| - 1];
      SortKeeps(init, k);
      var t := StableSort(init);
      var b := Greatest(t);
      InsertSorted(t, x, if b < x.key then x.key else b);
      InsertCounts(t, x, k);
    }
  }

  lemma {:induction false} NoneGreater(s: seq<Keyed>, k: nat)
    requires forall i :: 0 <= i < |s| ==> s[i].key <= k
    ensures Less(s, k) + |Equal(s, k)| == |s|
  {
    if s != [] {
      NoneGreater(s[..|s| - 1], k);
    }
  }

  lemma {:induction false} NoneEqual(s: seq<Keyed>, k: nat)
    requires forall i :: 0 <= i < |s| ==> s[i].key < k
    ensures Equal(s, k) == []
  {
    if s != [] {
      NoneEqual(s[..|s| - 1], k);
    }
  }

  /** In sorted order those with one key stand together, behind the smaller ones. */
  lemma {:induction false} EqualTogether(s: seq<Keyed>, k: nat, i: nat)
    requires KeysSorted(s) && i < |Equal(s, k)|
    ensures Less(s, k) + i < |s| && s[Less(s, k) + i] == Equal(s, k)[i]
  {
    var init, y := s[..|s| - 1], s[|s| - 1];
    if y.key < k {
      NoneEqual(s, k);
    } else if y.key == k && i == |Equal(s, k)| - 1 {
      NoneGreater(init, k);
    } else {
      EqualTogether(init, k, i);
    }
  }

  // ----- what the table is made from -----

  function WithPrefix(insns: seq<Insn>, p: Option<string>): seq<Insn> {
    if insns == [] then []
    else WithPrefix(insns[..|insns| - 1], p) + (if insns[|insns| - 1].prefix == p then [insns[|insns| - 1]] else [])
  }

  predicate Known(prefixes: seq<Prefix>, name: string) {
    exists q :: 0 <= q < |prefixes| && prefixes[q].name == name
  }

  /** prefixes_hash: the place of a prefix. */
  function PlaceOf(prefixes: seq<Prefix>, name: string): (q: nat)
    requires Known(prefixes, name)
    ensures q < |prefixes| && prefixes[q].name == name
  {
    var n := |prefixes| - 1;
    if prefixes[n].name == name then n
    else
      var q :| 0 <= q < |prefixes| && prefixes[q].name == name;
      assert prefixes[..n][q].name == name;
      PlaceOf(prefixes[..n], name)
  }

  /** Prefixes sorted by opcode, with names of their own; instructions sorted by their whole
      opcode, so that those of one prefix come in the order of their secondary opcodes. */
  predicate Sorted(insns: seq<Insn>, prefixes: seq<Prefix>) {
    && (forall p, q :: 0 <= p < q < |prefixes| ==> prefixes[p].opcode < prefixes[q].opcode && prefixes[p].name != prefixes[q].name)
    && (forall i, j :: 0 <= i < j < |insns| && insns[i].prefix == insns[j].prefix ==> insns[i].opcode < insns[j].opcode)
    && AllKnown(insns, prefixes)
  }

  predicate AllKnown(insns: seq<Insn>, prefixes: seq<Prefix>) {
    forall i :: 0 <= i < |insns| && insns[i].prefix.Some? ==> Known(prefixes, insns[i].prefix.value)
  }

  /** The instructions that have a prefix, with its opcode. */
  function PrefixedKeys(insns: seq<Insn>, prefixes: seq<Prefix>): seq<Keyed>
    requires AllKnown(insns, prefixes)
  {
    if insns == [] then []
    else
      var init, x := insns[..|insns| - 1], insns[|insns| - 1];
      if x.prefix.None? then PrefixedKeys(init, prefixes)
      else PrefixedKeys(init, prefixes) + [Keyed(prefixes[PlaceOf(prefixes, x.prefix.value)].opcode, x)]
  }

  /** prefix_data: how many instructions the prefixes before q have. */
  function Delta(insns: seq<Insn>, prefixes: seq<Prefix>, q: nat): nat
    requires q <= |prefixes|
  {
    if q == 0 then 0 else Delta(insns, prefixes, q - 1) + |WithPrefix(insns, Some(prefixes[q - 1].name))|
  }

  const PRIMARY := 256

  function SecondaryOpcodeOffset(insns: seq<Insn>, prefixes: seq<Prefix>, q: nat): nat
    requires q < |prefixes|
  {
    PRIMARY + Delta(insns, prefixes, q)
  }

  // ----- the second level -----

  lemma PlaceIsUnique(prefixes: seq<Prefix>, name: string, q: nat)
    requires q < |prefixes| && prefixes[q].name == name
    requires forall p, r :: 0 <= p < r < |prefixes| ==> prefixes[p].name != prefixes[r].name
    ensures Known(prefixes, name) && PlaceOf(prefixes, name) == q
  {
  }

  /** One more instruction shifts the blocks behind its own. */
  lemma {:induction false} DeltaAppend(insns: seq<Insn>, prefixes: seq<Prefix>, q: nat, x: Insn)
    requires q <= |prefixes| && (x.prefix.Some? ==> Known(prefixes, x.prefix.value))
    requires forall p, r :: 0 <= p < r < |prefixes| ==> prefixes[p].name != prefixes[r].name
    ensures Delta(insns + [x], prefixes, q) ==
            Delta(insns, prefixes, q) + (if x.prefix.Some? && PlaceOf(prefixes, x.prefix.value) < q then 1 else 0)
  {
    if q > 0 {
      DeltaAppend(insns, prefixes, q - 1, x);
      assert (insns + [x])[..|insns|] == insns;
      if x.prefix == Some(prefixes[q - 1].name) {
        PlaceIsUnique(prefixes, prefixes[q - 1].name, q - 1);
      }
    }
  }

  /** The offset of a prefix counts the instructions whose prefix comes before it; those of the
      prefix itself are found under its key. */
  lemma {:induction false} KeysOfPrefix(insns: seq<Insn>, prefixes: seq<Prefix>, q: nat)
    requires AllKnown(insns, prefixes) && q < |prefixes|
    requires forall p, r :: 0 <= p < r < |prefixes| ==> prefixes[p].opcode < prefixes[r].opcode && prefixes[p].name != prefixes[r].name
    ensures var keys, k, own := PrefixedKeys(insns, prefixes), prefixes[q].opcode, WithPrefix(insns, Some(prefixes[q].name));
            && Less(keys, k) == Delta(insns, prefixes, q)
            && |Equal(keys, k)| == |own|
            && forall i :: 0 <= i < |own| ==> Equal(keys, k)[i].insn == own[i]
  {
    if insns == [] {
      NoInstructions(prefixes, q);
    } else {
      var init, x := insns[..|insns| - 1], insns[|insns| - 1];
      KeysOfPrefix(init, prefixes, q);
      DeltaAppend(init, prefixes, q, x);
      assert insns == init + [x];
      hide Delta, Less, Equal;
      if x.prefix.Some? {
        var p := PlaceOf(prefixes, x.prefix.value);
        LessAppend(PrefixedKeys(init, prefixes), Keyed(prefixes[p].opcode, x), prefixes[q].opcode);
        PlaceIsUnique(prefixes, prefixes[q].name, q);
      }
    }
  }

  lemma {:induction false} NoInstructions(prefixes: seq<Prefix>, q: nat)
    requires q <= |prefixes|
    ensures Delta([], prefixes, q) == 0
  {
    if q > 0 {
      NoInstructions(prefixes, q - 1);
    }
  }

  // ----- the table -----

  const INVALID := "INVALID"

  function Names(insns: seq<Insn>): (res: seq<string>)
    ensures |res| == |insns| && forall i :: 0 <= i < |insns| ==> res[i] == insns[i].name
  {
    seq(|insns|, i requires 0 <= i < |insns| => insns[i].name)
  }

  function PrefixNames(prefixes: seq<Prefix>): (res: seq<string>)
    ensures |res| == |prefixes| && forall i :: 0 <= i < |prefixes| ==> res[i] == prefixes[i].name
  {
    seq(|prefixes|, i requires 0 <= i < |prefixes| => prefixes[i].name)
  }

  function SortedNames(keys: seq<Keyed>): (res: seq<string>)
    ensures |res| == |keys| && forall i :: 0 <= i < |keys| ==> res[i] == keys[i].insn.name
  {
    seq(|keys|, i requires 0 <= i < |keys| => keys[i].insn.name)
  }

  function Invalids(n: nat): (res: seq<string>)
    ensures |res| == n && forall i :: 0 <= i < n ==> res[i] == INVALID
  {
    seq(n, i => INVALID)
  }

  function PrefixesWhere(prefixes: seq<Prefix>, isPublic: bool): seq<Prefix> {
    if prefixes == [] then []
    else
      PrefixesWhere(prefixes[..|prefixes| - 1], isPublic) +
      (if prefixes[|prefixes| - 1].isPublic == isPublic then [prefixes[|prefixes| - 1]] else [])
  }

  function MaxOpcode(insns: seq<Insn>): (m: nat)
    requires insns != []
    ensures (exists i :: 0 <= i < |insns| && insns[i].opcode == m) && forall i :: 0 <= i < |insns| ==> insns[i].opcode <= m
  {
    var n := |insns| - 1;
    if n == 0 then insns[0].opcode
    else
      var m := MaxOpcode(insns[..n]);
      if m < insns[n].opcode then insns[n].opcode else m
  }

  function MaxPrefix(prefixes: seq<Prefix>): (m: nat)
    requires prefixes != []
    ensures (exists i :: 0 <= i < |prefixes| && prefixes[i].opcode == m) && forall i :: 0 <= i < |prefixes| ==> prefixes[i].opcode <= m
  {
    var n := |prefixes| - 1;
    if n == 0 then prefixes[0].opcode
    else
      var m := MaxPrefix(prefixes[..n]);
      if m < prefixes[n].opcode then prefixes[n].opcode else m
  }

  function MinPrefix(prefixes: seq<Prefix>): (m: nat)
    requires prefixes != []
    ensures (exists i :: 0 <= i < |prefixes| && prefixes[i].opcode == m) && forall i :: 0 <= i < |prefixes| ==> m <= prefixes[i].opcode
  {
    var n := |prefixes| - 1;
    if n == 0 then prefixes[0].opcode
    else
      var m := MinPrefix(prefixes[..n]);
      if prefixes[n].opcode < m then prefixes[n].opcode else m
  }

  /** How many opcodes a Ruby range holds. */
  function IntervalSize(lo: int, hi: int): nat { if hi < lo then 0 else hi - lo + 1 }

  function InvalidNonPrefixed(insns: seq<Insn>, prefixes: seq<Prefix>): nat
    requires WithPrefix(insns, None) != [] && prefixes != []
  {
    IntervalSize(MaxOpcode(WithPrefix(insns, None)) + 1, MinPrefix(prefixes) - 1)
  }

  function InvalidPrefixes(prefixes: seq<Prefix>): nat
    requires PrefixesWhere(prefixes, true) != []
  {
    var others := PrefixesWhere(prefixes, false);
    IntervalSize(MaxPrefix(PrefixesWhere(prefixes, true)) + 1, (if others == [] then PRIMARY else MinPrefix(others)) - 1)
  }

  /** What the table needs: some instruction without a prefix, and some public prefix. */
  predicate Usable(insns: seq<Insn>, prefixes: seq<Prefix>) {
    Sorted(insns, prefixes) && WithPrefix(insns, None) != [] && prefixes != [] && PrefixesWhere(prefixes, true) != []
  }

  /** The first 256 places. */
  function PrimaryNames(insns: seq<Insn>, prefixes: seq<Prefix>): seq<string>
    requires Usable(insns, prefixes)
  {
    Names(WithPrefix(insns, None)) + Invalids(InvalidNonPrefixed(insns, prefixes)) +
    PrefixNames(PrefixesWhere(prefixes, true)) + Invalids(InvalidPrefixes(prefixes)) + PrefixNames(PrefixesWhere(prefixes, false))
  }

  function HandlerNames(insns: seq<Insn>, prefixes: seq<Prefix>): seq<string>
    requires Usable(insns, prefixes)
  {
    PrimaryNames(insns, prefixes) + SortedNames(StableSort(PrefixedKeys(insns, prefixes)))
  }

  // ----- when the table is right -----

  /** The opcodes of a prefix are the first n. */
  predicate Dense(insns: seq<Insn>, p: Option<string>, n: nat) { OpcodesOf(insns, p) == Below(n) }

  /** The first a prefixes are public, in one block from start on; the others, if any, in one
      block up to 255. */
  predicate Blocks(prefixes: seq<Prefix>, start: nat, a: nat) {
    && 0 < a <= |prefixes| && start + |prefixes| <= PRIMARY
    && (forall q :: 0 <= q < a ==> prefixes[q].isPublic && prefixes[q].opcode == start + q)
    && (forall q :: a <= q < |prefixes| ==> !prefixes[q].isPublic && prefixes[q].opcode == PRIMARY - |prefixes| + q)
  }

  lemma {:induction false} WithPrefixIs(insns: seq<Insn>, p: Option<string>)
    ensures var own := WithPrefix(insns, p);
            && (forall k :: 0 <= k < |own| ==> own[k].prefix == p && own[k] in insns)
            && (forall x :: x in insns && x.prefix == p ==> x in own)
  {
    if insns != [] {
      var init, x := insns[..|insns| - 1], insns[|insns| - 1];
      WithPrefixIs(init, p);
      assert insns == init + [x];
      forall k | 0 <= k < |WithPrefix(insns, p)|
        ensures WithPrefix(insns, p)[k].prefix == p && WithPrefix(insns, p)[k] in insns
      {
        assert k < |WithPrefix(init, p)| ==> WithPrefix(insns, p)[k] == WithPrefix(init, p)[k];
      }
    }
  }

  predicate Increasing(s: seq<Insn>) { forall i, j :: 0 <= i < j < |s| ==> s[i].opcode < s[j].opcode }

  lemma {:induction false} WithPrefixIncreases(insns: seq<Insn>, p: Option<string>)
    requires forall i, j :: 0 <= i < j < |insns| && insns[i].prefix == insns[j].prefix ==> insns[i].opcode < insns[j].opcode
    ensures Increasing(WithPrefix(insns, p))
  {
    if insns != [] {
      var init, x := insns[..|insns| - 1], insns[|insns| - 1];
      WithPrefixIncreases(init, p);
      WithPrefixIs(init, p);
      hide WithPrefix;
      forall k | 0 <= k < |WithPrefix(init, p)| && x.prefix == p
        ensures WithPrefix(init, p)[k].opcode < x.opcode
      {
        var i :| 0 <= i < |init| && init[i] == WithPrefix(init, p)[k];
        assert insns[i] == init[i];
      }
    }
  }

  /** Increasing opcodes that are the first n are 0, 1, 2 and so on. */
  lemma {:induction false} DenseCounts(s: seq<Insn>, n: nat, i: nat)
    requires Increasing(s) && i <= |s|
    requires forall j :: 0 <= j < |s| ==> s[j].opcode < n
    requires forall x: nat :: x < n ==> HasOpcode(s, x)
    ensures i <= n && forall j :: 0 <= j < i ==> s[j].opcode == j
  {
    if i > 0 {
      DenseCounts(s, n, i - 1);
      assert i > 1 ==> s[i - 2].opcode < s[i - 1].opcode;
      assert HasOpcode(s, i - 1);
      var k :| 0 <= k < |s| && s[k].opcode == i - 1;
    }
  }

  predicate HasOpcode(s: seq<Insn>, x: nat) { exists k :: 0 <= k < |s| && s[k].opcode == x }

  lemma OwnBelow(insns: seq<Insn>, p: Option<string>, n: nat, j: nat)
    requires Dense(insns, p, n) && j < |WithPrefix(insns, p)|
    ensures WithPrefix(insns, p)[j].opcode < n
  {
    hide WithPrefix, Below;
    WithPrefixIs(insns, p);
    var x := WithPrefix(insns, p)[j];
    assert x in insns;
    var i :| 0 <= i < |insns| && insns[i] == x;
    assert x.opcode in OpcodesOf(insns, p);
    InBelow(n, x.opcode);
  }

  lemma OwnHas(insns: seq<Insn>, p: Option<string>, n: nat, x: nat)
    requires Dense(insns, p, n) && x < n
    ensures HasOpcode(WithPrefix(insns, p), x)
  {
    hide WithPrefix, Below;
    WithPrefixIs(insns, p);
    InBelow(n, x);
    var i :| 0 <= i < |insns| && insns[i].prefix == p && insns[i].opcode == x;
    assert insns[i] in WithPrefix(insns, p);
    var k :| 0 <= k < |WithPrefix(insns, p)| && WithPrefix(insns, p)[k] == insns[i];
  }

  /** The instruction with secondary opcode x of a dense prefix is the one at place x. */
  lemma DensePlaces(insns: seq<Insn>, prefixes: seq<Prefix>, p: Option<string>, n: nat)
    requires Sorted(insns, prefixes) && Dense(insns, p, n)
    ensures var own := WithPrefix(insns, p); |own| == n && forall j :: 0 <= j < n ==> own[j].opcode == j
  {
    hide WithPrefix, Dense, HasOpcode, Increasing;
    var own := WithPrefix(insns, p);
    WithPrefixIncreases(insns, p);
    forall j | 0 <= j < |own|
      ensures own[j].opcode < n
    {
      OwnBelow(insns, p, n, j);
    }
    forall x: nat | x < n
      ensures HasOpcode(own, x)
    {
      OwnHas(insns, p, n, x);
    }
    DenseCounts(own, n, |own|);
    if n > 0 {
      LastOpcode(own, n - 1);
    }
  }

  lemma LastOpcode(s: seq<Insn>, x: nat)
    requires HasOpcode(s, x) && forall j :: 0 <= j < |s| ==> s[j].opcode == j
    ensures x < |s|
  {
  }

  /** Second level: the handler of secondary opcode x under prefix q is at its offset plus x. */
  lemma SecondLevel(insns: seq<Insn>, prefixes: seq<Prefix>, m: nat, start: nat, a: nat, q: nat, n: nat, x: nat)
    requires LaidOut(insns, prefixes, m, start, a)
    requires q < |prefixes| && Dense(insns, Some(prefixes[q].name), n) && x < n
    ensures |WithPrefix(insns, Some(prefixes[q].name))| == n && WithPrefix(insns, Some(prefixes[q].name))[x].opcode == x
    ensures SecondaryOpcodeOffset(insns, prefixes, q) + x < |HandlerNames(insns, prefixes)|
    ensures HandlerNames(insns, prefixes)[SecondaryOpcodeOffset(insns, prefixes, q) + x] == WithPrefix(insns, Some(prefixes[q].name))[x].name
  {
    hide WithPrefix, StableSort, PrefixedKeys, Delta, Dense, PrimaryNames, Less, Equal;
    PrimaryPlaces(insns, prefixes, m, start, a);
    DensePlaces(insns, prefixes, Some(prefixes[q].name), n);
    KeysOfPrefix(insns, prefixes, q);
    var keys, k := PrefixedKeys(insns, prefixes), prefixes[q].opcode;
    SortKeeps(keys, k);
    EqualTogether(StableSort(keys), k, x);
  }

  lemma {:induction false} PrefixesWhereHas(prefixes: seq<Prefix>, isPublic: bool, x: Prefix)
    ensures x in PrefixesWhere(prefixes, isPublic) <==> x in prefixes && x.isPublic == isPublic
  {
    if prefixes != [] {
      PrefixesWhereHas(prefixes[..|prefixes| - 1], isPublic, x);
      assert prefixes == prefixes[..|prefixes| - 1] + [prefixes[|prefixes| - 1]];
    }
  }

  lemma {:induction false} SelectedBlock(prefixes: seq<Prefix>, a: nat)
    requires a <= |prefixes|
    requires (forall q :: 0 <= q < a ==> prefixes[q].isPublic) && (forall q :: a <= q < |prefixes| ==> !prefixes[q].isPublic)
    ensures PrefixesWhere(prefixes, true) == prefixes[..a] && PrefixesWhere(prefixes, false) == prefixes[a..]
  {
    if prefixes != [] {
      var n := |prefixes| - 1;
      var init := prefixes[..n];
      if a <= n {
        SelectedBlock(init, a);
        assert init[..a] == prefixes[..a] && init[a..] + [prefixes[n]] == prefixes[a..];
      } else {
        SelectedBlock(init, n);
        assert init[..n] + [prefixes[n]] == prefixes[..a] && init[n..] == [] == prefixes[a..];
      }
    }
  }

  lemma PrefixExtremes(prefixes: seq<Prefix>, start: nat, a: nat)
    requires Blocks(prefixes, start, a)
    ensures MinPrefix(prefixes) == start && MaxPrefix(prefixes[..a]) == start + a - 1
    ensures a < |prefixes| ==> MinPrefix(prefixes[a..]) == PRIMARY - |prefixes| + a
  {
    hide MinPrefix, MaxPrefix;
    LeastIs(prefixes, 0);
    GreatestIs(prefixes[..a], a - 1);
    if a < |prefixes| {
      LeastIs(prefixes[a..], 0);
    }
  }

  lemma LeastIs(prefixes: seq<Prefix>, q: nat)
    requires q < |prefixes| && forall r :: 0 <= r < |prefixes| ==> prefixes[q].opcode <= prefixes[r].opcode
    ensures MinPrefix(prefixes) == prefixes[q].opcode
  {
    hide MinPrefix;
  }

  lemma GreatestIs(prefixes: seq<Prefix>, q: nat)
    requires q < |prefixes| && forall r :: 0 <= r < |prefixes| ==> prefixes[r].opcode <= prefixes[q].opcode
    ensures MaxPrefix(prefixes) == prefixes[q].opcode
  {
    hide MaxPrefix;
  }

  /** The two gaps have just the right size. */
  lemma GapSizes(insns: seq<Insn>, prefixes: seq<Prefix>, n: nat, start: nat, a: nat)
    requires Usable(insns, prefixes) && Dense(insns, None, n) && Blocks(prefixes, start, a) && n <= start
    ensures |WithPrefix(insns, None)| == n && n + InvalidNonPrefixed(insns, prefixes) == start
    ensures start + a + InvalidPrefixes(prefixes) + (|prefixes| - a) == PRIMARY
    ensures PrefixesWhere(prefixes, true) == prefixes[..a] && PrefixesWhere(prefixes, false) == prefixes[a..]
  {
    hide WithPrefix, PrefixesWhere, Dense, Sorted, MinPrefix, MaxPrefix;
    DensePlaces(insns, prefixes, None, n);
    SelectedBlock(prefixes, a);
    PrefixExtremes(prefixes, start, a);
    var own := WithPrefix(insns, None);
    assert own[n - 1].opcode == n - 1;
    assert MaxOpcode(own) == n - 1;
  }

  /** A table that is laid out as it should be. */
  ghost predicate LaidOut(insns: seq<Insn>, prefixes: seq<Prefix>, n: nat, start: nat, a: nat) {
    Usable(insns, prefixes) && Dense(insns, None, n) && Blocks(prefixes, start, a) && n <= start
  }

  /** The first level has 256 places: instructions, a gap, public prefixes, a gap, other prefixes. */
  lemma PrimaryIs(insns: seq<Insn>, prefixes: seq<Prefix>, n: nat, start: nat, a: nat)
    requires LaidOut(insns, prefixes, n, start, a)
    ensures |WithPrefix(insns, None)| == n
    ensures PrimaryNames(insns, prefixes) ==
            Names(WithPrefix(insns, None)) + Invalids(start - n) + PrefixNames(prefixes[..a]) +
            Invalids(PRIMARY - start - |prefixes|) + PrefixNames(prefixes[a..])
  {
    hide WithPrefix, PrefixesWhere, Dense, InvalidNonPrefixed, InvalidPrefixes, Names, PrefixNames, Invalids, Blocks, Sorted;
    GapSizes(insns, prefixes, n, start, a);
  }

  ghost predicate FindsAt(names: seq<string>, x: nat, name: string) { x < |names| && names[x] == name }

  lemma Concatenated(s: seq<string>, t: seq<string>, u: seq<string>, v: seq<string>, w: seq<string>, x: nat, name: string)
    ensures FindsAt(s, x, name) ==> FindsAt(s + t + u + v + w, x, name)
    ensures FindsAt(t, x, name) ==> FindsAt(s + t + u + v + w, |s| + x, name)
    ensures FindsAt(u, x, name) ==> FindsAt(s + t + u + v + w, |s| + |t| + x, name)
    ensures FindsAt(v, x, name) ==> FindsAt(s + t + u + v + w, |s| + |t| + |u| + x, name)
    ensures FindsAt(w, x, name) ==> FindsAt(s + t + u + v + w, |s| + |t| + |u| + |v| + x, name)
  {
  }

  /** The handler that opcode x should find on the first level. */
  ghost predicate IsHandler(insns: seq<Insn>, prefixes: seq<Prefix>, n: nat, x: nat, name: string) {
    || (exists i :: 0 <= i < |insns| && insns[i] == Insn(name, None, x, insns[i].isPublic))
    || (exists q :: 0 <= q < |prefixes| && prefixes[q] == Prefix(name, x, prefixes[q].isPublic))
    || (name == INVALID && n <= x && forall q :: 0 <= q < |prefixes| ==> prefixes[q].opcode != x)
  }

  /** The places of the first level, block by block. */
  lemma PrimaryPlaces(insns: seq<Insn>, prefixes: seq<Prefix>, n: nat, start: nat, a: nat)
    requires LaidOut(insns, prefixes, n, start, a)
    ensures var names, own := PrimaryNames(insns, prefixes), WithPrefix(insns, None);
            && |names| == PRIMARY && |own| == n
            && (forall x :: 0 <= x < n ==> FindsAt(names, x, own[x].name))
            && (forall q :: 0 <= q < |prefixes| ==> FindsAt(names, prefixes[q].opcode, prefixes[q].name))
            && (forall x :: n <= x < start || start + a <= x < PRIMARY - |prefixes| + a ==> FindsAt(names, x, INVALID))
  {
    hide WithPrefix, Dense, Sorted, PrimaryNames, PrefixesWhere, Names, PrefixNames, Invalids;
    PrimaryIs(insns, prefixes, n, start, a);
    var own := WithPrefix(insns, None);
    var s, t, u, v, w := Names(own), Invalids(start - n), PrefixNames(prefixes[..a]), Invalids(PRIMARY - start - |prefixes|), PrefixNames(prefixes[a..]);
    hide FindsAt;
    forall x | 0 <= x < n
      ensures FindsAt(s + t + u + v + w, x, own[x].name)
    {
      Concatenated(s, t, u, v, w, x, own[x].name);
      Finds(s, x);
    }
    forall q | 0 <= q < |prefixes|
      ensures FindsAt(s + t + u + v + w, prefixes[q].opcode, prefixes[q].name)
    {
      if q < a {
        Concatenated(s, t, u, v, w, q, prefixes[q].name);
        Finds(u, q);
      } else {
        Concatenated(s, t, u, v, w, q - a, prefixes[q].name);
        Finds(w, q - a);
      }
    }
    forall x | n <= x < start || start + a <= x < PRIMARY - |prefixes| + a
      ensures FindsAt(s + t + u + v + w, x, INVALID)
    {
      if x < start {
        Concatenated(s, t, u, v, w, x - n, INVALID);
        Finds(t, x - n);
      } else {
        Concatenated(s, t, u, v, w, x - start - a, INVALID);
        Finds(v, x - start - a);
      }
    }
  }

  lemma Finds(names: seq<string>, x: nat)
    requires x < |names|
    ensures FindsAt(names, x, names[x])
  {
  }

  /** First level: every opcode below 256 finds the handler of its instruction or of its prefix,
      and INVALID if it has neither. */
  lemma FirstLevel(insns: seq<Insn>, prefixes: seq<Prefix>, n: nat, start: nat, a: nat, x: nat)
    requires LaidOut(insns, prefixes, n, start, a) && x < PRIMARY
    ensures |PrimaryNames(insns, prefixes)| == PRIMARY
    ensures IsHandler(insns, prefixes, n, x, HandlerNames(insns, prefixes)[x])
  {
    hide WithPrefix, Dense, StableSort, PrefixedKeys, Sorted, PrimaryNames, PrefixesWhere, IsHandler;
    PrimaryPlaces(insns, prefixes, n, start, a);
    if x < n {
      FindsInstruction(insns, prefixes, n, x);
    } else if start <= x < start + a {
      FindsPrefix(insns, prefixes, n, x - start);
    } else if PRIMARY - (|prefixes| - a) <= x {
      FindsPrefix(insns, prefixes, n, x - (PRIMARY - |prefixes|));
    } else {
      assert FindsAt(PrimaryNames(insns, prefixes), x, INVALID);
      FindsNothing(insns, prefixes, n, x);
    }
  }

  lemma FindsInstruction(insns: seq<Insn>, prefixes: seq<Prefix>, n: nat, x: nat)
    requires Sorted(insns, prefixes) && Dense(insns, None, n) && x < n
    ensures |WithPrefix(insns, None)| == n && IsHandler(insns, prefixes, n, x, WithPrefix(insns, None)[x].name)
  {
    hide WithPrefix, Dense, Sorted;
    DensePlaces(insns, prefixes, None, n);
    WithPrefixIs(insns, None);
    var insn := WithPrefix(insns, None)[x];
    assert insn in insns;
    var i :| 0 <= i < |insns| && insns[i] == insn;
  }

  lemma FindsPrefix(insns: seq<Insn>, prefixes: seq<Prefix>, n: nat, q: nat)
    requires q < |prefixes|
    ensures IsHandler(insns, prefixes, n, prefixes[q].opcode, prefixes[q].name)
  {
  }

  lemma FindsNothing(insns: seq<Insn>, prefixes: seq<Prefix>, n: nat, x: nat)
    requires n <= x && forall q :: 0 <= q < |prefixes| ==> prefixes[q].opcode != x
    ensures IsHandler(insns, prefixes, n, x, INVALID)
  {
  }

  // ----- the opcodes that were assigned -----

  /** Sorting does not change which opcodes a prefix has. */
  lemma OpcodesPermuted(s: seq<Insn>, t: seq<Insn>, p: Option<string>)
    requires multiset(s) == multiset(t)
    ensures OpcodesOf(s, p) <= OpcodesOf(t, p)
  {
    forall x | x in OpcodesOf(s, p)
      ensures x in OpcodesOf(t, p)
    {
      var i :| 0 <= i < |s| && s[i].prefix == p && s[i].opcode == x;
      assert s[i] in multiset(t);
      var j :| 0 <= j < |t| && t[j] == s[i];
    }
  }
}

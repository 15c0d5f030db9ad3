/** When the dispatch table is right: handler_names in isa/isapi.rb. */
module DispatchExact {
  import opened Options
  import opened OpcodeAssignment
  import opened DispatchTables
  import opened DispatchLayout

  /** No two handlers have the same name. */
  predicate DifferentHandlers(insns: seq<Insn>, prefixes: seq<Prefix>) {
    && (forall i, j :: 0 <= i < j < |insns| ==> insns[i].name != insns[j].name)
    && (forall i, q :: 0 <= i < |insns| && 0 <= q < |prefixes| ==> insns[i].name != prefixes[q].name)
    && (forall i :: 0 <= i < |insns| ==> insns[i].name != INVALID)
    && (forall q :: 0 <= q < |prefixes| ==> prefixes[q].name != INVALID)
  }

  /** The opcodes of each prefix are the first ones, and the prefixes form the two blocks behind
      the instructions without one. */
  ghost predicate RightLayout(insns: seq<Insn>, prefixes: seq<Prefix>) {
    && (forall p :: Dense(insns, p, |WithPrefix(insns, p)|))
    && exists start, a :: Blocks(prefixes, start, a) && |WithPrefix(insns, None)| <= start
  }

  // ----- who is at a place -----

  datatype Who = TheInsn(insn: Insn) | ThePrefix(prefix: Prefix) | Nobody

  function NameOf(who: Who): string {
    match who
    case TheInsn(insn) => insn.name
    case ThePrefix(prefix) => prefix.name
    case Nobody => INVALID
  }

  predicate IsDeclared(insns: seq<Insn>, prefixes: seq<Prefix>, who: Who) {
    match who
    case TheInsn(insn) => insn in insns
    case ThePrefix(prefix) => prefix in prefixes
    case Nobody => true
  }

  lemma NameDecides(insns: seq<Insn>, prefixes: seq<Prefix>, who: Who, other: Who)
    requires Sorted(insns, prefixes) && DifferentHandlers(insns, prefixes)
    requires IsDeclared(insns, prefixes, who) && IsDeclared(insns, prefixes, other) && NameOf(who) == NameOf(other)
    ensures who == other
  {
  }

  /** Where the blocks of the table begin. */
  function PublicStart(insns: seq<Insn>, prefixes: seq<Prefix>): nat
    requires Usable(insns, prefixes)
  {
    |WithPrefix(insns, None)| + InvalidNonPrefixed(insns, prefixes)
  }

  function PrivateStart(insns: seq<Insn>, prefixes: seq<Prefix>): nat
    requires Usable(insns, prefixes)
  {
    PublicStart(insns, prefixes) + |PrefixesWhere(prefixes, true)| + InvalidPrefixes(prefixes)
  }

  function SecondStart(insns: seq<Insn>, prefixes: seq<Prefix>): nat
    requires Usable(insns, prefixes)
  {
    PrivateStart(insns, prefixes) + |PrefixesWhere(prefixes, false)|
  }

  function Prefixed(insns: seq<Insn>, prefixes: seq<Prefix>): seq<Keyed>
    requires Usable(insns, prefixes)
  {
    StableSort(PrefixedKeys(insns, prefixes))
  }

  function WhoAt(insns: seq<Insn>, prefixes: seq<Prefix>, x: nat): Who
    requires Usable(insns, prefixes) && x < SecondStart(insns, prefixes) + |Prefixed(insns, prefixes)|
  {
    var own, public, private := WithPrefix(insns, None), PrefixesWhere(prefixes, true), PrefixesWhere(prefixes, false);
    var b, c, d := PublicStart(insns, prefixes), PrivateStart(insns, prefixes), SecondStart(insns, prefixes);
    if x < |own| then TheInsn(own[x])
    else if b <= x < b + |public| then ThePrefix(public[x - b])
    else if c <= x < d then ThePrefix(private[x - c])
    else if d <= x then TheInsn(Prefixed(insns, prefixes)[x - d].insn)
    else Nobody
  }

  lemma NameAt(insns: seq<Insn>, prefixes: seq<Prefix>, x: nat)
    requires Usable(insns, prefixes) && x < |HandlerNames(insns, prefixes)|
    ensures |HandlerNames(insns, prefixes)| == SecondStart(insns, prefixes) + |Prefixed(insns, prefixes)|
    ensures HandlerNames(insns, prefixes)[x] == NameOf(WhoAt(insns, prefixes, x))
  {
    hide WithPrefix, PrefixesWhere, InvalidNonPrefixed, InvalidPrefixes, StableSort, PrefixedKeys, Usable, Names, PrefixNames, SortedNames, Invalids;
  }

  predicate Ascending(prefixes: seq<Prefix>) { forall p, q :: 0 <= p < q < |prefixes| ==> prefixes[p].opcode < prefixes[q].opcode }

  lemma {:induction false} PrefixesWhereAscend(prefixes: seq<Prefix>, isPublic: bool)
    requires Ascending(prefixes)
    ensures Ascending(PrefixesWhere(prefixes, isPublic))
  {
    if prefixes != [] {
      var init, x := prefixes[..|prefixes| - 1], prefixes[|prefixes| - 1];
      PrefixesWhereAscend(init, isPublic);
      forall k | 0 <= k < |PrefixesWhere(init, isPublic)|
        ensures PrefixesWhere(init, isPublic)[k].opcode < x.opcode
      {
        var y := PrefixesWhere(init, isPublic)[k];
        PrefixesWhereHas(init, isPublic, y);
        var q :| 0 <= q < |init| && init[q] == y;
        assert prefixes[q] == y;
      }
    }
  }

  lemma PrefixesWhereIs(prefixes: seq<Prefix>, isPublic: bool)
    requires Ascending(prefixes)
    ensures var own := PrefixesWhere(prefixes, isPublic);
            && Ascending(own)
            && (forall k :: 0 <= k < |own| ==> own[k].isPublic == isPublic && own[k] in prefixes)
            && (forall x :: x in prefixes && x.isPublic == isPublic ==> x in own)
  {
    hide PrefixesWhere;
    PrefixesWhereAscend(prefixes, isPublic);
    var own := PrefixesWhere(prefixes, isPublic);
    forall k | 0 <= k < |own|
      ensures own[k].isPublic == isPublic && own[k] in prefixes
    {
      PrefixesWhereHas(prefixes, isPublic, own[k]);
    }
    forall x | x in prefixes && x.isPublic == isPublic
      ensures x in own
    {
      PrefixesWhereHas(prefixes, isPublic, x);
    }
  }

  lemma {:induction false} KeysAre(insns: seq<Insn>, prefixes: seq<Prefix>, y: Keyed)
    requires AllKnown(insns, prefixes) && y in PrefixedKeys(insns, prefixes)
    ensures y.insn in insns && y.insn.prefix.Some? && Known(prefixes, y.insn.prefix.value)
    ensures y.key == prefixes[PlaceOf(prefixes, y.insn.prefix.value)].opcode
  {
    var init, x := insns[..|insns| - 1], insns[|insns| - 1];
    assert insns == init + [x];
    if y in PrefixedKeys(init, prefixes) {
      KeysAre(init, prefixes, y);
    }
  }

  lemma {:induction false} InsertHas(s: seq<Keyed>, x: Keyed, y: Keyed)
    requires y in Insert(s, x)
    ensures y == x || y in s
  {
    if s != [] && s[|s| - 1].key > x.key && y != s[|s| - 1] {
      InsertHas(s[..|s| - 1], x, y);
    }
  }

  lemma {:induction false} SortHas(s: seq<Keyed>, y: Keyed)
    requires y in StableSort(s)
    ensures y in s
  {
    hide Insert;
    var init, x := s[..|s| - 1], s[|s| - 1];
    InsertHas(StableSort(init), x, y);
    if y != x {
      SortHas(init, y);
    }
  }

  lemma PrefixedAre(insns: seq<Insn>, prefixes: seq<Prefix>, y: nat)
    requires Usable(insns, prefixes) && y < |Prefixed(insns, prefixes)|
    ensures var x := Prefixed(insns, prefixes)[y];
            && x.insn in insns && x.insn.prefix.Some? && Known(prefixes, x.insn.prefix.value)
            && x.key == prefixes[PlaceOf(prefixes, x.insn.prefix.value)].opcode
  {
    hide StableSort, PrefixedKeys;
    SortHas(PrefixedKeys(insns, prefixes), Prefixed(insns, prefixes)[y]);
    KeysAre(insns, prefixes, Prefixed(insns, prefixes)[y]);
  }

  lemma WhoIsDeclared(insns: seq<Insn>, prefixes: seq<Prefix>, x: nat)
    requires Usable(insns, prefixes) && x < SecondStart(insns, prefixes) + |Prefixed(insns, prefixes)|
    ensures IsDeclared(insns, prefixes, WhoAt(insns, prefixes, x))
  {
    hide WithPrefix, PrefixesWhere, InvalidNonPrefixed, InvalidPrefixes, Prefixed;
    WithPrefixIs(insns, None);
    PrefixesWhereIs(prefixes, true);
    PrefixesWhereIs(prefixes, false);
    var b, c, d := PublicStart(insns, prefixes), PrivateStart(insns, prefixes), SecondStart(insns, prefixes);
    if d <= x {
      PrefixedAre(insns, prefixes, x - d);
    } else if c <= x {
      assert PrefixesWhere(prefixes, false)[x - c] in prefixes;
    } else if b <= x < b + |PrefixesWhere(prefixes, true)| {
      assert PrefixesWhere(prefixes, true)[x - b] in prefixes;
    } else if x < |WithPrefix(insns, None)| {
      assert WithPrefix(insns, None)[x] in insns;
    }
  }

  /** Where a name is found, its owner is. */
  lemma FoundIsWho(insns: seq<Insn>, prefixes: seq<Prefix>, x: nat, who: Who)
    requires Usable(insns, prefixes) && DifferentHandlers(insns, prefixes) && IsDeclared(insns, prefixes, who)
    requires FindsAt(HandlerNames(insns, prefixes), x, NameOf(who))
    ensures x < SecondStart(insns, prefixes) + |Prefixed(insns, prefixes)| && WhoAt(insns, prefixes, x) == who
  {
    hide HandlerNames, WhoAt, SecondStart, Prefixed, DifferentHandlers, IsDeclared, NameOf;
    NameAt(insns, prefixes, x);
    WhoIsDeclared(insns, prefixes, x);
    NameDecides(insns, prefixes, WhoAt(insns, prefixes, x), who);
  }

  // ----- where each is -----

  lemma UnprefixedIsAt(insns: seq<Insn>, prefixes: seq<Prefix>, x: nat, k: nat)
    requires Usable(insns, prefixes) && k < |WithPrefix(insns, None)|
    requires x < SecondStart(insns, prefixes) + |Prefixed(insns, prefixes)|
    requires WhoAt(insns, prefixes, x) == TheInsn(WithPrefix(insns, None)[k])
    ensures x == k
  {
    hide WithPrefix, PrefixesWhere, InvalidNonPrefixed, InvalidPrefixes, Prefixed;
    WithPrefixIs(insns, None);
    WithPrefixIncreases(insns, None);
    if SecondStart(insns, prefixes) <= x {
      PrefixedAre(insns, prefixes, x - SecondStart(insns, prefixes));
    }
  }

  lemma PrefixIsAt(insns: seq<Insn>, prefixes: seq<Prefix>, x: nat, isPublic: bool, k: nat)
    requires Usable(insns, prefixes) && k < |PrefixesWhere(prefixes, isPublic)|
    requires x < SecondStart(insns, prefixes) + |Prefixed(insns, prefixes)|
    requires WhoAt(insns, prefixes, x) == ThePrefix(PrefixesWhere(prefixes, isPublic)[k])
    ensures x == (if isPublic then PublicStart(insns, prefixes) else PrivateStart(insns, prefixes)) + k
  {
    hide WithPrefix, PrefixesWhere, InvalidNonPrefixed, InvalidPrefixes, Prefixed;
    PrefixesWhereIs(prefixes, true);
    PrefixesWhereIs(prefixes, false);
    var b, c, d := PublicStart(insns, prefixes), PrivateStart(insns, prefixes), SecondStart(insns, prefixes);
    var public, private := PrefixesWhere(prefixes, true), PrefixesWhere(prefixes, false);
    assert b <= x < b + |public| ==> public[x - b].isPublic;
    assert c <= x < d ==> !private[x - c].isPublic;
  }

  /** In sorted order everything with one key lies in its stretch. */
  lemma {:induction false} FoundTogether(s: seq<Keyed>, k: nat, y: nat)
    requires KeysSorted(s) && y < |s| && s[y].key == k
    ensures Less(s, k) <= y < Less(s, k) + |Equal(s, k)|
  {
    var init := s[..|s| - 1];
    if y == |init| {
      NoneGreater(init, k);
    } else {
      FoundTogether(init, k, y);
    }
  }

  lemma OwnApart(insns: seq<Insn>, prefixes: seq<Prefix>, p: Option<string>)
    requires Usable(insns, prefixes)
    ensures var own := WithPrefix(insns, p);
            (forall k :: 0 <= k < |own| ==> own[k].prefix == p) && forall i, k :: 0 <= i < |own| && 0 <= k < |own| && own[i] == own[k] ==> i == k
  {
    hide WithPrefix;
    WithPrefixIs(insns, p);
    WithPrefixIncreases(insns, p);
  }

  lemma PrefixedIsAt(insns: seq<Insn>, prefixes: seq<Prefix>, y: nat, q: nat, k: nat)
    requires Usable(insns, prefixes) && y < |Prefixed(insns, prefixes)| && q < |prefixes|
    requires k < |WithPrefix(insns, Some(prefixes[q].name))|
    requires Prefixed(insns, prefixes)[y].insn == WithPrefix(insns, Some(prefixes[q].name))[k]
    ensures y == Delta(insns, prefixes, q) + k
  {
    hide WithPrefix, StableSort, PrefixedKeys, Delta, KeysSorted, Less, Equal;
    var p := Some(prefixes[q].name);
    var keys, key := PrefixedKeys(insns, prefixes), prefixes[q].opcode;
    OwnApart(insns, prefixes, p);
    PrefixedAre(insns, prefixes, y);
    PlaceIsUnique(prefixes, prefixes[q].name, q);
    SortKeeps(keys, key);
    FoundTogether(StableSort(keys), key, y);
    KeysOfPrefix(insns, prefixes, q);
    EqualTogether(StableSort(keys), key, y - Less(keys, key));
  }

  lemma SecondIsAt(insns: seq<Insn>, prefixes: seq<Prefix>, x: nat, q: nat, k: nat)
    requires Usable(insns, prefixes) && q < |prefixes| && k < |WithPrefix(insns, Some(prefixes[q].name))|
    requires x < SecondStart(insns, prefixes) + |Prefixed(insns, prefixes)|
    requires WhoAt(insns, prefixes, x) == TheInsn(WithPrefix(insns, Some(prefixes[q].name))[k])
    ensures x == SecondStart(insns, prefixes) + Delta(insns, prefixes, q) + k
  {
    hide WithPrefix, PrefixesWhere, InvalidNonPrefixed, InvalidPrefixes, Prefixed, Delta;
    WithPrefixIs(insns, None);
    WithPrefixIs(insns, Some(prefixes[q].name));
    if SecondStart(insns, prefixes) <= x {
      PrefixedIsAt(insns, prefixes, x - SecondStart(insns, prefixes), q, k);
    }
  }

  // ----- what a complete table says about opcodes -----

  ghost predicate Given(insns: seq<Insn>, prefixes: seq<Prefix>) {
    && Usable(insns, prefixes) && DifferentHandlers(insns, prefixes)
    && forall q :: 0 <= q < |prefixes| ==> prefixes[q].opcode < PRIMARY
  }

  lemma CompleteUnprefixed(insns: seq<Insn>, prefixes: seq<Prefix>, k: nat)
    requires Given(insns, prefixes) && Complete(insns, prefixes) && k < |WithPrefix(insns, None)|
    ensures WithPrefix(insns, None)[k].opcode == k
  {
    hide WithPrefix, Usable, DifferentHandlers, HandlerNames, SecondStart, WhoAt, IsFree, SecondaryOpcodeOffset, FindsAt;
    WithPrefixIs(insns, None);
    var x := WithPrefix(insns, None)[k];
    assert x in insns;
    var i :| 0 <= i < |insns| && insns[i] == x;
    FoundIsWho(insns, prefixes, x.opcode, TheInsn(x));
    UnprefixedIsAt(insns, prefixes, x.opcode, k);
  }

  lemma CompletePrefixes(insns: seq<Insn>, prefixes: seq<Prefix>, isPublic: bool, k: nat)
    requires Given(insns, prefixes) && Complete(insns, prefixes) && k < |PrefixesWhere(prefixes, isPublic)|
    ensures PrefixesWhere(prefixes, isPublic)[k].opcode ==
            (if isPublic then PublicStart(insns, prefixes) else PrivateStart(insns, prefixes)) + k
  {
    hide WithPrefix, PrefixesWhere, DifferentHandlers, HandlerNames, PublicStart, PrivateStart, SecondStart, WhoAt, IsFree, SecondaryOpcodeOffset, FindsAt;
    PrefixesWhereIs(prefixes, isPublic);
    var x := PrefixesWhere(prefixes, isPublic)[k];
    assert x in prefixes;
    var q :| 0 <= q < |prefixes| && prefixes[q] == x;
    FoundIsWho(insns, prefixes, x.opcode, ThePrefix(x));
    PrefixIsAt(insns, prefixes, x.opcode, isPublic, k);
  }

  lemma CompleteSecond(insns: seq<Insn>, prefixes: seq<Prefix>, q: nat, k: nat)
    requires Given(insns, prefixes) && Complete(insns, prefixes) && SecondStart(insns, prefixes) == PRIMARY
    requires q < |prefixes| && k < |WithPrefix(insns, Some(prefixes[q].name))|
    ensures WithPrefix(insns, Some(prefixes[q].name))[k].opcode == k
  {
    hide WithPrefix, Usable, DifferentHandlers, HandlerNames, SecondStart, WhoAt, IsFree, FindsAt, Delta;
    var p := Some(prefixes[q].name);
    WithPrefixIs(insns, p);
    var x := WithPrefix(insns, p)[k];
    assert x in insns;
    var i :| 0 <= i < |insns| && insns[i] == x;
    var at := SecondaryOpcodeOffset(insns, prefixes, q) + x.opcode;
    assert FindsAt(HandlerNames(insns, prefixes), at, x.name);
    FoundIsWho(insns, prefixes, at, TheInsn(x));
    SecondIsAt(insns, prefixes, at, q, k);
  }

  /** Opcodes that count from 0 are the first ones. */
  lemma CountsIsDense(insns: seq<Insn>, p: Option<string>)
    requires forall k :: 0 <= k < |WithPrefix(insns, p)| ==> WithPrefix(insns, p)[k].opcode == k
    ensures Dense(insns, p, |WithPrefix(insns, p)|)
  {
    hide WithPrefix, Below;
    var own := WithPrefix(insns, p);
    WithPrefixIs(insns, p);
    forall x: nat
      ensures x in OpcodesOf(insns, p) <==> x in Below(|own|)
    {
      InBelow(|own|, x);
      if x < |own| {
        assert own[x] in insns;
        var i :| 0 <= i < |insns| && insns[i] == own[x];
      }
      if x in OpcodesOf(insns, p) {
        var i :| 0 <= i < |insns| && insns[i].prefix == p && insns[i].opcode == x;
        assert insns[i] in own;
        var k :| 0 <= k < |own| && own[k] == insns[i];
      }
    }
  }

  /** Public ones first, with opcodes from start on, and the others from behind them on. */
  ghost predicate Runs(insns: seq<Insn>, prefixes: seq<Prefix>)
    requires Usable(insns, prefixes)
  {
    var public, private := PrefixesWhere(prefixes, true), PrefixesWhere(prefixes, false);
    && (forall k :: 0 <= k < |public| ==> public[k].opcode == PublicStart(insns, prefixes) + k)
    && (forall k :: 0 <= k < |private| ==> private[k].opcode == PrivateStart(insns, prefixes) + k)
  }

  lemma CompleteRuns(insns: seq<Insn>, prefixes: seq<Prefix>)
    requires Given(insns, prefixes) && Complete(insns, prefixes)
    ensures Runs(insns, prefixes)
  {
    hide PrefixesWhere, PublicStart, PrivateStart, Complete, Usable, DifferentHandlers;
    forall k | 0 <= k < |PrefixesWhere(prefixes, true)|
      ensures PrefixesWhere(prefixes, true)[k].opcode == PublicStart(insns, prefixes) + k
    {
      CompletePrefixes(insns, prefixes, true, k);
    }
    forall k | 0 <= k < |PrefixesWhere(prefixes, false)|
      ensures PrefixesWhere(prefixes, false)[k].opcode == PrivateStart(insns, prefixes) + k
    {
      CompletePrefixes(insns, prefixes, false, k);
    }
  }

  /** Where the prefixes that are not public begin in a sorted list, if they come last. */
  lemma FirstPrivate(prefixes: seq<Prefix>) returns (a: nat)
    requires forall i, j :: 0 <= i < j < |prefixes| && !prefixes[i].isPublic ==> !prefixes[j].isPublic
    ensures a <= |prefixes| && (forall q :: 0 <= q < a ==> prefixes[q].isPublic) && (forall q :: a <= q < |prefixes| ==> !prefixes[q].isPublic)
  {
    a := 0;
    while a < |prefixes| && prefixes[a].isPublic
      invariant a <= |prefixes| && forall q :: 0 <= q < a ==> prefixes[q].isPublic
    {
      a := a + 1;
    }
  }

  lemma PrivateLast(insns: seq<Insn>, prefixes: seq<Prefix>, i: nat, j: nat)
    requires Usable(insns, prefixes) && Runs(insns, prefixes) && i < j < |prefixes| && !prefixes[i].isPublic
    ensures !prefixes[j].isPublic
  {
    hide WithPrefix, PrefixesWhere, InvalidNonPrefixed, InvalidPrefixes;
    PrefixesWhereIs(prefixes, true);
    PrefixesWhereIs(prefixes, false);
    var private := PrefixesWhere(prefixes, false);
    assert prefixes[i] in private;
    var k :| 0 <= k < |private| && private[k] == prefixes[i];
    assert forall x :: x in PrefixesWhere(prefixes, true) ==> x.opcode < PrivateStart(insns, prefixes);
  }

  lemma CompleteSplits(insns: seq<Insn>, prefixes: seq<Prefix>) returns (a: nat)
    requires Usable(insns, prefixes) && Runs(insns, prefixes)
    ensures 0 < a <= |prefixes| && (forall q :: 0 <= q < a ==> prefixes[q].isPublic) && (forall q :: a <= q < |prefixes| ==> !prefixes[q].isPublic)
    ensures PrefixesWhere(prefixes, true) == prefixes[..a] && PrefixesWhere(prefixes, false) == prefixes[a..]
  {
    hide WithPrefix, PrefixesWhere, Runs, Sorted;
    forall i, j | 0 <= i < j < |prefixes| && !prefixes[i].isPublic
      ensures !prefixes[j].isPublic
    {
      PrivateLast(insns, prefixes, i, j);
    }
    a := FirstPrivate(prefixes);
    SelectedBlock(prefixes, a);
  }

  /** The handlers of prefixes end before place 256, or exactly there. */
  lemma CompleteEnds(insns: seq<Insn>, prefixes: seq<Prefix>, a: nat)
    requires Given(insns, prefixes) && Complete(insns, prefixes) && Runs(insns, prefixes)
    requires 0 < a <= |prefixes| && PrefixesWhere(prefixes, true) == prefixes[..a] && PrefixesWhere(prefixes, false) == prefixes[a..]
    ensures SecondStart(insns, prefixes) == PRIMARY
  {
    hide WithPrefix, PrefixesWhere, InvalidNonPrefixed, Usable, DifferentHandlers, Complete, MaxPrefix, MinPrefix;
    var public, private := PrefixesWhere(prefixes, true), PrefixesWhere(prefixes, false);
    var start := PublicStart(insns, prefixes);
    assert public[a - 1] == prefixes[a - 1];
    GreatestIs(public, a - 1);
    if private != [] {
      assert private[|private| - 1] == prefixes[|prefixes| - 1];
      NothingBehind(insns, prefixes);
    }
  }

  /** If places were left below 256, an opcode of nobody would find a handler or none at all. */
  lemma NothingBehind(insns: seq<Insn>, prefixes: seq<Prefix>)
    requires Given(insns, prefixes) && Complete(insns, prefixes) && Runs(insns, prefixes)
    ensures SecondStart(insns, prefixes) >= PRIMARY
  {
    hide WithPrefix, PrefixesWhere, DifferentHandlers, Usable, HandlerNames, FindsAt, SecondaryOpcodeOffset;
    var x := SecondStart(insns, prefixes);
    if x < PRIMARY {
      BehindIsFree(insns, prefixes);
      assert FindsAt(HandlerNames(insns, prefixes), x, INVALID);
      FoundIsWho(insns, prefixes, x, Nobody);
    }
  }

  lemma BehindIsFree(insns: seq<Insn>, prefixes: seq<Prefix>)
    requires Given(insns, prefixes) && Complete(insns, prefixes) && Runs(insns, prefixes)
    ensures IsFree(insns, prefixes, SecondStart(insns, prefixes))
  {
    hide WithPrefix, PrefixesWhere, DifferentHandlers, InvalidNonPrefixed, InvalidPrefixes, Complete;
    WithPrefixIs(insns, None);
    PrefixesWhereIs(prefixes, true);
    PrefixesWhereIs(prefixes, false);
    var own := WithPrefix(insns, None);
    forall i | 0 <= i < |insns| && insns[i].prefix == None
      ensures insns[i].opcode < |own|
    {
      assert insns[i] in own;
      var k :| 0 <= k < |own| && own[k] == insns[i];
      CompleteUnprefixed(insns, prefixes, k);
    }
    forall q | 0 <= q < |prefixes|
      ensures prefixes[q].opcode < SecondStart(insns, prefixes)
    {
      var s := PrefixesWhere(prefixes, prefixes[q].isPublic);
      assert prefixes[q] in s;
      var k :| 0 <= k < |s| && s[k] == prefixes[q];
    }
  }

  lemma CompleteIsRight(insns: seq<Insn>, prefixes: seq<Prefix>)
    requires Given(insns, prefixes) && Complete(insns, prefixes)
    ensures RightLayout(insns, prefixes)
  {
    hide WithPrefix, PrefixesWhere, Complete, Usable, DifferentHandlers, Dense, InvalidNonPrefixed, InvalidPrefixes;
    CompleteRuns(insns, prefixes);
    var a := CompleteSplits(insns, prefixes);
    CompleteEnds(insns, prefixes, a);
    forall p
      ensures Dense(insns, p, |WithPrefix(insns, p)|)
    {
      CompleteIsDense(insns, prefixes, p);
    }
    assert forall q :: 0 <= q < a ==> PrefixesWhere(prefixes, true)[q] == prefixes[q];
    assert forall q :: a <= q < |prefixes| ==> PrefixesWhere(prefixes, false)[q - a] == prefixes[q];
    assert Blocks(prefixes, PublicStart(insns, prefixes), a);
  }

  lemma CompleteIsDense(insns: seq<Insn>, prefixes: seq<Prefix>, p: Option<string>)
    requires Given(insns, prefixes) && Complete(insns, prefixes) && SecondStart(insns, prefixes) == PRIMARY
    ensures Dense(insns, p, |WithPrefix(insns, p)|)
  {
    hide WithPrefix, Complete, DifferentHandlers, Dense, SecondStart;
    WithPrefixIs(insns, p);
    forall k | 0 <= k < |WithPrefix(insns, p)|
      ensures WithPrefix(insns, p)[k].opcode == k
    {
      if p == None {
        CompleteUnprefixed(insns, prefixes, k);
      } else {
        var x := WithPrefix(insns, p)[k];
        assert x in insns;
        var i :| 0 <= i < |insns| && insns[i] == x;
        CompleteSecond(insns, prefixes, PlaceOf(prefixes, p.value), k);
      }
    }
    CountsIsDense(insns, p);
  }

  /** The table has every handler in its place if and only if the opcodes of each prefix are the
      first ones and the prefixes form the two blocks. */
  lemma CompleteIff(insns: seq<Insn>, prefixes: seq<Prefix>)
    requires Usable(insns, prefixes) && DifferentHandlers(insns, prefixes)
    requires forall q :: 0 <= q < |prefixes| ==> prefixes[q].opcode < PRIMARY
    ensures Complete(insns, prefixes) <==> RightLayout(insns, prefixes)
  {
    hide WithPrefix, Complete, Usable, DifferentHandlers, Dense, Blocks;
    if Complete(insns, prefixes) {
      CompleteIsRight(insns, prefixes);
    }
    if RightLayout(insns, prefixes) {
      var start, a :| Blocks(prefixes, start, a) && |WithPrefix(insns, None)| <= start;
      LaidOutIsComplete(insns, prefixes, |WithPrefix(insns, None)|, start, a, p => |WithPrefix(insns, p)|);
    }
  }

  // ----- over what is declared -----

  /** No two handlers that are declared have the same name. */
  predicate DifferentNames(items: seq<Item>, prefixItems: seq<Item>) {
    && OtherNames(items)
    && (forall i, q :: 0 <= i < |items| && 0 <= q < |prefixItems| ==> items[i].name != prefixItems[q].name)
    && (forall i :: 0 <= i < |items| ==> items[i].name != INVALID)
    && (forall q :: 0 <= q < |prefixItems| ==> prefixItems[q].name != INVALID)
  }

  /** Opcodes are bytes. */
  predicate OpcodesFit(items: seq<Item>) {
    forall q :: 0 <= q < |items| && items[q].opcode.Some? ==> items[q].opcode.value < OPCODES
  }

  lemma HandlersDiffer(items: seq<Item>, prefixItems: seq<Item>, done: seq<Insn>, donePrefixes: seq<Insn>, insns: seq<Insn>, s: seq<Insn>)
    requires DifferentNames(items, prefixItems)
    requires Assigned(false, Ordered(items), done) && multiset(insns) == multiset(done)
    requires Assigned(true, Ordered(prefixItems), donePrefixes) && multiset(s) == multiset(donePrefixes)
    ensures DifferentHandlers(insns, AsPrefixes(s))
  {
    hide Assigned, Ordered, OtherNames;
    forall i, j | 0 <= i < j < |insns|
      ensures insns[i].name != insns[j].name
    {
      NamesDiffer(false, items, done, insns, i, j);
    }
    forall i | 0 <= i < |insns|
      ensures insns[i].name != INVALID && forall q :: 0 <= q < |prefixItems| ==> insns[i].name != prefixItems[q].name
    {
      var k := ComesFrom(false, items, done, insns, i);
    }
    forall q | 0 <= q < |s|
      ensures s[q].name != INVALID && forall i :: 0 <= i < |insns| ==> insns[i].name != s[q].name
    {
      var k := ComesFrom(true, prefixItems, donePrefixes, s, q);
      assert s[q].name == prefixItems[k].name;
    }
  }

  lemma PrefixesFit(prefixItems: seq<Item>, donePrefixes: seq<Insn>, s: seq<Insn>, q: nat)
    requires GoodPrefixes(prefixItems) && OpcodesFit(prefixItems) && Assigned(true, Ordered(prefixItems), donePrefixes)
    requires multiset(s) == multiset(donePrefixes) && q < |s|
    ensures s[q].opcode < PRIMARY
  {
    hide Assigned, Ordered, Selected, PublicFirst;
    PublicAreFirst(prefixItems);
    AssignedUnique(true, Ordered(prefixItems), donePrefixes);
    assert s[q] in multiset(donePrefixes);
    var k := ComesFrom(true, prefixItems, donePrefixes, s, q);
  }

  /** What a right layout says about what was declared. */
  lemma RightIsDeclared(items: seq<Item>, prefixItems: seq<Item>, done: seq<Insn>, donePrefixes: seq<Insn>, insns: seq<Insn>, s: seq<Insn>)
    returns (start: nat)
    requires WellDeclared(items, prefixItems) && RightLayout(insns, AsPrefixes(s))
    requires Assigned(false, Ordered(items), done) && |done| == |items| && multiset(insns) == multiset(done)
    requires Assigned(true, Ordered(prefixItems), donePrefixes) && |donePrefixes| == |prefixItems| && SortedPrefixes(s, donePrefixes)
    ensures NoGaps(items, prefixItems, start)
  {
    hide Assigned, Ordered, Selected, GoodPrefixes, Served, Blocks, OpcodesOf, Below, WithPrefix, GapsFilled, OneInterval, SortedPrefixes, Total;
    forall p
      ensures GapsFilled(items, p) && |WithPrefix(insns, p)| == Total(items, p)
    {
      InsnsAreDense(items, done, insns, p);
      assert Dense(insns, p, |WithPrefix(insns, p)|);
      BelowSize(|WithPrefix(insns, p)|);
    }
    var first, a :| Blocks(AsPrefixes(s), first, a) && |WithPrefix(insns, None)| <= first;
    start := first;
    PrefixesAreBlocks(prefixItems, donePrefixes, s, start);
  }

  /** From declarations, through both assigners and any sort: the table has every handler in its
      place if and only if every gap between given opcodes is filled by items without one, and the
      given prefixes are one interval behind the instructions without a prefix. */
  lemma DeclaredIff(items: seq<Item>, prefixItems: seq<Item>, done: seq<Insn>, donePrefixes: seq<Insn>, insns: seq<Insn>, s: seq<Insn>)
    requires WellDeclared(items, prefixItems) && DifferentNames(items, prefixItems) && OpcodesFit(prefixItems)
    requires Assigned(false, Ordered(items), done) && |done| == |items|
    requires Assigned(true, Ordered(prefixItems), donePrefixes) && |donePrefixes| == |prefixItems|
    requires SortedPrefixes(s, donePrefixes) && SortedInsns(insns, done, AsPrefixes(s))
    ensures Usable(insns, AsPrefixes(s))
    ensures Complete(insns, AsPrefixes(s)) <==> exists start :: NoGaps(items, prefixItems, start)
  {
    hide Assigned, Ordered, Usable, Complete, RightLayout, DifferentHandlers, DifferentNames, NoGaps, GoodPrefixes, OpcodesFit, Served, WholeOpcode, AllKnown, Selected;
    TableIsUsable(items, prefixItems, done, donePrefixes, insns, s);
    if start :| NoGaps(items, prefixItems, start) {
      TableOfDeclarations(items, prefixItems, start, done, donePrefixes, insns, s);
    }
    if Complete(insns, AsPrefixes(s)) {
      HandlersDiffer(items, prefixItems, done, donePrefixes, insns, s);
      forall q | 0 <= q < |s|
        ensures s[q].opcode < PRIMARY
      {
        PrefixesFit(prefixItems, donePrefixes, s, q);
      }
      CompleteIff(insns, AsPrefixes(s));
      var start := RightIsDeclared(items, prefixItems, done, donePrefixes, insns, s);
    }
  }

  /** Instructions that were given opcodes 0 and 2, and none to fill the gap. */
  function GapInsns(): seq<Insn> { [Insn("NOP", None, 0, true), Insn("LDA", None, 2, true)] }

  function GapPrefixes(): seq<Prefix> { [Prefix("THROW", 254, true)] }

  lemma GapLists()
    ensures WithPrefix(GapInsns(), None) == GapInsns() && PrefixesWhere(GapPrefixes(), true) == GapPrefixes()
  {
    var insns := GapInsns();
    assert WithPrefix(insns[..1], None) == insns[..1] by {
      assert insns[..1][..0] == [];
    }
  }

  lemma GapDiffers()
    ensures DifferentHandlers(GapInsns(), GapPrefixes())
  {
  }

  lemma GapUsable()
    ensures Usable(GapInsns(), GapPrefixes()) && DifferentHandlers(GapInsns(), GapPrefixes())
    ensures |WithPrefix(GapInsns(), None)| == 2
  {
    hide WithPrefix, PrefixesWhere, DifferentHandlers;
    GapLists();
    GapDiffers();
  }

  /** A gap that no instruction fills puts the handler behind it in the wrong place. */
  lemma GapExampleFails()
    ensures Usable(GapInsns(), GapPrefixes()) && !Complete(GapInsns(), GapPrefixes())
  {
    hide Usable, Complete, DifferentHandlers, WithPrefix, Below;
    GapUsable();
    CompleteIff(GapInsns(), GapPrefixes());
    assert GapInsns()[1].opcode in OpcodesOf(GapInsns(), None);
    InBelow(2, 2);
    assert !Dense(GapInsns(), None, |WithPrefix(GapInsns(), None)|);
  }

  /** The same with an instruction that has no opcode, and gets 1. */
  function FilledItems(): seq<Item> { [Item("NOP", None, Some(0)), Item("LDA", None, Some(2)), Item("STA", None, None)] }

  function FilledPrefixItems(): seq<Item> { [Item("THROW", None, Some(254))] }

  lemma FilledSelected()
    ensures Selected(FilledItems(), true) == FilledItems()[..2] && Selected(FilledPrefixItems(), true) == FilledPrefixItems()
  {
    var items := FilledItems();
    assert Selected(items[..1], true) == items[..1] by {
      assert items[..1][..0] == [];
    }
    assert items[..2][..1] == items[..1];
    assert Selected(items[..2], true) == items[..2];
  }

  lemma FilledIsDeclared()
    ensures WellDeclared(FilledItems(), FilledPrefixItems())
  {
    hide Selected;
    FilledSelected();
    assert FilledItems()[0].prefix == None;
  }

  /** Then the table is right. */
  lemma FilledGapIsRight()
    ensures WellDeclared(FilledItems(), FilledPrefixItems()) && NoGaps(FilledItems(), FilledPrefixItems(), 254)
  {
    hide WellDeclared, Selected;
    FilledIsDeclared();
    FilledSelected();
    var items, prefixItems := FilledItems(), FilledPrefixItems();
    assert Own(items, None, 3) == Own(items, None, 2) + 1 == Own(items, None, 1) + 2 == 3;
    forall p
      ensures GapsFilled(items, p)
    {
      assert forall i :: 0 <= i < 3 && items[i].prefix == p ==> p == None;
    }
    assert prefixItems[0].opcode.value == 254;
  }
}

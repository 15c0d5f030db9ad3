/** A try table that is read back as labels (abc2program/abc_code_processor.cpp) and assembled
    again (assembler/assembly-emitter.cpp). */
module TryRoundTrip {
  import opened Options
  import opened Labels
  import opened Pandasm
  import opened CodeReader
  import TT = TryTables

  // ----- what the trip makes of a try table -----

  function RangesOf(gs: seq<Guard>, n: nat): (rs: seq<Range>)
    requires n <= |gs|
  {
    if n == 0 then [] else RangesOf(gs, n - 1) + [gs[n - 1].range]
  }

  /** The catch blocks of one range, in order. */
  function CatchesOf(gs: seq<Guard>, n: nat, r: Range): seq<Catch>
    requires n <= |gs|
  {
    if n == 0 then []
    else CatchesOf(gs, n - 1, r) + (if gs[n - 1].range == r then [gs[n - 1].catch] else [])
  }

  function RangeOf(t: TryBlock): Range { Range(t.startPc, t.length) }

  /** One try for each range that has a catch block, in the order of those blocks. */
  ghost predicate Regrouped(gs: seq<Guard>, tries: seq<TryBlock>) {
    var order := TT.FirstOccurrences(RangesOf(gs, |gs|));
    && |tries| == |order|
    && forall k :: 0 <= k < |order| ==> RangeOf(tries[k]) == order[k] && tries[k].catches == CatchesOf(gs, |gs|, order[k])
  }

  // ----- labels and offsets -----

  lemma {:induction false} ValidsAre(code: seq<BcIns>, ins: seq<PaIns>, k: nat)
    requires Shape(code, ins) && k <= |ins|
    ensures TT.Valids(ins, k) == if k <= |code| then k else |code|
  {
    if k > 0 {
      ValidsAre(code, ins, k - 1);
    }
  }

  lemma {:induction false} OnlyOneCarries(code: seq<BcIns>, ins: seq<PaIns>, n: nat, k: nat)
    requires Shape(code, ins) && TT.Assembled(ins, code) && k < n <= |ins| && ins[k].labelName == Some(Label(k))
    ensures TT.LabelOffset(ins, code, n, Label(k)) == TT.OffsetAt(ins, code, k)
  {
    if k < n - 1 {
      if ins[n - 1].labelName == Some(Label(k)) {
        LabelInjective(n - 1, k);
      }
      OnlyOneCarries(code, ins, n - 1, k);
    }
  }

  lemma LabelLeadsBack(code: seq<BcIns>, ins: seq<PaIns>, pc: int)
    requires Shape(code, ins) && HasLabelAt(code, ins, pc)
    ensures TT.Assembled(ins, code) && TT.OffsetOf(ins, code, LabelAt(code, |ins|, pc)) == pc
  {
    ValidsAre(code, ins, |ins|);
    var k := IndexAt(code, |ins|, pc);
    ValidsAre(code, ins, k);
    OnlyOneCarries(code, ins, |ins|, k);
  }

  // ----- keys and ranges -----

  ghost function RangeKey(code: seq<BcIns>, n: nat, r: Range): string
    requires n <= |code| + 1 && GoodRange(code, n, r)
  {
    TryKey(LabelAt(code, n, r.startPc), LabelAt(code, n, r.startPc + r.length))
  }

  lemma RangeKeyInjective(code: seq<BcIns>, n: nat, r: Range, s: Range)
    requires n <= |code| + 1 && GoodRange(code, n, r) && GoodRange(code, n, s) && RangeKey(code, n, r) == RangeKey(code, n, s)
    ensures r == s
  {
    hide Label, OnBoundary, TryKey, PcOf;
    var a, b := IndexAt(code, n, r.startPc), IndexAt(code, n, r.startPc + r.length);
    var c, d := IndexAt(code, n, s.startPc), IndexAt(code, n, s.startPc + s.length);
    LabelShape(a);
    LabelShape(c);
    TryKeyInjective(Label(a), Label(b), Label(c), Label(d));
    LabelInjective(a, c);
    LabelInjective(b, d);
  }

  ghost predicate AllGood(code: seq<BcIns>, n: nat, rs: seq<Range>)
    requires n <= |code| + 1
  {
    forall k :: 0 <= k < |rs| ==> GoodRange(code, n, rs[k])
  }

  /** keys lists the keys of rs. */
  ghost predicate KeysMatch(code: seq<BcIns>, n: nat, rs: seq<Range>, keys: seq<string>)
    requires n <= |code| + 1
  {
    && |rs| == |keys| && AllGood(code, n, rs)
    && forall k :: 0 <= k < |rs| ==> keys[k] == RangeKey(code, n, rs[k])
  }

  lemma MatchMember(code: seq<BcIns>, n: nat, rs: seq<Range>, keys: seq<string>, r: Range)
    requires n <= |code| + 1 && KeysMatch(code, n, rs, keys) && GoodRange(code, n, r)
    ensures r in rs <==> RangeKey(code, n, r) in keys
  {
    hide RangeKey, GoodRange;
    if r in rs {
      var k :| 0 <= k < |rs| && rs[k] == r;
      assert keys[k] == RangeKey(code, n, r);
    }
    if RangeKey(code, n, r) in keys {
      var k :| 0 <= k < |keys| && keys[k] == RangeKey(code, n, r);
      RangeKeyInjective(code, n, rs[k], r);
    }
  }

  lemma MatchAppend(code: seq<BcIns>, n: nat, rs: seq<Range>, keys: seq<string>, r: Range)
    requires n <= |code| + 1 && KeysMatch(code, n, rs, keys) && GoodRange(code, n, r)
    ensures KeysMatch(code, n, rs + [r], keys + [RangeKey(code, n, r)])
  {
    hide RangeKey, GoodRange;
  }

  lemma StandsForKey(code: seq<BcIns>, ins: seq<PaIns>, g: Guard, block: CatchBlock)
    requires Stands(code, ins, g, block)
    ensures |ins| <= |code| + 1 && GoodRange(code, |ins|, g.range) && TT.KeyOf(block) == RangeKey(code, |ins|, g.range)
  {
    hide OnBoundary, LabelAt;
  }

  lemma MatchEmpty(code: seq<BcIns>, n: nat)
    requires n <= |code| + 1
    ensures KeysMatch(code, n, TT.FirstOccurrences([]), TT.FirstOccurrences([]))
  {
  }

  lemma StandAt(code: seq<BcIns>, ins: seq<PaIns>, gs: seq<Guard>, blocks: seq<CatchBlock>, i: nat)
    requires AllStand(code, ins, gs, blocks) && i < |gs|
    ensures |blocks| == |gs| && Stands(code, ins, gs[i], blocks[i])
  {
    hide Stands;
  }

  lemma {:induction false} SameOrder(code: seq<BcIns>, ins: seq<PaIns>, gs: seq<Guard>, blocks: seq<CatchBlock>, m: nat)
    requires AllStand(code, ins, gs, blocks) && m <= |gs| == |blocks| && |ins| <= |code| + 1
    ensures KeysMatch(code, |ins|, TT.FirstOccurrences(RangesOf(gs, m)), TT.FirstOccurrences(TT.Keys(blocks, m)))
  {
    hide AllStand, GoodRange, RangeKey, TT.KeyOf, Stands, TT.FirstOccurrences, KeysMatch;
    if m == 0 {
      MatchEmpty(code, |ins|);
    } else {
      StandAt(code, ins, gs, blocks, m - 1);
      var r := gs[m - 1].range;
      var rs, keys := RangesOf(gs, m - 1), TT.Keys(blocks, m - 1);
      SameOrder(code, ins, gs, blocks, m - 1);
      StandsForKey(code, ins, gs[m - 1], blocks[m - 1]);
      TT.FirstOccurrencesAppend(rs, r);
      TT.FirstOccurrencesAppend(keys, RangeKey(code, |ins|, r));
      MatchMember(code, |ins|, TT.FirstOccurrences(rs), TT.FirstOccurrences(keys), r);
      MatchAppend(code, |ins|, TT.FirstOccurrences(rs), TT.FirstOccurrences(keys), r);
    }
  }

  /** The group of a key stands for the catch blocks of its range. */
  ghost predicate GroupMatches(code: seq<BcIns>, ins: seq<PaIns>, group: seq<CatchBlock>, r: Range, catches: seq<Catch>) {
    |group| == |catches| && forall j :: 0 <= j < |group| ==> Stands(code, ins, Guard(r, catches[j]), group[j])
  }

  lemma GroupEmpty(code: seq<BcIns>, ins: seq<PaIns>, r: Range)
    ensures GroupMatches(code, ins, [], r, [])
  {
  }

  lemma GroupAppend(code: seq<BcIns>, ins: seq<PaIns>, group: seq<CatchBlock>, r: Range, catches: seq<Catch>, c: Catch, block: CatchBlock)
    requires GroupMatches(code, ins, group, r, catches) && Stands(code, ins, Guard(r, c), block)
    ensures GroupMatches(code, ins, group + [block], r, catches + [c])
  {
    hide Stands;
  }

  lemma {:induction false} SameGroup(code: seq<BcIns>, ins: seq<PaIns>, gs: seq<Guard>, blocks: seq<CatchBlock>, m: nat, r: Range)
    requires AllStand(code, ins, gs, blocks) && m <= |gs| == |blocks| && |ins| <= |code| + 1 && GoodRange(code, |ins|, r)
    ensures GroupMatches(code, ins, TT.Group(blocks, m, RangeKey(code, |ins|, r)), r, CatchesOf(gs, m, r))
  {
    hide AllStand, GoodRange, RangeKey, TT.KeyOf, Stands, GroupMatches;
    if m == 0 {
      GroupEmpty(code, ins, r);
    } else {
      StandAt(code, ins, gs, blocks, m - 1);
      var g, key := gs[m - 1], RangeKey(code, |ins|, r);
      var group, catches := TT.Group(blocks, m - 1, key), CatchesOf(gs, m - 1, r);
      assert g == Guard(g.range, g.catch);
      SameGroup(code, ins, gs, blocks, m - 1, r);
      StandsForKey(code, ins, g, blocks[m - 1]);
      if TT.KeyOf(blocks[m - 1]) == key {
        RangeKeyInjective(code, |ins|, g.range, r);
        GroupAppend(code, ins, group, r, catches, g.catch, blocks[m - 1]);
      } else {
        assert group + [] == group && catches + [] == catches;
      }
    }
  }

  // ----- the round trip -----

  /** The block of a guard gives back its catch block and its range. */
  lemma BlockLeadsBack(code: seq<BcIns>, ins: seq<PaIns>, g: Guard, block: CatchBlock)
    requires Shape(code, ins) && FitsReader(code) && Stands(code, ins, g, block)
    ensures TT.Assembled(ins, code) && TT.BuiltCatch(ins, code, block) == g.catch
    ensures TT.OffsetOf(ins, code, block.tryBegin) == g.range.startPc
    ensures TT.OffsetOf(ins, code, block.tryEnd) == g.range.startPc + g.range.length < TT.SIZE
  {
    hide Shape, FitsReader, HasLabelAt, OnBoundary, TT.OffsetOf, LabelAt, TT.Assembled;
    LabelLeadsBack(code, ins, g.range.startPc);
    LabelLeadsBack(code, ins, g.range.startPc + g.range.length);
    LabelLeadsBack(code, ins, g.catch.handlerPc);
    LabelLeadsBack(code, ins, g.catch.handlerPc + g.catch.codeSize);
    BoundaryFits(code, |ins|, g.range.startPc + g.range.length);
    BoundaryFits(code, |ins|, g.catch.handlerPc + g.catch.codeSize);
  }

  lemma GroupLeadsBack(code: seq<BcIns>, ins: seq<PaIns>, group: seq<CatchBlock>, r: Range, catches: seq<Catch>, t: TryBlock)
    requires Shape(code, ins) && FitsReader(code) && TT.Assembled(ins, code)
    requires GroupMatches(code, ins, group, r, catches) && TT.IsTryOf(ins, code, group, t)
    ensures RangeOf(t) == r && t.catches == catches
  {
    hide TT.OffsetOf, Stands, Shape, FitsReader, TT.BuiltCatch, TT.Assembled;
    forall j | 0 <= j < |group|
      ensures t.catches[j] == catches[j]
    {
      BlockLeadsBack(code, ins, Guard(r, catches[j]), group[j]);
    }
    BlockLeadsBack(code, ins, Guard(r, catches[0]), group[0]);
  }

  /** Assembling what was read gives the table regrouped by range: same starts, lengths,
      handlers, sizes and order. */
  lemma TryTableRoundTrip(code: seq<BcIns>, ins: seq<PaIns>, gs: seq<Guard>, blocks: seq<CatchBlock>, built: seq<TryBlock>)
    requires Shape(code, ins) && FitsReader(code) && TT.Assembled(ins, code)
    requires AllStand(code, ins, gs, blocks) && TT.IsTryTable(ins, blocks, code, built)
    ensures Regrouped(gs, built)
  {
    assert |ins| <= |code| + 1;
    SameOrder(code, ins, gs, blocks, |gs|);
    var order := TT.FirstOccurrences(RangesOf(gs, |gs|));
    hide Shape, FitsReader, AllStand, TT.FirstOccurrences, RangeKey, GoodRange;
    forall k | 0 <= k < |order|
      ensures RangeOf(built[k]) == order[k] && built[k].catches == CatchesOf(gs, |gs|, order[k])
    {
      SameGroup(code, ins, gs, blocks, |gs|, order[k]);
      hide TT.IsTryOf, GroupMatches;
      GroupLeadsBack(code, ins, TT.Group(blocks, |blocks|, RangeKey(code, |ins|, order[k])), order[k], CatchesOf(gs, |gs|, order[k]), built[k]);
    }
  }

  // ----- when regrouping changes nothing -----

  function Order(gs: seq<Guard>): seq<Range> { TT.FirstOccurrences(RangesOf(gs, |gs|)) }

  function Catches(gs: seq<Guard>, r: Range): seq<Catch> { CatchesOf(gs, |gs|, r) }

  lemma {:induction false} PrefixSame(gs: seq<Guard>, g: Guard, n: nat, r: Range)
    requires n <= |gs|
    ensures RangesOf(gs + [g], n) == RangesOf(gs, n) && CatchesOf(gs + [g], n, r) == CatchesOf(gs, n, r)
  {
    if n > 0 {
      PrefixSame(gs, g, n - 1, r);
    }
  }

  lemma AddGuard(gs: seq<Guard>, g: Guard, r: Range)
    ensures Order(gs + [g]) == if g.range in Order(gs) then Order(gs) else Order(gs) + [g.range]
    ensures Catches(gs + [g], r) == Catches(gs, r) + if g.range == r then [g.catch] else []
  {
    PrefixSame(gs, g, |gs|, r);
    TT.FirstOccurrencesAppend(RangesOf(gs, |gs|), g.range);
  }

  lemma {:induction false} AddTry(gs: seq<Guard>, t: TryBlock, j: nat, r: Range)
    requires j <= |t.catches|
    ensures Order(gs + GuardsOf(t, j)) == if j == 0 || RangeOf(t) in Order(gs) then Order(gs) else Order(gs) + [RangeOf(t)]
    ensures Catches(gs + GuardsOf(t, j), r) == Catches(gs, r) + if RangeOf(t) == r then t.catches[..j] else []
  {
    hide Order, Catches;
    if j == 0 {
      assert gs + GuardsOf(t, 0) == gs;
    } else {
      AddTry(gs, t, j - 1, r);
      var g := Guard(RangeOf(t), t.catches[j - 1]);
      AddGuard(gs + GuardsOf(t, j - 1), g, r);
      assert gs + GuardsOf(t, j) == gs + GuardsOf(t, j - 1) + [g];
      assert t.catches[..j] == t.catches[..j - 1] + [t.catches[j - 1]];
    }
  }

  /** The ranges of a try table are distinct and each has a catch block. */
  predicate Canonical(tries: seq<TryBlock>) {
    && (forall i :: 0 <= i < |tries| ==> tries[i].catches != [])
    && (forall i, j :: 0 <= i < j < |tries| ==> RangeOf(tries[i]) != RangeOf(tries[j]))
  }

  function TryRanges(tries: seq<TryBlock>, n: nat): (rs: seq<Range>)
    requires n <= |tries|
    ensures |rs| == n && forall k :: 0 <= k < n ==> rs[k] == RangeOf(tries[k])
  {
    if n == 0 then [] else TryRanges(tries, n - 1) + [RangeOf(tries[n - 1])]
  }

  lemma NoGuards(r: Range)
    ensures Order([]) == [] && Catches([], r) == []
  {
  }

  lemma {:induction false} CanonicalStays(tries: seq<TryBlock>, n: nat, k: nat)
    requires Canonical(tries) && n <= |tries| && k < |tries|
    ensures Order(Flatten(tries, n)) == TryRanges(tries, n)
    ensures Catches(Flatten(tries, n), RangeOf(tries[k])) == if k < n then tries[k].catches else []
  {
    hide Order, Catches, GuardsOf, RangeOf;
    if n == 0 {
      NoGuards(RangeOf(tries[k]));
    } else {
      var t := tries[n - 1];
      CanonicalStays(tries, n - 1, k);
      AddTry(Flatten(tries, n - 1), t, |t.catches|, RangeOf(tries[k]));
      assert t.catches[..|t.catches|] == t.catches;
    }
  }

  lemma {:induction false} ListedHasCatch(gs: seq<Guard>, n: nat, r: Range)
    requires n <= |gs| && r in RangesOf(gs, n)
    ensures CatchesOf(gs, n, r) != []
  {
    if r in RangesOf(gs, n - 1) {
      ListedHasCatch(gs, n - 1, r);
    }
  }

  lemma {:induction false} CanonicalIsRegrouped(tries: seq<TryBlock>)
    requires Canonical(tries)
    ensures Regrouped(Flatten(tries, |tries|), tries)
  {
    hide Canonical, RangeOf;
    var gs := Flatten(tries, |tries|);
    if tries == [] {
      NoGuards(Range(0, 0));
    }
    forall k | 0 <= k < |tries|
      ensures Order(gs) == TryRanges(tries, |tries|) && Catches(gs, RangeOf(tries[k])) == tries[k].catches
    {
      CanonicalStays(tries, |tries|, k);
    }
  }

  lemma RegroupedIsCanonical(gs: seq<Guard>, tries: seq<TryBlock>)
    requires Regrouped(gs, tries)
    ensures Canonical(tries)
  {
    TT.FirstOccurrencesAre(RangesOf(gs, |gs|));
    forall k | 0 <= k < |tries|
      ensures tries[k].catches != []
    {
      assert Order(gs)[k] in Order(gs);
      ListedHasCatch(gs, |gs|, Order(gs)[k]);
    }
  }

  lemma RegroupedIsUnique(gs: seq<Guard>, a: seq<TryBlock>, b: seq<TryBlock>)
    requires Regrouped(gs, a) && Regrouped(gs, b)
    ensures a == b
  {
    forall k | 0 <= k < |a|
      ensures a[k] == b[k]
    {
      assert RangeOf(a[k]) == RangeOf(b[k]);
    }
  }

  /** Reading a function and assembling its try table again: the same table, if and only if
      its ranges are distinct and none is without a catch block. */
  method ReadAndAssemble(code: seq<BcIns>, tries: seq<TryBlock>) returns (built: seq<TryBlock>)
    requires WellFormed(code, tries)
    ensures Regrouped(Flatten(tries, |tries|), built)
    ensures built == tries <==> Canonical(tries)
  {
    var p := new AbcCodeProcessor(code, tries);
    p.FillProgramData([], [], []);
    ValidsAre(code, p.ins, |p.ins|);
    built := TT.BuildTryBlocks(p.ins, p.catchBlocks, code);
    FinishTrip(code, tries, p.ins, p.catchBlocks, built);
  }

  lemma FinishTrip(code: seq<BcIns>, tries: seq<TryBlock>, ins: seq<PaIns>, blocks: seq<CatchBlock>, built: seq<TryBlock>)
    requires WellFormed(code, tries) && |ins| == Slots(code, tries) && Shape(code, ins) && TT.Assembled(ins, code)
    requires AllStand(code, ins, Flatten(tries, |tries|), blocks)
    requires if ins == [] then built == [] else TT.IsTryTable(ins, blocks, code, built)
    ensures Regrouped(Flatten(tries, |tries|), built)
    ensures built == tries <==> Canonical(tries)
  {
    var gs := Flatten(tries, |tries|);
    if Canonical(tries) {
      CanonicalIsRegrouped(tries);
    }
    if ins == [] {
      assert forall i :: 0 <= i < |tries| ==> GoodTry(code, 0, tries[i]);
      assert |tries| == 0;
    } else {
      TryTableRoundTrip(code, ins, gs, blocks, built);
    }
    RegroupedIsCanonical(gs, built);
    if Canonical(tries) {
      RegroupedIsUnique(gs, tries, built);
    }
  }

  // ----- a table that does not come back -----

  const EXAMPLE_CODE := [BcIns(1, None), BcIns(1, None)]
  const EXAMPLE_CATCHES := [Catch(1, 0, "A"), Catch(1, 0, "B")]

  /** One range in two try blocks. */
  function Doubled(): seq<TryBlock> { [TryBlock(0, 1, EXAMPLE_CATCHES[..1]), TryBlock(0, 1, EXAMPLE_CATCHES[1..])] }

  lemma DoubledIsWellFormed()
    ensures WellFormed(EXAMPLE_CODE, Doubled()) && !Canonical(Doubled())
  {
    var code, tries := EXAMPLE_CODE, Doubled();
    assert PcOf(code, 0) == 0 && PcOf(code, 1) == 1 && PcOf(code, 2) == 2;
    assert !EndsAtCodeEnd(code, tries);
    assert forall c :: c in EXAMPLE_CATCHES ==> GoodCatch(code, 2, c);
    assert GoodTry(code, 2, tries[0]) && GoodTry(code, 2, tries[1]);
    assert RangeOf(tries[0]) == RangeOf(tries[1]);
  }

  lemma DoubledIsMerged()
    ensures Regrouped(Flatten(Doubled(), 2), [TryBlock(0, 1, EXAMPLE_CATCHES)])
  {
    var r := Range(0, 1);
    var tries := Doubled();
    var gs := Flatten(tries, 2);
    assert GuardsOf(tries[0], 1) == [Guard(r, EXAMPLE_CATCHES[0])] && GuardsOf(tries[1], 1) == [Guard(r, EXAMPLE_CATCHES[1])];
    assert Flatten(tries, 1) == [Guard(r, EXAMPLE_CATCHES[0])];
    assert gs == [Guard(r, EXAMPLE_CATCHES[0]), Guard(r, EXAMPLE_CATCHES[1])];
    assert RangesOf(gs, 1) == [r] && RangesOf(gs, 2) == [r, r] && [r, r][..1] == [r];
    assert TT.FirstOccurrences([r]) == [r];
    assert CatchesOf(gs, 1, r) == EXAMPLE_CATCHES[..1] && CatchesOf(gs, 2, r) == EXAMPLE_CATCHES;
  }

  /** Reading and assembling it gives one try block with both catch blocks. */
  method ReassembleDoubled() returns (built: seq<TryBlock>)
    ensures built == [TryBlock(0, 1, EXAMPLE_CATCHES)] && built != Doubled()
  {
    hide WellFormed, Canonical, Regrouped, Flatten;
    DoubledIsWellFormed();
    DoubledIsMerged();
    built := ReadAndAssemble(EXAMPLE_CODE, Doubled());
    RegroupedIsUnique(Flatten(Doubled(), 2), built, [TryBlock(0, 1, EXAMPLE_CATCHES)]);
  }
}

/** Try tables: grouping catch blocks by the range they guard, as MakeOrderAndOffsets and
    BuildTryBlocks in assembler/assembly-emitter.cpp do. */
module TryTables {
  import opened Options
  import opened Sums
  import opened Labels
  import opened Pandasm

  const SIZE := 0x1_0000_0000_0000_0000

  // ----- first occurrences -----

  function FirstOccurrences<K(==)>(keys: seq<K>): seq<K> {
    if keys == [] then []
    else
      var init := FirstOccurrences(keys[..|keys| - 1]);
      var key := keys[|keys| - 1];
      if key in init then init else init + [key]
  }

  predicate Distinct<K(==)>(keys: seq<K>) {
    forall i, j :: 0 <= i < j < |keys| ==> keys[i] != keys[j]
  }

  lemma {:induction false} FirstOccurrencesAre<K>(keys: seq<K>)
    ensures Distinct(FirstOccurrences(keys))
    ensures forall k :: k in FirstOccurrences(keys) <==> k in keys
  {
    if keys != [] {
      var init, key := keys[..|keys| - 1], keys[|keys| - 1];
      FirstOccurrencesAre(init);
      assert keys == init + [key];
    }
  }

  lemma FirstOccurrencesAppend<K>(keys: seq<K>, key: K)
    ensures FirstOccurrences(keys + [key]) ==
            if key in FirstOccurrences(keys) then FirstOccurrences(keys) else FirstOccurrences(keys) + [key]
  {
    assert (keys + [key])[..|keys|] == keys;
  }

  // ----- what MakeOrderAndOffsets collects -----

  function KeyOf(c: CatchBlock): string { TryKey(c.tryBegin, c.tryEnd) }

  /** The keys of the first n catch blocks. */
  function Keys(blocks: seq<CatchBlock>, n: nat): (keys: seq<string>)
    requires n <= |blocks|
  {
    if n == 0 then [] else Keys(blocks, n - 1) + [KeyOf(blocks[n - 1])]
  }

  /** The blocks with one key among the first n. */
  function Group(blocks: seq<CatchBlock>, n: nat, key: string): seq<CatchBlock>
    requires n <= |blocks|
  {
    if n == 0 then []
    else Group(blocks, n - 1, key) + (if KeyOf(blocks[n - 1]) == key then [blocks[n - 1]] else [])
  }

  lemma {:induction false} GroupIsEmpty(blocks: seq<CatchBlock>, n: nat, key: string)
    requires n <= |blocks|
    ensures key !in Keys(blocks, n) <==> Group(blocks, n, key) == []
  {
    if n > 0 {
      GroupIsEmpty(blocks, n - 1, key);
    }
  }

  lemma {:induction false} GroupHasKey(blocks: seq<CatchBlock>, n: nat, key: string)
    requires n <= |blocks|
    ensures forall c :: c in Group(blocks, n, key) ==> KeyOf(c) == key && c in blocks
  {
    if n > 0 {
      GroupHasKey(blocks, n - 1, key);
    }
  }

  function LabelsOf(c: CatchBlock): set<string> { {c.tryBegin, c.tryEnd, c.catchBegin, c.catchEnd} }

  function UsedLabels(blocks: seq<CatchBlock>, n: nat): set<string>
    requires n <= |blocks|
  {
    if n == 0 then {} else UsedLabels(blocks, n - 1) + LabelsOf(blocks[n - 1])
  }

  lemma {:induction false} UsesAll(blocks: seq<CatchBlock>, n: nat, i: nat)
    requires i < n <= |blocks|
    ensures LabelsOf(blocks[i]) <= UsedLabels(blocks, n)
  {
    if i < n - 1 {
      UsesAll(blocks, n - 1, i);
    }
  }

  /** Whether tries holds the groups of the first n blocks. */
  ghost predicate Collected(blocks: seq<CatchBlock>, n: nat, tries: map<string, seq<CatchBlock>>, order: seq<string>)
    requires n <= |blocks|
  {
    && order == FirstOccurrences(Keys(blocks, n))
    && (forall k :: k in tries <==> k in order)
    && (forall k :: k in tries ==> tries[k] == Group(blocks, n, k))
  }

  lemma NothingCollected(blocks: seq<CatchBlock>)
    ensures Collected(blocks, 0, map[], [])
  {
  }

  /** One block goes to the group of its key. */
  lemma CollectNext(blocks: seq<CatchBlock>, n: nat, tries: map<string, seq<CatchBlock>>, order: seq<string>)
    requires n < |blocks| && Collected(blocks, n, tries, order)
    ensures var key := KeyOf(blocks[n]);
            var group := if key in tries then tries[key] else [];
            Collected(blocks, n + 1, tries[key := group + [blocks[n]]], if key in tries then order else order + [key])
  {
    var key := KeyOf(blocks[n]);
    FirstOccurrencesAppend(Keys(blocks, n), key);
    FirstOccurrencesAre(Keys(blocks, n));
    GroupIsEmpty(blocks, n, key);
    assert Keys(blocks, n + 1) == Keys(blocks, n) + [key];
    var tries' := tries[key := (if key in tries then tries[key] else []) + [blocks[n]]];
    forall k | k in tries'
      ensures tries'[k] == Group(blocks, n + 1, k)
    {
    }
    hide KeyOf, FirstOccurrences, Group, Keys;
  }

  lemma Overwritten<K, V>(m: map<K, V>, k: K, a: V, b: V)
    ensures m[k := a][k := b] == m[k := b]
  {
  }

  /** The block goes to the group of its key, which is made when it is new. */
  method AddToGroup(blocks: seq<CatchBlock>, n: nat, tries0: map<string, seq<CatchBlock>>, order0: seq<string>)
    returns (tries: map<string, seq<CatchBlock>>, order: seq<string>)
    requires n < |blocks| && Collected(blocks, n, tries0, order0)
    ensures Collected(blocks, n + 1, tries, order)
  {
    CollectNext(blocks, n, tries0, order0);
    hide Collected, KeyOf;
    tries, order := tries0, order0;
    var key := KeyOf(blocks[n]);
    if key !in tries {
      tries := tries[key := []];
      order := order + [key];
    }
    Overwritten(tries0, key, [], [] + [blocks[n]]);
    tries := tries[key := tries[key] + [blocks[n]]];
  }

  predicate AllZero(labels: map<string, nat>) { forall l :: l in labels ==> labels[l] == 0 }

  method AddLabels(labels0: map<string, nat>, c: CatchBlock) returns (labels: map<string, nat>)
    requires AllZero(labels0)
    ensures labels.Keys == labels0.Keys + LabelsOf(c) && AllZero(labels)
  {
    labels := labels0[c.tryBegin := 0][c.tryEnd := 0][c.catchBegin := 0][c.catchEnd := 0];
  }

  /** The first loop of MakeOrderAndOffsets: labels at offset zero, groups, order. */
  method CollectTries(blocks: seq<CatchBlock>)
    returns (labels: map<string, nat>, tries: map<string, seq<CatchBlock>>, order: seq<string>)
    ensures labels.Keys == UsedLabels(blocks, |blocks|) && AllZero(labels)
    ensures Collected(blocks, |blocks|, tries, order)
  {
    labels, tries, order := map[], map[], [];
    assert AllZero(labels);
    hide Collected, AllZero, LabelsOf;
    NothingCollected(blocks);
    for n := 0 to |blocks|
      invariant labels.Keys == UsedLabels(blocks, n) && AllZero(labels)
      invariant Collected(blocks, n, tries, order)
    {
      labels := AddLabels(labels, blocks[n]);
      tries, order := AddToGroup(blocks, n, tries, order);
    }
  }

  /** How many of the first i instructions emit code. */
  function Valids(ins: seq<PaIns>, i: nat): (n: nat)
    requires i <= |ins|
  {
    Sum(ValidBits(ins), i)
  }

  function ValidBits(ins: seq<PaIns>): (s: seq<nat>)
    ensures |s| == |ins| && forall i :: 0 <= i < |ins| ==> s[i] == Bit(ins[i].valid)
  {
    seq(|ins|, i requires 0 <= i < |ins| => Bit(ins[i].valid))
  }

  lemma ValidsMonotone(ins: seq<PaIns>, i: nat, j: nat)
    requires i <= j <= |ins|
    ensures Valids(ins, i) <= Valids(ins, j)
  {
    SumGrows(ValidBits(ins), i, j);
  }

  /** The bytecode has one instruction for each valid one. */
  predicate Assembled(ins: seq<PaIns>, code: seq<BcIns>) { Valids(ins, |ins|) == |code| }

  function OffsetAt(ins: seq<PaIns>, code: seq<BcIns>, i: nat): nat
    requires i <= |ins| && Assembled(ins, code)
  {
    ValidsMonotone(ins, i, |ins|);
    PcOf(code, Valids(ins, i))
  }

  /** The offset of the last of the first n instructions that carries a label; 0 if none does. */
  function LabelOffset(ins: seq<PaIns>, code: seq<BcIns>, n: nat, name: string): nat
    requires n <= |ins| && Assembled(ins, code)
  {
    if n == 0 then 0
    else if ins[n - 1].labelName == Some(name) then OffsetAt(ins, code, n - 1)
    else LabelOffset(ins, code, n - 1, name)
  }

  /** The second loop of MakeOrderAndOffsets. */
  method FillOffsets(ins: seq<PaIns>, code: seq<BcIns>, labels0: map<string, nat>) returns (labels: map<string, nat>)
    requires Assembled(ins, code) && AllZero(labels0)
    ensures labels.Keys == labels0.Keys
    ensures forall l :: l in labels ==> labels[l] == LabelOffset(ins, code, |ins|, l)
  {
    labels := labels0;
    var bi, pcOffset := 0, 0;
    for i := 0 to |ins|
      invariant labels.Keys == labels0.Keys
      invariant bi == Valids(ins, i) && bi <= |code| && pcOffset == OffsetAt(ins, code, i)
      invariant forall l :: l in labels ==> labels[l] == LabelOffset(ins, code, i, l)
    {
      ValidsMonotone(ins, i + 1, |ins|);
      if ins[i].labelName.Some? && ins[i].labelName.value in labels {
        labels := labels[ins[i].labelName.value := pcOffset];
      }
      if ins[i].valid {
        pcOffset := pcOffset + code[bi].size;
        bi := bi + 1;
      }
    }
  }

  /** MakeOrderAndOffsets. */
  method MakeOrderAndOffsets(ins: seq<PaIns>, blocks: seq<CatchBlock>, code: seq<BcIns>)
    returns (labels: map<string, nat>, tries: map<string, seq<CatchBlock>>, order: seq<string>)
    requires Assembled(ins, code)
    ensures labels.Keys == UsedLabels(blocks, |blocks|)
    ensures forall l :: l in labels ==> labels[l] == LabelOffset(ins, code, |ins|, l)
    ensures Collected(blocks, |blocks|, tries, order)
  {
    labels, tries, order := CollectTries(blocks);
    labels := FillOffsets(ins, code, labels);
  }

  // ----- BuildTryBlocks -----

  function OffsetOf(ins: seq<PaIns>, code: seq<BcIns>, name: string): nat
    requires Assembled(ins, code)
  {
    LabelOffset(ins, code, |ins|, name)
  }

  /** The catch of one block; the size is a difference of unsigned 64-bit numbers. */
  function BuiltCatch(ins: seq<PaIns>, code: seq<BcIns>, c: CatchBlock): Catch
    requires Assembled(ins, code)
  {
    var handler := OffsetOf(ins, code, c.catchBegin);
    Catch(handler, (OffsetOf(ins, code, c.catchEnd) - handler) % SIZE, c.exceptionRecord)
  }

  /** The try block of a group. */
  ghost predicate IsTryOf(ins: seq<PaIns>, code: seq<BcIns>, group: seq<CatchBlock>, t: TryBlock)
    requires Assembled(ins, code)
  {
    && group != []
    && var start := OffsetOf(ins, code, group[0].tryBegin);
    && t.startPc == start
    && t.length == (OffsetOf(ins, code, group[0].tryEnd) - start) % SIZE
    && |t.catches| == |group|
    && forall j :: 0 <= j < |group| ==> t.catches[j] == BuiltCatch(ins, code, group[j])
  }

  ghost predicate LabelsFilled(ins: seq<PaIns>, blocks: seq<CatchBlock>, code: seq<BcIns>, labels: map<string, nat>)
    requires Assembled(ins, code)
  {
    && labels.Keys == UsedLabels(blocks, |blocks|)
    && forall l :: l in labels ==> labels[l] == OffsetOf(ins, code, l)
  }

  /** The try block of one key. */
  method BuildTryBlock(ins: seq<PaIns>, ghost blocks: seq<CatchBlock>, code: seq<BcIns>, labels: map<string, nat>, group: seq<CatchBlock>)
    returns (t: TryBlock)
    requires Assembled(ins, code) && LabelsFilled(ins, blocks, code, labels)
    requires group != [] && forall c :: c in group ==> c in blocks
    ensures IsTryOf(ins, code, group, t)
  {
    forall j | 0 <= j < |group|
      ensures LabelsOf(group[j]) <= labels.Keys
    {
      assert group[j] in group;
      var i :| 0 <= i < |blocks| && blocks[i] == group[j];
      UsesAll(blocks, |blocks|, i);
    }
    hide OffsetOf, UsedLabels;
    var catches := [];
    for j := 0 to |group|
      invariant |catches| == j
      invariant forall k :: 0 <= k < j ==> catches[k] == BuiltCatch(ins, code, group[k])
    {
      assert LabelsOf(group[j]) <= labels.Keys;
      var handler := labels[group[j].catchBegin];
      catches := catches + [Catch(handler, (labels[group[j].catchEnd] - handler) % SIZE, group[j].exceptionRecord)];
    }
    assert LabelsOf(group[0]) <= labels.Keys;
    var start := labels[group[0].tryBegin];
    t := TryBlock(start, (labels[group[0].tryEnd] - start) % SIZE, catches);
  }

  /** BuildTryBlocks: one try block for each range, in the order of the first catch block with
      that range, each with all the catch blocks of that range. */
  method BuildTryBlocks(ins: seq<PaIns>, blocks: seq<CatchBlock>, code: seq<BcIns>) returns (built: seq<TryBlock>)
    requires Assembled(ins, code)
    ensures ins == [] ==> built == []
    ensures ins != [] ==> IsTryTable(ins, blocks, code, built)
  {
    built := [];
    if ins == [] {
      return;
    }
    var labels, tries, order := MakeOrderAndOffsets(ins, blocks, code);
    GroupsUsable(blocks, tries, order);
    assert LabelsFilled(ins, blocks, code, labels);
    hide Collected, LabelsFilled, FirstOccurrences, IsTryOf, Group;
    for n := 0 to |order|
      invariant |built| == n
      invariant forall k :: 0 <= k < n ==> IsTryOf(ins, code, Group(blocks, |blocks|, order[k]), built[k])
    {
      assert GroupUsable(blocks, tries, order[n]);
      var t := BuildTryBlock(ins, blocks, code, labels, tries[order[n]]);
      built := built + [t];
    }
  }

  ghost predicate GroupUsable(blocks: seq<CatchBlock>, tries: map<string, seq<CatchBlock>>, key: string) {
    key in tries && tries[key] == Group(blocks, |blocks|, key) && tries[key] != [] && forall c :: c in tries[key] ==> c in blocks
  }

  lemma GroupsUsable(blocks: seq<CatchBlock>, tries: map<string, seq<CatchBlock>>, order: seq<string>)
    requires Collected(blocks, |blocks|, tries, order)
    ensures order == FirstOccurrences(Keys(blocks, |blocks|))
    ensures forall n :: 0 <= n < |order| ==> GroupUsable(blocks, tries, order[n])
  {
    FirstOccurrencesAre(Keys(blocks, |blocks|));
    forall n | 0 <= n < |order|
      ensures GroupUsable(blocks, tries, order[n])
    {
      assert order[n] in order;
      GroupIsEmpty(blocks, |blocks|, order[n]);
      GroupHasKey(blocks, |blocks|, order[n]);
    }
  }

  ghost predicate IsTryTable(ins: seq<PaIns>, blocks: seq<CatchBlock>, code: seq<BcIns>, built: seq<TryBlock>)
    requires Assembled(ins, code)
  {
    var order := FirstOccurrences(Keys(blocks, |blocks|));
    && |built| == |order|
    && forall k :: 0 <= k < |order| ==> IsTryOf(ins, code, Group(blocks, |blocks|, order[k]), built[k])
  }
}

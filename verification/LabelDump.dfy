/** Removing instructions that only carry a label before a function is dumped:
    abc2program/program_dump.cpp. */
module LabelDump {
  import opened Options
  import opened Sums
  import opened Labels

  /** An instruction; target is the label a jump names. */
  datatype DumpIns = DumpIns(valid: bool, labelName: Option<string>, target: Option<string>)

  // ----- what is given -----

  /** The first valid instruction at or after i; |ins| if there is none. */
  function Next(ins: seq<DumpIns>, i: nat): (j: nat)
    requires i <= |ins|
    ensures i <= j <= |ins| && (j < |ins| ==> ins[j].valid)
    decreases |ins| - i
  {
    if i == |ins| || ins[i].valid then i else Next(ins, i + 1)
  }

  /** Labels are unique and not empty, a valid instruction follows each label on an INVALID one,
      and every jump names the label of an instruction. */
  ghost predicate WellLabelled(ins: seq<DumpIns>) {
    && (forall i :: 0 <= i < |ins| && ins[i].labelName.Some? ==> ins[i].labelName.value != "" && Next(ins, i) < |ins|)
    && (forall i, j :: 0 <= i < j < |ins| && ins[i].labelName.Some? ==> ins[i].labelName != ins[j].labelName)
    && (forall i :: 0 <= i < |ins| && ins[i].target.Some? ==> ins[i].valid && Names(ins, ins[i].target.value))
  }

  ghost predicate Names(ins: seq<DumpIns>, name: string) {
    exists k :: 0 <= k < |ins| && ins[k].labelName == Some(name)
  }

  ghost function Named(ins: seq<DumpIns>, name: string): (k: nat)
    requires Names(ins, name)
    ensures k < |ins| && ins[k].labelName == Some(name)
  {
    var k :| 0 <= k < |ins| && ins[k].labelName == Some(name);
    k
  }

  // ----- what it should become -----

  /** How many valid instructions come before i: the index of instruction i among those. */
  function Rank(ins: seq<DumpIns>, i: nat): (n: nat)
    requires i <= |ins|
    ensures n <= i
  {
    BitsWithin(ValidBits(ins), i);
    Sum(ValidBits(ins), i)
  }

  function ValidBits(ins: seq<DumpIns>): (s: seq<nat>)
    ensures |s| == |ins| && forall i :: 0 <= i < |ins| ==> s[i] == Bit(ins[i].valid)
  {
    seq(|ins|, i requires 0 <= i < |ins| => Bit(ins[i].valid))
  }

  /** The indices of the valid ones among the first n instructions. */
  function Survivors(ins: seq<DumpIns>, n: nat): (res: seq<nat>)
    requires n <= |ins|
    ensures |res| == Rank(ins, n)
  {
    if n == 0 then [] else Survivors(ins, n - 1) + (if ins[n - 1].valid then [n - 1] else [])
  }

  /** The first label on the INVALID instructions directly before i. */
  function RunLabel(ins: seq<DumpIns>, i: nat): Option<string>
    requires i <= |ins|
  {
    if i == 0 || ins[i - 1].valid then None
    else if RunLabel(ins, i - 1).Some? then RunLabel(ins, i - 1)
    else ins[i - 1].labelName
  }

  /** The label a valid instruction keeps: its own, or else that of the run before it. */
  function Kept(ins: seq<DumpIns>, j: nat): Option<string>
    requires j < |ins|
  {
    if ins[j].labelName.Some? then ins[j].labelName else RunLabel(ins, j)
  }

  /** The instruction a jump to a label reaches: the first valid one at or after the label. */
  ghost function Reached(ins: seq<DumpIns>, name: string): (j: nat)
    requires Names(ins, name)
  {
    Next(ins, Named(ins, name))
  }

  /** An instruction without a label is given one that another keeps from before. */
  predicate Clash(ins: seq<DumpIns>, j: nat, k: nat)
    requires j < |ins| && k < |ins|
  {
    ins[j].valid && ins[k].valid && Kept(ins, j).None? && Kept(ins, k) == Some(Label(Rank(ins, j)))
  }

  predicate NoClash(ins: seq<DumpIns>) {
    forall j, k :: 0 <= j < |ins| && 0 <= k < |ins| ==> !Clash(ins, j, k)
  }

  // ----- counting -----

  lemma RankGrows(ins: seq<DumpIns>, i: nat, j: nat)
    requires i < j <= |ins|
    ensures Rank(ins, i) <= Rank(ins, j) && (ins[i].valid ==> Rank(ins, i) < Rank(ins, j))
  {
    SumGrows(ValidBits(ins), i, j);
  }

  lemma {:induction false} SurvivorAt(ins: seq<DumpIns>, n: nat, j: nat)
    requires j < n <= |ins| && ins[j].valid
    ensures Rank(ins, j) < Rank(ins, n) && Survivors(ins, n)[Rank(ins, j)] == j
  {
    RankGrows(ins, j, n);
    if j < n - 1 {
      RankGrows(ins, j, n - 1);
      SurvivorAt(ins, n - 1, j);
    }
  }

  lemma {:induction false} SurvivorIs(ins: seq<DumpIns>, n: nat, q: nat)
    requires n <= |ins| && q < Rank(ins, n)
    ensures var j := Survivors(ins, n)[q]; j < n && ins[j].valid && Rank(ins, j) == q
  {
    if q < Rank(ins, n - 1) {
      SurvivorIs(ins, n - 1, q);
    }
  }

  // ----- kept labels -----

  /** A label of a run belongs to an instruction of that run. */
  lemma {:induction false} RunLabelIsNear(ins: seq<DumpIns>, i: nat) returns (k: nat)
    requires i <= |ins| && RunLabel(ins, i).Some?
    ensures k < i && ins[k].labelName == RunLabel(ins, i) && Next(ins, k) == Next(ins, i)
  {
    if RunLabel(ins, i - 1).Some? {
      k := RunLabelIsNear(ins, i - 1);
    } else {
      k := i - 1;
    }
  }

  lemma KeptIsNear(ins: seq<DumpIns>, j: nat) returns (k: nat)
    requires j < |ins| && ins[j].valid && Kept(ins, j).Some?
    ensures k <= j && ins[k].labelName == Kept(ins, j) && Next(ins, k) == j
  {
    if ins[j].labelName.Some? {
      k := j;
    } else {
      k := RunLabelIsNear(ins, j);
    }
  }

  lemma LabelIsUnique(ins: seq<DumpIns>, i: nat, j: nat)
    requires WellLabelled(ins) && i < |ins| && j < |ins| && ins[i].labelName.Some? && ins[i].labelName == ins[j].labelName
    ensures i == j
  {
    hide Next, Names;
  }

  /** No two survivors keep the same label. */
  lemma KeptIsUnique(ins: seq<DumpIns>, i: nat, j: nat)
    requires WellLabelled(ins) && i < |ins| && j < |ins| && ins[i].valid && ins[j].valid
    requires Kept(ins, i).Some? && Kept(ins, i) == Kept(ins, j)
    ensures i == j
  {
    var a := KeptIsNear(ins, i);
    var b := KeptIsNear(ins, j);
    LabelIsUnique(ins, a, b);
  }

  // ----- the first map: labels of INVALID instructions -----

  /** The label of instruction j after the first n instructions have been looked at. */
  function LabelAfter(ins: seq<DumpIns>, n: nat, j: nat): Option<string>
    requires n <= |ins| && j < |ins|
  {
    if !ins[j].valid || ins[j].labelName.Some? then ins[j].labelName
    else if j < n then RunLabel(ins, j)
    else if j == Next(ins, n) then RunLabel(ins, n)
    else None
  }

  lemma LabelAfterAll(ins: seq<DumpIns>, j: nat)
    requires j < |ins| && ins[j].valid
    ensures LabelAfter(ins, |ins|, j) == Kept(ins, j) && LabelAfter(ins, 0, j) == ins[j].labelName
  {
  }

  /** One more instruction: only the next valid one can get a label, and only from an INVALID one. */
  lemma LabelAfterNext(ins: seq<DumpIns>, n: nat, j: nat)
    requires n < |ins| && j < |ins|
    ensures LabelAfter(ins, n + 1, j) ==
            if !ins[n].valid && ins[n].labelName.Some? && j == Next(ins, n) && LabelAfter(ins, n, j).None? then ins[n].labelName
            else LabelAfter(ins, n, j)
  {
  }

  /** ins with the labels after n instructions. */
  ghost predicate Labelled(ins: seq<DumpIns>, n: nat, now: seq<DumpIns>) {
    && n <= |ins| && |now| == |ins|
    && forall j :: 0 <= j < |ins| ==> now[j] == ins[j].(labelName := LabelAfter(ins, n, j))
  }

  /** The map sends the label of each INVALID instruction among the first n to the label of the
      valid one that follows. */
  ghost predicate MapsRuns(ins: seq<DumpIns>, n: nat, labels: map<string, string>) {
    && n <= |ins|
    && (forall i :: 0 <= i < n && !ins[i].valid && ins[i].labelName.Some? ==> MapsRun(ins, n, labels, i))
    && (forall l :: l in labels ==> ComesFromRun(ins, n, l))
  }

  ghost predicate MapsRun(ins: seq<DumpIns>, n: nat, labels: map<string, string>, i: nat)
    requires i < |ins| && n <= |ins| && ins[i].labelName.Some?
  {
    var j := Next(ins, i);
    j < |ins| && ins[i].labelName.value in labels && LabelAfter(ins, n, j) == Some(labels[ins[i].labelName.value])
  }

  ghost predicate ComesFromRun(ins: seq<DumpIns>, n: nat, l: string) {
    exists i :: 0 <= i < n && i < |ins| && !ins[i].valid && ins[i].labelName == Some(l)
  }

  lemma MapsRunsStart(ins: seq<DumpIns>)
    ensures Labelled(ins, 0, ins) && MapsRuns(ins, 0, map[])
  {
    forall j | 0 <= j < |ins|
      ensures ins[j] == ins[j].(labelName := LabelAfter(ins, 0, j))
    {
      if ins[j].valid {
        LabelAfterAll(ins, j);
      }
    }
  }

  /** What HandleInvalidopInsLabel adds to the map. */
  function MapNext(ins: seq<DumpIns>, n: nat, labels: map<string, string>): map<string, string>
    requires n < |ins|
  {
    var j := Next(ins, n);
    if ins[n].valid || ins[n].labelName.None? || j == |ins| || LabelAfter(ins, n + 1, j).None? then labels
    else if ins[n].labelName.value in labels then labels
    else labels[ins[n].labelName.value := LabelAfter(ins, n + 1, j).value]
  }

  lemma NewLabelIsNew(ins: seq<DumpIns>, n: nat, labels: map<string, string>)
    requires WellLabelled(ins) && n < |ins| && MapsRuns(ins, n, labels) && ins[n].labelName.Some?
    ensures ins[n].labelName.value !in labels
  {
  }

  /** The map has at most one label more. */
  lemma MapNextIs(ins: seq<DumpIns>, n: nat, labels: map<string, string>)
    requires WellLabelled(ins) && n < |ins| && MapsRuns(ins, n, labels)
    ensures if ins[n].valid || ins[n].labelName.None? then MapNext(ins, n, labels) == labels
            else
              && MapsRun(ins, n + 1, MapNext(ins, n, labels), n)
              && ins[n].labelName.value !in labels
              && MapNext(ins, n, labels) == labels[ins[n].labelName.value := MapNext(ins, n, labels)[ins[n].labelName.value]]
  {
    if !ins[n].valid && ins[n].labelName.Some? {
      NewLabelIsNew(ins, n, labels);
      LabelAfterNext(ins, n, Next(ins, n));
    }
  }

  lemma RunStaysMapped(ins: seq<DumpIns>, n: nat, labels: map<string, string>, labels': map<string, string>, i: nat)
    requires n < |ins| && i < n && ins[i].labelName.Some? && MapsRun(ins, n, labels, i)
    requires forall l :: l in labels ==> l in labels' && labels'[l] == labels[l]
    ensures MapsRun(ins, n + 1, labels', i)
  {
    LabelAfterNext(ins, n, Next(ins, i));
  }

  lemma MapsRunsNext(ins: seq<DumpIns>, n: nat, labels: map<string, string>)
    requires WellLabelled(ins) && n < |ins| && MapsRuns(ins, n, labels)
    ensures MapsRuns(ins, n + 1, MapNext(ins, n, labels))
  {
    hide MapsRun, WellLabelled, LabelAfter, Next, MapNext;
    MapNextIs(ins, n, labels);
    var labels' := MapNext(ins, n, labels);
    forall i | 0 <= i < n && !ins[i].valid && ins[i].labelName.Some?
      ensures MapsRun(ins, n + 1, labels', i)
    {
      RunStaysMapped(ins, n, labels, labels', i);
    }
    forall l | l in labels'
      ensures ComesFromRun(ins, n + 1, l)
    {
      if l in labels {
        assert ComesFromRun(ins, n, l);
        var i :| 0 <= i < n && i < |ins| && !ins[i].valid && ins[i].labelName == Some(l);
      }
    }
  }

  // ----- replacing labels -----

  /** GetMappedLabel and what is done with it: a label is replaced if the map has one for it. */
  function Replaced(labels: map<string, string>, name: Option<string>): Option<string> {
    if name.Some? && name.value in labels && labels[name.value] != "" then Some(labels[name.value]) else name
  }

  function Updated(labels: map<string, string>, i: DumpIns): DumpIns {
    i.(labelName := Replaced(labels, i.labelName), target := Replaced(labels, i.target))
  }

  /** The first map leaves the labels of survivors as they are. */
  lemma KeptIsFixed(ins: seq<DumpIns>, labels: map<string, string>, j: nat)
    requires WellLabelled(ins) && MapsRuns(ins, |ins|, labels) && j < |ins| && ins[j].valid
    ensures Replaced(labels, Kept(ins, j)) == Kept(ins, j)
  {
    var name := Kept(ins, j);
    if name.Some? && name.value in labels {
      assert ComesFromRun(ins, |ins|, name.value);
      var i :| 0 <= i < |ins| && !ins[i].valid && ins[i].labelName == name;
      var k := KeptIsNear(ins, j);
      LabelIsUnique(ins, i, k);
      assert MapsRun(ins, |ins|, labels, i);
      LabelAfterAll(ins, j);
    }
  }

  lemma RunLabelNotEmpty(ins: seq<DumpIns>, j: nat)
    requires WellLabelled(ins) && j < |ins| && ins[j].valid && Kept(ins, j).Some?
    ensures Kept(ins, j).value != ""
  {
    var k := KeptIsNear(ins, j);
  }

  /** A label, wherever it is, is replaced by the one that the instruction it leads to keeps. */
  lemma TargetIsKept(ins: seq<DumpIns>, labels: map<string, string>, name: string)
    requires WellLabelled(ins) && MapsRuns(ins, |ins|, labels) && Names(ins, name)
    ensures var j := Reached(ins, name); j < |ins| && ins[j].valid && Replaced(labels, Some(name)) == Kept(ins, j)
  {
    var t := Named(ins, name);
    var j := Next(ins, t);
    if ins[t].valid {
      KeptIsFixed(ins, labels, t);
    } else {
      assert MapsRun(ins, |ins|, labels, t);
      LabelAfterAll(ins, j);
      RunLabelNotEmpty(ins, j);
    }
  }

  // ----- after the first half -----

  /** Every survivor has the label it keeps, every jump the one that its destination keeps. */
  ghost predicate HalfDone(code: seq<DumpIns>, now: seq<DumpIns>) {
    |now| == |code| && forall j :: 0 <= j < |code| ==> now[j].valid == code[j].valid && (code[j].valid ==> HalfDoneAt(code, now, j))
  }

  ghost predicate HalfDoneAt(code: seq<DumpIns>, now: seq<DumpIns>, j: nat)
    requires j < |code| == |now|
  {
    && now[j].labelName == Kept(code, j)
    && if code[j].target.None? then now[j].target.None?
       else LeadsOn(code, code[j].target.value) && now[j].target == Kept(code, Reached(code, code[j].target.value))
  }

  /** The label leads to a valid instruction, which keeps a label. */
  ghost predicate LeadsOn(code: seq<DumpIns>, name: string) {
    Names(code, name) && var r := Reached(code, name); r < |code| && code[r].valid && Kept(code, r).Some?
  }

  lemma FirstHalf(code: seq<DumpIns>, marked: seq<DumpIns>, labels: map<string, string>, now: seq<DumpIns>)
    requires WellLabelled(code) && Labelled(code, |code|, marked) && MapsRuns(code, |code|, labels)
    requires |now| == |code| && forall j :: 0 <= j < |code| ==> now[j] == Updated(labels, marked[j])
    ensures HalfDone(code, now)
  {
    forall j | 0 <= j < |code|
      ensures now[j].valid == code[j].valid && (code[j].valid ==> HalfDoneAt(code, now, j))
    {
      assert marked[j] == code[j].(labelName := LabelAfter(code, |code|, j));
      if code[j].valid {
        LabelAfterAll(code, j);
        KeptIsFixed(code, labels, j);
        if code[j].target.Some? {
          TargetIsKept(code, labels, code[j].target.value);
        }
      }
    }
  }

  // ----- the second map: labels of survivors -----

  /** The labels that the first q survivors keep, with their final names. */
  ghost predicate MapsKept(code: seq<DumpIns>, q: nat, labels: map<string, string>) {
    && q <= Rank(code, |code|)
    && (forall j :: 0 <= j < |code| ==> MapsOne(code, q, labels, j))
    && (forall l :: l in labels ==> ComesFromKept(code, q, l))
  }

  ghost predicate MapsOne(code: seq<DumpIns>, q: nat, labels: map<string, string>, j: nat)
    requires j < |code|
  {
    code[j].valid && Rank(code, j) < q && Kept(code, j).Some? ==>
      Kept(code, j).value in labels && labels[Kept(code, j).value] == Label(Rank(code, j))
  }

  ghost predicate ComesFromKept(code: seq<DumpIns>, q: nat, l: string) {
    exists j :: 0 <= j < |code| && code[j].valid && Rank(code, j) < q && Kept(code, j) == Some(l)
  }

  /** The first q survivors without a label have been given one. */
  ghost predicate Numbered(code: seq<DumpIns>, half: seq<DumpIns>, q: nat, now: seq<DumpIns>) {
    && |half| == |now| == |code|
    && forall j :: 0 <= j < |code| ==> now[j] == half[j].(labelName := NumberedLabel(code, half, q, j))
  }

  function NumberedLabel(code: seq<DumpIns>, half: seq<DumpIns>, q: nat, j: nat): Option<string>
    requires j < |code| == |half|
  {
    if code[j].valid && Kept(code, j).None? && Rank(code, j) < q then Some(Label(Rank(code, j))) else half[j].labelName
  }

  /** Only survivor q has index q. */
  lemma OnlySurvivor(code: seq<DumpIns>, q: nat, j: nat)
    requires q < Rank(code, |code|) && j < |code| && code[j].valid && Rank(code, j) == q
    ensures j == Survivors(code, |code|)[q]
  {
    SurvivorAt(code, |code|, j);
  }

  lemma NumberedNext(code: seq<DumpIns>, half: seq<DumpIns>, q: nat, now: seq<DumpIns>)
    requires HalfDone(code, half) && Numbered(code, half, q, now) && q < Rank(code, |code|)
    ensures var k := Survivors(code, |code|)[q];
            k < |code| && now[k].labelName == Kept(code, k)
            && Numbered(code, half, q + 1, if Kept(code, k).Some? then now else now[k := now[k].(labelName := Some(Label(q)))])
  {
    SurvivorIs(code, |code|, q);
    var k := Survivors(code, |code|)[q];
    assert HalfDoneAt(code, half, k);
    var now' := if Kept(code, k).Some? then now else now[k := now[k].(labelName := Some(Label(q)))];
    hide HalfDone, Kept, Survivors, HalfDoneAt, Label, Rank;
    forall j | 0 <= j < |code|
      ensures now'[j] == half[j].(labelName := NumberedLabel(code, half, q + 1, j))
    {
      if code[j].valid && Rank(code, j) == q {
        OnlySurvivor(code, q, j);
      }
    }
  }

  lemma MapsKeptNext(code: seq<DumpIns>, q: nat, labels: map<string, string>)
    requires WellLabelled(code) && MapsKept(code, q, labels) && q < Rank(code, |code|)
    ensures var k := Survivors(code, |code|)[q];
            && k < |code|
            && (Kept(code, k).Some? ==> Kept(code, k).value !in labels)
            && MapsKept(code, q + 1, if Kept(code, k).Some? then labels[Kept(code, k).value := Label(q)] else labels)
  {
    hide WellLabelled, Kept, Survivors, Label, Rank;
    SurvivorIs(code, |code|, q);
    var k := Survivors(code, |code|)[q];
    if Kept(code, k).Some? {
      KeptIsNew(code, q, labels, k);
    }
    var labels' := if Kept(code, k).Some? then labels[Kept(code, k).value := Label(q)] else labels;
    var next := q + 1;
    forall j | 0 <= j < |code|
      ensures MapsOne(code, next, labels', j)
    {
      assert MapsOne(code, q, labels, j);
      if code[j].valid && Rank(code, j) == q {
        OnlySurvivor(code, q, j);
      }
    }
    forall l | l in labels'
      ensures ComesFromKept(code, q + 1, l)
    {
      if l in labels {
        assert ComesFromKept(code, q, l);
        var j :| 0 <= j < |code| && code[j].valid && Rank(code, j) < q && Kept(code, j) == Some(l);
      }
    }
  }

  lemma KeptIsNew(code: seq<DumpIns>, q: nat, labels: map<string, string>, k: nat)
    requires WellLabelled(code) && MapsKept(code, q, labels) && k < |code| && code[k].valid && Rank(code, k) == q && Kept(code, k).Some?
    ensures Kept(code, k).value !in labels
  {
    hide WellLabelled, Kept, Rank;
    forall j | 0 <= j < |code| && code[j].valid && Kept(code, j) == Kept(code, k)
      ensures j == k
    {
      KeptIsUnique(code, j, k);
    }
    assert !ComesFromKept(code, q, Kept(code, k).value);
  }

  // ----- the result -----

  /** Every survivor is labelled with its index. */
  ghost predicate LabelsRight(code: seq<DumpIns>, now: seq<DumpIns>) {
    |now| == |code| && forall j :: 0 <= j < |code| && code[j].valid ==> LabelRight(code, now, j)
  }

  ghost predicate LabelRight(code: seq<DumpIns>, now: seq<DumpIns>, j: nat)
    requires j < |code| == |now|
  {
    now[j].labelName == Some(Label(Rank(code, j)))
  }

  /** A jump names the first valid instruction at or after its original destination. */
  ghost predicate TargetRight(code: seq<DumpIns>, now: seq<DumpIns>, j: nat)
    requires j < |code| == |now|
  {
    if code[j].target.None? then now[j].target.None?
    else
      && Names(code, code[j].target.value)
      && var r := Reached(code, code[j].target.value);
      && r < |code| && code[r].valid && now[j].target == Some(Label(Rank(code, r)))
  }

  ghost predicate TargetsRight(code: seq<DumpIns>, now: seq<DumpIns>) {
    |now| == |code| && forall j :: 0 <= j < |code| && code[j].valid ==> TargetRight(code, now, j)
  }

  /** How the second half ends. */
  ghost predicate SecondHalf(code: seq<DumpIns>, half: seq<DumpIns>, numbered: seq<DumpIns>, labels: map<string, string>, now: seq<DumpIns>) {
    && HalfDone(code, half) && Numbered(code, half, Rank(code, |code|), numbered) && MapsKept(code, Rank(code, |code|), labels)
    && |now| == |code| && forall j :: 0 <= j < |code| && code[j].valid ==> now[j] == Updated(labels, numbered[j])
  }

  lemma KeptIsReplaced(code: seq<DumpIns>, labels: map<string, string>, j: nat)
    requires MapsKept(code, Rank(code, |code|), labels) && j < |code| && code[j].valid && Kept(code, j).Some?
    ensures Replaced(labels, Kept(code, j)) == Some(Label(Rank(code, j)))
  {
    hide Kept;
    assert MapsOne(code, Rank(code, |code|), labels, j);
    RankGrows(code, j, |code|);
    LabelShape(Rank(code, j));
  }

  lemma FinalTarget(code: seq<DumpIns>, half: seq<DumpIns>, numbered: seq<DumpIns>, labels: map<string, string>, now: seq<DumpIns>, j: nat)
    requires SecondHalf(code, half, numbered, labels, now) && j < |code| && code[j].valid
    ensures TargetRight(code, now, j)
  {
    assert HalfDoneAt(code, half, j);
    hide Kept, Rank, Label, Next, NumberedLabel;
    if code[j].target.Some? {
      KeptIsReplaced(code, labels, Reached(code, code[j].target.value));
    }
  }

  lemma FinalLabel(code: seq<DumpIns>, half: seq<DumpIns>, numbered: seq<DumpIns>, labels: map<string, string>, now: seq<DumpIns>, j: nat)
    requires SecondHalf(code, half, numbered, labels, now) && j < |code| && code[j].valid
    ensures now[j].labelName == if Kept(code, j).Some? then Some(Label(Rank(code, j))) else Replaced(labels, Some(Label(Rank(code, j))))
  {
    assert HalfDoneAt(code, half, j);
    RankGrows(code, j, |code|);
    hide Kept, Rank, Label, Next;
    if Kept(code, j).Some? {
      KeptIsReplaced(code, labels, j);
    }
  }

  /** A label that was made for an instruction is taken away from it just when another one kept
      that name from before. */
  lemma LabelTakenAway(code: seq<DumpIns>, labels: map<string, string>, j: nat)
    requires MapsKept(code, Rank(code, |code|), labels) && j < |code| && code[j].valid && Kept(code, j).None?
    ensures Replaced(labels, Some(Label(Rank(code, j)))) == Some(Label(Rank(code, j))) <==>
            forall k :: 0 <= k < |code| ==> !Clash(code, j, k)
  {
    hide Kept, Rank, Label;
    var name := Label(Rank(code, j));
    forall k | 0 <= k < |code| && Clash(code, j, k)
      ensures Replaced(labels, Some(name)) != Some(name)
    {
      KeptIsReplaced(code, labels, k);
      if Label(Rank(code, k)) == name {
        LabelInjective(Rank(code, k), Rank(code, j));
        SameRank(code, j, k);
      }
    }
    if name in labels {
      assert ComesFromKept(code, Rank(code, |code|), name);
      var k :| 0 <= k < |code| && code[k].valid && Kept(code, k) == Some(name);
      assert Clash(code, j, k);
    }
  }

  lemma SameRank(code: seq<DumpIns>, j: nat, k: nat)
    requires j < |code| && k < |code| && code[j].valid && code[k].valid && Rank(code, j) == Rank(code, k)
    ensures j == k
  {
    if j < k {
      RankGrows(code, j, k);
    } else if k < j {
      RankGrows(code, k, j);
    }
  }

  /** Where a made label is the name that another one kept, both end up with the same label. */
  ghost predicate ClashesShare(code: seq<DumpIns>, now: seq<DumpIns>) {
    |now| == |code| &&
    forall j, k :: 0 <= j < |code| && 0 <= k < |code| && Clash(code, j, k) ==>
      now[j].labelName == now[k].labelName == Some(Label(Rank(code, k)))
  }

  lemma SecondHalfShares(code: seq<DumpIns>, half: seq<DumpIns>, numbered: seq<DumpIns>, labels: map<string, string>, now: seq<DumpIns>)
    requires SecondHalf(code, half, numbered, labels, now)
    ensures ClashesShare(code, now)
  {
    hide Kept, Rank, Label, HalfDone, Numbered, MapsKept, Replaced, Updated;
    forall j, k | 0 <= j < |code| && 0 <= k < |code| && Clash(code, j, k)
      ensures now[j].labelName == now[k].labelName == Some(Label(Rank(code, k)))
    {
      FinalLabel(code, half, numbered, labels, now, j);
      FinalLabel(code, half, numbered, labels, now, k);
      KeptIsReplaced(code, labels, k);
    }
  }

  lemma SecondHalfRight(code: seq<DumpIns>, half: seq<DumpIns>, numbered: seq<DumpIns>, labels: map<string, string>, now: seq<DumpIns>)
    requires SecondHalf(code, half, numbered, labels, now)
    ensures TargetsRight(code, now) && (LabelsRight(code, now) <==> NoClash(code))
  {
    forall j | 0 <= j < |code| && code[j].valid
      ensures TargetRight(code, now, j)
      ensures LabelRight(code, now, j) <==> forall k :: 0 <= k < |code| ==> !Clash(code, j, k)
    {
      FinalTarget(code, half, numbered, labels, now, j);
      FinalLabel(code, half, numbered, labels, now, j);
      if Kept(code, j).None? {
        LabelTakenAway(code, labels, j);
      }
    }
    hide TargetRight, LabelRight, SecondHalf;
    forall j, k | 0 <= j < |code| && 0 <= k < |code| && Clash(code, j, k)
      ensures code[j].valid
    {
    }
    hide Clash;
  }

  // ----- the dumper -----

  class PandasmProgramDumper {
    var ins: seq<DumpIns>
    var finalIns: seq<nat>
    var runLabels: map<string, string>
    var finalLabels: map<string, string>

    /** The function's instructions are copied, so the function itself is not changed. */
    constructor (code: seq<DumpIns>)
      ensures ins == code
    {
      ins, finalIns, runLabels, finalLabels := code, [], map[], map[];
    }

    /** GetNearestValidopIns4InvalidopIns, downwards. */
    method GetNearestValidIns(i: nat, ghost code: seq<DumpIns>) returns (j: nat)
      requires |ins| == |code| && (forall k :: 0 <= k < |code| ==> ins[k].valid == code[k].valid)
      requires i < |ins| && !ins[i].valid && Next(code, i) < |code|
      ensures j == Next(code, i)
    {
      j := i + 1;
      while !ins[j].valid
        invariant i < j < |ins| && Next(code, i) == Next(code, j)
        decreases |ins| - j
      {
        j := j + 1;
      }
    }

    method HandleInvalidopInsLabel(i: nat, ghost code: seq<DumpIns>)
      requires WellLabelled(code) && i < |code| && !code[i].valid && Labelled(code, i, ins)
      modifies this`ins, this`runLabels
      ensures Labelled(code, i + 1, ins) && runLabels == MapNext(code, i, old(runLabels))
    {
      LabelledNext(code, i, ins);
      hide RunLabel, Next;
      if ins[i].labelName.None? {
        return;
      }
      var j := GetNearestValidIns(i, code);
      LabelAfterNext(code, i, j);
      if ins[j].labelName.None? {
        ins := ins[j := ins[j].(labelName := ins[i].labelName)];
      }
      if ins[i].labelName.value !in runLabels {
        runLabels := runLabels[ins[i].labelName.value := ins[j].labelName.value];
      }
    }

    method GetInvalidOpLabelMap(ghost code: seq<DumpIns>)
      requires WellLabelled(code) && ins == code
      modifies this`ins, this`runLabels
      ensures Labelled(code, |code|, ins) && MapsRuns(code, |code|, runLabels)
    {
      hide Labelled, MapsRuns, WellLabelled;
      runLabels := map[];
      MapsRunsStart(code);
      for i := 0 to |ins|
        invariant |ins| == |code| && Labelled(code, i, ins) && MapsRuns(code, i, runLabels)
      {
        LabelledNext(code, i, ins);
        MapsRunsNext(code, i, runLabels);
        if !ins[i].valid {
          HandleInvalidopInsLabel(i, code);
        }
        LabelledSize(code, i + 1, ins);
      }
    }

    /** UpdateLabels4DumpIns, on the instructions that idxs points to. */
    method UpdateLabels4DumpIns(idxs: seq<nat>, labels: map<string, string>)
      requires forall q :: 0 <= q < |idxs| ==> idxs[q] < |ins|
      requires forall p, q :: 0 <= p < q < |idxs| ==> idxs[p] < idxs[q]
      modifies this`ins
      ensures |ins| == old(|ins|)
      ensures forall q :: 0 <= q < |idxs| ==> ins[idxs[q]] == Updated(labels, old(ins)[idxs[q]])
      ensures forall k: nat :: k < |ins| && k !in idxs ==> ins[k] == old(ins)[k]
    {
      hide Updated;
      for q := 0 to |idxs|
        invariant |ins| == old(|ins|)
        invariant forall p :: 0 <= p < |idxs| ==> ins[idxs[p]] == if p < q then Updated(labels, old(ins)[idxs[p]]) else old(ins)[idxs[p]]
        invariant forall k: nat :: k < |ins| && k !in idxs ==> ins[k] == old(ins)[k]
      {
        UpdateLabels4DumpInsAtIndex(idxs[q], labels);
      }
    }

    method UpdateLabels4DumpInsAtIndex(i: nat, labels: map<string, string>)
      requires i < |ins|
      modifies this`ins
      ensures ins == old(ins)[i := Updated(labels, old(ins)[i])]
    {
      var mapped := GetMappedLabel(ins[i].labelName, labels);
      if mapped != "" {
        ins := ins[i := ins[i].(labelName := Some(mapped))];
      }
      if ins[i].target.Some? {
        mapped := GetMappedLabel(ins[i].target, labels);
        if mapped != "" {
          ins := ins[i := ins[i].(target := Some(mapped))];
        }
      }
    }

    function GetMappedLabel(name: Option<string>, labels: map<string, string>): string {
      if name.Some? && name.value in labels then labels[name.value] else ""
    }

    /** The valid instructions, in order. */
    method GetFinalDumpIns(ghost code: seq<DumpIns>)
      requires |ins| == |code| && forall j :: 0 <= j < |code| ==> ins[j].valid == code[j].valid
      modifies this`finalIns
      ensures finalIns == Survivors(code, |code|)
    {
      finalIns := [];
      for i := 0 to |ins|
        invariant finalIns == Survivors(code, i)
      {
        if ins[i].valid {
          finalIns := finalIns + [i];
        }
      }
    }

    method SetFinallyLabelAtIndex(q: nat, ghost code: seq<DumpIns>, ghost half: seq<DumpIns>)
      requires WellLabelled(code) && HalfDone(code, half) && finalIns == Survivors(code, |code|) && q < |finalIns|
      requires Numbered(code, half, q, ins) && MapsKept(code, q, finalLabels)
      modifies this`ins, this`finalLabels
      ensures Numbered(code, half, q + 1, ins) && MapsKept(code, q + 1, finalLabels)
    {
      NumberedNext(code, half, q, ins);
      MapsKeptNext(code, q, finalLabels);
      NumberedSize(code, half, q, ins);
      hide WellLabelled, HalfDone, Numbered, MapsKept, Survivors, Kept, Label;
      var k := finalIns[q];
      var name := Label(q);
      if ins[k].labelName.Some? {
        if ins[k].labelName.value !in finalLabels {
          finalLabels := finalLabels[ins[k].labelName.value := name];
        }
      } else {
        ins := ins[k := ins[k].(labelName := Some(name))];
      }
    }

    method GetFinallyLabelMap(ghost code: seq<DumpIns>)
      requires WellLabelled(code) && HalfDone(code, ins) && finalIns == Survivors(code, |code|)
      modifies this`ins, this`finalLabels
      ensures Numbered(code, old(ins), Rank(code, |code|), ins) && MapsKept(code, Rank(code, |code|), finalLabels)
    {
      hide WellLabelled, HalfDone, Numbered, MapsKept, Survivors;
      NothingNumbered(code, ins);
      finalLabels := map[];
      for q := 0 to |finalIns|
        invariant Numbered(code, old(ins), q, ins) && MapsKept(code, q, finalLabels)
      {
        SetFinallyLabelAtIndex(q, code, old(ins));
      }
    }

    /** GetInvalidOpLabelMap and the first UpdateLabels4DumpIns. */
    method RedirectLabels(ghost code: seq<DumpIns>)
      requires WellLabelled(code) && ins == code
      modifies this`ins, this`runLabels
      ensures HalfDone(code, ins)
    {
      hide WellLabelled, MapsRuns, HalfDone, Labelled, Updated;
      GetInvalidOpLabelMap(code);
      ghost var marked := ins;
      LabelledSize(code, |code|, ins);
      var all := seq(|ins|, i => i);
      UpdateLabels4DumpIns(all, runLabels);
      forall j | 0 <= j < |code|
        ensures ins[j] == Updated(runLabels, marked[j])
      {
        assert all[j] == j;
      }
      FirstHalf(code, marked, runLabels, ins);
    }

    /** DumpFunctionIns4EcmaScript, up to the printing: what is left are the valid instructions,
        every jump names the first of them at or after its old destination, and each is labelled
        with its own index if and only if no made label was kept by another one. */
    method DumpFunctionIns4EcmaScript(ghost code: seq<DumpIns>)
      requires WellLabelled(code) && ins == code
      modifies this
      ensures finalIns == Survivors(code, |code|)
      ensures TargetsRight(code, ins)
      ensures LabelsRight(code, ins) <==> NoClash(code)
      ensures ClashesShare(code, ins)
    {
      hide WellLabelled, HalfDone, TargetsRight, LabelsRight, NoClash, Updated, Survivors, MapsKept, Numbered, ClashesShare;
      RedirectLabels(code);
      ghost var half := ins;
      HalfDoneSize(code, half);
      GetFinalDumpIns(code);
      GetFinallyLabelMap(code);
      ghost var numbered := ins;
      NumberedSize(code, half, Rank(code, |code|), ins);
      SurvivorsInOrder(code);
      UpdateLabels4DumpIns(finalIns, finalLabels);
      forall j | 0 <= j < |code| && code[j].valid
        ensures ins[j] == Updated(finalLabels, numbered[j])
      {
        SurvivorAt(code, |code|, j);
      }
      SecondHalfRight(code, half, numbered, finalLabels, ins);
      SecondHalfShares(code, half, numbered, finalLabels, ins);
    }
  }

  lemma NothingNumbered(code: seq<DumpIns>, half: seq<DumpIns>)
    requires HalfDone(code, half)
    ensures Numbered(code, half, 0, half) && MapsKept(code, 0, map[])
  {
  }

  lemma NumberedSize(code: seq<DumpIns>, half: seq<DumpIns>, q: nat, now: seq<DumpIns>)
    requires Numbered(code, half, q, now)
    ensures |now| == |code|
  {
  }

  lemma HalfDoneSize(code: seq<DumpIns>, half: seq<DumpIns>)
    requires HalfDone(code, half)
    ensures |half| == |code| && forall j :: 0 <= j < |code| ==> half[j].valid == code[j].valid
  {
  }

  lemma SurvivorsInOrder(code: seq<DumpIns>)
    ensures var s := Survivors(code, |code|);
            (forall q :: 0 <= q < |s| ==> s[q] < |code|) && (forall p, q :: 0 <= p < q < |s| ==> s[p] < s[q])
  {
    var s := Survivors(code, |code|);
    forall q | 0 <= q < |s|
      ensures s[q] < |code|
    {
      SurvivorIs(code, |code|, q);
    }
    forall p, q | 0 <= p < q < |s|
      ensures s[p] < s[q]
    {
      SurvivorIs(code, |code|, p);
      SurvivorIs(code, |code|, q);
      if s[q] < s[p] {
        RankGrows(code, s[q], s[p]);
      }
    }
  }

  /** Code for which a made label takes the name of a kept one: its two survivors end up with the
      same label. */
  function ClashExample(): seq<DumpIns> {
    [DumpIns(true, None, None), DumpIns(false, None, None), DumpIns(true, Some(Label(0)), None)]
  }

  lemma ClashExampleFails()
    ensures WellLabelled(ClashExample()) && Clash(ClashExample(), 0, 2) && Rank(ClashExample(), 2) == 1
    ensures !NoClash(ClashExample())
  {
    var code := ClashExample();
    LabelShape(0);
    assert Next(code, 2) == 2;
    assert Kept(code, 0) == None && Kept(code, 2) == Some(Label(0)) && Rank(code, 0) == 0;
    assert Clash(code, 0, 2);
  }

  lemma LabelledNext(code: seq<DumpIns>, n: nat, now: seq<DumpIns>)
    requires n < |code| && Labelled(code, n, now)
    ensures |now| == |code| && now[n].valid == code[n].valid
    ensures code[n].valid || code[n].labelName.None? ==> Labelled(code, n + 1, now)
    ensures code[n].valid || code[n].labelName.None? ==> forall labels :: MapNext(code, n, labels) == labels
    ensures !code[n].valid ==> now[n].labelName == code[n].labelName
  {
    forall j | 0 <= j < |code|
      ensures LabelAfter(code, n + 1, j) == LabelAfter(code, n, j) || (!code[n].valid && code[n].labelName.Some?)
    {
      LabelAfterNext(code, n, j);
    }
  }

  lemma LabelledSize(code: seq<DumpIns>, n: nat, now: seq<DumpIns>)
    requires Labelled(code, n, now)
    ensures |now| == |code|
  {
  }

  /** The dumper on the example: both instructions that remain are labelled with index 1. */
  method DumpClashExample() returns (labels: seq<Option<string>>)
    ensures labels == [Some(Label(1)), Some(Label(1))]
  {
    hide WellLabelled, NoClash, TargetsRight, LabelsRight, Label;
    ClashExampleFails();
    var code := ClashExample();
    var dumper := new PandasmProgramDumper(code);
    dumper.DumpFunctionIns4EcmaScript(code);
    labels := [dumper.ins[0].labelName, dumper.ins[2].labelName];
  }
}

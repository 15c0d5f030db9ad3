/** The literal array of a module: abc2program/abc_module_array_processor.cpp. */
module ModuleArray {
  import opened Options

  datatype Literal = Integer(n: nat) | Str(s: string) | MethodAffiliate(idx: nat)

  /** A module record, with its names looked up. */
  datatype Record =
    | RegularImport(request: nat, importName: string, localName: string)
    | NamespaceImport(request: nat, localName: string)
    | LocalExport(exportName: string, localName: string)
    | IndirectExport(exportName: string, request: nat, importName: string)
    | StarExport(request: nat)

  const KINDS := 5
  const UINT16 := 0x1_0000

  function Tag(r: Record): (k: nat)
    ensures k < KINDS
  {
    match r
    case RegularImport(_, _, _) => 0
    case NamespaceImport(_, _) => 1
    case LocalExport(_, _) => 2
    case IndirectExport(_, _, _) => 3
    case StarExport(_) => 4
  }

  /** LITERAL_NUMS in abc2program/common/abc_file_utils.h. */
  const LITERAL_NUMS: seq<nat> := [3, 2, 2, 3, 1]

  /** What one record is filled in as; the request index is kept in 16 bits. */
  function Entry(r: Record): seq<Literal> {
    match r
    case RegularImport(request, importName, localName) => [Str(localName), Str(importName), MethodAffiliate(request % UINT16)]
    case NamespaceImport(request, localName) => [Str(localName), MethodAffiliate(request % UINT16)]
    case LocalExport(exportName, localName) => [Str(localName), Str(exportName)]
    case IndirectExport(exportName, request, importName) => [Str(exportName), Str(importName), MethodAffiliate(request % UINT16)]
    case StarExport(request) => [MethodAffiliate(request % UINT16)]
  }

  function Entries(rs: seq<Record>): seq<Literal> {
    if rs == [] then [] else Entries(rs[..|rs| - 1]) + Entry(rs[|rs| - 1])
  }

  /** The records of one kind, in order. */
  function OfKind(rs: seq<Record>, k: nat): seq<Record> {
    if rs == [] then []
    else OfKind(rs[..|rs| - 1], k) + (if Tag(rs[|rs| - 1]) == k then [rs[|rs| - 1]] else [])
  }

  predicate InTagOrder(rs: seq<Record>) {
    forall i, j :: 0 <= i < j < |rs| ==> Tag(rs[i]) <= Tag(rs[j])
  }

  function Requests(names: seq<string>): (s: seq<Literal>)
    ensures |s| == |names|
  {
    if names == [] then [] else Requests(names[..|names| - 1]) + [Str(names[|names| - 1])]
  }

  // ----- the layout -----

  /** The entries of the kinds from k on, without counts. */
  function Uncounted(rs: seq<Record>, k: nat): seq<Literal>
    decreases KINDS - k
  {
    if k >= KINDS then [] else Entries(OfKind(rs, k)) + Uncounted(rs, k + 1)
  }

  /** The kinds before k, each as its count followed by its entries. */
  function Counted(rs: seq<Record>, k: nat): seq<Literal> {
    if k == 0 then []
    else Counted(rs, k - 1) + [Integer(|OfKind(rs, k - 1)|)] + Entries(OfKind(rs, k - 1))
  }

  function Head(names: seq<string>): seq<Literal> { [Integer(|names|)] + Requests(names) }

  function Layout(names: seq<string>, rs: seq<Record>): seq<Literal> { Head(names) + Counted(rs, KINDS) }

  lemma {:induction false} EntriesSize(rs: seq<Record>, k: nat)
    requires k < KINDS && forall i :: 0 <= i < |rs| ==> Tag(rs[i]) == k
    ensures |Entries(rs)| == LITERAL_NUMS[k] * |rs|
  {
    if rs != [] {
      EntriesSize(rs[..|rs| - 1], k);
    }
  }

  lemma {:induction false} OfKindIs(rs: seq<Record>, k: nat)
    ensures forall i :: 0 <= i < |OfKind(rs, k)| ==> Tag(OfKind(rs, k)[i]) == k
  {
    if rs != [] {
      OfKindIs(rs[..|rs| - 1], k);
    }
  }

  lemma {:induction false} OfKindNone(rs: seq<Record>, k: nat)
    requires forall i :: 0 <= i < |rs| ==> Tag(rs[i]) != k
    ensures OfKind(rs, k) == []
  {
    if rs != [] {
      OfKindNone(rs[..|rs| - 1], k);
    }
  }

  lemma EntriesAppend(rs: seq<Record>, r: Record)
    ensures Entries(rs + [r]) == Entries(rs) + Entry(r)
    ensures forall k :: OfKind(rs + [r], k) == OfKind(rs, k) + (if Tag(r) == k then [r] else [])
  {
    assert (rs + [r])[..|rs|] == rs;
  }

  /** A record of the last kind so far goes to the end. */
  lemma {:induction false} UncountedAppend(rs: seq<Record>, r: Record, k: nat)
    requires k <= KINDS && forall i :: 0 <= i < |rs| ==> Tag(rs[i]) <= Tag(r)
    ensures Uncounted(rs + [r], k) == Uncounted(rs, k) + (if k <= Tag(r) then Entry(r) else [])
    decreases KINDS - k
  {
    hide Entries, OfKind, Entry;
    if k < KINDS {
      UncountedAppend(rs, r, k + 1);
      EntriesAppend(rs, r);
      if k == Tag(r) {
        UncountedNone(rs, k + 1);
        EntriesAppend(OfKind(rs, k), r);
      } else {
        assert OfKind(rs, k) + [] == OfKind(rs, k);
      }
    }
  }

  lemma {:induction false} UncountedNone(rs: seq<Record>, k: nat)
    requires k <= KINDS && forall i :: 0 <= i < |rs| ==> Tag(rs[i]) < k
    ensures Uncounted(rs, k) == []
    decreases KINDS - k
  {
    if k < KINDS {
      OfKindNone(rs, k);
      UncountedNone(rs, k + 1);
    }
  }

  lemma {:induction false} EntriesByKind(rs: seq<Record>)
    requires InTagOrder(rs)
    ensures Entries(rs) == Uncounted(rs, 0)
  {
    if rs == [] {
      UncountedNone(rs, 0);
    } else {
      var init, r := rs[..|rs| - 1], rs[|rs| - 1];
      EntriesByKind(init);
      UncountedAppend(init, r, 0);
      assert init + [r] == rs;
    }
  }

  // ----- filling -----

  /** How many records there are of each kind. */
  function Counts(rs: seq<Record>): (c: seq<nat>)
    ensures |c| == KINDS && forall k :: 0 <= k < KINDS ==> c[k] == |OfKind(rs, k)|
  {
    [|OfKind(rs, 0)|, |OfKind(rs, 1)|, |OfKind(rs, 2)|, |OfKind(rs, 3)|, |OfKind(rs, 4)|]
  }

  method FillModuleRequests(names: seq<string>) returns (literals: seq<Literal>)
    ensures literals == Head(names)
  {
    literals := [Integer(|names|)];
    for i := 0 to |names|
      invariant literals == [Integer(|names|)] + Requests(names[..i])
    {
      assert names[..i + 1][..i] == names[..i];
      literals := literals + [Str(names[i])];
    }
    assert names[..|names|] == names;
  }

  /** One of the Fill*Entry methods, and the counter of its kind. */
  method FillEntry(r: Record, literals: seq<Literal>, counts: seq<nat>) returns (literals': seq<Literal>, counts': seq<nat>)
    requires |counts| == KINDS
    ensures literals' == literals + Entry(r) && counts' == counts[Tag(r) := counts[Tag(r)] + 1]
  {
    literals', counts' := literals, counts;
    match r
    case RegularImport(request, importName, localName) =>
      literals' := literals' + [Str(localName)];
      literals' := literals' + [Str(importName)];
      literals' := literals' + [MethodAffiliate(request % UINT16)];
      counts' := counts'[0 := counts'[0] + 1];
    case NamespaceImport(request, localName) =>
      literals' := literals' + [Str(localName)];
      literals' := literals' + [MethodAffiliate(request % UINT16)];
      counts' := counts'[1 := counts'[1] + 1];
    case LocalExport(exportName, localName) =>
      literals' := literals' + [Str(localName)];
      literals' := literals' + [Str(exportName)];
      counts' := counts'[2 := counts'[2] + 1];
    case IndirectExport(exportName, request, importName) =>
      literals' := literals' + [Str(exportName)];
      literals' := literals' + [Str(importName)];
      literals' := literals' + [MethodAffiliate(request % UINT16)];
      counts' := counts'[3 := counts'[3] + 1];
    case StarExport(request) =>
      literals' := literals' + [MethodAffiliate(request % UINT16)];
      counts' := counts'[4 := counts'[4] + 1];
  }

  lemma CountsAppend(rs: seq<Record>, r: Record)
    ensures Counts(rs + [r]) == Counts(rs)[Tag(r) := Counts(rs)[Tag(r)] + 1]
  {
    hide OfKind, Entries, Entry, Tag;
    EntriesAppend(rs, r);
    var c, c' := Counts(rs), Counts(rs + [r]);
    assert forall k :: 0 <= k < KINDS ==> c'[k] == |OfKind(rs + [r], k)| && c[k] == |OfKind(rs, k)|;
    hide Counts;
  }

  method FillEntries(names: seq<string>, rs: seq<Record>) returns (literals: seq<Literal>, counts: seq<nat>)
    ensures literals == Head(names) + Entries(rs) && counts == Counts(rs)
  {
    hide Counts, Entry, OfKind;
    literals := FillModuleRequests(names);
    counts := [0, 0, 0, 0, 0];
    NoCounts();
    for i := 0 to |rs|
      invariant literals == Head(names) + Entries(rs[..i]) && counts == Counts(rs[..i])
    {
      EntriesAppend(rs[..i], rs[i]);
      CountsAppend(rs[..i], rs[i]);
      assert rs[..i + 1] == rs[..i] + [rs[i]];
      literals, counts := FillEntry(rs[i], literals, counts);
    }
    assert rs[..|rs|] == rs;
  }

  lemma NoCounts()
    ensures Counts([]) == [0, 0, 0, 0, 0]
  {
  }

  /** One round of FillEntrySize: where the count of kind k goes. */
  lemma InsertNext(names: seq<string>, rs: seq<Record>, k: nat)
    requires k < KINDS
    ensures var before, size := Head(names) + Counted(rs, k), Integer(|OfKind(rs, k)|);
            before + [size] + Uncounted(rs, k) == Head(names) + Counted(rs, k + 1) + Uncounted(rs, k + 1)
    ensures |Counted(rs, k + 1)| == |Counted(rs, k)| + 1 + LITERAL_NUMS[k] * |OfKind(rs, k)|
  {
    hide OfKind, Entries, Head;
    OfKindIs(rs, k);
    EntriesSize(OfKind(rs, k), k);
    Shuffled(Head(names), Counted(rs, k), Integer(|OfKind(rs, k)|), Entries(OfKind(rs, k)), Uncounted(rs, k + 1));
  }

  lemma Shuffled(h: seq<Literal>, c: seq<Literal>, x: Literal, e: seq<Literal>, u: seq<Literal>)
    ensures h + c + [x] + (e + u) == h + (c + [x] + e) + u
  {
  }

  lemma InsertAt(a: seq<Literal>, b: seq<Literal>, x: Literal)
    ensures (a + b)[..|a|] + [x] + (a + b)[|a|..] == a + [x] + b
  {
  }

  /** FillEntrySize: each count is inserted before the entries of its kind. */
  method FillEntrySize(literals0: seq<Literal>, nums: seq<nat>, ghost names: seq<string>, ghost rs: seq<Record>) returns (literals: seq<Literal>)
    requires literals0 == Head(names) + Uncounted(rs, 0) && nums == [|names|] + Counts(rs)
    ensures literals == Layout(names, rs)
  {
    hide Counted, Uncounted, Head, OfKind;
    literals := literals0;
    var idx := nums[0] + 1;
    SizesStart(names, rs);
    for index := 1 to |nums|
      invariant literals == Head(names) + Counted(rs, index - 1) + Uncounted(rs, index - 1)
      invariant idx == |Head(names) + Counted(rs, index - 1)|
    {
      var num := nums[index];
      assert num == |OfKind(rs, index - 1)|;
      InsertNext(names, rs, index - 1);
      InsertAt(Head(names) + Counted(rs, index - 1), Uncounted(rs, index - 1), Integer(num));
      literals := literals[..idx] + [Integer(num)] + literals[idx..];
      idx := idx + 1;
      idx := idx + LITERAL_NUMS[index - 1] * num;
    }
    SizesEnd(rs);
  }

  lemma SizesStart(names: seq<string>, rs: seq<Record>)
    ensures |Head(names)| == |names| + 1 && Head(names) + Counted(rs, 0) == Head(names)
  {
  }

  lemma SizesEnd(rs: seq<Record>)
    ensures Uncounted(rs, KINDS) == []
  {
  }

  /** FillProgramData: requests, then for each kind its count and its entries. */
  method FillProgramData(names: seq<string>, rs: seq<Record>) returns (literals: seq<Literal>)
    requires InTagOrder(rs)
    ensures literals == Layout(names, rs)
    ensures exists rs' :: ReadModule(literals) == Some((names, rs')) && AllSame(rs, rs')
    ensures (forall i :: 0 <= i < |rs| ==> Requested(rs[i]) < 65536) ==> ReadModule(literals) == Some((names, rs))
  {
    var counts;
    literals, counts := FillEntries(names, rs);
    EntriesByKind(rs);
    literals := FillEntrySize(literals, [|names|] + counts, names, rs);
    LayoutReads(names, rs);
    TruncatedIsSame(rs);
    if forall i :: 0 <= i < |rs| ==> Requested(rs[i]) < 65536 {
      SmallIsExact(rs, Truncated(rs));
    }
  }

  // ----- a reader that follows the counts -----

  function Take(k: nat, s: seq<Literal>): Option<Record>
    requires k < KINDS
  {
    if |s| < LITERAL_NUMS[k] then None
    else if k == 0 && s[0].Str? && s[1].Str? && s[2].MethodAffiliate? then Some(RegularImport(s[2].idx, s[1].s, s[0].s))
    else if k == 1 && s[0].Str? && s[1].MethodAffiliate? then Some(NamespaceImport(s[1].idx, s[0].s))
    else if k == 2 && s[0].Str? && s[1].Str? then Some(LocalExport(s[1].s, s[0].s))
    else if k == 3 && s[0].Str? && s[1].Str? && s[2].MethodAffiliate? then Some(IndirectExport(s[0].s, s[2].idx, s[1].s))
    else if k == 4 && s[0].MethodAffiliate? then Some(StarExport(s[0].idx))
    else None
  }

  /** The first n entries of kind k. */
  function TakeMany(k: nat, n: nat, s: seq<Literal>): Option<seq<Record>>
    requires k < KINDS
  {
    if n == 0 then Some([])
    else if |s| < LITERAL_NUMS[k] then None
    else
      match (Take(k, s), TakeMany(k, n - 1, s[LITERAL_NUMS[k]..]))
      case (Some(r), Some(rs)) => Some([r] + rs)
      case _ => None
  }

  function TakeKinds(k: nat, s: seq<Literal>): Option<seq<Record>>
    requires k <= KINDS
    decreases KINDS - k
  {
    if k == KINDS then Some([])
    else if s == [] || !s[0].Integer? then None
    else
      var n := s[0].n;
      if |s| - 1 < LITERAL_NUMS[k] * n then None
      else
        match (TakeMany(k, n, s[1..]), TakeKinds(k + 1, s[1 + LITERAL_NUMS[k] * n..]))
        case (Some(rs), Some(more)) => Some(rs + more)
        case _ => None
  }

  function TakeStrings(n: nat, s: seq<Literal>): Option<seq<string>> {
    if n == 0 then Some([])
    else if s == [] || !s[0].Str? then None
    else
      match TakeStrings(n - 1, s[1..])
      case None => None
      case Some(names) => Some([s[0].s] + names)
  }

  function ReadModule(s: seq<Literal>): Option<(seq<string>, seq<Record>)> {
    if s == [] || !s[0].Integer? || |s| - 1 < s[0].n then None
    else
      match (TakeStrings(s[0].n, s[1..]), TakeKinds(0, s[1 + s[0].n..]))
      case (Some(names), Some(rs)) => Some((names, rs))
      case _ => None
  }

  // ----- reading what was filled -----

  /** A record as it can be read back: the request index is below 65536. */
  function Short(r: Record): Record {
    match r
    case RegularImport(request, importName, localName) => RegularImport(request % UINT16, importName, localName)
    case NamespaceImport(request, localName) => NamespaceImport(request % UINT16, localName)
    case LocalExport(_, _) => r
    case IndirectExport(exportName, request, importName) => IndirectExport(exportName, request % UINT16, importName)
    case StarExport(request) => StarExport(request % UINT16)
  }

  function Truncated(rs: seq<Record>): seq<Record> {
    if rs == [] then [] else Truncated(rs[..|rs| - 1]) + [Short(rs[|rs| - 1])]
  }

  /** The module that a record refers to; 0 if it refers to none. */
  function Requested(r: Record): nat { if r.LocalExport? then 0 else r.request }

  /** The same but for the module referred to, whose index is the one below 65536 that differs by a
      multiple of 65536. */
  predicate Same(r: Record, r': Record) {
    && 0 <= Requested(r') < 65536 && (Requested(r) - Requested(r')) % 65536 == 0
    && match (r, r')
       case (RegularImport(_, i, l), RegularImport(_, i', l')) => i == i' && l == l'
       case (NamespaceImport(_, l), NamespaceImport(_, l')) => l == l'
       case (LocalExport(e, l), LocalExport(e', l')) => e == e' && l == l'
       case (IndirectExport(e, _, i), IndirectExport(e', _, i')) => e == e' && i == i'
       case (StarExport(_), StarExport(_)) => true
       case _ => false
  }

  predicate AllSame(rs: seq<Record>, rs': seq<Record>) {
    |rs| == |rs'| && forall i :: 0 <= i < |rs| ==> Same(rs[i], rs'[i])
  }

  lemma {:induction false} TruncatedIsSame(rs: seq<Record>)
    ensures AllSame(rs, Truncated(rs))
  {
    if rs != [] {
      TruncatedIsSame(rs[..|rs| - 1]);
      ShortIsSame(rs[|rs| - 1]);
    }
  }

  lemma ShortIsSame(r: Record)
    ensures Same(r, Short(r))
  {
    var n := Requested(r);
    assert (n - n % 65536) % 65536 == 0;
  }

  /** There is only one such record. */
  lemma SmallIsExact(rs: seq<Record>, rs': seq<Record>)
    requires AllSame(rs, rs') && forall i :: 0 <= i < |rs| ==> Requested(rs[i]) < 65536
    ensures rs == rs'
  {
    forall i | 0 <= i < |rs|
      ensures rs[i] == rs'[i]
    {
      assert Same(rs[i], rs'[i]);
    }
  }

  lemma {:induction false} FromTheFront(rs: seq<Record>)
    requires rs != []
    ensures Entries(rs) == Entry(rs[0]) + Entries(rs[1..])
    ensures Truncated(rs) == [Short(rs[0])] + Truncated(rs[1..])
  {
    if |rs| > 1 {
      var init := rs[..|rs| - 1];
      FromTheFront(init);
      assert init[1..] == rs[1..][..|rs| - 2];
      hide Entry, Short;
    } else {
      assert rs[..0] == [] && rs[1..] == [];
    }
  }

  lemma TakeEntry(r: Record, rest: seq<Literal>)
    ensures |Entry(r)| == LITERAL_NUMS[Tag(r)]
    ensures Take(Tag(r), Entry(r) + rest) == Some(Short(r))
  {
  }

  lemma {:induction false} EntriesRead(k: nat, rs: seq<Record>, rest: seq<Literal>)
    requires k < KINDS && forall i :: 0 <= i < |rs| ==> Tag(rs[i]) == k
    ensures TakeMany(k, |rs|, Entries(rs) + rest) == Some(Truncated(rs))
  {
    hide Entry, Short, Take, Entries, Truncated;
    if rs == [] {
      NothingToRead(rest);
    } else {
      FromTheFront(rs);
      EntriesRead(k, rs[1..], rest);
      var more := Entries(rs[1..]) + rest;
      TakeEntry(rs[0], more);
      assert Entries(rs) + rest == Entry(rs[0]) + more;
      assert (Entry(rs[0]) + more)[LITERAL_NUMS[k]..] == more;
    }
  }

  lemma NothingToRead(rest: seq<Literal>)
    ensures Entries([]) + rest == rest && Truncated([]) == []
  {
  }

  /** The kinds from k on, with counts. */
  function CountedFrom(rs: seq<Record>, k: nat): seq<Literal>
    requires k <= KINDS
    decreases KINDS - k
  {
    if k == KINDS then [] else [Integer(|OfKind(rs, k)|)] + Entries(OfKind(rs, k)) + CountedFrom(rs, k + 1)
  }

  lemma {:induction false} CountedSplits(rs: seq<Record>, k: nat)
    requires k <= KINDS
    ensures Counted(rs, KINDS) == Counted(rs, k) + CountedFrom(rs, k)
    decreases KINDS - k
  {
    hide Entries, OfKind;
    if k < KINDS {
      CountedSplits(rs, k + 1);
    }
  }

  function TruncatedFrom(rs: seq<Record>, k: nat): seq<Record>
    requires k <= KINDS
    decreases KINDS - k
  {
    if k == KINDS then [] else Truncated(OfKind(rs, k)) + TruncatedFrom(rs, k + 1)
  }

  lemma {:induction false} KindsRead(rs: seq<Record>, k: nat)
    requires k <= KINDS
    ensures TakeKinds(k, CountedFrom(rs, k)) == Some(TruncatedFrom(rs, k))
    decreases KINDS - k
  {
    hide Entries, OfKind, TakeMany, Truncated;
    if k < KINDS {
      KindsRead(rs, k + 1);
      var g := OfKind(rs, k);
      OfKindIs(rs, k);
      EntriesSize(g, k);
      var s := CountedFrom(rs, k);
      assert s[1..] == Entries(g) + CountedFrom(rs, k + 1);
      EntriesRead(k, g, CountedFrom(rs, k + 1));
      assert s[1 + LITERAL_NUMS[k] * |g|..] == CountedFrom(rs, k + 1);
    }
  }

  lemma TruncatedAppend(rs: seq<Record>, r: Record)
    ensures Truncated(rs + [r]) == Truncated(rs) + [Short(r)]
  {
    assert (rs + [r])[..|rs|] == rs;
  }

  lemma {:induction false} TruncatedFromAppend(rs: seq<Record>, r: Record, k: nat)
    requires k <= KINDS && forall i :: 0 <= i < |rs| ==> Tag(rs[i]) <= Tag(r)
    ensures TruncatedFrom(rs + [r], k) == TruncatedFrom(rs, k) + (if k <= Tag(r) then [Short(r)] else [])
    decreases KINDS - k
  {
    hide OfKind, Short, Truncated, Entry, Entries;
    if k < KINDS {
      TruncatedFromAppend(rs, r, k + 1);
      EntriesAppend(rs, r);
      if k == Tag(r) {
        TruncatedNone(rs, k + 1);
        TruncatedAppend(OfKind(rs, k), r);
      } else {
        assert OfKind(rs, k) + [] == OfKind(rs, k);
      }
    }
  }

  lemma {:induction false} TruncatedNone(rs: seq<Record>, k: nat)
    requires k <= KINDS && forall i :: 0 <= i < |rs| ==> Tag(rs[i]) < k
    ensures TruncatedFrom(rs, k) == []
    decreases KINDS - k
  {
    if k < KINDS {
      OfKindNone(rs, k);
      TruncatedNone(rs, k + 1);
    }
  }

  lemma {:induction false} TruncatedByKind(rs: seq<Record>)
    requires InTagOrder(rs)
    ensures TruncatedFrom(rs, 0) == Truncated(rs)
  {
    hide Tag, Short;
    if rs == [] {
      TruncatedNone(rs, 0);
    } else {
      var init, r := rs[..|rs| - 1], rs[|rs| - 1];
      TruncatedByKind(init);
      TruncatedFromAppend(init, r, 0);
      assert init + [r] == rs;
    }
  }

  lemma {:induction false} StringsRead(names: seq<string>, n: nat, rest: seq<Literal>)
    requires n <= |names|
    ensures TakeStrings(|names| - n, Requests(names)[n..] + rest) == Some(names[n..])
    decreases |names| - n
  {
    if n < |names| {
      StringsRead(names, n + 1, rest);
      RequestAt(names, n);
      var s := Requests(names)[n..] + rest;
      assert s[1..] == Requests(names)[n + 1..] + rest;
      assert names[n..] == [names[n]] + names[n + 1..];
    } else {
      assert names[n..] == [];
    }
  }

  lemma {:induction false} RequestAt(names: seq<string>, i: nat)
    requires i < |names|
    ensures Requests(names)[i] == Str(names[i])
  {
    if i < |names| - 1 {
      RequestAt(names[..|names| - 1], i);
    }
  }

  /** A reader that follows the counts recovers the requests and every record, in order. */
  lemma LayoutReads(names: seq<string>, rs: seq<Record>)
    requires InTagOrder(rs)
    ensures ReadModule(Layout(names, rs)) == Some((names, Truncated(rs))) && AllSame(rs, Truncated(rs))
  {
    hide TakeKinds, TakeStrings, Counted, CountedFrom, TruncatedFrom, Truncated, Requests, InTagOrder;
    TruncatedIsSame(rs);
    CountedSplits(rs, 0);
    CountedNone(rs);
    KindsRead(rs, 0);
    TruncatedByKind(rs);
    StringsRead(names, 0, CountedFrom(rs, 0));
    var s := Layout(names, rs);
    assert Requests(names)[0..] == Requests(names) && names[0..] == names;
    assert s[1..] == Requests(names) + CountedFrom(rs, 0);
    assert s[1 + |names|..] == CountedFrom(rs, 0);
  }

  lemma CountedNone(rs: seq<Record>)
    ensures Counted(rs, 0) + CountedFrom(rs, 0) == CountedFrom(rs, 0)
  {
  }
}

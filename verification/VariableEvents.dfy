/** The starts and ends of local variables in a line number program: CollectLocalVariable and
    EmitLocalVariable in assembler/assembly-emitter.cpp. */
module VariableEvents {
  import opened LineProgram
  import LocalRanges

  /** The starts and ends of all variables that are no parameters; those of a variable without
      length come twice. */
  function AllEvents(ins: seq<Ins>, locals: seq<Local>, regsNum: nat): multiset<Event>
    requires GoodLocals(ins, locals, regsNum)
  {
    if locals == [] then multiset{}
    else
      var v := locals[|locals| - 1];
      assert LocalFits(v, regsNum, |ins|);
      AllEvents(ins, locals[..|locals| - 1], regsNum) +
      (if v.reg >= regsNum then multiset{}
       else if v.length > 0 then multiset{StartEvent(ins, v), EndEvent(ins, v)}
       else multiset{StartEvent(ins, v), EndEvent(ins, v), StartEvent(ins, v), EndEvent(ins, v)})
  }

  function PairEvents(ins: seq<Ins>, locals: seq<Local>, p: Pair): multiset<Event>
    requires p.variable < |locals| && GoodLocal(locals[p.variable], |ins|)
  {
    multiset(EventsAt(ins, locals[p.variable], p.insnOrder))
  }

  function Bag(ins: seq<Ins>, locals: seq<Local>, order: seq<Pair>): multiset<Event>
    requires InRange(ins, locals, order)
  {
    if order == [] then multiset{}
    else Bag(ins, locals, order[..|order| - 1]) + PairEvents(ins, locals, order[|order| - 1])
  }

  lemma {:induction false} BagIsEvents(ins: seq<Ins>, locals: seq<Local>, order: seq<Pair>, n: nat)
    requires InRange(ins, locals, order) && n <= |order|
    ensures Bag(ins, locals, order[..n]) == multiset(EventsOf(ins, locals, order, n))
  {
    hide EventsAt;
    if n > 0 {
      BagIsEvents(ins, locals, order, n - 1);
      assert order[..n][..n - 1] == order[..n - 1];
    }
  }

  lemma BagNext(ins: seq<Ins>, locals: seq<Local>, order: seq<Pair>, p: Pair)
    requires InRange(ins, locals, order) && p.variable < |locals| && p.insnOrder <= |ins| && GoodLocal(locals[p.variable], |ins|)
    ensures InRange(ins, locals, order + [p]) && Bag(ins, locals, order + [p]) == Bag(ins, locals, order) + PairEvents(ins, locals, p)
  {
    hide PairEvents, GoodLocal;
    assert (order + [p])[..|order|] == order;
  }

  lemma Swapped(a: multiset<Event>, b: multiset<Event>, c: multiset<Event>)
    ensures a + b + c == a + c + b
  {
  }

  lemma {:induction false} BagWithout(ins: seq<Ins>, locals: seq<Local>, order: seq<Pair>, j: nat)
    requires InRange(ins, locals, order) && j < |order|
    ensures InRange(ins, locals, order[..j] + order[j + 1..])
    ensures Bag(ins, locals, order) == Bag(ins, locals, order[..j] + order[j + 1..]) + PairEvents(ins, locals, order[j])
  {
    hide PairEvents, Bag, GoodLocal;
    var n := |order| - 1;
    var init, last := order[..n], order[n];
    assert order == init + [last];
    BagNext(ins, locals, init, last);
    if j == n {
      assert order[..j] + order[j + 1..] == init;
    } else {
      var less := init[..j] + init[j + 1..];
      BagWithout(ins, locals, init, j);
      BagNext(ins, locals, less, last);
      assert order[..j] + order[j + 1..] == less + [last];
      Swapped(Bag(ins, locals, less), PairEvents(ins, locals, order[j]), PairEvents(ins, locals, last));
    }
  }

  lemma Without<T>(s: seq<T>, j: nat)
    requires j < |s|
    ensures multiset(s) == multiset(s[..j] + s[j + 1..]) + multiset{s[j]}
  {
    assert s == s[..j] + [s[j]] + s[j + 1..];
  }

  lemma Cancel<T>(a: multiset<T>, b: multiset<T>, x: T)
    requires a + multiset{x} == b + multiset{x}
    ensures a == b
  {
    forall y
      ensures a[y] == b[y]
    {
      assert (a + multiset{x})[y] == (b + multiset{x})[y];
    }
  }

  /** One less on both sides. */
  lemma PermutationWithout<T>(a: seq<T>, b: seq<T>) returns (j: nat)
    requires a != [] && multiset(a) == multiset(b)
    ensures j < |b| && b[j] == a[|a| - 1] && multiset(a[..|a| - 1]) == multiset(b[..j] + b[j + 1..])
  {
    var n := |a| - 1;
    assert a[n] in multiset(b);
    j :| 0 <= j < |b| && b[j] == a[n];
    Without(b, j);
    Without(a, n);
    assert a[..n] + a[n + 1..] == a[..n];
    Cancel(multiset(a[..n]), multiset(b[..j] + b[j + 1..]), a[n]);
  }

  /** The order of the pairs makes no difference to what happens in all. */
  lemma {:induction false} BagOfPermutation(ins: seq<Ins>, locals: seq<Local>, a: seq<Pair>, b: seq<Pair>)
    requires InRange(ins, locals, a) && InRange(ins, locals, b) && multiset(a) == multiset(b)
    ensures Bag(ins, locals, a) == Bag(ins, locals, b)
    decreases |a|
  {
    hide PairEvents;
    if a == [] {
      assert |multiset(b)| == 0;
    } else {
      var j := PermutationWithout(a, b);
      BagWithout(ins, locals, b, j);
      BagOfPermutation(ins, locals, a[..|a| - 1], b[..j] + b[j + 1..]);
    }
  }

  lemma {:induction false} CollectInRange(ins: seq<Ins>, locals: seq<Local>, regsNum: nat)
    requires GoodLocals(ins, locals, regsNum)
    ensures InRange(ins, locals, Collect(locals, regsNum))
  {
    var c := Collect(locals, regsNum);
    CollectFacts(locals, regsNum);
    forall k | 0 <= k < |c|
      ensures c[k].variable < |locals| && c[k].insnOrder <= |ins| && GoodLocal(locals[c[k].variable], |ins|)
    {
      assert c[k] in c;
      assert LocalFits(locals[c[k].variable], regsNum, |ins|);
    }
  }

  lemma {:induction false} BagPrefix(ins: seq<Ins>, locals: seq<Local>, v: Local, order: seq<Pair>)
    requires InRange(ins, locals, order)
    ensures InRange(ins, locals + [v], order) && Bag(ins, locals + [v], order) == Bag(ins, locals, order)
  {
    hide EventsAt;
    if order != [] {
      BagPrefix(ins, locals, v, order[..|order| - 1]);
    }
  }

  /** The two pairs of one variable. */
  lemma OwnPairs(ins: seq<Ins>, locals: seq<Local>, x: nat)
    requires x < |locals| && GoodLocal(locals[x], |ins|)
    ensures var v := locals[x];
            PairEvents(ins, locals, Pair(v.start, x)) + PairEvents(ins, locals, Pair(v.start + v.length, x)) ==
              if v.length > 0 then multiset{StartEvent(ins, v), EndEvent(ins, v)}
              else multiset{StartEvent(ins, v), EndEvent(ins, v), StartEvent(ins, v), EndEvent(ins, v)}
  {
    hide StartEvent, EndEvent;
    var v := locals[x];
    Singles(StartEvent(ins, v), EndEvent(ins, v));
    if v.length > 0 {
      assert EventsAt(ins, v, v.start) == [StartEvent(ins, v)] && EventsAt(ins, v, v.start + v.length) == [EndEvent(ins, v)];
    } else {
      assert EventsAt(ins, v, v.start) == [StartEvent(ins, v), EndEvent(ins, v)];
    }
  }

  lemma Singles<T>(s: T, e: T)
    ensures multiset([s]) + multiset([e]) == multiset{s, e}
    ensures multiset([s, e]) + multiset([s, e]) == multiset{s, e, s, e}
  {
    assert [s, e] == [s] + [e];
  }

  lemma {:induction false} BagOfCollected(ins: seq<Ins>, locals: seq<Local>, regsNum: nat)
    requires GoodLocals(ins, locals, regsNum)
    ensures InRange(ins, locals, Collect(locals, regsNum))
    ensures Bag(ins, locals, Collect(locals, regsNum)) == AllEvents(ins, locals, regsNum)
  {
    hide Bag, PairEvents, InRange, StartEvent, EndEvent;
    CollectInRange(ins, locals, regsNum);
    if locals == [] {
      EmptyBag(ins);
    } else {
      var n := |locals| - 1;
      var init, v := locals[..n], locals[n];
      assert init + [v] == locals;
      BagOfCollected(ins, init, regsNum);
      BagPrefix(ins, init, v, Collect(init, regsNum));
      if IsParameter(regsNum, v) {
        assert Collect(init, regsNum) + [] == Collect(init, regsNum);
      } else {
        assert LocalFits(v, regsNum, |ins|);
        var p, q := Pair(v.start, n), Pair(v.start + v.length, n);
        BagNext(ins, locals, Collect(init, regsNum), p);
        BagNext(ins, locals, Collect(init, regsNum) + [p], q);
        assert Collect(locals, regsNum) == Collect(init, regsNum) + [p] + [q];
        OwnPairs(ins, locals, n);
      }
    }
  }

  lemma EmptyBag(ins: seq<Ins>)
    ensures InRange(ins, [], []) && Bag(ins, [], []) == multiset{}
  {
  }

  /** Whatever order ties came in, each variable that is no parameter starts once and ends once; one
      without length starts and ends twice. */
  lemma EachVariableOnce(ins: seq<Ins>, locals: seq<Local>, regsNum: nat, order: seq<Pair>)
    requires GoodOrder(ins, locals, regsNum, order, true)
    ensures InRange(ins, locals, order)
    ensures multiset(EventsOf(ins, locals, order, |order|)) == AllEvents(ins, locals, regsNum)
  {
    hide Bag, AllEvents, EventsOf, Collect, InRange, GoodLocals;
    OrderInRange(ins, locals, regsNum, order, true);
    BagOfCollected(ins, locals, regsNum);
    BagOfPermutation(ins, locals, order, Collect(locals, regsNum));
    BagIsEvents(ins, locals, order, |order|);
    assert order[..|order|] == order;
  }

  // ----- how many variables are read back -----

  function IsStarted(e: Event): nat { if e.Started? then 1 else 0 }

  function Starts(events: seq<Event>): nat {
    if events == [] then 0 else Starts(events[..|events| - 1]) + IsStarted(events[|events| - 1])
  }

  lemma StartsNext(events: seq<Event>, e: Event)
    ensures Starts(events + [e]) == Starts(events) + IsStarted(e)
  {
    assert (events + [e])[..|events|] == events;
  }

  lemma {:induction false} StartsWithout(events: seq<Event>, j: nat)
    requires j < |events|
    ensures Starts(events) == Starts(events[..j] + events[j + 1..]) + IsStarted(events[j])
  {
    var n := |events| - 1;
    var init, last := events[..n], events[n];
    if j == n {
      assert events[..j] + events[j + 1..] == init;
    } else {
      var less := init[..j] + init[j + 1..];
      StartsWithout(init, j);
      StartsNext(less, last);
      assert events[..j] + events[j + 1..] == less + [last];
    }
  }

  lemma {:induction false} StartsPermuted(a: seq<Event>, b: seq<Event>)
    requires multiset(a) == multiset(b)
    ensures Starts(a) == Starts(b)
    decreases |a|
  {
    hide IsStarted;
    if a == [] {
      assert |multiset(b)| == 0;
    } else {
      var j := PermutationWithout(a, b);
      StartsWithout(b, j);
      StartsPermuted(a[..|a| - 1], b[..j] + b[j + 1..]);
    }
  }

  /** Every start adds a variable to the table, and no end removes one. */
  lemma {:induction false} StartsAreEntries(events: seq<Event>)
    ensures |LocalRanges.Play(events)| == Starts(events)
  {
    if events != [] {
      StartsAreEntries(events[..|events| - 1]);
    }
  }

  /** All events, variable by variable. */
  function Listed(ins: seq<Ins>, locals: seq<Local>, regsNum: nat): seq<Event>
    requires GoodLocals(ins, locals, regsNum)
  {
    if locals == [] then []
    else
      var v := locals[|locals| - 1];
      assert LocalFits(v, regsNum, |ins|);
      var init := Listed(ins, locals[..|locals| - 1], regsNum);
      if v.reg >= regsNum then init
      else if v.length > 0 then init + [StartEvent(ins, v)] + [EndEvent(ins, v)]
      else init + [StartEvent(ins, v)] + [EndEvent(ins, v)] + [StartEvent(ins, v)] + [EndEvent(ins, v)]
  }

  lemma {:induction false} ListedIsAll(ins: seq<Ins>, locals: seq<Local>, regsNum: nat)
    requires GoodLocals(ins, locals, regsNum)
    ensures multiset(Listed(ins, locals, regsNum)) == AllEvents(ins, locals, regsNum)
  {
    hide StartEvent, EndEvent;
    if locals != [] {
      var v := locals[|locals| - 1];
      ListedIsAll(ins, locals[..|locals| - 1], regsNum);
      if !IsParameter(regsNum, v) {
        assert LocalFits(v, regsNum, |ins|);
        TwoMore(Listed(ins, locals[..|locals| - 1], regsNum), StartEvent(ins, v), EndEvent(ins, v));
      }
    }
  }

  lemma TwoMore<T>(t: seq<T>, s: T, e: T)
    ensures multiset(t + [s] + [e]) == multiset(t) + multiset{s, e}
    ensures multiset(t + [s] + [e] + [s] + [e]) == multiset(t) + multiset{s, e, s, e}
  {
  }

  /** How many variables there are besides the parameters, and how many of them have no length. */
  function Variables(locals: seq<Local>, regsNum: nat): nat {
    if locals == [] then 0 else Variables(locals[..|locals| - 1], regsNum) + (if locals[|locals| - 1].reg < regsNum then 1 else 0)
  }

  function Empties(locals: seq<Local>, regsNum: nat): nat {
    if locals == [] then 0
    else
      var v := locals[|locals| - 1];
      Empties(locals[..|locals| - 1], regsNum) + (if v.reg < regsNum && v.length == 0 then 1 else 0)
  }

  lemma {:induction false} ListedStarts(ins: seq<Ins>, locals: seq<Local>, regsNum: nat)
    requires GoodLocals(ins, locals, regsNum)
    ensures Starts(Listed(ins, locals, regsNum)) == Variables(locals, regsNum) + Empties(locals, regsNum)
  {
    hide Starts;
    if locals == [] {
      NoStarts();
    } else {
      var v := locals[|locals| - 1];
      assert LocalFits(v, regsNum, |ins|);
      ListedStarts(ins, locals[..|locals| - 1], regsNum);
      if !IsParameter(regsNum, v) {
        var init, s, e := Listed(ins, locals[..|locals| - 1], regsNum), StartEvent(ins, v), EndEvent(ins, v);
        StartsNext(init, s);
        StartsNext(init + [s], e);
        StartsNext(init + [s] + [e], s);
        StartsNext(init + [s] + [e] + [s], e);
      }
    }
  }

  lemma NoStarts()
    ensures Starts([]) == 0
  {
  }

  /** The table has one entry for each variable, and another for each that has no length. */
  lemma TableSize(ins: seq<Ins>, locals: seq<Local>, regsNum: nat, order: seq<Pair>)
    requires GoodOrder(ins, locals, regsNum, order, true)
    ensures InRange(ins, locals, order)
    ensures |LocalRanges.Play(EventsOf(ins, locals, order, |order|))| == Variables(locals, regsNum) + Empties(locals, regsNum)
  {
    hide EventsOf, AllEvents, Starts, LocalRanges.Play, Listed;
    EachVariableOnce(ins, locals, regsNum, order);
    ListedIsAll(ins, locals, regsNum);
    StartsPermuted(EventsOf(ins, locals, order, |order|), Listed(ins, locals, regsNum));
    ListedStarts(ins, locals, regsNum);
    StartsAreEntries(EventsOf(ins, locals, order, |order|));
  }

  lemma {:induction false} EmptiesIff(locals: seq<Local>, regsNum: nat)
    ensures Empties(locals, regsNum) == 0 <==> LocalRanges.Lasting(locals, regsNum)
  {
    if locals != [] {
      EmptiesIff(locals[..|locals| - 1], regsNum);
    }
  }

  // ----- the variables in the order they start -----

  predicate Names(locals: seq<Local>, order: seq<Pair>) { forall k :: 0 <= k < |order| ==> order[k].variable < |locals| }

  /** The variables of those pairs that are starts. */
  function StartingIn(locals: seq<Local>, order: seq<Pair>): seq<Local>
    requires Names(locals, order)
  {
    if order == [] then [] else StartingIn(locals, order[..|order| - 1]) + StartingAt(locals, order[|order| - 1])
  }

  function StartingAt(locals: seq<Local>, p: Pair): seq<Local>
    requires p.variable < |locals|
  {
    if p.insnOrder == locals[p.variable].start then [locals[p.variable]] else []
  }

  lemma StartingNext(locals: seq<Local>, order: seq<Pair>, p: Pair)
    requires Names(locals, order) && p.variable < |locals|
    ensures Names(locals, order + [p]) && StartingIn(locals, order + [p]) == StartingIn(locals, order) + StartingAt(locals, p)
  {
    assert (order + [p])[..|order|] == order;
  }

  lemma {:induction false} StartingWithout(locals: seq<Local>, order: seq<Pair>, j: nat)
    requires Names(locals, order) && j < |order|
    ensures multiset(StartingIn(locals, order)) ==
            multiset(StartingIn(locals, order[..j] + order[j + 1..])) + multiset(StartingAt(locals, order[j]))
  {
    hide StartingAt, StartingIn;
    var n := |order| - 1;
    var init, last := order[..n], order[n];
    assert order == init + [last];
    StartingNext(locals, init, last);
    if j == n {
      assert order[..j] + order[j + 1..] == init;
    } else {
      var less := init[..j] + init[j + 1..];
      StartingWithout(locals, init, j);
      StartingNext(locals, less, last);
      assert order[..j] + order[j + 1..] == less + [last];
    }
  }

  lemma {:induction false} StartingPermuted(locals: seq<Local>, a: seq<Pair>, b: seq<Pair>)
    requires Names(locals, a) && Names(locals, b) && multiset(a) == multiset(b)
    ensures multiset(StartingIn(locals, a)) == multiset(StartingIn(locals, b))
    decreases |a|
  {
    hide StartingAt;
    if a == [] {
      assert |multiset(b)| == 0;
    } else {
      var j := PermutationWithout(a, b);
      StartingWithout(locals, b, j);
      StartingPermuted(locals, a[..|a| - 1], b[..j] + b[j + 1..]);
    }
  }

  /** The variables besides the parameters. */
  function NonParameters(locals: seq<Local>, regsNum: nat): seq<Local> {
    if locals == [] then []
    else
      var v := locals[|locals| - 1];
      NonParameters(locals[..|locals| - 1], regsNum) + (if v.reg < regsNum then [v] else [])
  }

  lemma {:induction false} StartingPrefix(locals: seq<Local>, v: Local, order: seq<Pair>)
    requires Names(locals, order)
    ensures StartingIn(locals + [v], order) == StartingIn(locals, order)
  {
    if order != [] {
      StartingPrefix(locals, v, order[..|order| - 1]);
    }
  }

  lemma {:induction false} StartingCollected(locals: seq<Local>, regsNum: nat)
    requires LocalRanges.Lasting(locals, regsNum)
    ensures Names(locals, Collect(locals, regsNum)) && StartingIn(locals, Collect(locals, regsNum)) == NonParameters(locals, regsNum)
  {
    hide StartingIn, Names;
    if locals == [] {
      NoneStarting();
    } else {
      var n := |locals| - 1;
      var init, v := locals[..n], locals[n];
      var c := Collect(init, regsNum);
      assert locals == init + [v];
      StartingCollected(init, regsNum);
      StartingPrefix(init, v, c);
      NamesMore(init, v, c);
      if IsParameter(regsNum, v) {
        assert Collect(locals, regsNum) == c;
      } else {
        var p, q := Pair(v.start, n), Pair(v.start + v.length, n);
        StartingNext(locals, c, p);
        StartingNext(locals, c + [p], q);
        assert Collect(locals, regsNum) == c + [p] + [q];
      }
    }
  }

  lemma NoneStarting()
    ensures Names([], []) && StartingIn([], []) == []
  {
  }

  lemma NamesMore(locals: seq<Local>, v: Local, order: seq<Pair>)
    requires Names(locals, order)
    ensures Names(locals + [v], order)
  {
  }

  predicate ByStart(s: seq<Local>) { forall i, j :: 0 <= i < j < |s| ==> s[i].start <= s[j].start }

  lemma {:induction false} StartingSorted(locals: seq<Local>, order: seq<Pair>, bound: nat)
    requires Names(locals, order) && SortedPairs(order) && forall k :: 0 <= k < |order| ==> order[k].insnOrder <= bound
    ensures ByStart(StartingIn(locals, order)) && forall i :: 0 <= i < |StartingIn(locals, order)| ==> StartingIn(locals, order)[i].start <= bound
  {
    if order != [] {
      StartingSorted(locals, order[..|order| - 1], order[|order| - 1].insnOrder);
    }
  }

  /** Whatever order ties came in: all variables besides the parameters, each once, by their start. */
  lemma StartingIsAll(ins: seq<Ins>, locals: seq<Local>, regsNum: nat, order: seq<Pair>)
    requires GoodOrder(ins, locals, regsNum, order, true) && LocalRanges.Lasting(locals, regsNum)
    ensures Names(locals, order) && ByStart(StartingIn(locals, order))
    ensures multiset(StartingIn(locals, order)) == multiset(NonParameters(locals, regsNum))
  {
    OrderInRange(ins, locals, regsNum, order, true);
    hide StartingIn, NonParameters, ByStart, Collect;
    StartingCollected(locals, regsNum);
    StartingPermuted(locals, order, Collect(locals, regsNum));
    StartingSorted(locals, order, |ins|);
  }
}

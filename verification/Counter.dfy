/**
 The counter meter and the loop that reports it, over exact reals. In RATE mode a report loads the
 count and then swaps it for the previously loaded one, in two atomic actions.
 */
module Counter {
  import opened Wrappers

  // ---- Increments and reports of any number of threads, interleaved ----

  /** loaded holds, per reporting thread, the count it has loaded but not swapped in yet. */
  datatype State = State(count: real, previous: real, loaded: map<nat, real>, reports: seq<real>)

  datatype Action = Increment(delta: real) | Load(t: nat) | Swap(t: nat)

  function Begin(): State {
    State(0.0, 0.0, map[], [])
  }

  function Step(s: State, a: Action): Option<State> {
    match a
    case Increment(x) => Some(s.(count := s.count + x))
    case Load(t) => if t in s.loaded then None else Some(s.(loaded := s.loaded[t := s.count]))
    case Swap(t) =>
      if t !in s.loaded then None
      else Some(s.(previous := s.loaded[t], loaded := s.loaded - {t}, reports := s.reports + [s.loaded[t] - s.previous]))
  }

  function Run(s: State, actions: seq<Action>): Option<State>
    decreases |actions|
  {
    if actions == [] then Some(s)
    else
      match Step(s, actions[0])
      case None => None
      case Some(s') => Run(s', actions[1..])
  }

  function Sum(xs: seq<real>): real {
    if xs == [] then 0.0 else Sum(xs[..|xs| - 1]) + xs[|xs| - 1]
  }

  /** The increments among the actions. */
  function Incremented(actions: seq<Action>): real {
    if actions == [] then 0.0
    else (match actions[0] case Increment(x) => x case _ => 0.0) + Incremented(actions[1..])
  }

  lemma SumSnoc(xs: seq<real>, x: real)
    ensures Sum(xs + [x]) == Sum(xs) + x
  {
    assert (xs + [x])[..|xs|] == xs;
  }

  /** Whatever the interleaving, the reports add up to the value last swapped in, and the count to all increments. */
  lemma {:induction false} ReportsAddUp(s: State, actions: seq<Action>, t: State)
    requires Run(s, actions) == Some(t) && Sum(s.reports) == s.previous
    ensures Sum(t.reports) == t.previous
    ensures t.count == s.count + Incremented(actions)
    decreases |actions|
  {
    if actions != [] {
      var s' := Step(s, actions[0]).value;
      if actions[0].Swap? {
        SumSnoc(s.reports, s.loaded[actions[0].t] - s.previous);
      }
      ReportsAddUp(s', actions[1..], t);
    }
  }

  // ---- When reports are negative ----

  /**
   The order of loads and swaps: grown counts the positive increments so far, loadedAt holds that number
   for each value loaded and not swapped in yet, and last for the value last swapped in.
   */
  datatype Order = Order(grown: nat, loadedAt: map<nat, nat>, last: nat)

  const UNUSED := Order(0, map[], 0)

  function Track(o: Order, a: Action): Order {
    match a
    case Increment(x) => if x > 0.0 then o.(grown := o.grown + 1) else o
    case Load(t) => o.(loadedAt := o.loadedAt[t := o.grown])
    case Swap(t) => if t in o.loadedAt then o.(last := o.loadedAt[t], loadedAt := o.loadedAt - {t}) else o
  }

  /** No swap puts back a value that was loaded before the count grew to the value last swapped in. */
  predicate InOrder(o: Order, actions: seq<Action>)
    decreases |actions|
  {
    actions == []
    || ((actions[0].Swap? && actions[0].t in o.loadedAt ==> o.last <= o.loadedAt[actions[0].t])
        && InOrder(Track(o, actions[0]), actions[1..]))
  }

  predicate NeverDecreased(actions: seq<Action>) {
    forall k :: 0 <= k < |actions| && actions[k].Increment? ==> actions[k].delta >= 0.0
  }

  /** levels are the counts after each positive increment. */
  ghost predicate Levels(s: State, o: Order, levels: seq<real>) {
    && |levels| == o.grown + 1
    && (forall i, j :: 0 <= i < j < |levels| ==> levels[i] < levels[j])
    && s.count == levels[o.grown]
    && s.loaded.Keys == o.loadedAt.Keys
    && (forall t :: t in s.loaded ==> o.loadedAt[t] <= o.grown && s.loaded[t] == levels[o.loadedAt[t]])
    && o.last <= o.grown && s.previous == levels[o.last]
  }

  lemma IncrementLevels(s: State, o: Order, levels: seq<real>, x: real, s': State) returns (levels': seq<real>)
    requires Levels(s, o, levels) && x >= 0.0 && s' == s.(count := s.count + x)
    ensures Levels(s', Track(o, Increment(x)), levels')
  {
    levels' := if x > 0.0 then levels + [s'.count] else levels;
  }

  lemma StepLevels(s: State, o: Order, levels: seq<real>, a: Action, s': State) returns (levels': seq<real>)
    requires Levels(s, o, levels) && Step(s, a) == Some(s') && (a.Increment? ==> a.delta >= 0.0)
    ensures Levels(s', Track(o, a), levels')
    ensures a.Swap? ==> |s'.reports| == |s.reports| + 1
                        && (s'.reports[|s.reports|] >= 0.0 <==> o.last <= o.loadedAt[a.t])
  {
    levels' := levels;
    if a.Increment? {
      levels' := IncrementLevels(s, o, levels, a.delta, s');
    }
  }

  lemma {:induction false} RunLevels(s: State, o: Order, levels: seq<real>, actions: seq<Action>, t: State)
    requires Levels(s, o, levels) && NeverDecreased(actions) && Run(s, actions) == Some(t)
    ensures s.reports <= t.reports
    ensures (forall k :: |s.reports| <= k < |t.reports| ==> t.reports[k] >= 0.0) <==> InOrder(o, actions)
    decreases |actions|
  {
    if actions != [] {
      var a := actions[0];
      var s' := Step(s, a).value;
      var levels' := StepLevels(s, o, levels, a, s');
      RunLevels(s', Track(o, a), levels', actions[1..], t);
      if a.Swap? {
        assert t.reports[|s.reports|] == s'.reports[|s.reports|];
      }
    }
  }

  /**
   Under any interleaving without negative increments, every report is at least zero exactly when the
   swaps are in order.
   */
  lemma NonNegativeIff(actions: seq<Action>, t: State)
    requires Run(Begin(), actions) == Some(t) && NeverDecreased(actions)
    ensures (forall k :: 0 <= k < |t.reports| ==> t.reports[k] >= 0.0) <==> InOrder(UNUSED, actions)
  {
    RunLevels(Begin(), UNUSED, [0.0], actions, t);
  }

  /** The same loads and swaps between increments, by whatever positive amounts. */
  predicate SameSchedule(xs: seq<Action>, ys: seq<Action>) {
    && |xs| == |ys|
    && forall k :: 0 <= k < |xs| ==>
         if xs[k].Increment? then ys[k].Increment? && xs[k].delta > 0.0 && ys[k].delta > 0.0 else xs[k] == ys[k]
  }

  /** When every increment is positive, the schedule alone decides whether the swaps are in order. */
  lemma {:induction false} ScheduleDecides(o: Order, xs: seq<Action>, ys: seq<Action>)
    requires SameSchedule(xs, ys)
    ensures InOrder(o, xs) <==> InOrder(o, ys)
    decreases |xs|
  {
    if xs != [] {
      assert Track(o, xs[0]) == Track(o, ys[0]);
      ScheduleDecides(Track(o, xs[0]), xs[1..], ys[1..]);
    }
  }

  // ---- One reporter, one report after another ----

  /** A load is swapped in before the next one. */
  predicate Sequential(s: State, actions: seq<Action>)
    decreases |actions|
  {
    if actions == [] then true
    else
      && (actions[0].Load? ==> s.loaded == map[])
      && (match Step(s, actions[0]) case None => true case Some(s') => Sequential(s', actions[1..]))
  }

  /** Reporting one after another keeps the swaps in order. */
  lemma {:induction false} SequentialInOrder(s: State, o: Order, actions: seq<Action>)
    requires Sequential(s, actions) && Run(s, actions).Some?
    requires s.loaded.Keys == o.loadedAt.Keys && o.last <= o.grown
    requires forall t, u :: t in s.loaded && u in s.loaded ==> t == u
    requires forall t :: t in s.loaded ==> o.last <= o.loadedAt[t] <= o.grown
    ensures InOrder(o, actions)
    decreases |actions|
  {
    if actions != [] {
      SequentialInOrder(Step(s, actions[0]).value, Track(o, actions[0]), actions[1..]);
    }
  }

  /** What was incremented since the last load, if there was one among the actions. */
  function SinceLoad(actions: seq<Action>, before: real): real {
    if actions == [] then before
    else
      match actions[0]
      case Increment(x) => SinceLoad(actions[1..], before + x)
      case Load(_) => SinceLoad(actions[1..], 0.0)
      case Swap(_) => SinceLoad(actions[1..], before)
  }

  /** since is what was incremented after the last load. */
  ghost predicate InStep(s: State, since: real) {
    && (s.loaded == map[] ==> s.count == s.previous + since)
    && (forall t :: t in s.loaded ==> s.count == s.loaded[t] + since && s.loaded.Keys == {t})
  }

  lemma StepInStep(s: State, since: real, a: Action, s': State)
    requires InStep(s, since) && Step(s, a) == Some(s') && (a.Load? ==> s.loaded == map[])
    ensures InStep(s', match a case Increment(x) => since + x case Load(_) => 0.0 case Swap(_) => since)
  {
    match a
    case Load(t) => assert s'.loaded.Keys == {t};
    case Swap(t) =>
      assert s'.loaded == map[] by {
        assert s.loaded.Keys == {t};
      }
    case Increment(_) =>
  }

  lemma {:induction false} RunInStep(s: State, since: real, actions: seq<Action>, t: State)
    requires InStep(s, since) && Sequential(s, actions) && Run(s, actions) == Some(t)
    ensures InStep(t, SinceLoad(actions, since))
    decreases |actions|
  {
    if actions != [] {
      var a := actions[0];
      var s' := Step(s, a).value;
      StepInStep(s, since, a, s');
      RunInStep(s', match a case Increment(x) => since + x case Load(_) => 0.0 case Swap(_) => since, actions[1..], t);
    }
  }

  /**
   With one reporter that reports one after another: without negative increments every report is at
   least zero, and between reports what is not reported yet is exactly what was incremented since the
   last load.
   */
  lemma SequentialReports(actions: seq<Action>, t: State)
    requires Run(Begin(), actions) == Some(t) && Sequential(Begin(), actions)
    ensures NeverDecreased(actions) ==> forall k :: 0 <= k < |t.reports| ==> t.reports[k] >= 0.0
    ensures t.loaded == map[] ==> Incremented(actions) - Sum(t.reports) == SinceLoad(actions, 0.0)
  {
    if NeverDecreased(actions) {
      SequentialInOrder(Begin(), UNUSED, actions);
      NonNegativeIff(actions, t);
    }
    RunInStep(Begin(), 0.0, actions, t);
    ReportsAddUp(Begin(), actions, t);
  }

  /** Two reporters at once can swap out of order, and then a report is negative although nothing was ever decremented. */
  lemma OverlappingReports(x: real) returns (actions: seq<Action>, t: State)
    requires x > 0.0
    ensures Run(Begin(), actions) == Some(t) && t.reports == [x, -x]
    ensures NeverDecreased(actions) && !InOrder(UNUSED, actions)
  {
    var s1 := Step(Begin(), Load(0)).value;
    var s2 := Step(s1, Increment(x)).value;
    var s3 := Step(s2, Load(1)).value;
    var s4 := Step(s3, Swap(1)).value;
    t := Step(s4, Swap(0)).value;
    var a1, a2, a3 := [Swap(0)], [Swap(1), Swap(0)], [Load(1), Swap(1), Swap(0)];
    var a4 := [Increment(x), Load(1), Swap(1), Swap(0)];
    actions := [Load(0), Increment(x), Load(1), Swap(1), Swap(0)];
    assert Run(t, []) == Some(t);
    assert Run(s4, a1) == Some(t);
    assert a2[1..] == a1 && Run(s3, a2) == Some(t);
    assert a3[1..] == a2 && Run(s2, a3) == Some(t);
    assert a4[1..] == a3 && Run(s1, a4) == Some(t);
    assert actions[1..] == a4;
    assert t.reports[1] == -x;
    NonNegativeIff(actions, t);
  }

  // ---- The objects ----

  datatype CounterMode = INCREMENT | RATE

  class Counter {
    const id: string
    const mode: CounterMode
    var count: real
    var previousCount: real

    constructor (id: string, mode: CounterMode)
      ensures this.id == id && this.mode == mode && count == 0.0 && previousCount == 0.0
    {
      this.id, this.mode, count, previousCount := id, mode, 0.0, 0.0;
    }

    method Increase(delta: real)
      modifies this`count
      ensures count == old(count) + delta
    {
      count := count + delta;
    }

    /** One undisturbed report; see UndisturbedReport. */
    method Transform() returns (value: real)
      modifies this`previousCount
      ensures mode.INCREMENT? ==> value == count && previousCount == old(previousCount)
      ensures mode.RATE? ==> value == count - old(previousCount) && previousCount == count
    {
      if mode.INCREMENT? {
        return count;
      }
      var current := count;
      value := current - previousCount;
      previousCount := current;
    }
  }

  /** A load followed at once by its swap reports what was counted since the value last swapped in. */
  lemma UndisturbedReport(s: State, t: nat)
    requires t !in s.loaded
    ensures Run(s, [Load(t), Swap(t)]) == Some(s.(previous := s.count, reports := s.reports + [s.count - s.previous]))
  {
    var s1 := Step(s, Load(t)).value;
    var s2 := Step(s1, Swap(t)).value;
    assert s1.loaded - {t} == s.loaded;
    assert Run(s2, []) == Some(s2);
    assert [Swap(t)][1..] == [] && Run(s1, [Swap(t)]) == Some(s2);
    assert [Load(t), Swap(t)][1..] == [Swap(t)];
  }

  class Metricer {
    var meters: map<string, Counter>

    constructor ()
      ensures meters == map[]
    {
      meters := map[];
    }

    /** Every meter stands under its own id, so no meter stands under two. */
    ghost predicate Valid()
      reads this
    {
      forall id :: id in meters ==> meters[id].id == id
    }

    /** A meter registered under an id that is taken replaces the earlier one. */
    method Register(meter: Counter)
      requires Valid()
      modifies this
      ensures Valid() && meters == old(meters)[meter.id := meter]
    {
      meters := meters[meter.id := meter];
    }

    /** One round of the reporting loop: every registered meter is transformed and reported once, in some order. */
    method ReportAll() returns (ids: seq<string>, values: seq<real>)
      requires Valid()
      modifies set id | id in meters :: meters[id]`previousCount
      ensures Enumerates(ids, meters.Keys) && |values| == |ids|
      ensures forall k :: 0 <= k < |ids| ==> Reported(meters[ids[k]], old(meters[ids[k]].previousCount), values[k])
    {
      ids := Enumerate(meters.Keys);
      values := [];
      for i := 0 to |ids|
        invariant |values| == i
        invariant forall k :: 0 <= k < i ==> Reported(meters[ids[k]], old(meters[ids[k]].previousCount), values[k])
        invariant forall k :: i <= k < |ids| ==> meters[ids[k]].previousCount == old(meters[ids[k]].previousCount)
      {
        var value := meters[ids[i]].Transform();
        values := values + [value];
      }
    }
  }

  /** ids lists the elements of s, each once. */
  ghost predicate Enumerates(ids: seq<string>, s: set<string>) {
    (forall i, j :: 0 <= i < j < |ids| ==> ids[i] != ids[j]) && (forall id :: id in ids <==> id in s)
  }

  method Enumerate(s: set<string>) returns (ids: seq<string>)
    ensures Enumerates(ids, s)
  {
    ids := [];
    var todo := s;
    while todo != {}
      invariant todo <= s && Enumerates(ids, s - todo)
      decreases |todo|
    {
      var id :| id in todo;
      ids := ids + [id];
      todo := todo - {id};
    }
  }

  /** m was reported as value when its previous count was before. */
  ghost predicate Reported(m: Counter, before: real, value: real)
    reads m
  {
    && value == (if m.mode.RATE? then m.count - before else m.count)
    && m.previousCount == (if m.mode.RATE? then m.count else before)
  }
}

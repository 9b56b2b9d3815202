/**
 The wait group: a counter under a mutex and a condition variable. Each action is one critical
 section. A waiter that finds the count positive parks and releases the mutex in the same instant; it
 may be woken by done or spuriously, and then has to take the mutex again.
 */
module WaitGroupModel {
  import opened Wrappers

  datatype Waiter = Entering | Parked | Notified | Returned

  datatype Group = Group(count: nat, waiters: map<nat, Waiter>)

  datatype Action =
    | Add(n: nat)
    | Done
    | Arrive(t: nat)
    | Lock(t: nat)
    | WakeSpuriously(t: nat)

  function NotifyAll(waiters: map<nat, Waiter>): map<nat, Waiter> {
    map t | t in waiters :: if waiters[t].Parked? then Notified else waiters[t]
  }

  /** One critical section; None when the thread is not there, or when done would underflow. */
  function Act(g: Group, a: Action): Option<Group> {
    match a
    case Add(n) => Some(g.(count := g.count + n))
    case Done =>
      if g.count == 0 then None
      else if g.count == 1 then Some(Group(0, NotifyAll(g.waiters)))
      else Some(g.(count := g.count - 1))
    case Arrive(t) =>
      if t in g.waiters then None else Some(g.(waiters := g.waiters[t := Entering]))
    case Lock(t) =>
      if t !in g.waiters || g.waiters[t].Parked? || g.waiters[t].Returned? then None
      else Some(g.(waiters := g.waiters[t := if g.count == 0 then Returned else Parked]))
    case WakeSpuriously(t) =>
      if t !in g.waiters || !g.waiters[t].Parked? then None
      else Some(g.(waiters := g.waiters[t := Notified]))
  }

  function ActAll(g: Group, actions: seq<Action>): Option<Group>
    decreases |actions|
  {
    if actions == [] then Some(g)
    else
      match Act(g, actions[0])
      case None => None
      case Some(g') => ActAll(g', actions[1..])
  }

  /** No waiter is parked while the count is zero. */
  ghost predicate NoLostWakeup(g: Group) {
    g.count == 0 ==> forall t :: t in g.waiters ==> !g.waiters[t].Parked?
  }

  lemma ActKeepsWakeups(g: Group, a: Action)
    requires NoLostWakeup(g) && Act(g, a).Some?
    ensures NoLostWakeup(Act(g, a).value)
  {
  }

  /** What each critical section needs, and which way a waiter can go. */
  lemma WaiterPath(g: Group, a: Action, t: nat)
    ensures Act(g, a).None? <==>
            match a
            case Add(_) => false
            case Done => g.count == 0
            case Arrive(u) => u in g.waiters
            case Lock(u) => u in g.waiters ==> g.waiters[u].Parked? || g.waiters[u].Returned?
            case WakeSpuriously(u) => u in g.waiters ==> !g.waiters[u].Parked?
    ensures Act(g, a).Some? && t in g.waiters && (t !in Act(g, a).value.waiters || Act(g, a).value.waiters[t] != g.waiters[t]) ==>
              && t in Act(g, a).value.waiters
              && match Act(g, a).value.waiters[t]
                 case Returned => a == Lock(t) && g.count == 0
                 case Parked => a == Lock(t) && g.count > 0
                 case Notified => g.waiters[t].Parked? && (a == WakeSpuriously(t) || (a == Done && g.count == 1))
                 case Entering => false
    ensures Act(g, a).Some? && t !in g.waiters && t in Act(g, a).value.waiters ==> a == Arrive(t)
  {
  }

  /**
   In every run: whenever the count is zero nobody is parked, and whoever has not returned yet does so
   with the next critical section of its own. A waiter moves to Returned only while the count is zero.
   */
  lemma {:induction false} WaitersAreServed(start: Group, actions: seq<Action>, g: Group, t: nat)
    requires start.count == 0 && start.waiters == map[]
    requires ActAll(start, actions) == Some(g) && t in g.waiters
    ensures g.count == 0 && !g.waiters[t].Returned? ==>
              Act(g, Lock(t)).Some? && Act(g, Lock(t)).value.waiters[t] == Returned
    ensures forall a :: Act(g, a).Some? && !g.waiters[t].Returned? && Act(g, a).value.waiters[t].Returned? ==>
              a == Lock(t) && g.count == 0
  {
    RunKeepsWakeups(start, actions);
    forall a | Act(g, a).Some? && !g.waiters[t].Returned?
      ensures t in Act(g, a).value.waiters
      ensures Act(g, a).value.waiters[t].Returned? ==> a == Lock(t) && g.count == 0
    {
    }
  }

  lemma {:induction false} RunKeepsWakeups(g: Group, actions: seq<Action>)
    requires NoLostWakeup(g) && ActAll(g, actions).Some?
    ensures NoLostWakeup(ActAll(g, actions).value)
    decreases |actions|
  {
    if actions != [] {
      ActKeepsWakeups(g, actions[0]);
      RunKeepsWakeups(Act(g, actions[0]).value, actions[1..]);
    }
  }

  function Added(actions: seq<Action>): nat {
    if actions == [] then 0
    else (match actions[0] case Add(n) => n case _ => 0) + Added(actions[1..])
  }

  function Finished(actions: seq<Action>): nat {
    if actions == [] then 0 else (if actions[0].Done? then 1 else 0) + Finished(actions[1..])
  }

  /** The count is what was added less what was done, and one more done underflows exactly when these agree. */
  lemma {:induction false} CountBalances(g: Group, actions: seq<Action>, g': Group)
    requires ActAll(g, actions) == Some(g')
    ensures g'.count == g.count + Added(actions) - Finished(actions)
    ensures Act(g', Done).None? <==> g.count + Added(actions) == Finished(actions)
    decreases |actions|
  {
    if actions != [] {
      CountBalances(Act(g, actions[0]).value, actions[1..], g');
    }
  }

  /** The counter with its operations. */
  class WaitGroup {
    var count: nat

    constructor ()
      ensures count == 0
    {
      count := 0;
    }

    method Increase(n: nat)
      modifies this
      ensures count == old(count) + n
      ensures Act(Group(old(count), map[]), Add(n)) == Some(Group(count, map[]))
    {
      count := count + n;
    }

    /** ok is false where the subtraction would underflow; notify tells that all waiters are woken. */
    method Finish() returns (ok: bool, notify: bool)
      modifies this
      ensures ok <==> old(count) > 0
      ensures count == if ok then old(count) - 1 else 0
      ensures ok <==> Act(Group(old(count), map[]), Done).Some?
      ensures count == if ok then Act(Group(old(count), map[]), Done).value.count else old(count)
      ensures notify <==> ok && count == 0
    {
      if count == 0 {
        return false, false;
      }
      count := count - 1;
      assert NotifyAll(map[]) == map[];
      return true, count == 0;
    }

    /**
     The waiting loop alone, given the counts it reads each time it holds the mutex: it returns at the
     first zero, after one wake-up for each positive count, and still waits when there is none. What
     waiting means while other threads run is WaitersAreServed.
     */
    method Wait(seen: seq<nat>) returns (returned: bool, wakeups: nat)
      ensures returned <==> 0 in seen
      ensures wakeups <= |seen| && (returned ==> wakeups < |seen| && seen[wakeups] == 0)
      ensures forall k :: 0 <= k < wakeups ==> seen[k] > 0
    {
      wakeups := 0;
      while wakeups < |seen| && seen[wakeups] > 0
        invariant wakeups <= |seen|
        invariant forall k :: 0 <= k < wakeups ==> seen[k] > 0
      {
        wakeups := wakeups + 1;
      }
      returned := wakeups < |seen|;
    }
  }
}

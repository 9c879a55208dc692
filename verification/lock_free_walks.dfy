/** What one walk of `process_task` does to the lock-free list, whatever the workers do meanwhile: which tasks it
    takes off and which it marks. */
module LockFreeWalks {
  import opened LockFreeClaim

  /** The nearest node in front of `k` that is still on the list. */
  function LiveBefore(ts: seq<Task>, k: nat): (j: nat)
    requires 0 < k <= |ts|
    ensures j < k && (j == 0 || ts[j].destroyed == 0) && forall i :: j < i < k ==> ts[i].destroyed > 0
    decreases k
  {
    if k == 1 || ts[k - 1].destroyed == 0 then k - 1 else LiveBefore(ts, k - 1)
  }

  /** The node in front of `k` is the list head, or marked. */
  predicate BehindMarked(ts: seq<Task>, k: nat)
    requires 0 < k <= |ts|
  {
    LiveBefore(ts, k) == 0 || ts[LiveBefore(ts, k)].finish
  }

  /** The walk that began with the tasks `a` has been over the nodes below `p` and not touched the others. */
  predicate Walked(a: seq<Task>, ts: seq<Task>, p: nat) {
    && |ts| == |a| && p <= |a|
    && (forall k :: 1 <= k < p && a[k].destroyed == 0 ==>
          (ts[k].destroyed > 0 <==> a[k].finish && BehindMarked(ts, k)))
    && (forall k :: 1 <= k < p && a[k].destroyed > 0 ==> ts[k].destroyed > 0)
    && forall k :: p <= k < |a| ==> ts[k].destroyed == a[k].destroyed && ts[k].finish == a[k].finish
  }

  lemma {:induction false} LiveBeforeIs(ts: seq<Task>, k: nat, j: nat)
    requires j < k <= |ts| && (j == 0 || ts[j].destroyed == 0) && forall i :: j < i < k ==> ts[i].destroyed > 0
    ensures LiveBefore(ts, k) == j
    decreases k
  {
    if k == j + 1 {
    } else {
      LiveBeforeIs(ts, k - 1, j);
    }
  }

  lemma SameBehind(ts: seq<Task>, us: seq<Task>, k: nat)
    requires |us| == |ts| && 0 < k <= |ts|
    requires forall i :: 0 <= i < k ==> us[i].destroyed == ts[i].destroyed && us[i].finish == ts[i].finish
    ensures BehindMarked(us, k) == BehindMarked(ts, k)
  {
    LiveBeforeIs(us, k, LiveBefore(ts, k));
  }

  /** A change at `p` only decides about `p`; the nodes up to the next one were off the list before. */
  lemma WalkedOn(a: seq<Task>, ts: seq<Task>, us: seq<Task>, p: nat, next: nat)
    requires Walked(a, ts, p) && 0 < p < next <= |a| && |us| == |ts|
    requires forall k :: 0 <= k < |a| && k != p ==> us[k].destroyed == ts[k].destroyed && us[k].finish == ts[k].finish
    requires forall k :: p < k < next ==> ts[k].destroyed > 0
    requires a[p].destroyed > 0 ==> us[p].destroyed > 0
    requires a[p].destroyed == 0 ==> (us[p].destroyed > 0 <==> a[p].finish && BehindMarked(ts, p))
    ensures Walked(a, us, next)
  {
    forall k | 1 <= k < next && a[k].destroyed == 0
      ensures us[k].destroyed > 0 <==> a[k].finish && BehindMarked(us, k)
    {
      assert k <= p;
      SameBehind(ts, us, k);
    }
    hide BehindMarked;
  }

  /** A round of the walk visits the node `p`, whose nearest live predecessor is `prev`. */
  lemma VisitedNode(s: State)
    requires ChainInv(s.tasks) && ReaperInv(s) && Enabled(s, Visit) && s.reaper.p < |s.tasks|
    ensures var prev, p := s.reaper.prev, s.reaper.p;
      && 0 < p && s.tasks[p].destroyed == 0 && p < s.tasks[p].next <= |s.tasks|
      && BehindMarked(s.tasks, p) == (prev == 0 || s.tasks[prev].finish)
      && (forall k :: p < k < s.tasks[p].next ==> s.tasks[k].destroyed > 0)
  {
    var prev, p := s.reaper.prev, s.reaper.p;
    NextLive(s.tasks, prev);
    LiveBeforeIs(s.tasks, p, prev);
  }

  lemma VisitWalked(a: seq<Task>, s: State)
    requires ChainInv(s.tasks) && ReaperInv(s) && Enabled(s, Visit) && Walked(a, s.tasks, s.reaper.p)
    ensures var t := StepVisit(s); Walked(a, t.tasks, if t.reaper.Walking? then t.reaper.p else |a|)
  {
    hide ChainInv, Walked, BehindMarked;
    WalkedLength(a, s.tasks, s.reaper.p);
    if s.reaper.p < |s.tasks| {
      var t := StepVisit(s);
      VisitedNode(s);
      WalkedFront(a, s.tasks, s.reaper.p);
      VisitEffect(s);
      WalkedOn(a, s.tasks, t.tasks, s.reaper.p, s.tasks[s.reaper.p].next);
    }
  }

  lemma WalkedLength(a: seq<Task>, ts: seq<Task>, p: nat)
    requires Walked(a, ts, p)
    ensures |ts| == |a| && p <= |a|
  {
  }

  lemma WalkedFront(a: seq<Task>, ts: seq<Task>, p: nat)
    requires Walked(a, ts, p) && p < |a|
    ensures ts[p].destroyed == a[p].destroyed && ts[p].finish == a[p].finish
  {
  }

  lemma VisitEffect(s: State)
    requires Enabled(s, Visit) && s.reaper.p < |s.tasks| && s.reaper.prev != s.reaper.p
    ensures var t, p := StepVisit(s), s.reaper.p;
      && |t.tasks| == |s.tasks| && t.reaper.Walking? && t.reaper.p == s.tasks[p].next
      && (forall k :: 0 <= k < |s.tasks| && k != p ==>
            t.tasks[k].destroyed == s.tasks[k].destroyed && t.tasks[k].finish == s.tasks[k].finish)
      && t.tasks[p].destroyed ==
           s.tasks[p].destroyed
           + if s.tasks[p].finish && (s.tasks[s.reaper.prev].finish || s.reaper.prev == 0) then 1 else 0
  {
  }

  // ---------------------------------------------------------------- whole walks

  /** The walk that began with the tasks `a` stands at its cursor, or is over. */
  predicate WalkState(a: seq<Task>, s: State) {
    Walked(a, s.tasks, if s.reaper.Walking? then s.reaper.p else |a|)
  }

  lemma SameLinksWalked(a: seq<Task>, ts: seq<Task>, us: seq<Task>, p: nat)
    requires Walked(a, ts, p) && SameLinks(ts, us)
    ensures Walked(a, us, p)
  {
    forall k | 1 <= k < p && a[k].destroyed == 0
      ensures us[k].destroyed > 0 <==> a[k].finish && BehindMarked(us, k)
    {
      SameBehind(ts, us, k);
    }
    hide BehindMarked;
  }

  lemma WalkBegins(s: State)
    requires ChainInv(s.tasks) && Enabled(s, Read)
    ensures WalkState(s.tasks, Apply(s, Read))
  {
    NextLive(s.tasks, 0);
  }

  lemma WalkStep(a: seq<Task>, s: State, dirty: seq<bool>, act: Action)
    requires BaseInv(s, dirty) && WalkState(a, s) && Enabled(s, act) && act != Read
    ensures WalkState(a, Apply(s, act))
  {
    assert ChainInv(s.tasks) && ReaperInv(s) by {
      hide ChainInv, ReaperInv, TasksInv, WorkersInv, HandsInv, EventInv;
    }
    hide BaseInv, ChainInv, ReaperInv, Walked;
    match act
    case Work(w, nonNull) =>
      WorkerKeepsLinks(s, w, nonNull);
      SameLinksWalked(a, s.tasks, StepWorker(s, w, nonNull).tasks, if s.reaper.Walking? then s.reaper.p else |a|);
      hide StepWorker;
    case Visit =>
      VisitWalked(a, s);
      hide StepVisit;
  }

  lemma {:induction false} WalkRun(a: seq<Task>, s: State, dirty: seq<bool>, acts: seq<Action>, t: State)
    requires BaseInv(s, dirty) && WalkState(a, s) && Runs(s, acts, t) && Read !in acts
    ensures WalkState(a, t) && BaseInv(t, dirty)
    decreases |acts|
  {
    hide BaseInv, WalkState, Apply;
    if acts == [] {
    } else {
      WalkStep(a, s, dirty, acts[0]);
      StepBase(s, dirty, acts[0]);
      WalkRun(a, Apply(s, acts[0]), dirty, acts[1..], t);
    }
  }

  /** A walk, from the read of the eventfd to its end, whatever the workers do meanwhile: a task that was on the
      list at its beginning is off it at its end exactly when it was marked at the beginning and the nearest node
      in front of it that is still on the list is the list head or marked. */
  lemma WalkUnlinks(s: State, before: seq<Action>, m: State, walk: seq<Action>, t: State, k: nat)
    requires Init(s) && Runs(s, before, m) && Enabled(m, Read)
    requires Runs(Apply(m, Read), walk, t) && Read !in walk && t.reaper.Waiting?
    requires 1 <= k < |m.tasks| && m.tasks[k].destroyed == 0
    ensures |t.tasks| == |m.tasks|
    ensures t.tasks[k].destroyed > 0 <==> m.tasks[k].finish && BehindMarked(t.tasks, k)
  {
    InitBase(s);
    RunBase(s, Dirty(s), before, m);
    assert ChainInv(m.tasks) by {
      hide Init, Runs, ChainInv, ReaperInv, TasksInv, WorkersInv, HandsInv, EventInv;
    }
    hide Init, BaseInv, Runs, ChainInv, BehindMarked;
    StepBase(m, Dirty(s), Read);
    WalkBegins(m);
    WalkRun(m.tasks, Apply(m, Read), Dirty(s), walk, t);
  }

  lemma {:induction false} AllTaken(a: seq<Task>, ts: seq<Task>, k: nat)
    requires Walked(a, ts, |a|) && 1 <= k <= |a|
    requires forall i :: 1 <= i < |a| && a[i].destroyed == 0 ==> a[i].finish
    ensures forall i :: 1 <= i < k ==> ts[i].destroyed > 0
    decreases k
  {
    if k == 1 {
    } else {
      AllTaken(a, ts, k - 1);
      if a[k - 1].destroyed == 0 {
        LiveBeforeIs(ts, k - 1, 0);
      }
    }
  }

  /** A walk that begins with every task on the list marked leaves the list empty. */
  lemma WalkEmpties(s: State, before: seq<Action>, m: State, walk: seq<Action>, t: State)
    requires Init(s) && Runs(s, before, m) && Enabled(m, Read)
    requires Runs(Apply(m, Read), walk, t) && Read !in walk && t.reaper.Waiting?
    requires forall i :: 1 <= i < |m.tasks| && m.tasks[i].destroyed == 0 ==> m.tasks[i].finish
    ensures t.tasks != [] && t.tasks[0].next == |t.tasks|
    ensures forall i :: 1 <= i < |t.tasks| ==> t.tasks[i].destroyed == 1
  {
    InitBase(s);
    RunBase(s, Dirty(s), before, m);
    assert ChainInv(m.tasks) by {
      hide Init, Runs, ChainInv, ReaperInv, TasksInv, WorkersInv, HandsInv, EventInv;
    }
    StepBase(m, Dirty(s), Read);
    WalkBegins(m);
    hide Init, Runs, ChainInv, Walked, BaseInv;
    WalkRun(m.tasks, Apply(m, Read), Dirty(s), walk, t);
    WalkedLength(m.tasks, t.tasks, |m.tasks|);
    HasHead(m.tasks);
    AllTaken(m.tasks, t.tasks, |m.tasks|);
    EmptyList(t, Dirty(s));
  }

  lemma HasHead(ts: seq<Task>)
    requires ChainInv(ts)
    ensures ts != []
  {
  }

  lemma EmptyList(t: State, dirty: seq<bool>)
    requires BaseInv(t, dirty) && forall i :: 1 <= i < |t.tasks| ==> t.tasks[i].destroyed > 0
    ensures t.tasks != [] && t.tasks[0].next == |t.tasks|
    ensures forall i :: 1 <= i < |t.tasks| ==> t.tasks[i].destroyed == 1
  {
    hide ReaperInv, TasksInv, WorkersInv, HandsInv, EventInv;
    NextLive(t.tasks, 0);
  }
}

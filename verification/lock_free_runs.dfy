/** What a result that is set too early can do to the lock-free list: runs in which a task is unlinked before
    it was run, or never run at all, and for which lists there are none. */
module LockFreeRuns {
  import opened LockFreeClaim

  // ---------------------------------------------------------------- building runs

  lemma {:induction false} RunsConcat(s: State, a: seq<Action>, t: State, b: seq<Action>, u: State)
    requires Runs(s, a, t) && Runs(t, b, u)
    ensures Runs(s, a + b, u)
    decreases |a|
  {
    hide Enabled, Apply;
    if a == [] {
      assert a + b == b;
    } else {
      assert (a + b)[1..] == a[1..] + b;
      RunsConcat(Apply(s, a[0]), a[1..], t, b, u);
    }
  }

  lemma RunsOne(s: State, a: Action)
    requires Enabled(s, a)
    ensures Runs(s, [a], Apply(s, a))
  {
    hide Apply;
    assert [a][1..] == [];
    assert Runs(Apply(s, a), [], Apply(s, a));
  }

  /** Worker `w` has claimed task `p`, run it and posted it. */
  function Ran(s: State, w: nat, p: nat, nonNull: bool): State
    requires p < |s.tasks| && w < |s.workers|
  {
    var t := s.tasks[p];
    s.(tasks := s.tasks[p := t.(count := 1, started := t.started + 1, result := nonNull,
                                executed := t.executed + 1, posted := true)],
       workers := s.workers[w := Advance(p)], counter := s.counter + 1, posts := s.posts + 1)
  }

  lemma RanRuns(s: State, w: nat, p: nat, nonNull: bool) returns (acts: seq<Action>)
    requires p < |s.tasks| && w < |s.workers| && s.workers[w] == AtLoop(p) && s.tasks[p].count == 0
    ensures Runs(s, acts, Ran(s, w, p, nonNull))
  {
    var a := Work(w, nonNull);
    var t := Apply(s, a);
    var u := Apply(t, a);
    var v := Apply(u, a);
    assert v == Ran(s, w, p, nonNull) by {
      assert v.tasks == Ran(s, w, p, nonNull).tasks;
      assert v.workers == Ran(s, w, p, nonNull).workers;
    }
    RunsOne(s, a);
    RunsOne(t, a);
    RunsOne(u, a);
    hide Apply, Ran, Runs;
    RunsConcat(s, [a], t, [a], u);
    RunsConcat(s, [a] + [a], u, [a], v);
    acts := [a] + [a] + [a];
  }

  /** Nothing is unlinked, and worker 0 is about to claim task `j`; nobody has claimed it or a later one. */
  predicate Before(s: State, j: nat) {
    && s.workers != [] && s.workers[0] == AtLoop(j) && 1 <= j <= |s.tasks|
    && (forall i :: 0 <= i < |s.tasks| ==> s.tasks[i].next == i + 1 && s.tasks[i].destroyed == 0)
    && (forall i :: j <= i < |s.tasks| ==> s.tasks[i].count == 0)
  }

  /** Worker 0 runs task `j` and moves on. */
  lemma RunTask(s: State, j: nat, nonNull: bool) returns (acts: seq<Action>, t: State)
    requires Before(s, j) && j < |s.tasks|
    ensures Runs(s, acts, t) && Before(t, j + 1)
    ensures t == Ran(s, 0, j, nonNull).(workers := t.workers)
  {
    var head := RanRuns(s, 0, j, nonNull);
    var mid := Ran(s, 0, j, nonNull);
    var a := Work(0, true);
    t := Apply(mid, a);
    RunsOne(mid, a);
    hide Runs;
    RunsConcat(s, head, mid, [a], t);
    acts := head + [a];
  }

  /** The tasks below `j` ran and returned NULL, the others hold what they were queued with, nothing is marked. */
  predicate NullBelow(s: State, t: State, j: nat) {
    && Before(t, j) && |t.tasks| == |s.tasks| && t.reaper == Waiting
    && (forall i :: 0 <= i < |t.tasks| ==> !t.tasks[i].finish)
    && (forall i :: 1 <= i < j ==> !t.tasks[i].result)
    && (forall i :: j <= i < |t.tasks| ==> t.tasks[i].result == s.tasks[i].result)
    && (j > 1 ==> t.counter > 0)
  }

  lemma {:induction false} RunBelow(s: State, j: nat) returns (acts: seq<Action>, t: State)
    requires Init(s) && s.workers != [] && 1 <= j <= |s.tasks|
    ensures Runs(s, acts, t) && NullBelow(s, t, j)
    decreases j
  {
    if j == 1 {
      acts := [Work(0, true)];
      RunsOne(s, acts[0]);
      t := Apply(s, acts[0]);
    } else {
      var head, mid := RunBelow(s, j - 1);
      var last;
      last, t := RunTask(mid, j - 1, false);
      hide Runs;
      RunsConcat(s, head, mid, last, t);
      acts := head + last;
    }
  }

  /** The walk over unmarked nodes marks those with a result. */
  predicate Walked(s: State, t: State, p: nat, stop: nat) {
    && |t.tasks| == |s.tasks| && t.workers == s.workers && t.counter == s.counter
    && stop > 0 && t.reaper == Walking(stop - 1, stop)
    && forall i :: 0 <= i < |s.tasks| ==>
         t.tasks[i] == if p <= i < stop then s.tasks[i].(finish := s.tasks[i].result) else s.tasks[i]
  }

  lemma {:induction false} WalkTo(s: State, p: nat, stop: nat) returns (acts: seq<Action>, t: State)
    requires 1 <= p <= stop <= |s.tasks| && s.reaper == Walking(p - 1, p)
    requires forall i :: 0 <= i < |s.tasks| ==> s.tasks[i].next == i + 1
    requires forall i :: p <= i < stop ==> !s.tasks[i].finish
    ensures Runs(s, acts, t) && Walked(s, t, p, stop)
    decreases stop - p
  {
    if p == stop {
      acts, t := [], s;
    } else {
      var mid := Apply(s, Visit);
      assert !Unlinks(s.tasks, p - 1, p);
      assert mid.tasks == s.tasks[p := s.tasks[p].(finish := s.tasks[p].result)];
      RunsOne(s, Visit);
      var last;
      last, t := WalkTo(mid, p + 1, stop);
      hide Runs, Apply, Unlinks;
      RunsConcat(s, [Visit], mid, last, t);
      acts := [Visit] + last;
    }
  }

  /** Node `k` is off the list, unclaimed, and worker 0 is beyond it. */
  predicate Missed(s: State, k: nat, j: nat) {
    && s.workers != [] && s.workers[0] == AtLoop(j) && 1 <= k < j <= |s.tasks|
    && s.tasks[k].count == 0 && s.tasks[k].destroyed == 1
    && forall i :: j <= i < |s.tasks| ==> s.tasks[i].next == i + 1 && s.tasks[i].count == 0
  }

  lemma {:induction false} RunToEnd(s: State, k: nat, j: nat) returns (acts: seq<Action>, t: State)
    requires Missed(s, k, j)
    ensures Runs(s, acts, t) && |t.tasks| == |s.tasks| && t.tasks[k] == s.tasks[k]
    ensures t.workers != [] && t.workers[0] == Exited
    decreases |s.tasks| - j
  {
    var a := Work(0, true);
    if j == |s.tasks| {
      acts, t := [a], Apply(s, a);
      RunsOne(s, a);
    } else {
      var head := RanRuns(s, 0, j, true);
      var mid := Ran(s, 0, j, true);
      var next := Apply(mid, a);
      RunsOne(mid, a);
      assert Missed(next, k, j + 1);
      var last;
      last, t := RunToEnd(next, k, j + 1);
      hide Runs, Apply, Missed;
      RunsConcat(mid, [a], next, last, t);
      RunsConcat(s, head, mid, [a] + last, t);
      acts := head + ([a] + last);
    }
  }

  lemma ReadThenWalk(s: State, stop: nat) returns (acts: seq<Action>, t: State)
    requires s.reaper.Waiting? && s.counter > 0 && 1 <= stop <= |s.tasks|
    requires forall i :: 0 <= i < |s.tasks| ==> s.tasks[i].next == i + 1
    requires forall i :: 1 <= i < stop ==> !s.tasks[i].finish
    ensures Runs(s, acts, t) && Walked(s.(counter := 0), t, 1, stop)
  {
    var read := Apply(s, Read);
    RunsOne(s, Read);
    var last;
    last, t := WalkTo(read, 1, stop);
    hide Runs;
    RunsConcat(s, [Read], read, last, t);
    acts := [Read] + last;
  }

  /** The first walk has marked task `k`; worker 0 has run the tasks below `k - 1`, each returning NULL. */
  predicate MarkedEarly(s: State, k: nat) {
    && 3 <= k < |s.tasks| && Before(s, k - 1) && s.reaper.Waiting? && s.tasks[k].finish
    && forall i :: 1 <= i < k - 1 ==> !s.tasks[i].finish && !s.tasks[i].result
  }

  lemma MarkEarly(s: State, k: nat) returns (acts: seq<Action>, t: State)
    requires Init(s) && s.workers != [] && 3 <= k < |s.tasks| && s.tasks[k].result
    ensures Runs(s, acts, t) && MarkedEarly(t, k) && |t.tasks| == |s.tasks|
  {
    var a0, t1 := RunBelow(s, k - 1);
    hide Runs, Init;
    var a1, t3 := ReadThenWalk(t1, |t1.tasks|);
    RunsConcat(s, a0, t1, a1, t3);
    t := Apply(t3, Visit);
    RunsOne(t3, Visit);
    RunsConcat(s, a0 + a1, t3, [Visit], t);
    acts := a0 + a1 + [Visit];
  }

  /** Two rounds of the walk: node `k - 1` is marked and kept, then `k` is unlinked behind it. */
  lemma SkipOver(s: State, k: nat) returns (acts: seq<Action>, t: State)
    requires 3 <= k < |s.tasks| && s.reaper == Walking(k - 2, k - 1) && !s.tasks[k - 2].finish
    requires s.tasks[k - 1].result && s.tasks[k - 1].next == k && s.tasks[k].finish
    ensures Runs(s, acts, t) && |t.tasks| == |s.tasks| && t.workers == s.workers
    ensures t.tasks[k - 1].next == s.tasks[k].next && t.tasks[k].destroyed == s.tasks[k].destroyed + 1
    ensures forall i :: 0 <= i < |s.tasks| ==> t.tasks[i].count == s.tasks[i].count
    ensures forall i :: k < i < |s.tasks| ==> t.tasks[i] == s.tasks[i]
  {
    var mid := Apply(s, Visit);
    RunsOne(s, Visit);
    assert mid.reaper == Walking(k - 1, k) && mid.tasks[k - 1].finish && mid.tasks[k].finish;
    t := Apply(mid, Visit);
    RunsOne(mid, Visit);
    RunsConcat(s, [Visit], mid, [Visit], t);
    acts := [Visit] + [Visit];
    hide Runs;
  }

  /** With task `k - 1` just executed and its worker not yet past it, the next walk unlinks task `k`. */
  lemma UnlinkEarly(s: State, k: nat) returns (acts: seq<Action>, t: State)
    requires MarkedEarly(s, k)
    ensures Runs(s, acts, t) && Missed(t, k, k + 1) && |t.tasks| == |s.tasks|
  {
    var a0 := RanRuns(s, 0, k - 1, true);
    var t1 := Ran(s, 0, k - 1, true);
    hide Runs;
    var a1, t2 := ReadThenWalk(t1, k - 1);
    RunsConcat(s, a0, t1, a1, t2);
    var a2, t3 := SkipOver(t2, k);
    RunsConcat(s, a0 + a1, t2, a2, t3);
    var a := Work(0, true);
    t := Apply(t3, a);
    RunsOne(t3, a);
    RunsConcat(s, a0 + a1 + a2, t3, [a], t);
    acts := a0 + a1 + a2 + [a];
  }

  /** A result that is not NULL from the start can hide a task beyond the second from every worker: it is
      unlinked although nobody ever claims it. */
  lemma EarlyResultHidesTask(s: State, k: nat) returns (acts: seq<Action>, t: State)
    requires Init(s) && s.workers != [] && 3 <= k < |s.tasks| && s.tasks[k].result
    ensures Runs(s, acts, t) && t.workers != [] && t.workers[0] == Exited
    ensures |t.tasks| == |s.tasks| && t.tasks[k].count == 0 && t.tasks[k].destroyed == 1
  {
    var a0, t0 := MarkEarly(s, k);
    var a1, t1 := UnlinkEarly(t0, k);
    var a2;
    a2, t := RunToEnd(t1, k, k + 1);
    hide Runs, MarkedEarly, Missed, Init;
    RunsConcat(s, a0, t0, a1, t1);
    RunsConcat(s, a0 + a1, t1, a2, t);
    acts := a0 + a1 + a2;
  }

  /** The smallest such list: three tasks, one worker, and only the last task queued with a result. */
  lemma ThreeTasksOneWorker() returns (s: State, acts: seq<Action>, t: State)
    ensures s == State(
      [Task(1, 0, false, false, 0, 0, false, 0), Task(2, 0, false, false, 0, 0, false, 0),
       Task(3, 0, false, false, 0, 0, false, 0), Task(4, 0, true, false, 0, 0, false, 0)],
      [Start], Waiting, 0, 0, 0, 0)
    ensures Runs(s, acts, t) && t.workers != [] && t.workers[0] == Exited
    ensures |t.tasks| == 4 && t.tasks[3].count == 0 && t.tasks[3].destroyed == 1
  {
    s := State(
      [Task(1, 0, false, false, 0, 0, false, 0), Task(2, 0, false, false, 0, 0, false, 0),
       Task(3, 0, false, false, 0, 0, false, 0), Task(4, 0, true, false, 0, 0, false, 0)],
      [Start], Waiting, 0, 0, 0, 0);
    assert Init(s);
    acts, t := EarlyResultHidesTask(s, 3);
  }

  ghost predicate ExitMeansClaimed(s: State) {
    forall acts, t, w: nat, k: nat ::
      Runs(s, acts, t) && w < |t.workers| && t.workers[w] == Exited && 1 <= k < |t.tasks| ==> t.tasks[k].count > 0
  }

  /** "Once a worker has reached the end, every task is claimed" holds of all runs exactly when the tasks
      from the third on are queued with a NULL result. */
  lemma ExitMeansClaimedIffClean(s: State)
    requires Init(s) && s.workers != []
    ensures ExitMeansClaimed(s) <==> CleanFromThird(Dirty(s))
  {
    if CleanFromThird(Dirty(s)) {
      forall acts, t, w: nat, k: nat |
        Runs(s, acts, t) && w < |t.workers| && t.workers[w] == Exited && 1 <= k < |t.tasks|
        ensures t.tasks[k].count > 0
      {
        ExitedClaimsAll(s, acts, t, w, k);
      }
    } else {
      var k :| 3 <= k < |s.tasks| && Dirty(s)[k];
      var acts, t := EarlyResultHidesTask(s, k);
      assert Runs(s, acts, t) && t.workers[0] == Exited && t.tasks[k].count == 0;
    }
  }

  // ---------------------------------------------------------------- unlinked while running

  lemma Extend(s: State, acts: seq<Action>, t: State, a: Action) returns (more: seq<Action>, u: State)
    requires Runs(s, acts, t) && Enabled(t, a)
    ensures more == acts + [a] && u == Apply(t, a) && Runs(s, more, u)
  {
    more, u := acts + [a], Apply(t, a);
    RunsOne(t, a);
    hide Runs, Apply;
    RunsConcat(s, acts, t, [a], u);
  }

  /** Worker 0 is inside the function of task `k`, which had a result before; worker 1 has walked on to task 3;
      one task was posted and nothing is marked yet. */
  predicate Stalled(s: State, k: nat) {
    && 1 <= k <= 2 && |s.tasks| > 3 && |s.workers| > 1
    && s.workers[0] == Running(k) && s.workers[1] == AtLoop(3)
    && (forall i :: 0 <= i < |s.tasks| ==>
          s.tasks[i].next == i + 1 && !s.tasks[i].finish && s.tasks[i].destroyed == 0)
    && s.tasks[1].result && s.tasks[k].result && s.tasks[k].executed == 0 && s.tasks[3].count == 0
    && s.reaper.Waiting? && s.counter > 0
  }

  /** Worker `w` walks past a task that is claimed. */
  lemma PassClaimed(s: State, w: nat, p: nat) returns (acts: seq<Action>, t: State)
    requires p < |s.tasks| && w < |s.workers| && s.workers[w] == AtLoop(p) && s.tasks[p].count > 0
    ensures Runs(s, acts, t)
    ensures t == s.(tasks := s.tasks[p := s.tasks[p].(count := s.tasks[p].count + 1)],
                    workers := s.workers[w := AtLoop(s.tasks[p].next)])
  {
    var mid := Apply(s, Work(w, true));
    t := Apply(mid, Work(w, true));
    RunsOne(s, Work(w, true));
    RunsOne(mid, Work(w, true));
    hide Runs;
    RunsConcat(s, [Work(w, true)], mid, [Work(w, true)], t);
    acts := [Work(w, true)] + [Work(w, true)];
    assert t.workers == s.workers[w := AtLoop(s.tasks[p].next)];
  }

  lemma StallFirst(s: State) returns (acts: seq<Action>, t: State)
    requires Init(s) && |s.workers| > 1 && |s.tasks| > 3 && s.tasks[1].result
    ensures Runs(s, acts, t) && Stalled(t, 1) && |t.tasks| == |s.tasks|
  {
    acts, t := [], s;
    assert Runs(s, acts, t);
    hide Runs;
    acts, t := Extend(s, acts, t, Work(0, true));
    acts, t := Extend(s, acts, t, Work(0, true));
    acts, t := Extend(s, acts, t, Work(1, true));
    var pass, mid := PassClaimed(t, 1, 1);
    RunsConcat(s, acts, t, pass, mid);
    var run := RanRuns(mid, 1, 2, true);
    var ran := Ran(mid, 1, 2, true);
    RunsConcat(s, acts + pass, mid, run, ran);
    acts, t := Extend(s, acts + pass + run, ran, Work(1, true));
  }

  /** Worker 0 has run task 1 and is inside the function of task 2; the others have not started. */
  predicate InSecond(s: State) {
    && |s.tasks| > 3 && |s.workers| > 1 && s.workers[0] == Running(2) && s.workers[1] == Start
    && (forall i :: 0 <= i < |s.tasks| ==>
          s.tasks[i].next == i + 1 && !s.tasks[i].finish && s.tasks[i].destroyed == 0)
    && s.tasks[1].result && s.tasks[2].result && s.tasks[2].executed == 0
    && s.tasks[1].count > 0 && s.tasks[2].count > 0 && s.tasks[3].count == 0
    && s.reaper.Waiting? && s.counter > 0
  }

  lemma ReachSecond(s: State) returns (acts: seq<Action>, t: State)
    requires Init(s) && |s.workers| > 1 && |s.tasks| > 3 && s.tasks[2].result
    ensures Runs(s, acts, t) && InSecond(t) && |t.tasks| == |s.tasks|
  {
    acts, t := [], s;
    assert Runs(s, acts, t);
    hide Runs;
    acts, t := Extend(s, acts, t, Work(0, true));
    var run := RanRuns(t, 0, 1, true);
    var ran := Ran(t, 0, 1, true);
    RunsConcat(s, acts, t, run, ran);
    acts, t := Extend(s, acts + run, ran, Work(0, true));
    acts, t := Extend(s, acts, t, Work(0, true));
  }

  lemma StallSecond(s: State) returns (acts: seq<Action>, t: State)
    requires Init(s) && |s.workers| > 1 && |s.tasks| > 3 && s.tasks[2].result
    ensures Runs(s, acts, t) && Stalled(t, 2) && |t.tasks| == |s.tasks|
  {
    acts, t := ReachSecond(s);
    hide Runs, Init;
    acts, t := Extend(s, acts, t, Work(1, true));
    var first, mid := PassClaimed(t, 1, 1);
    RunsConcat(s, acts, t, first, mid);
    var second;
    second, t := PassClaimed(mid, 1, 2);
    RunsConcat(s, acts + first, mid, second, t);
    acts := acts + first + second;
  }

  /** The first walk marks the stalled task, and worker 1 posts task 3. */
  lemma MarkStalled(s: State, k: nat) returns (acts: seq<Action>, t: State)
    requires Stalled(s, k)
    ensures Runs(s, acts, t) && |t.tasks| == |s.tasks| && |t.workers| == |s.workers| && t.workers[0] == Running(k)
    ensures t.reaper.Waiting? && t.counter > 0 && t.tasks[0].next == 1 && t.tasks[1].next == 2
    ensures t.tasks[1].finish && t.tasks[k].finish && t.tasks[k].destroyed == 0 && t.tasks[k].executed == 0
  {
    var mid;
    acts, mid := ReadThenWalk(s, |s.tasks|);
    hide Runs;
    acts, mid := Extend(s, acts, mid, Visit);
    var run := RanRuns(mid, 1, 3, true);
    t := Ran(mid, 1, 3, true);
    RunsConcat(s, acts, mid, run, t);
    acts := acts + run;
  }

  /** The second walk unlinks it. */
  lemma UnlinkStalled(s: State, k: nat) returns (acts: seq<Action>, t: State)
    requires Stalled(s, k)
    ensures Runs(s, acts, t) && |t.tasks| == |s.tasks| && |t.workers| == |s.workers|
    ensures t.tasks[k].destroyed == 1 && t.tasks[k].executed == 0 && t.workers[0] == Running(k)
  {
    acts, t := MarkStalled(s, k);
    hide Runs;
    acts, t := Extend(s, acts, t, Read);
    acts, t := Extend(s, acts, t, Visit);
    if k == 2 {
      acts, t := Extend(s, acts, t, Visit);
    }
  }

  /** A result set too early on one of the first two tasks lets the reaper unlink it while a worker is still
      inside its function. */
  lemma UnlinkedWhileRunning(s: State, k: nat) returns (acts: seq<Action>, t: State)
    requires Init(s) && |s.workers| > 1 && |s.tasks| > 3 && 1 <= k <= 2 && s.tasks[k].result
    ensures Runs(s, acts, t) && |t.tasks| == |s.tasks| && t.workers != []
    ensures t.tasks[k].destroyed == 1 && t.tasks[k].executed == 0 && t.workers[0] == Running(k)
  {
    var a0, mid;
    if k == 1 {
      a0, mid := StallFirst(s);
    } else {
      a0, mid := StallSecond(s);
    }
    var a1;
    hide Runs, Init;
    a1, t := UnlinkStalled(mid, k);
    RunsConcat(s, a0, mid, a1, t);
    acts := a0 + a1;
  }

  /** The smallest such list: three tasks, two workers, and only the first task queued with a result. */
  lemma ThreeTasksTwoWorkers() returns (s: State, acts: seq<Action>, t: State)
    ensures s == State(
      [Task(1, 0, false, false, 0, 0, false, 0), Task(2, 0, true, false, 0, 0, false, 0),
       Task(3, 0, false, false, 0, 0, false, 0), Task(4, 0, false, false, 0, 0, false, 0)],
      [Start, Start], Waiting, 0, 0, 0, 0)
    ensures Runs(s, acts, t) && t.workers != [] && t.workers[0] == Running(1)
    ensures |t.tasks| == 4 && t.tasks[1].destroyed == 1 && t.tasks[1].executed == 0
  {
    s := State(
      [Task(1, 0, false, false, 0, 0, false, 0), Task(2, 0, true, false, 0, 0, false, 0),
       Task(3, 0, false, false, 0, 0, false, 0), Task(4, 0, false, false, 0, 0, false, 0)],
      [Start, Start], Waiting, 0, 0, 0, 0);
    assert Init(s);
    acts, t := UnlinkedWhileRunning(s, 1);
  }

  // ---------------------------------------------------------------- which lists are safe

  /** The tasks below this node were posted, if this is the only worker. */
  function PostedUpTo(pc: Worker, end: nat): nat {
    match pc
    case Start => 1
    case AtLoop(p) => p
    case Running(p) => p
    case Writing(p) => p
    case Advance(p) => p + 1
    case Exited => end
  }

  predicate Posted(ts: seq<Task>, k: nat) {
    k < |ts| && ts[k].posted
  }

  /** With one worker, posts come in list order. */
  predicate SoleInv(s: State) {
    && |s.workers| <= 1
    && (s.posts >= 1 ==> Posted(s.tasks, 1))
    && (s.posts >= 2 ==> Posted(s.tasks, 1) && Posted(s.tasks, 2))
    && forall w :: 0 <= w < |s.workers| ==>
         && (forall k :: 1 <= k <= 2 && k < PostedUpTo(s.workers[w], |s.tasks|) && k < |s.tasks| ==> s.tasks[k].posted)
         && (forall k :: 1 <= k && Passed(s.workers[w], |s.tasks|) <= k < |s.tasks| ==> s.tasks[k].count == 0)
  }

  /** With two tasks, the posts are theirs. */
  predicate PairInv(s: State) {
    && |s.tasks| <= 3
    && s.posts == (if Posted(s.tasks, 1) then 1 else 0) + (if Posted(s.tasks, 2) then 1 else 0)
  }

  lemma DestroyedAfterTwoPosts(s: State, dirty: seq<bool>, k: nat)
    requires ClaimInv(s, dirty) && k < |s.tasks| && s.tasks[k].destroyed > 0
    ensures s.posts >= 2
  {
    hide ChainInv, TasksInv, WorkersInv, HandsInv, ReaperInv, PassedInv;
  }

  /** Every node between a node and the one it links to is unlinked. */
  lemma SkippedDestroyed(ts: seq<Task>, p: nat, k: nat)
    requires ChainInv(ts) && p < k < |ts| && k < ts[p].next
    ensures ts[k].destroyed > 0
  {
  }

  lemma SkippedPosted(s: State, dirty: seq<bool>, p: nat)
    requires ClaimInv(s, dirty) && SoleInv(s) && p < |s.tasks|
    ensures forall k :: p < k <= 2 && k < s.tasks[p].next && k < |s.tasks| ==> s.tasks[k].posted
  {
    assert ChainInv(s.tasks);
    hide ClaimInv, ChainInv;
    forall k | p < k <= 2 && k < s.tasks[p].next && k < |s.tasks| ensures s.tasks[k].posted {
      SkippedDestroyed(s.tasks, p, k);
      DestroyedAfterTwoPosts(s, dirty, k);
    }
  }

  /** The nodes of the first two that lie between `p` and the node it links to were posted. */
  predicate GapPosted(ts: seq<Task>, p: nat)
    requires p < |ts|
  {
    && p < ts[p].next
    && forall k :: p < k <= 2 && k < ts[p].next && k < |ts| ==> ts[k].posted
  }

  lemma SoleMove(s: State, nonNull: bool)
    requires SoleInv(s) && Enabled(s, Work(0, nonNull)) && Placed(s.tasks, s.workers[0])
    requires s.workers[0].Start? ==> GapPosted(s.tasks, 0)
    requires s.workers[0].Advance? ==> GapPosted(s.tasks, s.workers[0].p)
    ensures SoleInv(StepWorker(s, 0, nonNull))
  {
  }

  lemma SoleWorkerStep(s: State, dirty: seq<bool>, w: nat, nonNull: bool)
    requires ClaimInv(s, dirty) && SoleInv(s) && Enabled(s, Work(w, nonNull))
    ensures SoleInv(StepWorker(s, w, nonNull))
  {
    assert w == 0 && Placed(s.tasks, s.workers[0]) by {
      hide ReaperInv, TasksInv, HandsInv, EventInv, WalkInv, PassedInv, ChainInv;
    }
    assert ChainInv(s.tasks);
    hide ClaimInv, ChainInv, SoleInv, StepWorker;
    if s.workers[w].Start? {
      NextLive(s.tasks, 0);
      SkippedPosted(s, dirty, 0);
    } else if s.workers[w].Advance? {
      NextLive(s.tasks, s.workers[w].p);
      SkippedPosted(s, dirty, s.workers[w].p);
    }
    SoleMove(s, nonNull);
  }

  lemma PairWorkerStep(s: State, dirty: seq<bool>, w: nat, nonNull: bool)
    requires ClaimInv(s, dirty) && PairInv(s) && Enabled(s, Work(w, nonNull))
    ensures PairInv(StepWorker(s, w, nonNull))
  {
    hide ReaperInv, TasksInv, HandsInv, EventInv, WalkInv, PassedInv, ChainInv;
    assert Placed(s.tasks, s.workers[w]);
  }

  lemma SameWorkPosts(s: State, t: State)
    requires SameWork(s.tasks, t.tasks) && t.workers == s.workers && t.posts == s.posts
    ensures SoleInv(s) ==> SoleInv(t)
    ensures PairInv(s) ==> PairInv(t)
  {
  }

  lemma VisitPosts(s: State)
    requires Enabled(s, Visit)
    ensures StepVisit(s).posts == s.posts
  {
  }

  lemma SameTasks(ts: seq<Task>)
    ensures SameWork(ts, ts)
  {
  }

  lemma PostsStep(s: State, dirty: seq<bool>, a: Action)
    requires ClaimInv(s, dirty) && Enabled(s, a)
    ensures SoleInv(s) ==> SoleInv(Apply(s, a))
    ensures PairInv(s) ==> PairInv(Apply(s, a))
  {
    hide ClaimInv, SoleInv, PairInv, StepWorker, StepVisit, SameWork;
    match a
    case Work(w, nonNull) =>
      if SoleInv(s) { SoleWorkerStep(s, dirty, w, nonNull); }
      if PairInv(s) { PairWorkerStep(s, dirty, w, nonNull); }
    case Read =>
      SameTasks(s.tasks);
      SameWorkPosts(s, Apply(s, Read));
    case Visit =>
      VisitKeepsWork(s);
      VisitPosts(s);
      SameWorkPosts(s, StepVisit(s));
  }

  lemma {:induction false} RunPosts(s: State, dirty: seq<bool>, acts: seq<Action>, t: State)
    requires ClaimInv(s, dirty) && CleanFromThird(dirty) && Runs(s, acts, t)
    ensures SoleInv(s) ==> SoleInv(t)
    ensures PairInv(s) ==> PairInv(t)
    decreases |acts|
  {
    hide ClaimInv, CleanFromThird, Apply, SoleInv, PairInv;
    if acts == [] {
    } else {
      PostsStep(s, dirty, acts[0]);
      StepClaim(s, dirty, acts[0]);
      RunPosts(Apply(s, acts[0]), dirty, acts[1..], t);
    }
  }

  lemma InitPosts(s: State)
    requires Init(s)
    ensures |s.workers| <= 1 ==> SoleInv(s)
    ensures |s.tasks| <= 3 ==> PairInv(s)
  {
  }

  ghost predicate UnlinkedMeansExecuted(s: State) {
    forall acts, t, k: nat ::
      Runs(s, acts, t) && 1 <= k < |t.tasks| && t.tasks[k].destroyed > 0 ==> t.tasks[k].executed > 0
  }

  /** No early result beyond the second task, and none on the first two unless one worker is alone or there
      is no third task. */
  predicate SafeList(s: State) {
    && CleanFromThird(Dirty(s))
    && (|s.workers| <= 1 || |s.tasks| <= 3 || (!s.tasks[1].result && !s.tasks[2].result))
  }

  lemma SafeListExecutes(s: State, acts: seq<Action>, t: State, k: nat)
    requires Init(s) && SafeList(s) && Runs(s, acts, t) && 1 <= k < |t.tasks| && t.tasks[k].destroyed > 0
    ensures t.tasks[k].executed > 0
  {
    AtMostOnce(s, acts, t, k);
    if s.tasks[k].result {
      assert Dirty(s)[k];
      assert k <= 2;
      InitClaim(s);
      RunClaim(s, Dirty(s), acts, t);
      InitPosts(s);
      RunPosts(s, Dirty(s), acts, t);
      hide Init, Runs, ClaimInv;
      DestroyedAfterTwoPosts(t, Dirty(s), k);
      assert Posted(t.tasks, k);
      PostedExecuted(t, Dirty(s), k);
    }
  }

  lemma PostedExecuted(s: State, dirty: seq<bool>, k: nat)
    requires ClaimInv(s, dirty) && Posted(s.tasks, k)
    ensures s.tasks[k].executed == 1
  {
    assert TaskOk(s.tasks[k], dirty[k]);
    hide ChainInv, ReaperInv, WorkersInv, HandsInv, EventInv, WalkInv, PassedInv;
  }

  /** "Only executed tasks are unlinked" holds of all runs exactly for the safe lists. */
  lemma UnlinkedMeansExecutedIffSafe(s: State)
    requires Init(s) && s.workers != []
    ensures UnlinkedMeansExecuted(s) <==> SafeList(s)
  {
    if SafeList(s) {
      forall acts, t, k: nat | Runs(s, acts, t) && 1 <= k < |t.tasks| && t.tasks[k].destroyed > 0
        ensures t.tasks[k].executed > 0
      {
        SafeListExecutes(s, acts, t, k);
      }
    } else if !CleanFromThird(Dirty(s)) {
      var k :| 3 <= k < |s.tasks| && Dirty(s)[k];
      var acts, t := EarlyResultHidesTask(s, k);
      AtMostOnce(s, acts, t, k);
      assert Runs(s, acts, t) && t.tasks[k].destroyed > 0 && t.tasks[k].executed == 0;
    } else {
      var k := if s.tasks[1].result then 1 else 2;
      var acts, t := UnlinkedWhileRunning(s, k);
      assert Runs(s, acts, t) && t.tasks[k].destroyed > 0 && t.tasks[k].executed == 0;
    }
  }

  // ---------------------------------------------------------------- cursors on unlinked tasks

  /** The node a worker reads or writes next, if any. */
  predicate StandsOn(pc: Worker, k: nat) {
    !pc.Start? && !pc.Exited? && pc.p == k
  }

  /** In no run does a worker stand on a task that was unlinked. */
  ghost predicate NeverStale(s: State) {
    forall acts, t, w: nat, k: nat ::
      Runs(s, acts, t) && w < |t.workers| && 1 <= k < |t.tasks| && StandsOn(t.workers[w], k) ==>
        t.tasks[k].destroyed == 0
  }

  /** Worker 0 has run and posted tasks 1 and 2 and has not left task 2; the first walk, which began after the first
      post, has marked both, and the second post is still to be read. */
  predicate BothMarked(s: State) {
    && |s.tasks| > 2 && s.workers != [] && s.workers[0] == Advance(2)
    && s.reaper.Waiting? && s.counter > 0
    && s.tasks[0].next == 1 && s.tasks[1].next == 2
    && s.tasks[1].finish && s.tasks[2].finish && s.tasks[2].destroyed == 0
  }

  /** The same with the walk just begun. */
  predicate WalkBegun(s: State) {
    && |s.tasks| > 2 && s.workers != [] && s.workers[0] == Advance(2)
    && s.reaper == Walking(0, 1) && s.counter > 0
    && (forall i :: 0 <= i < |s.tasks| ==>
          s.tasks[i].next == i + 1 && !s.tasks[i].finish && s.tasks[i].destroyed == 0)
    && s.tasks[1].result && s.tasks[2].result
  }

  lemma BeginWalk(s: State) returns (acts: seq<Action>, t: State)
    requires Init(s) && s.workers != [] && |s.tasks| > 2
    ensures Runs(s, acts, t) && WalkBegun(t) && |t.tasks| == |s.tasks|
  {
    acts, t := [], s;
    assert Runs(s, acts, t);
    hide Runs;
    acts, t := Extend(s, acts, t, Work(0, true));
    var first := RanRuns(t, 0, 1, true);
    var mid := Ran(t, 0, 1, true);
    RunsConcat(s, acts, t, first, mid);
    acts, t := Extend(s, acts + first, mid, Read);
    acts, t := Extend(s, acts, t, Work(0, true));
    var second := RanRuns(t, 0, 2, true);
    mid := Ran(t, 0, 2, true);
    RunsConcat(s, acts, t, second, mid);
    acts, t := acts + second, mid;
  }

  lemma EndWalk(s: State) returns (acts: seq<Action>, t: State)
    requires WalkBegun(s)
    ensures Runs(s, acts, t) && BothMarked(t) && |t.tasks| == |s.tasks|
  {
    var mid;
    acts, mid := WalkTo(s, 1, |s.tasks|);
    hide Runs;
    acts, t := Extend(s, acts, mid, Visit);
  }

  /** The second walk unlinks both, and the worker goes on to read the link of the second. */
  lemma StaleCursor(s: State) returns (acts: seq<Action>, t: State)
    requires Init(s) && s.workers != [] && |s.tasks| > 2
    ensures Runs(s, acts, t) && |t.tasks| == |s.tasks| && t.workers != []
    ensures t.workers[0] == Advance(2) && t.tasks[2].destroyed == 1
  {
    var a0, s1 := BeginWalk(s);
    hide Runs, Init;
    var a1;
    a1, t := EndWalk(s1);
    RunsConcat(s, a0, s1, a1, t);
    acts, t := Extend(s, a0 + a1, t, Read);
    acts, t := Extend(s, acts, t, Visit);
    acts, t := Extend(s, acts, t, Visit);
  }

  /** Workers never stand on unlinked tasks exactly when there is at most one task: whatever their results. */
  lemma NeverStaleIff(s: State)
    requires Init(s) && s.workers != []
    ensures NeverStale(s) <==> |s.tasks| <= 2
  {
    if |s.tasks| <= 2 {
      forall acts, t, w: nat, k: nat |
        Runs(s, acts, t) && w < |t.workers| && 1 <= k < |t.tasks| && StandsOn(t.workers[w], k)
        ensures t.tasks[k].destroyed == 0
      {
        OneTaskStays(s, acts, t, k);
      }
    } else {
      var acts, t := StaleCursor(s);
      assert Runs(s, acts, t) && StandsOn(t.workers[0], 2) && t.tasks[2].destroyed > 0;
    }
  }

  /** A single task is posted once, and one walk does not unlink it. */
  lemma OneTaskStays(s: State, acts: seq<Action>, t: State, k: nat)
    requires Init(s) && |s.tasks| <= 2 && Runs(s, acts, t) && 1 <= k < |t.tasks|
    ensures t.tasks[k].destroyed == 0
  {
    AtMostOnce(s, acts, t, k);
    assert CleanFromThird(Dirty(s));
    InitClaim(s);
    RunClaim(s, Dirty(s), acts, t);
    InitPosts(s);
    RunPosts(s, Dirty(s), acts, t);
    hide Init, Runs, ClaimInv;
    if t.tasks[k].destroyed > 0 {
      DestroyedAfterTwoPosts(t, Dirty(s), k);
    }
  }
}

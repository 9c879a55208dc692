/** One thread of `ev_thread_pool.cc` with its queue: the worker, the threads that add tasks, and the thread
    that destroys the pool, as a state machine. Threads of the pool share nothing, so one stands for all.

    One step is one statement; the queue itself is the chain of `TaskQueue`. */
module ThreadPool {
  import opened Sequences

  /** The statement of `ev_task_info_func` the worker executes next. */
  datatype Worker =
    | Lock | TestWait | Blocked | Woken | TestEnd | Take | Unlock(task: nat) | Run(task: nat)
    | UnlockEnd | SignalEnd | Exited

  /** The statement of `ev_task_info_add` a caller executes next. */
  datatype Adder = Outside | Link | UnlockAdd | SignalAdd

  /** The statement of `ev_thread_pool_destroy` its caller executes next. */
  datatype Destroyer =
    | NotCalled | LockFirst | Clear | UnlockFirst | SignalFirst
    | LockAgain | Check | UnlockAgain | SignalAgain | Released

  datatype Owner = Free | ByWorker | ByAdder(j: nat) | ByDestroyer

  /** How a task left the queue. */
  datatype Fate = Dequeued(task: nat) | FreedByDestroy(task: nat)

  datatype State = State(
    status: int, queue: seq<nat>, owner: Owner,
    worker: Worker, adders: seq<Adder>, destroyer: Destroyer,
    added: seq<nat>, left: seq<Fate>, ran: seq<nat>)

  datatype Action = Work | Spurious | Add(j: nat, task: nat) | Destroy

  // ---------------------------------------------------------------- steps

  predicate WorkerEnabled(s: State) {
    match s.worker
    case Lock => s.owner.Free?
    case Woken => s.owner.Free?
    case Blocked => false
    case Exited => false
    case Take => s.queue != []
    case _ => true
  }

  predicate Enabled(s: State, a: Action) {
    match a
    case Work => WorkerEnabled(s)
    case Spurious => s.worker.Blocked?
    case Add(j, task) =>
      && j < |s.adders|
      && (match s.adders[j]
          case Outside => s.owner.Free?
          case Link => task !in s.added
          case _ => true)
    case Destroy =>
      match s.destroyer
      case LockFirst => s.owner.Free?
      case LockAgain => s.owner.Free?
      case Released => false
      case _ => true
  }

  function Signalled(w: Worker): Worker {
    if w.Blocked? then Woken else w
  }

  /** `TestEnd` with nothing queued and the pool running goes back to `Lock` with the mutex still held. */
  function StepWorker(s: State): State
    requires WorkerEnabled(s)
  {
    match s.worker
    case Lock => s.(worker := TestWait, owner := ByWorker)
    case TestWait => if s.queue == [] then s.(worker := Blocked, owner := Free) else s.(worker := TestEnd)
    case Woken => s.(worker := TestEnd, owner := ByWorker)
    case TestEnd =>
      if s.queue != [] then s.(worker := Take)
      else if s.status == 0 then s.(worker := Lock)
      else s.(worker := UnlockEnd, status := s.status + 1)
    case Take =>
      s.(worker := Unlock(s.queue[0]), queue := s.queue[1..], left := s.left + [Dequeued(s.queue[0])])
    case Unlock(x) => s.(worker := Run(x), owner := Free)
    case Run(x) => s.(worker := Lock, ran := s.ran + [x])
    case UnlockEnd => s.(worker := SignalEnd, owner := Free)
    case SignalEnd => s.(worker := Exited)
  }

  function StepAdder(s: State, j: nat, task: nat): State
    requires Enabled(s, Add(j, task))
  {
    match s.adders[j]
    case Outside => s.(adders := s.adders[j := Link], owner := ByAdder(j))
    case Link => s.(adders := s.adders[j := UnlockAdd], queue := s.queue + [task], added := s.added + [task])
    case UnlockAdd => s.(adders := s.adders[j := SignalAdd], owner := Free)
    case SignalAdd => s.(adders := s.adders[j := Outside], worker := Signalled(s.worker))
  }

  function Freed(q: seq<nat>): (r: seq<Fate>)
    ensures |r| == |q| && forall i :: 0 <= i < |q| ==> r[i] == FreedByDestroy(q[i])
  {
    seq(|q|, i requires 0 <= i < |q| => FreedByDestroy(q[i]))
  }

  function StepDestroyer(s: State): State
    requires Enabled(s, Destroy)
  {
    match s.destroyer
    case NotCalled => s.(destroyer := LockFirst)
    case LockFirst => s.(destroyer := Clear, owner := ByDestroyer)
    case Clear =>
      s.(destroyer := UnlockFirst, status := s.status + 1, left := s.left + Freed(s.queue), queue := [])
    case UnlockFirst => s.(destroyer := SignalFirst, owner := Free)
    case SignalFirst => s.(destroyer := LockAgain, worker := Signalled(s.worker))
    case LockAgain => s.(destroyer := Check, owner := ByDestroyer)
    case Check => s.(destroyer := if s.status == 2 then Released else UnlockAgain)
    case UnlockAgain => s.(destroyer := SignalAgain, owner := Free)
    case SignalAgain => s.(destroyer := LockAgain, worker := Signalled(s.worker))
  }

  function Apply(s: State, a: Action): State
    requires Enabled(s, a)
  {
    match a
    case Work => StepWorker(s)
    case Spurious => s.(worker := Woken)
    case Add(j, task) => StepAdder(s, j, task)
    case Destroy => StepDestroyer(s)
  }

  predicate Runs(s: State, acts: seq<Action>, t: State)
    decreases |acts|
  {
    if acts == [] then t == s
    else Enabled(s, acts[0]) && Runs(Apply(s, acts[0]), acts[1..], t)
  }

  predicate Init(s: State) {
    && s.status == 0 && s.queue == [] && s.owner.Free? && s.worker.Lock? && s.destroyer.NotCalled?
    && (forall j :: 0 <= j < |s.adders| ==> s.adders[j].Outside?)
    && s.added == [] && s.left == [] && s.ran == []
  }

  // ---------------------------------------------------------------- invariants

  function Tasks(fates: seq<Fate>): (r: seq<nat>)
    ensures |r| == |fates| && forall i :: 0 <= i < |fates| ==> r[i] == fates[i].task
  {
    seq(|fates|, i requires 0 <= i < |fates| => fates[i].task)
  }

  /** The tasks the worker dequeued, in order. */
  function Taken(fates: seq<Fate>): seq<nat> {
    if fates == [] then []
    else Taken(fates[..|fates| - 1]) +
         (if fates[|fates| - 1].Dequeued? then [fates[|fates| - 1].task] else [])
  }

  /** The worker is between its lock and its unlock. */
  predicate InSection(w: Worker) {
    w.TestWait? || w.TestEnd? || w.Take? || w.Unlock? || w.UnlockEnd?
  }

  /** The worker has gone back to the top of its loop holding the mutex it is about to lock. */
  predicate Wedged(s: State) {
    s.worker.Lock? && s.owner.ByWorker?
  }

  predicate DestroyerIn(d: Destroyer) {
    d.Clear? || d.UnlockFirst? || d.Check? || d.UnlockAgain? || d.Released?
  }

  predicate OwnerInv(s: State) {
    && (InSection(s.worker) ==> s.owner.ByWorker?)
    && (s.owner.ByWorker? ==> InSection(s.worker) || s.worker.Lock?)
    && (DestroyerIn(s.destroyer) <==> s.owner.ByDestroyer?)
    && (s.owner.ByAdder? ==> s.owner.j < |s.adders|)
    && forall j :: 0 <= j < |s.adders| ==> (s.adders[j].Link? || s.adders[j].UnlockAdd? <==> s.owner == ByAdder(j))
  }

  predicate Ended(w: Worker) {
    w.UnlockEnd? || w.SignalEnd? || w.Exited?
  }

  predicate Cleared(d: Destroyer) {
    !d.NotCalled? && !d.LockFirst? && !d.Clear?
  }

  /** `status` counts the destroyer's increment and the worker's, and the worker's comes second. */
  predicate StatusInv(s: State) {
    && s.status == (if Cleared(s.destroyer) then 1 else 0) + (if Ended(s.worker) then 1 else 0)
    && (Ended(s.worker) ==> Cleared(s.destroyer))
    && (s.worker.Take? ==> s.queue != [])
    && (s.destroyer.Released? ==> s.status == 2)
    && (Wedged(s) ==> s.status == 0)
  }

  /** Tasks leave in the order they were added, each once; what the worker dequeued it runs, in that order. */
  predicate QueueInv(s: State) {
    && Tasks(s.left) + s.queue == s.added && Distinct(s.added)
    && Taken(s.left) == s.ran + (if s.worker.Unlock? || s.worker.Run? then [s.worker.task] else [])
  }

  predicate Inv(s: State) {
    OwnerInv(s) && StatusInv(s) && QueueInv(s)
  }

  lemma InitInv(s: State)
    requires Init(s)
    ensures Inv(s)
  {
  }

  lemma OwnerStep(s: State, a: Action)
    requires OwnerInv(s) && Enabled(s, a)
    ensures OwnerInv(Apply(s, a))
  {
  }

  lemma StatusStep(s: State, a: Action)
    requires OwnerInv(s) && StatusInv(s) && Enabled(s, a)
    ensures StatusInv(Apply(s, a))
  {
  }

  lemma TakenPush(fates: seq<Fate>, f: Fate)
    ensures Taken(fates + [f]) == Taken(fates) + (if f.Dequeued? then [f.task] else [])
  {
    assert (fates + [f])[..|fates|] == fates;
  }

  lemma {:induction false} TakenFreed(fates: seq<Fate>, q: seq<nat>)
    ensures Taken(fates + Freed(q)) == Taken(fates)
    decreases |q|
  {
    if q == [] {
      assert fates + Freed(q) == fates;
    } else {
      var init := q[..|q| - 1];
      assert fates + Freed(q) == (fates + Freed(init)) + [FreedByDestroy(q[|q| - 1])];
      TakenPush(fates + Freed(init), FreedByDestroy(q[|q| - 1]));
      TakenFreed(fates, init);
    }
  }

  lemma TasksConcat(a: seq<Fate>, b: seq<Fate>)
    ensures Tasks(a + b) == Tasks(a) + Tasks(b)
  {
  }

  lemma TakeMoves(left: seq<Fate>, queue: seq<nat>)
    requires queue != []
    ensures Tasks(left + [Dequeued(queue[0])]) + queue[1..] == Tasks(left) + queue
    ensures Taken(left + [Dequeued(queue[0])]) == Taken(left) + [queue[0]]
  {
    TakenPush(left, Dequeued(queue[0]));
    hide Taken;
    TasksConcat(left, [Dequeued(queue[0])]);
    assert [queue[0]] + queue[1..] == queue;
  }

  lemma QueueStepWorker(s: State)
    requires QueueInv(s) && WorkerEnabled(s)
    ensures QueueInv(StepWorker(s))
  {
    hide Taken, Tasks, Distinct;
    var t := StepWorker(s);
    if s.worker.Take? {
      TakeMoves(s.left, s.queue);
      assert s.ran + [] == s.ran;
    } else {
      assert t.left == s.left && t.queue == s.queue && t.added == s.added;
    }
  }

  lemma ClearMoves(left: seq<Fate>, queue: seq<nat>)
    ensures Tasks(left + Freed(queue)) + [] == Tasks(left) + queue
    ensures Taken(left + Freed(queue)) == Taken(left)
  {
    TakenFreed(left, queue);
    hide Taken;
    TasksConcat(left, Freed(queue));
    assert Tasks(Freed(queue)) == queue;
  }

  lemma LinkKeepsDistinct(added: seq<nat>, task: nat)
    requires Distinct(added) && task !in added
    ensures Distinct(added + [task])
  {
  }

  lemma QueueStep(s: State, a: Action)
    requires QueueInv(s) && Enabled(s, a)
    ensures QueueInv(Apply(s, a))
  {
    hide Taken, Tasks, Distinct, StepWorker, WorkerEnabled;
    if a.Work? {
      QueueStepWorker(s);
    } else if a.Destroy? && s.destroyer.Clear? {
      ClearMoves(s.left, s.queue);
    } else if a.Add? && s.adders[a.j].Link? {
      LinkKeepsDistinct(s.added, a.task);
      assert Tasks(s.left) + (s.queue + [a.task]) == s.added + [a.task];
    }
  }

  lemma StepInv(s: State, a: Action)
    requires Inv(s) && Enabled(s, a)
    ensures Inv(Apply(s, a))
  {
    OwnerStep(s, a);
    StatusStep(s, a);
    QueueStep(s, a);
    hide OwnerInv, StatusInv, QueueInv, Apply;
  }

  lemma {:induction false} RunInv(s: State, acts: seq<Action>, t: State)
    requires Inv(s) && Runs(s, acts, t)
    ensures Inv(t)
    decreases |acts|
  {
    hide Inv, Apply;
    if acts == [] {
    } else {
      StepInv(s, acts[0]);
      RunInv(Apply(s, acts[0]), acts[1..], t);
    }
  }

  // ---------------------------------------------------------------- what every run keeps

  /** Every added task is still queued or has left, once: dequeued or freed, never both. Tasks leave in the
      order they were added, and the worker runs exactly those it dequeued, in that order. */
  lemma LeavesOnce(s: State, acts: seq<Action>, t: State, i: nat, j: nat)
    requires Init(s) && Runs(s, acts, t)
    ensures Tasks(t.left) + t.queue == t.added
    ensures i < j < |t.left| ==> t.left[i].task != t.left[j].task
    ensures i < |t.left| ==> t.left[i].task !in t.queue
    ensures t.ran <= Taken(t.left) && |Taken(t.left)| <= |t.ran| + 1
  {
    InitInv(s);
    RunInv(s, acts, t);
    hide Runs, Init, OwnerInv, StatusInv, Taken;
    var all := Tasks(t.left) + t.queue;
    if i < j < |t.left| {
      assert all[i] != all[j];
    }
    if i < |t.left| {
      forall k | 0 <= k < |t.queue| ensures t.queue[k] != t.left[i].task {
        assert all[i] != all[|t.left| + k];
      }
    }
  }

  /** Two threads are never between lock and unlock at once. */
  lemma OneInside(s: State, acts: seq<Action>, t: State, j: nat, k: nat)
    requires Init(s) && Runs(s, acts, t) && j < |t.adders| && k < |t.adders|
    ensures !(InSection(t.worker) && DestroyerIn(t.destroyer))
    ensures t.adders[j].Link? || t.adders[j].UnlockAdd? ==>
              && !InSection(t.worker) && !DestroyerIn(t.destroyer)
              && (j != k ==> !t.adders[k].Link? && !t.adders[k].UnlockAdd?)
  {
    InitInv(s);
    RunInv(s, acts, t);
  }

  lemma StatusStepRises(s: State, a: Action)
    requires Inv(s) && Enabled(s, a)
    ensures s.status <= Apply(s, a).status <= s.status + 1
  {
  }

  /** `status` never falls and stays between 0 and 2; it is 2 exactly when the destroyer has cleared the
      queue and the worker has left its loop. */
  lemma {:induction false} StatusRises(s: State, acts: seq<Action>, t: State)
    requires Inv(s) && Runs(s, acts, t)
    ensures 0 <= s.status <= t.status <= 2
    ensures t.status == 2 <==> Cleared(t.destroyer) && Ended(t.worker)
    decreases |acts|
  {
    if acts == [] {
    } else {
      StepInv(s, acts[0]);
      StatusStepRises(s, acts[0]);
      hide Apply, Enabled;
      StatusRises(Apply(s, acts[0]), acts[1..], t);
    }
  }

  /** Once `status` is 2 the worker has left its loop: nothing more is dequeued, run or freed. */
  lemma {:induction false} TwoIsFinal(s: State, acts: seq<Action>, t: State)
    requires Inv(s) && s.status == 2 && Runs(s, acts, t)
    ensures t.status == 2 && t.left == s.left && t.ran == s.ran
    decreases |acts|
  {
    if acts == [] {
    } else {
      StepInv(s, acts[0]);
      assert Apply(s, acts[0]).left == s.left && Apply(s, acts[0]).ran == s.ran && Apply(s, acts[0]).status == 2;
      TwoIsFinal(Apply(s, acts[0]), acts[1..], t);
    }
  }

  /** Nobody queues a task in this run. */
  predicate NoLink(s: State, acts: seq<Action>)
    decreases |acts|
  {
    acts == [] ||
    (Enabled(s, acts[0]) && (acts[0].Add? ==> !s.adders[acts[0].j].Link?) && NoLink(Apply(s, acts[0]), acts[1..]))
  }

  /** Once the queue was cleared and nobody adds any more, it stays empty and nothing more leaves it. */
  lemma {:induction false} ClearedStays(s: State, acts: seq<Action>, t: State)
    requires Inv(s) && Cleared(s.destroyer) && s.queue == [] && Runs(s, acts, t) && NoLink(s, acts)
    ensures t.queue == [] && t.left == s.left && Cleared(t.destroyer)
    decreases |acts|
  {
    if acts == [] {
    } else {
      StepInv(s, acts[0]);
      var next := Apply(s, acts[0]);
      assert next.queue == [] && next.left == s.left && Cleared(next.destroyer);
      ClearedStays(next, acts[1..], t);
    }
  }

  /** If nobody adds once the destroyer holds the mutex, then when it has cleared the queue every task ever
      added has left it: dequeued by the worker or freed. */
  lemma NothingLeftBehind(s: State, before: seq<Action>, m: State, after: seq<Action>, t: State)
    requires Init(s) && Runs(s, before, m) && m.destroyer.Clear?
    requires Runs(m, after, t) && NoLink(m, after) && Cleared(t.destroyer)
    ensures t.queue == [] && Tasks(t.left) == t.added && t.left == m.left + Freed(m.queue)
  {
    InitInv(s);
    RunInv(s, before, m);
    RunInv(m, after, t);
    hide Init;
    UntilCleared(m, after, t);
    assert Tasks(t.left) + [] == Tasks(t.left);
  }

  lemma {:induction false} UntilCleared(m: State, acts: seq<Action>, t: State)
    requires Inv(m) && m.destroyer.Clear? && Runs(m, acts, t) && NoLink(m, acts) && Cleared(t.destroyer)
    ensures t.queue == [] && t.left == m.left + Freed(m.queue)
    decreases |acts|
  {
    var next := Apply(m, acts[0]);
    StepInv(m, acts[0]);
    if acts[0].Destroy? {
      ClearedStays(next, acts[1..], t);
    } else {
      assert next.queue == m.queue && next.left == m.left && next.destroyer.Clear?;
      UntilCleared(next, acts[1..], t);
    }
  }

  // ---------------------------------------------------------------- the worker can lock itself out

  /** A wedged worker stays wedged, nothing is queued, dequeued or freed any more, and a call that destroys
      the pool never gets as far as this thread's queue. */
  lemma {:induction false} WedgedForever(s: State, acts: seq<Action>, t: State)
    requires Inv(s) && Wedged(s) && Runs(s, acts, t)
    ensures Wedged(t) && t.queue == s.queue && t.left == s.left && t.ran == s.ran
    ensures t.status == 0 && !Cleared(t.destroyer)
    decreases |acts|
  {
    if acts == [] {
    } else {
      StepInv(s, acts[0]);
      var next := Apply(s, acts[0]);
      assert Wedged(next) && next.queue == s.queue && next.left == s.left && next.ran == s.ran;
      WedgedForever(next, acts[1..], t);
    }
  }

  lemma StepWedges(s: State, a: Action)
    requires Inv(s) && !Wedged(s) && Enabled(s, a)
    ensures Wedged(Apply(s, a)) <==> ResumesIdle(s, a)
  {
  }

  /** The worker goes on from its wait with nothing queued and the pool not being destroyed. */
  predicate ResumesIdle(s: State, a: Action) {
    a.Work? && s.worker.TestEnd? && s.queue == [] && s.status == 0
  }

  predicate SomeResumesIdle(s: State, acts: seq<Action>)
    decreases |acts|
  {
    acts != [] && Enabled(s, acts[0]) && (ResumesIdle(s, acts[0]) || SomeResumesIdle(Apply(s, acts[0]), acts[1..]))
  }

  /** A run locks the worker out of its own mutex exactly when somewhere in it the worker goes on from its
      wait with nothing queued and `status` 0. */
  lemma {:induction false} WedgesWhen(s: State, acts: seq<Action>, t: State)
    requires Inv(s) && !Wedged(s) && Runs(s, acts, t)
    ensures Wedged(t) <==> SomeResumesIdle(s, acts)
    decreases |acts|
  {
    if acts == [] {
    } else {
      var next := Apply(s, acts[0]);
      StepInv(s, acts[0]);
      StepWedges(s, acts[0]);
      hide Apply, Inv, Wedged, ResumesIdle, Enabled;
      if Wedged(next) {
        WedgedForever(next, acts[1..], t);
      } else {
        WedgesWhen(next, acts[1..], t);
      }
    }
  }

  lemma {:induction false} Extend(s: State, acts: seq<Action>, t: State, a: Action)
    returns (more: seq<Action>, u: State)
    requires Runs(s, acts, t) && Enabled(t, a)
    ensures more == acts + [a] && u == Apply(t, a) && Runs(s, more, u)
    decreases |acts|
  {
    more, u := acts + [a], Apply(t, a);
    if acts == [] {
      assert more[1..] == [];
      assert Runs(u, [], u);
    } else {
      assert more[1..] == acts[1..] + [a];
      hide Enabled, Apply;
      var _, _ := Extend(Apply(s, acts[0]), acts[1..], t, a);
    }
  }

  /** No spurious wake-up is needed: a task that is taken before its adder signals leaves a signal over, and
      it wakes the worker from its next wait with nothing queued. */
  lemma LateSignalWedges(s: State, task: nat) returns (acts: seq<Action>, t: State)
    requires Init(s) && s.adders != []
    ensures Runs(s, acts, t) && Spurious !in acts && Wedged(t) && t.added == [task] && t.ran == [task]
  {
    hide Runs;
    acts, t := AddedNotSignalled(s, task);
    acts, t := Extend(s, acts, t, Work);
    acts, t := Extend(s, acts, t, Work);
    acts, t := Extend(s, acts, t, Work);
    acts, t := Extend(s, acts, t, Work);
    assert t.worker == Unlock(task) && t.queue == [];
    acts, t := Extend(s, acts, t, Work);
    acts, t := Extend(s, acts, t, Work);
    acts, t := Extend(s, acts, t, Work);
    acts, t := Extend(s, acts, t, Work);
    assert t.worker == Blocked && t.adders[0] == SignalAdd;
    acts, t := Extend(s, acts, t, Add(0, task));
    acts, t := Extend(s, acts, t, Work);
    acts, t := Extend(s, acts, t, Work);
  }

  /** An adder has queued a task and released the mutex, but has not signalled yet. */
  lemma AddedNotSignalled(s: State, task: nat) returns (acts: seq<Action>, t: State)
    requires Init(s) && s.adders != []
    ensures Runs(s, acts, t) && Spurious !in acts && t.adders != [] && t.adders[0] == SignalAdd
    ensures t.queue == [task] && t.added == [task] && t.ran == [] && t.status == 0 && t.owner == Free
    ensures t.worker == Lock && t.destroyer == NotCalled
  {
    acts, t := [], s;
    assert Runs(s, acts, t);
    hide Runs;
    acts, t := Extend(s, acts, t, Add(0, task));
    acts, t := Extend(s, acts, t, Add(0, task));
    acts, t := Extend(s, acts, t, Add(0, task));
  }

  /** With nobody to add, the worker is signalled only after the queue was cleared. */
  predicate QuietInv(s: State) {
    && s.adders == [] && s.queue == [] && !Wedged(s)
    && !s.worker.Take? && !s.worker.Unlock? && !s.worker.Run?
    && (s.worker.Woken? || s.worker.TestEnd? ==> Cleared(s.destroyer))
  }

  lemma QuietStep(s: State, a: Action)
    requires Inv(s) && QuietInv(s) && Enabled(s, a) && a != Spurious
    ensures QuietInv(Apply(s, a))
  {
    hide QueueInv;
  }

  lemma {:induction false} QuietRun(s: State, acts: seq<Action>, t: State)
    requires Inv(s) && QuietInv(s) && Runs(s, acts, t) && Spurious !in acts
    ensures !Wedged(t)
    decreases |acts|
  {
    if acts == [] {
    } else {
      StepInv(s, acts[0]);
      QuietStep(s, acts[0]);
      hide Inv, QuietInv, Apply;
      QuietRun(Apply(s, acts[0]), acts[1..], t);
    }
  }

  /** Without spurious wake-ups, some run of the pool locks the worker out exactly when somebody can add. */
  lemma WedgesIff(s: State)
    requires Init(s)
    ensures (exists acts, t :: Runs(s, acts, t) && Spurious !in acts && Wedged(t)) <==> s.adders != []
  {
    if s.adders != [] {
      var acts, t := LateSignalWedges(s, 0);
      assert Runs(s, acts, t) && Spurious !in acts && Wedged(t);
    } else {
      InitInv(s);
      forall acts, t | Runs(s, acts, t) && Spurious !in acts ensures !Wedged(t) {
        QuietRun(s, acts, t);
      }
    }
  }

  /** With one spurious wake-up it happens in every pool, before any task is added. */
  lemma SpuriousWedges(s: State) returns (acts: seq<Action>, t: State)
    requires Init(s)
    ensures Runs(s, acts, t) && Wedged(t) && t.added == []
  {
    acts, t := [], s;
    assert Runs(s, acts, t);
    hide Runs;
    acts, t := Extend(s, acts, t, Work);
    acts, t := Extend(s, acts, t, Work);
    acts, t := Extend(s, acts, t, Spurious);
    acts, t := Extend(s, acts, t, Work);
    acts, t := Extend(s, acts, t, Work);
  }
}

/** Lock-free claiming with a reaper: `thread_func` and `process_task` of `xxx/main-bak.c`.

    Tasks hang on a singly linked list; node 0 is the list head and `|tasks|` stands for NULL. Workers walk
    the list and claim a task with an atomic increment; the main loop walks the same list, marks tasks
    with a result and unlinks marked ones, without any lock. Links are written by the main loop only. A
    node that was unlinked keeps its fields and is never reused. */
module LockFreeClaim {
  /** `result` is whether the result pointer is not NULL; the last fields record what has happened. */
  datatype Task = Task(
    next: nat, count: nat, result: bool, finish: bool,
    started: nat, executed: nat, posted: bool, destroyed: nat)

  /** The statement a worker executes next, with its cursor. */
  datatype Worker = Start | AtLoop(p: nat) | Running(p: nat) | Writing(p: nat) | Advance(p: nat) | Exited

  datatype Reaper = Waiting | Walking(prev: nat, p: nat)

  /** `counter` is the eventfd; `posts`, `walks` and `drained` record its history. */
  datatype State = State(
    tasks: seq<Task>, workers: seq<Worker>, reaper: Reaper,
    counter: nat, posts: nat, walks: nat, drained: nat)

  /** `nonNull` is whether `func`, when it returns in this step, returns something other than NULL. */
  datatype Action = Work(w: nat, nonNull: bool) | Read | Visit

  // ---------------------------------------------------------------- steps

  predicate Enabled(s: State, a: Action) {
    match a
    case Work(w, _) =>
      && w < |s.workers|
      && (match s.workers[w]
          case Start => s.tasks != []
          case AtLoop(p) => p <= |s.tasks|
          case Exited => false
          case other => other.p < |s.tasks|)
    case Read => s.reaper.Waiting? && s.counter > 0 && s.tasks != []
    case Visit => s.reaper.Walking? && s.reaper.prev < |s.tasks| && s.reaper.p <= |s.tasks|
  }

  function SetTask(s: State, p: nat, t: Task, w: nat, pc: Worker): State
    requires p < |s.tasks| && w < |s.workers|
  {
    s.(tasks := s.tasks[p := t], workers := s.workers[w := pc])
  }

  /** One statement of `thread_func`. */
  function StepWorker(s: State, w: nat, nonNull: bool): State
    requires Enabled(s, Work(w, nonNull))
  {
    match s.workers[w]
    case Start => s.(workers := s.workers[w := AtLoop(s.tasks[0].next)])
    case AtLoop(p) =>
      if p == |s.tasks| then s.(workers := s.workers[w := Exited])
      else
        var t := s.tasks[p];
        if t.count == 0 then SetTask(s, p, t.(count := 1, started := t.started + 1), w, Running(p))
        else SetTask(s, p, t.(count := t.count + 1), w, Advance(p))
    case Running(p) =>
      SetTask(s, p, s.tasks[p].(result := nonNull, executed := s.tasks[p].executed + 1), w, Writing(p))
    case Writing(p) =>
      SetTask(s, p, s.tasks[p].(posted := true), w, Advance(p)).(counter := s.counter + 1, posts := s.posts + 1)
    case Advance(p) => s.(workers := s.workers[w := AtLoop(s.tasks[p].next)])
  }

  /** The test in the walk of `process_task`. */
  predicate Unlinks(ts: seq<Task>, prev: nat, p: nat)
    requires prev < |ts| && p < |ts|
  {
    ts[p].finish && (ts[prev].finish || prev == 0)
  }

  function Cut(ts: seq<Task>, prev: nat, p: nat): seq<Task>
    requires prev < |ts| && p < |ts|
  {
    var cut := ts[prev := ts[prev].(next := ts[p].next)];
    cut[p := cut[p].(destroyed := cut[p].destroyed + 1)]
  }

  function Mark(ts: seq<Task>, p: nat): seq<Task>
    requires p < |ts|
  {
    ts[p := ts[p].(finish := ts[p].finish || ts[p].result)]
  }

  /** One round of the loop in `process_task`. */
  function StepVisit(s: State): State
    requires Enabled(s, Visit)
  {
    var prev, p := s.reaper.prev, s.reaper.p;
    if p == |s.tasks| then s.(reaper := Waiting)
    else if Unlinks(s.tasks, prev, p) then
      s.(tasks := Cut(s.tasks, prev, p), reaper := Walking(prev, s.tasks[p].next))
    else s.(tasks := Mark(s.tasks, p), reaper := Walking(p, s.tasks[p].next))
  }

  function Apply(s: State, a: Action): State
    requires Enabled(s, a)
  {
    match a
    case Work(w, nonNull) => StepWorker(s, w, nonNull)
    case Read => s.(counter := 0, drained := s.drained + s.counter, walks := s.walks + 1,
                    reaper := Walking(0, s.tasks[0].next))
    case Visit => StepVisit(s)
  }

  predicate Runs(s: State, acts: seq<Action>, t: State)
    decreases |acts|
  {
    if acts == [] then t == s
    else Enabled(s, acts[0]) && Runs(Apply(s, acts[0]), acts[1..], t)
  }

  /** The list as `main` builds it. `task_alloc` does not set `result`, so it is arbitrary here. */
  predicate Init(s: State) {
    && s.tasks != []
    && (forall k :: 0 <= k < |s.tasks| ==>
          s.tasks[k] == Task(k + 1, 0, s.tasks[k].result, false, 0, 0, false, 0))
    && (forall w :: 0 <= w < |s.workers| ==> s.workers[w] == Start)
    && s.reaper == Waiting && s.counter == 0 && s.posts == 0 && s.walks == 0 && s.drained == 0
  }

  /** Which tasks had a result before anyone ran them. */
  function Dirty(s: State): (r: seq<bool>)
    ensures |r| == |s.tasks|
    ensures forall k :: 0 <= k < |r| ==> r[k] == s.tasks[k].result
  {
    seq(|s.tasks|, k requires 0 <= k < |s.tasks| => s.tasks[k].result)
  }

  // ---------------------------------------------------------------- invariants

  /** Links go forwards and skip destroyed nodes only; a live node links to a live one. */
  predicate ChainInv(ts: seq<Task>) {
    && ts != [] && ts[0].destroyed == 0 && !ts[0].finish
    && (forall i :: 0 <= i < |ts| ==> i < ts[i].next <= |ts|)
    && (forall i, k :: 0 <= i < k < |ts| && k < ts[i].next ==> ts[k].destroyed > 0)
    && (forall i :: 0 <= i < |ts| && ts[i].destroyed == 0 && ts[i].next < |ts| ==> ts[ts[i].next].destroyed == 0)
    && (forall k :: 0 <= k < |ts| ==> ts[k].destroyed <= 1 && (ts[k].destroyed > 0 ==> ts[k].finish))
  }

  predicate ReaperInv(s: State) {
    s.reaper.Walking? ==>
      && s.reaper.prev < |s.tasks| && s.tasks[s.reaper.prev].next == s.reaper.p
      && s.tasks[s.reaper.prev].destroyed == 0
  }

  /** What one task's fields say of each other; `dirty` is whether its result was set from the start. */
  predicate TaskOk(t: Task, dirty: bool) {
    && t.started == (if t.count > 0 then 1 else 0)
    && t.executed <= t.started
    && (t.posted ==> t.executed == 1)
    && (!dirty ==> (t.result ==> t.executed == 1) && (t.finish ==> t.result))
  }

  predicate TasksInv(ts: seq<Task>, dirty: seq<bool>) {
    |dirty| == |ts| && forall k :: 0 <= k < |ts| ==> TaskOk(ts[k], dirty[k])
  }

  predicate Placed(ts: seq<Task>, pc: Worker) {
    match pc
    case Start => true
    case Exited => true
    case AtLoop(p) => 1 <= p <= |ts|
    case Running(p) => 1 <= p < |ts| && ts[p].started == 1 && ts[p].executed == 0
    case Writing(p) => 1 <= p < |ts| && ts[p].executed == 1 && !ts[p].posted
    case Advance(p) => 1 <= p < |ts| && ts[p].count > 0
  }

  predicate WorkersInv(s: State) {
    && (forall w :: 0 <= w < |s.workers| ==> Placed(s.tasks, s.workers[w]))
    && (forall v, w :: 0 <= v < w < |s.workers| && (s.workers[v].Running? || s.workers[v].Writing?) ==>
          s.workers[v] != s.workers[w])
  }

  /** A task that was claimed and not yet executed, or not yet posted, is in some worker's hands. */
  predicate HandsInv(s: State) {
    && (forall k :: 0 <= k < |s.tasks| && s.tasks[k].started > s.tasks[k].executed ==> Running(k) in s.workers)
    && (forall k :: 0 <= k < |s.tasks| && s.tasks[k].executed > 0 && !s.tasks[k].posted ==> Writing(k) in s.workers)
  }

  /** A posted result is marked, or still ahead of the walk, or the eventfd is readable. */
  predicate EventInv(s: State) {
    && s.counter + s.drained == s.posts
    && s.walks <= s.drained
    && forall k :: 1 <= k < |s.tasks| && s.tasks[k].posted && s.tasks[k].result && !s.tasks[k].finish ==>
         s.counter > 0 || (s.reaper.Walking? && s.reaper.p <= k)
  }

  predicate BaseInv(s: State, dirty: seq<bool>) {
    ChainInv(s.tasks) && ReaperInv(s) && TasksInv(s.tasks, dirty) && WorkersInv(s) && HandsInv(s) && EventInv(s)
  }

  // ---------------------------------------------------------------- the worker's steps

  /** A worker leaves the links and the reaper's marks alone. */
  predicate SameLinks(a: seq<Task>, b: seq<Task>) {
    && |a| == |b|
    && forall k :: 0 <= k < |a| ==>
         b[k].next == a[k].next && b[k].finish == a[k].finish && b[k].destroyed == a[k].destroyed
  }

  lemma WorkerKeepsLinks(s: State, w: nat, nonNull: bool)
    requires Enabled(s, Work(w, nonNull))
    ensures var t := StepWorker(s, w, nonNull); SameLinks(s.tasks, t.tasks) && t.reaper == s.reaper
  {
  }

  lemma SameLinksChain(a: seq<Task>, b: seq<Task>)
    requires ChainInv(a) && SameLinks(a, b)
    ensures ChainInv(b)
  {
  }

  lemma WorkerTasks(s: State, dirty: seq<bool>, w: nat, nonNull: bool)
    requires BaseInv(s, dirty) && Enabled(s, Work(w, nonNull))
    ensures TasksInv(StepWorker(s, w, nonNull).tasks, dirty)
  {
    hide ChainInv, ReaperInv, HandsInv, EventInv;
  }

  lemma MoverPlaced(s: State, w: nat, nonNull: bool)
    requires ChainInv(s.tasks) && Enabled(s, Work(w, nonNull)) && Placed(s.tasks, s.workers[w])
    requires forall k :: 0 <= k < |s.tasks| ==> TaskOk(s.tasks[k], true)
    ensures var t := StepWorker(s, w, nonNull); Placed(t.tasks, t.workers[w])
  {
    if s.workers[w].Start? {
      NextLive(s.tasks, 0);
    } else if s.workers[w].Advance? {
      NextLive(s.tasks, s.workers[w].p);
    }
    hide ChainInv;
  }

  /** A worker's step takes no other worker out of its place. */
  lemma OtherPlaced(s: State, w: nat, nonNull: bool, v: nat)
    requires Enabled(s, Work(w, nonNull)) && Placed(s.tasks, s.workers[w])
    requires v < |s.workers| && Placed(s.tasks, s.workers[v])
    requires s.workers[w].Running? || s.workers[w].Writing? ==> s.workers[v] != s.workers[w]
    requires forall k :: 0 <= k < |s.tasks| ==> TaskOk(s.tasks[k], true)
    ensures var t := StepWorker(s, w, nonNull);
            && Placed(t.tasks, s.workers[v])
            && (t.workers[w].Running? || t.workers[w].Writing? ==> t.workers[w] != s.workers[v])
  {
  }

  lemma WorkerPlaces(s: State, dirty: seq<bool>, w: nat, nonNull: bool)
    requires BaseInv(s, dirty) && Enabled(s, Work(w, nonNull))
    ensures WorkersInv(StepWorker(s, w, nonNull))
  {
    var t := StepWorker(s, w, nonNull);
    assert forall k :: 0 <= k < |s.tasks| ==> TaskOk(s.tasks[k], dirty[k]);
    hide ReaperInv, HandsInv, EventInv, ChainInv, TasksInv;
    MoverPlaced(s, w, nonNull);
    forall v | 0 <= v < |s.workers| && v != w
      ensures Placed(t.tasks, s.workers[v])
      ensures t.workers[w].Running? || t.workers[w].Writing? ==> t.workers[w] != s.workers[v]
    {
      OtherPlaced(s, w, nonNull, v);
    }
    StepMoves(s, w, nonNull);
    hide Placed, TaskOk, StepWorker;
    WorkersMoved(s, t, w);
  }

  lemma StepMoves(s: State, w: nat, nonNull: bool)
    requires Enabled(s, Work(w, nonNull))
    ensures var t := StepWorker(s, w, nonNull); t.workers == s.workers[w := t.workers[w]]
  {
  }

  lemma WorkersMoved(s: State, t: State, w: nat)
    requires WorkersInv(s) && w < |s.workers| == |t.workers| && t.workers == s.workers[w := t.workers[w]]
    requires Placed(t.tasks, t.workers[w])
    requires forall v :: 0 <= v < |s.workers| && v != w ==> Placed(t.tasks, s.workers[v])
    requires t.workers[w].Running? || t.workers[w].Writing? ==>
               forall v :: 0 <= v < |s.workers| && v != w ==> t.workers[w] != s.workers[v]
    ensures WorkersInv(t)
  {
    hide Placed;
  }

  lemma StillThere(workers: seq<Worker>, w: nat, pc: Worker, x: Worker)
    requires w < |workers|
    ensures pc in workers[w := pc]
    ensures x in workers && x != workers[w] ==> x in workers[w := pc]
  {
    assert workers[w := pc][w] == pc;
    if x in workers && x != workers[w] {
      var v :| 0 <= v < |workers| && workers[v] == x;
      assert workers[w := pc][v] == x;
    }
  }

  lemma WorkerHands(s: State, dirty: seq<bool>, w: nat, nonNull: bool)
    requires TasksInv(s.tasks, dirty) && HandsInv(s) && Enabled(s, Work(w, nonNull))
    requires Placed(s.tasks, s.workers[w])
    ensures HandsInv(StepWorker(s, w, nonNull))
  {
    var t := StepWorker(s, w, nonNull);
    forall k | 0 <= k < |s.tasks|
      ensures t.tasks[k].started > t.tasks[k].executed ==> Running(k) in t.workers
      ensures t.tasks[k].executed > 0 && !t.tasks[k].posted ==> Writing(k) in t.workers
    {
      assert TaskOk(s.tasks[k], dirty[k]);
      StillThere(s.workers, w, t.workers[w], Running(k));
      StillThere(s.workers, w, t.workers[w], Writing(k));
    }
  }

  lemma WorkerEvents(s: State, dirty: seq<bool>, w: nat, nonNull: bool)
    requires BaseInv(s, dirty) && Enabled(s, Work(w, nonNull))
    ensures EventInv(StepWorker(s, w, nonNull))
  {
    hide ChainInv, ReaperInv, HandsInv;
  }

  lemma WorkerBase(s: State, dirty: seq<bool>, w: nat, nonNull: bool)
    requires BaseInv(s, dirty) && Enabled(s, Work(w, nonNull))
    ensures BaseInv(StepWorker(s, w, nonNull), dirty)
  {
    WorkerKeepsLinks(s, w, nonNull);
    SameLinksChain(s.tasks, StepWorker(s, w, nonNull).tasks);
    WorkerTasks(s, dirty, w, nonNull);
    WorkerPlaces(s, dirty, w, nonNull);
    WorkerHands(s, dirty, w, nonNull);
    WorkerEvents(s, dirty, w, nonNull);
    hide StepWorker, ChainInv, TasksInv, WorkersInv, HandsInv, EventInv;
  }

  // ---------------------------------------------------------------- the reaper's steps

  lemma NextLive(ts: seq<Task>, i: nat)
    requires ChainInv(ts) && i < |ts|
    ensures i < ts[i].next <= |ts|
    ensures ts[i].destroyed == 0 && ts[i].next < |ts| ==> ts[ts[i].next].destroyed == 0
  {
  }

  /** Between a live node and the node it links to, and between two live nodes that link, lie only destroyed ones. */
  lemma CutLinks(ts: seq<Task>, prev: nat, p: nat, i: nat)
    requires ChainInv(ts) && prev < p < |ts| && ts[prev].next == p && ts[prev].destroyed == 0 && i < |ts|
    ensures var r := Cut(ts, prev, p);
      && i < r[i].next <= |r|
      && (forall k :: i < k < r[i].next && k < |r| ==> r[k].destroyed > 0)
      && (r[i].destroyed == 0 && r[i].next < |r| ==> r[r[i].next].destroyed == 0)
  {
    NextLive(ts, i);
    NextLive(ts, p);
  }

  lemma CutMarks(ts: seq<Task>, prev: nat, p: nat)
    requires ChainInv(ts) && prev < p < |ts| && ts[prev].next == p && ts[prev].destroyed == 0 && ts[p].finish
    ensures var r := Cut(ts, prev, p);
      && |r| == |ts| && r[0].destroyed == 0 && !r[0].finish
      && forall k :: 0 <= k < |r| ==> r[k].destroyed <= 1 && (r[k].destroyed > 0 ==> r[k].finish)
  {
    NextLive(ts, prev);
  }

  lemma CutChain(ts: seq<Task>, prev: nat, p: nat)
    requires ChainInv(ts) && prev < p < |ts| && ts[prev].next == p && ts[prev].destroyed == 0 && ts[p].finish
    ensures ChainInv(Cut(ts, prev, p))
  {
    var r := Cut(ts, prev, p);
    CutMarks(ts, prev, p);
    hide Cut;
    forall i | 0 <= i < |r|
      ensures i < r[i].next <= |r|
      ensures forall k :: i < k < r[i].next && k < |r| ==> r[k].destroyed > 0
      ensures r[i].destroyed == 0 && r[i].next < |r| ==> r[r[i].next].destroyed == 0
    {
      CutLinks(ts, prev, p, i);
    }
  }

  lemma MarkChain(ts: seq<Task>, p: nat)
    requires ChainInv(ts) && 0 < p < |ts|
    ensures ChainInv(Mark(ts, p))
  {
  }

  lemma VisitChain(s: State)
    requires ChainInv(s.tasks) && ReaperInv(s) && Enabled(s, Visit)
    ensures ChainInv(StepVisit(s).tasks) && ReaperInv(StepVisit(s))
  {
    hide ChainInv;
    var prev, p := s.reaper.prev, s.reaper.p;
    NextLive(s.tasks, prev);
    if p < |s.tasks| {
      NextLive(s.tasks, p);
      if Unlinks(s.tasks, prev, p) {
        CutChain(s.tasks, prev, p);
      } else {
        MarkChain(s.tasks, p);
      }
    }
  }

  /** The reaper leaves claims, results and posts alone, and marks only what has a result. */
  predicate SameWork(a: seq<Task>, b: seq<Task>) {
    && |a| == |b|
    && forall k :: 0 <= k < |a| ==>
         && b[k].count == a[k].count && b[k].result == a[k].result && b[k].started == a[k].started
         && b[k].executed == a[k].executed && b[k].posted == a[k].posted
         && (b[k].finish <==> a[k].finish || (b[k].finish && a[k].result))
  }

  lemma VisitKeepsWork(s: State)
    requires Enabled(s, Visit)
    ensures SameWork(s.tasks, StepVisit(s).tasks) && StepVisit(s).workers == s.workers
  {
  }

  lemma SameWorkInv(s: State, t: State, dirty: seq<bool>)
    requires TasksInv(s.tasks, dirty) && WorkersInv(s) && HandsInv(s)
    requires SameWork(s.tasks, t.tasks) && s.workers == t.workers
    ensures TasksInv(t.tasks, dirty) && WorkersInv(t) && HandsInv(t)
  {
  }

  lemma VisitEvents(s: State, dirty: seq<bool>)
    requires BaseInv(s, dirty) && Enabled(s, Visit)
    ensures EventInv(StepVisit(s))
  {
    hide TasksInv, WorkersInv, HandsInv;
  }

  lemma StepBase(s: State, dirty: seq<bool>, a: Action)
    requires BaseInv(s, dirty) && Enabled(s, a)
    ensures BaseInv(Apply(s, a), dirty)
  {
    match a
    case Work(w, nonNull) => WorkerBase(s, dirty, w, nonNull); hide StepWorker;
    case Read =>
    case Visit =>
      VisitChain(s);
      VisitKeepsWork(s);
      SameWorkInv(s, StepVisit(s), dirty);
      VisitEvents(s, dirty);
      hide StepVisit, ChainInv, TasksInv, WorkersInv, HandsInv, EventInv, ReaperInv;
  }

  lemma InitBase(s: State)
    requires Init(s)
    ensures BaseInv(s, Dirty(s))
  {
  }

  lemma {:induction false} RunBase(s: State, dirty: seq<bool>, acts: seq<Action>, t: State)
    requires BaseInv(s, dirty) && Runs(s, acts, t)
    ensures BaseInv(t, dirty)
    decreases |acts|
  {
    hide BaseInv, Apply;
    if acts == [] {
    } else {
      StepBase(s, dirty, acts[0]);
      RunBase(Apply(s, acts[0]), dirty, acts[1..], t);
    }
  }

  /** No task is started twice or unlinked twice, and its function ends before it is unlinked, provided its
      result was NULL when it was queued. Nothing is asked of the other tasks. */
  lemma AtMostOnce(s: State, acts: seq<Action>, t: State, k: nat)
    requires Init(s) && Runs(s, acts, t) && k < |t.tasks|
    ensures |t.tasks| == |s.tasks|
    ensures t.tasks[k].executed <= t.tasks[k].started <= 1 && t.tasks[k].destroyed <= 1
    ensures t.tasks[k].started == 1 <==> t.tasks[k].count > 0
    ensures !s.tasks[k].result && t.tasks[k].destroyed > 0 ==>
              t.tasks[k].executed == 1 && t.tasks[k].finish && t.tasks[k].result
  {
    InitBase(s);
    RunBase(s, Dirty(s), acts, t);
    assert TaskOk(t.tasks[k], s.tasks[k].result);
    hide Init, Runs, WorkersInv, HandsInv, EventInv;
  }

  /** Two workers are never inside the function of the same task. */
  lemma NeverTogether(s: State, acts: seq<Action>, t: State, v: nat, w: nat)
    requires Init(s) && Runs(s, acts, t) && v < w < |t.workers| && t.workers[v].Running?
    ensures t.workers[w] != t.workers[v]
  {
    InitBase(s);
    RunBase(s, Dirty(s), acts, t);
  }

  /** The values read from the eventfd and its counter add up to the posts, and when the main loop waits
      on an eventfd at zero it has marked every task that was posted with a result. */
  lemma NoResultMissed(s: State, acts: seq<Action>, t: State, k: nat)
    requires Init(s) && Runs(s, acts, t) && 1 <= k < |t.tasks|
    ensures t.drained + t.counter == t.posts
    ensures t.reaper.Waiting? && t.counter == 0 && t.tasks[k].posted && t.tasks[k].result ==> t.tasks[k].finish
  {
    InitBase(s);
    RunBase(s, Dirty(s), acts, t);
  }

  // ---------------------------------------------------------------- every task is claimed

  /** All tasks a worker has walked past: below its cursor, or below and at it. */
  function Passed(pc: Worker, end: nat): nat {
    match pc
    case Start => 1
    case AtLoop(p) => p
    case Exited => end
    case other => other.p + 1
  }

  predicate ClaimedBelow(ts: seq<Task>, c: nat) {
    forall k :: 1 <= k < c && k < |ts| ==> ts[k].count > 0
  }

  predicate PassedInv(ts: seq<Task>, workers: seq<Worker>) {
    forall w :: 0 <= w < |workers| ==> ClaimedBelow(ts, Passed(workers[w], |ts|))
  }

  predicate Claimed(ts: seq<Task>, k: nat) {
    k < |ts| && ts[k].count > 0
  }

  /** What the first two walks can have done, and which claims their wake-ups imply. */
  predicate WalkInv(s: State) {
    && (s.posts >= 1 ==> Claimed(s.tasks, 1) && (s.tasks[1].posted || Claimed(s.tasks, 2)))
    && (s.posts >= 2 ==> Claimed(s.tasks, 2))
    && (s.walks == 0 ==> s.reaper.Waiting? && forall k :: 0 <= k < |s.tasks| ==> !s.tasks[k].finish)
    && (s.walks <= 1 ==> forall k :: 0 <= k < |s.tasks| ==> s.tasks[k].destroyed == 0)
    && (s.walks == 1 && s.reaper.Walking? ==> forall k :: s.reaper.p <= k < |s.tasks| ==> !s.tasks[k].finish)
  }

  /** The tasks from the third on were queued with a NULL result. */
  predicate CleanFromThird(dirty: seq<bool>) {
    forall k :: 3 <= k < |dirty| ==> !dirty[k]
  }

  predicate ClaimInv(s: State, dirty: seq<bool>) {
    BaseInv(s, dirty) && PassedInv(s.tasks, s.workers) && WalkInv(s)
  }

  lemma DestroyedClaimed(s: State, dirty: seq<bool>, k: nat)
    requires BaseInv(s, dirty) && WalkInv(s) && CleanFromThird(dirty)
    requires k < |s.tasks| && s.tasks[k].destroyed > 0
    ensures s.tasks[k].count > 0
  {
    hide WorkersInv, HandsInv, ReaperInv;
    assert TaskOk(s.tasks[k], dirty[k]);
  }

  lemma SkippedClaimed(s: State, dirty: seq<bool>, p: nat)
    requires ClaimInv(s, dirty) && CleanFromThird(dirty) && p < |s.tasks| && ClaimedBelow(s.tasks, p + 1)
    ensures ClaimedBelow(s.tasks, s.tasks[p].next)
  {
    forall k | 1 <= k < s.tasks[p].next && k < |s.tasks| ensures s.tasks[k].count > 0 {
      if k > p {
        DestroyedClaimed(s, dirty, k);
      }
    }
  }

  predicate CountsGrow(a: seq<Task>, b: seq<Task>) {
    |a| == |b| && forall k :: 0 <= k < |a| ==> a[k].count <= b[k].count && (a[k].posted ==> b[k].posted)
  }

  lemma WorkerCounts(s: State, w: nat, nonNull: bool)
    requires Enabled(s, Work(w, nonNull))
    ensures CountsGrow(s.tasks, StepWorker(s, w, nonNull).tasks)
  {
  }

  lemma GrowPassed(a: seq<Task>, b: seq<Task>, workers: seq<Worker>, w: nat, pc: Worker)
    requires CountsGrow(a, b) && PassedInv(a, workers) && w < |workers| && ClaimedBelow(b, Passed(pc, |b|))
    ensures PassedInv(b, workers[w := pc])
  {
  }

  lemma CursorPassed(s: State, w: nat, nonNull: bool)
    requires Enabled(s, Work(w, nonNull)) && ClaimedBelow(s.tasks, Passed(s.workers[w], |s.tasks|))
    requires s.workers[w].Start? ==> ClaimedBelow(s.tasks, s.tasks[0].next)
    requires s.workers[w].Advance? ==> ClaimedBelow(s.tasks, s.tasks[s.workers[w].p].next)
    ensures var t := StepWorker(s, w, nonNull); ClaimedBelow(t.tasks, Passed(t.workers[w], |t.tasks|))
  {
  }

  lemma WorkerPassed(s: State, dirty: seq<bool>, w: nat, nonNull: bool)
    requires ClaimInv(s, dirty) && CleanFromThird(dirty) && Enabled(s, Work(w, nonNull))
    ensures var t := StepWorker(s, w, nonNull); PassedInv(t.tasks, t.workers)
  {
    var t := StepWorker(s, w, nonNull);
    assert ClaimedBelow(s.tasks, Passed(s.workers[w], |s.tasks|));
    hide BaseInv, WalkInv, PassedInv, CleanFromThird, CountsGrow;
    if s.workers[w].Start? {
      SkippedClaimed(s, dirty, 0);
    } else if s.workers[w].Advance? {
      SkippedClaimed(s, dirty, s.workers[w].p);
    }
    hide ClaimedBelow;
    CursorPassed(s, w, nonNull);
    WorkerCounts(s, w, nonNull);
    GrowPassed(s.tasks, t.tasks, s.workers, w, t.workers[w]);
  }

  lemma WorkerWalk(s: State, dirty: seq<bool>, w: nat, nonNull: bool)
    requires ClaimInv(s, dirty) && Enabled(s, Work(w, nonNull))
    ensures WalkInv(StepWorker(s, w, nonNull))
  {
    hide HandsInv, ReaperInv, EventInv, ChainInv, TasksInv;
    assert Placed(s.tasks, s.workers[w]);
    assert ClaimedBelow(s.tasks, Passed(s.workers[w], |s.tasks|));
    WorkerKeepsLinks(s, w, nonNull);
    WorkerCounts(s, w, nonNull);
  }

  lemma VisitWalk(s: State, dirty: seq<bool>)
    requires ClaimInv(s, dirty) && Enabled(s, Visit)
    ensures WalkInv(StepVisit(s)) && PassedInv(StepVisit(s).tasks, s.workers)
  {
    hide HandsInv, WorkersInv, EventInv, TasksInv;
    VisitKeepsWork(s);
    NextLive(s.tasks, s.reaper.prev);
    if s.reaper.p < |s.tasks| {
      NextLive(s.tasks, s.reaper.p);
    }
    hide ChainInv;
  }

  lemma ReadWalk(s: State, dirty: seq<bool>)
    requires ClaimInv(s, dirty) && Enabled(s, Read)
    ensures WalkInv(Apply(s, Read))
  {
    hide HandsInv, WorkersInv, TasksInv;
  }

  lemma StepClaim(s: State, dirty: seq<bool>, a: Action)
    requires ClaimInv(s, dirty) && CleanFromThird(dirty) && Enabled(s, a)
    ensures ClaimInv(Apply(s, a), dirty)
  {
    StepBase(s, dirty, a);
    hide BaseInv;
    match a
    case Work(w, nonNull) =>
      WorkerPassed(s, dirty, w, nonNull);
      WorkerWalk(s, dirty, w, nonNull);
      hide StepWorker, PassedInv, WalkInv;
    case Read => ReadWalk(s, dirty);
    case Visit =>
      VisitKeepsWork(s);
      VisitWalk(s, dirty);
      hide StepVisit, PassedInv, WalkInv;
  }

  lemma {:induction false} RunClaim(s: State, dirty: seq<bool>, acts: seq<Action>, t: State)
    requires ClaimInv(s, dirty) && CleanFromThird(dirty) && Runs(s, acts, t)
    ensures ClaimInv(t, dirty)
    decreases |acts|
  {
    hide ClaimInv, CleanFromThird, Apply;
    if acts == [] {
    } else {
      StepClaim(s, dirty, acts[0]);
      RunClaim(Apply(s, acts[0]), dirty, acts[1..], t);
    }
  }

  lemma InitClaim(s: State)
    requires Init(s)
    ensures ClaimInv(s, Dirty(s))
  {
    InitBase(s);
    hide BaseInv, Dirty;
  }

  /** Once any worker has reached the end of the list every task has been claimed. */
  lemma ExitedClaimsAll(s: State, acts: seq<Action>, t: State, w: nat, k: nat)
    requires Init(s) && CleanFromThird(Dirty(s)) && Runs(s, acts, t)
    requires w < |t.workers| && t.workers[w] == Exited && 1 <= k < |t.tasks|
    ensures t.tasks[k].count > 0
  {
    InitClaim(s);
    RunClaim(s, Dirty(s), acts, t);
    hide BaseInv, WalkInv, Runs, Init;
    assert ClaimedBelow(t.tasks, Passed(t.workers[w], |t.tasks|));
  }

  /** When all workers have exited, every task was started once, finished its function once, and posted. */
  lemma AllExitedAllDone(s: State, acts: seq<Action>, t: State, k: nat)
    requires Init(s) && CleanFromThird(Dirty(s)) && Runs(s, acts, t) && t.workers != []
    requires (forall w :: 0 <= w < |t.workers| ==> t.workers[w] == Exited) && 1 <= k < |t.tasks|
    ensures t.tasks[k].started == 1 && t.tasks[k].executed == 1 && t.tasks[k].posted
  {
    ExitedClaimsAll(s, acts, t, 0, k);
    InitBase(s);
    RunBase(s, Dirty(s), acts, t);
    hide Init, Runs, EventInv, ChainInv, ReaperInv, WorkersInv;
    assert TaskOk(t.tasks[k], Dirty(s)[k]);
    assert Running(k) !in t.workers && Writing(k) !in t.workers;
  }

  /** Following the links from node `from` leads to node `to`. */
  predicate Reaches(ts: seq<Task>, from: nat, to: nat)
    decreases |ts| - from
  {
    from == to || (from < |ts| && from < ts[from].next && Reaches(ts, ts[from].next, to))
  }

  lemma {:induction false} LiveReached(ts: seq<Task>, from: nat, to: nat)
    requires ChainInv(ts) && from <= to < |ts| && ts[to].destroyed == 0
    ensures Reaches(ts, from, to)
    decreases |ts| - from
  {
    if from < to {
      NextLive(ts, from);
      assert ts[from].next <= to;
      LiveReached(ts, ts[from].next, to);
    }
  }

  /** Every unclaimed task is still ahead of every worker that has not exited. */
  lemma UnclaimedAhead(s: State, acts: seq<Action>, t: State, w: nat, k: nat)
    requires Init(s) && CleanFromThird(Dirty(s)) && Runs(s, acts, t)
    requires w < |t.workers| && 1 <= k < |t.tasks| && t.tasks[k].count == 0
    ensures t.workers[w] != Exited
    ensures Reaches(t.tasks, if t.workers[w].Start? then 0 else t.workers[w].p, k)
  {
    InitClaim(s);
    RunClaim(s, Dirty(s), acts, t);
    hide Runs, Init, Reaches;
    assert ClaimedBelow(t.tasks, Passed(t.workers[w], |t.tasks|));
    if t.tasks[k].destroyed > 0 {
      DestroyedClaimed(t, Dirty(s), k);
    }
    LiveReached(t.tasks, if t.workers[w].Start? then 0 else t.workers[w].p, k);
  }

  /** The node whose link a worker is about to follow. */
  function LinkFrom(pc: Worker): nat
    requires pc.Start? || pc.Advance?
  {
    if pc.Start? then 0 else pc.p
  }

  /** A worker goes from the head, or from the task it stood on, to the nearest node behind it that was not unlinked
      or, from a task unlinked under it, over unlinked nodes only. */
  lemma CursorFollowsList(s: State, acts: seq<Action>, t: State, w: nat, nonNull: bool)
    requires Init(s) && Runs(s, acts, t) && w < |t.workers| && (t.workers[w].Start? || t.workers[w].Advance?)
    ensures Enabled(t, Work(w, nonNull)) && StepWorker(t, w, nonNull).workers[w].AtLoop?
    ensures var from := LinkFrom(t.workers[w]);
      var next := StepWorker(t, w, nonNull).workers[w].p;
      && from < |t.tasks| && from < next <= |t.tasks|
      && (forall k :: from < k < next ==> t.tasks[k].destroyed > 0)
      && (t.tasks[from].destroyed == 0 && next < |t.tasks| ==> t.tasks[next].destroyed == 0)
  {
    InitBase(s);
    RunBase(s, Dirty(s), acts, t);
    hide Init, Runs, TasksInv, HandsInv, EventInv, ReaperInv;
    assert Placed(t.tasks, t.workers[w]);
    NextLive(t.tasks, LinkFrom(t.workers[w]));
    hide WorkersInv;
  }

  // ---------------------------------------------------------------- no worker can be held up

  /** How many statements a worker still has before it, at most. */
  function Left(pc: Worker, end: nat): int {
    match pc
    case Start => 4 * end + 2
    case AtLoop(p) => 4 * (end - p) + 1
    case Running(p) => 4 * (end - p)
    case Writing(p) => 4 * (end - p) - 1
    case Advance(p) => 4 * (end - p) - 2
    case Exited => 0
  }

  /** A worker that has not exited always has a next step, and each step brings it closer to its end. */
  lemma WorkerMoves(s: State, dirty: seq<bool>, w: nat, nonNull: bool)
    requires BaseInv(s, dirty) && w < |s.workers| && s.workers[w] != Exited
    ensures Enabled(s, Work(w, nonNull))
    ensures 0 <= Left(StepWorker(s, w, nonNull).workers[w], |s.tasks|) < Left(s.workers[w], |s.tasks|)
    ensures |StepWorker(s, w, nonNull).tasks| == |s.tasks|
  {
    hide TasksInv, HandsInv, EventInv, ReaperInv;
    assert Placed(s.tasks, s.workers[w]);
    NextLive(s.tasks, 0);
    if s.workers[w].Advance? {
      NextLive(s.tasks, s.workers[w].p);
    }
    hide ChainInv, WorkersInv;
  }

  /** How many of the actions are taken by worker `w`. */
  function StepsOf(acts: seq<Action>, w: nat): nat {
    if acts == [] then 0
    else (if acts[0].Work? && acts[0].w == w then 1 else 0) + StepsOf(acts[1..], w)
  }

  lemma OtherStep(s: State, a: Action, w: nat)
    requires Enabled(s, a) && w < |s.workers| && !(a.Work? && a.w == w)
    ensures var t := Apply(s, a); |t.workers| == |s.workers| && t.workers[w] == s.workers[w] && |t.tasks| == |s.tasks|
  {
  }

  lemma {:induction false} WaitFreeFrom(s: State, dirty: seq<bool>, acts: seq<Action>, t: State, w: nat)
    requires BaseInv(s, dirty) && Runs(s, acts, t) && w < |s.workers|
    ensures |t.workers| == |s.workers| && |t.tasks| == |s.tasks|
    ensures StepsOf(acts, w) + Left(t.workers[w], |t.tasks|) <= Left(s.workers[w], |s.tasks|)
    decreases |acts|
  {
    if acts == [] {
    } else {
      var a := acts[0];
      StepBase(s, dirty, a);
      hide BaseInv;
      if a.Work? && a.w == w {
        WorkerMoves(s, dirty, w, a.nonNull);
      } else {
        OtherStep(s, a, w);
      }
      hide StepWorker, Apply, Left;
      WaitFreeFrom(Apply(s, a), dirty, acts[1..], t, w);
    }
  }

  /** In every run a worker takes at most four statements a node, whatever the others do, and it is never
      stuck before its end. */
  lemma WaitFree(s: State, acts: seq<Action>, t: State, w: nat)
    requires Init(s) && Runs(s, acts, t) && w < |s.workers|
    ensures StepsOf(acts, w) <= 4 * |s.tasks| + 2
    ensures |t.workers| == |s.workers| && (t.workers[w] == Exited || Enabled(t, Work(w, true)))
  {
    InitBase(s);
    RunBase(s, Dirty(s), acts, t);
    hide BaseInv, Init, Enabled;
    WaitFreeFrom(s, Dirty(s), acts, t, w);
    LeftNonNegative(t, Dirty(s), w);
    if t.workers[w] != Exited {
      WorkerMoves(t, Dirty(s), w, true);
    }
    InitStart(s, w);
  }

  lemma InitStart(s: State, w: nat)
    requires Init(s) && w < |s.workers|
    ensures s.workers[w] == Start
  {
  }

  lemma LeftNonNegative(s: State, dirty: seq<bool>, w: nat)
    requires BaseInv(s, dirty) && w < |s.workers|
    ensures Left(s.workers[w], |s.tasks|) >= 0
  {
    assert Placed(s.tasks, s.workers[w]);
    hide ChainInv, TasksInv, HandsInv, EventInv, ReaperInv;
  }
}

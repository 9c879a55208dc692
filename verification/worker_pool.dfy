/** The worker pool as a state machine.

    One step is one statement of `ev_work` (or of `etp_work`, its closed-run variant), of
    `EV_REQ_ADD`, or of the main loop that reads the eventfd and drains the done list. Any number of
    workers and submitters interleave freely; a mutex is taken only when it is free, a condition wait
    releases the mutex and blocks in one step, and a blocked worker may wake up spuriously. */
module WorkerPool {
  import opened Sequences
  import opened Wrappers

  type Req = nat

  /** `EvLoop` is `ev_work`, which waits on the condition when nothing is pending; `ClosedRun` is
      `etp_work`, which then returns, and whose requests are all queued before the workers start. */
  datatype Variant = EvLoop | ClosedRun

  /** The statement a worker executes next. */
  datatype Pc =
    | Lock0 | Test | Wait | Blocked | Woken | Resume | Take
    | Chain(req: Req) | Unlock0(req: Req) | Work(req: Req)
    | Lock1(req: Req) | Append(req: Req) | Write | Unlock1 | Exited

  /** The statement of `EV_REQ_ADD` a submitter executes next. */
  datatype SubPc = Outside | Link | Signal | Release

  /** The statement the main loop executes next. */
  datatype MainPc = Epoll | Read | LockDone | Drain

  datatype Owner = Free | ByWorker(i: nat) | BySubmitter(j: nat) | ByMain

  /** The shared loop, every thread's position, and what has happened so far. */
  datatype State = State(
    variant: Variant,
    pending: seq<Req>,         // list[0]
    done: seq<Req>,            // list[1]
    waitThreads: int,
    m0: Owner,
    m1: Owner,
    efd: nat,                  // the eventfd counter
    edge: bool,                // a write since epoll last reported the eventfd
    workers: seq<Pc>,
    submitters: seq<SubPc>,
    main: MainPc,
    submitted: seq<Req>,
    taken: seq<Req>,
    executed: seq<Req>,
    destroyed: seq<Req>,
    readTotal: nat)

  /** `wake` is the blocked worker a signal releases, when the step signals and one is blocked. */
  datatype Action =
    | Worker(i: nat, wake: Option<nat>)
    | Spurious(i: nat)
    | Submit(j: nat, req: Req, wake: Option<nat>)
    | Main

  // ---------------------------------------------------------------- steps

  ghost predicate SignalOk(s: State, fire: bool, wake: Option<nat>) {
    match wake
    case None => fire ==> forall k :: 0 <= k < |s.workers| ==> !s.workers[k].Blocked?
    case Some(k) => fire && k < |s.workers| && s.workers[k].Blocked?
  }

  function Signalled(workers: seq<Pc>, wake: Option<nat>): (r: seq<Pc>)
    ensures |r| == |workers|
  {
    if wake.Some? && wake.value < |workers| then workers[wake.value := Woken] else workers
  }

  predicate ChainFires(s: State) {
    s.pending != [] && s.waitThreads > 0
  }

  ghost predicate WorkerEnabled(s: State, i: nat, wake: Option<nat>) {
    && i < |s.workers|
    && match s.workers[i]
       case Lock0 => s.m0.Free?
       case Woken => s.m0.Free?
       case Lock1(_) => s.m1.Free?
       case Blocked => false
       case Exited => false
       case Take => s.pending != []
       case Chain(_) => SignalOk(s, ChainFires(s), wake)
       case _ => true
  }

  ghost predicate Enabled(s: State, a: Action) {
    match a
    case Worker(i, wake) => WorkerEnabled(s, i, wake)
    case Spurious(i) => i < |s.workers| && s.workers[i].Blocked?
    case Submit(j, r, wake) =>
      && j < |s.submitters|
      && (match s.submitters[j]
          case Outside => s.m0.Free?
          case Link => r !in s.submitted
          case Signal => SignalOk(s, s.waitThreads > 0, wake)
          case Release => true)
    case Main =>
      match s.main
      case Epoll => s.edge
      case LockDone => s.m1.Free?
      case _ => true
  }

  /** One statement of `ev_work` or `etp_work`. */
  function StepWorker(s: State, i: nat, wake: Option<nat>): State
    requires i < |s.workers|
  {
    match s.workers[i]
    case Lock0 => s.(workers := s.workers[i := Test], m0 := ByWorker(i))
    case Test =>
      if s.pending != [] then s.(workers := s.workers[i := Take])
      else if s.variant == ClosedRun then s.(workers := s.workers[i := Exited], m0 := Free)
      else s.(workers := s.workers[i := Wait], waitThreads := s.waitThreads + 1)
    case Wait => s.(workers := s.workers[i := Blocked], m0 := Free)
    case Woken => s.(workers := s.workers[i := Resume], m0 := ByWorker(i))
    case Resume => s.(workers := s.workers[i := Test], waitThreads := s.waitThreads - 1)
    case Take =>
      if s.pending == [] then s
      else s.(workers := s.workers[i := Chain(s.pending[0])], pending := s.pending[1..],
              taken := s.taken + [s.pending[0]])
    case Chain(r) => s.(workers := Signalled(s.workers[i := Unlock0(r)], wake))
    case Unlock0(r) => s.(workers := s.workers[i := Work(r)], m0 := Free)
    case Work(r) => s.(workers := s.workers[i := Lock1(r)], executed := s.executed + [r])
    case Lock1(r) => s.(workers := s.workers[i := Append(r)], m1 := ByWorker(i))
    case Append(r) => s.(workers := s.workers[i := Write], done := s.done + [r])
    case Write => s.(workers := s.workers[i := Unlock1], efd := s.efd + 1, edge := true)
    case Unlock1 => s.(workers := s.workers[i := Lock0], m1 := Free)
    case Blocked => s
    case Exited => s
  }

  /** One statement of `EV_REQ_ADD`; `r` is the request being added. */
  function StepSubmit(s: State, j: nat, r: Req, wake: Option<nat>): State
    requires j < |s.submitters|
  {
    match s.submitters[j]
    case Outside => s.(submitters := s.submitters[j := Link], m0 := BySubmitter(j))
    case Link => s.(submitters := s.submitters[j := Signal], pending := s.pending + [r],
                    submitted := s.submitted + [r])
    case Signal => s.(submitters := s.submitters[j := Release], workers := Signalled(s.workers, wake))
    case Release => s.(submitters := s.submitters[j := Outside], m0 := Free)
  }

  /** One statement of the main loop. An edge with the counter at zero is dropped by epoll. */
  function StepMain(s: State): State {
    match s.main
    case Epoll => s.(edge := false, main := if s.efd > 0 then Read else Epoll)
    case Read => s.(main := LockDone, readTotal := s.readTotal + s.efd, efd := 0)
    case LockDone => s.(main := Drain, m1 := ByMain)
    case Drain =>
      if s.done == [] then s.(main := Epoll, m1 := Free)
      else s.(done := s.done[1..], destroyed := s.destroyed + [s.done[0]])
  }

  ghost function Apply(s: State, a: Action): State
    requires Enabled(s, a)
  {
    match a
    case Worker(i, wake) => StepWorker(s, i, wake)
    case Spurious(i) => s.(workers := s.workers[i := Woken])
    case Submit(j, r, wake) => StepSubmit(s, j, r, wake)
    case Main => StepMain(s)
  }

  /** `t` is reached from `s` by the actions `acts`, each enabled when it is taken. */
  ghost predicate Runs(s: State, acts: seq<Action>, t: State)
    decreases |acts|
  {
    if acts == [] then t == s
    else Enabled(s, acts[0]) && Runs(Apply(s, acts[0]), acts[1..], t)
  }

  /** `ev_loop_init` with no request yet, or the closed run's `main` with all of its requests queued. */
  ghost predicate Init(s: State) {
    && s.done == [] && s.waitThreads == 0 && s.m0.Free? && s.m1.Free?
    && s.efd == 0 && !s.edge && s.main.Epoll?
    && s.taken == [] && s.executed == [] && s.destroyed == [] && s.readTotal == 0
    && s.submitted == s.pending && Distinct(s.submitted)
    && (forall i :: 0 <= i < |s.workers| ==> s.workers[i].Lock0?)
    && (forall j :: 0 <= j < |s.submitters| ==> s.submitters[j].Outside?)
    && (s.variant.EvLoop? ==> s.pending == [])
    && (s.variant.ClosedRun? ==> s.submitters == [])
  }

  // ---------------------------------------------------------------- sums over the workers

  /** How often `r` occurs in `q`. */
  function Occ(q: seq<Req>, r: Req): nat {
    if q == [] then 0 else Occ(q[..|q| - 1], r) + (if q[|q| - 1] == r then 1 else 0)
  }

  lemma OccPush(q: seq<Req>, x: Req, r: Req)
    ensures Occ(q + [x], r) == Occ(q, r) + (if x == r then 1 else 0)
  {
    assert (q + [x])[..|q|] == q;
  }

  lemma {:induction false} OccConcat(p: seq<Req>, q: seq<Req>, r: Req)
    ensures Occ(p + q, r) == Occ(p, r) + Occ(q, r)
    decreases |q|
  {
    if q == [] {
      assert p + q == p;
    } else {
      assert (p + q)[..|p + q| - 1] == p + q[..|q| - 1];
      OccConcat(p, q[..|q| - 1], r);
    }
  }

  lemma {:induction false} OccDistinct(q: seq<Req>, r: Req)
    requires Distinct(q)
    ensures Occ(q, r) == if r in q then 1 else 0
  {
    if q == [] {
    } else {
      OccDistinct(q[..|q| - 1], r);
    }
  }

  function Sum(w: seq<Pc>, f: Pc -> int): int {
    if w == [] then 0 else f(w[0]) + Sum(w[1..], f)
  }

  lemma {:induction false} SumUpdate(w: seq<Pc>, i: nat, pc: Pc, f: Pc -> int)
    requires i < |w|
    ensures Sum(w[i := pc], f) == Sum(w, f) - f(w[i]) + f(pc)
  {
    if i == 0 {
      assert w[i := pc][1..] == w[1..];
    } else {
      assert w[i := pc][1..] == w[1..][i - 1 := pc];
      SumUpdate(w[1..], i - 1, pc, f);
    }
  }

  lemma {:induction false} SumBound(w: seq<Pc>, i: nat, f: Pc -> int)
    requires i < |w|
    requires forall pc :: f(pc) >= 0
    ensures Sum(w, f) >= f(w[i])
  {
    SumNonNegative(w[1..], f);
    if i == 0 {
    } else {
      SumBound(w[1..], i - 1, f);
    }
  }

  lemma {:induction false} SumNonNegative(w: seq<Pc>, f: Pc -> int)
    requires forall pc :: f(pc) >= 0
    ensures Sum(w, f) >= 0
  {
    if w == [] {
    } else {
      SumNonNegative(w[1..], f);
    }
  }

  lemma {:induction false} SumAllEqual(w: seq<Pc>, f: Pc -> int, c: int)
    requires forall i :: 0 <= i < |w| ==> f(w[i]) == c
    ensures Sum(w, f) == c * |w|
  {
    if w == [] {
    } else {
      SumAllEqual(w[1..], f, c);
    }
  }

  // ---------------------------------------------------------------- what a position implies

  predicate HoldsM0(pc: Pc) {
    pc.Test? || pc.Wait? || pc.Resume? || pc.Take? || pc.Chain? || pc.Unlock0?
  }

  predicate HoldsM1(pc: Pc) {
    pc.Append? || pc.Write? || pc.Unlock1?
  }

  /** 1 between the two updates of `wait_threads`, else 0. */
  function Waiting(pc: Pc): int {
    if pc.Wait? || pc.Blocked? || pc.Woken? || pc.Resume? then 1 else 0
  }

  /** The request a worker has taken and not yet put on the done list. */
  function InHand(pc: Pc): seq<Req> {
    if pc.Chain? || pc.Unlock0? || pc.Work? || pc.Lock1? || pc.Append? then [pc.req] else []
  }

  /** 1 if the worker holds `r`; with `ran`, only if `work` has already run on it. */
  function Share(pc: Pc, r: Req, ran: bool): int {
    if InHand(pc) == [r] && (!ran || pc.Lock1? || pc.Append?) then 1 else 0
  }

  function ShareOf(r: Req, ran: bool): Pc -> int {
    (pc: Pc) => Share(pc, r, ran)
  }

  /** How many workers hold `r`; with `ran`, how many of them have run it. */
  function Holders(w: seq<Pc>, r: Req, ran: bool): int {
    Sum(w, ShareOf(r, ran))
  }

  function Completed(s: State): seq<Req> {
    s.destroyed + s.done
  }

  // ---------------------------------------------------------------- invariants

  ghost predicate WorkersOwn(w: seq<Pc>, m0: Owner, m1: Owner) {
    && (m0.ByWorker? ==> m0.i < |w|)
    && (m1.ByWorker? ==> m1.i < |w|)
    && forall i :: 0 <= i < |w| ==>
         && (HoldsM0(w[i]) <==> m0 == ByWorker(i))
         && (HoldsM1(w[i]) <==> m1 == ByWorker(i))
  }

  ghost predicate SubmittersOwn(subs: seq<SubPc>, m0: Owner) {
    && (m0.BySubmitter? ==> m0.j < |subs|)
    && forall j :: 0 <= j < |subs| ==> (subs[j] != Outside <==> m0 == BySubmitter(j))
  }

  ghost predicate MutexInv(s: State) {
    && WorkersOwn(s.workers, s.m0, s.m1)
    && SubmittersOwn(s.submitters, s.m0)
    && !s.m0.ByMain? && !s.m1.BySubmitter?
    && (s.main.Drain? <==> s.m1.ByMain?)
  }

  /** `wait_threads` counts the blocked workers and the woken ones that have not yet resumed. */
  ghost predicate CountInv(s: State) {
    s.waitThreads == Sum(s.workers, Waiting)
  }

  ghost predicate PositionInv(s: State) {
    && (forall i :: 0 <= i < |s.workers| && s.workers[i].Take? ==> s.pending != [])
    && (forall i :: 0 <= i < |s.workers| && (s.workers[i].Wait? || s.workers[i].Exited?) ==> s.pending == [])
    && (s.variant.EvLoop? ==> forall i :: 0 <= i < |s.workers| ==> !s.workers[i].Exited?)
    && (s.variant.ClosedRun? ==>
          && s.submitters == []
          && forall i :: 0 <= i < |s.workers| ==> Waiting(s.workers[i]) == 0)
  }

  ghost predicate SomeBlocked(s: State) {
    exists i :: 0 <= i < |s.workers| && s.workers[i].Blocked?
  }

  ghost predicate SomeWoken(s: State) {
    exists i :: 0 <= i < |s.workers| && s.workers[i].Woken?
  }

  /** The holder of the pending mutex will itself take a request or signal before it releases. */
  ghost predicate HolderWillAct(s: State) {
    || (s.m0.ByWorker? && s.m0.i < |s.workers|
        && (var pc := s.workers[s.m0.i]; pc.Resume? || pc.Test? || pc.Take? || pc.Chain?))
    || (s.m0.BySubmitter? && s.m0.j < |s.submitters| && s.submitters[s.m0.j].Signal?)
  }

  ghost predicate WakeInv(s: State) {
    s.pending != [] && SomeBlocked(s) ==> SomeWoken(s) || HolderWillAct(s)
  }

  /** Requests are taken in the order they were submitted. */
  ghost predicate PickInv(s: State) {
    s.submitted == s.taken + s.pending
  }

  /** A request taken is in some worker's hands or completed, as often as it was taken. */
  ghost predicate TakenInv(s: State, r: Req) {
    Occ(s.taken, r) == Occ(s.destroyed, r) + Occ(s.done, r) + Holders(s.workers, r, false)
  }

  /** `work` has run on the completed requests and on those in hand past it, once each. */
  ghost predicate ExecutedInv(s: State, r: Req) {
    Occ(s.executed, r) == Occ(s.destroyed, r) + Occ(s.done, r) + Holders(s.workers, r, true)
  }

  ghost predicate LogInv(s: State) {
    forall r :: TakenInv(s, r) && ExecutedInv(s, r)
  }

  /** With one worker, requests also complete in the order they were taken. */
  ghost predicate OrderInv(s: State) {
    |s.workers| == 1 ==> s.taken == Completed(s) + InHand(s.workers[0])
  }

  /** A worker stands between adding to the done list and writing the eventfd. */
  predicate WriteDue(s: State) {
    s.m1.ByWorker? && s.m1.i < |s.workers| && s.workers[s.m1.i].Write?
  }

  ghost predicate EventInv(s: State) {
    && |Completed(s)| == s.readTotal + s.efd + (if WriteDue(s) then 1 else 0)
    && (s.efd > 0 && !s.main.Read? ==> s.edge)
    && (s.main.Read? ==> s.efd > 0)
    && (s.main.Epoll? && s.done != [] ==> s.efd > 0 || WriteDue(s))
  }

  ghost predicate Inv(s: State) {
    && MutexInv(s) && CountInv(s) && PositionInv(s) && WakeInv(s)
    && Distinct(s.submitted) && PickInv(s) && LogInv(s) && OrderInv(s) && EventInv(s)
  }

  // ---------------------------------------------------------------- every step keeps the invariants

  lemma InitLogInv(s: State)
    requires Init(s)
    ensures PickInv(s) && LogInv(s) && OrderInv(s)
  {
    forall r ensures TakenInv(s, r) && ExecutedInv(s, r) {
      SumAllEqual(s.workers, ShareOf(r, false), 0);
      SumAllEqual(s.workers, ShareOf(r, true), 0);
    }
  }

  lemma InitInv(s: State)
    requires Init(s)
    ensures Inv(s)
  {
    SumAllEqual(s.workers, Waiting, 0);
    InitLogInv(s);
    assert MutexInv(s) && WakeInv(s) && PositionInv(s);
  }

  /** A worker's move keeps ownership if it matches its new position and touches only its own locks. */
  lemma OwnUpdate(w: seq<Pc>, i: nat, pc: Pc, m0: Owner, m1: Owner, n0: Owner, n1: Owner)
    requires i < |w| && WorkersOwn(w, m0, m1)
    requires m0 == n0 || (m0 in {Free, ByWorker(i)} && n0 in {Free, ByWorker(i)})
    requires m1 == n1 || (m1 in {Free, ByWorker(i)} && n1 in {Free, ByWorker(i)})
    requires HoldsM0(pc) <==> n0 == ByWorker(i)
    requires HoldsM1(pc) <==> n1 == ByWorker(i)
    ensures WorkersOwn(w[i := pc], n0, n1)
  {
  }

  lemma WakeOwn(w: seq<Pc>, wake: Option<nat>, m0: Owner, m1: Owner)
    requires WorkersOwn(w, m0, m1)
    requires wake.Some? && wake.value < |w| ==> w[wake.value].Blocked?
    ensures WorkersOwn(Signalled(w, wake), m0, m1)
  {
    if wake.Some? && wake.value < |w| {
      OwnUpdate(w, wake.value, Woken, m0, m1, m0, m1);
    }
  }

  lemma MutexStepWorker(s: State, i: nat, wake: Option<nat>)
    requires MutexInv(s) && WorkerEnabled(s, i, wake)
    ensures MutexInv(StepWorker(s, i, wake))
  {
    var t := StepWorker(s, i, wake);
    if s.workers[i].Chain? {
      var pc := Unlock0(s.workers[i].req);
      OwnUpdate(s.workers, i, pc, s.m0, s.m1, s.m0, s.m1);
      WakeOwn(s.workers[i := pc], wake, s.m0, s.m1);
    } else {
      OwnUpdate(s.workers, i, t.workers[i], s.m0, s.m1, t.m0, t.m1);
      assert t.workers == s.workers[i := t.workers[i]];
    }
  }

  lemma MutexStep(s: State, a: Action)
    requires MutexInv(s) && Enabled(s, a)
    ensures MutexInv(Apply(s, a))
  {
    match a
    case Worker(i, wake) => MutexStepWorker(s, i, wake);
    case Spurious(i) => OwnUpdate(s.workers, i, Woken, s.m0, s.m1, s.m0, s.m1);
    case Submit(j, r, wake) =>
      if s.submitters[j].Signal? { WakeOwn(s.workers, wake, s.m0, s.m1); }
    case Main =>
  }

  lemma SignalledSum(w: seq<Pc>, wake: Option<nat>, f: Pc -> int)
    requires wake.Some? && wake.value < |w| ==> w[wake.value].Blocked?
    requires f(Blocked) == f(Woken)
    ensures Sum(Signalled(w, wake), f) == Sum(w, f)
  {
    if wake.Some? && wake.value < |w| {
      SumUpdate(w, wake.value, Woken, f);
    }
  }

  /** A worker's step changes a sum by its own share only. */
  lemma SumStep(s: State, i: nat, wake: Option<nat>, f: Pc -> int)
    requires WorkerEnabled(s, i, wake) && f(Blocked) == f(Woken)
    ensures var t := StepWorker(s, i, wake);
            |t.workers| == |s.workers|
            && Sum(t.workers, f) == Sum(s.workers, f) - f(s.workers[i]) + f(t.workers[i])
  {
    var t := StepWorker(s, i, wake);
    if s.workers[i].Chain? {
      var w := s.workers[i := Unlock0(s.workers[i].req)];
      SumUpdate(s.workers, i, w[i], f);
      SignalledSum(w, wake, f);
    } else {
      assert t.workers == s.workers[i := t.workers[i]];
      SumUpdate(s.workers, i, t.workers[i], f);
    }
  }

  lemma CountStep(s: State, a: Action)
    requires CountInv(s) && Enabled(s, a)
    ensures CountInv(Apply(s, a))
  {
    match a
    case Worker(i, wake) => SumStep(s, i, wake, Waiting);
    case Spurious(i) => SumUpdate(s.workers, i, Woken, Waiting);
    case Submit(_, _, wake) =>
      if wake.Some? && wake.value < |s.workers| && s.workers[wake.value].Blocked? {
        SignalledSum(s.workers, wake, Waiting);
      }
    case Main =>
  }

  lemma PositionStep(s: State, a: Action)
    requires MutexInv(s) && PositionInv(s) && Enabled(s, a)
    ensures PositionInv(Apply(s, a))
  {
    match a
    case Worker(i, wake) => PositionStepWorker(s, i, wake);
    case Spurious(i) =>
    case Submit(j, r, wake) =>
    case Main =>
  }

  /** A worker's step leaves every other worker where it was, except one it signals. */
  lemma OthersStay(s: State, i: nat, wake: Option<nat>, k: nat)
    requires WorkerEnabled(s, i, wake) && k < |s.workers| && k != i
    ensures var t := StepWorker(s, i, wake);
            |t.workers| == |s.workers|
            && (t.workers[k] == s.workers[k] || (s.workers[k].Blocked? && t.workers[k].Woken?))
  {
  }

  lemma PositionStepWorker(s: State, i: nat, wake: Option<nat>)
    requires MutexInv(s) && PositionInv(s) && WorkerEnabled(s, i, wake)
    ensures PositionInv(StepWorker(s, i, wake))
  {
    var t := StepWorker(s, i, wake);
    forall k | 0 <= k < |t.workers|
      ensures t.workers[k].Take? ==> t.pending != []
      ensures t.workers[k].Wait? || t.workers[k].Exited? ==> t.pending == []
      ensures s.variant.EvLoop? ==> !t.workers[k].Exited?
      ensures s.variant.ClosedRun? ==> Waiting(t.workers[k]) == 0
    {
      if k != i { OthersStay(s, i, wake, k); }
    }
  }

  lemma BlockedCounted(s: State)
    requires CountInv(s) && SomeBlocked(s)
    ensures s.waitThreads > 0
  {
    var k :| 0 <= k < |s.workers| && s.workers[k].Blocked?;
    SumBound(s.workers, k, Waiting);
  }

  lemma WakeStepChain(s: State, i: nat, wake: Option<nat>)
    requires CountInv(s) && WorkerEnabled(s, i, wake) && s.workers[i].Chain?
    ensures WakeInv(StepWorker(s, i, wake))
  {
    var t := StepWorker(s, i, wake);
    if t.pending != [] && SomeBlocked(t) {
      var b :| 0 <= b < |t.workers| && t.workers[b].Blocked?;
      assert s.workers[b].Blocked?;
      BlockedCounted(s);
      assert t.workers[wake.value].Woken?;
    }
  }

  lemma WakeStepWorker(s: State, i: nat, wake: Option<nat>)
    requires MutexInv(s) && CountInv(s) && PositionInv(s) && WakeInv(s) && WorkerEnabled(s, i, wake)
    ensures WakeInv(StepWorker(s, i, wake))
  {
    hide CountInv;
    var t := StepWorker(s, i, wake);
    if s.workers[i].Chain? {
      WakeStepChain(s, i, wake);
    } else if t.pending != [] && SomeBlocked(t) && !HoldsM0(t.workers[i]) {
      var b :| 0 <= b < |t.workers| && t.workers[b].Blocked?;
      assert s.workers[b].Blocked?;
      if SomeWoken(s) {
        var k :| 0 <= k < |s.workers| && s.workers[k].Woken?;
        assert t.workers[k].Woken?;
      }
    }
  }

  lemma WakeStep(s: State, a: Action)
    requires MutexInv(s) && CountInv(s) && PositionInv(s) && WakeInv(s) && Enabled(s, a)
    ensures WakeInv(Apply(s, a))
  {
    var t := Apply(s, a);
    match a
    case Worker(i, wake) => WakeStepWorker(s, i, wake);
    case Spurious(i) => assert t.workers[i].Woken?;
    case Submit(j, r, wake) =>
      if t.pending != [] && SomeBlocked(t) {
        var b :| 0 <= b < |t.workers| && t.workers[b].Blocked?;
        assert s.workers[b].Blocked?;
        BlockedCounted(s);
        if s.submitters[j].Signal? {
          assert t.workers[wake.value].Woken?;
        } else if SomeWoken(s) {
          var k :| 0 <= k < |s.workers| && s.workers[k].Woken?;
          assert t.workers[k].Woken?;
        }
      }
    case Main =>
  }

  /** What a worker's step does to the logs. */
  lemma LogFields(s: State, i: nat, wake: Option<nat>)
    requires WorkerEnabled(s, i, wake)
    ensures var t, p := StepWorker(s, i, wake), s.workers[i];
            && t.submitted == s.submitted
            && t.taken == (if p.Take? then s.taken + [s.pending[0]] else s.taken)
            && t.pending == (if p.Take? then s.pending[1..] else s.pending)
            && t.executed == (if p.Work? then s.executed + [p.req] else s.executed)
            && t.destroyed == s.destroyed
            && t.done == (if p.Append? then s.done + [p.req] else s.done)
  {
  }

  /** What a worker's step does to the request in its hands. */
  lemma HandFields(s: State, i: nat, wake: Option<nat>)
    requires WorkerEnabled(s, i, wake)
    ensures var p, q := s.workers[i], StepWorker(s, i, wake).workers[i];
            && InHand(q) == (if p.Take? then [s.pending[0]] else if p.Append? then [] else InHand(p))
            && (q.Lock1? || q.Append? <==> p.Work? || p.Lock1?)
  {
  }

  lemma LogStepWorker(s: State, i: nat, wake: Option<nat>, r: Req)
    requires TakenInv(s, r) && ExecutedInv(s, r) && WorkerEnabled(s, i, wake)
    ensures var t := StepWorker(s, i, wake); TakenInv(t, r) && ExecutedInv(t, r)
  {
    hide StepWorker, Occ, Sum;
    var p := s.workers[i];
    SumStep(s, i, wake, ShareOf(r, false));
    SumStep(s, i, wake, ShareOf(r, true));
    LogFields(s, i, wake);
    HandFields(s, i, wake);
    if p.Take? { OccPush(s.taken, s.pending[0], r); }
    if p.Work? { OccPush(s.executed, p.req, r); }
    if p.Append? { OccPush(s.done, p.req, r); }
  }

  lemma DrainKeepsCompleted(s: State)
    requires s.main.Drain?
    ensures Completed(StepMain(s)) == Completed(s)
  {
    if s.done != [] {
      assert s.done == [s.done[0]] + s.done[1..];
    }
  }

  lemma DrainKeepsOcc(destroyed: seq<Req>, done: seq<Req>, r: Req)
    requires done != []
    ensures Occ(destroyed + [done[0]], r) + Occ(done[1..], r) == Occ(destroyed, r) + Occ(done, r)
  {
    hide Occ;
    OccConcat(destroyed, done, r);
    OccConcat(destroyed + [done[0]], done[1..], r);
    assert destroyed + [done[0]] + done[1..] == destroyed + done;
  }

  lemma LogStepMain(s: State, r: Req)
    requires TakenInv(s, r) && ExecutedInv(s, r)
    ensures var t := StepMain(s); TakenInv(t, r) && ExecutedInv(t, r)
  {
    hide Occ, Sum;
    if s.main.Drain? && s.done != [] { DrainKeepsOcc(s.destroyed, s.done, r); }
  }

  lemma LogStep(s: State, a: Action, r: Req)
    requires TakenInv(s, r) && ExecutedInv(s, r) && Enabled(s, a)
    ensures TakenInv(Apply(s, a), r) && ExecutedInv(Apply(s, a), r)
  {
    hide StepWorker, StepMain, Sum, Occ;
    match a
    case Worker(i, wake) => LogStepWorker(s, i, wake, r);
    case Spurious(i) =>
      SignalledSum(s.workers, Some(i), ShareOf(r, false));
      SignalledSum(s.workers, Some(i), ShareOf(r, true));
    case Submit(j, _, wake) =>
      if s.submitters[j].Signal? {
        SignalledSum(s.workers, wake, ShareOf(r, false));
        SignalledSum(s.workers, wake, ShareOf(r, true));
      }
    case Main => LogStepMain(s, r);
  }

  lemma PickStep(s: State, a: Action)
    requires PickInv(s) && Enabled(s, a)
    ensures PickInv(Apply(s, a))
  {
    hide StepWorker;
    match a
    case Worker(i, wake) =>
      LogFields(s, i, wake);
      if s.workers[i].Take? { assert s.pending == [s.pending[0]] + s.pending[1..]; }
    case Spurious(i) =>
    case Submit(j, r, wake) => assert s.taken + (s.pending + [r]) == (s.taken + s.pending) + [r];
    case Main =>
  }

  lemma DistinctStep(s: State, a: Action)
    requires Distinct(s.submitted) && Enabled(s, a)
    ensures Distinct(Apply(s, a).submitted)
  {
  }

  lemma OrderStepWorker(s: State, i: nat, wake: Option<nat>)
    requires OrderInv(s) && WorkerEnabled(s, i, wake) && |s.workers| == 1
    ensures OrderInv(StepWorker(s, i, wake))
  {
    var t := StepWorker(s, i, wake);
    if s.workers[i].Append? {
      assert Completed(t) == Completed(s) + InHand(s.workers[0]);
    }
  }

  lemma OrderStep(s: State, a: Action)
    requires OrderInv(s) && Enabled(s, a)
    ensures OrderInv(Apply(s, a))
  {
    if |s.workers| == 1 {
      match a
      case Worker(i, wake) => OrderStepWorker(s, i, wake);
      case Spurious(i) =>
      case Submit(j, r, wake) =>
      case Main => if s.main.Drain? { DrainKeepsCompleted(s); }
    }
  }

  lemma EventStepWorker(s: State, i: nat, wake: Option<nat>)
    requires MutexInv(s) && EventInv(s) && WorkerEnabled(s, i, wake)
    ensures EventInv(StepWorker(s, i, wake))
  {
    var t := StepWorker(s, i, wake);
    MutexStepWorker(s, i, wake);
    if s.m1.ByWorker? && s.m1.i != i { OthersStay(s, i, wake, s.m1.i); }
    assert HoldsM1(s.workers[i]) ==> s.m1 == ByWorker(i);
    if s.workers[i].Append? { assert |Completed(t)| == |Completed(s)| + 1; }
  }

  lemma EventStep(s: State, a: Action)
    requires MutexInv(s) && EventInv(s) && Enabled(s, a)
    ensures EventInv(Apply(s, a))
  {
    match a
    case Worker(i, wake) => EventStepWorker(s, i, wake);
    case Spurious(i) =>
    case Submit(j, r, wake) =>
    case Main => if s.main.Drain? { DrainKeepsCompleted(s); }
  }

  /** Every step of every thread keeps the whole invariant. */
  lemma StepInv(s: State, a: Action)
    requires Inv(s) && Enabled(s, a)
    ensures Inv(Apply(s, a))
  {
    hide Apply, Enabled, MutexInv, CountInv, PositionInv, WakeInv, Distinct, PickInv, TakenInv, ExecutedInv,
         OrderInv, EventInv;
    MutexStep(s, a);
    CountStep(s, a);
    PositionStep(s, a);
    WakeStep(s, a);
    DistinctStep(s, a);
    PickStep(s, a);
    forall r ensures TakenInv(Apply(s, a), r) && ExecutedInv(Apply(s, a), r) { LogStep(s, a, r); }
    OrderStep(s, a);
    EventStep(s, a);
  }

  /** Every reachable state satisfies the invariant, and what ran before is still recorded. */
  lemma {:induction false} RunInv(s: State, acts: seq<Action>, t: State)
    requires Inv(s) && Runs(s, acts, t)
    ensures Inv(t)
    ensures t.variant == s.variant && |t.workers| == |s.workers| && |t.submitters| == |s.submitters|
    decreases |acts|
  {
    if acts == [] {
    } else {
      StepInv(s, acts[0]);
      StepShape(s, acts[0]);
      hide Inv, Enabled, Apply;
      RunInv(Apply(s, acts[0]), acts[1..], t);
    }
  }

  lemma StepShape(s: State, a: Action)
    requires Enabled(s, a)
    ensures var t := Apply(s, a);
            t.variant == s.variant && |t.workers| == |s.workers| && |t.submitters| == |s.submitters|
  {
  }

  // ---------------------------------------------------------------- safety over every run

  /** No lost wakeup: with the pending mutex free and a request pending, no worker is left blocked
      unless another has been woken and will take the mutex. So the workers are never all blocked
      while a request is pending, whatever the interleaving and whatever the spurious wakeups. */
  lemma NoLostWakeup(s: State, acts: seq<Action>, t: State)
    requires Init(s) && Runs(s, acts, t)
    requires t.m0.Free? && t.pending != []
    ensures SomeBlocked(t) ==> SomeWoken(t)
    ensures |t.workers| > 0 ==> !(forall i :: 0 <= i < |t.workers| ==> t.workers[i].Blocked?)
  {
    InitInv(s);
    RunInv(s, acts, t);
    if |t.workers| > 0 && t.workers[0].Blocked? {
      assert SomeBlocked(t);
    }
  }

  /** `wait_threads` is exactly the number of workers between its two updates; it is never negative,
      and a signal guarded by it is never skipped while a worker is blocked. */
  lemma WaitThreadsExact(s: State, acts: seq<Action>, t: State)
    requires Init(s) && Runs(s, acts, t)
    ensures t.waitThreads == Sum(t.workers, Waiting) >= 0
    ensures SomeBlocked(t) ==> t.waitThreads > 0
  {
    InitInv(s);
    RunInv(s, acts, t);
    SumNonNegative(t.workers, Waiting);
    if SomeBlocked(t) { BlockedCounted(t); }
  }

  /** Conservation and exactly-once: a submitted request is in exactly one of the pending list, one
      worker's hands, the done list or the destroyed ones, and `work` has run on it once if it is
      completed, never twice, and never before it was taken. */
  lemma ExactlyOnce(s: State, acts: seq<Action>, t: State, r: Req)
    requires Init(s) && Runs(s, acts, t)
    ensures Occ(t.pending, r) + Holders(t.workers, r, false) + Occ(t.done, r) + Occ(t.destroyed, r)
            == if r in t.submitted then 1 else 0
    ensures Occ(t.executed, r) <= 1
    ensures r in Completed(t) ==> Occ(t.executed, r) == 1
    ensures Occ(t.pending, r) == 1 ==> Occ(t.executed, r) == 0
  {
    InitInv(s);
    RunInv(s, acts, t);
    assert TakenInv(t, r) && ExecutedInv(t, r);
    OccDistinct(t.submitted, r);
    OccConcat(t.taken, t.pending, r);
    OccConcat(t.destroyed, t.done, r);
    RanAtMostHeld(t.workers, r);
    if r in Completed(t) { OccMember(Completed(t), r); }
  }

  lemma {:induction false} RanAtMostHeld(w: seq<Pc>, r: Req)
    ensures 0 <= Holders(w, r, true) <= Holders(w, r, false)
  {
    if w == [] {
    } else {
      RanAtMostHeld(w[1..], r);
    }
  }

  lemma {:induction false} OccMember(q: seq<Req>, r: Req)
    requires r in q
    ensures Occ(q, r) >= 1
  {
    if q[|q| - 1] != r {
      OccMember(q[..|q| - 1], r);
    }
  }

  /** Requests are picked up in submission order, and with one worker they also complete in it. */
  lemma PickUpOrder(s: State, acts: seq<Action>, t: State)
    requires Init(s) && Runs(s, acts, t)
    ensures t.taken <= t.submitted && t.pending == t.submitted[|t.taken|..]
    ensures |t.workers| == 1 ==> Completed(t) <= t.submitted
  {
    InitInv(s);
    RunInv(s, acts, t);
  }

  /** No lost completion: whenever the main loop is about to wait in epoll, the done mutex is free and
      something is on the done list, the eventfd counter is positive and an edge is due. */
  lemma NoLostCompletion(s: State, acts: seq<Action>, t: State)
    requires Init(s) && Runs(s, acts, t)
    ensures t.main.Epoll? && t.m1.Free? && t.done != [] ==> t.efd > 0 && t.edge
    ensures t.m1.Free? ==> t.readTotal + t.efd == |t.done| + |t.destroyed|
  {
    InitInv(s);
    RunInv(s, acts, t);
  }

  /** A blocked worker may wake up spuriously in any state, and a signal may release any blocked worker. */
  lemma BlockedMayWake(s: State, i: nat)
    requires i < |s.workers| && s.workers[i].Blocked?
    ensures Runs(s, [Spurious(i)], s.(workers := s.workers[i := Woken]))
    ensures SignalOk(s, true, Some(i)) && Signalled(s.workers, Some(i)) == s.workers[i := Woken]
  {
    var t := s.(workers := s.workers[i := Woken]);
    assert [Spurious(i)][1..] == [];
    assert Runs(t, [], t);
  }

  // ---------------------------------------------------------------- progress

  /** A step of a worker or of the main loop; submissions and spurious wakeups are the environment's. */
  predicate Internal(a: Action) {
    a.Worker? || a.Main?
  }

  /** How far a worker is from blocking; a chain signal pays for the worker it wakes. */
  function Rank(pc: Pc): int {
    match pc
    case Blocked => 0
    case Exited => 0
    case Wait => 1
    case Take => 1
    case Test => 2
    case Lock0 => 3
    case Resume => 3
    case Woken => 4
    case Unlock1 => 4
    case Write => 9
    case Append(_) => 11
    case Lock1(_) => 12
    case Work(_) => 13
    case Unlock0(_) => 14
    case Chain(_) => 19
  }

  function MainRank(m: MainPc): int {
    match m
    case Epoll => 0
    case Drain => 1
    case LockDone => 2
    case Read => 3
  }

  /** Work left before nothing internal is enabled. */
  function Measure(s: State): int {
    19 * |s.pending| + Sum(s.workers, Rank) + |s.done| + (if s.edge then 4 else 0) + MainRank(s.main)
  }

  lemma RankStep(s: State, i: nat, wake: Option<nat>)
    requires WorkerEnabled(s, i, wake)
    ensures var t := StepWorker(s, i, wake);
            |t.workers| == |s.workers|
            && Sum(t.workers, Rank) <= Sum(s.workers, Rank) - Rank(s.workers[i]) + Rank(t.workers[i])
                                       + (if s.workers[i].Chain? then 4 else 0)
  {
    var t := StepWorker(s, i, wake);
    if s.workers[i].Chain? {
      var w := s.workers[i := Unlock0(s.workers[i].req)];
      SumUpdate(s.workers, i, w[i], Rank);
      if wake.Some? { SumUpdate(w, wake.value, Woken, Rank); }
    } else {
      assert t.workers == s.workers[i := t.workers[i]];
      SumUpdate(s.workers, i, t.workers[i], Rank);
    }
  }

  lemma StepMeasureWorker(s: State, i: nat, wake: Option<nat>)
    requires WorkerEnabled(s, i, wake)
    ensures Measure(StepWorker(s, i, wake)) < Measure(s)
  {
    hide Sum;
    RankStep(s, i, wake);
  }

  lemma StepMeasure(s: State, a: Action)
    requires Enabled(s, a) && Internal(a)
    ensures 0 <= Measure(Apply(s, a)) < Measure(s)
  {
    SumNonNegative(Apply(s, a).workers, Rank);
    hide Sum, StepWorker, WorkerEnabled;
    if a.Worker? { StepMeasureWorker(s, a.i, a.wake); }
  }

  /** Progress: however the workers and the main loop interleave, without new submissions and spurious
      wakeups they take at most `Measure(s)` steps from any state. */
  lemma {:induction false} InternalRunsEnd(s: State, acts: seq<Action>, t: State)
    requires Runs(s, acts, t) && forall a :: a in acts ==> Internal(a)
    ensures |acts| <= Measure(s) - Measure(t)
    decreases |acts|
  {
    if acts == [] {
    } else {
      StepMeasure(s, acts[0]);
      hide Measure, Apply, Enabled;
      InternalRunsEnd(Apply(s, acts[0]), acts[1..], t);
    }
  }

  ghost predicate Stuck(s: State) {
    forall a :: Internal(a) ==> !Enabled(s, a)
  }

  /** A worker that cannot move is blocked, finished, or wants a mutex that is taken. */
  lemma StuckWorker(s: State, i: nat)
    requires Stuck(s) && i < |s.workers|
    ensures match s.workers[i]
            case Blocked => true
            case Exited => true
            case Take => s.pending == []
            case Lock0 => !s.m0.Free?
            case Woken => !s.m0.Free?
            case Lock1(_) => !s.m1.Free?
            case _ => false
  {
    var wake := None;
    if s.workers[i].Chain? && ChainFires(s) && SomeBlocked(s) {
      var k :| 0 <= k < |s.workers| && s.workers[k].Blocked?;
      wake := Some(k);
    }
    assert !Enabled(s, Worker(i, wake));
  }

  lemma StuckMain(s: State)
    requires Stuck(s)
    ensures (s.main.Epoll? && !s.edge) || (s.main.LockDone? && !s.m1.Free?)
  {
    assert !Enabled(s, Main);
  }

  /** In a stuck state outside any submission both mutexes are free and every worker is at rest. */
  lemma StuckAtRest(s: State)
    requires Inv(s) && Stuck(s) && forall j :: 0 <= j < |s.submitters| ==> s.submitters[j].Outside?
    ensures s.m0.Free? && s.m1.Free? && s.main.Epoll? && !s.edge
    ensures forall i :: 0 <= i < |s.workers| ==> s.workers[i].Blocked? || s.workers[i].Exited?
  {
    hide CountInv, WakeInv, LogInv, OrderInv, PickInv, Distinct, Stuck;
    StuckMain(s);
    if s.m0.ByWorker? { StuckWorker(s, s.m0.i); }
    if s.m1.ByWorker? { StuckWorker(s, s.m1.i); }
    forall i | 0 <= i < |s.workers| ensures s.workers[i].Blocked? || s.workers[i].Exited? {
      StuckWorker(s, i);
    }
  }

  lemma StuckDone(s: State)
    requires Inv(s) && Stuck(s) && |s.workers| > 0
    requires forall j :: 0 <= j < |s.submitters| ==> s.submitters[j].Outside?
    ensures s.pending == [] && s.done == []
    ensures s.variant.EvLoop? ==> forall i :: 0 <= i < |s.workers| ==> s.workers[i].Blocked?
    ensures s.variant.ClosedRun? ==> forall i :: 0 <= i < |s.workers| ==> s.workers[i].Exited?
  {
    hide CountInv, MutexInv, LogInv, OrderInv, PickInv, Distinct, Stuck;
    StuckAtRest(s);
    assert !HolderWillAct(s) && !WriteDue(s) && !SomeWoken(s);
    if s.workers[0].Blocked? { assert SomeBlocked(s); }
  }

  lemma NobodyHolds(w: seq<Pc>, r: Req)
    requires forall i :: 0 <= i < |w| ==> w[i].Blocked? || w[i].Exited?
    ensures Holders(w, r, false) == 0 && Holders(w, r, true) == 0
  {
    SumAllEqual(w, ShareOf(r, false), 0);
    SumAllEqual(w, ShareOf(r, true), 0);
  }

  /** When a run with at least one worker can go no further and no submission is under way, nothing is
      pending, nothing waits on the done list, every worker is at rest (blocked in the event loop,
      returned in the closed run), and each submitted request ran once and was destroyed once. */
  lemma RunsComplete(s: State, acts: seq<Action>, t: State, r: Req)
    requires Init(s) && Runs(s, acts, t) && |s.workers| > 0
    requires Stuck(t) && forall j :: 0 <= j < |t.submitters| ==> t.submitters[j].Outside?
    ensures t.pending == [] && t.done == []
    ensures t.variant.EvLoop? ==> forall i :: 0 <= i < |t.workers| ==> t.workers[i].Blocked?
    ensures t.variant.ClosedRun? ==> forall i :: 0 <= i < |t.workers| ==> t.workers[i].Exited?
    ensures Occ(t.executed, r) == Occ(t.destroyed, r) == if r in t.submitted then 1 else 0
  {
    InitInv(s);
    RunInv(s, acts, t);
    StuckDone(t);
    StuckAtRest(t);
    NobodyHolds(t.workers, r);
    assert TakenInv(t, r) && ExecutedInv(t, r);
    assert t.taken == t.submitted;
    OccDistinct(t.submitted, r);
  }

  /** The closed run: once every worker has returned, each queued request has run exactly once and is
      on the done list or destroyed, exactly once, wherever the main loop stands. */
  lemma ClosedRunExecutesAll(s: State, acts: seq<Action>, t: State, r: Req)
    requires Init(s) && s.variant.ClosedRun? && Runs(s, acts, t) && |s.workers| > 0
    requires forall i :: 0 <= i < |t.workers| ==> t.workers[i].Exited?
    ensures t.submitted == s.pending && t.pending == []
    ensures Occ(t.executed, r) == Occ(t.done, r) + Occ(t.destroyed, r) == if r in s.pending then 1 else 0
  {
    InitInv(s);
    RunInv(s, acts, t);
    SubmittedFixed(s, acts, t);
    NobodyHolds(t.workers, r);
    assert t.workers[0].Exited?;
    assert TakenInv(t, r) && ExecutedInv(t, r);
    assert t.taken == t.submitted;
    OccDistinct(t.submitted, r);
  }

  lemma {:induction false} SubmittedFixed(s: State, acts: seq<Action>, t: State)
    requires s.submitters == [] && Runs(s, acts, t)
    ensures t.submitted == s.submitted
    decreases |acts|
  {
    if acts == [] {
    } else {
      assert Apply(s, acts[0]).submitters == [] && Apply(s, acts[0]).submitted == s.submitted;
      SubmittedFixed(Apply(s, acts[0]), acts[1..], t);
    }
  }
}

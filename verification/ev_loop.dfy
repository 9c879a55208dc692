/** `struct ev_loop` as an object. The critical sections of `EV_REQ_ADD`, `ev_work` and `process_work`
    are methods on its fields; each is specified by what it does to the whole state, and that state is
    shown to be what the state machine of module WorkerPool reaches by the same statements. */
module EvLoopObject {
  import opened Wrappers
  import opened WorkerPool

  // ---------------------------------------------------------------- sections as runs of the machine

  /** `EV_REQ_ADD` from lock to unlock. */
  ghost function AddSection(s: State, r: Req, wake: Option<nat>): State {
    s.(pending := s.pending + [r], submitted := s.submitted + [r],
       workers := if s.waitThreads > 0 then Signalled(s.workers, wake) else s.workers)
  }

  /** `wait_threads` once the worker at the lock, or woken from its wait, holds the mutex. */
  ghost function Counted(s: State, i: nat): int
    requires i < |s.workers|
  {
    if s.workers[i].Woken? then s.waitThreads - 1 else s.waitThreads
  }

  /** `ev_work` from the first lock, or from a wake-up, to the next wait or the first unlock. */
  ghost function FirstSection(s: State, i: nat, wake: Option<nat>): State
    requires i < |s.workers|
  {
    if s.pending == [] then s.(workers := s.workers[i := Blocked], waitThreads := Counted(s, i) + 1)
    else
      var w := s.workers[i := Work(s.pending[0])];
      s.(pending := s.pending[1..], taken := s.taken + [s.pending[0]], waitThreads := Counted(s, i),
         workers := if FirstSignals(s, i) then Signalled(w, wake) else w)
  }

  /** A signal is due: work remains and a worker waits. */
  ghost predicate FirstSignals(s: State, i: nat)
    requires i < |s.workers|
  {
    s.pending != [] && s.pending[1..] != [] && Counted(s, i) > 0
  }

  /** `ev_work` from the second lock to the second unlock. */
  ghost function CompleteSection(s: State, i: nat, r: Req): State
    requires i < |s.workers|
  {
    s.(done := s.done + [r], efd := s.efd + 1, edge := true, workers := s.workers[i := Lock0])
  }

  /** `process_work`: everything on the done list is destroyed, in order. */
  ghost function DrainSection(s: State): State {
    s.(done := [], destroyed := s.destroyed + s.done, main := Epoll)
  }

  lemma RunsNil(s: State)
    ensures Runs(s, [], s)
  {
  }

  lemma RunsCons(s: State, a: Action, acts: seq<Action>, t: State)
    requires Enabled(s, a) && Runs(Apply(s, a), acts, t)
    ensures Runs(s, [a] + acts, t)
  {
    assert ([a] + acts)[1..] == acts;
  }

  lemma AddIsRun(s: State, j: nat, r: Req, wake: Option<nat>)
    requires j < |s.submitters| && s.submitters[j].Outside? && s.m0.Free? && r !in s.submitted
    requires SignalOk(s, s.waitThreads > 0, wake)
    ensures exists acts :: |acts| == 4 && Runs(s, acts, AddSection(s, r, wake))
  {
    hide Runs;
    var a, b := Submit(j, r, None), Submit(j, r, wake);
    var s1 := StepSubmit(s, j, r, None);
    var s2 := StepSubmit(s1, j, r, None);
    var s3 := StepSubmit(s2, j, r, wake);
    var s4 := StepSubmit(s3, j, r, None);
    assert s4 == AddSection(s, r, wake) by {
      assert s4.submitters == s.submitters;
    }
    RunsNil(s4);
    RunsCons(s3, a, [], s4);
    RunsCons(s2, b, [a] + [], s4);
    RunsCons(s1, a, [b] + ([a] + []), s4);
    RunsCons(s, a, [a] + ([b] + ([a] + [])), s4);
  }

  /** The worker may enter the section: it is at the lock or woken, and the mutex is free. */
  ghost predicate MayEnter(s: State, i: nat) {
    i < |s.workers| && (s.workers[i].Lock0? || s.workers[i].Woken?) && s.m0.Free?
  }

  /** The worker holds the mutex and tests the list. */
  ghost function AtTest(s: State, i: nat): State
    requires MayEnter(s, i)
  {
    s.(workers := s.workers[i := Test], m0 := ByWorker(i), waitThreads := Counted(s, i))
  }

  /** How many statements it takes to get there. */
  function Entry(pc: Pc): nat {
    if pc.Woken? then 2 else 1
  }

  lemma EnterIsRun(s: State, i: nat, acts: seq<Action>, t: State)
    requires MayEnter(s, i) && Runs(AtTest(s, i), acts, t)
    ensures exists more :: |more| == Entry(s.workers[i]) + |acts| && Runs(s, more, t)
  {
    var a := Worker(i, None);
    var s1 := StepWorker(s, i, None);
    if s.workers[i].Woken? {
      var s2 := StepWorker(s1, i, None);
      assert s2 == AtTest(s, i) by {
        assert s2.workers == s.workers[i := Test];
      }
      hide Runs;
      RunsCons(s1, a, acts, t);
      RunsCons(s, a, [a] + acts, t);
      assert |[a] + ([a] + acts)| == 2 + |acts|;
    } else {
      assert s1 == AtTest(s, i);
      hide Runs;
      RunsCons(s, a, acts, t);
      assert |[a] + acts| == 1 + |acts|;
    }
  }

  lemma WaitIsRun(s: State, i: nat)
    requires MayEnter(s, i) && s.pending == [] && s.variant.EvLoop?
    ensures exists acts :: |acts| == Entry(s.workers[i]) + 2 && Runs(s, acts, FirstSection(s, i, None))
  {
    var a := Worker(i, None);
    var s0 := AtTest(s, i);
    var s1 := StepWorker(s0, i, None);
    var s2 := StepWorker(s1, i, None);
    assert s2 == FirstSection(s, i, None) by {
      assert s2.workers == s.workers[i := Blocked];
    }
    hide Runs;
    RunsNil(s2);
    RunsCons(s1, a, [], s2);
    RunsCons(s0, a, [a] + [], s2);
    EnterIsRun(s, i, [a] + ([a] + []), s2);
  }

  lemma TakeIsRun(s: State, i: nat, wake: Option<nat>)
    requires MayEnter(s, i) && s.pending != [] && SignalOk(s, FirstSignals(s, i), wake)
    ensures exists acts :: |acts| == Entry(s.workers[i]) + 4 && Runs(s, acts, FirstSection(s, i, wake))
  {
    hide Runs;
    var a, b := Worker(i, None), Worker(i, wake);
    var s0 := AtTest(s, i);
    var s1 := StepWorker(s0, i, None);
    var s2 := StepWorker(s1, i, None);
    var s3 := StepWorker(s2, i, wake);
    var s4 := StepWorker(s3, i, None);
    TakeEnd(s, i, wake);
    assert WorkerEnabled(s2, i, wake);
    RunsNil(s4);
    RunsCons(s3, a, [], s4);
    RunsCons(s2, b, [a] + [], s4);
    RunsCons(s1, a, [b] + ([a] + []), s4);
    RunsCons(s0, a, [a] + ([b] + ([a] + [])), s4);
    EnterIsRun(s, i, [a] + ([a] + ([b] + ([a] + []))), s4);
  }

  lemma TakeEnd(s: State, i: nat, wake: Option<nat>)
    requires MayEnter(s, i) && s.pending != [] && SignalOk(s, FirstSignals(s, i), wake)
    ensures var s2 := StepWorker(StepWorker(AtTest(s, i), i, None), i, None);
            s2.workers == s.workers[i := Chain(s.pending[0])]
            && StepWorker(StepWorker(s2, i, wake), i, None) == FirstSection(s, i, wake)
  {
    var s2 := StepWorker(StepWorker(AtTest(s, i), i, None), i, None);
    assert s2.workers == s.workers[i := Chain(s.pending[0])];
    var s4 := StepWorker(StepWorker(s2, i, wake), i, None);
    assert s4.workers == FirstSection(s, i, wake).workers;
  }

  /** The section is a run of the machine, whether it waits or takes. */
  lemma FirstIsRun(s: State, i: nat, wake: Option<nat>)
    requires MayEnter(s, i) && s.variant.EvLoop? && SignalOk(s, FirstSignals(s, i), wake)
    ensures exists acts :: |acts| == Entry(s.workers[i]) + (if s.pending == [] then 2 else 4)
                           && Runs(s, acts, FirstSection(s, i, wake))
  {
    if s.pending == [] {
      WaitIsRun(s, i);
      hide Runs;
      assert FirstSection(s, i, wake) == FirstSection(s, i, None);
    } else {
      TakeIsRun(s, i, wake);
      hide Runs;
    }
  }

  lemma CompleteIsRun(s: State, i: nat, r: Req)
    requires i < |s.workers| && s.workers[i] == Lock1(r) && s.m1.Free?
    ensures exists acts :: |acts| == 4 && Runs(s, acts, CompleteSection(s, i, r))
  {
    hide Runs;
    var a := Worker(i, None);
    var s1 := StepWorker(s, i, None);
    var s2 := StepWorker(s1, i, None);
    var s3 := StepWorker(s2, i, None);
    var s4 := StepWorker(s3, i, None);
    assert s4 == CompleteSection(s, i, r) by {
      assert s4.workers == s.workers[i := Lock0];
    }
    RunsNil(s4);
    RunsCons(s3, a, [], s4);
    RunsCons(s2, a, [a] + [], s4);
    RunsCons(s1, a, [a] + ([a] + []), s4);
    RunsCons(s, a, [a] + ([a] + ([a] + [])), s4);
  }

  lemma {:induction false} DrainLoopIsRun(s: State)
    requires s.main.Drain?
    ensures exists acts :: |acts| == |s.done| + 1 && Runs(s, acts, DrainSection(s).(m1 := Free))
    decreases |s.done|
  {
    var t := StepMain(s);
    var u := DrainSection(s).(m1 := Free);
    if s.done == [] {
      RunsNil(t);
      RunsCons(s, Main, [], t);
      assert t == u;
    } else {
      DrainLoopIsRun(t);
      var rest :| |rest| == |t.done| + 1 && Runs(t, rest, DrainSection(t).(m1 := Free));
      assert s.destroyed + [s.done[0]] + s.done[1..] == s.destroyed + s.done;
      hide Runs;
      RunsCons(s, Main, rest, u);
    }
  }

  lemma DrainIsRun(s: State)
    requires s.main.LockDone? && s.m1.Free?
    ensures exists acts :: |acts| == |s.done| + 2 && Runs(s, acts, DrainSection(s))
  {
    var t := StepMain(s);
    DrainLoopIsRun(t);
    var rest :| |rest| == |t.done| + 1 && Runs(t, rest, DrainSection(t).(m1 := Free));
    RunsCons(s, Main, rest, DrainSection(s));
  }

  // ---------------------------------------------------------------- the invariant over sections

  lemma AddKeeps(s: State, j: nat, r: Req, wake: Option<nat>)
    requires j < |s.submitters| && s.submitters[j].Outside? && s.m0.Free? && r !in s.submitted
    requires SignalOk(s, s.waitThreads > 0, wake) && Inv(s)
    ensures Inv(AddSection(s, r, wake))
  {
    hide Runs, Inv, SignalOk;
    AddIsRun(s, j, r, wake);
    var acts :| |acts| == 4 && Runs(s, acts, AddSection(s, r, wake));
    RunInv(s, acts, AddSection(s, r, wake));
  }

  lemma FirstKeeps(s: State, i: nat, wake: Option<nat>)
    requires MayEnter(s, i) && s.variant.EvLoop? && SignalOk(s, FirstSignals(s, i), wake) && Inv(s)
    ensures Inv(FirstSection(s, i, wake))
  {
    hide Runs, Inv, SignalOk, FirstSection;
    FirstIsRun(s, i, wake);
    var acts :| |acts| == Entry(s.workers[i]) + (if s.pending == [] then 2 else 4)
                && Runs(s, acts, FirstSection(s, i, wake));
    RunInv(s, acts, FirstSection(s, i, wake));
  }

  lemma CompleteKeeps(s: State, i: nat, r: Req)
    requires i < |s.workers| && s.workers[i] == Lock1(r) && s.m1.Free? && Inv(s)
    ensures Inv(CompleteSection(s, i, r))
  {
    hide Runs, Inv;
    CompleteIsRun(s, i, r);
    var acts :| |acts| == 4 && Runs(s, acts, CompleteSection(s, i, r));
    RunInv(s, acts, CompleteSection(s, i, r));
  }

  lemma DrainKeeps(s: State)
    requires s.main.LockDone? && s.m1.Free? && Inv(s)
    ensures Inv(DrainSection(s))
  {
    hide Runs, Inv;
    DrainIsRun(s);
    var acts :| |acts| == |s.done| + 2 && Runs(s, acts, DrainSection(s));
    RunInv(s, acts, DrainSection(s));
  }

  // ---------------------------------------------------------------- the object

  class Loop {
    var list0: seq<Req>
    var list1: seq<Req>
    var waitThreads: int
    var mutex0: Owner
    var mutex1: Owner
    var efd: nat
    var edge: bool
    ghost const variant: Variant := EvLoop
    ghost var workers: seq<Pc>
    ghost var submitters: seq<SubPc>
    ghost var main: MainPc
    ghost var submitted: seq<Req>
    ghost var taken: seq<Req>
    ghost var executed: seq<Req>
    ghost var destroyed: seq<Req>
    ghost var readTotal: nat

    ghost function Abs(): State
      reads this
    {
      State(variant, list0, list1, waitThreads, mutex0, mutex1, efd, edge, workers, submitters, main,
            submitted, taken, executed, destroyed, readTotal)
    }

    /** `ev_loop_init`: empty lists, free mutexes, every worker at the top of `ev_work`. */
    constructor (nthreads: nat, nsubmitters: nat)
      ensures Init(Abs()) && variant == EvLoop && list0 == [] && |workers| == nthreads
    {
      list0, list1, waitThreads, mutex0, mutex1, efd, edge := [], [], 0, Free, Free, 0, false;
      workers, submitters, main := seq(nthreads, _ => Lock0), seq(nsubmitters, _ => Outside), Epoll;
      submitted, taken, executed, destroyed, readTotal := [], [], [], [], 0;
    }

    /** `EV_REQ_ADD`: append under the mutex, and signal only when `wait_threads` is positive. */
    method EvReqAdd(j: nat, r: Req, ghost wake: Option<nat>)
      requires j < |submitters| && submitters[j] == Outside && mutex0 == Free && r !in submitted
      requires SignalOk(Abs(), waitThreads > 0, wake)
      modifies this
      ensures Abs() == AddSection(old(Abs()), r, wake)
      ensures Inv(old(Abs())) ==> Inv(Abs())
    {
      hide Inv;
      ghost var s := Abs();
      mutex0 := BySubmitter(j);
      list0 := list0 + [r];
      submitted := submitted + [r];
      if waitThreads > 0 {
        workers := Signalled(workers, wake);
      }
      mutex0 := Free;
      if Inv(s) {
        AddKeeps(s, j, r, wake);
      }
    }

    /** `ev_work` up to the call of `work`, or up to its next wait when nothing is pending; it enters at the
        lock, or `resumed` from an earlier wait. */
    method EvWorkFirst(i: nat, resumed: bool, ghost wake: Option<nat>) returns (entry: Option<Req>)
      requires MayEnter(Abs(), i) && (resumed <==> workers[i].Woken?)
      requires SignalOk(Abs(), FirstSignals(Abs(), i), wake)
      modifies this
      ensures Abs() == FirstSection(old(Abs()), i, wake)
      ensures entry == if old(list0) == [] then None else Some(old(list0)[0])
      ensures Inv(old(Abs())) ==> Inv(Abs())
    {
      hide Inv, SignalOk;
      ghost var s := Abs();
      mutex0 := ByWorker(i);
      if resumed {
        waitThreads := waitThreads - 1;
      }
      entry := TakeOrWait(i, wake);
      if Inv(s) {
        FirstKeeps(s, i, wake);
      }
    }

    /** With the mutex held: wait, or take the first request and pass a signal on. */
    method TakeOrWait(i: nat, ghost wake: Option<nat>) returns (entry: Option<Req>)
      requires i < |workers| && mutex0 == ByWorker(i)
      modifies this
      ensures entry == if old(list0) == [] then None else Some(old(list0)[0])
      ensures Abs() == var s := old(Abs());
        if s.pending == [] then
          s.(workers := s.workers[i := Blocked], waitThreads := s.waitThreads + 1, m0 := Free)
        else
          var w := s.workers[i := Work(s.pending[0])];
          s.(pending := s.pending[1..], taken := s.taken + [s.pending[0]], m0 := Free,
             workers := if s.pending[1..] != [] && s.waitThreads > 0 then Signalled(w, wake) else w)
    {
      if list0 == [] {
        waitThreads := waitThreads + 1;
        workers := workers[i := Blocked];
        mutex0 := Free;
        return None;
      }
      var first := list0[0];
      list0 := list0[1..];
      taken, workers := taken + [first], workers[i := Work(first)];
      if list0 != [] && waitThreads > 0 {
        workers := Signalled(workers, wake);
      }
      mutex0 := Free;
      entry := Some(first);
    }

    /** `ev_work` after the call of `work`: onto the done list, and bump the eventfd. */
    method EvWorkComplete(i: nat, entry: Req)
      requires i < |workers| && workers[i] == Lock1(entry) && mutex1 == Free
      modifies this
      ensures Abs() == CompleteSection(old(Abs()), i, entry)
      ensures Inv(old(Abs())) ==> Inv(Abs())
    {
      hide Inv;
      ghost var s := Abs();
      mutex1 := ByWorker(i);
      list1 := list1 + [entry];
      efd, edge := efd + 1, true;
      mutex1 := Free;
      workers := workers[i := Lock0];
      if Inv(s) {
        CompleteKeeps(s, i, entry);
      }
    }

    /** `process_work`: take and destroy until the done list is empty. */
    method ProcessWork()
      requires main == LockDone && mutex1 == Free
      modifies this
      ensures Abs() == DrainSection(old(Abs()))
      ensures Inv(old(Abs())) ==> Inv(Abs())
    {
      hide Inv;
      ghost var s0 := Abs();
      mutex1 := ByMain;
      ghost var s := Abs();
      while list1 != []
        invariant destroyed + list1 == s.destroyed + s.done
        invariant Abs() == s.(done := list1, destroyed := destroyed)
        decreases |list1|
      {
        var entry := list1[0];
        assert list1 == [entry] + list1[1..];
        list1 := list1[1..];
        destroyed := destroyed + [entry];
      }
      mutex1 := Free;
      main := Epoll;
      if Inv(s0) {
        DrainKeeps(s0);
      }
    }
  }
}

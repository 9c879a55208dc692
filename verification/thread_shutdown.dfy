/** When a call that destroys the pool can get past a thread: from which states some run without spurious wake-ups
    ends with the thread released, and with which tasks served. */
module ThreadShutdown {
  import opened Sequences
  import opened ThreadPool

  /** The worker has lost its way: it holds the mutex it is about to lock, or can do nothing else next. */
  predicate Lost(s: State) {
    Wedged(s) || (s.worker.TestEnd? && s.queue == [] && s.status == 0)
  }

  // ---------------------------------------------------------------- runs, piece by piece

  lemma {:induction false} Joined(s: State, a: seq<Action>, t: State, b: seq<Action>, u: State)
    requires Runs(s, a, t) && Runs(t, b, u)
    ensures Runs(s, a + b, u)
    decreases |a|
  {
    hide Enabled, Apply;
    if a == [] {
      assert a + b == b;
    } else {
      assert (a + b)[1..] == a[1..] + b;
      Joined(Apply(s, a[0]), a[1..], t, b, u);
    }
  }

  /** A run of at most `n` steps without spurious wake-ups that adds no task. */
  ghost predicate Quietly(s: State, acts: seq<Action>, t: State, n: nat) {
    && Runs(s, acts, t) && Spurious !in acts && |acts| <= n
    && t.added == s.added && (s.queue == [] ==> t.queue == [])
  }

  lemma QuietJoin(s: State, a: seq<Action>, t: State, b: seq<Action>, u: State, n: nat, m: nat)
    requires Quietly(s, a, t, n) && Quietly(t, b, u, m)
    ensures Quietly(s, a + b, u, n + m)
  {
    hide Runs;
    Joined(s, a, t, b, u);
  }

  lemma QuietNone(s: State)
    ensures Quietly(s, [], s, 0)
  {
  }

  lemma QuietStepOne(s: State, acts: seq<Action>, t: State, n: nat, a: Action) returns (more: seq<Action>, u: State)
    requires Quietly(s, acts, t, n) && Enabled(t, a) && a != Spurious
    requires Apply(t, a).added == t.added && (t.queue == [] ==> Apply(t, a).queue == [])
    ensures more == acts + [a] && u == Apply(t, a) && Quietly(s, more, u, n + 1)
  {
    hide Runs, Apply;
    more, u := Extend(s, acts, t, a);
  }

  lemma DestroyKeeps(t: State)
    requires Enabled(t, Destroy)
    ensures Apply(t, Destroy).added == t.added && (t.queue == [] ==> Apply(t, Destroy).queue == [])
  {
  }

  lemma Destroys(s: State, acts: seq<Action>, t: State) returns (more: seq<Action>, u: State)
    requires Quietly(s, acts, t, |acts|) && Inv(t) && Enabled(t, Destroy)
    ensures more == acts + [Destroy] && u == StepDestroyer(t) && Quietly(s, more, u, |more|) && Inv(u)
  {
    hide Quietly, Inv, StepDestroyer;
    StepInv(t, Destroy);
    DestroyKeeps(t);
    more, u := QuietStepOne(s, acts, t, |acts|, Destroy);
  }

  lemma WorkKeeps(t: State)
    requires Enabled(t, Work)
    ensures Apply(t, Work).added == t.added && (t.queue == [] ==> Apply(t, Work).queue == [])
  {
  }

  lemma Works(s: State, acts: seq<Action>, t: State) returns (more: seq<Action>, u: State)
    requires Quietly(s, acts, t, |acts|) && Inv(t) && Enabled(t, Work)
    ensures more == acts + [Work] && u == StepWorker(t) && Quietly(s, more, u, |more|) && Inv(u)
  {
    hide Quietly, Inv, StepWorker;
    StepInv(t, Work);
    WorkKeeps(t);
    more, u := QuietStepOne(s, acts, t, |acts|, Work);
  }

  // ---------------------------------------------------------------- to the destroyer's loop

  /** The mutex is free and the destroyer is about to lock it again, having cleared the queue. */
  predicate AtLoop(s: State) {
    Inv(s) && s.owner.Free? && s.destroyer.LockAgain?
  }

  /** A worker inside its section comes out of it, by a wait or an unlock. */
  lemma WorkerLeaves(s: State) returns (acts: seq<Action>, t: State)
    requires Inv(s) && s.owner.ByWorker? && !Lost(s)
    ensures Quietly(s, acts, t, 4) && Inv(t) && t.owner.Free? && t.destroyer == s.destroyer
    ensures s.worker.TestWait? && s.queue == [] ==> t.worker.Blocked?
    ensures s.worker.TestEnd? && s.queue == [] ==> t.worker.SignalEnd?
    ensures (s.worker.TestWait? || s.worker.TestEnd?) && s.queue != [] ==> t.worker.Run? && |t.queue| < |s.queue|
    ensures |t.queue| <= |s.queue|
  {
    InSectionFacts(s);
    hide Quietly, Inv, Lost;
    QuietNone(s);
    if s.worker.TestWait? {
      var a, mid := Works(s, [], s);
      if mid.worker.Blocked? {
        acts, t := a, mid;
      } else {
        var b;
        b, t := QueueLeaves(mid);
        QuietJoin(s, a, mid, b, t, 1, 3);
        acts := a + b;
      }
    } else if s.worker.TestEnd? && s.queue != [] {
      acts, t := QueueLeaves(s);
    } else {
      var a, mid := Works(s, [], s);
      if mid.owner.Free? {
        acts, t := a, mid;
      } else {
        acts, t := Works(s, a, mid);
      }
    }
    Within(s, acts, t, 4);
  }

  /** With something queued: past the test, the dequeue and the unlock. */
  lemma QueueLeaves(s: State) returns (acts: seq<Action>, t: State)
    requires Inv(s) && s.owner.ByWorker? && s.worker.TestEnd? && s.queue != []
    ensures Quietly(s, acts, t, 3) && |acts| == 3 && Inv(t) && t.owner.Free? && t.destroyer == s.destroyer
    ensures t.worker.Run? && t.queue == s.queue[1..]
  {
    hide Quietly, Inv;
    QuietNone(s);
    acts, t := Works(s, [], s);
    acts, t := Works(s, acts, t);
    acts, t := Works(s, acts, t);
  }

  lemma InSectionFacts(s: State)
    requires Inv(s) && s.owner.ByWorker? && !Lost(s)
    ensures InSection(s.worker) && (s.worker.Take? ==> s.queue != [])
  {
  }

  lemma Within(s: State, acts: seq<Action>, t: State, n: nat)
    requires Quietly(s, acts, t, |acts|) || Quietly(s, acts, t, n)
    requires |acts| <= n
    ensures Quietly(s, acts, t, n)
  {
  }

  lemma Fresh(q: seq<nat>) returns (x: nat)
    ensures x !in q
    ensures forall y :: y in q ==> y < x
  {
    if q == [] {
      x := 0;
    } else {
      var rest := Fresh(q[1..]);
      x := if rest > q[0] then rest else q[0] + 1;
      assert q == [q[0]] + q[1..];
    }
  }

  /** An adder inside its section comes out of it; if it had yet to link its task, it does so. */
  lemma AdderLeaves(s: State) returns (acts: seq<Action>, t: State)
    requires Inv(s) && s.owner.ByAdder?
    ensures Runs(s, acts, t) && Spurious !in acts && |acts| <= 2
    ensures Inv(t) && t.owner.Free? && t.destroyer == s.destroyer && t.status == s.status && t.worker == s.worker
    ensures s.adders[s.owner.j].UnlockAdd? ==> Quietly(s, acts, t, 2)
  {
    var j := s.owner.j;
    var x := Fresh(s.added);
    acts, t := [], s;
    assert Runs(s, acts, t);
    hide Runs, Quietly;
    if t.adders[j].Link? {
      acts, t := Extend(s, acts, t, Add(j, x));
      StepInv(s, Add(j, x));
    }
    var v := t;
    acts, t := Extend(s, acts, t, Add(j, x));
    StepInv(v, Add(j, x));
    if s.adders[j].UnlockAdd? {
      assert Quietly(s, acts, t, 2) by {
        IsQuiet(s, acts, t);
      }
    }
  }

  lemma IsQuiet(s: State, acts: seq<Action>, t: State)
    requires Runs(s, acts, t) && Spurious !in acts && |acts| <= 2 && t.added == s.added && t.queue == s.queue
    ensures Quietly(s, acts, t, 2)
  {
  }

  /** With the mutex free the destroyer gets to its loop, clearing the queue if it had not. */
  lemma FreeToLoop(s: State) returns (acts: seq<Action>, t: State)
    requires Inv(s) && s.owner.Free?
    ensures Quietly(s, acts, t, |acts|) && |acts| <= 5 && AtLoop(t)
    ensures !Cleared(s.destroyer) ==> t.queue == []
  {
    FreeDestroyer(s);
    acts, t := [], s;
    QuietNone(s);
    hide Quietly, Inv;
    if t.destroyer.NotCalled? {
      acts, t := Destroys(s, acts, t);
    }
    if t.destroyer.LockFirst? {
      acts, t := Destroys(s, acts, t);
      acts, t := Destroys(s, acts, t);
      acts, t := Destroys(s, acts, t);
    }
    if !t.destroyer.LockAgain? {
      acts, t := Destroys(s, acts, t);
    }
  }

  lemma FreeDestroyer(s: State)
    requires Inv(s) && s.owner.Free?
    ensures var d := s.destroyer;
      d.NotCalled? || d.LockFirst? || d.SignalFirst? || d.LockAgain? || d.SignalAgain?
  {
  }

  /** The destroyer, inside its section, comes to its loop again or to its end. */
  lemma DestroyerLeaves(s: State) returns (acts: seq<Action>, t: State)
    requires Inv(s) && s.owner.ByDestroyer?
    ensures Quietly(s, acts, t, |acts|) && |acts| <= 3 && (t.destroyer.Released? || AtLoop(t)) && Inv(t)
    ensures !Cleared(s.destroyer) ==> t.queue == []
    ensures s.status == 2 ==> t.status == 2
  {
    HeldDestroyer(s);
    acts, t := [], s;
    QuietNone(s);
    hide Quietly, Inv;
    if t.destroyer.Clear? || t.destroyer.Check? {
      acts, t := Destroys(s, acts, t);
    }
    if t.destroyer.UnlockFirst? || t.destroyer.UnlockAgain? {
      acts, t := Destroys(s, acts, t);
      acts, t := Destroys(s, acts, t);
    }
  }

  lemma HeldDestroyer(s: State)
    requires Inv(s) && s.owner.ByDestroyer?
    ensures DestroyerIn(s.destroyer) && (s.status == 2 ==> !s.destroyer.Clear?)
  {
  }

  // ---------------------------------------------------------------- from the loop to the end

  function Rank(w: Worker): nat {
    match w
    case Run(_) => 4
    case Lock => 3
    case Blocked => 2
    case Woken => 1
    case _ => 0
  }

  lemma LoopFacts(s: State)
    requires AtLoop(s)
    ensures s.status >= 1 && !InSection(s.worker) && !Wedged(s)
    ensures s.status == 2 <==> s.worker.SignalEnd? || s.worker.Exited?
  {
  }

  /** Two statements when the worker has ended. */
  lemma EndNow(s: State) returns (acts: seq<Action>, t: State)
    requires AtLoop(s) && s.status == 2
    ensures Quietly(s, acts, t, 2) && Inv(t) && t.destroyer.Released?
  {
    acts, t := [], s;
    QuietNone(s);
    hide Quietly, Inv;
    acts, t := Destroys(s, acts, t);
    acts, t := Destroys(s, acts, t);
  }

  /** The worker enters its section and comes out of it. */
  lemma WorkerRound(s: State) returns (acts: seq<Action>, t: State)
    requires AtLoop(s) && (s.worker.Lock? || s.worker.Woken?)
    ensures Quietly(s, acts, t, |acts|) && AtLoop(t)
    ensures if s.queue != [] then t.worker.Run? && |t.queue| < |s.queue|
            else t.queue == [] && if s.worker.Lock? then t.worker.Blocked? else t.worker.SignalEnd?
  {
    LoopFacts(s);
    var mid, rest, first;
    QuietNone(s);
    hide Quietly, Inv;
    first, mid := Works(s, [], s);
    rest, t := WorkerLeaves(mid);
    QuietJoin(s, first, mid, rest, t, 1, 4);
    acts := first + rest;
    assert Quietly(s, acts, t, |acts|) by {
      Exactly(s, acts, t, 5);
    }
    assert s.queue == [] ==> t.queue == [] by {
      KeepsEmpty(s, acts, t, 5);
    }
  }

  lemma Exactly(s: State, acts: seq<Action>, t: State, n: nat)
    requires Quietly(s, acts, t, n)
    ensures Quietly(s, acts, t, |acts|)
  {
  }

  lemma KeepsEmpty(s: State, acts: seq<Action>, t: State, n: nat)
    requires Quietly(s, acts, t, n)
    ensures t.added == s.added && (s.queue == [] ==> t.queue == [])
  {
  }

  /** The destroyer goes round its loop once and signals. */
  lemma DestroyerRound(s: State) returns (acts: seq<Action>, t: State)
    requires AtLoop(s) && s.worker.Blocked?
    ensures Quietly(s, acts, t, |acts|) && AtLoop(t) && t.worker.Woken? && t.queue == s.queue
  {
    LoopFacts(s);
    acts, t := [], s;
    QuietNone(s);
    hide Quietly, Inv;
    acts, t := Destroys(s, acts, t);
    acts, t := Destroys(s, acts, t);
    acts, t := Destroys(s, acts, t);
    acts, t := Destroys(s, acts, t);
  }

  lemma {:induction false} LoopEnds(s: State) returns (acts: seq<Action>, t: State)
    requires AtLoop(s)
    ensures Quietly(s, acts, t, |acts|) && Inv(t) && t.destroyer.Released?
    decreases |s.queue|, Rank(s.worker)
  {
    LoopFacts(s);
    if s.status == 2 {
      acts, t := EndNow(s);
      Exactly(s, acts, t, 2);
    } else {
      var first, mid;
      hide Quietly, Inv;
      if s.worker.Blocked? {
        first, mid := DestroyerRound(s);
      } else if s.worker.Run? {
        assert AtLoop(s);
        QuietNone(s);
        first, mid := Works(s, [], s);
      } else {
        first, mid := WorkerRound(s);
      }
      var rest;
      rest, t := LoopEnds(mid);
      QuietJoin(s, first, mid, rest, t, |first|, |rest|);
      acts := first + rest;
    }
  }

  // ---------------------------------------------------------------- which states can end

  lemma LoopFromHere(s: State) returns (acts: seq<Action>, t: State)
    requires Inv(s) && !Lost(s) && !s.owner.ByAdder?
    ensures Quietly(s, acts, t, |acts|) && |acts| <= 9 && (t.destroyer.Released? || AtLoop(t)) && Inv(t)
    ensures !s.owner.ByWorker? ==> |acts| <= 5
    ensures !Cleared(s.destroyer) ==> t.queue == []
  {
    hide Quietly, Inv, Lost;
    if s.owner.ByDestroyer? {
      acts, t := DestroyerLeaves(s);
    } else if s.owner.Free? {
      acts, t := FreeToLoop(s);
      LoopIsInv(t);
    } else {
      var a, mid := WorkerLeaves(s);
      var b;
      b, t := FreeToLoop(mid);
      QuietJoin(s, a, mid, b, t, 4, |b|);
      acts := a + b;
      Exactly(s, acts, t, 4 + |b|);
      WithinLength(s, a, mid, 4);
      LoopIsInv(t);
    }
  }

  lemma LoopIsInv(t: State)
    requires AtLoop(t)
    ensures Inv(t)
  {
  }

  lemma WithinLength(s: State, acts: seq<Action>, t: State, n: nat)
    requires Quietly(s, acts, t, n)
    ensures |acts| <= n && Runs(s, acts, t) && Spurious !in acts
  {
  }

  /** From a state that is not lost, with no adder in its section, the call ends quietly. */
  lemma EndsQuietly(s: State) returns (acts: seq<Action>, t: State)
    requires Inv(s) && !Lost(s) && !s.owner.ByAdder?
    ensures Quietly(s, acts, t, |acts|) && Inv(t) && t.destroyer.Released?
    ensures !Cleared(s.destroyer) ==> t.queue == []
  {
    hide Quietly, Inv, Lost;
    var a, mid := LoopFromHere(s);
    if mid.destroyer.Released? {
      acts, t := a, mid;
    } else {
      var b;
      b, t := LoopEnds(mid);
      QuietJoin(s, a, mid, b, t, |a|, |b|);
      acts := a + b;
      KeepsEmpty(mid, b, t, |b|);
    }
  }

  /** Wherever it is not lost, the thread can still be released. */
  lemma Releases(s: State) returns (acts: seq<Action>, t: State)
    requires Inv(s) && !Lost(s)
    ensures Runs(s, acts, t) && Spurious !in acts && t.destroyer.Released?
  {
    hide Quietly, Inv, Runs;
    if s.owner.ByAdder? {
      var a, mid := AdderLeaves(s);
      FreeIsFound(mid);
      var b;
      b, t := EndsQuietly(mid);
      WithinLength(mid, b, t, |b|);
      Joined(s, a, mid, b, t);
      acts := a + b;
    } else {
      acts, t := EndsQuietly(s);
      WithinLength(s, acts, t, |acts|);
    }
  }

  lemma FreeIsFound(s: State)
    requires Inv(s) && s.owner.Free?
    ensures !Lost(s)
  {
  }

  /** A lost worker is lost for good: the call never gets past its thread. */
  lemma {:induction false} LostForever(s: State, acts: seq<Action>, t: State)
    requires Inv(s) && Lost(s) && Runs(s, acts, t)
    ensures Lost(t) && !Cleared(t.destroyer)
    decreases |acts|
  {
    if acts == [] {
      LostNotCleared(s);
    } else {
      StepInv(s, acts[0]);
      LostStep(s, acts[0]);
      hide Inv, Lost, Apply, Enabled;
      LostForever(Apply(s, acts[0]), acts[1..], t);
    }
  }

  lemma LostNotCleared(s: State)
    requires Inv(s) && Lost(s)
    ensures !Cleared(s.destroyer)
  {
  }

  lemma LostStep(s: State, a: Action)
    requires Inv(s) && Lost(s) && Enabled(s, a)
    ensures Lost(Apply(s, a))
  {
    hide QueueInv;
  }

  /** From a reachable state some run without spurious wake-ups ends the call for this thread exactly when the worker
      is not lost: not locked out of its own mutex, and not back from a wait with nothing queued and `status` 0. */
  lemma ReleasableIff(s: State, before: seq<Action>, m: State)
    requires Init(s) && Runs(s, before, m)
    ensures (exists acts, t :: Runs(m, acts, t) && Spurious !in acts && t.destroyer.Released?) <==> !Lost(m)
  {
    InitInv(s);
    RunInv(s, before, m);
    hide Inv, Lost;
    if Lost(m) {
      forall acts, t | Runs(m, acts, t) ensures !t.destroyer.Released? {
        LostForever(m, acts, t);
      }
    } else {
      var acts, t := Releases(m);
      assert Runs(m, acts, t) && Spurious !in acts && t.destroyer.Released?;
    }
  }

  /** Once `status` is 2 at most ten statements end it, in a run without spurious wake-ups. */
  lemma TwoEndsSoon(s: State, before: seq<Action>, m: State) returns (acts: seq<Action>, t: State)
    requires Init(s) && Runs(s, before, m) && m.status == 2
    ensures Runs(m, acts, t) && Spurious !in acts && |acts| <= 10 && t.destroyer.Released?
  {
    InitInv(s);
    RunInv(s, before, m);
    TwoIsFound(m);
    hide Quietly, Inv, Runs, Lost;
    var a, mid := [], m;
    if m.owner.ByAdder? {
      a, mid := AdderLeaves(m);
      var b;
      b, t := EndsFromTwo(mid);
      Joined(m, a, mid, b, t);
      acts := a + b;
    } else {
      acts, t := EndsFromTwo(m);
    }
  }

  lemma TwoIsFound(s: State)
    requires Inv(s) && s.status == 2
    ensures !Lost(s)
  {
  }

  lemma EndsFromTwo(s: State) returns (acts: seq<Action>, t: State)
    requires Inv(s) && s.status == 2 && !s.owner.ByAdder?
    ensures Runs(s, acts, t) && Spurious !in acts && |acts| <= 8 && t.destroyer.Released?
  {
    TwoIsFound(s);
    hide Quietly, Inv, Lost, Runs;
    var a, mid := TwoToLoop(s);
    WithinLength(s, a, mid, |a|);
    if mid.destroyer.Released? {
      acts, t := a, mid;
    } else {
      TwoIsFinal(s, a, mid);
      var b;
      b, t := EndNow(mid);
      WithinLength(mid, b, t, 2);
      Joined(s, a, mid, b, t);
      acts := a + b;
    }
  }

  /** With `status` 2 the worker has only its unlock before it. */
  lemma TwoToLoop(s: State) returns (acts: seq<Action>, t: State)
    requires Inv(s) && s.status == 2 && !s.owner.ByAdder?
    ensures Quietly(s, acts, t, |acts|) && |acts| <= 6 && (t.destroyer.Released? || AtLoop(t)) && Inv(t)
  {
    TwoIsFound(s);
    if s.owner.ByWorker? {
      assert s.worker.UnlockEnd?;
      QuietNone(s);
      hide Quietly, Inv, Lost;
      var a, mid := Works(s, [], s);
      var b;
      b, t := FreeToLoop(mid);
      QuietJoin(s, a, mid, b, t, 1, |b|);
      acts := a + b;
      LoopIsInv(t);
    } else {
      hide Quietly, Inv, Lost;
      acts, t := LoopFromHere(s);
    }
  }

  // ---------------------------------------------------------------- a whole life

  /** The tasks `q` are queued, and nothing else has happened. */
  predicate Queued(s: State, q: seq<nat>) {
    && Inv(s) && s.owner.Free? && s.worker.Lock? && s.destroyer.NotCalled? && s.left == []
    && (forall j :: 0 <= j < |s.adders| ==> s.adders[j].Outside?) && s.added == q
  }

  lemma QueueOne(s: State, q: seq<nat>, j: nat, x: nat) returns (acts: seq<Action>, t: State)
    requires Queued(s, q) && x !in q && j < |s.adders|
    ensures Runs(s, acts, t) && Spurious !in acts && Queued(t, q + [x]) && |t.adders| == |s.adders|
  {
    var a := Add(j, x);
    acts, t := [], s;
    assert Runs(s, acts, t);
    hide Runs, Inv;
    StepInv(t, a);
    acts, t := Extend(s, acts, t, a);
    StepInv(t, a);
    acts, t := Extend(s, acts, t, a);
    StepInv(t, a);
    acts, t := Extend(s, acts, t, a);
    StepInv(t, a);
    acts, t := Extend(s, acts, t, a);
  }

  lemma QueuedNone(s: State)
    requires Init(s)
    ensures Queued(s, []) && Runs(s, [], s)
  {
    InitInv(s);
  }

  lemma {:induction false} QueueAll(s: State, q: seq<nat>, adder: seq<nat>) returns (acts: seq<Action>, t: State)
    requires Init(s) && Distinct(q) && |adder| == |q| && forall i :: 0 <= i < |adder| ==> adder[i] < |s.adders|
    ensures Runs(s, acts, t) && Spurious !in acts && Queued(t, q) && |t.adders| == |s.adders|
    decreases |q|
  {
    if q == [] {
      acts, t := [], s;
      QueuedNone(s);
    } else {
      hide Runs, Init, Queued, Inv;
      var rest, x := q[..|q| - 1], q[|q| - 1];
      var a, mid := QueueAll(s, rest, adder[..|q| - 1]);
      var b;
      b, t := QueueOne(mid, rest, adder[|q| - 1], x);
      Joined(s, a, mid, b, t);
      acts := a + b;
      assert q == rest + [x];
    }
  }

  /** For any tasks, each added by any of the callers, there is a run without spurious wake-ups that adds them and
      releases the thread, with every one of them dequeued or freed. */
  lemma WholeLife(s: State, q: seq<nat>, adder: seq<nat>) returns (acts: seq<Action>, t: State)
    requires Init(s) && Distinct(q) && |adder| == |q| && forall i :: 0 <= i < |adder| ==> adder[i] < |s.adders|
    ensures Runs(s, acts, t) && Spurious !in acts && t.destroyer.Released?
    ensures t.added == q && t.queue == [] && Tasks(t.left) == q
  {
    var a, mid := QueueAll(s, q, adder);
    QueuedFacts(mid, q);
    hide Runs, Inv, Quietly, Lost, Init;
    var b;
    b, t := EndsQuietly(mid);
    KeepsEmpty(mid, b, t, |b|);
    WithinLength(mid, b, t, |b|);
    Joined(s, a, mid, b, t);
    acts := a + b;
    AllLeft(t);
  }

  lemma QueuedFacts(s: State, q: seq<nat>)
    requires Queued(s, q)
    ensures Inv(s) && !Lost(s) && !s.owner.ByAdder? && !Cleared(s.destroyer) && s.added == q
  {
  }

  lemma AllLeft(t: State)
    requires Inv(t) && t.queue == []
    ensures Tasks(t.left) == t.added
  {
    assert Tasks(t.left) + [] == Tasks(t.left);
  }

  /** The call clears the empty queue and signals: the waiting worker wakes up. */
  lemma FirstSignal(s: State) returns (acts: seq<Action>, t: State)
    requires Inv(s) && s.worker.Blocked? && s.queue == [] && s.owner.Free? && s.destroyer.NotCalled?
    ensures acts == [Destroy, Destroy, Destroy, Destroy, Destroy] && Quietly(s, acts, t, 5)
    ensures Inv(t) && t.worker.Woken? && t.queue == [] && t.owner.Free? && t.destroyer.LockAgain? && t.left == s.left
    ensures t.status == 1
  {
    acts, t := [], s;
    QuietNone(s);
    StatusZero(s);
    hide Quietly, Inv;
    acts, t := Destroys(s, acts, t);
    acts, t := Destroys(s, acts, t);
    acts, t := Destroys(s, acts, t);
    acts, t := Destroys(s, acts, t);
    acts, t := Destroys(s, acts, t);
    assert t.left == s.left + Freed([]) == s.left;
  }

  lemma WokenEnds(s: State) returns (acts: seq<Action>, t: State)
    requires Inv(s) && s.worker.Woken? && s.queue == [] && s.owner.Free? && s.destroyer.LockAgain? && s.status == 1
    ensures acts == [Work, Work, Work, Destroy, Destroy] && Quietly(s, acts, t, 5)
    ensures t.destroyer.Released? && t.left == s.left
  {
    acts, t := [], s;
    QuietNone(s);
    hide Quietly, Inv;
    acts, t := Works(s, acts, t);
    acts, t := Works(s, acts, t);
    acts, t := Works(s, acts, t);
    acts, t := Destroys(s, acts, t);
    acts, t := Destroys(s, acts, t);
  }

  /** A worker that waits with nothing queued is ended by the first signal of the call: ten statements. */
  lemma FirstSignalEnds(s: State) returns (t: State)
    requires Inv(s) && s.worker.Blocked? && s.queue == [] && s.owner.Free? && s.destroyer.NotCalled?
    ensures Runs(s, [Destroy, Destroy, Destroy, Destroy, Destroy, Work, Work, Work, Destroy, Destroy], t)
    ensures t.destroyer.Released? && t.left == s.left
  {
    hide Quietly, Inv, Runs;
    var a, mid := FirstSignal(s);
    var b;
    b, t := WokenEnds(mid);
    WithinLength(s, a, mid, 5);
    WithinLength(mid, b, t, 5);
    Joined(s, a, mid, b, t);
    assert a + b == [Destroy, Destroy, Destroy, Destroy, Destroy, Work, Work, Work, Destroy, Destroy];
  }

  lemma StatusZero(s: State)
    requires Inv(s) && s.worker.Blocked? && s.destroyer.NotCalled?
    ensures s.status == 0
  {
  }
}

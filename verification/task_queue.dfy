/** The task chain of one `ev_thread_info` in `ev_thread_pool.cc`, on the heap.

    Each method is one stretch of code that runs with the mutex held. */
module TaskQueue {
  import opened Sequences

  class TaskInfo {
    const arg: nat
    var next: TaskInfo?

    constructor (arg: nat)
      ensures this.arg == arg && next == null
    {
      this.arg := arg;
      next := null;
    }
  }

  class ThreadInfo {
    /** 0 while running, 1 once the pool is being destroyed, 2 once the thread has ended as well. */
    var status: int
    var head: TaskInfo?
    var tail: TaskInfo?
    ghost var chain: seq<TaskInfo>

    ghost predicate Valid()
      reads this, chain
    {
      && Distinct(chain)
      && (chain == [] ==> head == null && tail == null)
      && (chain != [] ==> head == chain[0] && tail == chain[|chain| - 1] && chain[|chain| - 1].next == null)
      && (forall i :: 0 <= i < |chain| - 1 ==> chain[i].next == chain[i + 1])
    }

    /** The arguments of the queued tasks, first to leave first. */
    ghost function Contents(): (q: seq<nat>)
      reads this, chain
    {
      seq(|chain|, i requires 0 <= i < |chain| reads this, chain => chain[i].arg)
    }

    constructor ()
      ensures Valid() && Contents() == [] && status == 0
    {
      status := 0;
      head, tail := null, null;
      chain := [];
    }

    /** The locked part of `ev_task_info_add`. */
    method Add(arg: nat)
      requires Valid()
      modifies this, tail
      ensures Valid() && status == old(status)
      ensures Contents() == old(Contents()) + [arg]
    {
      var task := new TaskInfo(arg);
      if head == null {
        head := task;
        tail := task;
      } else {
        tail.next := task;
        tail := task;
      }
      chain := chain + [task];
    }

    /** The worker's dequeue in `ev_task_info_func`. */
    method Take() returns (task: TaskInfo)
      requires Valid() && head != null
      modifies this
      ensures Valid() && status == old(status)
      ensures old(Contents()) == [task.arg] + Contents() && task == old(head)
    {
      task := head;
      if head == tail {
        assert |chain| == 1 by {
          assert chain[0] == chain[|chain| - 1];
        }
        head := null;
        tail := null;
      } else {
        head := head.next;
      }
      chain := chain[1..];
    }

    /** What `ev_thread_pool_destroy` does to each thread; `freed` are the tasks it frees, in order. */
    method Destroy() returns (freed: seq<nat>)
      requires Valid()
      modifies this
      ensures Valid() && status == old(status) + 1
      ensures freed == old(Contents()) && Contents() == []
    {
      status := status + 1;
      freed := [];
      var task := head;
      ghost var k := 0;
      while task != null
        invariant Valid() && chain == old(chain) && status == old(status) + 1
        invariant k <= |chain| && task == (if k < |chain| then chain[k] else null)
        invariant freed == Contents()[..k]
        decreases |chain| - k
      {
        var prev := task;
        task := task.next;
        freed := freed + [prev.arg];
        k := k + 1;
      }
      head := null;
      tail := null;
      chain := [];
    }
  }
}

/** `struct ev_thread_info` in step with the machine: where a step of module ThreadPool changes the queue, the
    chain on the heap goes through the same change. */
module ThreadObject {
  import opened TaskQueue
  import opened ThreadPool

  /** The chain holds the queue of `s`, and the status is its status. */
  ghost predicate Represents(info: ThreadInfo, s: State)
    reads info, info.chain
  {
    info.Valid() && info.Contents() == s.queue && info.status == s.status
  }

  /** An adder at its link statement. */
  method LinkStep(info: ThreadInfo, j: nat, task: nat, ghost s: State)
    requires Represents(info, s) && Enabled(s, Add(j, task)) && s.adders[j].Link?
    modifies info, info.tail
    ensures Represents(info, StepAdder(s, j, task))
  {
    info.Add(task);
  }

  /** The worker at its dequeue; the node it takes is the task it will run. */
  method TakeStep(info: ThreadInfo, ghost s: State) returns (task: TaskInfo)
    requires Represents(info, s) && WorkerEnabled(s) && s.worker.Take?
    modifies info
    ensures Represents(info, StepWorker(s)) && StepWorker(s).worker == Unlock(task.arg)
  {
    task := info.Take();
  }

  /** The worker at its test for an empty queue, with the mutex held. */
  method EndStep(info: ThreadInfo, ghost s: State) returns (leaves: bool)
    requires Represents(info, s) && WorkerEnabled(s) && s.worker.TestEnd?
    modifies info`status
    ensures Represents(info, StepWorker(s)) && (leaves <==> StepWorker(s).worker.UnlockEnd?)
  {
    leaves := info.head == null && info.status != 0;
    if leaves {
      info.status := info.status + 1;
    }
  }

  /** The destroyer clearing the queue; it frees what the machine records as freed. */
  method ClearStep(info: ThreadInfo, ghost s: State) returns (freed: seq<nat>)
    requires Represents(info, s) && Enabled(s, Destroy) && s.destroyer.Clear?
    modifies info
    ensures Represents(info, StepDestroyer(s)) && StepDestroyer(s).left == s.left + Freed(freed)
  {
    freed := info.Destroy();
  }
}

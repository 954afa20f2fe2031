/** Powering the VM off before the export. */
module PowerOff {
  import opened Entities

  /** The power-off poll stops at these task states. */
  predicate IsTerminal(state: TaskState)
  {
    state == TaskSuccess || state == TaskError
  }

  /** The poll `while task.info.state not in [success, error]:
      time.sleep(1)` over successive reads of the task state. The source
      bounds neither the number of reads nor the time, so it ends only if
      some read is terminal; that is what the precondition says. The
      result is the number of sleeps, which is also the index of the first
      terminal read. Which terminal state it is does not matter to the
      caller. */
  method AwaitPowerOff(taskStates: nat -> TaskState) returns (sleeps: nat)
    requires exists k: nat :: IsTerminal(taskStates(k))
    ensures IsTerminal(taskStates(sleeps))
    ensures forall j :: 0 <= j < sleeps ==> !IsTerminal(taskStates(j))
  {
    ghost var k: nat :| IsTerminal(taskStates(k));
    sleeps := 0;
    while !IsTerminal(taskStates(sleeps))
      invariant sleeps <= k
      invariant forall j :: 0 <= j < sleeps ==> !IsTerminal(taskStates(j))
      decreases k - sleeps
    {
      sleeps := sleeps + 1;
    }
  }
}

/** What the shell does to the job list when a child changes state:
    `waitfg`, which waits for the foreground job, `sigchld_handler`, which
    reaps every child that has changed state, and `sigtstp_handler`, which
    stops the foreground job.

    The status `waitpid` reports is a parameter: a child that exited, was
    killed by a signal, was stopped by a signal, or none of these. Exited and
    killed children are deleted from the list; a stopped child's job is marked
    stopped. The branch for a stopped child dereferences the job found for its
    pid, so the model requires that job to exist (see CanApply). */
module Signals {
  import opened Wrappers
  import opened Jobs
  import opened JobTable

  /** The four branches on the status `waitpid` reports: WIFEXITED,
      WIFSIGNALED, WIFSTOPPED, and none of them. */
  datatype ChildStatus = ExitedNormally | TerminatedBySignal | StoppedBySignal | Unrecognised

  /** One result of `waitpid`: the pid it returned and the status it set. */
  datatype Reaped = Reaped(pid: int, status: ChildStatus)

  /** A child that exited or was killed is gone: its job is deleted. */
  predicate Finished(status: ChildStatus) {
    status == ExitedNormally || status == TerminatedBySignal
  }

  /** The stop branch dereferences the job found for the pid: it must exist. */
  ghost predicate CanApply(t: Table, pid: int, status: ChildStatus) {
    status == StoppedBySignal ==> FindPid(t.slots, pid).Some?
  }

  /** Every occupied slot of `after` holds the pid the same slot held in
      `before`: jobs may leave the list, but none arrives or moves. */
  ghost predicate Shrinks(after: seq<Job>, before: seq<Job>) {
    |after| == |before| &&
    forall j :: 0 <= j < |after| && after[j].pid != 0 ==> after[j].pid == before[j].pid
  }

  /** The list once the status of child `pid` has been handled. */
  function ApplyStatus(t: Table, pid: int, status: ChildStatus): (r: Table)
    requires CanApply(t, pid, status)
    ensures Shrinks(r.slots, t.slots)
    ensures status == Unrecognised ==> r == t
    ensures Finished(status) && pid >= 1 && DistinctPids(t.slots) ==>
              forall j :: 0 <= j < |r.slots| ==> r.slots[j].pid != pid
    ensures status == StoppedBySignal ==>
              var i := FindPid(t.slots, pid).value;
              r.slots[i] == t.slots[i].(state := Stopped) &&
              forall j :: 0 <= j < |t.slots| && j != i ==> r.slots[j] == t.slots[j]
  {
    match status
    case ExitedNormally => Delete(t, pid).0
    case TerminatedBySignal => Delete(t, pid).0
    case StoppedBySignal => SetState(t, FindPid(t.slots, pid).value, Stopped)
    case Unrecognised => t
  }

  /** Whether every status the handler loop reaches can be handled. */
  ghost predicate CanReap(t: Table, waits: seq<Reaped>)
    decreases |waits|
  {
    waits == [] || waits[0].pid <= 0 ||
    (CanApply(t, waits[0].pid, waits[0].status) &&
     CanReap(ApplyStatus(t, waits[0].pid, waits[0].status), waits[1..]))
  }

  /** The list once the handler loop has handled the results of `waitpid` in
      order; the loop stops at the first result that is not a pid. */
  function Reap(t: Table, waits: seq<Reaped>): (r: Table)
    requires CanReap(t, waits)
    ensures |r.slots| == |t.slots|
    ensures (forall k :: 0 <= k < |waits| ==> waits[k].status == Unrecognised) ==> r == t
    ensures Handled(waits) == 0 ==> r == t
    decreases |waits|
  {
    if waits == [] || waits[0].pid <= 0 then t
    else Reap(ApplyStatus(t, waits[0].pid, waits[0].status), waits[1..])
  }

  /** How many results the handler loop handles. */
  function Handled(waits: seq<Reaped>): (n: nat)
    ensures n <= |waits|
    ensures forall k :: 0 <= k < n ==> waits[k].pid > 0
    ensures n == |waits| || waits[n].pid <= 0
    decreases |waits|
  {
    if waits == [] || waits[0].pid <= 0 then 0 else 1 + Handled(waits[1..])
  }

  lemma ForegroundJobIsListed(s: seq<Job>)
    requires FgPid(s) > 0
    ensures FindPid(s, FgPid(s)).Some?
  {
  }

  /** The list once `sigtstp_handler` has run: the foreground job, found by
      its pid, is marked stopped; with no foreground job nothing changes. */
  function Tstp(t: Table): (r: Table)
    ensures FgPid(t.slots) <= 0 ==> r == t
    ensures Shrinks(r.slots, t.slots)
  {
    var fg := FgPid(t.slots);
    if fg > 0 then
      ForegroundJobIsListed(t.slots);
      SetState(t, FindPid(t.slots, fg).value, Stopped)
    else t
  }

  // ---------------------------------------------------------------------
  // Methods over the job list

  /** The branch on the status shared by `waitfg` and `sigchld_handler`. */
  method HandleStatus(t: JobList, pid: int, status: ChildStatus)
    requires t.Valid() && CanApply(t.Abs(), pid, status)
    modifies t, t.jobs
    ensures t.Valid()
    ensures t.Abs() == ApplyStatus(old(t.Abs()), pid, status)
  {
    match status
    case ExitedNormally =>
      var deleted := t.DeleteJob(pid);
    case TerminatedBySignal =>
      var deleted := t.DeleteJob(pid);
    case StoppedBySignal =>
      var job := t.GetJobPid(pid);
      t.jobs[job.value] := t.jobs[job.value].(state := Stopped);
    case Unrecognised =>
  }

  /** `waitfg`: one blocking `waitpid` for the pid it is given. That pid only
      selects what `waitpid` reports, so it is not a parameter here:
      `reported` is None when `waitpid` fails (returns -1), and otherwise the
      pid `waitpid` returned (`signalingPID`) with the status it set. The
      status is applied to the returned pid, which for the -1 that `eval`
      passes after a failed `fork` can be any child. */
  method WaitFg(t: JobList, reported: Option<Reaped>)
    requires t.Valid()
    requires reported.Some? ==> CanApply(t.Abs(), reported.value.pid, reported.value.status)
    modifies t, t.jobs
    ensures t.Valid()
    ensures reported.None? ==> t.Abs() == old(t.Abs())
    ensures reported.Some? ==>
              t.Abs() == ApplyStatus(old(t.Abs()), reported.value.pid, reported.value.status)
  {
    if reported.None? {
      return;
    }
    var signalingPid := reported.value.pid;
    HandleStatus(t, signalingPid, reported.value.status);
  }

  /** `sigchld_handler`: handles the results of successive non-blocking
      `waitpid` calls until one is not a pid. */
  method SigchldHandler(t: JobList, waits: seq<Reaped>)
    requires t.Valid() && CanReap(t.Abs(), waits)
    modifies t, t.jobs
    ensures t.Valid()
    ensures t.Abs() == Reap(old(t.Abs()), waits)
  {
    var i := 0;
    while i < |waits| && waits[i].pid > 0
      invariant 0 <= i <= |waits|
      invariant t.Valid()
      invariant CanReap(t.Abs(), waits[i..])
      invariant Reap(t.Abs(), waits[i..]) == Reap(old(t.Abs()), waits)
      decreases |waits| - i
    {
      assert waits[i..][1..] == waits[i + 1..];
      HandleStatus(t, waits[i].pid, waits[i].status);
      i := i + 1;
    }
  }

  /** `sigtstp_handler`: returns the pid SIGTSTP is forwarded to (0 when no
      job is in the foreground) and marks that job stopped. */
  method SigtstpHandler(t: JobList) returns (stopped: int)
    requires t.Valid()
    modifies t.jobs
    ensures stopped == (if FgPid(old(t.jobs[..])) > 0 then FgPid(old(t.jobs[..])) else 0)
    ensures t.Abs() == Tstp(old(t.Abs()))
  {
    var fg := t.FgPid();
    if fg > 0 {
      ForegroundJobIsListed(t.jobs[..]);
      var job := t.GetJobPid(fg);
      t.jobs[job.value] := t.jobs[job.value].(state := Stopped);
      stopped := fg;
    } else {
      stopped := 0;
    }
  }

  // ---------------------------------------------------------------------
  // Properties

  /** Handling a status keeps the list's invariants. */
  lemma ApplyStatusPreserves(t: Table, pid: int, status: ChildStatus)
    requires WellFormed(t) && CanApply(t, pid, status)
    ensures WellFormed(ApplyStatus(t, pid, status))
    ensures DistinctPids(t.slots) ==> DistinctPids(ApplyStatus(t, pid, status).slots)
    ensures DistinctJids(t.slots) ==> DistinctJids(ApplyStatus(t, pid, status).slots)
    ensures AtMostOneForeground(t.slots) ==> AtMostOneForeground(ApplyStatus(t, pid, status).slots)
    ensures JidsBelowCounter(t) ==> JidsBelowCounter(ApplyStatus(t, pid, status))
  {
    match status
    case ExitedNormally => DeletePreserves(t, pid);
    case TerminatedBySignal => DeletePreserves(t, pid);
    case StoppedBySignal => SetStatePreserves(t, FindPid(t.slots, pid).value, Stopped);
    case Unrecognised =>
  }

  /** The handler loop keeps the list's invariants, however many children it
      reaps. */
  lemma {:induction false} ReapPreserves(t: Table, waits: seq<Reaped>)
    requires WellFormed(t) && CanReap(t, waits)
    ensures WellFormed(Reap(t, waits))
    ensures DistinctPids(t.slots) ==> DistinctPids(Reap(t, waits).slots)
    ensures DistinctJids(t.slots) ==> DistinctJids(Reap(t, waits).slots)
    ensures AtMostOneForeground(t.slots) ==> AtMostOneForeground(Reap(t, waits).slots)
    ensures JidsBelowCounter(t) ==> JidsBelowCounter(Reap(t, waits))
    decreases |waits|
  {
    if waits != [] && waits[0].pid > 0 {
      ApplyStatusPreserves(t, waits[0].pid, waits[0].status);
      ReapPreserves(ApplyStatus(t, waits[0].pid, waits[0].status), waits[1..]);
    }
  }

  /** The handler loop never adds a job or moves one to another slot. */
  lemma {:induction false} ReapShrinks(t: Table, waits: seq<Reaped>)
    requires CanReap(t, waits)
    ensures Shrinks(Reap(t, waits).slots, t.slots)
    decreases |waits|
  {
    if waits != [] && waits[0].pid > 0 {
      var t1 := ApplyStatus(t, waits[0].pid, waits[0].status);
      ReapShrinks(t1, waits[1..]);
    }
  }

  /** Every child the handler loop reaps as exited or killed has left the
      list by the time the handler returns. */
  lemma {:induction false} ReapRemovesFinished(t: Table, waits: seq<Reaped>)
    requires WellFormed(t) && DistinctPids(t.slots) && CanReap(t, waits)
    ensures forall k, j :: 0 <= k < Handled(waits) && Finished(waits[k].status) &&
                           0 <= j < |Reap(t, waits).slots| ==>
              Reap(t, waits).slots[j].pid != waits[k].pid
    decreases |waits|
  {
    if waits != [] && waits[0].pid > 0 {
      var t1 := ApplyStatus(t, waits[0].pid, waits[0].status);
      var rest := waits[1..];
      ApplyStatusPreserves(t, waits[0].pid, waits[0].status);
      ReapRemovesFinished(t1, rest);
      ReapShrinks(t1, rest);
      var r := Reap(t, waits);
      assert r == Reap(t1, rest);
      forall k, j | 0 <= k < Handled(waits) && Finished(waits[k].status) && 0 <= j < |r.slots|
        ensures r.slots[j].pid != waits[k].pid
      {
        if k == 0 {
          if r.slots[j].pid != 0 {
            assert r.slots[j].pid == t1.slots[j].pid;
          }
        } else {
          assert waits[k] == rest[k - 1];
        }
      }
    }
  }

  /** The other half: a job that no handled result reports as exited or
      killed is still in its slot when the handler returns. */
  lemma {:induction false} ReapKeepsUnreported(t: Table, waits: seq<Reaped>, j: nat)
    requires WellFormed(t) && DistinctPids(t.slots) && CanReap(t, waits)
    requires j < |t.slots| && t.slots[j].pid != 0
    requires forall k :: 0 <= k < Handled(waits) && Finished(waits[k].status) ==>
               waits[k].pid != t.slots[j].pid
    ensures Reap(t, waits).slots[j].pid == t.slots[j].pid
    decreases |waits|
  {
    if waits != [] && waits[0].pid > 0 {
      var t1 := ApplyStatus(t, waits[0].pid, waits[0].status);
      ApplyStatusPreserves(t, waits[0].pid, waits[0].status);
      if Finished(waits[0].status) {
        DeleteSpec(t, waits[0].pid);
      }
      assert t1.slots[j].pid == t.slots[j].pid;
      forall k | 0 <= k < Handled(waits[1..]) && Finished(waits[1..][k].status)
        ensures waits[1..][k].pid != t1.slots[j].pid
      {
        assert waits[1..][k] == waits[k + 1];
      }
      ReapKeepsUnreported(t1, waits[1..], j);
    }
  }

  /** After ctrl-z, with distinct pids and at most one foreground job, no job
      is left in the foreground and the one that was is stopped; every other
      slot is unchanged. */
  lemma TstpStopsForeground(t: Table)
    requires WellFormed(t) && DistinctPids(t.slots) && AtMostOneForeground(t.slots)
    requires FgPid(t.slots) > 0
    ensures FgPid(Tstp(t).slots) == 0
    ensures forall j :: 0 <= j < |t.slots| ==>
              if t.slots[j].state == Foreground
              then Tstp(t).slots[j] == t.slots[j].(state := Stopped)
              else Tstp(t).slots[j] == t.slots[j]
  {
    var fg := FgPid(t.slots);
    var k :| 0 <= k < |t.slots| && t.slots[k].state == Foreground && t.slots[k].pid == fg;
    var i := FindPid(t.slots, fg).value;
    assert i == k;
    var s := Tstp(t).slots;
    forall j | 0 <= j < |s| ensures s[j].state != Foreground {
      if j < k {
        assert t.slots[j].state != Foreground;
      } else if j > k {
        assert t.slots[j].state != Foreground;
      }
    }
  }

  /** Handling the stop of the foreground job leaves no job in the
      foreground, as ctrl-z does. */
  lemma StopOfForegroundJob(t: Table, pid: int)
    requires WellFormed(t) && DistinctPids(t.slots) && AtMostOneForeground(t.slots)
    requires pid >= 1 && pid == FgPid(t.slots)
    ensures CanApply(t, pid, StoppedBySignal)
    ensures ApplyStatus(t, pid, StoppedBySignal) == Tstp(t)
  {
    ForegroundJobIsListed(t.slots);
  }
}

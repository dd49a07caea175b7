/** The job list as the shell keeps it: a fixed array of MAXJOBS slots and the
    `nextjid` counter, changed in place by the job-list helper routines. Each
    method is proved to do what the matching function of module Jobs says. */
module JobTable {
  import opened Wrappers
  import opened Jobs

  class JobList {
    /** The slots (`jobs`); the array itself is never replaced. */
    const jobs: array<Job>
    /** The next job ID to allocate (`nextjid`). */
    var nextjid: int

    ghost predicate Valid()
      reads this
    {
      jobs.Length == MAXJOBS
    }

    /** The list as a value. */
    ghost function Abs(): Table
      reads this, jobs
    {
      Table(jobs[..], nextjid)
    }

    /** The list at start-up: `nextjid` is 1 and `initjobs` clears every slot. */
    constructor ()
      ensures Valid() && fresh(jobs)
      ensures Abs() == Empty
    {
      jobs := new Job[MAXJOBS];
      nextjid := 1;
      new;
      InitJobs();
    }

    /** `clearjob`: empties slot `i`. */
    method ClearJob(i: nat)
      requires Valid() && i < MAXJOBS
      modifies jobs
      ensures jobs[..] == old(jobs[..])[i := Cleared]
    {
      jobs[i] := Cleared;
    }

    /** `initjobs`: clears every slot. */
    method InitJobs()
      requires Valid()
      modifies jobs
      ensures jobs[..] == Empty.slots
    {
      for i := 0 to MAXJOBS
        invariant forall k :: 0 <= k < i ==> jobs[k] == Cleared
      {
        ClearJob(i);
      }
      assert jobs[..] == Empty.slots;
    }

    /** `maxjid`. */
    method MaxJid() returns (max: int)
      requires Valid()
      ensures max == Jobs.MaxJid(jobs[..])
    {
      max := 0;
      for i := 0 to MAXJOBS
        invariant max == Jobs.MaxJid(jobs[..i])
      {
        assert jobs[..i + 1][..i] == jobs[..i];
        if jobs[i].jid > max {
          max := jobs[i].jid;
        }
      }
      assert jobs[..MAXJOBS] == jobs[..];
    }

    /** `addjob`: puts the job in the lowest free slot with job ID `nextjid`. */
    method AddJob(pid: int, state: JobState, cmdline: string) returns (r: int)
      requires Valid()
      modifies this, jobs
      ensures (Abs(), r) == Add(old(Abs()), pid, state, cmdline)
    {
      if pid < 1 {
        return 0;
      }
      for i := 0 to MAXJOBS
        invariant forall k :: 0 <= k < i ==> jobs[k].pid != 0
        invariant jobs[..] == old(jobs[..]) && nextjid == old(nextjid)
      {
        if jobs[i].pid == 0 {
          jobs[i] := Job(pid, nextjid, state, cmdline);
          nextjid := nextjid + 1;
          if nextjid > MAXJOBS {
            nextjid := 1;
          }
          assert FirstFree(old(jobs[..])) == Some(i);
          return 1;
        }
      }
      return 0;
    }

    /** `deletejob`: clears the first slot holding `pid` and recomputes
        `nextjid` from the job IDs that remain. Its search (the `pid < 1`
        guard, then the first slot holding `pid`) is the one `getjobpid`
        makes, so it is done by GetJobPid. */
    method DeleteJob(pid: int) returns (r: int)
      requires Valid()
      modifies this, jobs
      ensures (Abs(), r) == Delete(old(Abs()), pid)
    {
      var slot := GetJobPid(pid);
      ghost var t := Abs();
      if slot.None? {
        return 0;
      }
      var i := slot.value;
      ClearJob(i);
      var m := MaxJid();
      nextjid := m + 1;
      assert Abs() == Delete(t, pid).0;
      return 1;
    }

    /** `fgpid`. */
    method FgPid() returns (pid: int)
      requires Valid()
      ensures pid == Jobs.FgPid(jobs[..])
    {
      for i := 0 to MAXJOBS
        invariant forall k :: 0 <= k < i ==> jobs[k].state != Foreground
      {
        if jobs[i].state == Foreground {
          return jobs[i].pid;
        }
      }
      return 0;
    }

    /** `getjobpid`; the slot index stands for the returned pointer. */
    method GetJobPid(pid: int) returns (r: Option<nat>)
      requires Valid()
      ensures r == FindPid(jobs[..], pid)
    {
      if pid < 1 {
        return None;
      }
      for i := 0 to MAXJOBS
        invariant forall k :: 0 <= k < i ==> jobs[k].pid != pid
      {
        if jobs[i].pid == pid {
          return Some(i);
        }
      }
      return None;
    }

    /** `getjobjid`; the slot index stands for the returned pointer. */
    method GetJobJid(jid: int) returns (r: Option<nat>)
      requires Valid()
      ensures r == FindJid(jobs[..], jid)
    {
      if jid < 1 {
        return None;
      }
      for i := 0 to MAXJOBS
        invariant forall k :: 0 <= k < i ==> jobs[k].jid != jid
      {
        if jobs[i].jid == jid {
          return Some(i);
        }
      }
      return None;
    }

    /** `pid2jid`. */
    method Pid2Jid(pid: int) returns (jid: int)
      requires Valid()
      ensures jid == Jobs.Pid2Jid(jobs[..], pid)
    {
      if pid < 1 {
        return 0;
      }
      for i := 0 to MAXJOBS
        invariant forall k :: 0 <= k < i ==> jobs[k].pid != pid
      {
        if jobs[i].pid == pid {
          return jobs[i].jid;
        }
      }
      return 0;
    }

    /** `listjobs`: the lines it prints, in slot order. */
    method ListJobs() returns (lines: seq<string>)
      requires Valid()
      ensures lines == Listing(jobs[..])
    {
      lines := [];
      for i := 0 to MAXJOBS
        invariant lines == Listing(jobs[..i])
      {
        assert jobs[..i + 1][..i] == jobs[..i];
        if jobs[i].pid != 0 {
          lines := lines + [JobLine(i, jobs[i])];
        }
      }
      assert jobs[..MAXJOBS] == jobs[..];
    }
  }
}

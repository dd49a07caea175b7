/** The built-in commands `bg` and `fg` (`do_bgfg`) and the argument check
    `hasDisallowedChars`.

    `do_bgfg` first checks its arguments, then finds the job named by the
    second word (`%N` by job ID, anything else by pid, both read with `atoi`),
    then changes the job's state. Sending SIGCONT and waiting for the job in
    the foreground are returned as part of the outcome; module Signals says
    what the wait does to the list.

    The check applies `hasDisallowedChars` to `argv[0]`, the command name,
    which for `bg` and `fg` always holds a letter, so as written both commands
    stop at the usage message. DoBgFg models that; DoBgFgCorrected checks
    `argv[1]` instead. */
module BgFg {
  import opened Decimal
  import opened Wrappers
  import opened Jobs
  import opened JobTable

  /** A character of the string `hasDisallowedChars` searches: an ASCII letter. */
  predicate IsLetter(c: char) {
    ('a' <= c <= 'z') || ('A' <= c <= 'Z')
  }

  predicate HasLetter(s: string) {
    exists i :: 0 <= i < |s| && IsLetter(s[i])
  }

  /** `hasDisallowedChars`: 1 when `s` holds an ASCII letter, 0 otherwise. */
  method HasDisallowedChars(s: string) returns (r: int)
    ensures r == 0 || r == 1
    ensures r == 1 <==> HasLetter(s)
  {
    var i := 0;
    while i < |s|
      invariant 0 <= i <= |s|
      invariant forall k :: 0 <= k < i ==> !IsLetter(s[k])
    {
      if IsLetter(s[i]) {
        return 1;
      }
      i := i + 1;
    }
    return 0;
  }

  /** What a bg or fg command ends with. `Found` carries the job's pid,
      whether SIGCONT was sent to it, and whether the shell then waits for it
      in the foreground. */
  datatype Outcome =
    | UsageError
    | NoSuchJob
    | NoSuchProcess
    | Found(pid: int, continued: bool, waitFg: bool)

  /** Whether the argument names a job ID (`%N`) rather than a pid. */
  predicate IsJobIdArgument(arg: string) {
    arg != [] && arg[0] == '%'
  }

  /** The slot the argument names: `%N` looks up job ID N, anything else the
      pid it reads as. */
  function Target(s: seq<Job>, arg: string): (r: Option<nat>)
    ensures r.Some? ==> r.value < |s|
    ensures r.Some? && IsJobIdArgument(arg) ==> s[r.value].jid == Atoi(arg[1..]) >= 1
    ensures r.Some? && !IsJobIdArgument(arg) ==> s[r.value].pid == Atoi(arg) >= 1
    ensures r.None? && IsJobIdArgument(arg) ==> forall j :: 0 <= j < |s| ==> s[j].jid != Atoi(arg[1..]) || Atoi(arg[1..]) < 1
    ensures r.None? && !IsJobIdArgument(arg) ==> forall j :: 0 <= j < |s| ==> s[j].pid != Atoi(arg) || Atoi(arg) < 1
  {
    if IsJobIdArgument(arg) then FindJid(s, Atoi(arg[1..])) else FindPid(s, Atoi(arg))
  }

  /** The job's new state, whether SIGCONT is sent and whether the shell waits
      for it: bg leaves any job running in the background and continues only a
      stopped one; fg brings a stopped or background job to the foreground and
      waits for it, and leaves a foreground job as it is. */
  function Transition(fg: bool, st: JobState): (r: (JobState, bool, bool))
    ensures r.0 == (if !fg then Background else if st == Undefined then Undefined else Foreground)
    ensures r.1 <==> st == Stopped
    ensures r.2 <==> fg && r.0 != st
    ensures st != Undefined ==> r.0 != Stopped
  {
    if fg then
      match st
      case Stopped => (Foreground, true, true)
      case Background => (Foreground, false, true)
      case _ => (st, false, false)
    else (Background, st == Stopped, false)
  }

  /** The lookup and state change of `do_bgfg` once its arguments passed. */
  function ChangeState(s: seq<Job>, argv: seq<string>): (r: (seq<Job>, Outcome))
    requires |argv| >= 2
    ensures |r.0| == |s|
  {
    match Target(s, argv[1])
    case None => (s, if IsJobIdArgument(argv[1]) then NoSuchJob else NoSuchProcess)
    case Some(i) =>
      var (st, continued, waitFg) := Transition(argv[0] == "fg", s[i].state);
      (s[i := s[i].(state := st)], Found(s[i].pid, continued, waitFg))
  }

  /** `do_bgfg` as written: the letter check is applied to `argv[0]`. */
  function AsWritten(s: seq<Job>, argv: seq<string>): (r: (seq<Job>, Outcome))
    requires |argv| >= 1
    ensures |r.0| == |s|
    ensures r.1 == UsageError <==> |argv| < 2 || HasLetter(argv[0])
    ensures r.1 == UsageError ==> r.0 == s
  {
    if |argv| >= 2 && !HasLetter(argv[0]) then ChangeState(s, argv) else (s, UsageError)
  }

  /** `do_bgfg` with the letter check applied to the argument, `argv[1]`. */
  function Intended(s: seq<Job>, argv: seq<string>): (r: (seq<Job>, Outcome))
    requires |argv| >= 1
    ensures |r.0| == |s|
    ensures r.1 == UsageError <==> |argv| < 2 || HasLetter(argv[1])
    ensures r.1 == UsageError ==> r.0 == s
  {
    if |argv| >= 2 && !HasLetter(argv[1]) then ChangeState(s, argv) else (s, UsageError)
  }

  /** The second half of `do_bgfg`, in place: look the job up by `%N` or by
      pid, report a miss, otherwise write the new state into its slot. */
  method ChangeJobState(t: JobList, argv: seq<string>) returns (o: Outcome)
    requires t.Valid() && |argv| >= 2
    modifies t.jobs
    ensures (t.jobs[..], o) == ChangeState(old(t.jobs[..]), argv)
  {
    var job: Option<nat>;
    if IsJobIdArgument(argv[1]) {
      job := t.GetJobJid(Atoi(argv[1][1..]));
    } else {
      job := t.GetJobPid(Atoi(argv[1]));
    }
    assert job == Target(t.jobs[..], argv[1]);
    if job.None? {
      return if IsJobIdArgument(argv[1]) then NoSuchJob else NoSuchProcess;
    }
    var i := job.value;
    var pid := t.jobs[i].pid;
    if argv[0] == "fg" {
      if t.jobs[i].state == Stopped {
        t.jobs[i] := t.jobs[i].(state := Foreground);
        o := Found(pid, true, true);
      } else if t.jobs[i].state == Background {
        t.jobs[i] := t.jobs[i].(state := Foreground);
        o := Found(pid, false, true);
      } else {
        assert t.jobs[..] == t.jobs[..][i := t.jobs[i].(state := t.jobs[i].state)];
        o := Found(pid, false, false);
      }
    } else {
      var continued := t.jobs[i].state == Stopped;
      t.jobs[i] := t.jobs[i].(state := Background);
      o := Found(pid, continued, false);
    }
  }

  /** `do_bgfg` as written; `argv` holds the words `parseLine` keeps (the
      trailing '&' word removed), so its length is the `argc` the shell
      passes. */
  method DoBgFg(t: JobList, argv: seq<string>) returns (o: Outcome)
    requires t.Valid() && |argv| >= 1
    modifies t.jobs
    ensures (t.jobs[..], o) == AsWritten(old(t.jobs[..]), argv)
  {
    var disallowed := 1;
    if |argv| >= 2 {
      disallowed := HasDisallowedChars(argv[0]);
    }
    if |argv| >= 2 && disallowed == 0 {
      o := ChangeJobState(t, argv);
    } else {
      o := UsageError;
    }
  }

  /** `do_bgfg` with the argument check applied to `argv[1]`. */
  method DoBgFgCorrected(t: JobList, argv: seq<string>) returns (o: Outcome)
    requires t.Valid() && |argv| >= 1
    modifies t.jobs
    ensures (t.jobs[..], o) == Intended(old(t.jobs[..]), argv)
  {
    var disallowed := 1;
    if |argv| >= 2 {
      disallowed := HasDisallowedChars(argv[1]);
    }
    if |argv| >= 2 && disallowed == 0 {
      o := ChangeJobState(t, argv);
    } else {
      o := UsageError;
    }
  }

  // ---------------------------------------------------------------------
  // Properties

  /** As written, `bg` and `fg` always end with the usage message and leave the
      list alone, whatever their arguments. */
  lemma AsWrittenAlwaysRejects(s: seq<Job>, argv: seq<string>)
    requires |argv| >= 1 && (argv[0] == "bg" || argv[0] == "fg")
    ensures AsWritten(s, argv) == (s, UsageError)
  {
    assert IsLetter(argv[0][0]);
  }

  /** A `%N` argument written as a decimal job ID passes the intended check
      and reaches the job with that ID. */
  lemma IntendedFindsJobById(s: seq<Job>, cmd: string, jid: int, i: nat)
    requires cmd == "bg" || cmd == "fg"
    requires FindJid(s, jid) == Some(i)
    ensures Intended(s, [cmd, "%" + IntToString(jid)]) ==
              var (st, continued, waitFg) := Transition(cmd == "fg", s[i].state);
              (s[i := s[i].(state := st)], Found(s[i].pid, continued, waitFg))
  {
    var arg := "%" + IntToString(jid);
    assert arg[1..] == IntToString(jid) + "";
    AtoiOfIntToString(jid, "");
    NumeralHasNoLetter(jid);
    assert !HasLetter(arg) by {
      forall k | 0 <= k < |arg| ensures !IsLetter(arg[k]) {
        if k > 0 {
          assert arg[k] == IntToString(jid)[k - 1];
        }
      }
    }
  }

  /** A pid argument naming no job gives "no such process" and leaves the list
      alone. */
  lemma IntendedUnknownPid(s: seq<Job>, cmd: string, pid: int)
    requires cmd == "bg" || cmd == "fg"
    requires pid >= 1 && forall j :: 0 <= j < |s| ==> s[j].pid != pid
    ensures Intended(s, [cmd, IntToString(pid)]) == (s, NoSuchProcess)
  {
    AtoiOfIntToString(pid, "");
    assert IntToString(pid) + "" == IntToString(pid);
    NumeralHasNoLetter(pid);
    assert IntToString(pid)[0] != '%';
  }

  lemma NumeralHasNoLetter(n: int)
    ensures !HasLetter(IntToString(n))
    ensures IntToString(n) != [] && IntToString(n)[0] != '%'
  {
    var s := IntToString(n);
    forall k | 0 <= k < |s| ensures !IsLetter(s[k]) {
      if n < 0 && k > 0 {
        assert s[k] == NatToString(-n)[k - 1];
      }
    }
  }

  /** `bg` on a job already in the background changes nothing and sends no
      signal. */
  lemma BgOnBackgroundJobChangesNothing(s: seq<Job>, argv: seq<string>, i: nat)
    requires |argv| >= 2 && argv[0] == "bg"
    requires Target(s, argv[1]) == Some(i) && s[i].state == Background
    ensures ChangeState(s, argv) == (s, Found(s[i].pid, false, false))
  {
    assert s[i := s[i].(state := Background)] == s;
  }

  /** Whenever fg waits for the job, that job is in the foreground, so the
      `fgpid(jobs) > 0` assertions after the state change hold. */
  lemma ForegroundAssertionHolds(t: Table, argv: seq<string>)
    requires WellFormed(t) && |argv| >= 2
    requires ChangeState(t.slots, argv).1.Found? && ChangeState(t.slots, argv).1.waitFg
    ensures FgPid(ChangeState(t.slots, argv).0) > 0
  {
    var i := Target(t.slots, argv[1]).value;
    var s := ChangeState(t.slots, argv).0;
    assert s[i].state == Foreground;
    if FgPid(s) == 0 {
      SetStatePreserves(t, i, Foreground);
      assert s == SetState(t, i, Foreground).slots;
      NoForegroundJob(SetState(t, i, Foreground));
    }
  }

  /** The state change keeps the list well formed and its pids and job IDs as
      they were; run at the prompt, with no job in the foreground, it leaves at
      most one. */
  lemma ChangeStatePreserves(t: Table, argv: seq<string>)
    requires WellFormed(t) && |argv| >= 2
    ensures WellFormed(Table(ChangeState(t.slots, argv).0, t.nextjid))
    ensures DistinctPids(t.slots) ==> DistinctPids(ChangeState(t.slots, argv).0)
    ensures DistinctJids(t.slots) ==> DistinctJids(ChangeState(t.slots, argv).0)
    ensures FgPid(t.slots) == 0 ==> AtMostOneForeground(ChangeState(t.slots, argv).0)
  {
    match Target(t.slots, argv[1])
    case None =>
      if FgPid(t.slots) == 0 {
        NoForegroundJob(t);
      }
    case Some(i) =>
      var st := Transition(argv[0] == "fg", t.slots[i].state).0;
      assert ChangeState(t.slots, argv).0 == SetState(t, i, st).slots;
      assert t.slots[i].pid != 0;
      SetStatePreserves(t, i, st);
  }
}

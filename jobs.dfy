/** The shell's job list as values: sixteen slots and the `nextjid` counter,
    the lookups over them, and what `addjob`, `deletejob` and `listjobs` make
    of them. The class JobTable.JobList runs the same routines in place on an
    array and is proved to agree with the functions here. */
module Jobs {
  import opened Decimal
  import opened Wrappers

  /** Number of slots in the job list (MAXJOBS). */
  const MAXJOBS: nat := 16

  /** The job states UNDEF, FG, BG and ST. */
  datatype JobState = Undefined | Foreground | Background | Stopped

  /** One slot of the job list; `pid == 0` marks a free slot. */
  datatype Job = Job(pid: int, jid: int, state: JobState, cmdline: string)

  /** A slot as `clearjob` leaves it. */
  const Cleared: Job := Job(0, 0, Undefined, "")

  /** The slots in table order, and the next job ID to hand out. */
  datatype Table = Table(slots: seq<Job>, nextjid: int)

  /** The job list after `initjobs`, with `nextjid` at its initial value 1. */
  const Empty: Table := Table(seq(MAXJOBS, _ => Cleared), 1)

  // ---------------------------------------------------------------------
  // Lookups: every one is a scan in slot order that stops at the first hit.

  /** The first slot, in table order, that satisfies `p`. */
  function IndexWhere(s: seq<Job>, p: Job -> bool): (r: Option<nat>)
    ensures r.Some? ==> r.value < |s| && p(s[r.value])
    ensures r.Some? ==> forall j :: 0 <= j < r.value ==> !p(s[j])
    ensures r.None? ==> forall j :: 0 <= j < |s| ==> !p(s[j])
  {
    if s == [] then None
    else if p(s[0]) then Some(0)
    else match IndexWhere(s[1..], p)
      case None => None
      case Some(k) => Some(k + 1)
  }

  /** The lowest-index free slot. */
  function FirstFree(s: seq<Job>): (r: Option<nat>)
    ensures r.Some? ==> r.value < |s| && s[r.value].pid == 0
    ensures r.Some? ==> forall j :: 0 <= j < r.value ==> s[j].pid != 0
    ensures r.None? ==> forall j :: 0 <= j < |s| ==> s[j].pid != 0
  {
    IndexWhere(s, (j: Job) => j.pid == 0)
  }

  /** `getjobpid`: the first slot holding `pid`; none for a pid below 1. */
  function FindPid(s: seq<Job>, pid: int): (r: Option<nat>)
    ensures r.Some? ==> pid >= 1 && r.value < |s| && s[r.value].pid == pid
    ensures r.Some? ==> forall j :: 0 <= j < r.value ==> s[j].pid != pid
    ensures r.None? ==> pid < 1 || forall j :: 0 <= j < |s| ==> s[j].pid != pid
  {
    if pid < 1 then None else IndexWhere(s, (j: Job) => j.pid == pid)
  }

  /** `getjobjid`: the first slot holding job ID `jid`; none for a jid below 1. */
  function FindJid(s: seq<Job>, jid: int): (r: Option<nat>)
    ensures r.Some? ==> jid >= 1 && r.value < |s| && s[r.value].jid == jid
    ensures r.Some? ==> forall j :: 0 <= j < r.value ==> s[j].jid != jid
    ensures r.None? ==> jid < 1 || forall j :: 0 <= j < |s| ==> s[j].jid != jid
  {
    if jid < 1 then None else IndexWhere(s, (j: Job) => j.jid == jid)
  }

  /** `fgpid`: the pid of the first job in state FG, 0 when there is none. */
  function FgPid(s: seq<Job>): (r: int)
    ensures (forall j :: 0 <= j < |s| ==> s[j].state != Foreground) ==> r == 0
    ensures forall i :: (0 <= i < |s| && s[i].state == Foreground &&
                         (forall j :: 0 <= j < i ==> s[j].state != Foreground)) ==> r == s[i].pid
    ensures r != 0 ==> exists i :: 0 <= i < |s| && s[i].state == Foreground && s[i].pid == r
  {
    match IndexWhere(s, (j: Job) => j.state == Foreground)
    case None => 0
    case Some(i) => s[i].pid
  }

  /** `pid2jid`: the job ID of the first slot holding `pid`, 0 when none does. */
  function Pid2Jid(s: seq<Job>, pid: int): (r: int)
    ensures (pid < 1 || forall j :: 0 <= j < |s| ==> s[j].pid != pid) ==> r == 0
    ensures forall i :: (0 <= i < |s| && pid >= 1 && s[i].pid == pid &&
                         (forall j :: 0 <= j < i ==> s[j].pid != pid)) ==> r == s[i].jid
  {
    match FindPid(s, pid)
    case None => 0
    case Some(i) => s[i].jid
  }

  /** `maxjid`: the largest job ID in the list, or 0 (the scan starts at 0, so
      no slot can make it smaller). */
  function MaxJid(s: seq<Job>): (r: int)
    ensures r >= 0
    ensures forall j :: 0 <= j < |s| ==> s[j].jid <= r
    ensures r == 0 || exists j :: 0 <= j < |s| && s[j].jid == r
    decreases |s|
  {
    if s == [] then 0
    else
      var m := MaxJid(s[..|s| - 1]);
      if s[|s| - 1].jid > m then s[|s| - 1].jid else m
  }

  // ---------------------------------------------------------------------
  // Transitions

  /** The counter after one job ID has been handed out: one more, wrapped back
      to 1 once it exceeds MAXJOBS. From any counter that is not negative it
      lands in 1..MAXJOBS, and on 0..MAXJOBS it steps cyclically through
      1, 2, ..., MAXJOBS, 1. */
  function NextJid(n: int): (r: int)
    ensures n >= 0 ==> 1 <= r <= MAXJOBS
    ensures 0 <= n <= MAXJOBS ==> r == n % MAXJOBS + 1
  {
    if n + 1 > MAXJOBS then 1 else n + 1
  }

  /** `addjob`: the new table and the returned 1 or 0. */
  function Add(t: Table, pid: int, state: JobState, cmdline: string): (r: (Table, int))
    ensures r.1 == 0 || r.1 == 1
    ensures r.1 == 0 <==> pid < 1 || forall j :: 0 <= j < |t.slots| ==> t.slots[j].pid != 0
    ensures r.1 == 0 ==> r.0 == t
    ensures r.1 == 1 ==> r.0.nextjid == NextJid(t.nextjid) && |r.0.slots| == |t.slots|
    ensures forall i :: (0 <= i < |t.slots| && pid >= 1 && t.slots[i].pid == 0 &&
                         (forall j :: 0 <= j < i ==> t.slots[j].pid != 0)) ==>
              r.0.slots == t.slots[i := Job(pid, t.nextjid, state, cmdline)]
  {
    if pid < 1 then (t, 0)
    else match FirstFree(t.slots)
      case None => (t, 0)
      case Some(i) => (Table(t.slots[i := Job(pid, t.nextjid, state, cmdline)], NextJid(t.nextjid)), 1)
  }

  /** `deletejob`: the new table and the returned 1 or 0. */
  function Delete(t: Table, pid: int): (r: (Table, int))
    ensures r.1 == 0 || r.1 == 1
  {
    match FindPid(t.slots, pid)
    case None => (t, 0)
    case Some(i) =>
      var s := t.slots[i := Cleared];
      (Table(s, MaxJid(s) + 1), 1)
  }

  /** `deletejob` succeeds exactly when pid >= 1 and some slot holds it; it
      then clears the first such slot and recomputes the counter from the job
      IDs that remain, which all end up below it. Otherwise nothing changes. */
  lemma DeleteSpec(t: Table, pid: int)
    ensures Delete(t, pid).1 == 1 <==> pid >= 1 && exists j :: 0 <= j < |t.slots| && t.slots[j].pid == pid
    ensures Delete(t, pid).1 == 0 ==> Delete(t, pid).0 == t
    ensures forall i :: (0 <= i < |t.slots| && pid >= 1 && t.slots[i].pid == pid &&
                         (forall j :: 0 <= j < i ==> t.slots[j].pid != pid)) ==>
              Delete(t, pid).0.slots == t.slots[i := Cleared] &&
              Delete(t, pid).0.nextjid == MaxJid(Delete(t, pid).0.slots) + 1
    ensures Delete(t, pid).1 == 1 ==>
              forall j :: 0 <= j < |Delete(t, pid).0.slots| ==> Delete(t, pid).0.slots[j].jid < Delete(t, pid).0.nextjid
  {
    match FindPid(t.slots, pid)
    case None =>
    case Some(i) =>
      var r := Delete(t, pid).0;
      assert r.slots == t.slots[i := Cleared];
      assert forall j :: 0 <= j < |r.slots| ==> r.slots[j].jid < r.nextjid;
  }

  /** The table with the state of slot `i` replaced, as `job->state = st` does. */
  function SetState(t: Table, i: nat, st: JobState): (r: Table)
    requires i < |t.slots|
    ensures |r.slots| == |t.slots| && r.nextjid == t.nextjid
    ensures r.slots[i].state == st
    ensures r.slots[i].pid == t.slots[i].pid && r.slots[i].jid == t.slots[i].jid
    ensures r.slots[i].cmdline == t.slots[i].cmdline
    ensures forall j :: 0 <= j < |t.slots| && j != i ==> r.slots[j] == t.slots[j]
  {
    Table(t.slots[i := t.slots[i].(state := st)], t.nextjid)
  }

  // ---------------------------------------------------------------------
  // Listing

  /** The word `listjobs` prints for a state; slot index `i` appears only in
      the message for a state outside FG, BG and ST. */
  function StateLabel(i: int, st: JobState): (r: string)
    ensures r != [] && r[|r| - 1] == ' '
  {
    match st
    case Background => "Running "
    case Foreground => "Foreground "
    case Stopped => "Stopped "
    case Undefined => "listjobs: Internal error: job[" + IntToString(i) + "].state=0 "
  }

  /** What `listjobs` prints for the occupied slot `i`: the bracketed job ID,
      the pid in parentheses and the state, each followed by a blank, then the
      command line as it was typed. */
  function JobLine(i: int, j: Job): (r: string)
    ensures |j.cmdline| < |r| && r[0] == '['
    ensures r[|r| - |j.cmdline|..] == j.cmdline
  {
    "[" + IntToString(j.jid) + "] (" + IntToString(j.pid) + ") " + StateLabel(i, j.state) + j.cmdline
  }

  /** What `line` makes of each occupied slot and its index, in slot order. */
  function PerOccupied<T>(s: seq<Job>, line: (int, Job) -> T): (r: seq<T>)
    ensures |r| <= |s|
    decreases |s|
  {
    if s == [] then []
    else PerOccupied(s[..|s| - 1], line) + (if s[|s| - 1].pid != 0 then [line(|s| - 1, s[|s| - 1])] else [])
  }

  /** `listjobs`: one line per occupied slot, in slot order. */
  function Listing(s: seq<Job>): (r: seq<string>)
    ensures |r| <= |s|
  {
    PerOccupied(s, JobLine)
  }

  /** The indices of the occupied slots, in slot order. */
  function OccupiedSlots(s: seq<Job>): (r: seq<nat>)
    decreases |s|
  {
    if s == [] then []
    else OccupiedSlots(s[..|s| - 1]) + (if s[|s| - 1].pid != 0 then [|s| - 1] else [])
  }

  /** OccupiedSlots names every occupied slot and only those, each once, in
      increasing order: its length is the number of occupied slots. */
  lemma {:induction false} OccupiedSlotsSpec(s: seq<Job>)
    ensures forall k :: 0 <= k < |OccupiedSlots(s)| ==>
              OccupiedSlots(s)[k] < |s| && s[OccupiedSlots(s)[k]].pid != 0
    ensures forall k, l :: 0 <= k < l < |OccupiedSlots(s)| ==> OccupiedSlots(s)[k] < OccupiedSlots(s)[l]
    ensures forall i :: 0 <= i < |s| && s[i].pid != 0 ==> i in OccupiedSlots(s)
    decreases |s|
  {
    if s != [] {
      var p := s[..|s| - 1];
      OccupiedSlotsSpec(p);
      var o := OccupiedSlots(p);
      assert OccupiedSlots(s) == o + (if s[|s| - 1].pid != 0 then [|s| - 1] else []);
      forall k | 0 <= k < |o| ensures o[k] < |p| && s[o[k]].pid != 0 {
        assert s[o[k]] == p[o[k]];
      }
      forall i | 0 <= i < |p| && s[i].pid != 0 ensures i in o {
        assert p[i] == s[i];
      }
    }
  }

  /** The k-th entry of the walk is `line` of the k-th occupied slot. */
  lemma {:induction false} PerOccupiedIndexed<T>(s: seq<Job>, line: (int, Job) -> T)
    ensures |PerOccupied(s, line)| == |OccupiedSlots(s)|
    ensures forall k :: 0 <= k < |OccupiedSlots(s)| ==>
              OccupiedSlots(s)[k] < |s| &&
              PerOccupied(s, line)[k] == line(OccupiedSlots(s)[k], s[OccupiedSlots(s)[k]])
    decreases |s|
  {
    if s != [] {
      var p := s[..|s| - 1];
      PerOccupiedIndexed(p, line);
      var o := OccupiedSlots(p);
      var ls := PerOccupied(p, line);
      forall k | 0 <= k < |o| ensures o[k] < |s| && PerOccupied(s, line)[k] == line(o[k], s[o[k]]) {
        assert PerOccupied(s, line)[k] == ls[k];
        assert p[o[k]] == s[o[k]];
      }
    }
  }

  /** `listjobs` on any list, free slots between jobs included: it prints one
      line for each occupied slot and nothing for a free one; the k-th line is
      `JobLine` of the k-th occupied slot in slot order. */
  lemma ListingOfSlots(s: seq<Job>)
    ensures |Listing(s)| == |OccupiedSlots(s)|
    ensures forall k :: 0 <= k < |Listing(s)| ==>
              OccupiedSlots(s)[k] < |s| && s[OccupiedSlots(s)[k]].pid != 0 &&
              Listing(s)[k] == JobLine(OccupiedSlots(s)[k], s[OccupiedSlots(s)[k]])
    ensures forall k, l :: 0 <= k < l < |Listing(s)| ==> OccupiedSlots(s)[k] < OccupiedSlots(s)[l]
    ensures forall i :: 0 <= i < |s| && s[i].pid != 0 ==> i in OccupiedSlots(s)
  {
    OccupiedSlotsSpec(s);
    PerOccupiedIndexed(s, JobLine);
  }

  /** After `deletejob` of a pid no other slot holds, no listed line belongs
      to a slot holding that pid. */
  lemma DeletedJobNotListed(t: Table, pid: int)
    requires DistinctPids(t.slots)
    requires Delete(t, pid).1 == 1
    ensures forall k :: 0 <= k < |OccupiedSlots(Delete(t, pid).0.slots)| ==>
              OccupiedSlots(Delete(t, pid).0.slots)[k] < |t.slots| &&
              Delete(t, pid).0.slots[OccupiedSlots(Delete(t, pid).0.slots)[k]].pid != pid
  {
    var i := FindPid(t.slots, pid).value;
    var s := Delete(t, pid).0.slots;
    assert s == t.slots[i := Cleared];
    OccupiedSlotsSpec(s);
    forall j | 0 <= j < |s| && s[j].pid != 0 ensures s[j].pid != pid {
      if t.slots[j].pid == pid {
        assert j == i;
      }
    }
  }

  /** The job ID can be read back from the front of a listed line. */
  lemma JobLineStartsWithJid(i: int, j: Job)
    ensures JobLine(i, j)[0] == '['
    ensures Atoi(JobLine(i, j)[1..]) == j.jid
  {
    var rest := "] (" + IntToString(j.pid) + ") " + StateLabel(i, j.state) + j.cmdline;
    assert JobLine(i, j) == "[" + (IntToString(j.jid) + rest);
    assert JobLine(i, j)[1..] == IntToString(j.jid) + rest;
    AtoiOfIntToString(j.jid, rest);
  }

  // ---------------------------------------------------------------------
  // Invariants of the job list

  /** Sixteen slots, each either cleared or holding a job with a positive pid
      and a positive job ID, and a positive counter. */
  ghost predicate WellFormed(t: Table) {
    && |t.slots| == MAXJOBS
    && t.nextjid >= 1
    && forall i :: 0 <= i < |t.slots| ==>
         t.slots[i] == Cleared || (t.slots[i].pid >= 1 && t.slots[i].jid >= 1)
  }

  /** No pid is held by two occupied slots. */
  ghost predicate DistinctPids(s: seq<Job>) {
    forall i, j :: 0 <= i < j < |s| && s[i].pid != 0 ==> s[i].pid != s[j].pid
  }

  /** No job ID is held by two occupied slots. */
  ghost predicate DistinctJids(s: seq<Job>) {
    forall i, j :: 0 <= i < j < |s| && s[i].pid != 0 && s[j].pid != 0 ==> s[i].jid != s[j].jid
  }

  /** At most one job is in the foreground. */
  ghost predicate AtMostOneForeground(s: seq<Job>) {
    forall i, j :: 0 <= i < j < |s| && s[i].state == Foreground ==> s[j].state != Foreground
  }

  /** Every job ID in use is below the counter, so the next one handed out is
      new. */
  ghost predicate JidsBelowCounter(t: Table) {
    forall i :: 0 <= i < |t.slots| && t.slots[i].pid != 0 ==> t.slots[i].jid < t.nextjid
  }

  lemma EmptyIsWellFormed()
    ensures WellFormed(Empty) && DistinctPids(Empty.slots) && DistinctJids(Empty.slots)
    ensures AtMostOneForeground(Empty.slots) && JidsBelowCounter(Empty)
  {
  }

  /** `addjob` keeps the list well formed; it keeps pids distinct when the pid
      is new, and a single foreground job when it adds none beside one. */
  lemma AddPreserves(t: Table, pid: int, state: JobState, cmdline: string)
    requires WellFormed(t)
    ensures WellFormed(Add(t, pid, state, cmdline).0)
    ensures DistinctPids(t.slots) && (forall j :: 0 <= j < |t.slots| ==> t.slots[j].pid != pid) ==>
              DistinctPids(Add(t, pid, state, cmdline).0.slots)
    ensures AtMostOneForeground(t.slots) && (state == Foreground ==> FgPid(t.slots) == 0) ==>
              AtMostOneForeground(Add(t, pid, state, cmdline).0.slots)
  {
    if state == Foreground && FgPid(t.slots) == 0 {
      NoForegroundJob(t);
    }
    var r := Add(t, pid, state, cmdline);
    if r.1 == 1 {
      var i := FirstFree(t.slots).value;
      assert r.0.slots == t.slots[i := Job(pid, t.nextjid, state, cmdline)];
    }
  }

  /** Without a wrap of the counter, `addjob` hands out a job ID no live job
      holds and keeps the counter above every job ID in use. */
  lemma AddKeepsJidsFresh(t: Table, pid: int, state: JobState, cmdline: string)
    requires WellFormed(t) && DistinctJids(t.slots) && JidsBelowCounter(t)
    requires t.nextjid + 1 <= MAXJOBS
    ensures DistinctJids(Add(t, pid, state, cmdline).0.slots)
    ensures JidsBelowCounter(Add(t, pid, state, cmdline).0)
  {
    var r := Add(t, pid, state, cmdline);
    if r.1 == 1 {
      var i := FirstFree(t.slots).value;
      assert r.0.slots == t.slots[i := Job(pid, t.nextjid, state, cmdline)];
    }
  }

  /** The wrap of the counter: once a job ID of MAXJOBS or more is handed out
      the counter restarts at 1, and the next `addjob` then repeats the job ID
      of any live job numbered 1. */
  lemma WrapRepeatsJid(t: Table, pid: int, state: JobState, cmdline: string, k: nat)
    requires WellFormed(t) && t.nextjid == 1
    requires k < |t.slots| && t.slots[k].pid != 0 && t.slots[k].jid == 1
    requires pid >= 1 && FirstFree(t.slots).Some?
    ensures !DistinctJids(Add(t, pid, state, cmdline).0.slots)
  {
    var i := FirstFree(t.slots).value;
    var s := Add(t, pid, state, cmdline).0.slots;
    assert s == t.slots[i := Job(pid, 1, state, cmdline)];
    assert i != k;
    if i < k {
      assert s[i].jid == s[k].jid && s[i].pid != 0 && s[k].pid != 0;
    } else {
      assert s[k].jid == s[i].jid && s[i].pid != 0 && s[k].pid != 0;
    }
  }

  lemma WrapResetsCounter(t: Table, pid: int, state: JobState, cmdline: string)
    requires t.nextjid >= MAXJOBS
    requires Add(t, pid, state, cmdline).1 == 1
    ensures Add(t, pid, state, cmdline).0.nextjid == 1
  {
  }

  /** Clearing a slot keeps pids and job IDs distinct and at most one job in
      the foreground. */
  lemma ClearPreserves(s: seq<Job>, i: nat)
    requires i < |s|
    ensures DistinctPids(s) ==> DistinctPids(s[i := Cleared])
    ensures DistinctJids(s) ==> DistinctJids(s[i := Cleared])
    ensures AtMostOneForeground(s) ==> AtMostOneForeground(s[i := Cleared])
  {
  }

  /** `deletejob` keeps all four invariants and leaves every job ID in use
      below the counter, so the counter is never one of them. */
  lemma DeletePreserves(t: Table, pid: int)
    requires WellFormed(t)
    ensures WellFormed(Delete(t, pid).0)
    ensures DistinctPids(t.slots) ==> DistinctPids(Delete(t, pid).0.slots)
    ensures DistinctJids(t.slots) ==> DistinctJids(Delete(t, pid).0.slots)
    ensures AtMostOneForeground(t.slots) ==> AtMostOneForeground(Delete(t, pid).0.slots)
    ensures JidsBelowCounter(t) ==> JidsBelowCounter(Delete(t, pid).0)
  {
    match FindPid(t.slots, pid)
    case None =>
    case Some(i) =>
      var r := Delete(t, pid).0;
      assert r == Table(t.slots[i := Cleared], MaxJid(t.slots[i := Cleared]) + 1);
      ClearKeepsWellFormed(t, i);
      ClearPreserves(t.slots, i);
  }

  /** Clearing a slot and recomputing the counter from what remains keeps the
      list well formed, with every job ID below the new counter. */
  lemma ClearKeepsWellFormed(t: Table, i: nat)
    requires WellFormed(t) && i < |t.slots|
    ensures WellFormed(Table(t.slots[i := Cleared], MaxJid(t.slots[i := Cleared]) + 1))
    ensures JidsBelowCounter(Table(t.slots[i := Cleared], MaxJid(t.slots[i := Cleared]) + 1))
  {
  }

  /** A state change keeps every pid and job ID where it was. */
  lemma SetStateKeepsIds(t: Table, i: nat, st: JobState)
    requires WellFormed(t) && i < |t.slots| && t.slots[i].pid != 0
    ensures WellFormed(SetState(t, i, st))
    ensures DistinctPids(t.slots) ==> DistinctPids(SetState(t, i, st).slots)
    ensures DistinctJids(t.slots) ==> DistinctJids(SetState(t, i, st).slots)
    ensures JidsBelowCounter(t) ==> JidsBelowCounter(SetState(t, i, st))
  {
  }

  /** A state change keeps a single foreground job when it moves a job out of
      the foreground, or when there was none. */
  lemma SetStateForeground(t: Table, i: nat, st: JobState)
    requires WellFormed(t) && i < |t.slots|
    ensures st != Foreground && AtMostOneForeground(t.slots) ==>
              AtMostOneForeground(SetState(t, i, st).slots)
    ensures FgPid(t.slots) == 0 ==> AtMostOneForeground(SetState(t, i, st).slots)
  {
    if FgPid(t.slots) == 0 {
      NoForegroundJob(t);
    }
  }

  /** A state change to one occupied slot keeps the list well formed and its
      pids and job IDs as they were; it keeps a single foreground job when it
      moves a job out of the foreground or when there was none. */
  lemma SetStatePreserves(t: Table, i: nat, st: JobState)
    requires WellFormed(t) && i < |t.slots| && t.slots[i].pid != 0
    ensures WellFormed(SetState(t, i, st))
    ensures DistinctPids(t.slots) ==> DistinctPids(SetState(t, i, st).slots)
    ensures DistinctJids(t.slots) ==> DistinctJids(SetState(t, i, st).slots)
    ensures JidsBelowCounter(t) ==> JidsBelowCounter(SetState(t, i, st))
    ensures st != Foreground && AtMostOneForeground(t.slots) ==>
              AtMostOneForeground(SetState(t, i, st).slots)
    ensures FgPid(t.slots) == 0 ==> AtMostOneForeground(SetState(t, i, st).slots)
  {
    SetStateKeepsIds(t, i, st);
    SetStateForeground(t, i, st);
  }

  /** In a well-formed list `fgpid` returns 0 only when no job is in the
      foreground. */
  lemma NoForegroundJob(t: Table)
    requires WellFormed(t) && FgPid(t.slots) == 0
    ensures forall j :: 0 <= j < |t.slots| ==> t.slots[j].state != Foreground
  {
  }

  // ---------------------------------------------------------------------
  // Launching background jobs into an empty list, then listing them

  /** `addjob` applied to each pid in turn, as background jobs. */
  function AddAll(t: Table, pids: seq<int>, cmds: seq<string>): (r: Table)
    requires |pids| == |cmds|
    decreases |pids|
  {
    if pids == [] then t
    else Add(AddAll(t, pids[..|pids| - 1], cmds[..|cmds| - 1]), pids[|pids| - 1], Background, cmds[|cmds| - 1]).0
  }

  /** The list after the background jobs `pids` (with command lines `cmds`)
      were added to an empty one: they fill the slots from the first in launch
      order with job IDs 1, 2, ..., the other slots are cleared, and the
      counter is one past the last job ID (1 once all MAXJOBS slots are
      taken). */
  ghost predicate FilledInOrder(t: Table, pids: seq<int>, cmds: seq<string>) {
    && |pids| == |cmds| <= MAXJOBS
    && |t.slots| == MAXJOBS
    && (forall i :: 0 <= i < |pids| ==> t.slots[i] == Job(pids[i], i + 1, Background, cmds[i]))
    && (forall i :: |pids| <= i < MAXJOBS ==> t.slots[i] == Cleared)
    && t.nextjid == if |pids| == MAXJOBS then 1 else |pids| + 1
  }

  /** Adding background jobs to an empty list, one positive pid at a time,
      fills it in launch order. */
  lemma {:induction false} AddAllFromEmpty(pids: seq<int>, cmds: seq<string>)
    requires |pids| == |cmds| <= MAXJOBS
    requires forall i :: 0 <= i < |pids| ==> pids[i] >= 1
    ensures FilledInOrder(AddAll(Empty, pids, cmds), pids, cmds)
    decreases |pids|
  {
    if pids != [] {
      var n := |pids| - 1;
      AddAllFromEmpty(pids[..n], cmds[..n]);
      AddInOrder(AddAll(Empty, pids[..n], cmds[..n]), pids, cmds);
    }
  }

  /** The last background job of `pids` goes into the first free slot with
      the next job ID. */
  lemma AddInOrder(t: Table, pids: seq<int>, cmds: seq<string>)
    requires |pids| == |cmds| && 1 <= |pids| <= MAXJOBS
    requires forall i :: 0 <= i < |pids| ==> pids[i] >= 1
    requires FilledInOrder(t, pids[..|pids| - 1], cmds[..|cmds| - 1])
    ensures FilledInOrder(Add(t, pids[|pids| - 1], Background, cmds[|cmds| - 1]).0, pids, cmds)
  {
    var n := |pids| - 1;
    forall j | 0 <= j < n ensures t.slots[j].pid != 0 {
      assert t.slots[j] == Job(pids[..n][j], j + 1, Background, cmds[..n][j]);
    }
    AddAtFirstFree(t, n, pids[n], Background, cmds[n]);
    var r := Add(t, pids[n], Background, cmds[n]).0;
    forall i | 0 <= i < n ensures r.slots[i] == Job(pids[i], i + 1, Background, cmds[i]) {
      assert r.slots[i] == t.slots[i] == Job(pids[..n][i], i + 1, Background, cmds[..n][i]);
    }
  }

  /** `addjob` of a positive pid when slot `n` is the first free one. */
  lemma AddAtFirstFree(t: Table, n: nat, pid: int, state: JobState, cmdline: string)
    requires n < |t.slots| && t.slots[n].pid == 0 && pid >= 1
    requires forall j :: 0 <= j < n ==> t.slots[j].pid != 0
    ensures Add(t, pid, state, cmdline) ==
              (Table(t.slots[n := Job(pid, t.nextjid, state, cmdline)], NextJid(t.nextjid)), 1)
  {
    assert FirstFree(t.slots) == Some(n);
  }

  /** `deletejob` recounts the counter from the job IDs left, which undoes
      the wrap: with all MAXJOBS slots taken (job IDs 1..MAXJOBS, counter back
      at 1), deleting the first job sets the counter to MAXJOBS + 1, and the
      next `addjob` hands out job ID MAXJOBS + 1. */
  lemma RecountPassesMaxJobs(pids: seq<int>, cmds: seq<string>, pid: int, cmd: string)
    requires |pids| == |cmds| == MAXJOBS
    requires forall i :: 0 <= i < |pids| ==> pids[i] >= 1
    requires pid >= 1
    ensures AddAll(Empty, pids, cmds).nextjid == 1
    ensures Delete(AddAll(Empty, pids, cmds), pids[0]).0.nextjid == MAXJOBS + 1
    ensures Add(Delete(AddAll(Empty, pids, cmds), pids[0]).0, pid, Background, cmd).0.slots[0].jid == MAXJOBS + 1
  {
    AddAllFromEmpty(pids, cmds);
    var t := AddAll(Empty, pids, cmds);
    assert t.slots[0] == Job(pids[0], 1, Background, cmds[0]);
    assert FindPid(t.slots, pids[0]) == Some(0);
    var s := t.slots[0 := Cleared];
    assert Delete(t, pids[0]).0 == Table(s, MaxJid(s) + 1);
    forall j | 0 <= j < |s| ensures s[j].jid <= MAXJOBS {
      if j > 0 {
        assert s[j] == Job(pids[j], j + 1, Background, cmds[j]);
      }
    }
    assert s[MAXJOBS - 1].jid == MAXJOBS;
    assert MaxJid(s) == MAXJOBS;
    AddAtFirstFree(Table(s, MAXJOBS + 1), 0, pid, Background, cmd);
  }

  /** Slots past `n` that are all free print nothing. */
  lemma {:induction false} PerOccupiedSkipsFree<T>(s: seq<Job>, n: nat, line: (int, Job) -> T)
    requires n <= |s|
    requires forall i :: n <= i < |s| ==> s[i].pid == 0
    ensures PerOccupied(s, line) == PerOccupied(s[..n], line)
    decreases |s| - n
  {
    if n < |s| {
      var p := s[..|s| - 1];
      assert p[..n] == s[..n];
      PerOccupiedSkipsFree(p, n, line);
    } else {
      assert s[..n] == s;
    }
  }

  /** Occupied slots print one line each, in slot order. */
  lemma {:induction false} PerOccupiedOfOccupied<T>(s: seq<Job>, line: (int, Job) -> T)
    requires forall i :: 0 <= i < |s| ==> s[i].pid != 0
    ensures |PerOccupied(s, line)| == |s|
    ensures forall i :: 0 <= i < |s| ==> PerOccupied(s, line)[i] == line(i, s[i])
    decreases |s|
  {
    if s != [] {
      var p := s[..|s| - 1];
      PerOccupiedOfOccupied(p, line);
      assert PerOccupied(s, line) == PerOccupied(p, line) + [line(|s| - 1, s[|s| - 1])];
    }
  }

  /** Launching up to MAXJOBS background jobs into an empty list and then
      listing it prints exactly those jobs, numbered 1, 2, ... in the order
      they were launched. */
  lemma BackgroundJobsListedInOrder(pids: seq<int>, cmds: seq<string>)
    requires |pids| == |cmds| <= MAXJOBS
    requires forall i :: 0 <= i < |pids| ==> pids[i] >= 1
    ensures |Listing(AddAll(Empty, pids, cmds).slots)| == |pids|
    ensures forall i :: 0 <= i < |pids| ==>
              Listing(AddAll(Empty, pids, cmds).slots)[i] == JobLine(i, Job(pids[i], i + 1, Background, cmds[i]))
  {
    AddAllFromEmpty(pids, cmds);
    var s := AddAll(Empty, pids, cmds).slots;
    PerOccupiedSkipsFree(s, |pids|, JobLine);
    PerOccupiedOfOccupied(s[..|pids|], JobLine);
  }
}

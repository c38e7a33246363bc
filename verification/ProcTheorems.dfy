/** What holds in every state of every run of the process table. */
module ProcTheorems {
  import opened Basics
  import opened Proc
  import opened ProcProof

  ghost predicate StepAt(run: seq<State>, i: nat)
    requires i + 1 < |run|
  {
    Next(run[i], run[i + 1])
  }

  ghost predicate IsRun(run: seq<State>) {
    |run| > 0 && Start(run[0]) && forall i: nat | i + 1 < |run| :: StepAt(run, i)
  }

  // ---------- Exits and reaps ----------

  ghost predicate IsZombie(s: State, pid: nat) {
    exists q: nat :: q < |s.procs| && s.procs[q].st == ZOMBIE && s.procs[q].pid == pid
  }

  /** Zombies are exactly the pids that exited and were not reaped; no pid was reaped twice. */
  ghost predicate Accounted(s: State)
    requires Sized(s)
  {
    && Distinct(s.reaped)
    && (forall pid | pid in s.reaped :: pid in s.exited)
    && (forall pid | pid in s.exited :: pid < s.nextpid && (pid in s.reaped || IsZombie(s, pid)))
    && (forall q: nat | q < NPROC && s.procs[q].st == ZOMBIE :: s.procs[q].pid in s.exited && s.procs[q].pid !in s.reaped)
    && (forall q: nat | q < NPROC && s.procs[q].st != ZOMBIE && s.procs[q].st != UNUSED :: s.procs[q].pid !in s.exited)
  }

  /** Zombies and live pids are the same before and after. */
  ghost predicate SameLedger(s: State, s': State)
    requires Sized(s) && Sized(s')
  {
    && s'.exited == s.exited && s'.reaped == s.reaped && s'.nextpid >= s.nextpid
    && forall q: nat | q < NPROC ::
         && (s.procs[q].st == ZOMBIE <==> s'.procs[q].st == ZOMBIE)
         && (s'.procs[q].st == UNUSED || s'.procs[q].pid == s.procs[q].pid || s'.procs[q].pid >= s.nextpid)
         && (s.procs[q].st == ZOMBIE ==> s'.procs[q].pid == s.procs[q].pid)
         && (s.procs[q].st == UNUSED ==> s'.procs[q].st == UNUSED || s'.procs[q].pid >= s.nextpid)
  }

  lemma LedgerKept(s: State, s': State)
    requires Sized(s) && Sized(s') && Accounted(s) && SameLedger(s, s')
    ensures Accounted(s')
  {
    forall pid | pid in s'.exited ensures pid in s'.reaped || IsZombie(s', pid) {
      if pid !in s.reaped {
        var q: nat :| q < |s.procs| && s.procs[q].st == ZOMBIE && s.procs[q].pid == pid;
        assert s'.procs[q].st == ZOMBIE;
      }
    }
  }

  lemma ExitAccounted(s: State, p: nat)
    requires Inv(s) && Enabled(s, Exit(p)) && Accounted(s)
    ensures Sized(Do(s, Exit(p))) && Accounted(Do(s, Exit(p)))
  {
    hide HasZombie, HasChild, Exited, Inv;
    SizedIf(s);
    var s' := Do(s, Exit(p));
    var pid := s.procs[p].pid;
    At(s, p);
    forall i: nat | i < NPROC ensures ExitSlot(s.procs, s'.procs, p, i) && PidsDiffer(s, p, i) {
      ExitedAt(s.procs, p, i);
      Differ(s, p, i);
    }
    assert ExitSlot(s.procs, s'.procs, p, p);
    forall x | x in s'.exited ensures x < s'.nextpid && (x in s'.reaped || IsZombie(s', x)) {
      if x == pid {
        assert s'.procs[p].st == ZOMBIE;
      } else if x !in s.reaped {
        var q: nat :| q < |s.procs| && s.procs[q].st == ZOMBIE && s.procs[q].pid == x;
        assert ExitSlot(s.procs, s'.procs, p, q);
      }
    }
    forall q: nat | q < NPROC
      ensures s'.procs[q].st == ZOMBIE ==> s'.procs[q].pid in s'.exited && s'.procs[q].pid !in s'.reaped
      ensures s'.procs[q].st != ZOMBIE && s'.procs[q].st != UNUSED ==> s'.procs[q].pid !in s'.exited
    {
      assert ExitSlot(s.procs, s'.procs, p, q);
      assert PidsDiffer(s, p, q);
    }
  }

  lemma ReapAccounted(s: State, p: nat, q: nat)
    requires Inv(s) && Enabled(s, WaitReap(p, q)) && Accounted(s)
    ensures Sized(Do(s, WaitReap(p, q))) && Accounted(Do(s, WaitReap(p, q)))
  {
    hide HasZombie, HasChild, Inv;
    SizedIf(s);
    var s' := Do(s, WaitReap(p, q));
    var pid := s.procs[q].pid;
    forall i: nat | i < NPROC ensures PidsDiffer(s, q, i) { Differ(s, q, i); }
    forall x | x in s'.exited ensures x in s'.reaped || IsZombie(s', x) {
      if x == pid {
        assert s'.reaped[|s.reaped|] == pid;
      } else if x !in s.reaped {
        var r: nat :| r < |s.procs| && s.procs[r].st == ZOMBIE && s.procs[r].pid == x;
        assert s'.procs[r].st == ZOMBIE;
      }
    }
    forall r: nat | r < NPROC && s'.procs[r].st == ZOMBIE ensures s'.procs[r].pid !in s'.reaped {
      assert PidsDiffer(s, q, r);
    }
  }

  lemma StepAccounted(s: State, e: Step)
    requires Inv(s) && Enabled(s, e) && Accounted(s)
    ensures Sized(Do(s, e)) && Accounted(Do(s, e))
  {
    hide HasZombie, HasChild, Exited, Reaped, Inv, Accounted;
    StepInv(s, e);
    SizedIf(s);
    SizedIf(Do(s, e));
    match e
    case Exit(p) => ExitAccounted(s, p);
    case WaitReap(p, q) => ReapAccounted(s, p, q);
    case ForkFails(p) => At(s, p); LedgerKept(s, Do(s, e));
    case StartChild(p) => At(s, p); LedgerKept(s, Do(s, e));
    case _ => LedgerKept(s, Do(s, e));
  }

  // ---------- Theorems ----------

  lemma {:induction false} RunInv(run: seq<State>, i: nat)
    requires IsRun(run) && i < |run|
    ensures Inv(run[i]) && Sized(run[i]) && Accounted(run[i])
  {
    if i == 0 {
      StartInv(run[0]);
    } else {
      hide Start, Accounted;
      RunInv(run, i - 1);
      assert StepAt(run, i - 1);
      var e :| Enabled(run[i - 1], e) && run[i] == Do(run[i - 1], e);
      StepInv(run[i - 1], e);
      StepAccounted(run[i - 1], e);
    }
  }

  lemma StartInv(s: State)
    requires Start(s)
    ensures Inv(s) && Accounted(s)
  {
  }

  /** No lost exit: a process asleep in wait has a child, and no child that has exited. */
  lemma NoLostExit(run: seq<State>, i: nat, p: nat)
    requires IsRun(run) && i < |run| && p < |run[i].procs| && run[i].procs[p].st == SLEEPING && run[i].procs[p].chan == Of(p)
    ensures HasChild(run[i].procs, p) && !HasZombie(run[i].procs, p)
  {
    hide IsRun, Inv, HasChild, HasZombie;
    RunInv(run, i);
    At(run[i], p);
  }

  /** Nobody's parent has exited or left the table, and parents are older than their children. */
  lemma ParentsAlive(run: seq<State>, i: nat, q: nat)
    requires IsRun(run) && i < |run| && q < |run[i].procs| && run[i].procs[q].parent.Some?
    ensures var p := run[i].procs[q].parent.value;
            p < |run[i].procs| && Alive(run[i].procs[p]) && run[i].procs[p].pid < run[i].procs[q].pid
  {
    hide IsRun, Inv, HasChild, HasZombie;
    RunInv(run, i);
    At(run[i], q);
  }

  /** Following parents n times, stopping where there is none. */
  function Up(ps: seq<Proc>, q: nat, n: nat): nat
    requires q < |ps|
    decreases n
  {
    if n == 0 || ps[q].parent.None? || ps[q].parent.value >= |ps| then q else Up(ps, ps[q].parent.value, n - 1)
  }

  /** Parent links lead to init from every process that has started or exited. */
  lemma {:induction false} LeadsToInit(run: seq<State>, i: nat, q: nat)
    requires IsRun(run) && i < |run| && q < |run[i].procs| && run[i].procs[q].st != UNUSED && run[i].procs[q].st != EMBRYO
    ensures Up(run[i].procs, q, run[i].procs[q].pid) == INIT
    decreases run[i].procs[q].pid
  {
    hide IsRun, Inv, HasChild, HasZombie;
    var ps := run[i].procs;
    RunInv(run, i);
    At(run[i], q);
    if ps[q].parent.Some? {
      ParentsAlive(run, i, q);
      LeadsToInit(run, i, ps[q].parent.value);
      UpMore(ps, ps[q].parent.value, ps[ps[q].parent.value].pid, ps[q].pid - 1);
    }
  }

  /** Once at init, further steps stay there. */
  lemma {:induction false} UpMore(ps: seq<Proc>, q: nat, n: nat, m: nat)
    requires q < |ps| && INIT < |ps| && ps[INIT].parent == None && Up(ps, q, n) == INIT && n <= m
    ensures Up(ps, q, m) == INIT
    decreases n
  {
    if n > 0 && ps[q].parent.Some? && ps[q].parent.value < |ps| {
      UpMore(ps, ps[q].parent.value, n - 1, m - 1);
    }
  }

  /** Every process that has exited is a zombie or has been reaped, never both, and was reaped once at most. */
  lemma ReapedOnce(run: seq<State>, i: nat, pid: nat)
    requires IsRun(run) && i < |run|
    ensures pid in run[i].exited <==> (pid in run[i].reaped || IsZombie(run[i], pid))
    ensures !(pid in run[i].reaped && IsZombie(run[i], pid))
    ensures Distinct(run[i].reaped)
  {
    hide IsRun, Inv;
    RunInv(run, i);
  }

  /** exit wakes a parent that sleeps in wait. */
  lemma ExitWakesParent(s: State, q: nat, p: nat)
    requires Inv(s) && Enabled(s, Exit(q)) && ChildOf(s.procs, q, p) && p < NPROC && s.procs[p].st == SLEEPING && s.procs[p].chan == Of(p)
    ensures Do(s, Exit(q)).procs[p].st == RUNNABLE && Do(s, Exit(q)).procs[q].st == ZOMBIE
  {
    hide HasZombie, HasChild, Exited, Inv;
    SizedIf(s);
    At(s, q);
    ExitedAt(s.procs, q, p);
    ExitedAt(s.procs, q, q);
  }
}

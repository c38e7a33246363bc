/**
 What the steps of a run say about a process: who is killed, who sleeps on what,
 and how a slot comes by its state.
 */
module ProcHistory {
  import opened Proc
  import opened ProcProof
  import opened ProcTheorems

  ghost predicate StepIs(run: seq<State>, es: seq<Step>, i: nat)
    requires i < |es| && |run| == |es| + 1
  {
    Sized(run[i]) && Enabled(run[i], es[i]) && run[i + 1] == Do(run[i], es[i])
  }

  /** A run together with the steps it takes. */
  ghost predicate Steps(run: seq<State>, es: seq<Step>) {
    |run| == |es| + 1 && Start(run[0]) && forall i: nat | i < |es| :: StepIs(run, es, i)
  }

  lemma StepsAreRun(run: seq<State>, es: seq<Step>)
    requires Steps(run, es)
    ensures IsRun(run)
  {
    hide Enabled, Do, Start;
    forall i: nat | i + 1 < |run| ensures StepAt(run, i) { assert StepIs(run, es, i); }
  }

  /** Every run takes some steps. */
  lemma {:induction false} RunHasSteps(run: seq<State>) returns (es: seq<Step>)
    requires IsRun(run)
    ensures Steps(run, es)
    decreases |run|
  {
    hide Enabled, Do, Start;
    var n := |run| - 1;
    if n == 0 {
      es := [];
    } else {
      var p := run[..n];
      forall i: nat | i + 1 < |p| ensures StepAt(p, i) { assert StepAt(run, i); }
      var fs := RunHasSteps(p);
      assert StepAt(run, n - 1);
      var e :| Enabled(run[n - 1], e) && run[n] == Do(run[n - 1], e);
      es := fs + [e];
      forall i: nat | i < |es| ensures StepIs(run, es, i) {
        if i < n - 1 { assert StepIs(p, fs, i); }
      }
    }
  }

  // ---------- Killed ----------

  /** Step k killed slot q, and nobody has reaped the slot since. */
  ghost predicate KilledAt(es: seq<Step>, i: nat, q: nat, k: nat) {
    k < i <= |es| && es[k] == Kill(q) && forall m: nat | k < m < i :: !(es[m].WaitReap? && es[m].q == q)
  }

  lemma KilledStep(s: State, e: Step, q: nat)
    requires Inv(s) && Sized(s) && Enabled(s, e) && q < NPROC && Sized(Do(s, e))
    ensures Do(s, e).procs[q].killed <==> e == Kill(q) || (s.procs[q].killed && !(e.WaitReap? && e.q == q))
  {
    hide HasZombie, HasChild, Exited, Inv;
    if e.Exit? { ExitedAt(s.procs, e.p, q); }
  }

  /** A slot is marked killed exactly if it was killed and not reaped since: nobody is born killed. */
  lemma {:induction false} KilledHistory(run: seq<State>, es: seq<Step>, i: nat, q: nat)
    requires Steps(run, es) && i <= |es| && q < NPROC
    ensures |run[i].procs| == NPROC
    ensures run[i].procs[q].killed <==> exists k: nat :: KilledAt(es, i, q, k)
  {
    hide Enabled, Do, IsRun, Inv;
    StepsAreRun(run, es);
    RunInv(run, i);
    if i > 0 {
      KilledHistory(run, es, i - 1, q);
      assert StepIs(run, es, i - 1);
      RunInv(run, i - 1);
      KilledStep(run[i - 1], es[i - 1], q);
      var e := es[i - 1];
      if e == Kill(q) {
        assert KilledAt(es, i, q, i - 1);
      } else if e.WaitReap? && e.q == q {
        forall k: nat ensures !KilledAt(es, i, q, k) {}
      } else {
        var h := i - 1;
        if k: nat :| KilledAt(es, h, q, k) { assert KilledAt(es, i, q, k); }
        forall k: nat | KilledAt(es, i, q, k) ensures KilledAt(es, h, q, k) {}
      }
    }
  }

  // ---------- Asleep ----------

  predicate AsleepOn(s: State, p: nat, c: nat)
    requires p < |s.procs|
  {
    s.procs[p].st == SLEEPING && s.procs[p].chan == Else(c)
  }

  /** Step k put p to sleep on c, and since then nobody has called wakeup for c or killed p. */
  ghost predicate AsleepSince(es: seq<Step>, i: nat, p: nat, c: nat, k: nat) {
    k < i <= |es| && es[k] == Sleep(p, c) && forall m: nat | k < m < i :: es[m] != Wakeup(c) && es[m] != Kill(p)
  }

  lemma AsleepStep(s: State, e: Step, p: nat, c: nat)
    requires Inv(s) && Sized(s) && Enabled(s, e) && p < NPROC && Sized(Do(s, e))
    ensures AsleepOn(Do(s, e), p, c) <==> e == Sleep(p, c) || (AsleepOn(s, p, c) && e != Wakeup(c) && e != Kill(p))
  {
    hide HasZombie, HasChild, Exited, Inv;
    match e
    case Exit(r) => ExitedAt(s.procs, r, p);
    case ForkFails(r) => At(s, r);
    case LinkParent(r) => At(s, r);
    case StartChild(r) => At(s, r);
    case _ =>
  }

  /** A process sleeps on a channel exactly from its sleep until the next wakeup of that channel or its own kill. */
  lemma {:induction false} AsleepHistory(run: seq<State>, es: seq<Step>, i: nat, p: nat, c: nat)
    requires Steps(run, es) && i <= |es| && p < NPROC
    ensures |run[i].procs| == NPROC
    ensures AsleepOn(run[i], p, c) <==> exists k: nat :: AsleepSince(es, i, p, c, k)
  {
    hide Enabled, Do, IsRun, Inv, AsleepOn;
    StepsAreRun(run, es);
    RunInv(run, i);
    if i == 0 {
      AwakeAtStart(run[0], p, c);
    } else {
      AsleepHistory(run, es, i - 1, p, c);
      assert StepIs(run, es, i - 1);
      RunInv(run, i - 1);
      AsleepStep(run[i - 1], es[i - 1], p, c);
      var e := es[i - 1];
      if e == Sleep(p, c) {
        assert AsleepSince(es, i, p, c, i - 1);
      } else if e == Wakeup(c) || e == Kill(p) {
        forall k: nat ensures !AsleepSince(es, i, p, c, k) {}
      } else {
        var h := i - 1;
        if k: nat :| AsleepSince(es, h, p, c, k) { assert AsleepSince(es, i, p, c, k); }
        forall k: nat | AsleepSince(es, i, p, c, k) ensures AsleepSince(es, h, p, c, k) {}
      }
    }
  }

  lemma AwakeAtStart(s: State, p: nat, c: nat)
    requires Start(s) && p < NPROC
    ensures !AsleepOn(s, p, c)
  {
  }

  // ---------- Life cycle ----------

  /** The one kind of step that takes slot q into each state. */
  ghost predicate Enters(s: State, e: Step, q: nat, st: ProcState)
    requires Sized(s)
  {
    match st
    case UNUSED => (e.WaitReap? && e.q == q) || (e.ForkFails? && e.p < NPROC && s.place[e.p].InFork? && s.place[e.p].q == q)
    case EMBRYO => e.AllocProc? && e.q == q
    case RUNNABLE =>
      || e == Yield(q) || e == Kill(q) || e.Wakeup? || e.Exit?
      || (e.StartChild? && e.p < NPROC && s.place[e.p].InFork? && s.place[e.p].q == q)
    case RUNNING => e == Schedule(q)
    case SLEEPING => e == WaitSleep(q) || (e.Sleep? && e.p == q)
    case ZOMBIE => e == Exit(q)
  }

  /** What step e is for, if it is meant for slot q. */
  ghost predicate Meant(s: State, e: Step, q: nat, st: ProcState)
    requires Sized(s)
  {
    Enters(s, e, q, st) && (st == RUNNABLE ==> e == Yield(q) || e.StartChild?)
  }

  /** A step takes the slot it is meant for into the state it is meant to. */
  lemma MeantIsDone(s: State, e: Step, q: nat, st: ProcState)
    requires Inv(s) && Sized(s) && Enabled(s, e) && q < NPROC && Sized(Do(s, e)) && Meant(s, e, q, st)
    ensures Do(s, e).procs[q].st == st
  {
    hide HasZombie, HasChild, Exited, Inv;
    if e.Exit? { ExitedAt(s.procs, e.p, q); }
  }

  /** A slot changes state only by a step meant for that; a wakeup changes exactly the sleepers on its channel. */
  lemma LifeCycle(s: State, e: Step, q: nat)
    requires Inv(s) && Sized(s) && Enabled(s, e) && q < NPROC && Sized(Do(s, e))
    ensures Do(s, e).procs[q].st != s.procs[q].st ==> Enters(s, e, q, Do(s, e).procs[q].st)
    ensures e.Wakeup? ==> (Do(s, e).procs[q] == s.procs[q] <==> !AsleepOn(s, q, e.c)) && !AsleepOn(Do(s, e), q, e.c)
  {
    hide HasZombie, HasChild, Exited, Inv;
    match e
    case Exit(r) => ExitedAt(s.procs, r, q);
    case ForkFails(r) => At(s, r);
    case StartChild(r) => At(s, r);
    case _ =>
  }
}

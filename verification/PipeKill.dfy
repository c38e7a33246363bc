/**
 What a kill does to the readers of a pipe. pipewrite, killed while the pipe is
 full, returns without waking readers (pipe.c:86-88); the run built here ends
 with a reader asleep over a full pipe and the lock free.
 */
module PipeKill {
  import opened Basics
  import opened Pipe
  import opened PipeProof

  // ---------- Reachable states ----------

  ghost predicate RunTo(run: seq<State>, s: State) {
    |run| > 0 && IsRun(run) && run[|run| - 1] == s
  }

  ghost predicate Reachable(s: State) {
    exists run :: RunTo(run, s)
  }

  lemma ReachStep(s: State, e: Step)
    requires Reachable(s) && Enabled(s, e)
    ensures Reachable(Do(s, e))
  {
    hide Enabled, Do, Start;
    var run :| RunTo(run, s);
    var longer := run + [Do(s, e)];
    forall i: nat | i + 1 < |longer| ensures StepAt(longer, i) {
      if i + 1 < |run| { assert StepAt(run, i); }
    }
    assert RunTo(longer, Do(s, e));
  }

  // ---------- The run ----------

  function Blanks(n: nat): (s: seq<byte>)
    ensures |s| == n && forall i | 0 <= i < n :: s[i] == 0
  {
    seq(n, _ => 0)
  }

  /** Thread 0 reads one byte, thread 1 writes one more than the pipe holds; n bytes are stored, none is read. */
  function Two(n: nat, lock: Option<nat>, plock: Option<nat>, reader: Pc, writer: Pc, killed: bool, skipped: bool): State {
    var began := writer != Idle || killed;
    State(Blanks(PIPESIZE), 0, n, true, true, lock, plock, [reader, writer], true, true, [false, killed], Blanks(n), [], skipped,
          (if reader == Idle then [] else [Read(0, 1, None)])
          + (if began then [Write(1, Blanks(LINE), if writer == Idle then Some(-1) else None)] else []),
          [0, if began then 1 else 0], Ones(n), [])
  }

  const LINE: nat := 513

  function Ones(n: nat): (s: seq<nat>)
    ensures |s| == n && forall i | 0 <= i < n :: s[i] == 1
  {
    seq(n, _ => 1)
  }

  lemma Begins()
    ensures Reachable(Two(0, None, None, Idle, Idle, false, false))
  {
    var s := Two(0, None, None, Idle, Idle, false, false);
    assert RunTo([s], s);
  }

  lemma ReaderEnters()
    ensures Reachable(Two(0, Some(0), None, RCheck(1), Idle, false, false))
  {
    hide Reachable, Blanks, Full, Empty;
    Begins();
    var s0, s1 := Two(0, None, None, Idle, Idle, false, false), Two(0, None, None, RWant(1), Idle, false, false);
    ReachStep(s0, Begin(0, RWant(1)));
    assert Do(s0, Begin(0, RWant(1))) == s1;
    ReachStep(s1, Acquire(0));
    assert Do(s1, Acquire(0)) == Two(0, Some(0), None, RCheck(1), Idle, false, false);
  }

  /** The reader finds the pipe empty and falls asleep. */
  lemma ReaderSleeps()
    ensures Reachable(Two(0, None, None, RAsleep(1), Idle, false, false))
  {
    hide Reachable, Blanks;
    ReaderEnters();
    var s2, s3 := Two(0, Some(0), None, RCheck(1), Idle, false, false), Two(0, Some(0), None, RSleep(1), Idle, false, false);
    ReachStep(s2, Run(0));
    assert Do(s2, Run(0)) == s3;
    ReachStep(s3, Run(0));
    var s4 := Two(0, None, Some(0), RFall(1), Idle, false, false);
    assert Do(s3, Run(0)) == s4;
    ReachStep(s4, Run(0));
    assert Do(s4, Run(0)) == Two(0, None, None, RAsleep(1), Idle, false, false);
  }

  /** The writer has stored n bytes and holds the lock. */
  function Storing(n: nat): State {
    Two(n, Some(1), None, RAsleep(1), WLoop(Blanks(LINE), n), false, false)
  }

  lemma WriterBegins()
    ensures Reachable(Storing(0))
  {
    hide Reachable;
    ReaderSleeps();
    var s0 := Two(0, None, None, RAsleep(1), Idle, false, false);
    ReachStep(s0, Begin(1, WWant(Blanks(LINE), 0)));
    var s1 := Two(0, None, None, RAsleep(1), WWant(Blanks(LINE), 0), false, false);
    assert Do(s0, Begin(1, WWant(Blanks(LINE), 0))) == s1;
    ReachStep(s1, Acquire(1));
    assert Do(s1, Acquire(1)) == Storing(0);
  }

  lemma StoreStep(s: State, t: nat)
    requires Enabled(s, Run(t)) && s.pc[t].WLoop? && s.pc[t].i < |s.pc[t].addr| && !Full(s)
    ensures var p := s.pc[t];
            Do(s, Run(t)) == s.(data := s.data[s.nwrite % PIPESIZE := p.addr[p.i]], nwrite := (s.nwrite + 1) % U32,
                                sent := s.sent + [p.addr[p.i]], writers := s.writers + [s.call[t]], pc := s.pc[t := WLoop(p.addr, p.i + 1)])
  {
    hide ReaderStep, CloserStep, Full, WakeReaders;
  }

  lemma StoreOne(n: nat)
    requires n < PIPESIZE
    ensures Enabled(Storing(n), Run(1)) && Do(Storing(n), Run(1)) == Storing(n + 1)
  {
    hide Do;
    StoreStep(Storing(n), 1);
    assert Blanks(n) + [0] == Blanks(n + 1) && Ones(n) + [1] == Ones(n + 1);
    assert Blanks(PIPESIZE)[n % PIPESIZE := 0] == Blanks(PIPESIZE);
  }

  lemma {:induction false} Stores(n: nat)
    requires n <= PIPESIZE
    ensures Reachable(Storing(n))
  {
    hide Reachable, Enabled, Do, Storing;
    if n == 0 {
      WriterBegins();
    } else {
      Stores(n - 1);
      StoreOne(n - 1);
      ReachStep(Storing(n - 1), Run(1));
    }
  }

  /** The writer is killed at the full pipe, gives up and releases the lock; the reader sleeps on. */
  lemma KilledWriterLeavesReader()
    ensures Reachable(Two(PIPESIZE, None, None, RAsleep(1), Idle, true, true))
  {
    hide Reachable;
    Stores(PIPESIZE);
    var s0 := Storing(PIPESIZE);
    ReachStep(s0, Kill(1));
    var s1 := Two(PIPESIZE, Some(1), None, RAsleep(1), WLoop(Blanks(LINE), PIPESIZE), true, false);
    assert Do(s0, Kill(1)) == s1;
    ReachStep(s1, Run(1));
    var s2 := Two(PIPESIZE, Some(1), None, RAsleep(1), WRelease(-1), true, true);
    assert Do(s1, Run(1)) == s2;
    ReachStep(s2, Run(1));
    assert Do(s2, Run(1)) == Two(PIPESIZE, None, None, RAsleep(1), Idle, true, true);
  }

  /** A run in which a reader sleeps over a full pipe while the lock is free. */
  lemma OversleepingRun() returns (run: seq<State>)
    ensures IsRun(run) && !ReadersServed(run)
    ensures var s := run[|run| - 1];
            |s.pc| == 2 && s.lock == None && s.pc[0].RAsleep? && |s.sent| == PIPESIZE && s.got == []
  {
    hide IsRun;
    KilledWriterLeavesReader();
    var s := Two(PIPESIZE, None, None, RAsleep(1), Idle, true, true);
    run :| RunTo(run, s);
    var i: nat := |run| - 1;
    assert ReaderOversleeps(run[i], 0);
  }

  // ---------- The exact condition ----------

  /** Readers are served in every run, where kills of threads inside pipewrite may happen or not. */
  ghost predicate AlwaysServed(killWriters: bool) {
    forall run: seq<State> | IsRun(run) && (killWriters || SparesWriters(run)) :: ReadersServed(run)
  }

  /** No reader oversleeps, in any run, exactly when nobody is killed inside pipewrite. */
  lemma ServedIffWritersSpared(killWriters: bool)
    ensures AlwaysServed(killWriters) <==> !killWriters
  {
    hide IsRun, ReadersServed, SparesWriters;
    if killWriters {
      var run := OversleepingRun();
    } else {
      forall run: seq<State> | IsRun(run) && SparesWriters(run) ensures ReadersServed(run) { SparedReadersServed(run); }
    }
  }
}

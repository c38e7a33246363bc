/**
 What log.c and bio.c promise over whole runs: crash atomicity, durability,
 the value of every read, and the log space each call has reserved.
 */
module LogTheorems {
  import opened Basics
  import opened Blocks
  import opened LogDisk
  import opened LogMachine
  import opened LogProof
  import AD = AtomicDisk

  // ---------- Runs ----------

  lemma InitInv(l: Layout, s: State)
    requires Init(l, s)
    ensures Inv(l, s) && s.outstanding == 0 && Durable(l, s.disk) == Volatile(l, s)
  {
    NoActive(s.slots);
    DurableEmpty(l, s.disk);
    assert Logical(l, s) == HomeOf(l, s.disk);
  }

  /** No state of the run has more header entries than the log area has room for. */
  ghost predicate Fits(l: Layout, run: seq<State>) {
    forall i: nat | i < |run| :: |run[i].lh| < l.nlog
  }

  lemma {:induction false} RunInv(l: Layout, run: seq<State>, i: nat)
    requires IsRun(l, run) && Fits(l, run) && i < |run|
    ensures Inv(l, run[i])
  {
    if i == 0 {
      InitInv(l, run[0]);
    } else {
      RunInv(l, run, i - 1);
      assert StepAt(l, run, i - 1);
      var e :| Enabled(l, run[i - 1], e) && run[i] == Do(l, run[i - 1], e);
      Simulation(l, run[i - 1], e);
    }
  }

  /** No call is in progress and the file system is not recovering. */
  predicate Quiescent(s: State) {
    s.outstanding == 0 && !Recovering(s)
  }

  /** A step either leaves what is durable alone or makes a quiescent moment durable. */
  lemma DurableStep(l: Layout, s: State, s': State)
    requires Inv(l, s) && Next(l, s, s') && |s'.lh| < l.nlog
    ensures Inv(l, s')
    ensures Durable(l, s'.disk) == Durable(l, s.disk)
            || (Quiescent(s) && Durable(l, s'.disk) == Logical(l, s))
  {
    hide Inv, Enabled, Do, Durable, Logical;
    var e :| Enabled(l, s, e) && s' == Do(l, s, e);
    Simulation(l, s, e);
    CommitIdle(l, s, e);
  }

  /** Only the header write of a commit, with no call in progress, makes anything durable. */
  lemma CommitIdle(l: Layout, s: State, e: Step)
    requires Inv(l, s) && Enabled(l, s, e)
    ensures EventOf(s, e) == AD.Commit ==> Quiescent(s) && Volatile(l, s) == Logical(l, s)
    ensures WellFormed(l, s.disk)
  {
    hide Do, Durable, Logical;
  }

  /** A crash in state s would recover the logical contents of quiescent state t. */
  ghost predicate RecoversTo(l: Layout, s: State, t: State) {
    && WellFormed(l, s.disk) && |t.disk| == l.size
    && Quiescent(t) && Durable(l, s.disk) == Logical(l, t)
  }

  lemma RecoversToStep(l: Layout, s: State, s': State, t: State)
    requires Inv(l, s) && Next(l, s, s') && |s'.lh| < l.nlog && RecoversTo(l, s, t)
    ensures RecoversTo(l, s', t) || RecoversTo(l, s', s)
  {
    DurableStep(l, s, s');
  }

  lemma RecoversToNext(l: Layout, run: seq<State>, now: nat, t: State)
    requires IsRun(l, run) && Fits(l, run) && 0 < now < |run| && RecoversTo(l, run[now - 1], t)
    ensures RecoversTo(l, run[now], t) || RecoversTo(l, run[now], run[now - 1])
  {
    RunInv(l, run, now - 1);
    assert StepAt(l, run, now - 1);
    RecoversToStep(l, run[now - 1], run[now], t);
  }

  /**
   Whole-run atomicity and durability. If moment `base` is quiescent and durable
   (the start of the run, or the end of any commit), then whatever happens later,
   crashes and crashes during recovery included, the disk always recovers to the
   logical contents of some quiescent moment since `base`: no call is half
   applied and no committed call is lost.
   */
  lemma {:induction false} AlwaysRecoversToQuiescent(l: Layout, run: seq<State>, base: nat, now: nat)
    requires IsRun(l, run) && Fits(l, run) && base <= now < |run|
    requires RecoversTo(l, run[base], run[base])
    ensures exists m: nat | base <= m <= now :: RecoversTo(l, run[now], run[m])
  {
    if now > base {
      AlwaysRecoversToQuiescent(l, run, base, now - 1);
      var m: nat :| base <= m <= now - 1 && RecoversTo(l, run[now - 1], run[m]);
      RecoversToNext(l, run, now, run[m]);
    }
  }

  /** System calls are atomic: every crash recovers to a moment with no call in progress. */
  lemma SystemCallsAtomic(l: Layout, run: seq<State>, now: nat)
    requires IsRun(l, run) && Fits(l, run) && now < |run|
    ensures exists m: nat | m <= now :: RecoversTo(l, run[now], run[m])
  {
    InitInv(l, run[0]);
    AlwaysRecoversToQuiescent(l, run, 0, now);
    var m: nat :| 0 <= m <= now && RecoversTo(l, run[now], run[m]);
  }

  // ---------- What calls leave behind ----------

  /** The step from moment k on is the end of a call that leaves no other in progress. */
  predicate EndsAlone(run: seq<State>, k: nat)
    requires k + 1 < |run|
  {
    run[k].outstanding > 0 && run[k + 1].outstanding == 0 && !Recovering(run[k + 1])
  }

  /** What is durable is one of `good`, and so is what is shown while no call is in progress. */
  ghost predicate Among(l: Layout, s: State, good: set<map<nat, Block>>) {
    && WellFormed(l, s.disk) && Durable(l, s.disk) in good
    && (s.outstanding == 0 ==> Volatile(l, s) in good)
  }

  /** Between the ends of calls only changes inside calls can leave `good`. */
  lemma AmongStep(l: Layout, s: State, e: Step, good: set<map<nat, Block>>)
    requires Inv(l, s) && Enabled(l, s, e) && |Do(l, s, e).lh| < l.nlog && Among(l, s, good)
    requires var s' := Do(l, s, e); s.outstanding > 0 && s'.outstanding == 0 && !Recovering(s') && |s'.disk| == l.size ==> Logical(l, s') in good
    ensures Among(l, Do(l, s, e), good)
  {
    hide Inv, Enabled, Do, Durable, Logical, Recovering;
    Simulation(l, s, e);
    InvWellFormed(l, Do(l, s, e));
  }

  /**
   If every call that ends with no other in progress leaves one of the `good`
   contents, then a crash at any later step recovers one of them. It starts at
   any moment whose contents are durable: the beginning, or the end of a commit.
   */
  lemma {:induction false} RecoversWhatCallsLeft(l: Layout, run: seq<State>, base: nat, now: nat, good: set<map<nat, Block>>)
    requires IsRun(l, run) && Fits(l, run) && base <= now < |run|
    requires RecoversTo(l, run[base], run[base]) && Logical(l, run[base]) in good
    requires forall k: nat | base <= k < now && EndsAlone(run, k) && |run[k + 1].disk| == l.size :: Logical(l, run[k + 1]) in good
    ensures Among(l, run[now], good)
  {
    hide Inv, Enabled, Do, Durable, Logical, Recovering;
    if now > base {
      RecoversWhatCallsLeft(l, run, base, now - 1, good);
      RunInv(l, run, now - 1);
      assert StepAt(l, run, now - 1);
      var e :| Enabled(l, run[now - 1], e) && run[now] == Do(l, run[now - 1], e);
      assert EndsAlone(run, now - 1) ==> run[now - 1].outstanding > 0;
      AmongStep(l, run[now - 1], e, good);
    }
  }

  /** When the last end_op has finished its commit, everything logged is durable. */
  lemma FinishedCommitIsDurable(l: Layout, s: State)
    requires Inv(l, s) && s.phase.Finish?
    ensures Quiescent(s) && Durable(l, s.disk) == Logical(l, s)
  {
    DurableEmpty(l, s.disk);
    InvBudgeted(l, s);
    forall b: nat | l.Home(b) ensures Seen(s, b) == s.disk[b] {
      if b in s.cache { assert BufOk(l, s, b); }
    }
    assert Logical(l, s) == HomeOf(l, s.disk);
  }

  /** No call and no commit in progress means that nothing is logged. */
  predicate Settled(s: State) {
    s.phase.Idle? && s.outstanding == 0 ==> s.lh == []
  }

  lemma SettledStep(l: Layout, s: State, e: Step)
    requires Inv(l, s) && Enabled(l, s, e) && Settled(s)
    ensures Settled(Do(l, s, e))
  {
    hide EncodeHead, DecodeHead;
    if e.LogAppend? { AppendInCall(l, s, e.i); }
  }

  lemma AppendInCall(l: Layout, s: State, i: nat)
    requires Inv(l, s) && Enabled(l, s, LogAppend(i))
    ensures s.outstanding > 0
  {
    InvBudgeted(l, s);
  }

  lemma {:induction false} RunSettled(l: Layout, run: seq<State>, i: nat)
    requires IsRun(l, run) && Fits(l, run) && i < |run|
    ensures Inv(l, run[i]) && Settled(run[i])
  {
    hide Inv, Enabled, Do;
    RunInv(l, run, i);
    if i > 0 {
      RunSettled(l, run, i - 1);
      assert StepAt(l, run, i - 1);
      var e :| Enabled(l, run[i - 1], e) && run[i] == Do(l, run[i - 1], e);
      SettledStep(l, run[i - 1], e);
    }
  }

  /**
   Group commit: whenever no call is in progress and no commit or recovery under
   way, everything that calls have written is durable. So the last end_op of a
   group does not return before the writes of the whole group are.
   */
  lemma IdleIsDurable(l: Layout, run: seq<State>, i: nat)
    requires IsRun(l, run) && Fits(l, run) && i < |run| && run[i].phase.Idle? && run[i].outstanding == 0
    ensures run[i].lh == [] && WellFormed(l, run[i].disk) && Durable(l, run[i].disk) == Logical(l, run[i])
  {
    hide IsRun, Durable, Logical;
    RunSettled(l, run, i);
    NothingLogged(l, run[i]);
  }

  lemma NothingLogged(l: Layout, s: State)
    requires Inv(l, s) && s.phase.Idle? && s.outstanding == 0 && s.lh == []
    ensures WellFormed(l, s.disk) && Durable(l, s.disk) == Logical(l, s)
  {
    DurableEmpty(l, s.disk);
    InvBudgeted(l, s);
    forall b: nat | l.Home(b) ensures Seen(s, b) == s.disk[b] {
      if b in s.cache { assert BufOk(l, s, b); }
    }
    assert Logical(l, s) == HomeOf(l, s.disk);
  }

  /** All old before the header write, all new from the header write on. */
  lemma CommitIsAtomic(l: Layout, s: State)
    requires Inv(l, s) && Enabled(l, s, Advance) && !Recovering(s)
    ensures var s' := Do(l, s, Advance);
            && Inv(l, s') && Logical(l, s') == Logical(l, s)
            && Durable(l, s'.disk) == if s.phase.WriteHead? then Logical(l, s) else Durable(l, s.disk)
  {
    Simulation(l, s, Advance);
  }

  /** A completed recovery leaves on the home blocks exactly what was durable at the crash. */
  lemma RecoveryCompletes(l: Layout, s: State)
    requires Inv(l, s) && Enabled(l, s, Advance) && Recovering(s)
    ensures var s' := Do(l, s, Advance);
            && Inv(l, s') && Durable(l, s'.disk) == Durable(l, s.disk)
            && (!Recovering(s') ==> s'.phase.Idle? && HomeOf(l, s'.disk) == Durable(l, s.disk) == Logical(l, s'))
  {
    Simulation(l, s, Advance);
    var s' := Do(l, s, Advance);
    if s'.phase.Idle? {
      DurableEmpty(l, s'.disk);
    }
  }

  // ---------- What readers see ----------

  ghost predicate StepIs(l: Layout, run: seq<State>, es: seq<Step>, i: nat)
    requires i < |es| && |run| == |es| + 1
  {
    Enabled(l, run[i], es[i]) && run[i + 1] == Do(l, run[i], es[i])
  }

  /** A run together with the steps it takes. */
  ghost predicate Steps(l: Layout, run: seq<State>, es: seq<Step>) {
    |run| == |es| + 1 && Init(l, run[0]) && forall i: nat | i < |es| :: StepIs(l, run, es, i)
  }

  lemma StepsAreRun(l: Layout, run: seq<State>, es: seq<Step>)
    requires Steps(l, run, es)
    ensures IsRun(l, run)
  {
    hide Enabled, Do, Init;
    forall i: nat | i + 1 < |run| ensures StepAt(l, run, i) { assert StepIs(l, run, es, i); }
  }

  /** Every run takes some steps. */
  lemma {:induction false} RunHasSteps(l: Layout, run: seq<State>) returns (es: seq<Step>)
    requires IsRun(l, run)
    ensures Steps(l, run, es)
    decreases |run|
  {
    hide Enabled, Do, Init;
    var n := |run| - 1;
    if n == 0 {
      es := [];
    } else {
      var p := run[..n];
      forall i: nat | i + 1 < |p| ensures StepAt(l, p, i) { assert StepAt(l, run, i); }
      var fs := RunHasSteps(l, p);
      assert StepAt(l, run, n - 1);
      var e :| Enabled(l, run[n - 1], e) && run[n] == Do(l, run[n - 1], e);
      es := fs + [e];
      forall i: nat | i < |es| ensures StepIs(l, run, es, i) {
        if i < n - 1 { assert StepIs(l, p, fs, i); }
      }
    }
  }

  /**
   The contents block b should have at moment now: the data of the last change
   to it since the last crash, else what recovery from that crash leaves, else
   what the disk held at the start.
   */
  ghost function Latest(l: Layout, run: seq<State>, es: seq<Step>, now: nat, b: nat): Block
    requires Steps(l, run, es) && now <= |es| && l.Home(b)
  {
    if now == 0 then (if b < |run[0].disk| then run[0].disk[b] else ZeroBlock)
    else if es[now - 1].Modify? && es[now - 1].b == b then es[now - 1].data
    else if es[now - 1].Crash? && WellFormed(l, run[now - 1].disk) then Recover(l, run[now - 1].disk)[b]
    else Latest(l, run, es, now - 1, b)
  }

  lemma StepVolatile(l: Layout, s: State, e: Step, b: nat)
    requires Inv(l, s) && Enabled(l, s, e) && |Do(l, s, e).lh| < l.nlog && l.Home(b)
    ensures Inv(l, Do(l, s, e)) && b in Volatile(l, s) && b in Volatile(l, Do(l, s, e))
    ensures Volatile(l, Do(l, s, e))[b] ==
            if e.Modify? && e.b == b then e.data
            else if e.Crash? then Recover(l, s.disk)[b]
            else Volatile(l, s)[b]
  {
    hide Enabled, Inv, Recover, Durable, Do, Logical;
    Simulation(l, s, e);
    InvWellFormed(l, s);
    RecoverIsDurable(l, s.disk);
    InvWellFormed(l, Do(l, s, e));
    HomeKnown(l, s, b);
    HomeKnown(l, Do(l, s, e), b);
    assert HomeOf(l, Recover(l, s.disk))[b] == Recover(l, s.disk)[b];
  }

  lemma {:induction false} VolatileIsLatest(l: Layout, run: seq<State>, es: seq<Step>, now: nat, b: nat)
    requires Steps(l, run, es) && IsRun(l, run) && Fits(l, run) && now <= |es| && l.Home(b)
    ensures Inv(l, run[now]) && b in Volatile(l, run[now]) && Volatile(l, run[now])[b] == Latest(l, run, es, now, b)
  {
    hide Inv, Enabled, Do, Volatile, Recover;
    if now == 0 {
      InitVolatile(l, run[0], b);
    } else {
      VolatileIsLatest(l, run, es, now - 1, b);
      assert StepIs(l, run, es, now - 1);
      StepVolatile(l, run[now - 1], es[now - 1], b);
      InvWellFormed(l, run[now - 1]);
    }
  }

  lemma InitVolatile(l: Layout, s: State, b: nat)
    requires Init(l, s) && l.Home(b)
    ensures Inv(l, s) && b in Volatile(l, s) && b < |s.disk| && Volatile(l, s)[b] == s.disk[b]
  {
    InitInv(l, s);
  }

  lemma HomeKnown(l: Layout, s: State, b: nat)
    requires WellFormed(l, s.disk) && l.Home(b)
    ensures b in Volatile(l, s) && b in Durable(l, s.disk)
  {
    hide DecodeHead;
  }

  lemma InvWellFormed(l: Layout, s: State)
    requires Inv(l, s)
    ensures WellFormed(l, s.disk)
  {
  }

  /**
   bread returns the latest contents over whole runs: whatever calls, commits,
   evictions and crashes came before, what the cache and the disk show for a
   block is its last change, or what the last recovery left, and that is what
   a reader is handed.
   */
  lemma BreadReturnsLatest(l: Layout, run: seq<State>, es: seq<Step>, now: nat, b: nat)
    requires Steps(l, run, es) && Fits(l, run) && now <= |es| && l.Home(b) && !Recovering(run[now])
    ensures b < |run[now].disk| && Seen(run[now], b) == Latest(l, run, es, now, b)
    ensures now < |es| && es[now].Bread? && es[now].b == b ==>
              b in run[now + 1].cache && run[now + 1].cache[b].data == Latest(l, run, es, now, b)
  {
    hide Inv, Latest, Init;
    StepsAreRun(l, run, es);
    VolatileIsLatest(l, run, es, now, b);
    InvWellFormed(l, run[now]);
    if now < |es| { assert StepIs(l, run, es, now); }
  }

  /** Every run has such steps, so in every run what is shown is the latest contents. */
  lemma RunShowsLatest(l: Layout, run: seq<State>, now: nat, b: nat) returns (es: seq<Step>)
    requires IsRun(l, run) && Fits(l, run) && now < |run| && l.Home(b) && !Recovering(run[now])
    ensures Steps(l, run, es) && b < |run[now].disk| && Seen(run[now], b) == Latest(l, run, es, now, b)
  {
    hide IsRun, Steps, Latest;
    es := RunHasSteps(l, run);
    StepsLong(l, run, es);
    BreadReturnsLatest(l, run, es, now, b);
  }

  lemma StepsLong(l: Layout, run: seq<State>, es: seq<Step>)
    requires Steps(l, run, es)
    ensures |run| == |es| + 1
  {
    hide Init;
  }

  // ---------- Buffer locks ----------

  function HolderOf(s: State, b: nat): Holder {
    if b in s.cache then s.cache[b].holder else Free
  }

  /** A buffer is held from bread to brelse by the one who read it; no eviction, commit or other call takes it away. */
  lemma HeldUntilReleased(l: Layout, s: State, e: Step, b: nat)
    requires Inv(l, s) && Enabled(l, s, e) && e != Crash && !Recovering(s)
    ensures HolderOf(Do(l, s, e), b) ==
            if e.Bread? && e.b == b then e.who else if e == Brelse(b) then Free else HolderOf(s, b)
    ensures e.Bread? && e.b == b ==> HolderOf(s, b) == Free
  {
    hide EncodeHead, DecodeHead;
    assert b in s.cache ==> BufOk(l, s, b);
    if e == Advance { WritesUnheld(l, s); }
  }

  lemma WritesUnheld(l: Layout, s: State)
    requires Inv(l, s) && Enabled(l, s, Advance) && !Recovering(s)
    ensures forall b: nat | l.InLog(b) :: HolderOf(s, b) == Free
  {
    hide EncodeHead, DecodeHead, Durable;
    forall b: nat | l.InLog(b) && b in s.cache ensures HolderOf(s, b) == Free { assert BufOk(l, s, b); }
  }

  // ---------- Log space ----------

  /** Where the log area has room for LOGSIZE blocks, no step can overrun it. */
  lemma RoomForStep(l: Layout, s: State, e: Step)
    requires Inv(l, s) && Enabled(l, s, e) && l.nlog > LOGSIZE
    ensures |Do(l, s, e).lh| < l.nlog
  {
    if e.LogAppend? && s.slots[e.i].pending.value !in s.lh { AppendFits(l, s, e.i); }
  }

  lemma {:induction false} RoomForRun(l: Layout, run: seq<State>, n: nat)
    requires IsRun(l, run) && l.nlog > LOGSIZE && n <= |run|
    ensures forall i: nat | i < n :: Inv(l, run[i])
  {
    hide Inv, Enabled, Do, Init;
    if n == 1 {
      InitInv(l, run[0]);
    } else if n > 1 {
      RoomForRun(l, run, n - 1);
      assert StepAt(l, run, n - 2);
      var e :| Enabled(l, run[n - 2], e) && run[n - 1] == Do(l, run[n - 2], e);
      RoomForStep(l, run[n - 2], e);
      Simulation(l, run[n - 2], e);
    }
  }

  /** With more than LOGSIZE log blocks every run fits. */
  lemma RoomFits(l: Layout, run: seq<State>)
    requires IsRun(l, run) && l.nlog > LOGSIZE
    ensures Fits(l, run)
  {
    RoomForRun(l, run, |run|);
  }

  /** A call within its budget always finds room for a block it has not logged yet. */
  lemma FreshLogWriteNeverPanics(l: Layout, run: seq<State>, now: nat, i: nat, b: nat)
    requires IsRun(l, run) && l.nlog > LOGSIZE && now < |run|
    requires i < |run[now].slots| && run[now].slots[i].Active?
    requires b !in run[now].slots[i].logged && |run[now].slots[i].logged + {b}| <= MAXOPBLOCKS
    ensures CheckPasses(l, run[now])
  {
    var s := run[now];
    RoomFits(l, run);
    RunInv(l, run, now);
    InvBudgeted(l, s);
    ReserveBounds(s.slots);
    assert |s.slots[i].logged + {b}| == |s.slots[i].logged| + 1;
    assert Unused(s.slots[i]) <= Reserve(s.slots);
  }

  /** end_op's panic("log.committing") is unreachable. */
  lemma EndOpNeverDuringCommit(l: Layout, run: seq<State>, now: nat, i: nat)
    requires IsRun(l, run) && Fits(l, run) && now < |run|
    requires Enabled(l, run[now], EndOp(i))
    ensures run[now].phase.Idle?
  {
    RunInv(l, run, now);
    SlotsAfterEnd(l, run[now], i);
  }
}

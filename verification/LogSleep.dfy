/**
 The sleeping in begin_op and the waking in end_op, at the grain of single lock
 operations: log.lock and ptable.lock are state, and a process that calls sleep
 holds ptable.lock while it gives up log.lock. Any number of processes begin,
 log, end and commit; commit itself runs without a lock.
 */
module LogSleep {
  import opened Basics
  import opened LogDisk

  /**
   Where a process is. begin_op: wants the lock, at the loop head, about to
   sleep, falling asleep, asleep, counted in. Then inside its call; log_write:
   wants the lock, has it, about to release. end_op: wants the lock, has it,
   about to wake, about to release. The last one out: commits, wants the lock
   again, has it, about to wake.
   */
  datatype Pc =
    | Idle
    | BWant | BTest | BSleep | BFall | BAsleep | BRelease
    | Inside | AWant | AHold | ARelease
    | EWant | EHold | EWake | ERelease(commits: bool)
    | Commit | CWant | CHold | CWake
    | Dead

  /** n is log.lh.n; Dead marks a process that met panic("log.committing"). */
  datatype State = State(n: nat, outstanding: int, committing: bool, lock: Option<nat>, plock: Option<nat>, pc: seq<Pc>)

  /** A call that begin_op has counted and end_op has not yet discounted. */
  predicate Active(p: Pc) { p.BRelease? || p.Inside? || p.AWant? || p.AHold? || p.ARelease? || p.EWant? || p.EHold? }

  /** The process that commits, until it has said that it is done. */
  predicate Commits(p: Pc) { p == ERelease(true) || p.Commit? || p.CWant? || p.CHold? }

  predicate HasLock(p: Pc) {
    p.BTest? || p.BSleep? || p.BRelease? || p.AHold? || p.ARelease? || p.EHold? || p.EWake? || p.ERelease? || p.CHold? || p.CWake?
  }

  predicate Wants(p: Pc) { p.BWant? || p.AWant? || p.EWant? || p.CWant? }

  /** What begin_op tests: a commit is under way, or this call might exhaust the log. */
  predicate MustWait(s: State) {
    s.committing || s.n + (s.outstanding + 1) * MAXOPBLOCKS > LOGSIZE
  }

  // ---------- Steps ----------

  /** isNew: log_write finds the block not yet in the header. */
  datatype Step = Begin(t: nat) | Write(t: nat) | End(t: nat) | Acquire(t: nat) | Run(t: nat, isNew: bool) | Kill(t: nat)

  function Wake(p: Pc): Pc { if p.BAsleep? then BWant else p }

  function WakeAll(pc: seq<Pc>): (r: seq<Pc>)
    ensures |r| == |pc| && forall t | 0 <= t < |pc| :: r[t] == Wake(pc[t])
  {
    seq(|pc|, t requires 0 <= t < |pc| => Wake(pc[t]))
  }

  predicate Enabled(s: State, e: Step) {
    e.t < |s.pc| &&
    match e
    case Begin(t) => s.pc[t].Idle?
    case Write(t) => s.pc[t].Inside?
    case End(t) => s.pc[t].Inside?
    case Acquire(t) => Wants(s.pc[t]) && s.lock == None
    case Kill(t) => s.plock == None
    case Run(t, _) =>
      match s.pc[t]
      case BSleep => s.plock == None
      case EWake => s.plock == None
      case CWake => s.plock == None
      case Idle => false
      case BAsleep => false
      case Inside => false
      case Dead => false
      case p => !Wants(p)
  }

  function Do(s: State, e: Step): State
    requires Enabled(s, e)
  {
    var t := e.t;
    match e
    case Begin(_) => s.(pc := s.pc[t := BWant])
    case Write(_) => s.(pc := s.pc[t := AWant])
    case End(_) => s.(pc := s.pc[t := EWant])
    case Acquire(_) =>
      var p := s.pc[t];
      s.(lock := Some(t), pc := s.pc[t := if p.BWant? then BTest else if p.AWant? then AHold else if p.EWant? then EHold else CHold])
    case Kill(_) => s.(pc := s.pc[t := Wake(s.pc[t])])
    case Run(_, isNew) => Advance(s, t, isNew)
  }

  /** What process t does next, inside begin_op, log_write or end_op. */
  function Advance(s: State, t: nat, isNew: bool): State
    requires Enabled(s, Run(t, isNew))
  {
    match s.pc[t]
    case BTest =>
      if MustWait(s) then s.(pc := s.pc[t := BSleep]) else s.(outstanding := s.outstanding + 1, pc := s.pc[t := BRelease])
    case BSleep => s.(plock := Some(t), lock := None, pc := s.pc[t := BFall])
    case BFall => s.(plock := None, pc := s.pc[t := BAsleep])
    case BRelease => s.(lock := None, pc := s.pc[t := Inside])
    case AHold => s.(n := if isNew then s.n + 1 else s.n, pc := s.pc[t := ARelease])
    case ARelease => s.(lock := None, pc := s.pc[t := Inside])
    case EHold =>
      var k := s.outstanding - 1;
      if s.committing then s.(outstanding := k, pc := s.pc[t := Dead])
      else if k == 0 then s.(outstanding := k, committing := true, pc := s.pc[t := ERelease(true)])
      else s.(outstanding := k, pc := s.pc[t := EWake])
    case EWake => s.(pc := WakeAll(s.pc)[t := ERelease(false)])
    case ERelease(commits) => s.(lock := None, pc := s.pc[t := if commits then Commit else Idle])
    case Commit => s.(n := 0, pc := s.pc[t := CWant])
    case CHold => s.(committing := false, pc := s.pc[t := CWake])
    case _ => s.(pc := WakeAll(s.pc)[t := ERelease(false)])
  }

  /** After initlog. */
  predicate Start(s: State) {
    && s.n == 0 && s.outstanding == 0 && !s.committing && s.lock == None && s.plock == None
    && forall t | 0 <= t < |s.pc| :: s.pc[t].Idle?
  }

  // ---------- Counting processes ----------

  function Count(pc: seq<Pc>, f: Pc -> bool): nat {
    if pc == [] then 0 else Count(pc[..|pc| - 1], f) + if f(pc[|pc| - 1]) then 1 else 0
  }

  lemma {:induction false} CountNone(pc: seq<Pc>, f: Pc -> bool)
    requires forall t | 0 <= t < |pc| :: !f(pc[t])
    ensures Count(pc, f) == 0
  {
    if pc != [] { CountNone(pc[..|pc| - 1], f); }
  }

  lemma {:induction false} CountSome(pc: seq<Pc>, f: Pc -> bool, t: nat)
    requires t < |pc| && f(pc[t])
    ensures Count(pc, f) > 0
  {
    if t < |pc| - 1 { CountSome(pc[..|pc| - 1], f, t); }
  }

  lemma {:induction false} Counted(pc: seq<Pc>, f: Pc -> bool) returns (t: nat)
    requires Count(pc, f) > 0
    ensures t < |pc| && f(pc[t])
  {
    t := |pc| - 1;
    if !f(pc[t]) { t := Counted(pc[..t], f); }
  }

  lemma {:induction false} CountPut(pc: seq<Pc>, f: Pc -> bool, t: nat, p: Pc)
    requires t < |pc|
    ensures Count(pc[t := p], f) == Count(pc, f) + (if f(p) then 1 else 0) - if f(pc[t]) then 1 else 0
  {
    var m, pc' := |pc| - 1, pc[t := p];
    if t == m {
      assert pc'[..m] == pc[..m];
    } else {
      CountPut(pc[..m], f, t, p);
      assert pc'[..m] == pc[..m][t := p];
    }
  }

  lemma {:induction false} CountSame(pc: seq<Pc>, qc: seq<Pc>, f: Pc -> bool)
    requires |pc| == |qc| && forall t | 0 <= t < |pc| :: f(qc[t]) == f(pc[t])
    ensures Count(qc, f) == Count(pc, f)
  {
    if pc != [] { CountSame(pc[..|pc| - 1], qc[..|pc| - 1], f); }
  }

  // ---------- The invariant ----------

  /** Process t, asleep in begin_op or past the point of no return, could go ahead. */
  predicate Oversleeps(s: State, t: nat)
    requires t < |s.pc|
  {
    (s.pc[t].BFall? || s.pc[t].BAsleep?) && !MustWait(s)
  }

  /** outstanding counts the calls, at most one process commits, and then there is no call; with neither the log is empty. */
  predicate Counts(s: State) {
    && s.outstanding == Count(s.pc, Active) && Count(s.pc, Commits) == (if s.committing then 1 else 0)
    && (s.committing ==> s.outstanding == 0) && (s.outstanding == 0 && !s.committing ==> s.n == 0)
    && (s.lock.Some? ==> s.lock.value < |s.pc|) && (s.plock.Some? ==> s.plock.value < |s.pc|)
  }

  predicate ProcessOk(s: State, t: nat)
    requires t < |s.pc|
  {
    && !s.pc[t].Dead?
    && (HasLock(s.pc[t]) <==> s.lock == Some(t))
    && (s.pc[t].BFall? <==> s.plock == Some(t))
    && (s.pc[t].BSleep? ==> MustWait(s))
    && (s.pc[t].CWant? || s.pc[t].CHold? ==> s.n == 0)
    && (Active(s.pc[t]) ==> s.outstanding > 0) && (Commits(s.pc[t]) ==> s.committing)
    // whoever lets a sleeper go ahead still has the lock and is about to wake it
    && (Oversleeps(s, t) ==> s.lock.Some? && s.lock.value < |s.pc| && (s.pc[s.lock.value].EWake? || s.pc[s.lock.value].CWake?))
  }

  predicate Inv(s: State) {
    Counts(s) && forall t: nat | t < |s.pc| :: ProcessOk(s, t)
  }

  /** The counts after one process has moved. */
  lemma Moved(s: State, s': State, t: nat)
    requires t < |s.pc| == |s'.pc| && forall u: nat | u < |s.pc| && u != t :: s'.pc[u] == s.pc[u] || s'.pc[u] == Wake(s.pc[u])
    ensures Count(s'.pc, Active) == Count(s.pc, Active) + (if Active(s'.pc[t]) then 1 else 0) - if Active(s.pc[t]) then 1 else 0
    ensures Count(s'.pc, Commits) == Count(s.pc, Commits) + (if Commits(s'.pc[t]) then 1 else 0) - if Commits(s.pc[t]) then 1 else 0
  {
    var m := s.pc[t := s'.pc[t]];
    CountPut(s.pc, Active, t, s'.pc[t]);
    CountPut(s.pc, Commits, t, s'.pc[t]);
    CountSame(m, s'.pc, Active);
    CountSame(m, s'.pc, Commits);
  }

  /** Every process is active or commits only if the counts say so. */
  lemma CountsTell(s: State, t: nat)
    requires Counts(s) && t < |s.pc|
    ensures Active(s.pc[t]) ==> s.outstanding > 0
    ensures Commits(s.pc[t]) ==> s.committing
  {
    if Active(s.pc[t]) { CountSome(s.pc, Active, t); }
    if Commits(s.pc[t]) { CountSome(s.pc, Commits, t); }
  }

  /** A process begins or ends a call or a log_write, gets the lock, or is killed. */
  lemma Outer(s: State, e: Step)
    requires Inv(s) && Enabled(s, e) && !e.Run?
    ensures Inv(Do(s, e))
  {
    hide Count, Inv;
    var s' := Do(s, e);
    At(s, e.t);
    Moved(s, s', e.t);
    forall u: nat | u < |s'.pc| ensures ProcessOk(s', u) {
      At(s, u);
      CountsTell(s', u);
    }
    Processes(s');
  }

  /** begin_op: it waits or is counted in. */
  lemma BeginInv(s: State, e: Step)
    requires Inv(s) && Enabled(s, e) && e.Run? && (s.pc[e.t].BTest? || s.pc[e.t].BRelease?)
    ensures Inv(Do(s, e))
  {
    hide Count, Inv;
    var s' := Do(s, e);
    At(s, e.t);
    Moved(s, s', e.t);
    forall u: nat | u < |s'.pc| ensures ProcessOk(s', u) {
      At(s, u);
      CountsTell(s', u);
    }
    Processes(s');
  }

  /** sleep: ptable.lock is taken before log.lock is given up. */
  lemma SleepInv(s: State, e: Step)
    requires Inv(s) && Enabled(s, e) && e.Run? && (s.pc[e.t].BSleep? || s.pc[e.t].BFall?)
    ensures Inv(Do(s, e))
  {
    hide Count, Inv;
    var s' := Do(s, e);
    At(s, e.t);
    Moved(s, s', e.t);
    forall u: nat | u < |s'.pc| ensures ProcessOk(s', u) {
      At(s, u);
      CountsTell(s', u);
    }
    Processes(s');
  }

  /** log_write: the log gets no emptier. */
  lemma WriteInv(s: State, e: Step)
    requires Inv(s) && Enabled(s, e) && e.Run? && (s.pc[e.t].AHold? || s.pc[e.t].ARelease?)
    ensures Inv(Do(s, e))
  {
    hide Count, Inv;
    var s' := Do(s, e);
    At(s, e.t);
    Moved(s, s', e.t);
    forall u: nat | u < |s'.pc| ensures ProcessOk(s', u) {
      At(s, u);
      CountsTell(s', u);
    }
    Processes(s');
  }

  /** end_op: the last call commits, any other is about to wake the sleepers. */
  lemma EndInv(s: State, e: Step)
    requires Inv(s) && Enabled(s, e) && e.Run? && (s.pc[e.t].EHold? || s.pc[e.t].ERelease?)
    ensures Inv(Do(s, e))
  {
    hide Count, Inv;
    var s' := Do(s, e);
    At(s, e.t);
    Moved(s, s', e.t);
    forall u: nat | u < |s'.pc| ensures ProcessOk(s', u) {
      At(s, u);
      CountsTell(s', u);
    }
    Processes(s');
  }

  /** The commit empties the log while nobody is let in. */
  lemma CommitInv(s: State, e: Step)
    requires Inv(s) && Enabled(s, e) && e.Run? && (s.pc[e.t].Commit? || s.pc[e.t].CHold?)
    ensures Inv(Do(s, e))
  {
    hide Count, Inv;
    var s' := Do(s, e);
    At(s, e.t);
    Moved(s, s', e.t);
    forall u: nat | u < |s'.pc| ensures ProcessOk(s', u) {
      At(s, u);
      CountsTell(s', u);
    }
    Processes(s');
  }

  /** wakeup: nobody is left asleep. */
  lemma WakeInv(s: State, e: Step)
    requires Inv(s) && Enabled(s, e) && e.Run? && (s.pc[e.t].EWake? || s.pc[e.t].CWake?)
    ensures Inv(Do(s, e))
  {
    hide Count, Inv;
    var s' := Do(s, e);
    At(s, e.t);
    Moved(s, s', e.t);
    forall u: nat | u < |s'.pc| ensures ProcessOk(s', u) {
      At(s, u);
      CountsTell(s', u);
    }
    Processes(s');
  }

  lemma StepInv(s: State, e: Step)
    requires Inv(s) && Enabled(s, e)
    ensures Inv(Do(s, e))
  {
    hide Inv, Do;
    if !e.Run? {
      Outer(s, e);
    } else {
      match s.pc[e.t]
      case BTest => BeginInv(s, e);
      case BRelease => BeginInv(s, e);
      case BSleep => SleepInv(s, e);
      case BFall => SleepInv(s, e);
      case AHold => WriteInv(s, e);
      case ARelease => WriteInv(s, e);
      case EHold => EndInv(s, e);
      case ERelease(_) => EndInv(s, e);
      case Commit => CommitInv(s, e);
      case CHold => CommitInv(s, e);
      case EWake => WakeInv(s, e);
      case CWake => WakeInv(s, e);
    }
  }

  lemma At(s: State, t: nat)
    requires Inv(s) && t < |s.pc|
    ensures Counts(s) && ProcessOk(s, t)
  {
    hide Counts, ProcessOk;
  }

  lemma Processes(s: State)
    requires Counts(s) && forall t: nat | t < |s.pc| :: ProcessOk(s, t)
    ensures Inv(s)
  {
    hide Counts, ProcessOk;
  }

  // ---------- Runs ----------

  ghost predicate StepAt(run: seq<State>, i: nat)
    requires i + 1 < |run|
  {
    exists e :: Enabled(run[i], e) && run[i + 1] == Do(run[i], e)
  }

  ghost predicate IsRun(run: seq<State>) {
    |run| > 0 && Start(run[0]) && forall i: nat | i + 1 < |run| :: StepAt(run, i)
  }

  lemma StartInv(s: State)
    requires Start(s)
    ensures Inv(s)
  {
    CountNone(s.pc, Active);
    CountNone(s.pc, Commits);
  }

  lemma {:induction false} RunInv(run: seq<State>, i: nat)
    requires IsRun(run) && i < |run|
    ensures Inv(run[i])
  {
    hide Inv, Enabled, Do;
    if i == 0 {
      StartInv(run[0]);
    } else {
      RunInv(run, i - 1);
      assert StepAt(run, i - 1);
      var e :| Enabled(run[i - 1], e) && run[i] == Do(run[i - 1], e);
      StepInv(run[i - 1], e);
    }
  }

  /** No lost wakeup: while log.lock is free, whoever sleeps in begin_op has to, because of a commit or for want of log space. */
  lemma NobodyOversleeps(run: seq<State>, i: nat, t: nat)
    requires IsRun(run) && i < |run| && t < |run[i].pc| && run[i].lock == None
    ensures run[i].pc[t].BAsleep? ==> run[i].committing || run[i].n + (run[i].outstanding + 1) * MAXOPBLOCKS > LOGSIZE
  {
    hide IsRun, Inv;
    RunInv(run, i);
    At(run[i], t);
  }

  /** And nobody sleeps for good: another process is inside a call, or committing, and will come to wake it. */
  lemma SleeperHasWaker(run: seq<State>, i: nat, t: nat) returns (u: nat)
    requires IsRun(run) && i < |run| && t < |run[i].pc| && run[i].lock == None && run[i].pc[t].BAsleep?
    ensures u < |run[i].pc| && (Active(run[i].pc[u]) || Commits(run[i].pc[u]))
  {
    hide IsRun, Inv;
    RunInv(run, i);
    At(run[i], t);
    if run[i].committing { u := Counted(run[i].pc, Commits); } else { u := Counted(run[i].pc, Active); }
  }

  /** end_op never meets a commit under way. */
  lemma EndOpNeverPanics(run: seq<State>, i: nat, t: nat)
    requires IsRun(run) && i < |run| && t < |run[i].pc|
    ensures !run[i].pc[t].Dead? && (run[i].pc[t].EHold? ==> !run[i].committing)
  {
    hide IsRun, Inv;
    RunInv(run, i);
    At(run[i], t);
  }

  /** One process commits at a time, while no call is in progress. */
  lemma CommitsAlone(run: seq<State>, i: nat, t: nat, u: nat)
    requires IsRun(run) && i < |run| && t < |run[i].pc| && u < |run[i].pc| && t != u && Commits(run[i].pc[t])
    ensures !Commits(run[i].pc[u]) && !Active(run[i].pc[u])
  {
    hide IsRun, Inv;
    RunInv(run, i);
    At(run[i], t);
    At(run[i], u);
    CountTwo(run[i].pc, Commits, t, u);
  }

  lemma {:induction false} CountTwo(pc: seq<Pc>, f: Pc -> bool, t: nat, u: nat)
    requires t < |pc| && u < |pc| && t != u
    ensures f(pc[t]) && f(pc[u]) ==> Count(pc, f) >= 2
  {
    if f(pc[t]) && f(pc[u]) {
      var m := |pc| - 1;
      if t == m {
        CountSome(pc[..m], f, u);
      } else if u == m {
        CountSome(pc[..m], f, t);
      } else {
        CountTwo(pc[..m], f, t, u);
      }
    }
  }
}

/**
 SSU_Sem.c as a step machine over its three mutexes and its condition
 variable, for any number of threads. A waiter may also wake without a
 broadcast, as POSIX allows.
 */
module Semaphore {
  import opened Basics

  /**
   Down: wants mutex_down, wants mutex_counter, decrements, tests, waits, was
   notified, unlocks mutex_counter, unlocks mutex_down. Up: likewise.
   */
  datatype Pc =
    | Idle
    | DownLock | CounterLock | Decrement | Test | Waiting | Notified | CounterUnlock | DownUnlock
    | UpLock | UpCounterLock | Increment | Broadcast | UpCounterUnlock | UpUnlock

  /** ups and downs count increments and decrements that got past the wait. */
  datatype State = State(
    counter: int, down: Option<nat>, up: Option<nat>, mutex: Option<nat>, pc: seq<Pc>,
    initial: nat, ups: nat, downs: nat)

  datatype Step = BeginDown(t: nat) | BeginUp(t: nat) | Run(t: nat) | Spurious(t: nat)

  predicate Enabled(s: State, e: Step) {
    e.t < |s.pc| &&
    match e
    case BeginDown(t) => s.pc[t] == Idle
    case BeginUp(t) => s.pc[t] == Idle
    case Spurious(t) => s.pc[t] == Waiting
    case Run(t) =>
      match s.pc[t]
      case Idle => false
      case Waiting => false
      case DownLock => s.down == None
      case UpLock => s.up == None
      case CounterLock => s.mutex == None
      case UpCounterLock => s.mutex == None
      case Notified => s.mutex == None
      case _ => true
  }

  function Notify(p: Pc): Pc { if p == Waiting then Notified else p }

  function NotifyAll(pc: seq<Pc>): (r: seq<Pc>)
    ensures |r| == |pc| && forall t | 0 <= t < |pc| :: r[t] == Notify(pc[t])
  {
    seq(|pc|, t requires 0 <= t < |pc| => Notify(pc[t]))
  }

  function Do(s: State, e: Step): State
    requires Enabled(s, e)
  {
    var t := e.t;
    match e
    case BeginDown(_) => s.(pc := s.pc[t := DownLock])
    case BeginUp(_) => s.(pc := s.pc[t := UpLock])
    case Spurious(_) => s.(pc := s.pc[t := Notified])
    case Run(_) =>
      match s.pc[t]
      case DownLock => s.(pc := s.pc[t := CounterLock], down := Some(t))
      case CounterLock => s.(pc := s.pc[t := Decrement], mutex := Some(t))
      case Decrement => s.(pc := s.pc[t := Test], counter := s.counter - 1)
      case Test =>
        if s.counter < 0 then s.(pc := s.pc[t := Waiting], mutex := None)
        else s.(pc := s.pc[t := CounterUnlock], downs := s.downs + 1)
      case Notified => s.(pc := s.pc[t := Test], mutex := Some(t))
      case CounterUnlock => s.(pc := s.pc[t := DownUnlock], mutex := None)
      case DownUnlock => s.(pc := s.pc[t := Idle], down := None)
      case UpLock => s.(pc := s.pc[t := UpCounterLock], up := Some(t))
      case UpCounterLock => s.(pc := s.pc[t := Increment], mutex := Some(t))
      case Increment => s.(pc := s.pc[t := Broadcast], counter := s.counter + 1, ups := s.ups + 1)
      case Broadcast => s.(pc := NotifyAll(s.pc)[t := UpCounterUnlock])
      case UpCounterUnlock => s.(pc := s.pc[t := UpUnlock], mutex := None)
      case UpUnlock => s.(pc := s.pc[t := Idle], up := None)
      case _ => s
  }

  /** SSU_Sem_init with a value of at least 0. */
  ghost predicate Start(s: State) {
    && s.counter == s.initial && s.down == None && s.up == None && s.mutex == None && s.ups == 0 && s.downs == 0
    && forall t: nat | t < |s.pc| :: s.pc[t] == Idle
  }

  ghost predicate StepAt(run: seq<State>, i: nat)
    requires i + 1 < |run|
  {
    exists e :: Enabled(run[i], e) && run[i + 1] == Do(run[i], e)
  }

  ghost predicate IsRun(run: seq<State>) {
    |run| > 0 && Start(run[0]) && forall i: nat | i + 1 < |run| :: StepAt(run, i)
  }

  // ---------- The invariant ----------

  predicate HoldsDown(p: Pc) {
    p == CounterLock || p == Decrement || p == Test || p == Waiting || p == Notified || p == CounterUnlock || p == DownUnlock
  }

  predicate HoldsMutex(p: Pc) {
    p == Decrement || p == Test || p == CounterUnlock || p == Increment || p == Broadcast || p == UpCounterUnlock
  }

  /** Has taken its unit off the counter and not yet got past the wait. */
  predicate Pending(p: Pc) {
    p == Test || p == Waiting || p == Notified
  }

  ghost predicate ThreadOk(s: State, t: nat)
    requires t < |s.pc|
  {
    && (HoldsDown(s.pc[t]) <==> s.down == Some(t))
    && (HoldsMutex(s.pc[t]) <==> s.mutex == Some(t))
  }

  /** How many decrements are pending: at most one, since mutex_down is held across the wait. */
  function Owed(s: State): int {
    if s.down.Some? && s.down.value < |s.pc| && Pending(s.pc[s.down.value]) then 1 else 0
  }

  ghost predicate Inv(s: State) {
    && (forall t: nat | t < |s.pc| :: ThreadOk(s, t))
    && (s.down.Some? ==> s.down.value < |s.pc|) && (s.mutex.Some? ==> s.mutex.value < |s.pc|)
    && s.counter == s.initial + s.ups - s.downs - Owed(s)
    && s.counter >= -Owed(s)
    && (forall t: nat | t < |s.pc| && s.pc[t] == Waiting ::
          s.counter < 0 || (s.mutex.Some? && s.pc[s.mutex.value] == Broadcast))
  }

  lemma StepSelf(s: State, e: Step)
    requires Enabled(s, e) && ThreadOk(s, e.t)
    ensures ThreadOk(Do(s, e), e.t)
  {
  }

  lemma StepOther(s: State, e: Step, t: nat)
    requires Enabled(s, e) && ThreadOk(s, e.t) && t < |s.pc| && t != e.t && ThreadOk(s, t)
    ensures ThreadOk(Do(s, e), t)
  {
  }

  lemma StepThread(s: State, e: Step, t: nat)
    requires Inv(s) && Enabled(s, e) && t < |s.pc|
    ensures t < |Do(s, e).pc| && ThreadOk(Do(s, e), t)
  {
    hide ThreadOk, Owed, Do;
    SameThreads(s, e);
    assert ThreadOk(s, t) && ThreadOk(s, e.t);
    if t == e.t { StepSelf(s, e); } else { StepOther(s, e, t); }
  }

  lemma StepCounter(s: State, e: Step)
    requires Inv(s) && Enabled(s, e)
    ensures var s' := Do(s, e);
            && (s'.down.Some? ==> s'.down.value < |s'.pc|) && (s'.mutex.Some? ==> s'.mutex.value < |s'.pc|)
            && s'.counter == s'.initial + s'.ups - s'.downs - Owed(s') && s'.counter >= -Owed(s')
  {
    assert ThreadOk(s, e.t);
    if s.down.Some? { assert ThreadOk(s, s.down.value); }
  }

  lemma StepWaiting(s: State, e: Step, t: nat)
    requires Inv(s) && Enabled(s, e) && t < |s.pc| && Do(s, e).pc[t] == Waiting
    ensures var s' := Do(s, e);
            s'.counter < 0 || (s'.mutex.Some? && s'.mutex.value < |s'.pc| && s'.pc[s'.mutex.value] == Broadcast)
  {
    assert ThreadOk(s, e.t) && ThreadOk(s, t);
    if s.mutex.Some? { assert ThreadOk(s, s.mutex.value); }
  }

  lemma StepInv(s: State, e: Step)
    requires Inv(s) && Enabled(s, e)
    ensures Inv(Do(s, e))
  {
    hide ThreadOk, Owed, Do;
    var s' := Do(s, e);
    StepCounter(s, e);
    assert |s'.pc| == |s.pc| by { SameThreads(s, e); }
    forall t: nat | t < |s'.pc| ensures ThreadOk(s', t) { StepThread(s, e, t); }
    forall t: nat | t < |s'.pc| && s'.pc[t] == Waiting
      ensures s'.counter < 0 || (s'.mutex.Some? && s'.pc[s'.mutex.value] == Broadcast)
    {
      StepWaiting(s, e, t);
    }
  }

  lemma SameThreads(s: State, e: Step)
    requires Enabled(s, e)
    ensures |Do(s, e).pc| == |s.pc|
  {
  }

  lemma {:induction false} RunInv(run: seq<State>, i: nat)
    requires IsRun(run) && i < |run|
    ensures Inv(run[i])
  {
    if i > 0 {
      hide Start, Inv, Do;
      RunInv(run, i - 1);
      assert StepAt(run, i - 1);
      var e :| Enabled(run[i - 1], e) && run[i] == Do(run[i - 1], e);
      StepInv(run[i - 1], e);
    }
  }

  // ---------- Theorems ----------

  /** Downs that got through never exceed the initial value plus the ups, and the counter never drops below -1. */
  lemma NeverOverdrawn(run: seq<State>, i: nat)
    requires IsRun(run) && i < |run|
    ensures run[i].downs <= run[i].initial + run[i].ups && run[i].counter >= -1
  {
    hide IsRun;
    RunInv(run, i);
  }

  /** Some thread has incremented the counter and is about to broadcast. */
  predicate Broadcasting(s: State) {
    s.mutex.Some? && s.mutex.value < |s.pc| && s.pc[s.mutex.value] == Broadcast
  }

  /** Except between an increment and its broadcast, a thread waits un-notified only if every unit has been used up. */
  lemma WaitsOnlyWhenExhausted(run: seq<State>, i: nat, t: nat)
    requires IsRun(run) && i < |run| && t < |run[i].pc| && run[i].pc[t] == Waiting && !Broadcasting(run[i])
    ensures run[i].downs == run[i].initial + run[i].ups && run[i].counter == -1
  {
    hide IsRun;
    RunInv(run, i);
    assert ThreadOk(run[i], t);
  }

  /** At most one thread is between taking its unit and getting past the wait. */
  lemma OnePending(run: seq<State>, i: nat, t: nat, u: nat)
    requires IsRun(run) && i < |run| && t < |run[i].pc| && u < |run[i].pc| && Pending(run[i].pc[t]) && Pending(run[i].pc[u])
    ensures t == u
  {
    hide IsRun;
    RunInv(run, i);
    assert ThreadOk(run[i], t) && ThreadOk(run[i], u);
  }
}

/** Every step of the pipe keeps the invariant; what follows for whole runs. */
module PipeProof {
  import opened Basics
  import opened Pipe

  ghost predicate ThreadOk(s: State, t: nat)
    requires t < |s.pc|
  {
    LocksOk(s, t) && ReaderOk(s, t) && WriterOk(s, t)
  }

  ghost predicate EndsOk(s: State) {
    && |s.killed| == |s.pc| == |s.call|
    && (s.lock.Some? ==> s.lock.value < |s.pc|) && (s.plock.Some? ==> s.plock.value < |s.pc|)
    && (s.wrEnd ==> s.writeopen) && (s.rdEnd ==> s.readopen)
  }

  lemma At(s: State, t: nat)
    requires Inv(s) && t < |s.pc|
    ensures ThreadOk(s, t)
  {
    hide BytesOk, LocksOk, ReaderOk, WriterOk;
  }

  lemma Threads(s: State)
    requires BytesOk(s) && EndsOk(s) && forall t: nat | t < |s.pc| :: ThreadOk(s, t)
    ensures Inv(s)
  {
    hide BytesOk, LocksOk, ReaderOk, WriterOk;
    forall t: nat | t < |s.pc| ensures LocksOk(s, t) && ReaderOk(s, t) && WriterOk(s, t) { assert ThreadOk(s, t); }
  }

  lemma Ends(s: State)
    requires Inv(s)
    ensures BytesOk(s) && EndsOk(s)
  {
    hide BytesOk, LocksOk, ReaderOk, WriterOk;
  }

  lemma BeginInv(s: State, t: nat, op: Pc)
    requires Inv(s) && Enabled(s, Begin(t, op))
    ensures Inv(Do(s, Begin(t, op)))
  {
    hide Inv, BytesOk, Full, Empty, Advance;
    Ends(s);
    At(s, t);
    var s' := Do(s, Begin(t, op));
    assert BytesOk(s') && (Full(s') <==> Full(s)) && (Empty(s') <==> Empty(s)) by { SameBytes(s, s'); }
    forall u: nat | u < |s'.pc| ensures ThreadOk(s', u) { At(s, u); }
    Threads(s');
  }

  lemma SameBytes(s: State, s': State)
    requires s'.data == s.data && s'.nread == s.nread && s'.nwrite == s.nwrite && s'.sent == s.sent && s'.got == s.got
    ensures BytesOk(s') <==> BytesOk(s)
    ensures (Full(s') <==> Full(s)) && (Empty(s') <==> Empty(s))
  {
  }

  lemma AcquireInv(s: State, t: nat)
    requires Inv(s) && Enabled(s, Acquire(t))
    ensures Inv(Do(s, Acquire(t)))
  {
    hide Inv, BytesOk, Full, Empty, Advance;
    Ends(s);
    At(s, t);
    var s' := Do(s, Acquire(t));
    SameBytes(s, s');
    forall u: nat | u < |s'.pc| ensures ThreadOk(s', u) { At(s, u); }
    Threads(s');
  }

  /** kill marks its victim and wakes it, which takes nobody's wakeup away. */
  lemma KillInv(s: State, t: nat)
    requires Inv(s) && Enabled(s, Kill(t))
    ensures Inv(Do(s, Kill(t)))
  {
    hide Inv, BytesOk, Full, Empty, Advance;
    Ends(s);
    At(s, t);
    var s' := Do(s, Kill(t));
    SameBytes(s, s');
    forall u: nat | u < |s'.pc| ensures ThreadOk(s', u) { At(s, u); }
    Threads(s');
  }

  /** kill marks its victim, which is then not asleep, and changes nothing else. */
  lemma KillWakes(s: State, t: nat)
    requires Enabled(s, Kill(t))
    ensures var s' := Do(s, Kill(t));
            && s'.killed[t] && |s'.pc| == |s.pc| && !s'.pc[t].RAsleep? && !s'.pc[t].WAsleep?
            && s' == s.(killed := s.killed[t := true], pc := s.pc[t := s'.pc[t]])
            && (s'.pc[t] == s.pc[t] || (s.pc[t].RAsleep? && s'.pc[t] == RWant(s.pc[t].n))
                || (s.pc[t].WAsleep? && s'.pc[t] == WWant(s.pc[t].addr, s.pc[t].i)))
  {
    hide Advance;
  }

  /** A writer at the loop head that stores nothing: it is done, gives up or is about to sleep. */
  lemma WriterDecides(s: State, t: nat)
    requires Inv(s) && Enabled(s, Run(t)) && s.pc[t].WLoop? && (s.pc[t].i == |s.pc[t].addr| || Full(s))
    ensures Inv(Do(s, Run(t)))
  {
    hide Inv, BytesOk, Full, Empty, ReaderStep, CloserStep;
    Ends(s);
    At(s, t);
    var s' := Do(s, Run(t));
    SameBytes(s, s');
    forall u: nat | u < |s'.pc| ensures ThreadOk(s', u) { At(s, u); }
    Threads(s');
  }

  lemma WriterWakes(s: State, t: nat)
    requires Inv(s) && Enabled(s, Run(t)) && (s.pc[t].WWake? || s.pc[t].WDone?)
    ensures Inv(Do(s, Run(t)))
  {
    hide Inv, BytesOk, Full, Empty, ReaderStep, CloserStep;
    Ends(s);
    At(s, t);
    var s' := Do(s, Run(t));
    SameBytes(s, s');
    forall u: nat | u < |s'.pc| ensures ThreadOk(s', u) { At(s, u); }
    Threads(s');
  }

  lemma WriterPuts(s: State, t: nat)
    requires Inv(s) && Enabled(s, Run(t)) && s.pc[t].WLoop? && s.pc[t].i != |s.pc[t].addr| && !Full(s)
    ensures Inv(Do(s, Run(t)))
  {
    Ends(s);
    Put(s, s.pc[t].addr[s.pc[t].i]);
    hide Inv, Full, ReaderStep, CloserStep;
    At(s, t);
    var s' := Do(s, Run(t));
    BytesOnly(s.(data := s'.data, nwrite := s'.nwrite, sent := s'.sent), s');
    hide BytesOk, Empty;
    forall u: nat | u < |s'.pc| ensures ThreadOk(s', u) { At(s, u); }
    Threads(s');
  }

  lemma BytesOnly(s: State, s': State)
    requires BytesOk(s) && s'.data == s.data && s'.nread == s.nread && s'.nwrite == s.nwrite && s'.sent == s.sent && s'.got == s.got
    ensures BytesOk(s')
  {
  }

  /** Into sleep: ptable.lock is taken before the pipe lock is given up. */
  lemma Sleeps(s: State, t: nat)
    requires Inv(s) && Enabled(s, Run(t)) && (s.pc[t].WSleep? || s.pc[t].RSleep?)
    ensures Inv(Do(s, Run(t)))
  {
    hide Inv, BytesOk, Full, Empty, CloserStep;
    Ends(s);
    At(s, t);
    var s' := Do(s, Run(t));
    SameBytes(s, s');
    forall u: nat | u < |s'.pc| ensures ThreadOk(s', u) { At(s, u); }
    Threads(s');
  }

  lemma FallsAsleep(s: State, t: nat)
    requires Inv(s) && Enabled(s, Run(t)) && (s.pc[t].WFall? || s.pc[t].RFall?)
    ensures Inv(Do(s, Run(t)))
  {
    hide Inv, BytesOk, Full, Empty, CloserStep;
    Ends(s);
    At(s, t);
    var s' := Do(s, Run(t));
    SameBytes(s, s');
    forall u: nat | u < |s'.pc| ensures ThreadOk(s', u) { At(s, u); }
    Threads(s');
  }

  lemma ReaderMoves(s: State, t: nat)
    requires Inv(s) && Enabled(s, Run(t)) && (s.pc[t].RCheck? || s.pc[t].RCopy? || s.pc[t].RDone?)
    requires s.pc[t].RCopy? ==> s.pc[t].i >= s.pc[t].n || Empty(s)
    ensures Inv(Do(s, Run(t)))
  {
    hide Inv, BytesOk, Full, Empty, WriterStep, CloserStep;
    Ends(s);
    At(s, t);
    var s' := Do(s, Run(t));
    SameBytes(s, s');
    forall u: nat | u < |s'.pc| ensures ThreadOk(s', u) { At(s, u); }
    Threads(s');
  }

  lemma ReaderGets(s: State, t: nat)
    requires Inv(s) && Enabled(s, Run(t)) && s.pc[t].RCopy? && s.pc[t].i < s.pc[t].n && !Empty(s)
    ensures Inv(Do(s, Run(t)))
  {
    Ends(s);
    Get(s);
    hide Inv, Empty, WriterStep, CloserStep;
    At(s, t);
    var s' := Do(s, Run(t));
    BytesOnly(s.(nread := s'.nread, got := s'.got), s');
    hide BytesOk, Full;
    forall u: nat | u < |s'.pc| ensures ThreadOk(s', u) { At(s, u); }
    Threads(s');
  }

  lemma Closes(s: State, t: nat)
    requires Inv(s) && Enabled(s, Run(t)) && s.pc[t].CSet?
    ensures Inv(Do(s, Run(t)))
  {
    hide Inv, BytesOk, Full, Empty, WriterStep, ReaderStep;
    Ends(s);
    At(s, t);
    var s' := Do(s, Run(t));
    SameBytes(s, s');
    forall u: nat | u < |s'.pc| ensures ThreadOk(s', u) { At(s, u); }
    Threads(s');
  }

  lemma Releases(s: State, t: nat)
    requires Inv(s) && Enabled(s, Run(t)) && (s.pc[t].CRelease? || s.pc[t].WRelease? || s.pc[t].RRelease?)
    ensures Inv(Do(s, Run(t)))
  {
    hide Inv, BytesOk, Full, Empty;
    Ends(s);
    At(s, t);
    var s' := Do(s, Run(t));
    SameBytes(s, s');
    forall u: nat | u < |s'.pc| ensures ThreadOk(s', u) { At(s, u); }
    Threads(s');
  }

  lemma StepInv(s: State, e: Step)
    requires Inv(s) && Enabled(s, e)
    ensures Inv(Do(s, e))
  {
    hide Inv, Full, Empty, Do;
    match e
    case Begin(t, op) => BeginInv(s, t, op);
    case Acquire(t) => AcquireInv(s, t);
    case Kill(t) => KillInv(s, t);
    case Run(t) =>
      match s.pc[t]
      case WLoop(addr, i) => if i == |addr| || Full(s) { WriterDecides(s, t); } else { WriterPuts(s, t); }
      case WWake(_, _) => WriterWakes(s, t);
      case WDone(_) => WriterWakes(s, t);
      case WSleep(_, _) => Sleeps(s, t);
      case WFall(_, _) => FallsAsleep(s, t);
      case RSleep(_) => Sleeps(s, t);
      case RFall(_) => FallsAsleep(s, t);
      case RCopy(n, i) => if i >= n || Empty(s) { ReaderMoves(s, t); } else { ReaderGets(s, t); }
      case RCheck(_) => ReaderMoves(s, t);
      case RDone(_, _) => ReaderMoves(s, t);
      case CSet(_) => Closes(s, t);
      case _ => Releases(s, t);
  }

  // ---------- Runs ----------

  ghost predicate StepAt(run: seq<State>, i: nat)
    requires i + 1 < |run|
  {
    Next(run[i], run[i + 1])
  }

  ghost predicate IsRun(run: seq<State>) {
    |run| > 0 && Start(run[0]) && forall i: nat | i + 1 < |run| :: StepAt(run, i)
  }

  lemma StartInv(s: State)
    requires Start(s)
    ensures Inv(s)
  {
    hide Full, Empty;
  }

  lemma {:induction false} RunInv(run: seq<State>, i: nat)
    requires IsRun(run) && i < |run|
    ensures Inv(run[i])
  {
    hide Start, Inv, Enabled, Do;
    if i == 0 {
      StartInv(run[0]);
    } else {
      RunInv(run, i - 1);
      assert StepAt(run, i - 1);
      var e :| Enabled(run[i - 1], e) && run[i] == Do(run[i - 1], e);
      StepInv(run[i - 1], e);
    }
  }

  /** The bytes delivered are a prefix of the bytes accepted, and at most 512 are in flight, however often the counters wrap and whoever is killed. */
  lemma DeliversInOrder(run: seq<State>, i: nat)
    requires IsRun(run) && i < |run|
    ensures run[i].got <= run[i].sent && |run[i].sent| - |run[i].got| <= 512
  {
    hide IsRun;
    RunInv(run, i);
  }

  /** The critical sections exclude each other. */
  lemma OneHolder(run: seq<State>, i: nat, t: nat, u: nat)
    requires IsRun(run) && i < |run| && t < |run[i].pc| && u < |run[i].pc|
    ensures Holds(run[i].pc[t]) && Holds(run[i].pc[u]) ==> t == u
  {
    hide IsRun, Inv, Full, Empty;
    RunInv(run, i);
    At(run[i], t);
    At(run[i], u);
  }

  // ---------- Sleepers ----------

  /** Thread t, asleep or falling asleep in piperead, has data to read or a closed write end to report. */
  predicate ReaderOversleeps(s: State, t: nat)
    requires t < |s.pc|
  {
    (s.pc[t].RFall? || s.pc[t].RAsleep?) && !(s.got == s.sent && s.writeopen)
  }

  /** Thread t, asleep or falling asleep in pipewrite, has space to write or a closed read end to report. */
  predicate WriterOversleeps(s: State, t: nat)
    requires t < |s.pc|
  {
    (s.pc[t].WFall? || s.pc[t].WAsleep?) && !(|s.sent| == |s.got| + PIPESIZE && s.readopen)
  }

  /**
   No lost wakeup, whoever is killed: while the pipe lock is free no writer
   oversleeps, and a reader does only after a writer gave up at a full pipe
   without waking it.
   */
  lemma NobodyOversleeps(run: seq<State>, i: nat, t: nat)
    requires IsRun(run) && i < |run| && t < |run[i].pc| && run[i].lock == None
    ensures !WriterOversleeps(run[i], t)
    ensures ReaderOversleeps(run[i], t) ==> run[i].skipped
  {
    hide IsRun, Inv, Full, Empty;
    RunInv(run, i);
    At(run[i], t);
    Ends(run[i]);
    CountersTell(run[i]);
  }

  /** Thread t has been killed and is inside pipewrite. */
  predicate KilledWriter(s: State, t: nat) {
    t < |s.pc| && t < |s.killed| && s.killed[t] && IsWriter(s.pc[t])
  }

  /** Nobody is killed inside pipewrite. */
  ghost predicate SparesWriters(run: seq<State>) {
    forall i: nat, t: nat | i < |run| :: !KilledWriter(run[i], t)
  }

  lemma RunSkips(s: State, t: nat)
    requires Enabled(s, Run(t)) && !s.skipped && Advance(s, t).skipped
    ensures s.pc[t].WLoop? && s.killed[t]
  {
    hide Full, Empty, WriterStep, ReaderStep, WakeReaders, WakeWriters;
    if IsWriter(s.pc[t]) {
      WriterSkips(s, t);
    } else {
      OthersSkipNot(s, t);
    }
  }

  lemma WriterSkips(s: State, t: nat)
    requires Enabled(s, Run(t)) && IsWriter(s.pc[t]) && !s.skipped && WriterStep(s, t).skipped
    ensures s.pc[t].WLoop? && s.killed[t]
  {
    hide Full, WakeReaders;
  }

  lemma OthersSkipNot(s: State, t: nat)
    requires Enabled(s, Run(t)) && !IsWriter(s.pc[t]) && !s.skipped
    ensures !Advance(s, t).skipped
  {
    hide Empty, WakeReaders, WakeWriters, WriterStep;
  }

  /** Only a killed writer leaves a full pipe while the read end is open. */
  lemma SkipNeedsKill(s: State, e: Step)
    requires Enabled(s, e) && !s.skipped && Do(s, e).skipped
    ensures KilledWriter(s, e.t)
  {
    hide Full, Empty, Advance;
    if e.Run? { RunSkips(s, e.t); }
  }

  lemma {:induction false} SparedNeverSkips(run: seq<State>, i: nat)
    requires IsRun(run) && SparesWriters(run) && i < |run|
    ensures !run[i].skipped
  {
    hide Enabled, Do;
    if i > 0 {
      SparedNeverSkips(run, i - 1);
      assert StepAt(run, i - 1);
      var e :| Enabled(run[i - 1], e) && run[i] == Do(run[i - 1], e);
      assert !KilledWriter(run[i - 1], e.t);
      if run[i].skipped { SkipNeedsKill(run[i - 1], e); }
    }
  }

  /** While the pipe lock is free no reader oversleeps. */
  ghost predicate ReadersServed(run: seq<State>) {
    forall i: nat, t: nat | i < |run| && t < |run[i].pc| && run[i].lock == None :: !ReaderOversleeps(run[i], t)
  }

  /** Where no writer is killed, readers are woken; kills of readers and of idle threads do no harm. */
  lemma SparedReadersServed(run: seq<State>)
    requires IsRun(run) && SparesWriters(run)
    ensures ReadersServed(run)
  {
    hide IsRun, SparesWriters, ReaderOversleeps;
    forall i: nat, t: nat | i < |run| && t < |run[i].pc| && run[i].lock == None ensures !ReaderOversleeps(run[i], t) {
      NobodyOversleeps(run, i, t);
      SparedNeverSkips(run, i);
    }
  }
}

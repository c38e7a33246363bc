/** Every step of the process table keeps the invariant; what follows for whole runs. */
module ProcProof {
  import opened Basics
  import opened Proc

  /** The parts of the invariant, one slot at a time. */
  ghost predicate SlotOk(s: State, p: nat)
    requires Sized(s) && p < NPROC
  {
    ParentOk(s, p) && PidOk(s, p) && PlaceOk(s, p) && SleepOk(s, p)
  }

  lemma At(s: State, p: nat)
    requires Inv(s) && p < NPROC
    ensures SlotOk(s, p) && Alive(s.procs[INIT]) && s.procs[INIT].pid == 1 && s.procs[INIT].parent == None
  {
    hide ParentOk, PidOk, PlaceOk, SleepOk;
  }

  lemma Differ(s: State, p: nat, q: nat)
    requires Inv(s) && p < NPROC && q < NPROC
    ensures PidsDiffer(s, p, q)
  {
    hide ParentOk, PidOk, PlaceOk, SleepOk;
  }

  lemma SizedIf(s: State)
    requires Inv(s)
    ensures Sized(s)
  {
    hide ParentOk, PidOk, PlaceOk, SleepOk;
  }

  lemma Slots(s: State)
    requires Sized(s) && Alive(s.procs[INIT]) && s.procs[INIT].pid == 1 && s.procs[INIT].parent == None
    requires forall p: nat | p < NPROC :: SlotOk(s, p)
    requires forall p: nat, q: nat | p < NPROC && q < NPROC :: PidsDiffer(s, p, q)
    ensures Inv(s)
  {
    hide ParentOk, PidOk, PlaceOk, SleepOk, PidsDiffer;
    forall p: nat | p < NPROC ensures ParentOk(s, p) && PidOk(s, p) && PlaceOk(s, p) && SleepOk(s, p) {
      assert SlotOk(s, p);
    }
  }

  /** Children and zombies hang on parents and on who is a zombie. */
  lemma SameFamily(ps: seq<Proc>, ps': seq<Proc>, p: nat)
    requires |ps'| == |ps| && forall i | 0 <= i < |ps| :: ps'[i].parent == ps[i].parent && (ps'[i].st == ZOMBIE <==> ps[i].st == ZOMBIE)
    ensures HasChild(ps', p) <==> HasChild(ps, p)
    ensures HasZombie(ps', p) <==> HasZombie(ps, p)
  {
    forall q: nat ensures ChildOf(ps', q, p) <==> ChildOf(ps, q, p) {}
  }

  /** Pids stay apart where no slot in use gets a new one. */
  lemma PidsKept(s: State, s': State)
    requires Inv(s) && Sized(s) && Sized(s')
    requires forall i: nat | i < NPROC && s'.procs[i].st != UNUSED :: s.procs[i].st != UNUSED && s'.procs[i].pid == s.procs[i].pid
    ensures forall a: nat, b: nat | a < NPROC && b < NPROC :: PidsDiffer(s', a, b)
  {
    hide Inv;
    forall a: nat, b: nat | a < NPROC && b < NPROC ensures PidsDiffer(s', a, b) { Differ(s, a, b); }
  }

  lemma ScheduleSlot(s: State, p: nat, st: ProcState, r: nat)
    requires Inv(s) && p < NPROC && (s.procs[p].st == RUNNABLE || s.procs[p].st == RUNNING) && (st == RUNNABLE || st == RUNNING) && r < NPROC
    ensures var s' := s.(procs := s.procs[p := s.procs[p].(st := st)]); Sized(s') && SlotOk(s', r)
  {
    hide HasChild, HasZombie, Inv;
    SizedIf(s);
    At(s, INIT);
    var s' := s.(procs := s.procs[p := s.procs[p].(st := st)]);
    At(s, r);
    SameFamily(s.procs, s'.procs, r);
  }

  lemma ScheduleInv(s: State, p: nat, st: ProcState)
    requires Inv(s) && p < NPROC && (s.procs[p].st == RUNNABLE || s.procs[p].st == RUNNING) && (st == RUNNABLE || st == RUNNING)
    ensures Inv(s.(procs := s.procs[p := s.procs[p].(st := st)]))
  {
    hide HasChild, HasZombie, Inv, ParentOk, PidOk, PlaceOk, SleepOk;
    SizedIf(s);
    At(s, INIT);
    var s' := s.(procs := s.procs[p := s.procs[p].(st := st)]);
    forall r: nat | r < NPROC ensures SlotOk(s', r) { ScheduleSlot(s, p, st, r); }
    PidsKept(s, s');
    Slots(s');
  }

  lemma AllocSlot(s: State, p: nat, q: nat, r: nat)
    requires Inv(s) && Enabled(s, AllocProc(p, q)) && r < NPROC
    ensures var s' := Do(s, AllocProc(p, q)); Sized(s') && SlotOk(s', r)
  {
    hide HasChild, HasZombie, Inv;
    SizedIf(s);
    At(s, INIT);
    var s' := Do(s, AllocProc(p, q));
    At(s, q);
    At(s, p);
    At(s, r);
    SameFamily(s.procs, s'.procs, r);
  }

  lemma AllocInv(s: State, p: nat, q: nat)
    requires Inv(s) && Enabled(s, AllocProc(p, q))
    ensures Inv(Do(s, AllocProc(p, q)))
  {
    hide HasChild, HasZombie, Inv;
    SizedIf(s);
    At(s, INIT);
    var s' := Do(s, AllocProc(p, q));
    At(s, q);
    At(s, p);
    forall r: nat | r < NPROC ensures SlotOk(s', r) { AllocSlot(s, p, q, r); }
    forall a: nat, b: nat | a < NPROC && b < NPROC ensures PidsDiffer(s', a, b) {
      Differ(s, a, b);
      At(s, a);
      At(s, b);
    }
    Slots(s');
  }

  lemma ForkFailsSlot(s: State, p: nat, r: nat)
    requires Inv(s) && Enabled(s, ForkFails(p)) && r < NPROC
    ensures var s' := Do(s, ForkFails(p)); Sized(s') && SlotOk(s', r)
  {
    hide HasChild, HasZombie, Inv;
    SizedIf(s);
    At(s, INIT);
    var s' := Do(s, ForkFails(p));
    At(s, s.place[p].q);
    At(s, p);
    At(s, r);
    SameFamily(s.procs, s'.procs, r);
  }

  lemma ForkFailsInv(s: State, p: nat)
    requires Inv(s) && Enabled(s, ForkFails(p))
    ensures Inv(Do(s, ForkFails(p)))
  {
    hide HasChild, HasZombie, Inv, PidOk, SleepOk;
    SizedIf(s);
    At(s, INIT);
    var s' := Do(s, ForkFails(p));
    At(s, s.place[p].q);
    At(s, p);
    forall r: nat | r < NPROC ensures SlotOk(s', r) { ForkFailsSlot(s, p, r); }
    PidsKept(s, s');
    Slots(s');
  }

  lemma StartChildSlot(s: State, p: nat, r: nat)
    requires Inv(s) && Enabled(s, StartChild(p)) && r < NPROC
    ensures var s' := Do(s, StartChild(p)); Sized(s') && SlotOk(s', r)
  {
    hide HasChild, HasZombie, Inv;
    SizedIf(s);
    At(s, INIT);
    var s' := Do(s, StartChild(p));
    At(s, s.place[p].q);
    At(s, p);
    At(s, r);
    SameFamily(s.procs, s'.procs, r);
  }

  lemma StartChildInv(s: State, p: nat)
    requires Inv(s) && Enabled(s, StartChild(p))
    ensures Inv(Do(s, StartChild(p)))
  {
    hide HasChild, HasZombie, Inv, PidOk, SleepOk;
    SizedIf(s);
    At(s, INIT);
    var s' := Do(s, StartChild(p));
    At(s, s.place[p].q);
    At(s, p);
    forall r: nat | r < NPROC ensures SlotOk(s', r) { StartChildSlot(s, p, r); }
    PidsKept(s, s');
    Slots(s');
  }

  /** A new child of p: nobody else's family changes. */
  lemma OthersFamily(ps: seq<Proc>, ps': seq<Proc>, p: nat, r: nat)
    requires |ps'| == |ps| && r != p
    requires forall i | 0 <= i < |ps| :: (ps'[i].st == ZOMBIE <==> ps[i].st == ZOMBIE) &&
                                         (ps'[i].parent == ps[i].parent || (ps[i].parent == None && ps'[i].parent == Some(p)))
    ensures HasChild(ps', r) <==> HasChild(ps, r)
    ensures HasZombie(ps', r) <==> HasZombie(ps, r)
  {
    forall q: nat ensures ChildOf(ps', q, r) <==> ChildOf(ps, q, r) {}
  }

  lemma LinkParentSlot(s: State, p: nat, r: nat)
    requires Inv(s) && Enabled(s, LinkParent(p)) && r < NPROC
    ensures var s' := Do(s, LinkParent(p)); Sized(s') && SlotOk(s', r)
  {
    hide HasChild, HasZombie, Inv;
    SizedIf(s);
    At(s, INIT);
    var s' := Do(s, LinkParent(p));
    At(s, s.place[p].q);
    At(s, p);
    At(s, r);
    if r != p { OthersFamily(s.procs, s'.procs, p, r); }
  }

  lemma LinkParentInv(s: State, p: nat)
    requires Inv(s) && Enabled(s, LinkParent(p))
    ensures Inv(Do(s, LinkParent(p)))
  {
    hide HasChild, HasZombie, Inv, PidOk, SleepOk;
    SizedIf(s);
    At(s, INIT);
    var s' := Do(s, LinkParent(p));
    At(s, s.place[p].q);
    At(s, p);
    forall r: nat | r < NPROC ensures SlotOk(s', r) { LinkParentSlot(s, p, r); }
    PidsKept(s, s');
    Slots(s');
  }

  lemma SleepSlot(s: State, p: nat, chan: Chan, place: Place, r: nat)
    requires Inv(s) && Running(s, p) && !s.place[p].InFork?
    requires chan.Of? ==> chan == Of(p) && place == InWait && HasChild(s.procs, p) && !HasZombie(s.procs, p)
    requires (place == InWait || place == s.place[p]) && r < NPROC
    ensures var s' := s.(procs := s.procs[p := s.procs[p].(st := SLEEPING, chan := chan)], place := s.place[p := place]); Sized(s') && SlotOk(s', r)
  {
    hide HasChild, HasZombie, Inv;
    SizedIf(s);
    At(s, INIT);
    var s' := s.(procs := s.procs[p := s.procs[p].(st := SLEEPING, chan := chan)], place := s.place[p := place]);
    At(s, p);
    At(s, r);
    SameFamily(s.procs, s'.procs, r);
  }

  lemma SleepInv(s: State, p: nat, chan: Chan, place: Place)
    requires Inv(s) && Running(s, p) && !s.place[p].InFork?
    requires chan.Of? ==> chan == Of(p) && place == InWait && HasChild(s.procs, p) && !HasZombie(s.procs, p)
    requires place == InWait || place == s.place[p]
    ensures Inv(s.(procs := s.procs[p := s.procs[p].(st := SLEEPING, chan := chan)], place := s.place[p := place]))
  {
    hide HasChild, HasZombie, Inv, ParentOk, PidOk, PlaceOk, SleepOk;
    SizedIf(s);
    At(s, INIT);
    var s' := s.(procs := s.procs[p := s.procs[p].(st := SLEEPING, chan := chan)], place := s.place[p := place]);
    forall r: nat | r < NPROC ensures SlotOk(s', r) { SleepSlot(s, p, chan, place, r); }
    PidsKept(s, s');
    Slots(s');
  }

  /** Waking any set of sleepers. */
  lemma WakeInv(s: State, ps: seq<Proc>)
    requires Inv(s) && |ps| == NPROC
    requires forall i | 0 <= i < NPROC ::
               ps[i] == s.procs[i].(st := ps[i].st, killed := ps[i].killed)
               && (ps[i].st == s.procs[i].st || (s.procs[i].st == SLEEPING && ps[i].st == RUNNABLE))
    ensures Inv(s.(procs := ps))
  {
    hide HasChild, HasZombie, Inv;
    SizedIf(s);
    At(s, INIT);
    var s' := s.(procs := ps);
    forall r: nat | r < NPROC ensures SlotOk(s', r) { At(s, r); SameFamily(s.procs, s'.procs, r); }
    PidsKept(s, s');
    Slots(s');
  }

  lemma WaitFailsInv(s: State, p: nat)
    requires Inv(s) && Enabled(s, WaitFails(p))
    ensures Inv(Do(s, WaitFails(p)))
  {
    hide HasChild, HasZombie, Inv;
    SizedIf(s);
    At(s, INIT);
    var s' := Do(s, WaitFails(p));
    forall r: nat | r < NPROC ensures SlotOk(s', r) { At(s, r); }
    PidsKept(s, s');
    Slots(s');
  }

  // ---------- wait finds a zombie ----------

  /** A zombie has no children, so its slot can be given up. */
  lemma ReapedFamily(s: State, p: nat, q: nat, r: nat)
    requires Inv(s) && ChildOf(s.procs, q, p) && q < NPROC && s.procs[q].st == ZOMBIE && r != p
    ensures HasChild(s.procs, r) ==> HasChild(s.procs[q := Reaped(s.procs[q])], r)
    ensures HasZombie(s.procs[q := Reaped(s.procs[q])], r) ==> HasZombie(s.procs, r)
  {
    hide Inv;
    var ps := s.procs[q := Reaped(s.procs[q])];
    forall c: nat ensures ChildOf(ps, c, r) <==> ChildOf(s.procs, c, r) {}
  }

  lemma WaitReapSlot(s: State, p: nat, q: nat, r: nat)
    requires Inv(s) && Enabled(s, WaitReap(p, q)) && r < NPROC
    ensures var s' := Do(s, WaitReap(p, q)); Sized(s') && SlotOk(s', r)
  {
    hide HasChild, HasZombie, Inv;
    SizedIf(s);
    At(s, INIT);
    var s' := Do(s, WaitReap(p, q));
    At(s, q);
    At(s, p);
    At(s, r);
    if r != p { ReapedFamily(s, p, q, r); }
  }

  lemma WaitReapInv(s: State, p: nat, q: nat)
    requires Inv(s) && Enabled(s, WaitReap(p, q))
    ensures Inv(Do(s, WaitReap(p, q)))
  {
    hide HasChild, HasZombie, Inv, ParentOk, PidOk, PlaceOk, SleepOk;
    SizedIf(s);
    At(s, INIT);
    var s' := Do(s, WaitReap(p, q));
    At(s, q);
    At(s, p);
    forall r: nat | r < NPROC ensures SlotOk(s', r) { WaitReapSlot(s, p, q, r); }
    PidsKept(s, s');
    Slots(s');
  }

  // ---------- exit ----------

  /** One slot of the table after exit. */
  ghost predicate ExitSlot(ps: seq<Proc>, ps': seq<Proc>, p: nat, i: nat)
    requires |ps'| == |ps| && i < |ps| && p < |ps|
  {
    && ps'[i] == ps[i].(st := ps'[i].st, parent := ps'[i].parent)
    && ps'[i].parent == (if ps[i].parent == Some(p) then Some(INIT) else ps[i].parent)
    && ps'[i].st == (if i == p then ZOMBIE
                     else if ps[i].st == SLEEPING && (ps[i].chan == ParentChan(ps[p]) || (HasZombie(ps, p) && ps[i].chan == Of(INIT))) then RUNNABLE
                     else ps[i].st)
  }

  lemma ExitedAt(ps: seq<Proc>, p: nat, i: nat)
    requires p < |ps| && i < |ps|
    ensures ExitSlot(ps, Exited(ps, p), p, i)
  {
    hide HasZombie;
  }

  /** Whoever is still asleep in wait after an exit keeps a child and has got no zombie. */
  lemma ExitFamily(s: State, ps: seq<Proc>, p: nat, r: nat)
    requires Inv(s) && Enabled(s, Exit(p)) && |ps| == NPROC && forall i: nat | i < NPROC :: ExitSlot(s.procs, ps, p, i)
    requires r < NPROC && ps[r].st == SLEEPING && ps[r].chan == Of(r)
    ensures HasChild(s.procs, r) ==> HasChild(ps, r)
    ensures !HasZombie(s.procs, r) ==> !HasZombie(ps, r)
  {
    assert ExitSlot(s.procs, ps, p, r);
    if HasChild(s.procs, r) {
      var c: nat :| ChildOf(s.procs, c, r);
      assert ExitSlot(s.procs, ps, p, c);
      assert ChildOf(ps, c, r);
    }
    if HasZombie(ps, r) {
      var c: nat :| ChildOf(ps, c, r) && ps[c].st == ZOMBIE;
      assert ExitSlot(s.procs, ps, p, c);
      ExitZombie(s, ps, p, r, c);
    }
  }

  lemma ExitZombie(s: State, ps: seq<Proc>, p: nat, r: nat, c: nat)
    requires Inv(s) && Enabled(s, Exit(p)) && |ps| == NPROC && forall i: nat | i < NPROC :: ExitSlot(s.procs, ps, p, i)
    requires r < NPROC && ps[r].st == SLEEPING && ps[r].chan == Of(r)
    requires ChildOf(ps, c, r) && ps[c].st == ZOMBIE
    ensures ChildOf(s.procs, c, r) && s.procs[c].st == ZOMBIE
  {
    assert ExitSlot(s.procs, ps, p, c) && ExitSlot(s.procs, ps, p, r);
    At(s, p);
    if s.procs[c].parent == Some(p) {
      At(s, c);
      assert ChildOf(s.procs, c, p);
    }
  }

  lemma ExitInv(s: State, p: nat)
    requires Inv(s) && Enabled(s, Exit(p))
    ensures Inv(Do(s, Exit(p)))
  {
    hide HasChild, HasZombie, Exited;
    var s' := Do(s, Exit(p));
    forall i: nat | i < NPROC ensures ExitSlot(s.procs, s'.procs, p, i) { ExitedAt(s.procs, p, i); }
    At(s, p);
    assert ExitSlot(s.procs, s'.procs, p, INIT);
    forall r: nat | r < NPROC ensures SlotOk(s', r) { ExitSlotOk(s, s', p, r); }
    forall a: nat, b: nat | a < NPROC && b < NPROC ensures PidsDiffer(s', a, b) {
      assert PidsDiffer(s, a, b) && ExitSlot(s.procs, s'.procs, p, a) && ExitSlot(s.procs, s'.procs, p, b);
    }
    Slots(s');
  }

  lemma ExitSlotOk(s: State, s': State, p: nat, r: nat)
    requires Inv(s) && Enabled(s, Exit(p)) && Sized(s') && s'.place == s.place && s'.nextpid == s.nextpid
    requires forall i: nat | i < NPROC :: ExitSlot(s.procs, s'.procs, p, i)
    requires r < NPROC
    ensures SlotOk(s', r)
  {
    hide HasChild, HasZombie;
    At(s, p);
    At(s, r);
    assert ExitSlot(s.procs, s'.procs, p, r) && ExitSlot(s.procs, s'.procs, p, INIT);
    assert PidsDiffer(s, r, INIT);
    if s.procs[r].parent.Some? { assert ExitSlot(s.procs, s'.procs, p, s.procs[r].parent.value); }
    if s.place[r].InFork? { assert ExitSlot(s.procs, s'.procs, p, s.place[r].q); }
    if s.procs[r].st == EMBRYO { assert ExitSlot(s.procs, s'.procs, p, s.procs[r].maker); }
    if s'.procs[r].st == SLEEPING && s'.procs[r].chan == Of(r) { ExitFamily(s, s'.procs, p, r); }
  }

  // ---------- Runs ----------

  lemma StepInv(s: State, e: Step)
    requires Inv(s) && Enabled(s, e)
    ensures Inv(Do(s, e))
  {
    hide Exited, Reaped;
    match e
    case Schedule(p) => ScheduleInv(s, p, RUNNING);
    case Yield(p) => ScheduleInv(s, p, RUNNABLE);
    case AllocProc(p, q) => AllocInv(s, p, q);
    case ForkFails(p) => ForkFailsInv(s, p);
    case LinkParent(p) => LinkParentInv(s, p);
    case StartChild(p) => StartChildInv(s, p);
    case Exit(p) => ExitInv(s, p);
    case WaitReap(p, q) => WaitReapInv(s, p, q);
    case WaitFails(p) => WaitFailsInv(s, p);
    case WaitSleep(p) => SleepInv(s, p, Of(p), InWait);
    case Sleep(p, c) => assert s.place[p := s.place[p]] == s.place; SleepInv(s, p, Else(c), s.place[p]);
    case Wakeup(c) => WakeInv(s, Woken(s.procs, Else(c)));
    case Kill(q) => WakeInv(s, Do(s, e).procs);
  }
}

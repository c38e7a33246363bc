/**
 The process table of proc.c as a step machine. A step is one critical section
 under ptable.lock, or one of the writes fork and allocproc make without it;
 processes interleave at every step. The lock is free in every state.
 */
module Proc {
  import opened Basics

  datatype ProcState = UNUSED | EMBRYO | SLEEPING | RUNNABLE | RUNNING | ZOMBIE

  /** What a process sleeps on: a process (wait uses the caller's own address), or something else. */
  datatype Chan = NoChan | Of(p: nat) | Else(c: nat)

  /** maker: the process that is forking an EMBRYO (not in the source's record). */
  datatype Proc = Proc(st: ProcState, pid: nat, parent: Option<nat>, chan: Chan, killed: bool, maker: nat)

  /** Where a process stands between critical sections: inside fork (with child q, linked to its parent or not), asleep or woken in wait, or elsewhere. */
  datatype Place = Elsewhere | InFork(q: nat, linked: bool) | InWait

  /** exited and reaped record, for stating the theorems, the pids that went through exit and through wait. */
  datatype State = State(procs: seq<Proc>, place: seq<Place>, nextpid: nat, exited: set<nat>, reaped: seq<nat>)

  /** initproc is the first process allocated, in slot 0. */
  const INIT: nat := 0

  const NPROC: nat := 64

  // ---------- Critical sections ----------

  function WokenProc(p: Proc, c: Chan): Proc {
    if p.st == SLEEPING && p.chan == c then p.(st := RUNNABLE) else p
  }

  /** wakeup1 */
  function Woken(ps: seq<Proc>, c: Chan): (r: seq<Proc>)
    ensures |r| == |ps| && forall i | 0 <= i < |ps| :: r[i] == WokenProc(ps[i], c)
  {
    seq(|ps|, i requires 0 <= i < |ps| => WokenProc(ps[i], c))
  }

  predicate ChildOf(ps: seq<Proc>, q: nat, p: nat) {
    q < |ps| && ps[q].parent == Some(p)
  }

  ghost predicate HasChild(ps: seq<Proc>, p: nat) {
    exists q: nat :: ChildOf(ps, q, p)
  }

  ghost predicate HasZombie(ps: seq<Proc>, p: nat) {
    exists q: nat :: ChildOf(ps, q, p) && ps[q].st == ZOMBIE
  }

  function ParentChan(p: Proc): Chan {
    if p.parent.Some? then Of(p.parent.value) else NoChan
  }

  /** The table after exit by p: the parent is woken, children pass to init, which is woken if one is a zombie. */
  ghost function Exited(ps: seq<Proc>, p: nat): (r: seq<Proc>)
    requires p < |ps|
    ensures |r| == |ps|
  {
    var w := Woken(ps, ParentChan(ps[p]));
    var z := if HasZombie(ps, p) then Woken(w, Of(INIT)) else w;
    var o := seq(|ps|, i requires 0 <= i < |ps| => if ps[i].parent == Some(p) then z[i].(parent := Some(INIT)) else z[i]);
    o[p := o[p].(st := ZOMBIE)]
  }

  /** What wait's scan finds, and what it does to the slot of a zombie child. */
  function Reaped(p: Proc): Proc {
    p.(st := UNUSED, pid := 0, parent := None, killed := false)
  }

  // ---------- Steps ----------

  datatype Step =
    | Schedule(p: nat) | Yield(p: nat)
    | AllocProc(p: nat, q: nat) | ForkFails(p: nat) | LinkParent(p: nat) | StartChild(p: nat)
    | Exit(p: nat) | WaitReap(p: nat, q: nat) | WaitFails(p: nat) | WaitSleep(p: nat)
    | Sleep(p: nat, c: nat) | Wakeup(c: nat) | Kill(q: nat)

  predicate Running(s: State, p: nat) {
    p < |s.procs| && p < |s.place| && s.procs[p].st == RUNNING
  }

  ghost predicate Enabled(s: State, e: Step) {
    match e
    case Schedule(p) => p < |s.procs| && s.procs[p].st == RUNNABLE
    case Yield(p) => Running(s, p)
    case AllocProc(p, q) => Running(s, p) && s.place[p] == Elsewhere && q < |s.procs| && s.procs[q].st == UNUSED
    case ForkFails(p) => Running(s, p) && s.place[p].InFork? && !s.place[p].linked
    case LinkParent(p) => Running(s, p) && s.place[p].InFork? && !s.place[p].linked
    case StartChild(p) => Running(s, p) && s.place[p].InFork? && s.place[p].linked
    case Exit(p) => Running(s, p) && s.place[p] == Elsewhere && p != INIT
    case WaitReap(p, q) => CanWait(s, p) && ChildOf(s.procs, q, p) && s.procs[q].st == ZOMBIE
    case WaitFails(p) => CanWait(s, p) && !HasZombie(s.procs, p) && (!HasChild(s.procs, p) || s.procs[p].killed)
    case WaitSleep(p) => CanWait(s, p) && !HasZombie(s.procs, p) && HasChild(s.procs, p) && !s.procs[p].killed
    case Sleep(p, c) => Running(s, p) && s.place[p] == Elsewhere
    case Wakeup(c) => true
    case Kill(q) => q < |s.procs|
  }

  /** wait's scan runs when wait is called and again after each wakeup. */
  predicate CanWait(s: State, p: nat) {
    Running(s, p) && (s.place[p] == Elsewhere || s.place[p] == InWait)
  }

  ghost predicate Sized(s: State) {
    |s.procs| == |s.place| == NPROC && forall p: nat | p < NPROC && s.place[p].InFork? :: s.place[p].q < NPROC
  }

  ghost function Do(s: State, e: Step): State
    requires Sized(s) && Enabled(s, e)
  {
    var ps := s.procs;
    match e
    case Schedule(p) => s.(procs := ps[p := ps[p].(st := RUNNING)])
    case Yield(p) => s.(procs := ps[p := ps[p].(st := RUNNABLE)])
    case AllocProc(p, q) =>
      s.(procs := ps[q := ps[q].(st := EMBRYO, pid := s.nextpid, maker := p)],
         place := s.place[p := InFork(q, false)], nextpid := s.nextpid + 1)
    case ForkFails(p) =>
      var q := s.place[p].q;
      s.(procs := ps[q := ps[q].(st := UNUSED)], place := s.place[p := Elsewhere])
    case LinkParent(p) =>
      var q := s.place[p].q;
      s.(procs := ps[q := ps[q].(parent := Some(p))], place := s.place[p := InFork(q, true)])
    case StartChild(p) =>
      var q := s.place[p].q;
      s.(procs := ps[q := ps[q].(st := RUNNABLE)], place := s.place[p := Elsewhere])
    case Exit(p) =>
      s.(procs := Exited(ps, p), exited := s.exited + {ps[p].pid})
    case WaitReap(p, q) =>
      s.(procs := ps[q := Reaped(ps[q])], place := s.place[p := Elsewhere], reaped := s.reaped + [ps[q].pid])
    case WaitFails(p) => s.(place := s.place[p := Elsewhere])
    case WaitSleep(p) => s.(procs := ps[p := ps[p].(st := SLEEPING, chan := Of(p))], place := s.place[p := InWait])
    case Sleep(p, c) => s.(procs := ps[p := ps[p].(st := SLEEPING, chan := Else(c))])
    case Wakeup(c) => s.(procs := Woken(ps, Else(c)))
    case Kill(q) =>
      s.(procs := ps[q := ps[q].(killed := true, st := if ps[q].st == SLEEPING then RUNNABLE else ps[q].st)])
  }

  /** userinit: one process, the rest of the table unused. */
  ghost predicate Start(s: State) {
    && Sized(s) && s.nextpid == 2 && s.exited == {} && s.reaped == []
    && (forall p: nat | p < NPROC :: s.place[p] == Elsewhere)
    && s.procs[INIT].st == RUNNABLE && s.procs[INIT].pid == 1
    && (forall p: nat | p < NPROC :: s.procs[p].parent == None && !s.procs[p].killed && (p != INIT ==> s.procs[p].st == UNUSED))
  }

  ghost predicate Next(s: State, s': State) {
    Sized(s) && exists e :: Enabled(s, e) && s' == Do(s, e)
  }

  // ---------- The invariant ----------

  predicate Alive(p: Proc) {
    p.st == SLEEPING || p.st == RUNNABLE || p.st == RUNNING
  }

  /** A parent is a process that has neither exited nor left its slot, and it is older. */
  ghost predicate ParentOk(s: State, q: nat)
    requires Sized(s) && q < NPROC
  {
    var p := s.procs[q].parent;
    && (p.Some? ==> p.value < NPROC && Alive(s.procs[p.value]) && s.procs[p.value].pid < s.procs[q].pid)
    && (p.Some? ==> s.procs[q].st != UNUSED && q != INIT)
    && (p.None? ==> s.procs[q].st == UNUSED || s.procs[q].st == EMBRYO || q == INIT)
    && (s.procs[q].st == EMBRYO ==> s.procs[q].maker < NPROC && s.place[s.procs[q].maker] == InFork(q, p.Some?))
    && (s.procs[q].st == EMBRYO ==> s.procs[s.procs[q].maker].pid < s.procs[q].pid && (p.Some? ==> p.value == s.procs[q].maker))
  }

  ghost predicate PidOk(s: State, q: nat)
    requires Sized(s) && q < NPROC
  {
    s.procs[q].st != UNUSED ==> 1 <= s.procs[q].pid < s.nextpid
  }

  ghost predicate PidsDiffer(s: State, p: nat, q: nat)
    requires Sized(s) && p < NPROC && q < NPROC
  {
    p != q && s.procs[p].st != UNUSED && s.procs[q].st != UNUSED ==> s.procs[p].pid != s.procs[q].pid
  }

  ghost predicate PlaceOk(s: State, p: nat)
    requires Sized(s) && p < NPROC
  {
    var q := s.place[p];
    && (q != Elsewhere ==> Alive(s.procs[p]))
    && (q.InFork? ==> s.procs[p].st != SLEEPING && s.procs[q.q].st == EMBRYO && s.procs[q.q].maker == p)
  }

  /** A process asleep on a process sleeps in wait, has a child and no zombie child. */
  ghost predicate SleepOk(s: State, p: nat)
    requires Sized(s) && p < NPROC
  {
    s.procs[p].st == SLEEPING && s.procs[p].chan.Of? ==>
      s.procs[p].chan == Of(p) && s.place[p] == InWait && HasChild(s.procs, p) && !HasZombie(s.procs, p)
  }

  ghost predicate Inv(s: State) {
    && Sized(s)
    && Alive(s.procs[INIT]) && s.procs[INIT].pid == 1 && s.procs[INIT].parent == None
    && (forall q: nat | q < NPROC :: ParentOk(s, q))
    && (forall q: nat | q < NPROC :: PidOk(s, q))
    && (forall p: nat, q: nat | p < NPROC && q < NPROC :: PidsDiffer(s, p, q))
    && (forall p: nat | p < NPROC :: PlaceOk(s, p))
    && (forall p: nat | p < NPROC :: SleepOk(s, p))
  }
}

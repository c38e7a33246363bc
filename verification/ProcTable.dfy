/** The table-scanning loops of proc.c, run under ptable.lock, against the steps of the machine. */
module ProcTable {
  import opened Basics
  import opened Proc
  import opened ProcProof

  datatype WaitResult = Pid(pid: nat) | NoChildren | Asleep

  class Ptable {
    const proc: array<Proc>

    constructor (table: seq<Proc>)
      ensures fresh(proc) && proc[..] == table
    {
      proc := new Proc[|table|](i requires 0 <= i < |table| => table[i]);
    }

    /** wakeup1 */
    method Wakeup1(chan: Chan)
      modifies proc
      ensures proc[..] == Woken(old(proc[..]), chan)
      ensures forall j | 0 <= j < proc.Length :: !(proc[j].st == SLEEPING && proc[j].chan == chan)
      ensures forall j | 0 <= j < proc.Length ::
                if old(proc[j].st == SLEEPING && proc[j].chan == chan) then proc[j] == old(proc[j]).(st := RUNNABLE)
                else proc[j] == old(proc[j])
    {
      var i := 0;
      while i < proc.Length
        invariant 0 <= i <= proc.Length
        invariant forall j | 0 <= j < proc.Length :: proc[j] == if j < i then WokenProc(old(proc[j]), chan) else old(proc[j])
      {
        if proc[i].st == SLEEPING && proc[i].chan == chan {
          proc[i] := proc[i].(st := RUNNABLE);
        }
        i := i + 1;
      }
    }

    /** allocproc's search: the first unused slot, which becomes an EMBRYO with a pid of its own. */
    method Alloc(nextpid: nat, maker: nat) returns (r: Option<nat>)
      modifies proc
      ensures r.None? ==> proc[..] == old(proc[..]) && forall j | 0 <= j < proc.Length :: proc[j].st != UNUSED
      ensures r.Some? ==>
                && r.value < proc.Length && old(proc[r.value]).st == UNUSED
                && (forall j | 0 <= j < r.value :: old(proc[j]).st != UNUSED)
                && proc[..] == old(proc[..])[r.value := old(proc[r.value]).(st := EMBRYO, pid := nextpid, maker := maker)]
    {
      var i := 0;
      while i < proc.Length
        invariant 0 <= i <= proc.Length
        invariant proc[..] == old(proc[..]) && forall j | 0 <= j < i :: proc[j].st != UNUSED
      {
        if proc[i].st == UNUSED {
          proc[i] := proc[i].(st := EMBRYO, pid := nextpid, maker := maker);
          return Some(i);
        }
        i := i + 1;
      }
      return None;
    }

    /** exit's critical section: the loop hands the children over one by one, and the outcome is that of handing all over at once. */
    method Exit(p: nat)
      requires p < proc.Length && p != INIT
      modifies proc
      ensures proc[..] == Exited(old(proc[..]), p)
      // every slot in its own words: the caller, its children, its parent and init asleep in wait, and all others
      ensures forall j: nat | j < proc.Length :: ExitSlot(old(proc[..]), proc[..], p, j)
    {
      ghost var ps := proc[..];
      Wakeup1(ParentChan(proc[p]));
      var i := 0;
      while i < proc.Length
        invariant 0 <= i <= proc.Length
        invariant forall j: nat | j < proc.Length :: proc[j] == Passed(ps, p, i, j)
      {
        PassOn(ps, p, i);
        if proc[i].parent == Some(p) {
          proc[i] := proc[i].(parent := Some(INIT));
          if proc[i].st == ZOMBIE {
            Wakeup1(Of(INIT));
          }
        }
        i := i + 1;
      }
      proc[p] := proc[p].(st := ZOMBIE);
      AllPassed(ps, p, proc[..]);
      forall j: nat | j < proc.Length ensures ExitSlot(ps, proc[..], p, j) { ExitedAt(ps, p, j); }
    }

    /** kill: the first process with this pid is marked, and woken if it sleeps. */
    method Kill(pid: nat) returns (r: int, ghost q: nat)
      modifies proc
      ensures r == 0 || r == -1
      ensures r == -1 <==> forall j | 0 <= j < proc.Length :: old(proc[j]).pid != pid
      ensures r == -1 ==> proc[..] == old(proc[..])
      ensures r == 0 ==>
                && q < proc.Length && old(proc[q]).pid == pid && (forall j | 0 <= j < q :: old(proc[j]).pid != pid)
                && proc[q].killed && proc[q].st != SLEEPING && proc[q] == old(proc[q]).(killed := true, st := proc[q].st)
                && (old(proc[q]).st != SLEEPING ==> proc[q].st == old(proc[q]).st) && (old(proc[q]).st == SLEEPING ==> proc[q].st == RUNNABLE)
                && proc[..] == old(proc[..])[q := proc[q]]
    {
      var i := 0;
      while i < proc.Length
        invariant 0 <= i <= proc.Length && proc[..] == old(proc[..])
        invariant forall j | 0 <= j < i :: proc[j].pid != pid
      {
        if proc[i].pid == pid {
          proc[i] := proc[i].(killed := true);
          if proc[i].st == SLEEPING {
            proc[i] := proc[i].(st := RUNNABLE);
          }
          return 0, i;
        }
        i := i + 1;
      }
      return -1, 0;
    }

    /**
     wait's critical section: the first zombie child is reaped; without one it
     reports that there is nothing to wait for, or goes to sleep.
     */
    method Wait(p: nat) returns (r: WaitResult, ghost q: nat)
      requires p < proc.Length
      modifies proc
      ensures r.Pid? <==> HasZombie(old(proc[..]), p)
      ensures r.Pid? ==>
                && q < proc.Length && ChildOf(old(proc[..]), q, p) && old(proc[q]).st == ZOMBIE && r.pid == old(proc[q]).pid
                && (forall j: nat | j < q && ChildOf(old(proc[..]), j, p) :: old(proc[j]).st != ZOMBIE)
                && proc[q] == old(proc[q]).(st := UNUSED, pid := 0, parent := None, killed := false)
                && proc[..] == old(proc[..])[q := Reaped(old(proc[q]))]
      ensures r.NoChildren? ==> proc[..] == old(proc[..]) && (!HasChild(proc[..], p) || proc[p].killed)
      ensures r.Asleep? ==>
                && HasChild(old(proc[..]), p) && !old(proc[p]).killed
                && proc[..] == old(proc[..])[p := old(proc[p]).(st := SLEEPING, chan := Of(p))]
    {
      q := 0;
      ghost var ps := proc[..];
      var havekids := false;
      var i := 0;
      while i < proc.Length
        invariant 0 <= i <= proc.Length && proc[..] == ps
        invariant havekids <==> exists j: nat :: j < i && ChildOf(ps, j, p)
        invariant forall j: nat | j < i && ChildOf(ps, j, p) :: ps[j].st != ZOMBIE
      {
        if proc[i].parent == Some(p) {
          havekids := true;
          assert ChildOf(ps, i, p);
          if proc[i].st == ZOMBIE {
            var pid := proc[i].pid;
            proc[i] := proc[i].(pid := 0, parent := None, killed := false);
            proc[i] := proc[i].(st := UNUSED);
            return Pid(pid), i;
          }
        }
        i := i + 1;
      }
      if !havekids || proc[p].killed {
        return NoChildren, 0;
      }
      proc[p] := proc[p].(chan := Of(p));
      proc[p] := proc[p].(st := SLEEPING);
      return Asleep, 0;
    }
  }

  /** Some child of p below slot i is a zombie. */
  ghost predicate ZombieBelow(ps: seq<Proc>, p: nat, i: nat) {
    exists c: nat :: c < i && ChildOf(ps, c, p) && ps[c].st == ZOMBIE
  }

  /** Slot j of the table when exit's loop has come to slot i. */
  ghost function Passed(ps: seq<Proc>, p: nat, i: nat, j: nat): Proc
    requires p < |ps| && j < |ps|
  {
    var w := WokenProc(ps[j], ParentChan(ps[p]));
    var z := if ZombieBelow(ps, p, i) then WokenProc(w, Of(INIT)) else w;
    if j < i && ps[j].parent == Some(p) then z.(parent := Some(INIT)) else z
  }

  /** One turn of exit's loop. */
  lemma PassOn(ps: seq<Proc>, p: nat, i: nat)
    requires p < |ps| && i < |ps| && p != INIT
    ensures ZombieBelow(ps, p, i + 1) <==> ZombieBelow(ps, p, i) || (ps[i].parent == Some(p) && ps[i].st == ZOMBIE)
  {
    assert ps[i].parent == Some(p) <==> ChildOf(ps, i, p);
  }

  lemma AllPassed(ps: seq<Proc>, p: nat, ps': seq<Proc>)
    requires p < |ps| == |ps'| && p != INIT
    requires forall j: nat | j < |ps| && j != p :: ps'[j] == Passed(ps, p, |ps|, j)
    requires ps'[p] == Passed(ps, p, |ps|, p).(st := ZOMBIE)
    ensures ps' == Exited(ps, p)
  {
    assert ZombieBelow(ps, p, |ps|) <==> HasZombie(ps, p);
    hide ZombieBelow, HasZombie;
    var e := Exited(ps, p);
    forall j: nat | j < |ps| ensures ps'[j] == e[j] {}
  }
}

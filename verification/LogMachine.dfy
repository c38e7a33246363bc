/**
 log.c over bio.c as a system of steps. File system calls, the committing
 process, readers outside any call, buffer recycling and crashes interleave
 freely; each step writes at most one disk block. A spinlock-protected section
 is one step, and log_write is two, because log.c checks the space left before
 it takes the lock.
 */
module LogMachine {
  import opened Basics
  import opened Blocks
  import opened LogDisk

  /** Who holds a buffer's sleep lock. */
  datatype Holder = Free | Reader | Call(i: nat)

  /** A valid cached block; `touched` marks a change not yet passed to log_write. */
  datatype Buf = Buf(data: Block, dirty: bool, touched: bool, holder: Holder)

  /** A file system call between begin_op and end_op, with the blocks it has logged so far. */
  datatype Slot = Inactive | Active(logged: set<nat>, pending: Option<nat>)

  /** Where the committing or recovering process stands. */
  datatype Phase =
    | Idle
    | WriteLog(i: nat) | WriteHead | Install(i: nat) | ClearHead | Finish
    | ReadHead | Reinstall(i: nat) | ReclearHead

  datatype State = State(
    disk: Disk,
    cache: map<nat, Buf>,
    lh: seq<nat>,
    outstanding: nat,
    slots: seq<Slot>,
    phase: Phase)

  datatype Step =
    | BeginOp(i: nat)
    | EndOp(i: nat)
    | Bread(b: nat, who: Holder)
    | Modify(b: nat, data: Block)
    | LogCheck(b: nat)
    | LogAppend(i: nat)
    | Brelse(b: nat)
    | Evict(b: nat)
    | Advance
    | Crash

  predicate Recovering(s: State) {
    s.phase.ReadHead? || s.phase.Reinstall? || s.phase.ReclearHead?
  }

  /** What bread returns for b. */
  function Seen(s: State, b: nat): Block
    requires b < |s.disk|
  {
    if b in s.cache then s.cache[b].data else s.disk[b]
  }

  predicate Unlocked(s: State, b: nat) {
    b in s.cache ==> s.cache[b].holder.Free?
  }

  /** The two panics at the top of log_write. */
  predicate CheckPasses(l: Layout, s: State) {
    |s.lh| < LOGSIZE && |s.lh| < l.nlog - 1 && s.outstanding >= 1
  }

  /** bwrite of a buffer that is then released. */
  function Bwrite(s: State, b: nat, data: Block): State
    requires b < |s.disk|
  {
    s.(disk := s.disk[b := data], cache := s.cache[b := Buf(data, false, false, Free)])
  }

  predicate AdvanceEnabled(l: Layout, s: State) {
    && |s.disk| == l.size && l.Valid()
    && (forall k | 0 <= k < |s.lh| :: s.lh[k] < l.size)
    && |s.lh| <= LOGSIZE
    && match s.phase
       case Idle => false
       case WriteLog(i) => i < |s.lh| && Unlocked(s, s.lh[i])
       case Install(i) => i < |s.lh| && Unlocked(s, s.lh[i])
       case Reinstall(i) => i < |s.lh|
       case ReadHead => Word(s.disk[l.start], 0) <= LOGSIZE
       case _ => true
  }

  /** The next step of commit() or recover_from_log(). */
  function DoAdvance(l: Layout, s: State): State
    requires AdvanceEnabled(l, s)
  {
    match s.phase
    case WriteLog(i) =>
      Bwrite(s, l.start + 1 + i, Seen(s, s.lh[i]))
      .(phase := if i + 1 < |s.lh| then WriteLog(i + 1) else WriteHead)
    case WriteHead =>
      Bwrite(s, l.start, EncodeHead(Seen(s, l.start), s.lh))
      .(phase := if |s.lh| > 0 then Install(0) else ClearHead)
    case Install(i) =>
      Bwrite(s, s.lh[i], Seen(s, l.start + 1 + i))
      .(phase := if i + 1 < |s.lh| then Install(i + 1) else ClearHead)
    case ClearHead =>
      Bwrite(s, l.start, EncodeHead(Seen(s, l.start), [])).(lh := [], phase := Finish)
    case Finish => s.(phase := Idle)
    case ReadHead =>
      var lh := DecodeHead(s.disk[l.start]);
      s.(lh := lh, phase := if |lh| > 0 then Reinstall(0) else ReclearHead)
    case Reinstall(i) =>
      Bwrite(s, s.lh[i], Seen(s, l.start + 1 + i))
      .(phase := if i + 1 < |s.lh| then Reinstall(i + 1) else ReclearHead)
    case ReclearHead =>
      Bwrite(s, l.start, EncodeHead(Seen(s, l.start), [])).(lh := [], phase := Idle)
    case Idle => s
  }

  /** A block no file system call can name, or one whose buffer belongs to an active call. */
  predicate HeldByCall(s: State, b: nat) {
    && b in s.cache && s.cache[b].holder.Call?
    && s.cache[b].holder.i < |s.slots| && s.slots[s.cache[b].holder.i].Active?
  }

  predicate Enabled(l: Layout, s: State, e: Step) {
    match e
    case BeginOp(i) =>
      && i < |s.slots| && s.slots[i].Inactive?
      && s.phase.Idle? && |s.lh| + (s.outstanding + 1) * MAXOPBLOCKS <= LOGSIZE
    case EndOp(i) =>
      && i < |s.slots| && s.slots[i].Active? && s.slots[i].pending.None? && s.outstanding > 0
      && forall b | b in s.cache :: s.cache[b].holder != Call(i)
    case Bread(b, who) =>
      && l.Home(b) && b < |s.disk| && Unlocked(s, b) && !who.Free? && !Recovering(s)
      && (who.Call? ==> who.i < |s.slots| && s.slots[who.i].Active?)
    case Modify(b, _) => HeldByCall(s, b) && s.slots[s.cache[b].holder.i].pending != Some(b)
    case LogCheck(b) => HeldByCall(s, b) && s.slots[s.cache[b].holder.i].pending.None? && CheckPasses(l, s)
    case LogAppend(i) =>
      && i < |s.slots| && s.slots[i].Active? && s.slots[i].pending.Some?
      && s.slots[i].pending.value in s.cache
      // what MAXOPBLOCKS promises of every call
      && |s.slots[i].logged + {s.slots[i].pending.value}| <= MAXOPBLOCKS
    case Brelse(b) =>
      && b in s.cache && !s.cache[b].holder.Free? && !s.cache[b].touched
      && (HeldByCall(s, b) ==> s.slots[s.cache[b].holder.i].pending != Some(b))
    case Evict(b) => b in s.cache && s.cache[b].holder.Free? && !s.cache[b].dirty
    case Advance => AdvanceEnabled(l, s)
    case Crash => true
  }

  function Do(l: Layout, s: State, e: Step): State
    requires Enabled(l, s, e)
  {
    match e
    case BeginOp(i) =>
      s.(slots := s.slots[i := Active({}, None)], outstanding := s.outstanding + 1)
    case EndOp(i) =>
      s.(slots := s.slots[i := Inactive],
         outstanding := s.outstanding - 1,
         phase := if s.outstanding > 1 then s.phase else if |s.lh| > 0 then WriteLog(0) else Finish)
    case Bread(b, who) =>
      s.(cache := s.cache[b := if b in s.cache then s.cache[b].(holder := who) else Buf(s.disk[b], false, false, who)])
    case Modify(b, data) =>
      s.(cache := s.cache[b := s.cache[b].(data := data, touched := true)])
    case LogCheck(b) =>
      var i := s.cache[b].holder.i;
      s.(slots := s.slots[i := s.slots[i].(pending := Some(b))])
    case LogAppend(i) =>
      var b := s.slots[i].pending.value;
      s.(lh := if b in s.lh then s.lh else s.lh + [b],
         cache := s.cache[b := s.cache[b].(dirty := true, touched := false)],
         slots := s.slots[i := Active(s.slots[i].logged + {b}, None)])
    case Brelse(b) =>
      s.(cache := s.cache[b := s.cache[b].(holder := Free)])
    case Evict(b) => s.(cache := s.cache - {b})
    case Advance => DoAdvance(l, s)
    case Crash =>
      State(s.disk, map[], [], 0, seq(|s.slots|, _ => Inactive), ReadHead)
  }

  predicate Init(l: Layout, s: State) {
    && Holds(l, s.disk, [])
    && s.cache == map[] && s.lh == [] && s.outstanding == 0 && s.phase == Idle
    && forall i | 0 <= i < |s.slots| :: s.slots[i].Inactive?
  }

  ghost predicate Next(l: Layout, s: State, s': State) {
    exists e :: Enabled(l, s, e) && s' == Do(l, s, e)
  }

  ghost predicate StepAt(l: Layout, run: seq<State>, i: nat)
    requires i + 1 < |run|
  {
    Next(l, run[i], run[i + 1])
  }

  ghost predicate IsRun(l: Layout, run: seq<State>) {
    && |run| > 0 && Init(l, run[0])
    && forall i: nat | i + 1 < |run| :: StepAt(l, run, i)
  }

  // ---------- Log space reservation ----------

  function Unused(x: Slot): int {
    if x.Active? then MAXOPBLOCKS - |x.logged| else 0
  }

  /** Blocks the calls in progress may still log. */
  function Reserve(slots: seq<Slot>): int {
    if slots == [] then 0 else Reserve(slots[..|slots| - 1]) + Unused(slots[|slots| - 1])
  }

  function ActiveCount(slots: seq<Slot>): nat {
    if slots == [] then 0
    else ActiveCount(slots[..|slots| - 1]) + if slots[|slots| - 1].Active? then 1 else 0
  }

  lemma {:induction false} SlotUpdate(slots: seq<Slot>, i: nat, x: Slot)
    requires i < |slots|
    ensures Reserve(slots[i := x]) == Reserve(slots) - Unused(slots[i]) + Unused(x)
    ensures ActiveCount(slots[i := x]) ==
            ActiveCount(slots) - (if slots[i].Active? then 1 else 0) + if x.Active? then 1 else 0
  {
    var n := |slots| - 1;
    if i < n {
      assert slots[i := x][..n] == slots[..n][i := x];
      SlotUpdate(slots[..n], i, x);
    } else {
      assert slots[i := x][..n] == slots[..n];
    }
  }

  predicate Budgeted(slots: seq<Slot>) {
    forall i | 0 <= i < |slots| :: slots[i].Active? ==> |slots[i].logged| <= MAXOPBLOCKS
  }

  lemma {:induction false} ReserveBounds(slots: seq<Slot>)
    requires Budgeted(slots)
    ensures 0 <= Reserve(slots) <= MAXOPBLOCKS * ActiveCount(slots)
    ensures forall i | 0 <= i < |slots| :: Unused(slots[i]) <= Reserve(slots)
    ensures ActiveCount(slots) == 0 <==> forall i | 0 <= i < |slots| :: slots[i].Inactive?
  {
    if slots != [] {
      var n := |slots| - 1;
      ReserveBounds(slots[..n]);
      forall i | 0 <= i < |slots|
        ensures Unused(slots[i]) <= Reserve(slots)
      {
        if i < n {
          assert slots[..n][i] == slots[i];
        }
      }
      assert forall i | 0 <= i < n :: slots[i] == slots[..n][i];
    }
  }
}

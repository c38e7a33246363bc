/**
 Log space reservation, for every size of the log area: begin_op's accounting
 alone keeps the header within its LOGSIZE entries and the entries distinct.
 */
module LogReserve {
  import opened Basics
  import opened Blocks
  import opened LogDisk
  import opened LogMachine
  import LogProof

  predicate EntriesOk(l: Layout, lh: seq<nat>) {
    |lh| <= LOGSIZE && Distinct(lh) && forall k | 0 <= k < |lh| :: l.Home(lh[k])
  }

  predicate HeadOk(l: Layout, d: Disk) {
    l.Valid() && |d| == l.size && Word(d[l.start], 0) <= LOGSIZE && EntriesOk(l, DecodeHead(d[l.start]))
  }

  /** What a call has logged is in the header; what it is about to log is a home block. */
  predicate CallOk(l: Layout, s: State, i: nat)
    requires i < |s.slots|
  {
    s.slots[i].Active? ==>
      && (forall b | b in s.slots[i].logged :: b in s.lh)
      && |s.slots[i].logged| <= MAXOPBLOCKS
      && (s.slots[i].pending.Some? ==> l.Home(s.slots[i].pending.value))
  }

  predicate Accounts(s: State) {
    && |s.lh| + Reserve(s.slots) <= LOGSIZE && s.outstanding == ActiveCount(s.slots)
    && (!s.phase.Idle? ==> s.outstanding == 0)
  }

  predicate Reserved(l: Layout, s: State) {
    && HeadOk(l, s.disk) && EntriesOk(l, s.lh) && Accounts(s)
    && (forall i: nat | i < |s.slots| :: CallOk(l, s, i))
    && (forall b | b in s.cache && s.cache[b].holder.Call? :: l.Home(b))
  }

  lemma Budget(l: Layout, s: State)
    requires Reserved(l, s)
    ensures Budgeted(s.slots)
  {
    forall i | 0 <= i < |s.slots| ensures s.slots[i].Active? ==> |s.slots[i].logged| <= MAXOPBLOCKS {
      assert CallOk(l, s, i);
    }
  }

  lemma BeginKeeps(l: Layout, s: State, i: nat)
    requires Reserved(l, s) && Enabled(l, s, BeginOp(i))
    ensures Reserved(l, Do(l, s, BeginOp(i)))
  {
    hide DecodeHead, Word;
    var s' := Do(l, s, BeginOp(i));
    Budget(l, s);
    ReserveBounds(s.slots);
    SlotUpdate(s.slots, i, s'.slots[i]);
    forall j: nat | j < |s'.slots| ensures CallOk(l, s', j) { assert CallOk(l, s, j); }
  }

  lemma EndKeeps(l: Layout, s: State, i: nat)
    requires Reserved(l, s) && Enabled(l, s, EndOp(i))
    ensures Reserved(l, Do(l, s, EndOp(i)))
  {
    hide DecodeHead, Word;
    var s' := Do(l, s, EndOp(i));
    assert CallOk(l, s, i);
    SlotUpdate(s.slots, i, s'.slots[i]);
    forall j: nat | j < |s'.slots| ensures CallOk(l, s', j) { assert CallOk(l, s, j); }
  }

  /** A block that is not in the header is not in the call's log either, so the call still has budget for it. */
  lemma BudgetLeft(l: Layout, s: State, i: nat)
    requires Reserved(l, s) && Enabled(l, s, LogAppend(i)) && s.slots[i].pending.value !in s.lh
    ensures |s.lh| < LOGSIZE && |s.slots[i].logged + {s.slots[i].pending.value}| == |s.slots[i].logged| + 1
  {
    hide HeadOk, EntriesOk;
    assert CallOk(l, s, i);
    Budget(l, s);
    ReserveBounds(s.slots);
    assert Unused(s.slots[i]) <= Reserve(s.slots);
  }

  lemma AppendKeeps(l: Layout, s: State, i: nat)
    requires Reserved(l, s) && Enabled(l, s, LogAppend(i))
    ensures Reserved(l, Do(l, s, LogAppend(i)))
  {
    hide DecodeHead, Word;
    var s' := Do(l, s, LogAppend(i));
    var b := s.slots[i].pending.value;
    assert CallOk(l, s, i);
    SlotUpdate(s.slots, i, s'.slots[i]);
    if b !in s.lh { BudgetLeft(l, s, i); } else { LogProof.SubsetSize(s.slots[i].logged, s.slots[i].logged + {b}); }
    forall j: nat | j < |s'.slots| ensures CallOk(l, s', j) { assert CallOk(l, s, j); }
  }

  lemma CheckKeeps(l: Layout, s: State, b: nat)
    requires Reserved(l, s) && Enabled(l, s, LogCheck(b))
    ensures Reserved(l, Do(l, s, LogCheck(b)))
  {
    hide DecodeHead, Word;
    var s' := Do(l, s, LogCheck(b));
    var i := s.cache[b].holder.i;
    SlotUpdate(s.slots, i, s'.slots[i]);
    forall j: nat | j < |s'.slots| ensures CallOk(l, s', j) { assert CallOk(l, s, j); }
  }

  /** Steps on buffers alone. */
  lemma BufferKeeps(l: Layout, s: State, e: Step)
    requires Reserved(l, s) && Enabled(l, s, e) && (e.Bread? || e.Modify? || e.Brelse? || e.Evict?)
    ensures Reserved(l, Do(l, s, e))
  {
    hide DecodeHead, Word, HeadOk, EntriesOk;
    var s' := Do(l, s, e);
    forall j: nat | j < |s'.slots| ensures CallOk(l, s', j) { assert CallOk(l, s, j); }
  }

  lemma CrashKeeps(l: Layout, s: State)
    requires Reserved(l, s)
    ensures Reserved(l, Do(l, s, Crash))
  {
    hide DecodeHead, Word, HeadOk;
    LogProof.NoActive(Do(l, s, Crash).slots);
  }

  /** Whatever commit and recovery write, the header block holds the empty header or the current one. */
  lemma HeadAfter(l: Layout, s: State)
    requires Reserved(l, s) && Enabled(l, s, Advance)
    ensures HeadOk(l, Do(l, s, Advance).disk) && EntriesOk(l, Do(l, s, Advance).lh)
  {
    hide DecodeHead, Word, Distinct, EncodeHead, PutEntries;
    assert l.InLog(l.start);
    HeadRoundTrip(Seen(s, l.start), s.lh);
    HeadRoundTrip(Seen(s, l.start), []);
    if s.phase.Install? || s.phase.Reinstall? { assert l.Home(s.lh[s.phase.i]); }
    assert Distinct([]) by { NoneDistinct(); }
  }

  lemma NoneDistinct()
    ensures Distinct([])
  {
  }

  lemma AdvanceFrame(l: Layout, s: State)
    requires Enabled(l, s, Advance)
    ensures var s' := Do(l, s, Advance);
            && s'.slots == s.slots && s'.outstanding == s.outstanding
            && forall b | b in s'.cache && s'.cache[b].holder.Call? :: b in s.cache && s.cache[b].holder.Call?
  {
    hide DecodeHead, Word, EncodeHead;
  }

  lemma AdvanceKeeps(l: Layout, s: State)
    requires Reserved(l, s) && Enabled(l, s, Advance)
    ensures Reserved(l, Do(l, s, Advance))
  {
    hide DecodeHead, Word, HeadOk, Do;
    HeadAfter(l, s);
    AdvanceFrame(l, s);
    Budget(l, s);
    NobodyActive(s.slots);
  }

  lemma NobodyActive(slots: seq<Slot>)
    requires Budgeted(slots) && ActiveCount(slots) == 0
    ensures Reserve(slots) == 0 && forall i | 0 <= i < |slots| :: slots[i].Inactive?
  {
    ReserveBounds(slots);
  }

  lemma StepKeeps(l: Layout, s: State, e: Step)
    requires Reserved(l, s) && Enabled(l, s, e)
    ensures Reserved(l, Do(l, s, e))
  {
    hide Reserved, Do;
    match e
    case BeginOp(i) => BeginKeeps(l, s, i);
    case EndOp(i) => EndKeeps(l, s, i);
    case LogCheck(b) => CheckKeeps(l, s, b);
    case LogAppend(i) => AppendKeeps(l, s, i);
    case Advance => AdvanceKeeps(l, s);
    case Crash => CrashKeeps(l, s);
    case _ => BufferKeeps(l, s, e);
  }

  lemma {:induction false} RunKeeps(l: Layout, run: seq<State>, i: nat)
    requires IsRun(l, run) && i < |run|
    ensures Reserved(l, run[i])
  {
    hide Reserved, Do, Init, Enabled;
    if i == 0 {
      InitReserved(l, run[0]);
    } else {
      RunKeeps(l, run, i - 1);
      assert StepAt(l, run, i - 1);
      var e :| Enabled(l, run[i - 1], e) && run[i] == Do(l, run[i - 1], e);
      StepKeeps(l, run[i - 1], e);
    }
  }

  lemma InitReserved(l: Layout, s: State)
    requires Init(l, s)
    ensures Reserved(l, s)
  {
    LogProof.NoActive(s.slots);
  }

  /** In every interleaving, whatever the size of the log area: the header entries are distinct and at most LOGSIZE, also on disk. */
  lemma HeaderBounded(l: Layout, run: seq<State>, now: nat)
    requires IsRun(l, run) && now < |run|
    ensures |run[now].lh| <= LOGSIZE && Distinct(run[now].lh)
    ensures HeadOk(l, run[now].disk)
  {
    hide IsRun;
    RunKeeps(l, run, now);
  }

  /** An appending log_write always finds a free entry of lh.block. */
  lemma AppendFindsEntry(l: Layout, run: seq<State>, now: nat, i: nat)
    requires IsRun(l, run) && now < |run| && Enabled(l, run[now], LogAppend(i))
    requires run[now].slots[i].pending.value !in run[now].lh
    ensures |run[now].lh| < LOGSIZE
  {
    hide IsRun;
    RunKeeps(l, run, now);
    BudgetLeft(l, run[now], i);
  }

  lemma AtMostThreeStep(l: Layout, s: State, e: Step)
    requires Enabled(l, s, e) && s.outstanding <= 3
    ensures Do(l, s, e).outstanding <= 3
  {
    hide EncodeHead, DecodeHead;
  }

  /**
   Three calls at most are in progress at a time; and while no commit is under
   way one more is let in exactly if, at ten blocks a call, the log has room.
   */
  lemma {:induction false} AdmitsIffRoom(l: Layout, run: seq<State>, now: nat)
    requires IsRun(l, run) && now < |run|
    ensures run[now].outstanding <= 3
    ensures forall i: nat | i < |run[now].slots| && run[now].slots[i].Inactive? && run[now].phase.Idle? ::
              Enabled(l, run[now], BeginOp(i)) <==> |run[now].lh| + 10 * run[now].outstanding <= 20
  {
    if now > 0 {
      AdmitsIffRoom(l, run, now - 1);
      assert StepAt(l, run, now - 1);
      hide Do;
      var e :| Enabled(l, run[now - 1], e) && run[now] == Do(l, run[now - 1], e);
      AtMostThreeStep(l, run[now - 1], e);
    }
  }
}

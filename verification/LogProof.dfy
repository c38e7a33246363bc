/**
 Every step of the log machine keeps the invariant below and is a step of the
 atomic disk, provided the log area has room for LOGSIZE blocks and a header.
 */
module LogProof {
  import opened Basics
  import opened Blocks
  import opened LogDisk
  import opened LogMachine
  import AD = AtomicDisk

  // ---------- The invariant ----------

  predicate BufOk(l: Layout, s: State, b: nat)
    requires b in s.cache && |s.disk| == l.size
  {
    var x := s.cache[b];
    && b < l.size
    && (x.holder.Call? ==> HeldByCall(s, b))
    && (!x.holder.Free? ==> l.Home(b))
    && (x.touched ==> x.holder.Call?)
    && (x.dirty ==> b in s.lh)
    && (!x.dirty && !x.touched ==> x.data == s.disk[b])
  }

  predicate SlotOk(s: State, i: nat)
    requires i < |s.slots|
  {
    var x := s.slots[i];
    x.Active? ==>
      && |x.logged| <= MAXOPBLOCKS
      && (forall b | b in x.logged :: b in s.lh)
      && (x.pending.Some? ==> x.pending.value in s.cache && s.cache[x.pending.value].holder == Call(i))
  }

  /** Entry k is pinned in the cache, waiting to be written home. */
  predicate Pinned(s: State, k: nat)
    requires k < |s.lh|
  {
    s.lh[k] in s.cache && s.cache[s.lh[k]].dirty
  }

  predicate Copied(l: Layout, s: State, k: nat)
    requires l.Valid() && |s.disk| == l.size && k < |s.lh| <= LOGSIZE
  {
    Pinned(s, k) && LogCopy(l, s.disk, k) == s.cache[s.lh[k]].data
  }

  predicate Home(l: Layout, s: State, k: nat)
    requires l.Valid() && |s.disk| == l.size && k < |s.lh| <= LOGSIZE
  {
    && s.lh[k] < l.size && s.disk[s.lh[k]] == LogCopy(l, s.disk, k)
    && (s.lh[k] in s.cache ==> !s.cache[s.lh[k]].dirty)
  }

  predicate PhaseInv(l: Layout, s: State)
    requires l.Valid() && |s.disk| == l.size && |s.lh| <= LOGSIZE
  {
    match s.phase
    case Idle =>
      Holds(l, s.disk, []) && forall k: nat | k < |s.lh| :: Pinned(s, k)
    case WriteLog(i) =>
      && i < |s.lh| && Holds(l, s.disk, [])
      && (forall k: nat | k < |s.lh| :: Pinned(s, k))
      && (forall k: nat | k < i :: Copied(l, s, k))
    case WriteHead =>
      Holds(l, s.disk, []) && forall k: nat | k < |s.lh| :: Copied(l, s, k)
    case Install(i) =>
      && i < |s.lh| && Holds(l, s.disk, s.lh)
      && (forall k: nat | k < i :: Home(l, s, k))
      && (forall k: nat | i <= k < |s.lh| :: Copied(l, s, k))
    case Reinstall(i) =>
      && i < |s.lh| && Holds(l, s.disk, s.lh)
      && (forall k: nat | k < i :: Home(l, s, k))
      && (forall b | b in s.cache :: !s.cache[b].dirty)
    case ClearHead =>
      Holds(l, s.disk, s.lh) && forall k: nat | k < |s.lh| :: Home(l, s, k)
    case ReclearHead =>
      Holds(l, s.disk, s.lh) && forall k: nat | k < |s.lh| :: Home(l, s, k)
    case Finish => s.lh == [] && Holds(l, s.disk, [])
    case ReadHead => s.lh == [] && s.cache == map[]
  }

  predicate Inv(l: Layout, s: State) {
    && l.Valid()
    && WellFormed(l, s.disk)
    && Installable(l, s.lh)
    && |s.lh| + Reserve(s.slots) <= LOGSIZE
    && s.outstanding == ActiveCount(s.slots)
    && (!s.phase.Idle? ==> s.outstanding == 0)
    && (forall i: nat | i < |s.slots| :: SlotOk(s, i))
    && (forall b | b in s.cache :: BufOk(l, s, b))
    && PhaseInv(l, s)
  }

  lemma InvBudgeted(l: Layout, s: State)
    requires Inv(l, s)
    ensures Budgeted(s.slots)
    ensures s.outstanding == 0 ==> Reserve(s.slots) == 0 && forall i | 0 <= i < |s.slots| :: s.slots[i].Inactive?
    ensures s.outstanding == 0 ==> forall b | b in s.cache :: !s.cache[b].holder.Call? && !s.cache[b].touched
  {
    forall i | 0 <= i < |s.slots| ensures s.slots[i].Active? ==> |s.slots[i].logged| <= MAXOPBLOCKS {
      assert SlotOk(s, i);
    }
    ReserveBounds(s.slots);
    forall b | b in s.cache && s.outstanding == 0 ensures !s.cache[b].holder.Call? && !s.cache[b].touched {
      assert BufOk(l, s, b);
    }
  }

  // ---------- The abstraction ----------

  /** The contents a file system call would see, home block by home block. */
  function Logical(l: Layout, s: State): map<nat, Block>
    requires |s.disk| == l.size
  {
    map b: nat | 0 <= b < l.size && l.Home(b) :: Seen(s, b)
  }

  ghost function Volatile(l: Layout, s: State): map<nat, Block>
    requires WellFormed(l, s.disk)
  {
    if Recovering(s) then Durable(l, s.disk) else Logical(l, s)
  }

  ghost function Abs(l: Layout, s: State): AD.Spec
    requires WellFormed(l, s.disk)
  {
    AD.Spec(Volatile(l, s), Durable(l, s.disk), s.outstanding)
  }

  function EventOf(s: State, e: Step): AD.Event {
    match e
    case BeginOp(_) => AD.Begin
    case EndOp(_) => AD.End
    case Modify(b, data) => AD.Write(b, data)
    case Crash => AD.Crash
    case Advance => if s.phase.WriteHead? then AD.Commit else AD.Stutter
    case _ => AD.Stutter
  }

  /** Step e from s keeps the invariant and is the atomic disk's step EventOf(s, e). */
  ghost predicate Simulates(l: Layout, s: State, e: Step)
    requires Inv(l, s) && Enabled(l, s, e)
  {
    var s' := Do(l, s, e);
    var v := EventOf(s, e);
    && Inv(l, s')
    && AD.Allowed(Abs(l, s), v)
    && Abs(l, s') == AD.Apply(Abs(l, s), v)
  }

  // ---------- Steps of file system calls ----------

  lemma SlotsAfterBegin(l: Layout, s: State, i: nat)
    requires Inv(l, s) && Enabled(l, s, BeginOp(i))
    ensures var s' := Do(l, s, BeginOp(i));
            && |s'.lh| + Reserve(s'.slots) <= LOGSIZE
            && s'.outstanding == ActiveCount(s'.slots)
            && forall j: nat | j < |s'.slots| :: SlotOk(s', j)
  {
    var s' := Do(l, s, BeginOp(i));
    InvBudgeted(l, s);
    ReserveBounds(s.slots);
    SlotUpdate(s.slots, i, Active({}, None));
    forall j: nat | j < |s'.slots| ensures SlotOk(s', j) {
      assert SlotOk(s, j);
    }
  }

  lemma SimBeginOp(l: Layout, s: State, i: nat)
    requires Inv(l, s) && Enabled(l, s, BeginOp(i))
    ensures Simulates(l, s, BeginOp(i))
  {
    hide DecodeHead, EncodeHead, Durable;
    var s' := Do(l, s, BeginOp(i));
    SlotsAfterBegin(l, s, i);
    PhaseInvFrame(l, s, s');
    forall b | b in s'.cache ensures BufOk(l, s', b) {
      assert BufOk(l, s, b);
    }
    assert Logical(l, s') == Logical(l, s);
  }

  lemma SlotsAfterEnd(l: Layout, s: State, i: nat)
    requires Inv(l, s) && Enabled(l, s, EndOp(i))
    ensures s.phase.Idle?
    ensures var s' := Do(l, s, EndOp(i));
            && |s'.lh| + Reserve(s'.slots) <= LOGSIZE
            && s'.outstanding == ActiveCount(s'.slots)
            && forall j: nat | j < |s'.slots| :: SlotOk(s', j)
  {
    var s' := Do(l, s, EndOp(i));
    InvBudgeted(l, s);
    SlotUpdate(s.slots, i, Inactive);
    forall j: nat | j < |s'.slots| ensures SlotOk(s', j) {
      assert SlotOk(s, j);
    }
  }

  lemma SimEndOp(l: Layout, s: State, i: nat)
    requires Inv(l, s) && Enabled(l, s, EndOp(i))
    ensures Simulates(l, s, EndOp(i))
  {
    hide DecodeHead, EncodeHead, Durable;
    var s' := Do(l, s, EndOp(i));
    SlotsAfterEnd(l, s, i);
    forall b | b in s'.cache ensures BufOk(l, s', b) {
      assert BufOk(l, s, b);
    }
    assert PhaseInv(l, s') by {
      assert forall k: nat | k < |s.lh| && Pinned(s, k) :: Pinned(s', k);
    }
    assert Logical(l, s') == Logical(l, s);
  }

  /** A change to one buffer that keeps its dirty flag keeps every log entry pinned. */
  lemma PhaseInvFrame(l: Layout, s: State, s': State)
    requires Inv(l, s)
    requires s'.disk == s.disk && s'.lh == s.lh && s'.phase == s.phase && !s.phase.ReadHead?
    requires forall b | b in s.cache && s.cache[b].dirty ::
               b in s'.cache && s'.cache[b].dirty && (s.phase.Idle? || s'.cache[b].data == s.cache[b].data)
    requires forall b | b in s'.cache && s'.cache[b].dirty :: b in s.cache && s.cache[b].dirty
    ensures PhaseInv(l, s')
  {
    assert forall k: nat | k < |s.lh| && Pinned(s, k) :: Pinned(s', k);
    assert !s.phase.Idle? ==> forall k: nat | k < |s.lh| && Copied(l, s, k) :: Copied(l, s', k);
    assert forall k: nat | k < |s.lh| && Home(l, s, k) :: Home(l, s', k);
  }

  lemma SimBread(l: Layout, s: State, b: nat, who: Holder)
    requires Inv(l, s) && Enabled(l, s, Bread(b, who))
    ensures Simulates(l, s, Bread(b, who))
  {
    hide DecodeHead, EncodeHead, Durable;
    var s' := Do(l, s, Bread(b, who));
    PhaseInvFrame(l, s, s');
    forall j: nat | j < |s'.slots| ensures SlotOk(s', j) {
      assert SlotOk(s, j);
    }
    forall c | c in s'.cache ensures BufOk(l, s', c) {
      if c in s.cache { assert BufOk(l, s, c); }
    }
    assert Logical(l, s') == Logical(l, s);
  }

  lemma SimModify(l: Layout, s: State, b: nat, data: Block)
    requires Inv(l, s) && Enabled(l, s, Modify(b, data))
    ensures Simulates(l, s, Modify(b, data))
  {
    hide DecodeHead, EncodeHead, Durable;
    var s' := Do(l, s, Modify(b, data));
    InvBudgeted(l, s);
    assert BufOk(l, s, b);
    PhaseInvFrame(l, s, s');
    forall j: nat | j < |s'.slots| ensures SlotOk(s', j) {
      assert SlotOk(s, j);
    }
    forall c | c in s'.cache ensures BufOk(l, s', c) {
      assert BufOk(l, s, c);
    }
    assert Logical(l, s') == Logical(l, s)[b := data];
  }

  lemma SimLogCheck(l: Layout, s: State, b: nat)
    requires Inv(l, s) && Enabled(l, s, LogCheck(b))
    ensures Simulates(l, s, LogCheck(b))
  {
    hide DecodeHead, EncodeHead, Durable;
    var s' := Do(l, s, LogCheck(b));
    var i := s.cache[b].holder.i;
    InvBudgeted(l, s);
    SlotUpdate(s.slots, i, s'.slots[i]);
    PhaseInvFrame(l, s, s');
    forall j: nat | j < |s'.slots| ensures SlotOk(s', j) {
      assert SlotOk(s, j);
    }
    forall c | c in s'.cache ensures BufOk(l, s', c) {
      assert BufOk(l, s, c);
    }
    assert Logical(l, s') == Logical(l, s);
  }

  /** The reservation covers an append: the op still has budget, so the header still has room. */
  lemma AppendFits(l: Layout, s: State, i: nat)
    requires Inv(l, s) && Enabled(l, s, LogAppend(i))
    requires s.slots[i].pending.value !in s.lh
    ensures |s.slots[i].logged| < MAXOPBLOCKS && |s.lh| < LOGSIZE
    ensures |s.slots[i].logged + {s.slots[i].pending.value}| == |s.slots[i].logged| + 1
  {
    assert SlotOk(s, i);
    InvBudgeted(l, s);
    ReserveBounds(s.slots);
    assert Unused(s.slots[i]) <= Reserve(s.slots);
  }

  lemma SlotsAfterAppend(l: Layout, s: State, i: nat)
    requires Inv(l, s) && Enabled(l, s, LogAppend(i)) && |Do(l, s, LogAppend(i)).lh| < l.nlog
    ensures s.phase.Idle?
    ensures var s' := Do(l, s, LogAppend(i));
            && Installable(l, s'.lh)
            && |s'.lh| + Reserve(s'.slots) <= LOGSIZE
            && s'.outstanding == ActiveCount(s'.slots)
  {
    var s' := Do(l, s, LogAppend(i));
    var b := s.slots[i].pending.value;
    InvBudgeted(l, s);
    assert SlotOk(s, i) && BufOk(l, s, b);
    SlotUpdate(s.slots, i, s'.slots[i]);
    if b !in s.lh {
      AppendFits(l, s, i);
    } else {
      SubsetSize(s.slots[i].logged, s.slots[i].logged + {b});
    }
  }

  lemma SimLogAppend(l: Layout, s: State, i: nat)
    requires Inv(l, s) && Enabled(l, s, LogAppend(i)) && |Do(l, s, LogAppend(i)).lh| < l.nlog
    ensures Simulates(l, s, LogAppend(i))
  {
    var s' := Do(l, s, LogAppend(i));
    var b := s.slots[i].pending.value;
    SlotsAfterAppend(l, s, i);
    assert SlotOk(s, i) && BufOk(l, s, b);
    forall j: nat | j < |s'.slots| ensures SlotOk(s', j) {
      assert SlotOk(s, j);
    }
    forall c | c in s'.cache ensures BufOk(l, s', c) {
      assert BufOk(l, s, c);
    }
    forall k: nat | k < |s'.lh| ensures Pinned(s', k) {
      if k < |s.lh| { assert Pinned(s, k); }
    }
    assert Logical(l, s') == Logical(l, s);
  }

  lemma SubsetSize(a: set<nat>, b: set<nat>)
    requires a <= b
    ensures |a| <= |b|
  {
    assert b == a + (b - a);
  }

  lemma SimBrelse(l: Layout, s: State, b: nat)
    requires Inv(l, s) && Enabled(l, s, Brelse(b))
    ensures Simulates(l, s, Brelse(b))
  {
    hide DecodeHead, EncodeHead, Durable;
    var s' := Do(l, s, Brelse(b));
    PhaseInvFrame(l, s, s');
    assert BufOk(l, s, b);
    forall j: nat | j < |s'.slots| ensures SlotOk(s', j) {
      assert SlotOk(s, j);
    }
    forall c | c in s'.cache ensures BufOk(l, s', c) {
      assert BufOk(l, s, c);
    }
    assert Logical(l, s') == Logical(l, s);
  }

  lemma SimEvict(l: Layout, s: State, b: nat)
    requires Inv(l, s) && Enabled(l, s, Evict(b))
    ensures Simulates(l, s, Evict(b))
  {
    hide DecodeHead, EncodeHead, Durable;
    var s' := Do(l, s, Evict(b));
    assert BufOk(l, s, b);
    PhaseInvFrame(l, s, s');
    forall j: nat | j < |s'.slots| ensures SlotOk(s', j) {
      assert SlotOk(s, j);
    }
    forall c | c in s'.cache ensures BufOk(l, s', c) {
      assert BufOk(l, s, c);
    }
    assert Logical(l, s') == Logical(l, s);
  }

  lemma SimCrash(l: Layout, s: State)
    requires Inv(l, s)
    ensures Simulates(l, s, Crash)
  {
    var s' := Do(l, s, Crash);
    NoActive(s'.slots);
  }

  lemma {:induction false} NoActive(slots: seq<Slot>)
    requires forall i | 0 <= i < |slots| :: slots[i].Inactive?
    ensures Reserve(slots) == 0 && ActiveCount(slots) == 0
  {
    if slots != [] {
      NoActive(slots[..|slots| - 1]);
    }
  }

  // ---------- Steps of commit and recovery ----------

  /** After a block write by the only process at work, all slots and buffers are still in order. */
  lemma BwriteOk(l: Layout, s: State, b: nat, data: Block, s': State)
    requires Inv(l, s) && s.outstanding == 0 && b < l.size
    requires s'.disk == s.disk[b := data] && s'.cache == s.cache[b := Buf(data, false, false, Free)]
    requires s'.slots == s.slots && s'.outstanding == 0
    requires s'.lh == s.lh || forall c | c in s.cache && c != b :: !s.cache[c].dirty
    ensures forall i: nat | i < |s'.slots| :: SlotOk(s', i)
    ensures forall c | c in s'.cache :: BufOk(l, s', c)
    ensures Reserve(s'.slots) == 0 && ActiveCount(s'.slots) == 0
  {
    InvBudgeted(l, s);
    forall c | c in s'.cache ensures BufOk(l, s', c) {
      if c != b { assert BufOk(l, s, c); }
    }
  }

  /** Writing a block outside the home area, or writing what is seen there anyway, shows no call anything new. */
  lemma BwriteUnseen(l: Layout, s: State, b: nat, data: Block, s': State)
    requires |s.disk| == l.size && b < l.size
    requires s'.disk == s.disk[b := data] && s'.cache == s.cache[b := Buf(data, false, false, Free)]
    requires !l.Home(b) || Seen(s, b) == data
    ensures Logical(l, s') == Logical(l, s)
  {
    forall c: nat | l.Home(c) ensures Seen(s', c) == Seen(s, c) {
    }
  }

  /** Writing log block i disturbs no other log block, no home block and not the header. */
  lemma LogBlockWrite(l: Layout, d: Disk, i: nat, data: Block)
    requires WellFormed(l, d) && i < LOGSIZE && i + 1 < l.nlog
    ensures var d' := d[l.start + 1 + i := data];
            && WellFormed(l, d') && d'[l.start] == d[l.start]
            && LogCopy(l, d', i) == data
            && (forall k: nat | k < LOGSIZE && k != i :: LogCopy(l, d', k) == LogCopy(l, d, k))
            && (forall b: nat | l.Home(b) :: d'[b] == d[b])
  {
    assert l.InLog(l.start + 1 + i);
  }

  lemma PhaseAfterWriteLog(l: Layout, s: State)
    requires Inv(l, s) && Enabled(l, s, Advance) && s.phase.WriteLog?
    ensures var s' := Do(l, s, Advance);
            WellFormed(l, s'.disk) && PhaseInv(l, s') && Durable(l, s'.disk) == Durable(l, s.disk)
  {
    var i := s.phase.i;
    var s' := Do(l, s, Advance);
    assert Pinned(s, i);
    LogBlockWrite(l, s.disk, i, s.cache[s.lh[i]].data);
    assert l.InLog(l.start + 1 + i);
    forall k: nat | k < |s'.lh| ensures Pinned(s', k) && (k <= i ==> Copied(l, s', k)) {
      assert Pinned(s, k) && l.Home(s.lh[k]);
      if k < i { assert Copied(l, s, k); }
    }
    DurableSame(l, s.disk, s'.disk, []);
  }

  lemma SimWriteLog(l: Layout, s: State)
    requires Inv(l, s) && Enabled(l, s, Advance) && s.phase.WriteLog?
    ensures Simulates(l, s, Advance)
  {
    hide DecodeHead, EncodeHead, Durable;
    var s' := Do(l, s, Advance);
    var t, data := l.start + 1 + s.phase.i, Seen(s, s.lh[s.phase.i]);
    assert l.InLog(t);
    PhaseAfterWriteLog(l, s);
    BwriteOk(l, s, t, data, s');
    BwriteUnseen(l, s, t, data, s');
  }

  lemma PhaseAfterWriteHead(l: Layout, s: State)
    requires Inv(l, s) && Enabled(l, s, Advance) && s.phase.WriteHead?
    ensures var s' := Do(l, s, Advance);
            WellFormed(l, s'.disk) && PhaseInv(l, s') && Durable(l, s'.disk) == Logical(l, s)
  {
    hide DecodeHead, EncodeHead, Distinct;
    var s' := Do(l, s, Advance);
    HeadRoundTrip(Seen(s, l.start), s.lh);
    assert l.InLog(l.start);
    forall k: nat | k < |s'.lh| ensures Copied(l, s', k) {
      assert Copied(l, s, k) && l.Home(s.lh[k]);
    }
    CommitPoint(l, s, s');
  }

  lemma SimWriteHead(l: Layout, s: State)
    requires Inv(l, s) && Enabled(l, s, Advance) && s.phase.WriteHead?
    ensures Simulates(l, s, Advance)
  {
    hide DecodeHead, EncodeHead, Durable;
    var s' := Do(l, s, Advance);
    assert l.InLog(l.start);
    PhaseAfterWriteHead(l, s);
    BwriteOk(l, s, l.start, s'.disk[l.start], s');
    BwriteUnseen(l, s, l.start, s'.disk[l.start], s');
  }

  /** Once the header is on disk, recovery yields exactly what the cache shows. */
  lemma CommitPoint(l: Layout, s: State, s': State)
    requires Inv(l, s) && s.outstanding == 0
    requires WellFormed(l, s'.disk) && s'.lh == s.lh && DecodeHead(s'.disk[l.start]) == s.lh
    requires forall b: nat | l.Home(b) :: s'.disk[b] == s.disk[b]
    requires forall k: nat | k < |s.lh| :: Copied(l, s, k) && LogCopy(l, s'.disk, k) == LogCopy(l, s.disk, k)
    ensures Durable(l, s'.disk) == Logical(l, s)
  {
    InvBudgeted(l, s);
    forall b: nat | l.Home(b)
      ensures b in Durable(l, s'.disk) && Durable(l, s'.disk)[b] == Logical(l, s)[b]
    {
      if b in s.lh {
        var k := IndexOf(s.lh, b);
        assert Copied(l, s, k);
      } else if b in s.cache {
        assert BufOk(l, s, b);
      }
    }
  }

  /** The log block read back during install holds what is on disk. */
  lemma LogBlockSeen(l: Layout, s: State, i: nat)
    requires Inv(l, s) && i < |s.lh|
    ensures Seen(s, l.start + 1 + i) == LogCopy(l, s.disk, i)
  {
    var t := l.start + 1 + i;
    assert l.InLog(t);
    if t in s.cache { assert BufOk(l, s, t); }
  }

  /** Copying log block i home changes neither the header, nor a log block, nor what recovery yields. */
  lemma InstallKeepsDurable(l: Layout, d: Disk, lh: seq<nat>, i: nat)
    requires WellFormed(l, d) && DecodeHead(d[l.start]) == lh && i < |lh|
    ensures var d' := d[lh[i] := LogCopy(l, d, i)];
            && WellFormed(l, d') && DecodeHead(d'[l.start]) == lh
            && (forall k: nat | k < |lh| :: LogCopy(l, d', k) == LogCopy(l, d, k))
            && (forall k: nat | k < |lh| && k != i :: d'[lh[k]] == d[lh[k]])
            && Durable(l, d') == Durable(l, d)
  {
    var d' := d[lh[i] := LogCopy(l, d, i)];
    assert l.Home(lh[i]) && l.InLog(l.start);
    forall k: nat | k < |lh|
      ensures LogCopy(l, d', k) == LogCopy(l, d, k)
    {
      assert l.InLog(l.start + 1 + k);
    }
    DurableSame(l, d, d', lh);
  }

  /** One turn of install_trans: entry i is home too, and later entries are as they were. */
  lemma InstallTurn(l: Layout, s: State, i: nat, s': State)
    requires Inv(l, s) && i < |s.lh| && Holds(l, s.disk, s.lh) && s'.lh == s.lh
    requires s'.disk == s.disk[s.lh[i] := LogCopy(l, s.disk, i)]
    requires s'.cache == s.cache[s.lh[i] := Buf(LogCopy(l, s.disk, i), false, false, Free)]
    requires forall k: nat | k < i :: Home(l, s, k)
    ensures WellFormed(l, s'.disk) && Holds(l, s'.disk, s.lh) && Durable(l, s'.disk) == Durable(l, s.disk)
    ensures forall k: nat | k <= i :: Home(l, s', k)
    ensures forall k: nat | i < k < |s.lh| && Copied(l, s, k) :: Copied(l, s', k)
  {
    InstallKeepsDurable(l, s.disk, s.lh, i);
    forall k: nat | k <= i ensures Home(l, s', k) {
      if k < i { assert Home(l, s, k); }
    }
  }

  lemma SimInstall(l: Layout, s: State)
    requires Inv(l, s) && Enabled(l, s, Advance) && s.phase.Install?
    ensures Simulates(l, s, Advance)
  {
    hide DecodeHead, EncodeHead, Durable;
    var i := s.phase.i;
    var s' := Do(l, s, Advance);
    LogBlockSeen(l, s, i);
    InstallTurn(l, s, i, s');
    BwriteOk(l, s, s.lh[i], LogCopy(l, s.disk, i), s');
    assert Copied(l, s, i);
    BwriteUnseen(l, s, s.lh[i], LogCopy(l, s.disk, i), s');
  }

  lemma SimReinstall(l: Layout, s: State)
    requires Inv(l, s) && Enabled(l, s, Advance) && s.phase.Reinstall?
    ensures Simulates(l, s, Advance)
  {
    hide DecodeHead, EncodeHead, Durable;
    var i := s.phase.i;
    var s' := Do(l, s, Advance);
    LogBlockSeen(l, s, i);
    InstallTurn(l, s, i, s');
    BwriteOk(l, s, s.lh[i], LogCopy(l, s.disk, i), s');
  }

  /** Erasing the header of a fully installed transaction changes nothing durable. */
  lemma EraseKeepsDurable(l: Layout, s: State, h: Block)
    requires Inv(l, s) && Holds(l, s.disk, s.lh) && forall k: nat | k < |s.lh| :: Home(l, s, k)
    ensures var d' := s.disk[l.start := EncodeHead(h, [])];
            && WellFormed(l, d') && Holds(l, d', [])
            && HomeOf(l, d') == HomeOf(l, s.disk)
            && Durable(l, d') == Durable(l, s.disk) == HomeOf(l, s.disk)
  {
    hide DecodeHead, EncodeHead;
    var d' := s.disk[l.start := EncodeHead(h, [])];
    HeadRoundTrip(h, []);
    assert l.InLog(l.start);
    DurableEmpty(l, d');
    forall b: nat | l.Home(b)
      ensures Durable(l, s.disk)[b] == HomeOf(l, s.disk)[b]
    {
      if b in s.lh {
        var k := IndexOf(s.lh, b);
        assert Home(l, s, k);
      }
    }
    assert Durable(l, s.disk) == HomeOf(l, s.disk);
    assert HomeOf(l, d') == HomeOf(l, s.disk);
  }

  lemma NoDirtyLeft(l: Layout, s: State)
    requires Inv(l, s) && forall k: nat | k < |s.lh| :: Home(l, s, k)
    ensures forall b | b in s.cache :: !s.cache[b].dirty
  {
    forall b | b in s.cache ensures !s.cache[b].dirty {
      assert BufOk(l, s, b);
      if b in s.lh {
        assert Home(l, s, IndexOf(s.lh, b));
      }
    }
  }

  lemma SimErase(l: Layout, s: State)
    requires Inv(l, s) && Enabled(l, s, Advance) && (s.phase.ClearHead? || s.phase.ReclearHead?)
    ensures Simulates(l, s, Advance)
  {
    hide DecodeHead, EncodeHead, Distinct;
    var s' := Do(l, s, Advance);
    EraseKeepsDurable(l, s, Seen(s, l.start));
    NoDirtyLeft(l, s);
    assert l.InLog(l.start);
    BwriteOk(l, s, l.start, EncodeHead(Seen(s, l.start), []), s');
    BwriteUnseen(l, s, l.start, EncodeHead(Seen(s, l.start), []), s');
    InvBudgeted(l, s);
    forall b: nat | l.Home(b) ensures Seen(s, b) == s.disk[b] {
      if b in s.cache { assert BufOk(l, s, b); }
    }
    assert Logical(l, s) == HomeOf(l, s.disk);
  }

  lemma SimReadHead(l: Layout, s: State)
    requires Inv(l, s) && Enabled(l, s, Advance) && s.phase.ReadHead?
    ensures Simulates(l, s, Advance)
  {
    InvBudgeted(l, s);
  }

  lemma SimFinish(l: Layout, s: State)
    requires Inv(l, s) && Enabled(l, s, Advance) && s.phase.Finish?
    ensures Simulates(l, s, Advance)
  {
    hide DecodeHead, EncodeHead, Durable;
    var s' := Do(l, s, Advance);
    forall j: nat | j < |s'.slots| ensures SlotOk(s', j) {
      assert SlotOk(s, j);
    }
    forall c | c in s'.cache ensures BufOk(l, s', c) {
      assert BufOk(l, s, c);
    }
    assert Logical(l, s') == Logical(l, s);
  }

  /** Refinement: every step of log.c over bio.c is a step of the atomic disk. */
  lemma Simulation(l: Layout, s: State, e: Step)
    requires Inv(l, s) && Enabled(l, s, e) && |Do(l, s, e).lh| < l.nlog
    ensures Simulates(l, s, e)
  {
    match e
    case BeginOp(i) => SimBeginOp(l, s, i);
    case EndOp(i) => SimEndOp(l, s, i);
    case Bread(b, who) => SimBread(l, s, b, who);
    case Modify(b, data) => SimModify(l, s, b, data);
    case LogCheck(b) => SimLogCheck(l, s, b);
    case LogAppend(i) => SimLogAppend(l, s, i);
    case Brelse(b) => SimBrelse(l, s, b);
    case Evict(b) => SimEvict(l, s, b);
    case Crash => SimCrash(l, s);
    case Advance =>
      match s.phase
      case WriteLog(_) => SimWriteLog(l, s);
      case WriteHead => SimWriteHead(l, s);
      case Install(_) => SimInstall(l, s);
      case Reinstall(_) => SimReinstall(l, s);
      case ClearHead => SimErase(l, s);
      case ReclearHead => SimErase(l, s);
      case ReadHead => SimReadHead(l, s);
      case Finish => SimFinish(l, s);
  }
}

/**
 The space check of log_write and what hangs on it. log.c:218 compares the
 number of header entries with the size of the log area before it takes the
 lock, so two calls can pass it together. The runs built here show that the log
 stays within its area, and system calls stay atomic, exactly when the area has
 room for LOGSIZE blocks besides the header.
 */
module LogRace {
  import opened Basics
  import opened Blocks
  import opened LogDisk
  import opened LogMachine
  import opened LogProof
  import opened LogTheorems

  /** Room for three calls to log LOGSIZE blocks behind the log area, as mkfs lays a disk out. */
  predicate Spacious(l: Layout) {
    l.Valid() && l.start + l.nlog + LOGSIZE <= l.size
  }

  function Behind(l: Layout, j: nat): nat {
    l.start + l.nlog + j
  }

  /** Every block of the disk the runs start from, and a block that differs from it. */
  function Blank(): Block { EncodeHead(ZeroBlock, []) }

  function Marked(): (b: Block)
    ensures b != Blank()
  {
    var b := Blank()[511 := (Blank()[511] + 1) % 256];
    assert b[511] != Blank()[511];
    b
  }

  // ---------- Reachable states ----------

  /** Nothing has been changed yet. */
  ghost predicate Untouched(l: Layout, s: State) {
    |s.disk| == l.size && forall c: nat | c < l.size :: Seen(s, c) == Blank()
  }

  /** The block behind the log area is blank, or the last block logged shows its change. */
  ghost predicate Unmixed(l: Layout, s: State)
    requires l.Valid()
  {
    && |s.disk| == l.size && Behind(l, l.nlog) <= l.size
    && (Seen(s, Behind(l, 0)) == Blank() || Seen(s, Behind(l, l.nlog - 1)) == Marked())
  }

  ghost predicate Good(l: Layout, s: State, strict: bool)
    requires l.Valid()
  {
    if strict then Untouched(l, s) else Unmixed(l, s)
  }

  ghost predicate RunTo(l: Layout, run: seq<State>, s: State, strict: bool)
    requires l.Valid()
  {
    |run| > 0 && IsRun(l, run) && run[|run| - 1] == s && forall i: nat | i < |run| :: Good(l, run[i], strict)
  }

  /** Some run, good all along, leads to s. */
  ghost predicate Via(l: Layout, s: State, strict: bool)
    requires l.Valid()
  {
    exists run: seq<State> :: RunTo(l, run, s, strict)
  }

  lemma ViaStep(l: Layout, s: State, e: Step, strict: bool)
    requires l.Valid() && Via(l, s, strict) && Enabled(l, s, e) && Good(l, Do(l, s, e), strict)
    ensures Via(l, Do(l, s, e), strict)
  {
    hide Good, Do, Init;
    var run :| RunTo(l, run, s, strict);
    var longer := run + [Do(l, s, e)];
    forall i: nat | i + 1 < |longer| ensures StepAt(l, longer, i) {
      if i + 1 < |run| {
        assert StepAt(l, run, i);
      }
    }
    assert RunTo(l, longer, Do(l, s, e), strict);
  }

  predicate Quiet(e: Step) {
    e.BeginOp? || e.EndOp? || e.Bread? || e.LogCheck? || e.LogAppend? || e.Brelse?
  }

  /** Steps that change no block's contents. */
  lemma QuietSeen(l: Layout, s: State, e: Step, c: nat)
    requires Enabled(l, s, e) && Quiet(e) && |s.disk| == l.size && c < l.size
    ensures Do(l, s, e).disk == s.disk && Seen(Do(l, s, e), c) == Seen(s, c)
  {
  }

  lemma QuietStep(l: Layout, s: State, e: Step, strict: bool)
    requires l.Valid() && Via(l, s, strict) && Enabled(l, s, e) && Quiet(e)
    ensures Via(l, Do(l, s, e), strict) && |s.disk| == l.size
  {
    hide Do, Enabled;
    var run :| RunTo(l, run, s, strict);
    assert Good(l, run[|run| - 1], strict);
    QuietSeen(l, s, e, 0);
    forall c: nat | c < l.size ensures Seen(Do(l, s, e), c) == Seen(s, c) { QuietSeen(l, s, e, c); }
    ViaStep(l, s, e, strict);
  }

  lemma Loosen(l: Layout, s: State)
    requires Spacious(l) && l.nlog <= LOGSIZE && Via(l, s, true)
    ensures Via(l, s, false)
  {
    var run :| RunTo(l, run, s, true);
    forall i: nat | i < |run| ensures Good(l, run[i], false) { assert Good(l, run[i], true); }
    assert RunTo(l, run, s, false);
  }

  // ---------- Three calls log in turn ----------

  /** Call i, after k blocks have been logged in turn. */
  predicate TurnSlot(l: Layout, s: State, k: nat, i: nat)
    requires i < |s.slots|
  {
    && s.slots[i].Active? && s.slots[i].pending.None?
    && 3 * |s.slots[i].logged| <= k + 2 - i
    && (i < k ==> Behind(l, i) in s.slots[i].logged)
  }

  predicate Released(s: State) {
    forall b | b in s.cache :: s.cache[b].holder.Free?
  }

  /** The first k blocks behind the log area are logged, in order. */
  predicate Logged(l: Layout, s: State, k: nat) {
    |s.lh| == k && forall j: nat | j < k :: s.lh[j] == Behind(l, j)
  }

  /** k blocks logged so far, in turn by calls 0, 1 and 2, all of them still in progress. */
  predicate InTurn(l: Layout, s: State, k: nat) {
    && s.phase.Idle? && s.outstanding == 3 && |s.slots| == 3 && AllBlank(l, s.disk)
    && Logged(l, s, k) && Released(s)
    && (forall i: nat | i < 3 :: TurnSlot(l, s, k, i))
  }

  predicate AllBlank(l: Layout, d: Disk) {
    |d| == l.size && forall c: nat | c < l.size :: d[c] == Blank()
  }

  /** bread and the unlocked check of log_write. */
  lemma CheckTurn(l: Layout, s: State, i: nat, b: nat, strict: bool) returns (s': State)
    requires Spacious(l) && Via(l, s, strict) && |s.disk| == l.size
    requires s.phase.Idle? && CheckPasses(l, s) && i < |s.slots|
    requires s.slots[i].Active? && s.slots[i].pending.None?
    requires l.Home(b) && Unlocked(s, b)
    ensures Via(l, s', strict) && s'.disk == s.disk && s'.lh == s.lh && s'.phase == s.phase
    ensures s'.outstanding == s.outstanding && s'.slots == s.slots[i := Active(s.slots[i].logged, Some(b))]
    ensures s'.cache.Keys == s.cache.Keys + {b} && s'.cache[b].holder == Call(i)
    ensures forall c | c in s.cache && c != b :: s'.cache[c] == s.cache[c]
  {
    hide Via;
    QuietStep(l, s, Bread(b, Call(i)), strict);
    var s1 := Do(l, s, Bread(b, Call(i)));
    QuietStep(l, s1, LogCheck(b), strict);
    s' := Do(l, s1, LogCheck(b));
  }

  /** The locked part of log_write, then brelse. */
  lemma AppendTurn(l: Layout, s: State, i: nat, strict: bool) returns (s': State)
    requires l.Valid() && Via(l, s, strict)
    requires i < |s.slots| && s.slots[i].Active? && s.slots[i].pending.Some?
    requires var b := s.slots[i].pending.value;
             b in s.cache && s.cache[b].holder == Call(i) && b !in s.lh
    requires |s.slots[i].logged| < MAXOPBLOCKS
    ensures Via(l, s', strict) && s'.disk == s.disk && s'.lh == s.lh + [s.slots[i].pending.value]
    ensures s'.phase == s.phase && s'.outstanding == s.outstanding
    ensures s'.slots == s.slots[i := Active(s.slots[i].logged + {s.slots[i].pending.value}, None)]
    ensures s'.cache.Keys == s.cache.Keys
    ensures var b := s.slots[i].pending.value; s'.cache[b].holder.Free? && s'.cache[b].data == s.cache[b].data
    ensures forall c | c in s.cache && c != s.slots[i].pending.value :: s'.cache[c] == s.cache[c]
  {
    hide Via;
    var b := s.slots[i].pending.value;
    QuietStep(l, s, LogAppend(i), strict);
    var s1 := Do(l, s, LogAppend(i));
    QuietStep(l, s1, Brelse(b), strict);
    s' := Do(l, s1, Brelse(b));
  }

  lemma Boot(l: Layout) returns (s: State)
    requires l.Valid()
    ensures Via(l, s, true) && AllBlank(l, s.disk) && s.cache == map[] && s.lh == [] && s.outstanding == 0
    ensures s.slots == [Inactive, Inactive, Inactive] && s.phase.Idle?
  {
    HeadRoundTrip(ZeroBlock, []);
    s := State(seq(l.size, _ => Blank()), map[], [], 0, [Inactive, Inactive, Inactive], Idle);
    assert RunTo(l, [s], s, true);
  }

  lemma ThreeCalls(l: Layout) returns (s: State)
    requires Spacious(l)
    ensures Via(l, s, true) && InTurn(l, s, 0)
  {
    hide Via, Blank;
    var s0 := Boot(l);
    QuietStep(l, s0, BeginOp(0), true);
    var s1 := Do(l, s0, BeginOp(0));
    QuietStep(l, s1, BeginOp(1), true);
    var s2 := Do(l, s1, BeginOp(1));
    QuietStep(l, s2, BeginOp(2), true);
    s := Do(l, s2, BeginOp(2));
    assert s.slots == [Active({}, None), Active({}, None), Active({}, None)];
  }

  lemma TurnSlotsStep(l: Layout, p: State, s: State, k: nat, i: nat)
    requires |p.slots| == 3 && forall j: nat | j < 3 :: TurnSlot(l, p, k, j)
    requires i == k % 3 && p.slots[i].Active?
    requires s.slots == p.slots[i := Active(p.slots[i].logged + {Behind(l, k)}, None)]
    ensures var k' := k + 1; forall j: nat | j < 3 :: TurnSlot(l, s, k', j)
  {
    var k' := k + 1;
    forall j: nat | j < 3 ensures TurnSlot(l, s, k', j) {
      assert TurnSlot(l, p, k, j);
    }
  }

  lemma OneTurn(l: Layout, p: State, k: nat) returns (s: State)
    requires Spacious(l) && k < LOGSIZE && k < l.nlog - 1
    requires Via(l, p, true) && InTurn(l, p, k)
    ensures Via(l, s, true) && InTurn(l, s, k + 1)
  {
    hide Via, Blank;
    var i, b := k % 3, Behind(l, k);
    assert TurnSlot(l, p, k, i);
    var q := CheckTurn(l, p, i, b, true);
    s := AppendTurn(l, q, i, true);
    assert s.slots == p.slots[i := Active(p.slots[i].logged + {b}, None)];
    TurnSlotsStep(l, p, s, k, i);
    hide TurnSlot;
  }

  lemma {:induction false} LogInTurn(l: Layout, k: nat) returns (s: State)
    requires Spacious(l) && k <= LOGSIZE && k <= l.nlog - 1
    ensures Via(l, s, true) && InTurn(l, s, k)
    decreases k
  {
    if k == 0 {
      s := ThreeCalls(l);
    } else {
      var p := LogInTurn(l, k - 1);
      s := OneTurn(l, p, k - 1);
    }
  }

  // ---------- The race ----------

  /** Block b is changed and shown, and nothing of it is on disk. */
  predicate Shows(l: Layout, s: State, b: nat) {
    b in s.cache && s.cache[b].data == Marked() && AllBlank(l, s.disk)
  }

  /** bread, a change, and the unlocked check, for the last block. */
  lemma MarkTurn(l: Layout, s: State, i: nat) returns (s': State)
    requires Spacious(l) && 2 <= l.nlog <= LOGSIZE && Via(l, s, false) && AllBlank(l, s.disk)
    requires s.phase.Idle? && CheckPasses(l, s) && i < |s.slots|
    requires s.slots[i].Active? && s.slots[i].pending.None? && Unlocked(s, Behind(l, l.nlog - 1))
    ensures var b := Behind(l, l.nlog - 1);
            && Via(l, s', false) && Shows(l, s', b) && s'.disk == s.disk && s'.lh == s.lh && s'.phase == s.phase
            && s'.outstanding == s.outstanding && s'.slots == s.slots[i := Active(s.slots[i].logged, Some(b))]
            && s'.cache.Keys == s.cache.Keys + {b} && s'.cache[b].holder == Call(i)
            && forall c | c in s.cache && c != b :: s'.cache[c] == s.cache[c]
  {
    hide Via, Blank, Marked;
    var b := Behind(l, l.nlog - 1);
    QuietStep(l, s, Bread(b, Call(i)), false);
    var s1 := Do(l, s, Bread(b, Call(i)));
    var s2 := Do(l, s1, Modify(b, Marked()));
    assert Unmixed(l, s2);
    ViaStep(l, s1, Modify(b, Marked()), false);
    QuietStep(l, s2, LogCheck(b), false);
    s' := Do(l, s2, LogCheck(b));
  }

  /** Calls i and j have both passed the check, for blocks a and b. */
  predicate BothPassed(l: Layout, s: State, k: nat, i: nat, j: nat) {
    var a, b := Behind(l, k), Behind(l, k + 1);
    && s.phase.Idle? && s.outstanding == 3 && |s.slots| == 3 && i < 3 && j < 3 && i != j
    && Logged(l, s, k) && Shows(l, s, b) && a in s.cache && a != b
    && s.cache[a].holder == Call(i) && s.cache[b].holder == Call(j)
    && (forall c | c in s.cache && c != a && c != b :: s.cache[c].holder.Free?)
    && (forall m: nat | m < 3 :: s.slots[m].Active? && (m == i || m == j ==> |s.slots[m].logged| < MAXOPBLOCKS))
    && (forall m: nat | m < 3 :: s.slots[m].pending == if m == i then Some(a) else if m == j then Some(b) else None)
  }

  lemma PassBoth(l: Layout, p: State, k: nat, i: nat, j: nat) returns (s: State)
    requires Spacious(l) && l.nlog <= LOGSIZE && k == l.nlog - 2 && i == k % 3 && j == if i == 2 then 0 else i + 1
    requires Via(l, p, true) && InTurn(l, p, k)
    ensures Via(l, s, false) && BothPassed(l, s, k, i, j)
  {
    hide Via, Blank, Marked;
    assert TurnSlot(l, p, k, 0) && TurnSlot(l, p, k, 1) && TurnSlot(l, p, k, 2);
    hide TurnSlot;
    var q := CheckTurn(l, p, i, Behind(l, k), true);
    Loosen(l, q);
    s := MarkTurn(l, q, j);
  }

  lemma AppendBoth(l: Layout, r: State, k: nat, i: nat, j: nat) returns (s: State)
    requires l.Valid() && Via(l, r, false) && BothPassed(l, r, k, i, j)
    ensures Via(l, s, false) && Logged(l, s, k + 2) && Released(s) && Shows(l, s, Behind(l, k + 1))
    ensures s.phase.Idle? && s.outstanding == 3 && |s.slots| == 3
    ensures forall m: nat | m < 3 :: s.slots[m].Active? && s.slots[m].pending.None?
  {
    hide Via, Blank, Marked;
    var t := AppendTurn(l, r, i, false);
    s := AppendTurn(l, t, j, false);
  }

  /** Two calls pass the check when there is room for one more entry, and both append. */
  lemma Overrun(l: Layout) returns (s: State)
    requires Spacious(l) && l.nlog <= LOGSIZE
    ensures Via(l, s, false) && Logged(l, s, l.nlog) && Released(s) && Shows(l, s, Behind(l, l.nlog - 1))
    ensures s.phase.Idle? && s.outstanding == 3 && |s.slots| == 3
    ensures forall i: nat | i < 3 :: s.slots[i].Active? && s.slots[i].pending.None?
  {
    hide Via, Logged, Shows, Released, InTurn, BothPassed;
    var k := l.nlog - 2;
    var p := LogInTurn(l, k);
    var i := k % 3;
    var j := if i == 2 then 0 else i + 1;
    var r := PassBoth(l, p, k, i, j);
    s := AppendBoth(l, r, k, i, j);
  }

  /** All three calls end, and the commit begins. */
  lemma EndCalls(l: Layout) returns (s: State)
    requires Spacious(l) && l.nlog <= LOGSIZE
    ensures Via(l, s, false) && Logged(l, s, l.nlog) && Released(s) && Shows(l, s, Behind(l, l.nlog - 1))
    ensures s.phase == WriteLog(0)
  {
    hide Via, Blank, Marked;
    var p := Overrun(l);
    QuietStep(l, p, EndOp(0), false);
    var q := Do(l, p, EndOp(0));
    QuietStep(l, q, EndOp(1), false);
    var r := Do(l, q, EndOp(1));
    QuietStep(l, r, EndOp(2), false);
    s := Do(l, r, EndOp(2));
  }

  /** write_log has copied the first i blocks; the home blocks and the header are as they were. */
  predicate Copying(l: Layout, s: State, i: nat)
    requires l.Valid()
  {
    && s.phase == WriteLog(i) && Logged(l, s, l.nlog) && Released(s) && |s.disk| == l.size
    && Behind(l, l.nlog - 1) in s.cache && s.cache[Behind(l, l.nlog - 1)].data == Marked()
    && (forall c: nat | c < l.size && (c == l.start || l.Home(c)) :: s.disk[c] == Blank())
  }

  lemma CopyOne(l: Layout, s: State, i: nat) returns (s': State)
    requires Spacious(l) && l.nlog <= LOGSIZE && i + 1 < l.nlog && Via(l, s, false) && Copying(l, s, i)
    ensures Via(l, s', false) && Copying(l, s', i + 1)
  {
    hide Via, Blank, Marked;
    assert s.lh[i] == Behind(l, i);
    s' := Do(l, s, Advance);
    assert Unmixed(l, s');
    ViaStep(l, s, Advance, false);
  }

  lemma {:induction false} CopyTo(l: Layout, i: nat) returns (s: State)
    requires Spacious(l) && l.nlog <= LOGSIZE && i < l.nlog
    ensures Via(l, s, false) && Copying(l, s, i)
    decreases i
  {
    hide Via, Blank, Marked;
    if i == 0 {
      s := EndCalls(l);
    } else {
      var p := CopyTo(l, i - 1);
      s := CopyOne(l, p, i - 1);
    }
  }

  /** write_log copies the last block past the end of the log area, over a home block. */
  lemma CopyPastTheEnd(l: Layout) returns (s: State)
    requires Spacious(l) && l.nlog <= LOGSIZE
    ensures Via(l, s, false) && |s.disk| == l.size && s.disk[l.start] == Blank()
    ensures s.disk[Behind(l, 0)] == Marked() && s.disk[Behind(l, l.nlog - 1)] == Blank()
  {
    hide Via, Blank, Marked;
    var p := CopyTo(l, l.nlog - 1);
    assert p.lh[l.nlog - 1] == Behind(l, l.nlog - 1);
    s := Do(l, p, Advance);
    assert Unmixed(l, s);
    ViaStep(l, p, Advance, false);
  }

  // ---------- What hangs on the check ----------

  /** The header entries always fit the log area that follows the header block. */
  ghost predicate AlwaysFits(l: Layout) {
    forall run: seq<State> | IsRun(l, run) :: Fits(l, run)
  }

  lemma OverrunRun(l: Layout) returns (run: seq<State>)
    requires Spacious(l) && l.nlog <= LOGSIZE
    ensures IsRun(l, run) && !Fits(l, run)
  {
    hide IsRun, Good, Shows, Released;
    var s := Overrun(l);
    run :| RunTo(l, run, s, false);
    assert |run[|run| - 1].lh| == l.nlog;
  }

  /** A crash always recovers to a moment of the run with no call in progress. */
  ghost predicate RecoversAt(l: Layout, run: seq<State>, now: nat)
    requires now < |run|
  {
    exists m: nat | m <= now :: RecoversTo(l, run[now], run[m])
  }

  ghost predicate AlwaysAtomic(l: Layout) {
    forall run: seq<State>, now: nat | IsRun(l, run) && now < |run| :: RecoversAt(l, run, now)
  }

  /** A crash after that copy leaves a block changed that no call has written, and the call's own block unchanged. */
  lemma TornRun(l: Layout) returns (run: seq<State>, now: nat)
    requires Spacious(l) && l.nlog <= LOGSIZE
    ensures IsRun(l, run) && now < |run| && !RecoversAt(l, run, now)
  {
    hide IsRun, RecoversTo, Unmixed, Blank, Marked;
    var s := CopyPastTheEnd(l);
    run :| RunTo(l, run, s, false);
    now := |run| - 1;
    forall m: nat | m <= now ensures !RecoversTo(l, run[now], run[m]) {
      assert Good(l, run[m], false);
      if RecoversTo(l, s, run[m]) {
        TornDisk(l, s, run[m]);
      }
    }
  }

  lemma TornDisk(l: Layout, s: State, t: State)
    requires Spacious(l) && l.nlog <= LOGSIZE && |s.disk| == l.size && s.disk[l.start] == Blank()
    requires s.disk[Behind(l, 0)] == Marked() && s.disk[Behind(l, l.nlog - 1)] == Blank()
    requires RecoversTo(l, s, t)
    ensures !Unmixed(l, t)
  {
    hide Marked, Durable, DecodeHead, EncodeHead, Word;
    HeadRoundTrip(ZeroBlock, []);
    DurableEmpty(l, s.disk);
    var x, b := Behind(l, 0), Behind(l, l.nlog - 1);
    assert HomeOf(l, s.disk)[x] == Logical(l, t)[x] && HomeOf(l, s.disk)[b] == Logical(l, t)[b];
  }

  /**
   The check protects the log area, and with it the atomicity of system calls,
   exactly when the area has room for LOGSIZE blocks besides the header. On a
   smaller one (mkfs makes nlog equal to LOGSIZE) two calls can pass the check
   before either appends; the last log block is then written over the first
   block behind the area, and a crash at that point is not recovered from.
   */
  lemma AtomicIffRoomForLogsize(l: Layout)
    requires Spacious(l)
    ensures AlwaysFits(l) <==> l.nlog > LOGSIZE
    ensures AlwaysAtomic(l) <==> l.nlog > LOGSIZE
  {
    hide IsRun, Fits, RecoversTo;
    if l.nlog > LOGSIZE {
      forall run: seq<State> | IsRun(l, run) ensures Fits(l, run) { RoomFits(l, run); }
      forall run: seq<State>, now: nat | IsRun(l, run) && now < |run| ensures RecoversAt(l, run, now) {
        RoomFits(l, run);
        SystemCallsAtomic(l, run, now);
      }
    } else {
      var bad := OverrunRun(l);
      var run, now := TornRun(l);
    }
  }

  /**
   With room to spare the check still panics on one kind of harmless call: when
   three calls have filled the log, a call that logs one of its own blocks
   again, which needs no space, is refused.
   */
  lemma RelogPanicsWhenFull(l: Layout) returns (s: State, b: nat)
    requires Spacious(l) && l.nlog > LOGSIZE
    ensures Via(l, s, true) && HeldByCall(s, b) && s.cache[b].holder == Call(0) && s.slots[0].pending.None?
    ensures b in s.slots[0].logged && |s.slots[0].logged| <= MAXOPBLOCKS
    ensures !CheckPasses(l, s)
  {
    hide Via;
    var p := LogInTurn(l, LOGSIZE);
    b := Behind(l, 0);
    assert TurnSlot(l, p, LOGSIZE, 0);
    QuietStep(l, p, Bread(b, Call(0)), true);
    s := Do(l, p, Bread(b, Call(0)));
  }

  /**
   When the check refuses a call, over all runs: exactly when the header is
   full, and then the call wanted to log a block it has logged before.
   */
  lemma RefusesIffFull(l: Layout, run: seq<State>, now: nat, i: nat, b: nat)
    requires IsRun(l, run) && l.nlog > LOGSIZE && now < |run|
    requires i < |run[now].slots| && run[now].slots[i].Active? && |run[now].slots[i].logged + {b}| <= MAXOPBLOCKS
    ensures !CheckPasses(l, run[now]) <==> |run[now].lh| == LOGSIZE
    ensures !CheckPasses(l, run[now]) ==> b in run[now].slots[i].logged && b in run[now].lh
  {
    hide IsRun;
    var s := run[now];
    RoomFits(l, run);
    RunInv(l, run, now);
    InvBudgeted(l, s);
    ReserveBounds(s.slots);
    assert SlotOk(s, i);
    if b !in s.slots[i].logged {
      FreshLogWriteNeverPanics(l, run, now, i, b);
    }
  }
}

/**
 What the single calls of pipewrite and piperead do to the stream of bytes:
 each call's part of it, call by call, in every state of every run.
 */
module PipeCalls {
  import opened Basics
  import opened Pipe
  import opened PipeProof

  // ---------- The part of a call ----------

  /** The bytes of xs that belong to call k, tags telling whose each byte is. */
  function PartOf(xs: seq<byte>, tags: seq<nat>, k: nat): seq<byte>
    requires |xs| == |tags|
  {
    if xs == [] then []
    else
      var m := |xs| - 1;
      PartOf(xs[..m], tags[..m], k) + if tags[m] == k then [xs[m]] else []
  }

  lemma PartMore(xs: seq<byte>, tags: seq<nat>, k: nat, x: byte, j: nat)
    requires |xs| == |tags|
    ensures PartOf(xs + [x], tags + [j], k) == PartOf(xs, tags, k) + if j == k then [x] else []
  {
    var m := |xs|;
    assert (xs + [x])[..m] == xs && (tags + [j])[..m] == tags;
  }

  lemma {:induction false} NoPart(xs: seq<byte>, tags: seq<nat>, k: nat)
    requires |xs| == |tags| && forall j | 0 <= j < |tags| :: tags[j] != k
    ensures PartOf(xs, tags, k) == []
  {
    if xs != [] { NoPart(xs[..|xs| - 1], tags[..|xs| - 1], k); }
  }

  /** The bytes of call k are the r bytes from a on, and no others. */
  predicate Segment(tags: seq<nat>, k: nat, a: nat, r: nat) {
    a + r <= |tags| && forall j: nat | j < |tags| :: tags[j] == k <==> a <= j < a + r
  }

  ghost predicate InOnePiece(tags: seq<nat>, k: nat, r: nat) {
    exists a: nat :: Segment(tags, k, a, r)
  }

  // ---------- The invariant ----------

  predicate InWrite(p: Pc) { p.WWant? || p.WLoop? || p.WWake? || p.WSleep? || p.WFall? || p.WAsleep? }
  predicate BeforeRead(p: Pc) { p.RWant? || p.RCheck? || p.RSleep? || p.RFall? || p.RAsleep? }

  ghost predicate Sizes(s: State) {
    && |s.writers| == |s.sent| && |s.readers| == |s.got| && |s.killed| == |s.call| == |s.pc|
    && (forall j | 0 <= j < |s.writers| :: s.writers[j] < |s.calls| && s.calls[s.writers[j]].Write?)
    && (forall j | 0 <= j < |s.readers| :: s.readers[j] < |s.calls| && s.calls[s.readers[j]].Read?)
  }

  /** What a pipewrite that returns, or is about to, has done: all of its bytes, or fewer and a reason. */
  ghost predicate WroteWith(s: State, k: nat, who: nat, addr: seq<byte>, r: int)
    requires Sizes(s)
  {
    var stored := PartOf(s.sent, s.writers, k);
    || (r == |addr| && stored == addr)
    || (r == -1 && |stored| < |addr| && stored == addr[..|stored|] && who < |s.killed| && (s.killed[who] || !s.readopen))
  }

  /** What a piperead that returns, or is about to, has done: r bytes in one piece, none at the end of the stream only, or killed without any. */
  ghost predicate ReadWith(s: State, k: nat, who: nat, n: nat, r: int) {
    if r < 0 then r == -1 && InOnePiece(s.readers, k, 0) && who < |s.killed| && s.killed[who]
    else r <= n && InOnePiece(s.readers, k, r) && (r == 0 && n > 0 ==> !s.writeopen)
  }

  ghost predicate WriterAt(s: State, t: nat)
    requires Sizes(s) && t < |s.pc|
  {
    IsWriter(s.pc[t]) ==>
      && s.call[t] < |s.calls| && s.calls[s.call[t]].Write? && s.calls[s.call[t]].who == t && s.calls[s.call[t]].ret == None
      && (forall j | 0 <= j < |s.writers| && s.calls[s.writers[j]].who == t :: s.writers[j] <= s.call[t])
      && var addr, stored, p := s.calls[s.call[t]].addr, PartOf(s.sent, s.writers, s.call[t]), s.pc[t];
         && (InWrite(p) ==> p.addr == addr && p.i <= |addr| && stored == addr[..p.i])
         && (p.WDone? ==> p.addr == addr && stored == addr)
         && (p.WRelease? ==> WroteWith(s, s.call[t], t, addr, p.ret))
  }

  ghost predicate ReaderAt(s: State, t: nat)
    requires Sizes(s) && t < |s.pc|
  {
    IsReader(s.pc[t]) ==>
      && s.call[t] < |s.calls| && s.calls[s.call[t]].Read? && s.calls[s.call[t]].who == t && s.calls[s.call[t]].ret == None
      && var n, k, p := s.calls[s.call[t]].n, s.call[t], s.pc[t];
         && (!p.RRelease? ==> p.n == n)
         && (BeforeRead(p) ==> Segment(s.readers, k, 0, 0))
         && (p.RCopy? || p.RDone? ==> p.i <= n && p.i <= |s.readers| && Segment(s.readers, k, |s.readers| - p.i, p.i))
         && (p.RCopy? && p.i == 0 ==> !(|s.got| == |s.sent| && s.writeopen))
         && (p.RDone? ==> (p.i == n || |s.got| == |s.sent|) && (p.i == 0 && n > 0 ==> !s.writeopen))
         && (p.RRelease? ==> ReadWith(s, k, t, n, p.ret))
  }

  ghost predicate CallAt(s: State, k: nat)
    requires Sizes(s) && k < |s.calls|
  {
    var c := s.calls[k];
    && c.who < |s.pc|
    && (c.ret.None? ==> s.call[c.who] == k && if c.Write? then IsWriter(s.pc[c.who]) else IsReader(s.pc[c.who]))
    && (c.ret.Some? ==> if c.Write? then WroteWith(s, k, c.who, c.addr, c.ret.value) else ReadWith(s, k, c.who, c.n, c.ret.value))
  }

  /** The bytes of one thread come call after call. */
  ghost predicate InTurn(s: State)
    requires Sizes(s)
  {
    forall i, j | 0 <= i < j < |s.writers| && s.calls[s.writers[i]].who == s.calls[s.writers[j]].who :: s.writers[i] <= s.writers[j]
  }

  ghost predicate CallInv(s: State) {
    && Sizes(s) && InTurn(s)
    && (forall t: nat | t < |s.pc| :: WriterAt(s, t) && ReaderAt(s, t))
    && (forall k: nat | k < |s.calls| :: CallAt(s, k))
  }

  lemma InCall(s: State, t: nat)
    requires CallInv(s) && t < |s.pc|
    ensures Sizes(s) && WriterAt(s, t) && ReaderAt(s, t)
  {
    hide WriterAt, ReaderAt, CallAt, InTurn;
  }

  lemma Collect(s: State)
    requires Sizes(s) && InTurn(s)
    requires forall t: nat | t < |s.pc| :: WriterAt(s, t) && ReaderAt(s, t)
    requires forall k: nat | k < |s.calls| :: CallAt(s, k)
    ensures CallInv(s)
  {
    hide WriterAt, ReaderAt, CallAt, InTurn, Sizes;
  }

  lemma Recorded(s: State, k: nat)
    requires CallInv(s) && k < |s.calls|
    ensures Sizes(s) && CallAt(s, k) && InTurn(s)
  {
    hide WriterAt, ReaderAt, CallAt, InTurn;
  }

  // ---------- Steps that store and take nothing ----------

  /** s' has the bytes and calls of s; kills and closed ends only get more. */
  ghost predicate SameStream(s: State, s': State) {
    && s'.sent == s.sent && s'.got == s.got && s'.writers == s.writers && s'.readers == s.readers
    && s'.calls == s.calls && s'.call == s.call && |s'.killed| == |s.killed| && |s'.pc| == |s.pc|
    && (forall t | 0 <= t < |s.killed| && s.killed[t] :: s'.killed[t])
    && (s'.readopen ==> s.readopen) && (s'.writeopen ==> s.writeopen)
  }

  predicate Rouse(p: Pc, q: Pc) { q == p || q == WakeReader(p) || q == WakeWriter(p) }

  lemma QuietCalls(s: State, s': State, t: nat)
    requires CallInv(s) && SameStream(s, s') && t < |s.pc| && Sizes(s')
    requires forall u: nat | u < |s.pc| && u != t :: Rouse(s.pc[u], s'.pc[u])
    requires IsWriter(s.pc[t]) == IsWriter(s'.pc[t]) && IsReader(s.pc[t]) == IsReader(s'.pc[t])
    requires WriterAt(s', t) && ReaderAt(s', t)
    ensures CallInv(s')
  {
    hide PartOf, Segment, InOnePiece;
    forall u: nat | u < |s.pc| && u != t ensures WriterAt(s', u) && ReaderAt(s', u) {
      assert WriterAt(s, u) && ReaderAt(s, u);
    }
    forall k: nat | k < |s.calls| ensures CallAt(s', k) { assert CallAt(s, k); }
  }

  /** The same for the two kinds of steps outside an operation's own code. */
  lemma OuterCalls(s: State, e: Step)
    requires CallInv(s) && Enabled(s, e) && (e.Acquire? || e.Kill?)
    ensures CallInv(Do(s, e))
  {
    hide PartOf, Segment, InOnePiece, CallInv, Advance;
    InCall(s, e.t);
    QuietCalls(s, Do(s, e), e.t);
  }

  /** A step that stores, takes and returns nothing; who sleeps may be woken. */
  ghost predicate QuietStep(s: State, s': State, t: nat)
    requires t < |s.pc|
  {
    && SameStream(s, s') && (forall u: nat | u < |s.pc| && u != t :: Rouse(s.pc[u], s'.pc[u]))
    && IsWriter(s.pc[t]) == IsWriter(s'.pc[t]) && IsReader(s.pc[t]) == IsReader(s'.pc[t])
  }

  lemma WriterDecidesQuiet(s: State, t: nat)
    requires Enabled(s, Run(t)) && s.pc[t].WLoop? && (s.pc[t].i == |s.pc[t].addr| || Full(s))
    ensures var s', p := Do(s, Run(t)), s.pc[t];
            && QuietStep(s, s', t)
            && s'.pc[t] == if p.i == |p.addr| then WDone(p.addr) else if !s.readopen || s.killed[t] then WRelease(-1) else WWake(p.addr, p.i)
  {
    hide Full, Empty, ReaderStep, CloserStep;
  }

  lemma WriterGoesOnQuiet(s: State, t: nat)
    requires Enabled(s, Run(t)) && IsWriter(s.pc[t]) && !s.pc[t].WRelease? && !s.pc[t].WLoop?
    ensures var s', p := Do(s, Run(t)), s.pc[t];
            && QuietStep(s, s', t)
            && s'.pc[t] == (match p
                            case WWake(a, i) => WSleep(a, i)
                            case WSleep(a, i) => WFall(a, i)
                            case WFall(a, i) => WAsleep(a, i)
                            case WDone(a) => WRelease(|a|)
                            case _ => p)
  {
    hide Full, Empty, ReaderStep, CloserStep, WakeReader, WakeWriter;
  }

  lemma WriterQuiet(s: State, t: nat)
    requires Enabled(s, Run(t)) && IsWriter(s.pc[t]) && !s.pc[t].WRelease?
    requires s.pc[t].WLoop? ==> s.pc[t].i == |s.pc[t].addr| || Full(s)
    ensures var s', p := Do(s, Run(t)), s.pc[t];
            && QuietStep(s, s', t)
            && s'.pc[t] == (match p
                            case WLoop(a, i) => if i == |a| then WDone(a) else if !s.readopen || s.killed[t] then WRelease(-1) else WWake(a, i)
                            case WWake(a, i) => WSleep(a, i)
                            case WSleep(a, i) => WFall(a, i)
                            case WFall(a, i) => WAsleep(a, i)
                            case WDone(a) => WRelease(|a|)
                            case _ => p)
  {
    hide Full, Empty, Do, QuietStep;
    if s.pc[t].WLoop? { WriterDecidesQuiet(s, t); } else { WriterGoesOnQuiet(s, t); }
  }

  lemma ReaderDecidesQuiet(s: State, t: nat)
    requires Enabled(s, Run(t)) && (s.pc[t].RCheck? || s.pc[t].RCopy?)
    requires s.pc[t].RCopy? ==> s.pc[t].i >= s.pc[t].n || Empty(s)
    ensures var s', p := Do(s, Run(t)), s.pc[t];
            && QuietStep(s, s', t) && s'.writeopen == s.writeopen
            && s'.pc[t] == if p.RCopy? then RDone(p.n, p.i)
                           else if !(Empty(s) && s.writeopen) then RCopy(p.n, 0) else if s.killed[t] then RRelease(-1) else RSleep(p.n)
  {
    hide Full, Empty, WriterStep, CloserStep;
  }

  lemma ReaderGoesOnQuiet(s: State, t: nat)
    requires Enabled(s, Run(t)) && IsReader(s.pc[t]) && !s.pc[t].RRelease? && !s.pc[t].RCheck? && !s.pc[t].RCopy?
    ensures var s', p := Do(s, Run(t)), s.pc[t];
            && QuietStep(s, s', t) && s'.writeopen == s.writeopen
            && s'.pc[t] == (match p
                            case RSleep(n) => RFall(n)
                            case RFall(n) => RAsleep(n)
                            case RDone(_, i) => RRelease(i)
                            case _ => p)
  {
    hide Full, Empty, WriterStep, CloserStep, WakeReader, WakeWriter;
  }

  lemma ReaderQuiet(s: State, t: nat)
    requires Enabled(s, Run(t)) && IsReader(s.pc[t]) && !s.pc[t].RRelease?
    requires s.pc[t].RCopy? ==> s.pc[t].i >= s.pc[t].n || Empty(s)
    ensures var s', p := Do(s, Run(t)), s.pc[t];
            && QuietStep(s, s', t) && s'.writeopen == s.writeopen
            && s'.pc[t] == (match p
                            case RCheck(n) => if !(Empty(s) && s.writeopen) then RCopy(n, 0) else if s.killed[t] then RRelease(-1) else RSleep(n)
                            case RSleep(n) => RFall(n)
                            case RFall(n) => RAsleep(n)
                            case RCopy(n, i) => RDone(n, i)
                            case RDone(_, i) => RRelease(i)
                            case _ => p)
  {
    hide Full, Empty, Do, QuietStep;
    if s.pc[t].RCheck? || s.pc[t].RCopy? { ReaderDecidesQuiet(s, t); } else { ReaderGoesOnQuiet(s, t); }
  }

  /** A writer that stores nothing. */
  lemma WriterCalls(s: State, t: nat)
    requires CallInv(s) && Enabled(s, Run(t)) && IsWriter(s.pc[t]) && !s.pc[t].WRelease?
    requires s.pc[t].WLoop? ==> s.pc[t].i == |s.pc[t].addr| || Full(s)
    ensures CallInv(Do(s, Run(t)))
  {
    hide PartOf, Segment, InOnePiece, Full, Empty, CallInv;
    WriterQuiet(s, t);
    InCall(s, t);
    hide Do;
    assert s.pc[t].WLoop? && s.pc[t].i == |s.pc[t].addr| ==> s.pc[t].addr[..s.pc[t].i] == s.pc[t].addr;
    QuietCalls(s, Do(s, Run(t)), t);
  }

  /** A reader that takes nothing. */
  lemma ReaderCalls(s: State, t: nat)
    requires CallInv(s) && BytesOk(s) && Enabled(s, Run(t)) && IsReader(s.pc[t]) && !s.pc[t].RRelease?
    requires s.pc[t].RCopy? ==> s.pc[t].i >= s.pc[t].n || Empty(s)
    ensures CallInv(Do(s, Run(t)))
  {
    hide PartOf, Segment, InOnePiece, Full, Empty, BytesOk, CallInv;
    CountersTell(s);
    ReaderQuiet(s, t);
    InCall(s, t);
    hide Do;
    var k := s.call[t];
    if BeforeRead(s.pc[t]) { OnePiece(s.readers, k, 0, 0); NoneYet(s.readers, k); }
    if s.pc[t].RDone? { OnePiece(s.readers, k, |s.readers| - s.pc[t].i, s.pc[t].i); }
    QuietCalls(s, Do(s, Run(t)), t);
  }

  lemma NoneYet(tags: seq<nat>, k: nat)
    requires Segment(tags, k, 0, 0)
    ensures Segment(tags, k, |tags|, 0)
  {
  }

  lemma OnePiece(tags: seq<nat>, k: nat, a: nat, r: nat)
    requires Segment(tags, k, a, r)
    ensures InOnePiece(tags, k, r)
  {
    hide Segment;
  }

  lemma CloserQuiet(s: State, t: nat)
    requires Enabled(s, Run(t)) && (s.pc[t].CSet? || s.pc[t].CRelease?)
    ensures var s' := Do(s, Run(t)); QuietStep(s, s', t) && !IsWriter(s'.pc[t]) && !IsReader(s'.pc[t])
  {
    hide Full, Empty, WriterStep, ReaderStep, QuietStep;
    CloserStepQuiet(s, t);
  }

  lemma CloserStepQuiet(s: State, t: nat)
    requires Enabled(s, Run(t)) && (s.pc[t].CSet? || s.pc[t].CRelease?)
    ensures var s' := CloserStep(s, t); QuietStep(s, s', t) && !IsWriter(s'.pc[t]) && !IsReader(s'.pc[t])
  {
    hide WakeReader, WakeWriter;
  }

  lemma CloserCalls(s: State, t: nat)
    requires CallInv(s) && Enabled(s, Run(t)) && (s.pc[t].CSet? || s.pc[t].CRelease?)
    ensures CallInv(Do(s, Run(t)))
  {
    hide PartOf, Segment, InOnePiece, CallInv, Do;
    CloserQuiet(s, t);
    InCall(s, t);
    QuietCalls(s, Do(s, Run(t)), t);
  }

  lemma TurnKept(s: State, s': State)
    requires CallInv(s) && Sizes(s') && s'.writers == s.writers && |s'.calls| >= |s.calls|
    requires forall k: nat | k < |s.calls| :: s'.calls[k].who == s.calls[k].who
    ensures InTurn(s')
  {
    hide WriterAt, ReaderAt, CallAt;
  }

  // ---------- A call begins ----------

  lemma NewTag(s: State)
    requires Sizes(s)
    ensures PartOf(s.sent, s.writers, |s.calls|) == [] && Segment(s.readers, |s.calls|, 0, 0)
  {
    NoPart(s.sent, s.writers, |s.calls|);
  }

  lemma BeginCalls(s: State, t: nat, op: Pc)
    requires CallInv(s) && Enabled(s, Begin(t, op))
    ensures CallInv(Do(s, Begin(t, op)))
  {
    hide PartOf, Segment, InOnePiece, CallInv, Advance;
    var s' := Do(s, Begin(t, op));
    InCall(s, t);
    NewTag(s);
    forall u: nat | u < |s.pc| ensures WriterAt(s', u) && ReaderAt(s', u) { InCall(s, u); }
    forall k: nat | k < |s'.calls| ensures CallAt(s', k) {
      if k < |s.calls| { Recorded(s, k); }
    }
    TurnKept(s, s');
    Collect(s');
  }

  // ---------- A byte is stored ----------

  lemma StoreCalls(s: State, t: nat)
    requires CallInv(s) && Inv(s) && Enabled(s, Run(t)) && s.pc[t].WLoop? && s.pc[t].i != |s.pc[t].addr| && !Full(s)
    ensures CallInv(Do(s, Run(t)))
  {
    hide PartOf, Segment, InOnePiece, Full, Empty, Inv, ReaderStep, CloserStep;
    At(s, t);
    var s' := Do(s, Run(t));
    var k, p := s.call[t], s.pc[t];
    assert WriterAt(s, t);
    forall j: nat ensures PartOf(s'.sent, s'.writers, j) == PartOf(s.sent, s.writers, j) + if j == k then [p.addr[p.i]] else [] {
      PartMore(s.sent, s.writers, j, p.addr[p.i], k);
    }
    assert p.addr[..p.i] + [p.addr[p.i]] == p.addr[..p.i + 1];
    forall u: nat | u < |s.pc| ensures WriterAt(s', u) && ReaderAt(s', u) {
      assert WriterAt(s, u) && ReaderAt(s, u);
      At(s, u);
    }
    forall j: nat | j < |s.calls| ensures CallAt(s', j) { assert CallAt(s, j); }
  }

  // ---------- A byte is taken ----------

  lemma SegmentMore(tags: seq<nat>, k: nat, i: nat, j: nat)
    requires i <= |tags| && Segment(tags, k, |tags| - i, i)
    ensures k == j ==> Segment(tags + [j], k, |tags| - i, i + 1)
    ensures k != j && i == 0 ==> Segment(tags + [j], k, 0, 0)
  {
  }

  lemma PieceMore(tags: seq<nat>, k: nat, r: nat, j: nat)
    requires InOnePiece(tags, k, r) && k != j
    ensures InOnePiece(tags + [j], k, r)
  {
    var a: nat :| Segment(tags, k, a, r);
    assert Segment(tags + [j], k, a, r);
  }

  lemma TakeThread(s: State, t: nat, u: nat)
    requires CallInv(s) && Inv(s) && Enabled(s, Run(t)) && s.pc[t].RCopy? && s.pc[t].i < s.pc[t].n && !Empty(s) && u < |s.pc|
    requires Sizes(Do(s, Run(t)))
    ensures WriterAt(Do(s, Run(t)), u) && ReaderAt(Do(s, Run(t)), u)
  {
    hide PartOf, Segment, InOnePiece, Full, Empty, Inv, InTurn, CallAt, WriterStep, CloserStep;
    At(s, t);
    At(s, u);
    assert WriterAt(s, u) && ReaderAt(s, u) && ReaderAt(s, t);
    var k := s.call[t];
    if u == t {
      SegmentMore(s.readers, k, s.pc[t].i, k);
    } else if BeforeRead(s.pc[u]) {
      EmptySegment(s.readers, s.call[u], k);
    }
  }

  lemma EmptySegment(tags: seq<nat>, k: nat, j: nat)
    requires Segment(tags, k, 0, 0) && k != j
    ensures Segment(tags + [j], k, 0, 0)
  {
  }

  lemma TakeCalls(s: State, t: nat)
    requires CallInv(s) && Inv(s) && Enabled(s, Run(t)) && s.pc[t].RCopy? && s.pc[t].i < s.pc[t].n && !Empty(s)
    ensures CallInv(Do(s, Run(t)))
  {
    hide PartOf, Segment, InOnePiece, Full, Empty, Inv, WriterStep, CloserStep;
    var s' := Do(s, Run(t));
    var k := s.call[t];
    assert ReaderAt(s, t);
    forall u: nat | u < |s.pc| ensures WriterAt(s', u) && ReaderAt(s', u) { TakeThread(s, t, u); }
    forall j: nat | j < |s.calls| ensures CallAt(s', j) {
      assert CallAt(s, j);
      var c := s.calls[j];
      if c.Read? && c.ret.Some? { PieceMore(s.readers, j, if c.ret.value < 0 then 0 else c.ret.value, k); }
    }
  }

  // ---------- A call returns ----------

  lemma Returns(s: State, t: nat)
    requires Enabled(s, Run(t)) && (s.pc[t].WRelease? || s.pc[t].RRelease?)
    ensures Do(s, Run(t)) == s.(pc := s.pc[t := Idle], lock := None, calls := Returned(s.calls, s.call[t], s.pc[t].ret))
  {
    hide Full, Empty, WakeReaders, WakeWriters, CloserStep;
  }

  lemma ReturnCalls(s: State, t: nat)
    requires CallInv(s) && Enabled(s, Run(t)) && (s.pc[t].WRelease? || s.pc[t].RRelease?)
    ensures CallInv(Do(s, Run(t)))
  {
    hide PartOf, Segment, InOnePiece, CallInv, Do;
    Returns(s, t);
    var s' := Do(s, Run(t));
    InCall(s, t);
    forall u: nat | u < |s.pc| ensures WriterAt(s', u) && ReaderAt(s', u) { InCall(s, u); }
    forall k: nat | k < |s.calls| ensures CallAt(s', k) { Recorded(s, k); }
    TurnKept(s, s');
    Collect(s');
  }

  lemma StepCalls(s: State, e: Step)
    requires CallInv(s) && Inv(s) && Enabled(s, e)
    ensures CallInv(Do(s, e))
  {
    hide CallInv, Inv, Full, Empty, Do;
    Ends(s);
    match e
    case Begin(t, op) => BeginCalls(s, t, op);
    case Acquire(_) => OuterCalls(s, e);
    case Kill(_) => OuterCalls(s, e);
    case Run(t) =>
      var p := s.pc[t];
      if p.WRelease? || p.RRelease? { ReturnCalls(s, t); }
      else if p.WLoop? && p.i != |p.addr| && !Full(s) { StoreCalls(s, t); }
      else if p.RCopy? && p.i < p.n && !Empty(s) { TakeCalls(s, t); }
      else if IsWriter(p) { WriterCalls(s, t); }
      else if IsReader(p) { ReaderCalls(s, t); }
      else { CloserCalls(s, t); }
  }

  // ---------- Runs ----------

  lemma {:induction false} RunCalls(run: seq<State>, i: nat)
    requires IsRun(run) && i < |run|
    ensures Inv(run[i]) && CallInv(run[i])
  {
    hide Inv, Enabled, Do, CallInv;
    RunInv(run, i);
    if i == 0 {
      StartCalls(run[0]);
    } else {
      RunCalls(run, i - 1);
      assert StepAt(run, i - 1);
      var e :| Enabled(run[i - 1], e) && run[i] == Do(run[i - 1], e);
      StepCalls(run[i - 1], e);
    }
  }

  lemma StartCalls(s: State)
    requires Start(s)
    ensures CallInv(s)
  {
  }

  /** Arguments are fixed, and so is what was returned. */
  ghost predicate Kept(c: Call, c': Call) {
    c' == c.(ret := c'.ret) && (c.ret.Some? ==> c' == c)
  }

  /**
   The list of calls grows by exactly the calls begun, with the arguments they
   were begun with; other steps change at most the result of a call under way.
   */
  lemma CallsFixed(s: State, e: Step)
    requires CallInv(s) && Enabled(s, e)
    ensures var s' := Do(s, e);
            && |s'.calls| == |s.calls| + (if e.Begin? && !e.op.CWant? then 1 else 0)
            && (forall k: nat | k < |s.calls| :: Kept(s.calls[k], s'.calls[k]))
            && (e.Begin? && e.op.WWant? ==> s'.calls[|s.calls|] == Write(e.t, e.op.addr, None))
            && (e.Begin? && e.op.RWant? ==> s'.calls[|s.calls|] == Read(e.t, e.op.n, None))
  {
    hide Full, Empty, CallInv, Advance;
    if e.Run? {
      if s.pc[e.t].WRelease? || s.pc[e.t].RRelease? { ReturnKeeps(s, e.t); } else { SameCalls(s, e.t); }
    }
  }

  lemma ReturnKeeps(s: State, t: nat)
    requires CallInv(s) && Enabled(s, Run(t)) && (s.pc[t].WRelease? || s.pc[t].RRelease?)
    ensures var s' := Do(s, Run(t)); |s'.calls| == |s.calls| && forall k: nat | k < |s.calls| :: Kept(s.calls[k], s'.calls[k])
  {
    hide CallInv, Do, PartOf, InOnePiece, Segment;
    InCall(s, t);
    Returns(s, t);
  }

  lemma SameCalls(s: State, t: nat)
    requires Enabled(s, Run(t)) && !s.pc[t].WRelease? && !s.pc[t].RRelease?
    ensures Do(s, Run(t)).calls == s.calls
  {
    hide Full, Empty, WakeReaders, WakeWriters, WriterStep, ReaderStep;
    if IsWriter(s.pc[t]) { WriterSameCalls(s, t); } else if IsReader(s.pc[t]) { ReaderSameCalls(s, t); }
  }

  lemma WriterSameCalls(s: State, t: nat)
    requires Enabled(s, Run(t)) && IsWriter(s.pc[t]) && !s.pc[t].WRelease?
    ensures WriterStep(s, t).calls == s.calls
  {
    hide Full, WakeReaders;
  }

  lemma ReaderSameCalls(s: State, t: nat)
    requires Enabled(s, Run(t)) && IsReader(s.pc[t]) && !s.pc[t].RRelease?
    ensures ReaderStep(s, t).calls == s.calls
  {
    hide Empty, WakeWriters;
  }

  /** A thread inside pipewrite has stored the first i bytes it was given, in order, and no others; when it is done, all of them. */
  lemma StoresItsBytes(run: seq<State>, i: nat, t: nat)
    requires IsRun(run) && i < |run| && t < |run[i].pc| && (InWrite(run[i].pc[t]) || run[i].pc[t].WDone?)
    ensures var s := run[i];
            && |s.call| == |s.pc| && |s.writers| == |s.sent| && s.call[t] < |s.calls| && s.calls[s.call[t]].Write?
            && var addr, stored := s.calls[s.call[t]].addr, PartOf(s.sent, s.writers, s.call[t]);
               && s.calls[s.call[t]].who == t && s.pc[t].addr == addr
               && (InWrite(s.pc[t]) ==> s.pc[t].i <= |addr| && stored == addr[..s.pc[t].i])
               && (s.pc[t].WDone? ==> stored == addr)
  {
    hide IsRun, Inv, CallInv, PartOf;
    RunCalls(run, i);
    InCall(run[i], t);
  }

  /** When piperead has copied, it has taken the next bytes of the stream, as many as it asked for or all there were. */
  lemma TakesTheNext(run: seq<State>, i: nat, t: nat)
    requires IsRun(run) && i < |run| && t < |run[i].pc| && run[i].pc[t].RDone?
    ensures var s, p := run[i], run[i].pc[t];
            && |s.call| == |s.pc| && |s.readers| == |s.got| && s.call[t] < |s.calls| && s.calls[s.call[t]].Read?
            && p.n == s.calls[s.call[t]].n && p.i <= p.n && p.i <= |s.got| && (p.i == p.n || s.got == s.sent)
            && (forall j: nat | j < |s.got| :: s.readers[j] == s.call[t] <==> j >= |s.got| - p.i)
            && (p.i == 0 && p.n > 0 ==> !s.writeopen)
  {
    hide IsRun, Inv, CallInv;
    RunCalls(run, i);
    InCall(run[i], t);
    DeliversInOrder(run, i);
  }

  /**
   A pipewrite that returned stored all its bytes and returned their number, or
   returned -1 with a part stored because it was killed or nobody could read any
   more. A piperead that returned r took r bytes that follow one another, 0 only
   at the end of the stream, and -1 without a byte because it was killed.
   */
  lemma ReturnsWhatItDid(run: seq<State>, i: nat, k: nat)
    requires IsRun(run) && i < |run| && k < |run[i].calls| && run[i].calls[k].ret.Some?
    ensures var s, c := run[i], run[i].calls[k];
            && |s.writers| == |s.sent| && |s.readers| == |s.got| && c.who < |s.killed|
            && (c.Write? ==>
                  var stored := PartOf(s.sent, s.writers, k);
                  || (c.ret.value == |c.addr| && stored == c.addr)
                  || (c.ret.value == -1 && |stored| < |c.addr| && stored <= c.addr && (s.killed[c.who] || !s.readopen)))
            && (c.Read? ==>
                  && -1 <= c.ret.value <= c.n && InOnePiece(s.readers, k, if c.ret.value < 0 then 0 else c.ret.value)
                  && (c.ret.value == 0 && c.n > 0 ==> !s.writeopen) && (c.ret.value == -1 ==> s.killed[c.who]))
  {
    hide IsRun, Inv, CallInv, PartOf, InOnePiece;
    RunCalls(run, i);
    Recorded(run[i], k);
  }

  // ---------- One writer ----------

  /** The parts of calls 0..n, one behind the other. */
  function Parts(xs: seq<byte>, tags: seq<nat>, n: nat): seq<byte>
    requires |xs| == |tags|
  {
    if n == 0 then [] else Parts(xs, tags, n - 1) + PartOf(xs, tags, n - 1)
  }

  predicate Ascending(tags: seq<nat>) {
    forall i, j | 0 <= i < j < |tags| :: tags[i] <= tags[j]
  }

  lemma {:induction false} PartsMore(xs: seq<byte>, tags: seq<nat>, x: byte, k: nat, n: nat)
    requires |xs| == |tags| && forall j | 0 <= j < |tags| :: tags[j] <= k
    ensures Parts(xs + [x], tags + [k], n) == Parts(xs, tags, n) + if k < n then [x] else []
  {
    hide PartOf;
    if n > 0 {
      PartsMore(xs, tags, x, k, n - 1);
      PartMore(xs, tags, n - 1, x, k);
      if k < n - 1 { NoPart(xs, tags, n - 1); }
    }
  }

  lemma {:induction false} PartsAreAll(xs: seq<byte>, tags: seq<nat>, n: nat)
    requires |xs| == |tags| && Ascending(tags) && forall j | 0 <= j < |tags| :: tags[j] < n
    ensures Parts(xs, tags, n) == xs
    decreases |xs|
  {
    hide PartOf, Parts;
    if xs == [] {
      PartsOfNone(n);
    } else {
      var m := |xs| - 1;
      PartsAreAll(xs[..m], tags[..m], n);
      PartsMore(xs[..m], tags[..m], xs[m], tags[m], n);
      assert xs[..m] + [xs[m]] == xs && tags[..m] + [tags[m]] == tags;
    }
  }

  lemma {:induction false} PartsOfNone(n: nat)
    ensures Parts([], [], n) == []
  {
    if n > 0 { PartsOfNone(n - 1); }
  }

  /** What calls 0..n were given to write, one behind the other. */
  function Given(calls: seq<Call>, n: nat): seq<byte>
    requires n <= |calls|
  {
    if n == 0 then [] else Given(calls, n - 1) + if calls[n - 1].Write? then calls[n - 1].addr else []
  }

  lemma {:induction false} GivenParts(s: State, n: nat)
    requires CallInv(s) && n <= |s.calls| && |s.writers| == |s.sent|
    requires forall k: nat | k < n && s.calls[k].Write? :: s.calls[k].ret == Some(|s.calls[k].addr|)
    ensures Parts(s.sent, s.writers, n) == Given(s.calls, n)
  {
    hide PartOf, CallInv;
    if n > 0 {
      GivenParts(s, n - 1);
      Recorded(s, n - 1);
      if s.calls[n - 1].Read? { NoPart(s.sent, s.writers, n - 1); }
    }
  }

  /** With one writing thread the stream is its calls' parts, call after call; once all have returned their count, all it was given. */
  lemma SoleWriter(run: seq<State>, i: nat, t: nat)
    requires IsRun(run) && i < |run| && forall k: nat | k < |run[i].calls| && run[i].calls[k].Write? :: run[i].calls[k].who == t
    ensures var s := run[i];
            && |s.writers| == |s.sent| && s.sent == Parts(s.sent, s.writers, |s.calls|)
            && ((forall k: nat | k < |s.calls| && s.calls[k].Write? :: s.calls[k].ret == Some(|s.calls[k].addr|)) ==>
                  s.sent == Given(s.calls, |s.calls|))
  {
    hide IsRun, Inv, Parts, Given, PartOf;
    RunCalls(run, i);
    var s := run[i];
    assert Ascending(s.writers);
    PartsAreAll(s.sent, s.writers, |s.calls|);
    if forall k: nat | k < |s.calls| && s.calls[k].Write? :: s.calls[k].ret == Some(|s.calls[k].addr|) { GivenParts(s, |s.calls|); }
  }
}

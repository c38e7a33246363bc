/**
 pipe.c as a step machine at the grain of single lock operations: the pipe lock
 and ptable.lock are state, and a thread that calls sleep holds ptable.lock
 while it gives up the pipe lock. Any number of threads read, write and close.
 */
module Pipe {
  import opened Basics

  const PIPESIZE: nat := 512

  /**
   Where a thread is. Write: wants the lock, at the loop head, full and about
   to wake readers, about to sleep, falling asleep, asleep, done and about to
   wake readers, about to release. Read and Close likewise.
   */
  datatype Pc =
    | Idle
    | WWant(addr: seq<byte>, i: nat) | WLoop(addr: seq<byte>, i: nat) | WWake(addr: seq<byte>, i: nat)
    | WSleep(addr: seq<byte>, i: nat) | WFall(addr: seq<byte>, i: nat) | WAsleep(addr: seq<byte>, i: nat)
    | WDone(addr: seq<byte>) | WRelease(ret: int)
    | RWant(n: nat) | RCheck(n: nat) | RSleep(n: nat) | RFall(n: nat) | RAsleep(n: nat)
    | RCopy(n: nat, i: nat) | RDone(n: nat, i: nat) | RRelease(ret: int)
    | CWant(writable: bool) | CSet(writable: bool) | CRelease

  /** A call of pipewrite with its bytes, or of piperead with its count, by thread who; ret once it has returned. */
  datatype Call = Write(who: nat, addr: seq<byte>, ret: Option<int>) | Read(who: nat, n: nat, ret: Option<int>)

  /**
   lock and plock: the holders of the pipe lock and of ptable.lock. rdEnd and
   wrEnd: some file still refers to that end. killed: the threads kill has hit.
   sent and got: the bytes accepted and delivered so far. skipped: a writer
   gave up at a full pipe with the read end open, and no reader has been woken
   since. calls: every call made, in order; call: the one a thread is in.
   writers and readers: the calls that accepted and took each byte of sent and
   of got. (sent, got and what follows are a record for the theorems; the code
   has no such variables.)
   */
  datatype State = State(
    data: seq<byte>, nread: nat, nwrite: nat, readopen: bool, writeopen: bool,
    lock: Option<nat>, plock: Option<nat>, pc: seq<Pc>, rdEnd: bool, wrEnd: bool,
    killed: seq<bool>, sent: seq<byte>, got: seq<byte>, skipped: bool,
    calls: seq<Call>, call: seq<nat>, writers: seq<nat>, readers: seq<nat>)

  predicate IsWriter(p: Pc) {
    p.WWant? || p.WLoop? || p.WWake? || p.WSleep? || p.WFall? || p.WAsleep? || p.WDone? || p.WRelease?
  }

  predicate IsReader(p: Pc) {
    p.RWant? || p.RCheck? || p.RSleep? || p.RFall? || p.RAsleep? || p.RCopy? || p.RDone? || p.RRelease?
  }

  predicate Holds(p: Pc) {
    p.WLoop? || p.WWake? || p.WSleep? || p.WDone? || p.WRelease? || p.RCheck? || p.RSleep? || p.RCopy? || p.RDone? || p.RRelease?
    || p.CSet? || p.CRelease?
  }

  predicate Falls(p: Pc) {
    p.WFall? || p.RFall?
  }

  // ---------- Steps ----------

  datatype Step = Begin(t: nat, op: Pc) | Acquire(t: nat) | Run(t: nat) | Kill(t: nat)

  predicate Full(s: State) { s.nwrite == (s.nread + PIPESIZE) % U32 }
  predicate Empty(s: State) { s.nread == s.nwrite }

  predicate Wants(p: Pc) { p.WWant? || p.RWant? || p.CWant? }

  /** Inside an operation, neither waiting for the pipe lock nor asleep. */
  predicate Ready(p: Pc) {
    p != Idle && !Wants(p) && !p.WAsleep? && !p.RAsleep? && (p.WLoop? ==> p.i <= |p.addr|)
  }

  /** About to call wakeup or sleep, which take ptable.lock. */
  predicate TakesPlock(p: Pc) { p.WWake? || p.WSleep? || p.WDone? || p.RSleep? || p.RDone? || p.CSet? }

  /** wakeup: threads asleep on the channel go for the pipe lock. */
  function WakeReader(p: Pc): Pc { if p.RAsleep? then RWant(p.n) else p }
  function WakeWriter(p: Pc): Pc { if p.WAsleep? then WWant(p.addr, p.i) else p }

  function WakeReaders(pc: seq<Pc>): (r: seq<Pc>)
    ensures |r| == |pc| && forall t | 0 <= t < |pc| :: r[t] == WakeReader(pc[t])
  {
    seq(|pc|, t requires 0 <= t < |pc| => WakeReader(pc[t]))
  }

  function WakeWriters(pc: seq<Pc>): (r: seq<Pc>)
    ensures |r| == |pc| && forall t | 0 <= t < |pc| :: r[t] == WakeWriter(pc[t])
  {
    seq(|pc|, t requires 0 <= t < |pc| => WakeWriter(pc[t]))
  }

  ghost predicate Enabled(s: State, e: Step) {
    e.t < |s.pc| == |s.killed| == |s.call| && |s.data| == PIPESIZE &&
    match e
    case Begin(t, op) =>
      && s.pc[t] == Idle
      && ((op.WWant? && op.i == 0 && s.wrEnd) || (op.RWant? && s.rdEnd)
          || (op == CWant(true) && s.wrEnd && forall u: nat | u < |s.pc| :: !IsWriter(s.pc[u]))
          || (op == CWant(false) && s.rdEnd && forall u: nat | u < |s.pc| :: !IsReader(s.pc[u])))
    case Acquire(t) => Wants(s.pc[t]) && s.lock == None
    case Kill(t) => s.plock == None
    case Run(t) => Ready(s.pc[t]) && (TakesPlock(s.pc[t]) ==> s.plock == None)
  }

  ghost function Do(s: State, e: Step): State
    requires Enabled(s, e)
  {
    var t := e.t;
    match e
    case Begin(_, op) =>
      s.(pc := s.pc[t := op], wrEnd := s.wrEnd && op != CWant(true), rdEnd := s.rdEnd && op != CWant(false),
         calls := s.calls + Opened(t, op), call := s.call[t := |s.calls|])
    case Acquire(_) =>
      var p := s.pc[t];
      var q := if p.WWant? then WLoop(p.addr, p.i) else if p.RWant? then RCheck(p.n) else CSet(p.writable);
      s.(pc := s.pc[t := q], lock := Some(t))
    case Kill(_) => s.(killed := s.killed[t := true], pc := s.pc[t := WakeReader(WakeWriter(s.pc[t]))])
    case Run(_) => Advance(s, t)
  }

  /** The call that thread t begins with op, if it is one. */
  function Opened(t: nat, op: Pc): seq<Call> {
    if op.WWant? then [Write(t, op.addr, None)] else if op.RWant? then [Read(t, op.n, None)] else []
  }

  /** The calls once call k has returned r. */
  function Returned(calls: seq<Call>, k: nat, r: int): seq<Call> {
    if k < |calls| then calls[k := calls[k].(ret := Some(r))] else calls
  }

  /** What thread t does next, inside its operation. */
  ghost function Advance(s: State, t: nat): State
    requires Enabled(s, Run(t))
  {
    if IsWriter(s.pc[t]) then WriterStep(s, t) else if IsReader(s.pc[t]) then ReaderStep(s, t) else CloserStep(s, t)
  }

  /** pipewrite */
  ghost function WriterStep(s: State, t: nat): State
    requires Enabled(s, Run(t)) && IsWriter(s.pc[t])
  {
    match s.pc[t]
    case WLoop(addr, i) =>
      if i == |addr| then s.(pc := s.pc[t := WDone(addr)])
      else if Full(s) then
        if !s.readopen || s.killed[t] then s.(pc := s.pc[t := WRelease(-1)], skipped := s.skipped || s.readopen)
        else s.(pc := s.pc[t := WWake(addr, i)])
      else s.(data := s.data[s.nwrite % PIPESIZE := addr[i]], nwrite := (s.nwrite + 1) % U32,
              sent := s.sent + [addr[i]], writers := s.writers + [s.call[t]], pc := s.pc[t := WLoop(addr, i + 1)])
    case WWake(addr, i) => s.(pc := WakeReaders(s.pc)[t := WSleep(addr, i)], skipped := false)
    case WSleep(addr, i) => s.(pc := s.pc[t := WFall(addr, i)], plock := Some(t), lock := None)
    case WFall(addr, i) => s.(pc := s.pc[t := WAsleep(addr, i)], plock := None)
    case WDone(addr) => s.(pc := WakeReaders(s.pc)[t := WRelease(|addr|)], skipped := false)
    case WRelease(r) => s.(pc := s.pc[t := Idle], lock := None, calls := Returned(s.calls, s.call[t], r))
  }

  /** piperead */
  ghost function ReaderStep(s: State, t: nat): State
    requires Enabled(s, Run(t)) && IsReader(s.pc[t])
  {
    match s.pc[t]
    case RCheck(n) =>
      var q := if !(Empty(s) && s.writeopen) then RCopy(n, 0) else if s.killed[t] then RRelease(-1) else RSleep(n);
      s.(pc := s.pc[t := q])
    case RSleep(n) => s.(pc := s.pc[t := RFall(n)], plock := Some(t), lock := None)
    case RFall(n) => s.(pc := s.pc[t := RAsleep(n)], plock := None)
    case RCopy(n, i) =>
      if i >= n || Empty(s) then s.(pc := s.pc[t := RDone(n, i)])
      else s.(nread := (s.nread + 1) % U32, got := s.got + [s.data[s.nread % PIPESIZE]],
              readers := s.readers + [s.call[t]], pc := s.pc[t := RCopy(n, i + 1)])
    case RDone(_, i) => s.(pc := WakeWriters(s.pc)[t := RRelease(i)])
    case RRelease(r) => s.(pc := s.pc[t := Idle], lock := None, calls := Returned(s.calls, s.call[t], r))
  }

  /** pipeclose */
  ghost function CloserStep(s: State, t: nat): State
    requires Enabled(s, Run(t)) && !IsWriter(s.pc[t]) && !IsReader(s.pc[t])
  {
    match s.pc[t]
    case CSet(w) =>
      if w then s.(writeopen := false, pc := WakeReaders(s.pc)[t := CRelease], skipped := false)
      else s.(readopen := false, pc := WakeWriters(s.pc)[t := CRelease])
    case CRelease => s.(pc := s.pc[t := Idle], lock := None)
  }

  /** pipealloc */
  ghost predicate Start(s: State) {
    && |s.data| == PIPESIZE && s.nread == s.nwrite == 0 && s.readopen && s.writeopen && s.rdEnd && s.wrEnd
    && s.lock == None && s.plock == None && s.sent == [] && s.got == [] && !s.skipped
    && s.calls == [] && s.writers == [] && s.readers == []
    && |s.killed| == |s.pc| == |s.call| && (forall t: nat | t < |s.killed| :: !s.killed[t])
    && forall t: nat | t < |s.pc| :: s.pc[t] == Idle
  }

  ghost predicate Next(s: State, s': State) {
    exists e :: Enabled(s, e) && s' == Do(s, e)
  }

  // ---------- The bytes ----------

  /** The counters are the lengths modulo 2^32, the buffer holds what was accepted and not delivered, in order. */
  ghost predicate BytesOk(s: State) {
    && |s.data| == PIPESIZE
    && |s.got| <= |s.sent| <= |s.got| + PIPESIZE && s.got == s.sent[..|s.got|]
    && s.nread == |s.got| % U32 && s.nwrite == |s.sent| % U32
    && forall j: nat | |s.got| <= j < |s.sent| :: s.data[j % PIPESIZE] == s.sent[j]
  }

  /** The buffer size divides 2^32, so wrapping does not disturb the position in the buffer. */
  lemma WrapKeepsPosition(a: nat)
    ensures a % U32 % PIPESIZE == a % PIPESIZE
  {
    var q, r := a / U32, a % U32;
    assert a == PIPESIZE * (8388608 * q) + r;
    AddMultiple(r, 8388608 * q);
  }

  lemma AddMultiple(r: nat, k: nat)
    ensures (PIPESIZE * k + r) % PIPESIZE == r % PIPESIZE
  {
    var q, m := r / PIPESIZE, r % PIPESIZE;
    assert PIPESIZE * k + r == PIPESIZE * (k + q) + m;
  }

  lemma WrapApart(a: nat, b: nat, k: nat)
    requires a <= b <= a + PIPESIZE && k <= PIPESIZE
    ensures (a % U32 + k) % U32 == b % U32 <==> b == a + k
  {
    assert (a % U32 + k) % U32 == (a + k) % U32;
  }

  lemma PositionsApart(i: nat, j: nat)
    requires i < j < i + PIPESIZE
    ensures i % PIPESIZE != j % PIPESIZE
  {
  }

  /** Comparing the wrapped counters tells full from empty. */
  lemma CountersTell(s: State)
    requires BytesOk(s)
    ensures Full(s) <==> |s.sent| == |s.got| + PIPESIZE
    ensures Empty(s) <==> |s.sent| == |s.got|
    ensures s.nread % PIPESIZE == |s.got| % PIPESIZE && s.nwrite % PIPESIZE == |s.sent| % PIPESIZE
  {
    var a, b := |s.got|, |s.sent|;
    assert s.nread == a % U32 && s.nwrite == b % U32 && a <= b <= a + PIPESIZE;
    hide BytesOk;
    WrapApart(a, b, PIPESIZE);
    WrapApart(a, b, 0);
    WrapKeepsPosition(a);
    WrapKeepsPosition(b);
  }

  lemma Successor(a: nat)
    ensures (a % U32 + 1) % U32 == (a + 1) % U32
  {
  }

  lemma Put(s: State, x: byte)
    requires BytesOk(s) && !Full(s)
    ensures BytesOk(s.(data := s.data[s.nwrite % PIPESIZE := x], nwrite := (s.nwrite + 1) % U32, sent := s.sent + [x]))
  {
    CountersTell(s);
    Successor(|s.sent|);
    hide Full;
    var k := s.nwrite % PIPESIZE;
    var data', sent' := s.data[k := x], s.sent + [x];
    forall j: nat | |s.got| <= j < |sent'| ensures data'[j % PIPESIZE] == sent'[j] {
      if j < |s.sent| {
        PositionsApart(j, |s.sent|);
      }
    }
  }

  lemma Get(s: State)
    requires BytesOk(s) && !Empty(s)
    ensures BytesOk(s.(nread := (s.nread + 1) % U32, got := s.got + [s.data[s.nread % PIPESIZE]]))
  {
    CountersTell(s);
    Successor(|s.got|);
    hide Empty;
    assert s.data[|s.got| % PIPESIZE] == s.sent[|s.got|];
    assert s.sent[..|s.got| + 1] == s.sent[..|s.got|] + [s.sent[|s.got|]];
  }

  // ---------- Locks and sleepers ----------

  ghost predicate LocksOk(s: State, t: nat)
    requires t < |s.pc|
  {
    && (Holds(s.pc[t]) <==> s.lock == Some(t))
    && (Falls(s.pc[t]) <==> s.plock == Some(t))
    && (IsWriter(s.pc[t]) ==> s.wrEnd) && (IsReader(s.pc[t]) ==> s.rdEnd)
    && (s.pc[t].WFall? || s.pc[t].WAsleep? || s.pc[t].WLoop? || s.pc[t].WWake? || s.pc[t].WSleep? || s.pc[t].WWant? ==> s.pc[t].i <= |s.pc[t].addr|)
    && (s.pc[t].WWake? || s.pc[t].WSleep? ==> Full(s))
    && (s.pc[t].WWake? || s.pc[t].WSleep? ==> s.readopen)
    && (s.pc[t].RSleep? ==> Empty(s) && s.writeopen)
    && (s.pc[t] == CWant(true) || s.pc[t] == CSet(true) ==> !s.wrEnd)
    && (s.pc[t] == CWant(false) || s.pc[t] == CSet(false) ==> !s.rdEnd)
  }

  /** The holder of the pipe lock will still wake readers, or writers, before it lets go. */
  predicate WillWakeReaders(p: Pc) { p.WLoop? || p.WWake? || p.WDone? }
  predicate WillWakeWriters(p: Pc) { p.RCopy? || p.RDone? }

  /** A reader asleep, or past the point of no return, has nothing to read, unless a wakeup is on its way or was skipped. */
  ghost predicate ReaderOk(s: State, t: nat)
    requires t < |s.pc|
  {
    (s.pc[t].RFall? || s.pc[t].RAsleep?) && !(Empty(s) && s.writeopen) && !s.skipped ==>
      s.lock.Some? && s.lock.value < |s.pc| && WillWakeReaders(s.pc[s.lock.value])
  }

  ghost predicate WriterOk(s: State, t: nat)
    requires t < |s.pc|
  {
    (s.pc[t].WFall? || s.pc[t].WAsleep?) && !(Full(s) && s.readopen) ==>
      s.lock.Some? && s.lock.value < |s.pc| && WillWakeWriters(s.pc[s.lock.value])
  }

  ghost predicate Inv(s: State) {
    && BytesOk(s) && |s.killed| == |s.pc| == |s.call|
    && (s.lock.Some? ==> s.lock.value < |s.pc|) && (s.plock.Some? ==> s.plock.value < |s.pc|)
    && (s.wrEnd ==> s.writeopen) && (s.rdEnd ==> s.readopen)
    && (forall t: nat | t < |s.pc| :: LocksOk(s, t))
    && (forall t: nat | t < |s.pc| :: ReaderOk(s, t))
    && (forall t: nat | t < |s.pc| :: WriterOk(s, t))
  }
}

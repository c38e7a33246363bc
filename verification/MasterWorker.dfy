/**
 master-worker.c: masters put their range of numbers into a bounded buffer and
 workers take their quota out of it, every critical section of `mutex` being
 one step. A thread that finds the buffer full, or empty, takes no step.
 */
module MasterWorker {
  /** total_items, max_buf_size, num_masters, num_workers */
  datatype Config = Config(total: nat, max: nat, masters: nat, workers: nat) {
    predicate Valid() { masters >= 1 && workers >= 1 }
  }

  // ---------- Dividing the work ----------

  function Start(c: Config, t: nat): nat
    requires c.Valid()
  {
    t * (c.total / c.masters)
  }

  function End(c: Config, t: nat): nat
    requires c.Valid()
  {
    Min((t + 1) * (c.total / c.masters), c.total) + if t == c.masters - 1 then c.total % c.masters else 0
  }

  function Min(a: nat, b: nat): nat { if a < b then a else b }

  /** How many items worker t consumes. */
  function Quota(c: Config, t: nat): int
    requires c.Valid()
  {
    Min((t + 1) * (c.total / c.workers), c.total) + (if t == 0 then c.total % c.workers else 0) - t * (c.total / c.workers)
  }

  lemma ChunkFits(total: nat, n: nat, t: nat)
    requires n >= 1 && t < n
    ensures (t + 1) * (total / n) <= total && n * (total / n) + total % n == total
    ensures t * (total / n) <= (t + 1) * (total / n)
  {
    assert total == n * (total / n) + total % n;
    assert (t + 1) * (total / n) <= n * (total / n);
  }

  /** The ranges of the masters follow one another, from 0 to total. */
  lemma RangesPartition(c: Config, t: nat)
    requires c.Valid() && t < c.masters
    ensures Start(c, 0) == 0 && Start(c, t) <= End(c, t)
    ensures t + 1 < c.masters ==> End(c, t) == Start(c, t + 1)
    ensures End(c, c.masters - 1) == c.total
  {
    ChunkFits(c.total, c.masters, t);
    ChunkFits(c.total, c.masters, c.masters - 1);
  }

  lemma QuotaIs(c: Config, t: nat)
    requires c.Valid() && t < c.workers
    ensures Quota(c, t) == c.total / c.workers + if t == 0 then c.total % c.workers else 0
  {
    ChunkFits(c.total, c.workers, t);
  }

  function Sum(xs: seq<nat>): nat {
    if xs == [] then 0 else Sum(xs[..|xs| - 1]) + xs[|xs| - 1]
  }

  /** The master whose range holds x. */
  lemma {:induction false} RangeOf(c: Config, x: nat, n: nat) returns (t: nat)
    requires c.Valid() && 1 <= n <= c.masters && x < End(c, n - 1)
    ensures t < c.masters && Start(c, t) <= x < End(c, t)
  {
    RangesPartition(c, n - 1);
    if Start(c, n - 1) <= x {
      t := n - 1;
    } else {
      if n > 1 { RangesPartition(c, n - 2); }
      t := RangeOf(c, x, n - 1);
    }
  }

  /** Ranges of different masters do not meet. */
  lemma {:induction false} RangesApart(c: Config, t: nat, u: nat)
    requires c.Valid() && t < u < c.masters
    ensures End(c, t) <= Start(c, u) && End(c, u) <= c.total
    decreases u
  {
    RangesPartition(c, u - 1);
    RangesPartition(c, u);
    ChunkFits(c.total, c.masters, u);
    if t < u - 1 { RangesApart(c, t, u - 1); }
  }

  // ---------- Steps ----------

  /** next: what each master produces next; done: how many items each worker has consumed. produced and consumed list the items in order. */
  datatype State = State(buffer: seq<int>, size: nat, next: seq<nat>, done: seq<nat>, produced: seq<int>, consumed: seq<int>)

  datatype Step = Produce(t: nat) | Consume(t: nat)

  predicate Enabled(c: Config, s: State, e: Step)
    requires c.Valid()
  {
    |s.buffer| == c.max && |s.next| == c.masters && |s.done| == c.workers &&
    match e
    case Produce(t) => t < c.masters && s.next[t] < End(c, t) && s.size < c.max
    case Consume(t) => t < c.workers && s.done[t] < Quota(c, t) && 0 < s.size <= c.max
  }

  function Do(c: Config, s: State, e: Step): State
    requires c.Valid() && Enabled(c, s, e)
  {
    match e
    case Produce(t) =>
      s.(buffer := s.buffer[s.size := s.next[t]], size := s.size + 1,
         next := s.next[t := s.next[t] + 1], produced := s.produced + [s.next[t]])
    case Consume(t) =>
      s.(buffer := s.buffer[s.size - 1 := 0], size := s.size - 1,
         done := s.done[t := s.done[t] + 1], consumed := s.consumed + [s.buffer[s.size - 1]])
  }

  ghost predicate Begins(c: Config, s: State)
    requires c.Valid()
  {
    && |s.buffer| == c.max && s.size == 0 && s.produced == [] && s.consumed == []
    && |s.next| == c.masters && (forall t: nat | t < c.masters :: s.next[t] == Start(c, t))
    && s.done == seq(c.workers, _ => 0)
  }

  ghost predicate StepAt(c: Config, run: seq<State>, i: nat)
    requires c.Valid() && i + 1 < |run|
  {
    exists e :: Enabled(c, run[i], e) && run[i + 1] == Do(c, run[i], e)
  }

  ghost predicate IsRun(c: Config, run: seq<State>) {
    c.Valid() && |run| > 0 && Begins(c, run[0]) && forall i: nat | i + 1 < |run| :: StepAt(c, run, i)
  }

  // ---------- The invariant ----------

  /** Conservation: what was produced is what was consumed and what the buffer holds. */
  ghost predicate Conserved(c: Config, s: State) {
    && |s.buffer| == c.max && s.size <= c.max
    && multiset(s.produced) == multiset(s.consumed) + multiset(s.buffer[..s.size])
  }

  /** Some master has produced x. */
  ghost predicate Made(c: Config, s: State, x: int)
    requires c.Valid()
  {
    exists t: nat :: t < c.masters && t < |s.next| && Start(c, t) <= x < s.next[t]
  }

  ghost predicate Inv(c: Config, s: State)
    requires c.Valid()
  {
    && Conserved(c, s)
    && |s.next| == c.masters && |s.done| == c.workers
    && (forall t: nat | t < c.masters :: Start(c, t) <= s.next[t] <= End(c, t))
    && (forall t: nat | t < c.workers :: s.done[t] <= Quota(c, t))
    && (forall x: int :: multiset(s.produced)[x] == if Made(c, s, x) then 1 else 0)
    && |s.consumed| == Sum(s.done)
  }

  lemma {:induction false} SumBump(xs: seq<nat>, t: nat)
    requires t < |xs|
    ensures Sum(xs[t := xs[t] + 1]) == Sum(xs) + 1
  {
    var n := |xs| - 1;
    if t < n {
      SumBump(xs[..n], t);
      assert xs[t := xs[t] + 1][..n] == xs[..n][t := xs[t] + 1];
    } else {
      assert xs[t := xs[t] + 1][..n] == xs[..n];
    }
  }

  lemma {:induction false} SumZeros(n: nat)
    ensures Sum(seq(n, _ => 0)) == 0
  {
    if n > 0 {
      assert seq(n, _ => 0)[..n - 1] == seq(n - 1, _ => 0);
      SumZeros(n - 1);
    }
  }

  /** The number a master is about to produce has not been produced before. */
  lemma NewNumber(c: Config, s: State, t: nat)
    requires c.Valid() && Inv(c, s) && Enabled(c, s, Produce(t))
    ensures !Made(c, s, s.next[t])
  {
    forall u: nat | u < c.masters ensures !(Start(c, u) <= s.next[t] < s.next[u]) {
      if u < t { RangesApart(c, u, t); }
      if t < u { RangesApart(c, t, u); }
    }
  }

  lemma MadeNow(c: Config, s: State, t: nat, x: int)
    requires c.Valid() && Inv(c, s) && Enabled(c, s, Produce(t))
    ensures Made(c, Do(c, s, Produce(t)), x) <==> Made(c, s, x) || x == s.next[t]
  {
    var s' := Do(c, s, Produce(t));
    if Made(c, s, x) {
      var u: nat :| u < c.masters && u < |s.next| && Start(c, u) <= x < s.next[u];
      assert Start(c, u) <= x < s'.next[u];
    }
    if x == s.next[t] {
      assert Start(c, t) <= x < s'.next[t];
    }
    if Made(c, s', x) {
      var u: nat :| u < c.masters && u < |s'.next| && Start(c, u) <= x < s'.next[u];
      assert x < s.next[u] || x == s.next[t];
    }
  }

  lemma ProduceInv(c: Config, s: State, t: nat)
    requires c.Valid() && Inv(c, s) && Enabled(c, s, Produce(t))
    ensures Inv(c, Do(c, s, Produce(t)))
  {
    hide Made, Start, End, Quota;
    var s' := Do(c, s, Produce(t));
    NewNumber(c, s, t);
    assert s'.buffer[..s'.size] == s.buffer[..s.size] + [s.next[t]];
    forall x: int ensures multiset(s'.produced)[x] == if Made(c, s', x) then 1 else 0 { MadeNow(c, s, t, x); }
  }

  lemma ConsumeInv(c: Config, s: State, t: nat)
    requires c.Valid() && Inv(c, s) && Enabled(c, s, Consume(t))
    ensures Inv(c, Do(c, s, Consume(t)))
  {
    hide Start, End, Quota;
    var s' := Do(c, s, Consume(t));
    assert s.buffer[..s.size] == s'.buffer[..s'.size] + [s.buffer[s.size - 1]];
    SumBump(s.done, t);
    forall x: int ensures Made(c, s', x) <==> Made(c, s, x) {}
  }

  lemma BeginsInv(c: Config, s: State)
    requires c.Valid() && Begins(c, s)
    ensures Inv(c, s)
  {
    forall t: nat | t < c.masters ensures Start(c, t) <= s.next[t] <= End(c, t) { RangesPartition(c, t); }
    forall t: nat | t < c.workers ensures s.done[t] <= Quota(c, t) { QuotaIs(c, t); }
    SumZeros(c.workers);
  }

  lemma {:induction false} RunInv(c: Config, run: seq<State>, i: nat)
    requires IsRun(c, run) && i < |run|
    ensures c.Valid() && Inv(c, run[i])
  {
    hide Begins, Inv, Do;
    if i == 0 {
      BeginsInv(c, run[0]);
    } else {
      RunInv(c, run, i - 1);
      assert StepAt(c, run, i - 1);
      var e :| Enabled(c, run[i - 1], e) && run[i] == Do(c, run[i - 1], e);
      match e
      case Produce(t) => ProduceInv(c, run[i - 1], t);
      case Consume(t) => ConsumeInv(c, run[i - 1], t);
    }
  }

  // ---------- Theorems ----------

  /** In every state the buffer is within bounds and nothing is lost or doubled. */
  lemma NothingLost(c: Config, run: seq<State>, i: nat)
    requires IsRun(c, run) && i < |run|
    ensures 0 <= run[i].size <= c.max == |run[i].buffer|
    ensures multiset(run[i].produced) == multiset(run[i].consumed) + multiset(run[i].buffer[..run[i].size])
  {
    hide IsRun;
    RunInv(c, run, i);
  }

  /** All threads have left their loops. */
  ghost predicate Finished(c: Config, s: State)
    requires c.Valid()
  {
    && |s.next| == c.masters && |s.done| == c.workers
    && (forall t: nat | t < c.masters :: s.next[t] >= End(c, t))
    && (forall t: nat | t < c.workers :: s.done[t] >= Quota(c, t))
  }

  function UpTo(n: nat): (r: seq<int>)
    ensures |r| == n && forall i | 0 <= i < n :: r[i] == i
  {
    seq(n, i => i)
  }

  lemma {:induction false} UpToOnce(n: nat, x: int)
    ensures multiset(UpTo(n))[x] == if 0 <= x < n then 1 else 0
  {
    if n > 0 {
      UpToOnce(n - 1, x);
      assert UpTo(n) == UpTo(n - 1) + [n - 1];
    }
  }

  lemma {:induction false} SumQuotas(c: Config, xs: seq<nat>)
    requires c.Valid() && |xs| <= c.workers && forall t: nat | t < |xs| :: xs[t] == Quota(c, t)
    ensures Sum(xs) == |xs| * (c.total / c.workers) + if xs == [] then 0 else c.total % c.workers
  {
    if xs != [] {
      var n := |xs| - 1;
      SumQuotas(c, xs[..n]);
      QuotaIs(c, n);
    }
  }

  /** The quotas of all workers add up to total_items. */
  lemma QuotasAddUp(c: Config, xs: seq<nat>)
    requires c.Valid() && |xs| == c.workers && forall t: nat | t < |xs| :: xs[t] == Quota(c, t)
    ensures Sum(xs) == c.total
  {
    SumQuotas(c, xs);
    ChunkFits(c.total, c.workers, 0);
  }

  lemma MadeAll(c: Config, s: State, x: int)
    requires c.Valid() && Inv(c, s) && Finished(c, s)
    ensures Made(c, s, x) <==> 0 <= x < c.total
  {
    RangesPartition(c, c.masters - 1);
    if 0 <= x < c.total {
      var t := RangeOf(c, x, c.masters);
      assert Start(c, t) <= x < s.next[t];
    }
    if Made(c, s, x) {
      var t: nat :| t < c.masters && t < |s.next| && Start(c, t) <= x < s.next[t];
      if t + 1 < c.masters { RangesApart(c, t, c.masters - 1); }
    }
  }

  lemma ProducedAll(c: Config, s: State)
    requires c.Valid() && Inv(c, s) && Finished(c, s)
    ensures multiset(s.produced) == multiset(UpTo(c.total))
  {
    hide Made, Start, End, Quota, Finished, UpTo;
    forall x: int ensures multiset(s.produced)[x] == multiset(UpTo(c.total))[x] {
      MadeAll(c, s, x);
      UpToOnce(c.total, x);
    }
  }

  lemma ConsumedCount(c: Config, s: State)
    requires c.Valid() && Inv(c, s) && Finished(c, s)
    ensures |s.consumed| == c.total
  {
    hide Made, Start, End, Quota;
    QuotasAddUp(c, s.done);
  }

  /** Once all threads have finished, the consumed numbers are a permutation of 0 .. total-1, and the buffer is empty. */
  lemma AllConsumed(c: Config, run: seq<State>, i: nat)
    requires IsRun(c, run) && i < |run| && Finished(c, run[i])
    ensures multiset(run[i].consumed) == multiset(UpTo(c.total)) && run[i].size == 0
  {
    hide IsRun, Made, Start, End, Quota, Finished;
    var s := run[i];
    RunInv(c, run, i);
    ProducedAll(c, s);
    ConsumedCount(c, s);
    assert |multiset(s.produced)| == |multiset(s.consumed)| + |multiset(s.buffer[..s.size])|;
  }
}

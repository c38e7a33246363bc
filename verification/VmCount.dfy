/**
 How many pages the operations of vm.c take from the free list: one for every
 directory entry without a table that a range of pages goes through, and one
 for every user page. With these counts running out of memory has an exact
 condition.
 */
module VmCount {
  import opened PageTree
  import opened VmSpec

  /** Page v is the first of a range from lo on under its directory entry. */
  predicate First(lo: nat, v: nat) {
    v == lo || v % NENT == 0
  }

  /** How many tables are missing for pages lo..m of directory d. */
  ghost function NewTabs(mem: seq<Page>, d: nat, lo: nat, m: nat): nat
    requires d < |mem| && m <= NVPN
  {
    if m <= lo then 0
    else NewTabs(mem, d, lo, m - 1) + if !Present(mem[d][(m - 1) / NENT]) && First(lo, m - 1) then 1 else 0
  }

  /** Directory entry i is on the way to some page of lo..m. */
  predicate Through(i: nat, lo: nat, m: nat) {
    lo < m && lo / NENT <= i <= (m - 1) / NENT
  }

  /** From s to t exactly the tables missing for pages lo..m were added, each from the free list. */
  ghost predicate Tabled(s: State, t: State, d: nat, lo: nat, m: nat) {
    && Sized(s) && Sized(t) && d < NPAGE && m <= NVPN
    && (forall i: nat | i < NENT :: Present(t.mem[d][i]) <==> Present(s.mem[d][i]) || Through(i, lo, m))
    && |t.free| == |s.free| - NewTabs(s.mem, d, lo, m)
  }

  lemma TabledNothing(s: State, d: nat, lo: nat)
    requires Sized(s) && d < NPAGE && lo <= NVPN
    ensures Tabled(s, s, d, lo, lo)
  {
  }

  lemma ThroughMore(i: nat, lo: nat, m: nat)
    requires lo <= m
    ensures Through(i, lo, m + 1) <==> Through(i, lo, m) || i == m / NENT
    ensures Through(m / NENT, lo, m) <==> !First(lo, m)
  {
  }

  /** Whether a table is missing now, told from the beginning. */
  lemma TabledNext(s: State, t: State, d: nat, lo: nat, m: nat)
    requires Tabled(s, t, d, lo, m) && lo <= m < NVPN
    ensures NewTabs(s.mem, d, lo, m + 1) == NewTabs(s.mem, d, lo, m) + if Present(t.mem[d][m / NENT]) then 0 else 1
    ensures !Present(t.mem[d][m / NENT]) && t.free == [] ==> |s.free| < NewTabs(s.mem, d, lo, m + 1)
  {
    hide Present;
    ThroughMore(m / NENT, lo, m);
  }

  /** Walking to page m and setting its entry. */
  lemma TabledMore(s: State, t: State, u: State, w: State, d: nat, lo: nat, m: nat)
    requires Tabled(s, t, d, lo, m) && lo <= m < NVPN && Inv(t) && IsDir(t, d)
    requires u == Walked(t, d, m / NENT) && Sized(u) && Sized(w) && w.mem[d] == u.mem[d] && w.free == u.free
    requires Present(u.mem[d][m / NENT])
    ensures Tabled(s, w, d, lo, m + 1)
  {
    TabledNext(s, t, d, lo, m);
    WalkedDir(t, u, d, m / NENT);
    hide Present, Walked, Inv, NewTabs;
    forall i: nat | i < NENT ensures Present(w.mem[d][i]) <==> Present(s.mem[d][i]) || Through(i, lo, m + 1) {
      ThroughMore(i, lo, m);
    }
  }

  /** A walk takes a page exactly when the table is missing, and adds no other. */
  lemma WalkedDir(t: State, u: State, d: nat, i: nat)
    requires Inv(t) && IsDir(t, d) && i < NENT && u == Walked(t, d, i) && Sized(u) && Present(u.mem[d][i])
    ensures |u.free| == |t.free| - if Present(t.mem[d][i]) then 0 else 1
    ensures forall k: nat | k < NENT && k != i :: u.mem[d][k] == t.mem[d][k]
  {
    hide Present, TreeOk;
    if !Present(t.mem[d][i]) { PoppedOk(t); }
  }

  lemma {:induction false} NewTabsMonotone(mem: seq<Page>, d: nat, lo: nat, a: nat, b: nat)
    requires d < |mem| && lo <= a <= b <= NVPN
    ensures NewTabs(mem, d, lo, a) <= NewTabs(mem, d, lo, b)
    decreases b
  {
    hide Present;
    if a < b { NewTabsMonotone(mem, d, lo, a, b - 1); }
  }

  /** Where the entries present are those up to p, the tables missing are the ones above p. */
  lemma {:induction false} NewTabsAbove(mem: seq<Page>, d: nat, lo: nat, m: nat, p: int)
    requires d < |mem| && lo < m <= NVPN && lo / NENT - 1 <= p
    requires forall i: nat | lo / NENT <= i <= (m - 1) / NENT :: Present(mem[d][i]) <==> i <= p
    ensures NewTabs(mem, d, lo, m) == if (m - 1) / NENT > p then (m - 1) / NENT - p else 0
    decreases m
  {
    hide Present;
    assert NewTabs(mem, d, lo, lo) == 0;
    if lo + 1 < m {
      NewTabsAbove(mem, d, lo, m - 1, p);
      ThroughMore((m - 1) / NENT, lo, m - 1);
      assert (m - 1) % NENT == 0 ==> (m - 1) / NENT == (m - 2) / NENT + 1;
      assert (m - 1) % NENT != 0 ==> (m - 1) / NENT == (m - 2) / NENT;
    }
  }

  // ---------- User pages ----------

  /** How many pages growing by pages lo..m takes: the pages and the missing tables. */
  ghost function GrowNeed(mem: seq<Page>, d: nat, lo: nat, m: nat): nat
    requires d < |mem| && lo <= m <= NVPN
  {
    (m - lo) + NewTabs(mem, d, lo, m)
  }

  /** From s to t pages lo..m were added, each with a page and its table if it was missing. */
  ghost predicate Drawn(s: State, t: State, d: nat, lo: nat, m: nat) {
    && Sized(s) && Sized(t) && d < NPAGE && lo <= m <= NVPN
    && (forall i: nat | i < NENT :: Present(t.mem[d][i]) <==> Present(s.mem[d][i]) || Through(i, lo, m))
    && |t.free| == |s.free| - GrowNeed(s.mem, d, lo, m)
  }

  lemma DrawnNothing(s: State, d: nat, lo: nat)
    requires Sized(s) && d < NPAGE && lo <= NVPN
    ensures Drawn(s, s, d, lo, lo)
  {
  }

  /** One more page: z is t with a page in hand, u has it mapped. */
  lemma DrawnMore(s: State, t: State, z: State, u: State, d: nat, lo: nat, m: nat)
    requires Drawn(s, t, d, lo, m) && m < NVPN
    requires Sized(z) && z.mem[d] == t.mem[d] && |z.free| == |t.free| - 1 && Tabled(z, u, d, m, m + 1)
    ensures Drawn(s, u, d, lo, m + 1)
  {
    hide Present;
    ThroughMore(m / NENT, lo, m);
    assert NewTabs(z.mem, d, m, m) == 0;
    forall i: nat | i < NENT ensures Present(u.mem[d][i]) <==> Present(s.mem[d][i]) || Through(i, lo, m + 1) {
      ThroughMore(i, lo, m);
      ThroughMore(i, m, m);
    }
  }

  /** Too few pages: no page at all, or a page and no table for it. */
  lemma DrawnStops(s: State, t: State, z: State, d: nat, lo: nat, m: nat, hi: nat)
    requires Drawn(s, t, d, lo, m) && m < hi <= NVPN
    requires t.free == [] || (Sized(z) && z.mem[d] == t.mem[d] && |z.free| == |t.free| - 1 && |z.free| < NewTabs(z.mem, d, m, m + 1))
    ensures |s.free| < GrowNeed(s.mem, d, lo, hi)
  {
    hide Present;
    ThroughMore(m / NENT, lo, m);
    if t.free != [] { assert NewTabs(z.mem, d, m, m) == 0; }
    NewTabsMonotone(s.mem, d, lo, m + 1, hi);
  }
}

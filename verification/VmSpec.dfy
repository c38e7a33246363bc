/**
 What the operations of vm.c do to pages and page tables, on values: the
 page-by-page reference for deallocuvm, page-table growth, and retiring a
 whole address space.
 */
module VmSpec {
  import opened PageTree

  /** Page p, in role r, belongs to the address space of directory d. */
  predicate Mine(r: Role, p: nat, d: nat) {
    p == d || (r.Tab? && r.d == d) || (r.User? && r.d == d)
  }

  /**
   From s to s' only pages of address space d and free pages changed role or
   contents, except that page x (if any) was in hand.
   */
  ghost predicate Apart(s: State, s': State, d: nat, x: int) {
    && Sized(s) && Sized(s') && s'.first == s.first
    && forall p: nat | p < NPAGE && p != x ::
         && (s.role[p] != Free && !Mine(s.role[p], p, d) ==> s'.role[p] == s.role[p] && s'.mem[p] == s.mem[p])
         && (s'.role[p] != Free && !Mine(s'.role[p], p, d) ==> s'.role[p] == s.role[p])
  }

  lemma ApartTrans(s: State, t: State, u: State, d: nat, x: int)
    requires Apart(s, t, d, x) && Apart(t, u, d, x)
    ensures Apart(s, u, d, x)
  {
  }

  /** Another address space is mapped as before. */
  lemma ApartLeaf(s: State, s': State, d: nat, x: int, e: nat)
    requires TreeOk(s) && TreeOk(s') && Apart(s, s', d, x) && IsDir(s, e) && e != d
    requires d < NPAGE && !s.role[d].Tab? && (0 <= x < NPAGE ==> Idle(s.role[x]))
    ensures IsDir(s', e) && forall v: nat | v < NVPN :: Leaf(s'.mem, e, v) == Leaf(s.mem, e, v)
  {
    hide Leaf, RoleOk, LeafOk, PdeOk;
    LeafFrame(s, s'.mem, e);
  }

  /** User pages follow the entries. */
  lemma SameUsers(s: State, s': State, d: nat, v: nat, p: nat)
    requires TreeOk(s) && TreeOk(s') && IsDir(s, d) && IsDir(s', d) && v < UVPN && p < NPAGE
    requires Leaf(s'.mem, d, v) == Leaf(s.mem, d, v)
    ensures s'.role[p] == User(d, v) <==> s.role[p] == User(d, v)
  {
    hide Leaf, Present, FrameOf;
    assert RoleOk(s, p) && RoleOk(s', p) && LeafOk(s, d, v) && LeafOk(s', d, v);
  }

  // ---------- deallocuvm, page by page ----------

  ghost function UnmapPage(s: State, d: nat, v: nat): (r: State)
    requires Inv(s) && IsDir(s, d) && v < UVPN
    ensures Inv(r) && IsDir(r, d)
  {
    if Present(s.mem[d][v / NENT]) && Present(Leaf(s.mem, d, v)) then
      UnmappedOk(s, d, v);
      UnmapKeepsDir(s, d, v, d);
      Unmapped(s, d, v)
    else s
  }

  lemma UnmapKeepsDir(s: State, d: nat, v: nat, e: nat)
    requires Inv(s) && IsDir(s, d) && v < UVPN && Present(s.mem[d][v / NENT]) && Present(Leaf(s.mem, d, v)) && IsDir(s, e)
    ensures IsDir(Unmapped(s, d, v), e)
  {
    assert LeafOk(s, d, v);
  }

  /** Page by page from a to hi, each unmapped and freed if it is there. */
  ghost function Naive(s: State, d: nat, a: nat, hi: nat): (r: State)
    requires Inv(s) && IsDir(s, d) && a % PGSIZE == 0 && hi <= KERNBASE
    decreases hi - a
  {
    if a >= hi then s else Naive(UnmapPage(s, d, a / PGSIZE), d, a + PGSIZE, hi)
  }

  /** Without a table nothing happens up to the next directory entry. */
  lemma {:induction false} NaiveSkip(s: State, d: nat, a: nat, b: nat, hi: nat)
    requires Inv(s) && IsDir(s, d) && a % PGSIZE == 0 && b % PGSIZE == 0 && hi <= KERNBASE
    requires a <= b <= (a / PGSIZE / NENT + 1) * (PGSIZE * NENT) && a < KERNBASE && !Present(s.mem[d][a / PGSIZE / NENT])
    ensures Naive(s, d, a, hi) == Naive(s, d, b, hi)
    decreases b - a
  {
    hide Inv, Leaf, Present, Unmapped;
    if a < b && a < hi {
      if a + PGSIZE < b && a + PGSIZE < hi {
        assert (a + PGSIZE) / PGSIZE / NENT == a / PGSIZE / NENT;
        NaiveSkip(s, d, a + PGSIZE, b, hi);
      }
    }
  }

  /** Virtual page v lies in the range a..hi. */
  predicate Within(v: nat, a: nat, hi: nat) {
    a <= v * PGSIZE < hi
  }

  /** Exactly the present entries in the range are cleared, and exactly their pages become free. */
  ghost predicate Released(s: State, s': State, d: nat, a: nat, hi: nat) {
    && Sized(s) && Sized(s') && d < NPAGE && s'.first == s.first
    && (forall v: nat | v < NVPN ::
          Leaf(s'.mem, d, v) == if Within(v, a, hi) && Present(Leaf(s.mem, d, v)) then 0 else Leaf(s.mem, d, v))
    && (forall p: nat | p < NPAGE ::
          s'.role[p] == if s.role[p].User? && s.role[p].d == d && Within(s.role[p].v, a, hi) then Free else s.role[p])
    && (forall p: nat | p < NPAGE && s'.role[p] != Free && !(s.role[p].Tab? && s.role[p].d == d) :: s'.mem[p] == s.mem[p])
  }

  lemma UnmapReleases(s: State, d: nat, v: nat)
    requires Inv(s) && IsDir(s, d) && v < UVPN
    ensures Released(s, UnmapPage(s, d, v), d, v * PGSIZE, (v + 1) * PGSIZE)
  {
    var s' := UnmapPage(s, d, v);
    assert LeafOk(s, d, v) && PdeOk(s, d, v / NENT);
    assert Present(Leaf(s.mem, d, v)) ==> Present(s.mem[d][v / NENT]) by { ZeroEntry(); }
    var r := Present(s.mem[d][v / NENT]) && Present(Leaf(s.mem, d, v));
    if r { UnmappedOk(s, d, v); }
    hide Leaf, Present, FrameOf, LeafOk, PdeOk, ListOk;
    forall p: nat | p < NPAGE
      ensures s'.role[p] == if s.role[p] == User(d, v) then Free else s.role[p]
    {
      assert RoleOk(s, p);
    }
  }

  lemma {:induction false} NaiveReleases(s: State, d: nat, a: nat, hi: nat)
    requires Inv(s) && IsDir(s, d) && a % PGSIZE == 0 && hi <= KERNBASE
    ensures Inv(Naive(s, d, a, hi)) && IsDir(Naive(s, d, a, hi), d)
    ensures Released(s, Naive(s, d, a, hi), d, a, hi)
    decreases hi - a
  {
    hide Inv, Leaf, Present, UnmapPage, Released;
    if a >= hi {
      ReleasedNothing(s, d, a, hi);
    } else {
      var v := a / PGSIZE;
      var t := UnmapPage(s, d, v);
      UnmapReleases(s, d, v);
      NaiveReleases(t, d, a + PGSIZE, hi);
      ReleasedMore(s, t, Naive(t, d, a + PGSIZE, hi), d, a, hi);
    }
  }

  lemma ReleasedNothing(s: State, d: nat, a: nat, hi: nat)
    requires Inv(s) && IsDir(s, d) && a >= hi
    ensures Released(s, s, d, a, hi)
  {
    hide Leaf, Present;
  }

  lemma ReleasedMore(s: State, t: State, u: State, d: nat, a: nat, hi: nat)
    requires a < hi && a % PGSIZE == 0 && Released(s, t, d, a, a + PGSIZE) && Released(t, u, d, a + PGSIZE, hi)
    ensures Released(s, u, d, a, hi)
  {
    ZeroEntry();
    hide Leaf, Present;
    assert forall v: nat :: Within(v, a, hi) <==> Within(v, a, a + PGSIZE) || Within(v, a + PGSIZE, hi);
  }

  lemma ReleasedApart(s: State, s': State, d: nat, a: nat, hi: nat)
    requires Released(s, s', d, a, hi)
    ensures Apart(s, s', d, -1)
  {
    hide Leaf, Present, Within;
  }

  // ---------- walkpgdir with alloc ----------

  ghost function Walked(s: State, d: nat, i: nat): State
    requires ListOk(s) && IsDir(s, d) && i < NENT
  {
    if Present(s.mem[d][i]) || s.free == [] then s
    else
      var t, q := s.free[0], Popped(s);
      assert s.role[t] == Free;
      AsTab(q.(mem := q.mem[t := ZeroPage()]), d, i, t)
  }

  /** A missing table is added and nothing is mapped by that. */
  ghost predicate Grew(s: State, s': State, d: nat)
    requires Sized(s) && Sized(s')
  {
    forall p: nat | p < NPAGE ::
      && (s'.role[p] == s.role[p] || (s.role[p] == Free && s'.role[p].Tab? && s'.role[p].d == d))
      && (s.role[p] != Free && p != d ==> s'.mem[p] == s.mem[p])
  }

  lemma WalkedOk(s: State, d: nat, i: nat)
    requires Inv(s) && IsDir(s, d) && i < NENT
    ensures var s' := Walked(s, d, i);
            && Inv(s') && Sized(s') && IsDir(s', d) && Grew(s, s', d) && s'.first == s.first
            && (forall e: nat, v: nat | IsDir(s, e) && v < NVPN :: Leaf(s'.mem, e, v) == Leaf(s.mem, e, v))
            && (Present(s'.mem[d][i]) <==> Present(s.mem[d][i]) || s.free != [])
  {
    assert Sized(s);
    hide Leaf, Present, TreeOk, ListOk;
    if !Present(s.mem[d][i]) && s.free != [] {
      PoppedOk(s);
      var t, q := s.free[0], Popped(s);
      var z := q.(mem := q.mem[t := ZeroPage()]);
      FilledOk(q, t, ZeroPage());
      AsTabOk(z, d, i, t);
    }
  }

  // ---------- mappages ----------

  /** Pages lo..hi are mapped to frames f, f+1, …; pages mapped below KERNBASE were in hand. */
  ghost predicate MapsTo(s: State, s': State, d: nat, lo: nat, hi: nat, f: nat, perm: nat)
    requires perm < PGSIZE && lo <= hi && f + (hi - lo) <= NVPN
  {
    && Sized(s) && Sized(s') && IsDir(s, d) && IsDir(s', d) && s'.first == s.first
    && (forall v: nat | v < NVPN ::
          Leaf(s'.mem, d, v) == if lo <= v < hi then Entry(f + (v - lo), perm) else Leaf(s.mem, d, v))
    && (forall p: nat | p < NPAGE :: RoleStep(s.role[p], s'.role[p], p, d, lo, hi, f))
    && (forall p: nat | p < NPAGE && s.role[p] != Free && p != d && !(s.role[p].Tab? && s.role[p].d == d) :: s'.mem[p] == s.mem[p])
  }

  ghost predicate RoleStep(r: Role, r': Role, p: nat, d: nat, lo: nat, hi: nat, f: nat) {
    || r' == r
    || (r == Free && r'.Tab? && r'.d == d)
    || (r == Other && f <= p < f + (hi - lo) && lo + (p - f) < UVPN && r' == User(d, lo + (p - f)))
  }

  /** What the caller hands to mappages: pages below KERNBASE must be in hand. */
  ghost predicate InHand(s: State, lo: nat, hi: nat, f: nat)
    requires Sized(s)
  {
    forall p: nat | f <= p < f + (hi - lo) && lo + (p - f) < UVPN :: Held(s, p)
  }

  ghost predicate Held(s: State, p: nat)
    requires Sized(s)
  {
    p < NPAGE && s.role[p] == Other
  }

  lemma MapsNothing(s: State, d: nat, lo: nat, f: nat, perm: nat)
    requires Inv(s) && IsDir(s, d) && perm < PGSIZE && f <= NVPN
    ensures MapsTo(s, s, d, lo, lo, f, perm)
  {
    hide Leaf, Entry;
  }

  /** A page table added on the way maps nothing. */
  lemma MapsWalk(s: State, t: State, u: State, d: nat, lo: nat, m: nat, f: nat, perm: nat)
    requires perm < PGSIZE && lo <= m && f + (m - lo) <= NVPN && MapsTo(s, t, d, lo, m, f, perm)
    requires Sized(u) && IsDir(u, d) && Grew(t, u, d) && u.first == t.first
    requires forall v: nat | v < NVPN :: Leaf(u.mem, d, v) == Leaf(t.mem, d, v)
    ensures MapsTo(s, u, d, lo, m, f, perm)
  {
    hide Leaf, Entry;
  }

  /** One more entry. */
  lemma MapsMore(s: State, t: State, d: nat, lo: nat, m: nat, f: nat, perm: nat)
    requires perm < PGSIZE && lo <= m < NVPN && f + (m - lo) < NVPN && MapsTo(s, t, d, lo, m, f, perm)
    requires Inv(t) && Present(t.mem[d][m / NENT]) && !Present(Leaf(t.mem, d, m))
    requires m < UVPN ==> f + (m - lo) < NPAGE && t.role[f + (m - lo)] == Other && s.role[f + (m - lo)] == Other
    ensures FrameOf(t.mem[d][m / NENT]) < NPAGE
    ensures var u := MapLeaf(t, d, m, Entry(f + (m - lo), perm));
            Inv(u) && MapsTo(s, u, d, lo, m + 1, f, perm)
  {
    var w := Entry(f + (m - lo), perm);
    MapLeafOk(t, d, m, w);
    hide Leaf, Entry, Inv, Present, FrameOf;
  }

  lemma InHandStill(s: State, t: State, d: nat, lo: nat, m: nat, hi: nat, f: nat, perm: nat)
    requires perm < PGSIZE && lo <= m < hi && f + (hi - lo) <= NVPN && MapsTo(s, t, d, lo, m, f, perm) && InHand(s, lo, hi, f)
    ensures m < UVPN ==> f + (m - lo) < NPAGE && t.role[f + (m - lo)] == Other && s.role[f + (m - lo)] == Other
  {
    hide Leaf, Entry;
    var p := f + (m - lo);
    if m < UVPN {
      assert Held(s, p);
      assert RoleStep(s.role[p], t.role[p], p, d, lo, m, f);
    }
  }

  // ---------- freevm ----------

  /** Roles once the tables below i of a directory being torn down are freed. */
  ghost function TornDown(role: seq<Role>, d: nat, i: nat): (r: seq<Role>)
    ensures |r| == |role|
  {
    seq(|role|, p requires 0 <= p < |role| => TornRole(role[p], p, d, i))
  }

  function TornRole(r: Role, p: nat, d: nat, i: nat): Role {
    if p == d then Other
    else if r.Tab? && r.d == d then (if r.i < i then Free else Other)
    else r
  }

  /** A directory with no user page left takes its tables with it. */
  lemma TearDownOk(s: State, d: nat)
    requires Inv(s) && IsDir(s, d) && forall v: nat | v < UVPN :: !Present(Leaf(s.mem, d, v))
    ensures Inv(s.(role := TornDown(s.role, d, 0)))
  {
    hide Leaf, Present, FrameOf;
    var s' := s.(role := TornDown(s.role, d, 0));
    assert s.role[d] == Dir;
    forall p: nat | p < NPAGE ensures s'.role[p] == TornRole(s.role[p], p, d, 0) {}
    ListFrame(s, s');
    hide TornDown;
    forall p: nat | p < NPAGE ensures RoleOk(s', p) { assert RoleOk(s, p); }
    forall e: nat, k: nat | IsDir(s', e) && k < NENT ensures PdeOk(s', e, k) { assert IsDir(s, e) && PdeOk(s, e, k); }
    forall e: nat, v: nat | IsDir(s', e) && v < UVPN ensures LeafOk(s', e, v) { assert IsDir(s, e) && LeafOk(s, e, v); }
  }

  /** Freeing table i, or finding it absent, completes the turn. */
  lemma TornDownStep(s: State, d: nat, i: nat)
    requires TreeOk(s) && IsDir(s, d) && i < NENT
    ensures var e := s.mem[d][i];
            TornDown(s.role, d, i + 1) ==
            if Present(e) && FrameOf(e) < NPAGE then TornDown(s.role, d, i)[FrameOf(e) := Free] else TornDown(s.role, d, i)
    ensures var e := s.mem[d][i];
            Present(e) ==> s.first <= FrameOf(e) < NPAGE && FrameOf(e) != d && TornDown(s.role, d, i)[FrameOf(e)] == Other
  {
    hide Present, FrameOf, Leaf;
    var e := s.mem[d][i];
    assert PdeOk(s, d, i);
    var x := TornDown(s.role, d, i);
    var y := if Present(e) && FrameOf(e) < NPAGE then x[FrameOf(e) := Free] else x;
    forall p: nat | p < NPAGE ensures TornDown(s.role, d, i + 1)[p] == y[p] {
      assert RoleOk(s, p);
    }
  }

  /** All of an address space is free again, and nothing else has changed. */
  ghost predicate Dissolved(s: State, s': State, d: nat) {
    && Sized(s) && Sized(s') && s'.first == s.first
    && forall p: nat | p < NPAGE ::
         && s'.role[p] == (if Mine(s.role[p], p, d) then Free else s.role[p])
         && (s'.role[p] != Free ==> s'.mem[p] == s.mem[p])
  }

  lemma DissolvedIf(s: State, t: State, u: State, d: nat)
    requires TreeOk(s) && IsDir(s, d) && Released(s, t, d, 0, KERNBASE) && TreeOk(t)
    requires Sized(u) && u.first == t.first && u.role == TornDown(t.role, d, NENT)[d := Free]
    requires forall p: nat | p < NPAGE && u.role[p] != Free :: u.mem[p] == t.mem[p]
    ensures Dissolved(s, u, d)
  {
    hide Leaf, Present, FrameOf;
    forall p: nat | p < NPAGE
      ensures u.role[p] == (if Mine(s.role[p], p, d) then Free else s.role[p])
      ensures u.role[p] != Free ==> u.mem[p] == s.mem[p]
    {
      assert RoleOk(s, p) && RoleOk(t, p);
      assert p != d ==> u.role[p] == TornRole(t.role[p], p, d, NENT);
    }
  }

  /** Every page has its old role, and those in use their old contents. */
  ghost predicate Unchanged(s: State, t: State) {
    && Sized(s) && Sized(t) && t.first == s.first && t.role == s.role
    && forall p: nat | p < NPAGE && s.role[p] != Free :: t.mem[p] == s.mem[p]
  }

  /** Taking an address space that grew out of free pages apart again restores every page's role. */
  lemma BuiltThenDissolved(s: State, t: State, u: State, d: nat)
    requires TreeOk(s) && d < NPAGE && s.role[d] == Free && Apart(s, t, d, -1) && Dissolved(t, u, d)
    ensures Unchanged(s, u)
  {
    hide Leaf, Present, FrameOf;
    forall p: nat | p < NPAGE
      ensures u.role[p] == s.role[p]
      ensures s.role[p] != Free ==> u.mem[p] == s.mem[p]
    {
      assert RoleOk(s, p);
      assert s.role[p] != Free ==> !Mine(s.role[p], p, d);
    }
  }

  // ---------- Growing an address space ----------

  /** No page of s has become free. */
  ghost predicate NoneFreed(s: State, t: State)
    requires Sized(s) && Sized(t)
  {
    forall p: nat | p < NPAGE && s.role[p] != Free :: t.role[p] != Free
  }

  ghost predicate UsersKept(s: State, t: State)
    requires Sized(s) && Sized(t)
  {
    forall p: nat | p < NPAGE && s.role[p].User? :: t.role[p] == s.role[p] && t.mem[p] == s.mem[p]
  }

  /** Virtual page v of d is mapped to a page that was free in s and now holds the given contents. */
  ghost predicate NewAt(s: State, t: State, d: nat, v: nat, page: Page, flags: nat)
    requires Sized(s) && Sized(t) && d < NPAGE && v < NVPN
  {
    var e := Leaf(t.mem, d, v);
    && Present(e) && FlagsOf(e) == flags && FrameOf(e) < NPAGE
    && s.role[FrameOf(e)] == Free && t.role[FrameOf(e)] == User(d, v) && t.mem[FrameOf(e)] == page
  }

  /** t is s with page v of d newly mapped. */
  ghost predicate Extended(s: State, t: State, d: nat, v: nat, page: Page, flags: nat) {
    && Apart(s, t, d, -1) && NoneFreed(s, t) && UsersKept(s, t) && d < NPAGE && v < NVPN
    && NewAt(s, t, d, v, page, flags)
    && forall u: nat | u < NVPN && u != v :: Leaf(t.mem, d, u) == Leaf(s.mem, d, u)
  }

  /** A page x was taken in hand and no table could be had for it. */
  ghost predicate Stuck(s: State, t: State, d: nat, x: nat) {
    && Apart(s, t, d, x) && NoneFreed(s, t) && UsersKept(s, t) && d < NPAGE && x < NPAGE
    && s.role[x] == Free && t.role[x] == Other
    && forall u: nat | u < NVPN :: Leaf(t.mem, d, u) == Leaf(s.mem, d, u)
  }

  /** kalloc and filling the page. */
  ghost predicate Took(s: State, t: State, x: nat, page: Page) {
    && Sized(s) && Sized(t) && s.first == t.first && x < NPAGE && s.role[x] == Free
    && t.mem == s.mem[x := page] && t.role == s.role[x := Other]
  }

  lemma TookOk(s: State, t: State, page: Page)
    requires Inv(s) && s.free != [] && Sized(s) && s.free[0] < NPAGE && t == Popped(s).(mem := s.mem[s.free[0] := page])
    ensures Inv(t) && Took(s, t, s.free[0], page)
    ensures forall d: nat | IsDir(s, d) :: IsDir(t, d)
    ensures forall d: nat, v: nat | IsDir(s, d) && v < NVPN :: Leaf(t.mem, d, v) == Leaf(s.mem, d, v)
  {
    hide TreeOk, ListOk, Leaf;
    PoppedOk(s);
    SizedIf(Popped(s));
    FilledOk(Popped(s), s.free[0], page);
    SizedIf(t);
    forall d: nat | IsDir(s, d)
      ensures IsDir(t, d) && IsDir(Popped(s), d)
    {
    }
  }

  lemma SizedIf(s: State)
    requires ListOk(s)
    ensures Sized(s)
  {
  }

  lemma ExtendedIf(s: State, z: State, t: State, d: nat, v: nat, x: nat, page: Page, perm: nat)
    requires IsDir(s, d) && v < UVPN && perm < PGSIZE && Took(s, z, x, page) && Inv(t) && MapsTo(z, t, d, v, v + 1, x, perm)
    requires forall u: nat | u < NVPN :: Leaf(z.mem, d, u) == Leaf(s.mem, d, u)
    ensures Extended(s, t, d, v, page, perm + (1 - perm % 2))
  {
    assert Leaf(t.mem, d, v) == Entry(x, perm);
    assert LeafOk(t, d, v);
    hide Leaf, TreeOk, ListOk, Present, FrameOf, FlagsOf, Entry;
    forall p: nat | p < NPAGE && p != x
      ensures t.role[p] == s.role[p] || (s.role[p] == Free && t.role[p].Tab? && t.role[p].d == d)
      ensures s.role[p] != Free && p != d && !(s.role[p].Tab? && s.role[p].d == d) ==> t.mem[p] == s.mem[p]
    {
      assert RoleStep(z.role[p], t.role[p], p, d, v, v + 1, x);
    }
  }

  lemma StuckIf(s: State, z: State, t: State, d: nat, v: nat, x: nat, page: Page, perm: nat)
    requires IsDir(s, d) && v < UVPN && perm < PGSIZE && Took(s, z, x, page) && MapsTo(z, t, d, v, v, x, perm)
    requires forall u: nat | u < NVPN :: Leaf(z.mem, d, u) == Leaf(s.mem, d, u)
    ensures Stuck(s, t, d, x)
  {
    hide Leaf, Entry;
    forall p: nat | p < NPAGE
      ensures t.role[p] == z.role[p] || (z.role[p] == Free && t.role[p].Tab? && t.role[p].d == d)
    {
      assert RoleStep(z.role[p], t.role[p], p, d, v, v, x);
    }
  }

  /** Giving the page in hand back. */
  lemma StuckFreed(s: State, t: State, d: nat, x: nat)
    requires Apart(s, t, d, x) && ListOk(t) && x < NPAGE && s.role[x] == Free && t.role[x] == Other
    ensures Sized(Pushed(t, x)) && Apart(s, Pushed(t, x), d, -1)
  {
  }

  lemma NewAtKept(s: State, t: State, u: State, d: nat, w: nat, page: Page, flags: nat, v: nat, page': Page, flags': nat)
    requires Sized(s) && Sized(t) && NoneFreed(s, t) && Extended(t, u, d, v, page', flags') && w < NVPN && w != v
    requires NewAt(s, t, d, w, page, flags)
    ensures NewAt(s, u, d, w, page, flags)
  {
    hide Leaf, Present, FrameOf, FlagsOf;
    assert Leaf(u.mem, d, w) == Leaf(t.mem, d, w);
  }

  lemma NewAtSince(s: State, t: State, u: State, d: nat, v: nat, page: Page, flags: nat)
    requires Sized(s) && Sized(t) && NoneFreed(s, t) && Extended(t, u, d, v, page, flags)
    ensures NewAt(s, u, d, v, page, flags)
  {
    hide Leaf, Present, FrameOf, FlagsOf;
  }

  lemma MapsApart(s: State, t: State, d: nat, lo: nat, hi: nat, f: nat, perm: nat)
    requires UVPN <= lo <= hi && f + (hi - lo) <= NVPN && perm < PGSIZE && MapsTo(s, t, d, lo, hi, f, perm)
    ensures Apart(s, t, d, -1) && NoneFreed(s, t)
  {
    hide Leaf, Entry;
    forall p: nat | p < NPAGE
      ensures t.role[p] == s.role[p] || (s.role[p] == Free && t.role[p].Tab? && t.role[p].d == d)
    {
      assert RoleStep(s.role[p], t.role[p], p, d, lo, hi, f);
    }
  }
}

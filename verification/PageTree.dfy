/**
 Physical pages and the two-level page tables built out of them. Every page
 has one role; `TreeOk` says that roles and page-table entries agree in both
 directions, and `ListOk` that the free pages are the ones chained through
 their first words.
 */
module PageTree {
  const PGSIZE: nat := 4096
  const KERNBASE: nat := 0x8000_0000
  const PHYSTOP: nat := 0xE00_0000
  const NENT: nat := 1024

  /** Physical pages below PHYSTOP. */
  const NPAGE: nat := 57344

  /** Virtual pages, and those below KERNBASE. */
  const NVPN: nat := 0x10_0000
  const UVPN: nat := 0x8_0000

  type word = w: nat | w < 0x1_0000_0000

  type Page = p: seq<word> | |p| == 1024 witness seq(1024, _ => 0)

  function Fill(w: word, n: nat): (p: seq<word>)
    ensures |p| == n && forall k | 0 <= k < n :: p[k] == w
  {
    seq(n, _ => w)
  }

  /** A page of zeros, and the junk kfree fills a page with. */
  function ZeroPage(): Page { Fill(0, 1024) }
  function JunkPage(): Page { Fill(0x0101_0101, 1024) }

  /** An entry's PTE_P bit, its PTE_ADDR as a page number, its PTE_FLAGS. */
  predicate Present(e: word) { e % 2 == 1 }
  function FrameOf(e: word): nat { e / PGSIZE }
  function FlagsOf(e: word): nat { e % PGSIZE }

  /** A present entry for page f with the given permissions. */
  function Entry(f: nat, perm: nat): (e: word)
    requires f < NVPN && perm < PGSIZE
    ensures Present(e) && FrameOf(e) == f && FlagsOf(e) == perm + (1 - perm % 2)
  {
    f * PGSIZE + perm + (1 - perm % 2)
  }

  /** Kernel address of page p. */
  function Kva(p: nat): (v: word)
    requires p < NPAGE
    ensures v >= KERNBASE
  {
    KERNBASE + PGSIZE * p
  }

  /** The flags of every directory entry, PTE_P, PTE_W and PTE_U: what is allowed is left to the entry in the table. */
  const OPEN: nat := 7

  // ---------- Roles ----------

  /** Table i of directory d; user page number v of directory d; Other is any page handed out by kalloc for other use. */
  datatype Role = Kernel | Free | Other | Dir | Tab(d: nat, i: nat) | User(d: nat, v: nat)

  datatype State = State(first: nat, mem: seq<Page>, free: seq<nat>, role: seq<Role>)

  /** The address of the k-th page on the free list, 0 behind the last. */
  function Ptr(free: seq<nat>, k: nat): word
    requires forall j | 0 <= j < |free| :: free[j] < NPAGE
  {
    if k < |free| then Kva(free[k]) else 0
  }

  ghost predicate Sized(s: State) {
    && |s.mem| == |s.role| == NPAGE && 0 < s.first <= NPAGE
    && forall p: nat | p < NPAGE :: s.role[p] == Kernel <==> p < s.first
  }

  /** The first word of the k-th free page leads to the next one. */
  ghost predicate Linked(s: State, k: nat)
    requires Sized(s) && k < |s.free| && forall j | 0 <= j < |s.free| :: s.free[j] < NPAGE
  {
    s.mem[s.free[k]][0] == Ptr(s.free, k + 1)
  }

  ghost predicate ListOk(s: State) {
    && Sized(s)
    && (forall k | 0 <= k < |s.free| :: s.free[k] < NPAGE && s.role[s.free[k]] == Free)
    && (forall k | 0 <= k < |s.free| :: Linked(s, k))
    && (forall j, k | 0 <= j < k < |s.free| :: s.free[j] != s.free[k])
    && (forall p: nat | p < NPAGE && s.role[p] == Free :: p in s.free)
  }

  /** The entry for virtual page v under directory d, 0 where there is no table. */
  function Leaf(mem: seq<Page>, d: nat, v: nat): word
    requires d < |mem| && v < NVPN
  {
    var e := mem[d][v / NENT];
    if Present(e) && FrameOf(e) < |mem| then mem[FrameOf(e)][v % NENT] else 0
  }

  ghost predicate IsDir(s: State, d: nat) {
    d < |s.role| && s.role[d] == Dir
  }

  ghost predicate PdeOk(s: State, d: nat, i: nat)
    requires Sized(s) && d < NPAGE && i < NENT
  {
    Present(s.mem[d][i]) ==>
      FrameOf(s.mem[d][i]) < NPAGE && s.role[FrameOf(s.mem[d][i])] == Tab(d, i) && FlagsOf(s.mem[d][i]) == OPEN
  }

  ghost predicate LeafOk(s: State, d: nat, v: nat)
    requires Sized(s) && d < NPAGE && v < UVPN
  {
    Present(Leaf(s.mem, d, v)) ==>
      FrameOf(Leaf(s.mem, d, v)) < NPAGE && s.role[FrameOf(Leaf(s.mem, d, v))] == User(d, v)
  }

  ghost predicate RoleOk(s: State, p: nat)
    requires Sized(s) && p < NPAGE
  {
    match s.role[p]
    case Tab(d, i) => IsDir(s, d) && i < NENT && Present(s.mem[d][i]) && FrameOf(s.mem[d][i]) == p
    case User(d, v) => IsDir(s, d) && v < UVPN && Present(Leaf(s.mem, d, v)) && FrameOf(Leaf(s.mem, d, v)) == p
    case _ => true
  }

  ghost predicate TreeOk(s: State) {
    && Sized(s)
    && (forall p: nat | p < NPAGE :: RoleOk(s, p))
    && (forall d: nat, i: nat | IsDir(s, d) && i < NENT :: PdeOk(s, d, i))
    && (forall d: nat, v: nat | IsDir(s, d) && v < UVPN :: LeafOk(s, d, v))
  }

  ghost predicate Inv(s: State) {
    ListOk(s) && TreeOk(s)
  }

  /**
   The invariant in its own words: a user page is reached from one entry only,
   a table from one directory entry only, and neither is free or a directory.
   */
  lemma OneRoleEach(s: State, d: nat, i: nat, v: nat, d': nat, i': nat, v': nat)
    requires Inv(s) && IsDir(s, d) && IsDir(s, d') && i < NENT && i' < NENT && v < UVPN && v' < UVPN
    ensures var e, e' := Leaf(s.mem, d, v), Leaf(s.mem, d', v');
            Present(e) && Present(e') && FrameOf(e) == FrameOf(e') ==> d == d' && v == v'
    ensures var e, e' := s.mem[d][i], s.mem[d'][i'];
            Present(e) && Present(e') && FrameOf(e) == FrameOf(e') ==> d == d' && i == i'
    ensures Present(Leaf(s.mem, d, v)) ==>
              var p := FrameOf(Leaf(s.mem, d, v));
              s.first <= p < NPAGE && p !in s.free && !IsDir(s, p) && (Present(s.mem[d'][i']) ==> FrameOf(s.mem[d'][i']) != p)
    ensures Present(s.mem[d][i]) ==>
              var p := FrameOf(s.mem[d][i]);
              s.first <= p < NPAGE && p !in s.free && !IsDir(s, p)
  {
    hide Leaf, Present, FrameOf;
    assert PdeOk(s, d, i) && PdeOk(s, d', i') && LeafOk(s, d, v) && LeafOk(s, d', v');
  }

  // ---------- Access ----------

  /** The processor's test for user mode: PTE_P and PTE_U (bits 0 and 2) at both levels. */
  predicate UserMayRead(mem: seq<Page>, d: nat, v: nat)
    requires d < |mem| && v < NVPN
  {
    var p, e := mem[d][v / NENT], Leaf(mem, d, v);
    p % 2 == 1 && p / 4 % 2 == 1 && e % 2 == 1 && e / 4 % 2 == 1
  }

  /** And for writing also PTE_W (bit 1) at both levels. */
  predicate UserMayWrite(mem: seq<Page>, d: nat, v: nat)
    requires d < |mem| && v < NVPN
  {
    UserMayRead(mem, d, v) && mem[d][v / NENT] / 2 % 2 == 1 && Leaf(mem, d, v) / 2 % 2 == 1
  }

  lemma FlagBits(e: word)
    ensures e % 2 == FlagsOf(e) % 2 && e / 2 % 2 == FlagsOf(e) / 2 % 2 && e / 4 % 2 == FlagsOf(e) / 4 % 2
  {
    var q, f := FrameOf(e), FlagsOf(e);
    assert e == 4096 * q + f;
    hide FrameOf, FlagsOf;
    EvenRest(2048 * q, f);
    assert e / 2 == 2048 * q + f / 2;
    EvenRest(1024 * q, f / 2);
    assert e / 4 == 1024 * q + f / 4;
    EvenRest(512 * q, f / 4);
  }

  lemma EvenRest(k: nat, r: nat)
    ensures (2 * k + r) % 2 == r % 2
  {
  }

  /** Directory entries deny nothing, so the entry in the table decides. */
  lemma LeafDecides(s: State, d: nat, v: nat)
    requires TreeOk(s) && IsDir(s, d) && v < NVPN
    ensures var f := FlagsOf(Leaf(s.mem, d, v));
            && (UserMayRead(s.mem, d, v) <==> f % 2 == 1 && f / 4 % 2 == 1)
            && (UserMayWrite(s.mem, d, v) <==> f % 2 == 1 && f / 4 % 2 == 1 && f / 2 % 2 == 1)
  {
    assert PdeOk(s, d, v / NENT);
    FlagBits(s.mem[d][v / NENT]);
    FlagBits(Leaf(s.mem, d, v));
  }

  // ---------- Changing pages ----------

  predicate Idle(r: Role) {
    r == Free || r == Other
  }

  /** Pages of other roles keep them, and tables and directories keep their contents. */
  ghost predicate TreeKept(s: State, s': State)
    requires Sized(s) && Sized(s')
  {
    forall p: nat | p < NPAGE ::
      && (if Idle(s.role[p]) then Idle(s'.role[p]) else s'.role[p] == s.role[p])
      && (s.role[p] == Dir || s.role[p].Tab? ==> s'.mem[p] == s.mem[p])
  }

  /** Entries of a directory hang on its own page and its own tables. */
  lemma LeafFrame(s: State, mem': seq<Page>, d: nat)
    requires TreeOk(s) && IsDir(s, d) && |mem'| == NPAGE && mem'[d] == s.mem[d]
    requires forall p: nat | p < NPAGE && s.role[p].Tab? && s.role[p].d == d :: mem'[p] == s.mem[p]
    ensures forall v: nat | v < NVPN :: Leaf(mem', d, v) == Leaf(s.mem, d, v)
  {
    hide Present, FrameOf;
    forall v: nat | v < NVPN ensures Leaf(mem', d, v) == Leaf(s.mem, d, v) {
      assert PdeOk(s, d, v / NENT);
    }
  }

  lemma TreeKeptOk(s: State, s': State)
    requires TreeOk(s) && Sized(s') && TreeKept(s, s')
    ensures TreeOk(s')
    ensures forall d: nat, v: nat | IsDir(s, d) && v < NVPN :: Leaf(s'.mem, d, v) == Leaf(s.mem, d, v)
  {
    hide Present, FrameOf, Leaf;
    forall d: nat, v: nat | IsDir(s, d) && v < NVPN ensures Leaf(s'.mem, d, v) == Leaf(s.mem, d, v) {
      LeafFrame(s, s'.mem, d);
    }
    forall p: nat | p < NPAGE ensures RoleOk(s', p) { assert RoleOk(s, p); }
    forall d: nat, i: nat | IsDir(s', d) && i < NENT ensures PdeOk(s', d, i) { assert IsDir(s, d) && PdeOk(s, d, i); }
    forall d: nat, v: nat | IsDir(s', d) && v < UVPN ensures LeafOk(s', d, v) { assert IsDir(s, d) && LeafOk(s, d, v); }
  }

  lemma ListFrame(s: State, s': State)
    requires ListOk(s) && Sized(s') && s'.free == s.free
    requires forall p: nat | p < NPAGE :: (s'.role[p] == Free <==> s.role[p] == Free) && (s.role[p] == Free ==> s'.mem[p] == s.mem[p])
    ensures ListOk(s')
  {
    forall k | 0 <= k < |s.free| ensures Linked(s', k) {
      assert Linked(s, k);
    }
  }

  /** Page p in front of the free list. */
  ghost function Pushed(s: State, p: nat): State
    requires ListOk(s) && p < NPAGE
  {
    s.(mem := s.mem[p := JunkPage()[0 := Ptr(s.free, 0)]], free := [p] + s.free, role := s.role[p := Free])
  }

  /** The first page taken off the free list. */
  ghost function Popped(s: State): State
    requires ListOk(s) && s.free != []
  {
    s.(free := s.free[1..], role := s.role[s.free[0] := Other])
  }

  lemma PushedEntries(s: State, p: nat)
    requires ListOk(s) && s.first <= p < NPAGE && s.role[p] != Free
    ensures var s' := Pushed(s, p);
            && Sized(s') && s'.free[0] == p
            && (forall k | 0 <= k < |s.free| :: s'.free[k + 1] == s.free[k] && s.free[k] != p)
            && (forall k | 0 <= k < |s'.free| :: s'.free[k] < NPAGE && s'.role[s'.free[k]] == Free)
  {
    hide Linked, Ptr;
    var s' := Pushed(s, p);
    forall k | 0 <= k < |s'.free| ensures s'.free[k] < NPAGE && s'.role[s'.free[k]] == Free {
      if k > 0 {
        assert s.role[s.free[k - 1]] == Free;
      }
    }
  }

  lemma PushedLinks(s: State, p: nat, k: nat)
    requires ListOk(s) && s.first <= p < NPAGE && s.role[p] != Free && k <= |s.free|
    requires Sized(Pushed(s, p)) && forall j | 0 <= j < |Pushed(s, p).free| :: Pushed(s, p).free[j] < NPAGE
    ensures Linked(Pushed(s, p), k)
  {
    if k > 0 {
      assert s.role[s.free[k - 1]] == Free;
      assert Linked(s, k - 1);
    }
  }

  lemma PushedList(s: State, p: nat)
    requires ListOk(s) && s.first <= p < NPAGE && s.role[p] != Free
    ensures ListOk(Pushed(s, p))
  {
    hide Linked, Ptr;
    PushedEntries(s, p);
    var s' := Pushed(s, p);
    forall k | 0 <= k < |s'.free| ensures Linked(s', k) {
      PushedLinks(s, p, k);
    }
    forall j, k | 0 <= j < k < |s'.free| ensures s'.free[j] != s'.free[k] {
      assert s'.free[k] == s.free[k - 1];
      if j > 0 {
        assert s'.free[j] == s.free[j - 1];
      }
    }
    forall q: nat | q < NPAGE && s'.role[q] == Free ensures q in s'.free {
      if q != p {
        var k :| 0 <= k < |s.free| && s.free[k] == q;
        assert s'.free[k + 1] == q;
      }
    }
  }

  lemma PoppedEntries(s: State)
    requires ListOk(s) && s.free != []
    ensures var s' := Popped(s);
            && Sized(s') && s.first <= s.free[0] < NPAGE && s.role[s.free[0]] == Free
            && forall k | 0 <= k < |s'.free| :: s'.free[k] == s.free[k + 1] && s'.free[k] < NPAGE && s'.role[s'.free[k]] == Free
  {
    hide Linked, Ptr;
    var s' := Popped(s);
    assert s.role[s.free[0]] == Free;
    forall k | 0 <= k < |s'.free|
      ensures s'.free[k] == s.free[k + 1] && s'.free[k] < NPAGE && s'.role[s'.free[k]] == Free
    {
      assert s.free[k + 1] != s.free[0];
    }
  }

  lemma PoppedList(s: State)
    requires ListOk(s) && s.free != []
    ensures ListOk(Popped(s)) && Sized(s) && Sized(Popped(s)) && s.first <= s.free[0] < NPAGE && s.role[s.free[0]] == Free
    ensures s.mem[s.free[0]][0] == Ptr(Popped(s).free, 0)
  {
    PoppedEntries(s);
    var s' := Popped(s);
    assert Linked(s, 0);
    forall k | 0 <= k < |s'.free| ensures Linked(s', k) {
      assert Linked(s, k + 1);
    }
    hide Linked, Ptr;
    forall q: nat | q < NPAGE && s'.role[q] == Free ensures q in s'.free {
      var k :| 0 <= k < |s.free| && s.free[k] == q;
      assert s'.free[k - 1] == q;
    }
  }

  lemma PushedOk(s: State, p: nat)
    requires Inv(s) && p < NPAGE && s.role[p] == Other
    ensures Inv(Pushed(s, p))
    ensures forall d: nat, v: nat | IsDir(s, d) && v < NVPN :: Leaf(Pushed(s, p).mem, d, v) == Leaf(s.mem, d, v)
  {
    hide RoleOk, PdeOk, LeafOk, Leaf;
    PushedList(s, p);
    TreeKeptOk(s, Pushed(s, p));
  }

  lemma PoppedOk(s: State)
    requires Inv(s) && s.free != []
    ensures Inv(Popped(s)) && s.first <= s.free[0] < NPAGE && s.role[s.free[0]] == Free
  {
    hide RoleOk, PdeOk, LeafOk, Leaf, ListOk, Ptr;
    PoppedList(s);
    TreeKeptOk(s, Popped(s));
  }

  /** Filling a page that is in nobody's page table. */
  lemma FilledOk(s: State, p: nat, page: Page)
    requires Inv(s) && p < NPAGE && s.role[p] == Other
    ensures Inv(s.(mem := s.mem[p := page]))
    ensures forall d: nat, v: nat | IsDir(s, d) && v < NVPN :: Leaf(s.mem[p := page], d, v) == Leaf(s.mem, d, v)
  {
    hide RoleOk, PdeOk, LeafOk, Leaf;
    var s' := s.(mem := s.mem[p := page]);
    ListFrame(s, s');
    TreeKeptOk(s, s');
  }

  /** A zeroed page becomes a page directory. */
  ghost function AsDir(s: State, d: nat): State
    requires d < |s.role|
  {
    s.(role := s.role[d := Dir])
  }

  lemma ZeroEntry()
    ensures forall i | 0 <= i < 1024 :: !Present(ZeroPage()[i])
    ensures !Present(0)
  {
  }

  lemma AsDirOk(s: State, d: nat)
    requires Inv(s) && d < NPAGE && s.role[d] == Other && s.mem[d] == ZeroPage()
    ensures Inv(AsDir(s, d)) && forall v: nat | v < NVPN :: Leaf(s.mem, d, v) == 0
  {
    ZeroEntry();
    hide Present;
    var s' := AsDir(s, d);
    forall v: nat | v < NVPN ensures Leaf(s.mem, d, v) == 0 {}
    hide Leaf;
    ListFrame(s, s');
    forall p: nat | p < NPAGE ensures RoleOk(s', p) { assert RoleOk(s, p); }
    forall e: nat, i: nat | IsDir(s', e) && i < NENT ensures PdeOk(s', e, i) {
      if e != d { assert IsDir(s, e) && PdeOk(s, e, i); }
    }
    forall e: nat, v: nat | IsDir(s', e) && v < UVPN ensures LeafOk(s', e, v) {
      if e != d { assert IsDir(s, e) && LeafOk(s, e, v); }
    }
  }

  /** A zeroed page becomes the i-th table of directory d. */
  ghost function AsTab(s: State, d: nat, i: nat, t: nat): State
    requires Sized(s) && d < NPAGE && i < NENT && t < NPAGE
  {
    s.(mem := s.mem[d := s.mem[d][i := Entry(t, 6)]], role := s.role[t := Tab(d, i)])
  }

  lemma AsTabLeaf(s: State, d: nat, i: nat, t: nat)
    requires TreeOk(s) && IsDir(s, d) && i < NENT && !Present(s.mem[d][i])
    requires t < NPAGE && s.role[t] == Other && s.mem[t] == ZeroPage()
    ensures forall e: nat, v: nat | IsDir(s, e) && v < NVPN :: Leaf(AsTab(s, d, i, t).mem, e, v) == Leaf(s.mem, e, v)
  {
    ZeroEntry();
    hide FrameOf, Present;
    var s' := AsTab(s, d, i, t);
    forall e: nat, v: nat | IsDir(s, e) && v < NVPN
      ensures Leaf(s'.mem, e, v) == Leaf(s.mem, e, v)
    {
      assert PdeOk(s, e, v / NENT);
      if e == d && v / NENT == i {
        assert s'.mem[d][i] == Entry(t, 6);
        assert s'.mem[t] == ZeroPage();
      }
    }
  }

  lemma AsTabOk(s: State, d: nat, i: nat, t: nat)
    requires Inv(s) && IsDir(s, d) && i < NENT && !Present(s.mem[d][i])
    requires t < NPAGE && s.role[t] == Other && s.mem[t] == ZeroPage()
    ensures Inv(AsTab(s, d, i, t))
    ensures forall e: nat, v: nat | IsDir(s, e) && v < NVPN :: Leaf(AsTab(s, d, i, t).mem, e, v) == Leaf(s.mem, e, v)
  {
    AsTabLeaf(s, d, i, t);
    hide FrameOf, Present, Leaf, Entry;
    var s' := AsTab(s, d, i, t);
    assert s'.mem[d][i] == Entry(t, 6);
    ListFrame(s, s');
    forall p: nat | p < NPAGE ensures RoleOk(s', p) { assert RoleOk(s, p); }
    forall e: nat, k: nat | IsDir(s', e) && k < NENT ensures PdeOk(s', e, k) { assert IsDir(s, e) && PdeOk(s, e, k); }
    forall e: nat, v: nat | IsDir(s', e) && v < UVPN ensures LeafOk(s', e, v) { assert IsDir(s, e) && LeafOk(s, e, v); }
  }

  /** The entry of virtual page v, whose table is there, replaced by w. */
  function PutLeaf(mem: seq<Page>, d: nat, v: nat, w: word): seq<Page>
    requires |mem| == NPAGE && d < NPAGE && v < NVPN && FrameOf(mem[d][v / NENT]) < NPAGE
  {
    var t := FrameOf(mem[d][v / NENT]);
    mem[t := mem[t][v % NENT := w]]
  }

  /** Entries are independent: one changes, every other of every directory stays. */
  lemma PutLeafAt(s: State, d: nat, v: nat, w: word)
    requires TreeOk(s) && IsDir(s, d) && v < NVPN && Present(s.mem[d][v / NENT])
    ensures FrameOf(s.mem[d][v / NENT]) < NPAGE && s.role[FrameOf(s.mem[d][v / NENT])] == Tab(d, v / NENT)
    ensures forall e: nat, u: nat | IsDir(s, e) && u < NVPN ::
              Leaf(PutLeaf(s.mem, d, v, w), e, u) == if e == d && u == v then w else Leaf(s.mem, e, u)
  {
    hide FrameOf, Present;
    assert PdeOk(s, d, v / NENT);
    var t := FrameOf(s.mem[d][v / NENT]);
    var mem' := PutLeaf(s.mem, d, v, w);
    forall e: nat, u: nat | IsDir(s, e) && u < NVPN
      ensures Leaf(mem', e, u) == if e == d && u == v then w else Leaf(s.mem, e, u)
    {
      assert PdeOk(s, e, u / NENT);
      assert mem'[e] == s.mem[e];
      SameSplit(u, v);
    }
  }

  lemma SameSplit(u: nat, v: nat)
    ensures u == v <==> u / NENT == v / NENT && u % NENT == v % NENT
  {
  }

  /** Page p, in hand until now, is mapped at v; or an entry above KERNBASE, which owns nothing, is set. */
  ghost function MapLeaf(s: State, d: nat, v: nat, w: word): State
    requires Sized(s) && d < NPAGE && v < NVPN && FrameOf(s.mem[d][v / NENT]) < NPAGE
    requires v < UVPN ==> FrameOf(w) < NPAGE
  {
    s.(mem := PutLeaf(s.mem, d, v, w), role := if v < UVPN then s.role[FrameOf(w) := User(d, v)] else s.role)
  }

  lemma MapLeafTree(s: State, d: nat, v: nat, w: word)
    requires TreeOk(s) && IsDir(s, d) && v < NVPN && Present(s.mem[d][v / NENT]) && Present(w) && !Present(Leaf(s.mem, d, v))
    requires v < UVPN ==> FrameOf(w) < NPAGE && s.role[FrameOf(w)] == Other
    ensures FrameOf(s.mem[d][v / NENT]) < NPAGE && s.role[FrameOf(s.mem[d][v / NENT])] == Tab(d, v / NENT)
    ensures TreeOk(MapLeaf(s, d, v, w))
    ensures forall e: nat, u: nat | IsDir(s, e) && u < NVPN ::
              Leaf(MapLeaf(s, d, v, w).mem, e, u) == if e == d && u == v then w else Leaf(s.mem, e, u)
  {
    PutLeafAt(s, d, v, w);
    hide FrameOf, Present, Leaf;
    var s' := MapLeaf(s, d, v, w);
    forall p: nat | p < NPAGE ensures RoleOk(s', p) { assert RoleOk(s, p); }
    forall e: nat, k: nat | IsDir(s', e) && k < NENT ensures PdeOk(s', e, k) { assert IsDir(s, e) && PdeOk(s, e, k); }
    forall e: nat, u: nat | IsDir(s', e) && u < UVPN ensures LeafOk(s', e, u) { assert IsDir(s, e) && LeafOk(s, e, u); }
  }

  lemma MapLeafOk(s: State, d: nat, v: nat, w: word)
    requires Inv(s) && IsDir(s, d) && v < NVPN && Present(s.mem[d][v / NENT]) && Present(w) && !Present(Leaf(s.mem, d, v))
    requires v < UVPN ==> FrameOf(w) < NPAGE && s.role[FrameOf(w)] == Other
    ensures FrameOf(s.mem[d][v / NENT]) < NPAGE && s.role[FrameOf(s.mem[d][v / NENT])] == Tab(d, v / NENT)
    ensures Inv(MapLeaf(s, d, v, w))
    ensures forall e: nat, u: nat | IsDir(s, e) && u < NVPN ::
              Leaf(MapLeaf(s, d, v, w).mem, e, u) == if e == d && u == v then w else Leaf(s.mem, e, u)
  {
    MapLeafTree(s, d, v, w);
    hide FrameOf, Present, Leaf, ListOk, RoleOk, PdeOk, LeafOk;
    ListFrame(s, MapLeaf(s, d, v, w));
  }

  /** The page mapped at v is pushed on the free list and its entry cleared, in that order. */
  ghost function Unmapped(s: State, d: nat, v: nat): State
    requires Inv(s) && IsDir(s, d) && v < UVPN && Present(s.mem[d][v / NENT]) && Present(Leaf(s.mem, d, v))
  {
    assert PdeOk(s, d, v / NENT) && LeafOk(s, d, v);
    var f := Pushed(s, FrameOf(Leaf(s.mem, d, v)));
    f.(mem := PutLeaf(f.mem, d, v, 0))
  }

  /** An entry is cleared; its page is then in hand. */
  lemma ClearedOk(s: State, d: nat, v: nat, p: nat)
    requires Inv(s) && IsDir(s, d) && v < UVPN && Present(s.mem[d][v / NENT]) && p < NPAGE && s.role[p] == User(d, v)
    ensures FrameOf(s.mem[d][v / NENT]) < NPAGE && s.role[FrameOf(s.mem[d][v / NENT])] == Tab(d, v / NENT)
    ensures Inv(s.(mem := PutLeaf(s.mem, d, v, 0), role := s.role[p := Other]))
    ensures forall e: nat, u: nat | IsDir(s, e) && u < NVPN ::
              Leaf(PutLeaf(s.mem, d, v, 0), e, u) == if e == d && u == v then 0 else Leaf(s.mem, e, u)
  {
    ZeroEntry();
    hide FrameOf, Present;
    PutLeafAt(s, d, v, 0);
    assert RoleOk(s, p);
    hide Leaf;
    var c := s.(mem := PutLeaf(s.mem, d, v, 0), role := s.role[p := Other]);
    forall q: nat | q < NPAGE ensures RoleOk(c, q) { assert RoleOk(s, q); }
    forall e: nat, k: nat | IsDir(c, e) && k < NENT ensures PdeOk(c, e, k) { assert IsDir(s, e) && PdeOk(s, e, k); }
    forall e: nat, u: nat | IsDir(c, e) && u < UVPN ensures LeafOk(c, e, u) { assert IsDir(s, e) && LeafOk(s, e, u); }
    ListFrame(s, c);
  }

  lemma UnmappedOk(s: State, d: nat, v: nat)
    requires Inv(s) && IsDir(s, d) && v < UVPN && Present(s.mem[d][v / NENT]) && Present(Leaf(s.mem, d, v))
    ensures Inv(Unmapped(s, d, v))
    ensures forall e: nat, u: nat | IsDir(s, e) && u < NVPN ::
              Leaf(Unmapped(s, d, v).mem, e, u) == if e == d && u == v then 0 else Leaf(s.mem, e, u)
  {
    assert LeafOk(s, d, v);
    var p := FrameOf(Leaf(s.mem, d, v));
    ClearedOk(s, d, v, p);
    hide RoleOk, PdeOk, LeafOk, FrameOf, Present, Leaf;
    var c := s.(mem := PutLeaf(s.mem, d, v, 0), role := s.role[p := Other]);
    hide ListOk;
    PushedOk(c, p);
    assert Unmapped(s, d, v) == Pushed(c, p);
  }
}

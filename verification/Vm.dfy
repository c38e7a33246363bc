/**
 kalloc.c and vm.c: the free list of physical pages and the page-table
 operations. A pgdir pointer is the number of its page, 0 standing for the
 null pointer; free-list links and kalloc's results are kernel addresses.
 */
module Vm {
  import opened Basics
  import opened PageTree
  import opened VmSpec
  import opened VmCount

  const EXTMEM: nat := 0x10_0000
  const DEVSPACE: nat := 0xFE00_0000
  const PTE_W: nat := 2
  const PTE_U: nat := 4

  datatype Res = Done | Fail | Panic

  function RoundUp(a: nat): nat { (a + PGSIZE - 1) / PGSIZE * PGSIZE }

  lemma RoundUpFacts(a: nat)
    ensures RoundUp(a) % PGSIZE == 0 && a <= RoundUp(a) < a + PGSIZE
  {
  }

  /** PDX and PTX of an address are the two parts of its page number. */
  function Pdx(va: nat): nat { va / (PGSIZE * NENT) % NENT }
  function Ptx(va: nat): nat { va / PGSIZE % NENT }

  lemma Split(va: nat)
    requires va < U32
    ensures Pdx(va) == va / PGSIZE / NENT < NENT && Ptx(va) == va / PGSIZE % NENT && va / PGSIZE < NVPN
  {
    assert va / (PGSIZE * NENT) == va / PGSIZE / NENT;
  }

  function PageOf(v: nat): nat
    requires v >= KERNBASE
  {
    (v - KERNBASE) / PGSIZE
  }

  /** The first page that lies wholly behind the kernel image. */
  function FirstPage(end: nat): nat {
    if end < KERNBASE then 0 else PageOf(RoundUp(end))
  }

  /** The address of a page-table entry: word j of page t. */
  datatype PtePtr = Null | At(t: nat, j: nat)

  class Memory {
    /** First address behind the kernel image, and the kernel's `data` symbol. */
    const end: nat
    const data: nat
    var mem: seq<Page>
    var freelist: nat
    ghost var free: seq<nat>
    ghost var role: seq<Role>

    /** Memory before kinit1: every page behind the kernel image is in hand. */
    constructor (end: nat, data: nat, mem: seq<Page>)
      requires KERNBASE + EXTMEM < data < end <= KERNBASE + PHYSTOP && data % PGSIZE == 0 && |mem| == NPAGE
      ensures Valid() && this.end == end && this.data == data && this.mem == mem && free == []
      ensures forall p: nat | FirstPage(end) <= p < NPAGE :: role[p] == Other
    {
      this.end, this.data, this.mem, freelist, free := end, data, mem, 0, [];
      role := seq(NPAGE, p => if p < FirstPage(end) then Kernel else Other);
    }

    ghost function Now(): State
      reads this
    {
      State(FirstPage(end), mem, free, role)
    }

    ghost predicate Good()
      reads this
    {
      && KERNBASE + EXTMEM < data < end <= KERNBASE + PHYSTOP && data % PGSIZE == 0
      && ListOk(Now()) && freelist == Ptr(free, 0)
    }

    ghost predicate Valid()
      reads this
    {
      Good() && TreeOk(Now())
    }

    lemma SizedNow()
      requires Good()
      ensures Sized(Now())
    {
    }

    /** kfree: panics on what is no page of free memory, otherwise pushes the page. */
    method KFree(v: nat) returns (ok: bool)
      requires Good()
      requires v % PGSIZE == 0 && end <= v < KERNBASE + PHYSTOP ==> role[PageOf(v)] != Free
      modifies this
      ensures Good() && (ok <==> v % PGSIZE == 0 && end <= v < KERNBASE + PHYSTOP)
      ensures Now() == if ok then Pushed(old(Now()), PageOf(v)) else old(Now())
      // the page is filled with ones, and its first word leads to the page freed before
      ensures ok ==>
                && freelist == v && |mem| == NPAGE && PageOf(v) < NPAGE && mem[PageOf(v)][0] == old(freelist)
                && (forall k: nat | 1 <= k < 1024 :: mem[PageOf(v)][k] == 0x0101_0101)
                && mem == old(mem)[PageOf(v) := mem[PageOf(v)]]
    {
      if v % PGSIZE != 0 || v < end || v - KERNBASE >= PHYSTOP {
        return false;
      }
      ghost var s := Now();
      var p := PageOf(v);
      assert v == Kva(p);
      PushedList(s, p);
      mem := mem[p := JunkPage()];
      mem := mem[p := mem[p][0 := freelist]];
      freelist := v;
      free := [p] + free;
      role := role[p := Free];
      assert Now() == Pushed(s, p);
      return true;
    }

    /** kalloc: pops a page; 0 exactly when none is left. */
    method KAlloc() returns (v: nat)
      requires Good()
      modifies this
      ensures Good() && (v == 0 <==> old(free) == [])
      ensures v == 0 ==> Now() == old(Now())
      ensures v != 0 ==> v == Kva(old(free)[0]) && Now() == Popped(old(Now()))
    {
      hide ListOk, Kva;
      v := freelist;
      HeadIs(Now());
      if v != 0 {
        ghost var s := Now();
        PoppedList(s);
        freelist := mem[PageOf(v)][0];
        role := role[free[0] := Other];
        free := free[1..];
        assert Now() == Popped(s);
      }
    }

    /** freerange: every whole page between the two addresses is freed. */
    method FreeRange(vstart: nat, vend: nat) returns (ok: bool)
      requires Valid() && end <= vstart <= vend <= KERNBASE + PHYSTOP
      requires forall p: nat | p < NPAGE && Whole(p, vstart, vend) :: role[p] == Other
      modifies this
      ensures ok && Valid() && RangeFreed(old(Now()), Now(), vstart, vend)
    {
      hide TreeOk, ListOk, RangeFreed, Kva, Whole, RoundUp, Pushed, Ptr;
      ghost var s := Now();
      SizedNow();
      RoundUpFacts(vstart);
      var p := RoundUp(vstart);
      RangeEmpty(s, vstart, p);
      ok := true;
      while p + PGSIZE <= vend && ok
        invariant ok && Valid() && p % PGSIZE == 0 && vstart <= p && (p < vstart + PGSIZE || p <= vend)
        invariant RangeFreed(s, Now(), vstart, p)
      {
        ghost var t := Now();
        RangeTurn(s, t, vstart, p, vend);
        PushedOk(t, PageOf(p));
        ok := KFree(p);
        p := p + PGSIZE;
      }
      RangeDone(s, Now(), vstart, p, vend);
    }

    /** walkpgdir: the entry for va; without alloc it changes nothing, with alloc it may add a table. */
    method Walk(d: nat, va: nat, alloc: bool) returns (r: PtePtr)
      requires Valid() && IsDir(Now(), d) && va < U32
      modifies this
      ensures Valid() && IsDir(Now(), d)
      ensures Now() == if alloc then Walked(old(Now()), d, Pdx(va)) else old(Now())
      ensures r == Null <==> !Present(old(mem)[d][Pdx(va)]) && (!alloc || old(free) == [])
      ensures r != Null ==> Present(mem[d][Pdx(va)]) && r == At(FrameOf(mem[d][Pdx(va)]), Ptx(va))
      ensures r != Null ==> r.t < NPAGE && r.j < NENT && role[r.t] == Tab(d, Pdx(va))
      ensures r != Null ==> FlagsOf(mem[d][Pdx(va)]) == 1 + PTE_W + PTE_U
    {
      hide TreeOk, ListOk, Leaf, Present, FrameOf, Entry;
      ghost var s := Now();
      SizedNow();
      Split(va);
      var i := Pdx(va);
      WalkedOk(s, d, i);
      TableThere(s, d, i);
      var e := mem[d][i];
      if Present(e) {
        return At(FrameOf(e), Ptx(va));
      }
      if !alloc { return Null; }
      var v := KAlloc();
      if v == 0 { return Null; }
      PoppedOk(s);
      var t := PageOf(v);
      mem := mem[t := ZeroPage()];
      mem := mem[d := mem[d][i := Entry(t, PTE_W + PTE_U)]];
      role := role[t := Tab(d, i)];
      assert Now() == Walked(s, d, i);
      return At(t, Ptx(va));
    }
  
    /** One turn of mappages' loop, as part of a mapping from page lo on that has reached page m. */
    method MapOne(d: nat, a: nat, pa: nat, perm: nat, ghost s: State, ghost lo: nat, ghost f: nat) returns (r: Res)
      requires Valid() && a < U32 && a % PGSIZE == 0 && pa < U32 && pa % PGSIZE == 0 && perm < PGSIZE
      requires lo <= a / PGSIZE && f + (a / PGSIZE - lo) == pa / PGSIZE
      requires MapsTo(s, Now(), d, lo, a / PGSIZE, f, perm) && InHand(s, lo, a / PGSIZE + 1, f)
      requires Tabled(s, Now(), d, lo, a / PGSIZE)
      modifies this
      ensures Valid()
      ensures r == Done ==> MapsTo(s, Now(), d, lo, a / PGSIZE + 1, f, perm) && Tabled(s, Now(), d, lo, a / PGSIZE + 1)
      ensures r != Done ==> MapsTo(s, Now(), d, lo, a / PGSIZE, f, perm)
      ensures r == Fail ==> free == [] && |s.mem| == NPAGE && |s.free| < NewTabs(s.mem, d, lo, a / PGSIZE + 1)
      ensures r == Panic ==> Present(Leaf(s.mem, d, a / PGSIZE))
    {
      hide Leaf, ListOk, TreeOk, MapsTo, Present, FrameOf, Entry, Tabled, NewTabs;
      ghost var t, m := Now(), a / PGSIZE;
      MapsDir(s, t, d, lo, m, f, perm);
      Split(a);
      TabledNext(s, t, d, lo, m);
      var pte := Walk(d, a, true);
      ghost var u := Now();
      WalkedOk(t, d, Pdx(a));
      if pte == Null {
        return Fail;
      }
      MapsWalk(s, t, u, d, lo, m, f, perm);
      LeafThere(u, d, a / PGSIZE);
      MapsDir(s, u, d, lo, m, f, perm);
      if Present(mem[pte.t][pte.j]) {
        return Panic;
      }
      InHandStill(s, u, d, lo, m, m + 1, f, perm);
      MapsMore(s, u, d, lo, m, f, perm);
      mem := mem[pte.t := mem[pte.t][pte.j := Entry(pa / PGSIZE, perm)]];
      if m < UVPN {
        role := role[pa / PGSIZE := User(d, m)];
      }
      assert Now() == MapLeaf(u, d, m, Entry(f + (m - lo), perm));
      TabledMore(s, t, u, Now(), d, lo, m);
      return Done;
    }

    /**
     mappages: all pages of the range are mapped, or there were fewer free pages
     than missing tables, or an entry of the range was present already; m tells
     how far it came.
     */
    method MapPages(d: nat, va: nat, size: nat, pa: nat, perm: nat) returns (r: Res, ghost m: nat)
      requires Valid() && IsDir(Now(), d) && size >= 1 && va + size <= U32 && pa % PGSIZE == 0 && perm < PGSIZE
      requires pa / PGSIZE + Pages(va, size) <= NVPN
      requires InHand(Now(), va / PGSIZE, va / PGSIZE + Pages(va, size), pa / PGSIZE)
      modifies this
      ensures Valid() && va / PGSIZE <= m <= va / PGSIZE + Pages(va, size)
      ensures MapsTo(old(Now()), Now(), d, va / PGSIZE, m, pa / PGSIZE, perm)
      ensures r == Done <==> m == va / PGSIZE + Pages(va, size)
      ensures r == Done ==> Tabled(old(Now()), Now(), d, va / PGSIZE, m)
      ensures r == Fail ==> free == [] && |old(free)| < NewTabs(old(mem), d, va / PGSIZE, va / PGSIZE + Pages(va, size))
      ensures r == Panic ==> Present(Leaf(old(mem), d, m))
    {
      hide Leaf, ListOk, TreeOk, MapsTo, Present, InHand, Tabled, NewTabs;
      ghost var s, lo, f := Now(), va / PGSIZE, pa / PGSIZE;
      SizedNow();
      ghost var hi := lo + Pages(va, size);
      MapsNothing(s, d, lo, f, perm);
      TabledNothing(s, d, lo);
      var a := va / PGSIZE * PGSIZE;
      var last := (va + size - 1) / PGSIZE * PGSIZE;
      var p := pa;
      m := lo;
      while true
        invariant Valid() && lo <= m < hi && a == m * PGSIZE && p == (f + (m - lo)) * PGSIZE
        invariant MapsTo(s, Now(), d, lo, m, f, perm) && Tabled(s, Now(), d, lo, m)
        decreases hi - m
      {
        InHandUpTo(s, lo, m + 1, hi, f);
        NewTabsMonotone(s.mem, d, lo, m + 1, hi);
        r := MapOne(d, a, p, perm, s, lo, f);
        if r != Done { return; }
        m := m + 1;
        if a == last { break; }
        a := a + PGSIZE;
        p := p + PGSIZE;
      }
    }

    /** One turn of deallocuvm's loop where there is a table. */
    method UnmapAt(d: nat, a: nat, pte: PtePtr) returns (ok: bool)
      requires Valid() && IsDir(Now(), d) && a < KERNBASE && a % PGSIZE == 0
      requires Present(mem[d][Pdx(a)]) && pte == At(FrameOf(mem[d][Pdx(a)]), Ptx(a))
      modifies this
      ensures ok && Valid() && Now() == UnmapPage(old(Now()), d, a / PGSIZE)
    {
      hide TreeOk, ListOk, Leaf, Present, FrameOf, Unmapped, Pushed;
      ghost var s, v := Now(), a / PGSIZE;
      SizedNow();
      Split(a);
      LeafThere(s, d, v);
      var e := mem[pte.t][pte.j];
      if !Present(e) { return true; }
      UserThere(s, d, v);
      var pa := FrameOf(e) * PGSIZE;
      if pa == 0 { return false; }
      ok := KFree(KERNBASE + pa);
      SizedNow();
      mem := mem[pte.t := mem[pte.t][pte.j := 0]];
      UnmappedOk(s, d, v);
      UnmappedIs(s, d, v, pte.t, pte.j);
    }

    /** One turn of deallocuvm's loop; a' is the address the next turn looks at. */
    method DeallocTurn(d: nat, a: nat, ghost hi: nat) returns (ok: bool, a': nat)
      requires Valid() && IsDir(Now(), d) && a % PGSIZE == 0 && a < hi <= KERNBASE
      modifies this
      ensures ok && Valid() && IsDir(Now(), d) && a < a' && a' % PGSIZE == 0
      ensures Naive(Now(), d, a', hi) == Naive(old(Now()), d, a, hi)
    {
      hide TreeOk, ListOk, Leaf, Present, FrameOf, UnmapPage, Naive;
      ghost var t := Now();
      SizedNow();
      Split(a);
      var pte := Walk(d, a, false);
      if pte == Null {
        NextDirectory(a);
        NaiveSkip(t, d, a, (Pdx(a) + 1) * (PGSIZE * NENT), hi);
        a' := ((Pdx(a) + 1) * (PGSIZE * NENT) + (U32 - PGSIZE)) % U32;
        ok := true;
      } else {
        NaiveStep(t, d, a, hi);
        ok := UnmapAt(d, a, pte);
        a' := a;
      }
      a' := (a' + PGSIZE) % U32;
    }

    /**
     deallocuvm: it jumps over directory entries without a table and still
     does what the page-by-page loop does; no address wraps around.
     */
    method DeallocUvm(d: nat, oldsz: nat, newsz: nat) returns (ok: bool, r: nat)
      requires Valid() && IsDir(Now(), d) && oldsz <= KERNBASE && newsz < U32
      modifies this
      ensures ok && Valid() && IsDir(Now(), d) && r == if newsz >= oldsz then oldsz else newsz
      ensures Now() == if newsz >= oldsz then old(Now()) else Naive(old(Now()), d, RoundUp(newsz), oldsz)
    {
      if newsz >= oldsz { return true, oldsz; }
      hide TreeOk, ListOk, Leaf, Present, UnmapPage;
      ghost var s := Now();
      var a := RoundUp(newsz);
      ok := true;
      while a < oldsz
        invariant ok && Valid() && IsDir(Now(), d) && a % PGSIZE == 0
        invariant Naive(Now(), d, a, oldsz) == Naive(s, d, RoundUp(newsz), oldsz)
        decreases oldsz - a
      {
        hide Naive;
        ok, a := DeallocTurn(d, a, oldsz);
      }
      return ok, newsz;
    }

    /** freevm's loop over the directory entries; t is the state it starts from, before roles are given up. */
    method FreeTables(d: nat, ghost t: State) returns (ok: bool)
      requires Valid() && Inv(t) && IsDir(t, d) && t.first == Now().first && mem == t.mem && role == TornDown(t.role, d, 0)
      modifies this
      ensures ok && Valid() && Sized(Now()) && role == TornDown(t.role, d, NENT)
      ensures forall p: nat | p < NPAGE && role[p] != Free :: mem[p] == t.mem[p]
    {
      hide TreeOk, ListOk, Leaf, Present, FrameOf, TornDown;
      SizedNow();
      var i := 0;
      ok := true;
      while i < NENT
        invariant i <= NENT && ok && Valid() && Sized(Now()) && role == TornDown(t.role, d, i)
        invariant forall p: nat | p < NPAGE && role[p] != Free :: mem[p] == t.mem[p]
      {
        TornDownStep(t, d, i);
        TornDownDir(t.role, d, i);
        if Present(mem[d][i]) {
          PushedOk(Now(), FrameOf(mem[d][i]));
          ok := KFree(KERNBASE + FrameOf(mem[d][i]) * PGSIZE);
          SizedNow();
        }
        i := i + 1;
      }
    }

    /** freevm: every page of the address space becomes free and no other page changes. */
    method FreeVm(d: nat) returns (ok: bool)
      requires Valid() && IsDir(Now(), d)
      modifies this
      ensures ok && Valid() && Dissolved(old(Now()), Now(), d)
    {
      hide TreeOk, ListOk, Leaf, Present, FrameOf, Naive, Released, Dissolved, TornDown;
      ghost var s := Now();
      var r;
      ok, r := DeallocUvm(d, KERNBASE, 0);
      ghost var t := Now();
      SizedNow();
      NaiveReleases(s, d, 0, KERNBASE);
      NothingLeft(s, t, d);
      TearDownOk(t, d);
      role := TornDown(role, d, 0);
      ok := FreeTables(d, t);
      TornDownDir(t.role, d, NENT);
      PushedOk(Now(), d);
      ok := KFree(KERNBASE + d * PGSIZE);
      SizedNow();
      DissolvedIf(s, t, Now(), d);
    }

    /** One turn of setupkvm's loop; s is the state the loop began in. */
    method MapRow(d: nat, k: nat, ghost s: State) returns (r: Res)
      requires Valid() && IsDir(Now(), d) && k < 4 && Apart(s, Now(), d, -1)
      requires forall v: nat | v < NVPN :: Leaf(mem, d, v) == KmapLeaf(data, k, v)
      requires KernelTabled(s, Now(), d, data, k)
      modifies this
      ensures Valid() && IsDir(Now(), d) && Apart(s, Now(), d, -1) && r != Panic
      ensures r == Done ==> (forall v: nat | v < NVPN :: Leaf(mem, d, v) == KmapLeaf(data, k + 1, v)) && KernelTabled(s, Now(), d, data, k + 1)
      ensures r == Fail ==> |s.free| < KTABS
    {
      hide TreeOk, ListOk, Leaf, Apart, MapsTo, KmapLeaf, Present, InHand, Tabled, NewTabs, KernelTabled, RowTabs;
      ghost var t, m := Now(), 0;
      SizedNow();
      RowFits(data, k);
      RowNeeds(s, t, d, data, k);
      var row := Kmap(data, k);
      NobodyInHand(t, row.virt / PGSIZE, row.virt / PGSIZE + Pages(row.virt, row.size), row.phys / PGSIZE);
      r, m := MapPages(d, row.virt, row.size, row.phys, row.perm);
      SizedNow();
      RowMapped(s, t, Now(), d, data, k, m);
      if r == Panic { NoClash(data, k, m); }
      if r == Done { RowTabled(s, t, Now(), d, data, k); }
    }

    /** setupkvm's loop over the rows of kmap: it takes 64 pages for tables, and fails exactly when there are fewer. */
    method MapKernel(d: nat) returns (r: Res)
      requires Valid() && IsDir(Now(), d) && mem[d] == ZeroPage() && forall v: nat | v < NVPN :: Leaf(mem, d, v) == 0
      modifies this
      ensures Valid() && IsDir(Now(), d) && Apart(old(Now()), Now(), d, -1) && r != Panic
      ensures r == Done <==> |old(free)| >= KTABS
      ensures r == Done ==> (forall v: nat | v < NVPN :: Leaf(mem, d, v) == KernelLeaf(data, v)) && KernelTabled(old(Now()), Now(), d, data, 4)
    {
      hide TreeOk, ListOk, Leaf, Apart, KmapLeaf, KernelLeaf, KernelTabled;
      ghost var s := Now();
      SizedNow();
      ApartRefl(s, d);
      NoRows(data, mem, d);
      NoTables(s, d, data);
      var k := 0;
      while k < 4
        invariant k <= 4 && Valid() && IsDir(Now(), d) && Sized(Now()) && Apart(s, Now(), d, -1)
        invariant forall v: nat | v < NVPN :: Leaf(mem, d, v) == KmapLeaf(data, k, v)
        invariant KernelTabled(s, Now(), d, data, k)
      {
        r := MapRow(d, k, s);
        SizedNow();
        if r != Done { return; }
        k := k + 1;
      }
      AllRows(data);
      AllTabled(s, Now(), d, data);
      return Done;
    }

    /**
     setupkvm: a directory that maps the kernel and nothing else, or every page
     back in its role. It takes 65 pages, the directory and 64 tables, and
     fails exactly when fewer are free.
     */
    method SetupKvm() returns (ok: bool, d: nat)
      requires Valid()
      modifies this
      ensures ok && Valid()
      ensures d == 0 <==> |old(free)| < 1 + KTABS
      ensures d == 0 ==> Unchanged(old(Now()), Now())
      ensures d != 0 ==>
                && d < NPAGE && old(role)[d] == Free && IsDir(Now(), d) && Apart(old(Now()), Now(), d, -1)
                && forall v: nat | v < NVPN :: Leaf(mem, d, v) == KernelLeaf(data, v)
      ensures d != 0 ==>
                |free| == |old(free)| - 1 - KTABS && |mem| == NPAGE && forall i: nat | i < NENT / 2 :: !Present(mem[d][i])
      ensures d != 0 ==> forall v: nat | v < NVPN :: !UserMayRead(mem, d, v)
    {
      hide TreeOk, ListOk, Leaf, Apart, KernelLeaf, Dissolved, Kva, Present, KernelTabled;
      ghost var s := Now();
      SizedNow();
      HeadIs(s);
      var v := KAlloc();
      if v == 0 { return true, 0; }
      d := PageOf(v);
      mem := mem[d := ZeroPage()];
      TookOk(s, Now(), ZeroPage());
      AsDirOk(Now(), d);
      role := role[d := Dir];
      ghost var t := Now();
      SizedIf(t);
      TookDir(s, t, d);
      var r := MapKernel(d);
      ghost var u := Now();
      ApartTrans(s, t, u, d, -1);
      if r == Fail {
        ok := FreeVm(d);
        BuiltThenDissolved(s, u, Now(), d);
        return ok, 0;
      }
      UserUntabled(t, u, d, data);
      KernelOnly(u, d, data);
      return true, d;
    }

    /** kalloc, fill and mappages for one page, as the loops of allocuvm and copyuvm do it. */
    method Grow(d: nat, a: nat, page: Page, perm: nat) returns (r: Res, v: nat, ghost z: State)
      requires Valid() && IsDir(Now(), d) && a < KERNBASE && a % PGSIZE == 0 && perm < PGSIZE
      modifies this
      ensures Valid() && IsDir(Now(), d)
      ensures r == Done ==> Extended(old(Now()), Now(), d, a / PGSIZE, page, perm + (1 - perm % 2))
      ensures r == Fail && v == 0 ==> Now() == old(Now())
      ensures r == Fail && v != 0 ==> KERNBASE <= v && v == KERNBASE + PageOf(v) * PGSIZE && Stuck(old(Now()), Now(), d, PageOf(v))
      ensures r == Panic ==> Present(Leaf(old(mem), d, a / PGSIZE))
      ensures r == Fail && v == 0 ==> old(free) == []
      ensures v != 0 ==> Sized(z) && |old(mem)| == NPAGE && z.mem[d] == old(mem)[d] && |z.free| == |old(free)| - 1
      ensures r == Done ==> v != 0 && Tabled(z, Now(), d, a / PGSIZE, a / PGSIZE + 1)
      ensures r == Fail && v != 0 ==> |z.free| < NewTabs(z.mem, d, a / PGSIZE, a / PGSIZE + 1)
    {
      hide TreeOk, ListOk, Leaf, Extended, Stuck, MapsTo, Present, Tabled, NewTabs;
      ghost var s := Now();
      z := s;
      SizedNow();
      HeadIs(s);
      v := KAlloc();
      if v == 0 { return Fail, 0, z; }
      var x := PageOf(v);
      mem := mem[x := page];
      z := Now();
      ghost var m := 0;
      TookOk(s, z, page);
      r, m := MapPages(d, a, PGSIZE, x * PGSIZE, perm);
      if r == Done {
        ExtendedIf(s, z, Now(), d, a / PGSIZE, x, page, perm);
      } else {
        StuckIf(s, z, Now(), d, a / PGSIZE, x, page, perm);
      }
      MapsDir(z, Now(), d, a / PGSIZE, m, x, perm);
    }

    /** allocuvm out of memory in the turn for address a: v is the page in hand, if there is one. */
    method TakeBack(d: nat, oldsz: nat, newsz: nat, v: nat, ghost s: State, ghost t: State, ghost a: nat) returns (ok: bool)
      requires Valid() && IsDir(Now(), d) && oldsz <= newsz < KERNBASE && RoundUp(oldsz) <= a < newsz
      requires Grown(s, t, d, RoundUp(oldsz), a)
      requires if v == 0 then Now() == t else KERNBASE <= v && v == KERNBASE + PageOf(v) * PGSIZE && Stuck(t, Now(), d, PageOf(v))
      modifies this
      ensures ok && Valid() && IsDir(Now(), d) && TakenBack(s, Now(), d, RoundUp(oldsz), newsz)
    {
      hide TreeOk, ListOk, Leaf, Stuck, Grown, TakenBack, Naive, Released;
      ghost var u, lo := Now(), RoundUp(oldsz);
      var k;
      ok, k := DeallocUvm(d, newsz, oldsz);
      ghost var w := Now();
      SizedNow();
      NaiveReleases(u, d, lo, newsz);
      if v != 0 {
        StuckTaken(s, t, u, w, d, lo, a, newsz, PageOf(v));
        PushedOk(w, PageOf(v));
        ok := KFree(v);
      } else {
        NothingTaken(s, t, w, d, lo, a, newsz);
      }
    }

    /**
     allocuvm: it grows the user part by zeroed pages, or, with fewer free pages
     than the growth takes, takes back what it mapped; only an entry present
     beforehand makes it panic.
     */
    method AllocUvm(d: nat, oldsz: nat, newsz: nat) returns (r: Res, size: nat)
      requires Valid() && IsDir(Now(), d) && oldsz < U32 && newsz < U32
      modifies this
      ensures Valid() && IsDir(Now(), d)
      ensures newsz >= KERNBASE ==> r == Done && size == 0 && Now() == old(Now())
      ensures newsz < KERNBASE && newsz < oldsz ==> r == Done && size == oldsz && Now() == old(Now())
      ensures oldsz <= newsz < KERNBASE && r == Done ==>
                size == newsz && Grown(old(Now()), Now(), d, RoundUp(oldsz), newsz)
      ensures oldsz <= newsz < KERNBASE && r == Done ==>
                |mem| == NPAGE && forall v: nat | v < NVPN && Within(v, RoundUp(oldsz), newsz) :: UserMayWrite(mem, d, v)
      ensures r == Fail ==> size == 0 && TakenBack(old(Now()), Now(), d, RoundUp(oldsz), newsz)
      ensures oldsz <= newsz < KERNBASE && r == Done ==> |old(free)| >= UserNeed(old(mem), d, oldsz, newsz)
      ensures r == Fail ==> oldsz <= newsz < KERNBASE && |old(free)| < UserNeed(old(mem), d, oldsz, newsz)
      ensures r == Panic ==> exists v: nat :: v < UVPN && Within(v, RoundUp(oldsz), newsz) && Present(Leaf(old(mem), d, v))
    {
      hide TreeOk, ListOk, Leaf, Extended, Stuck, Present, Grown, TakenBack, RoundUp, Apart, NewAt, Drawn, Tabled, UserNeed;
      SizedNow();
      if newsz >= KERNBASE { return Done, 0; }
      if newsz < oldsz { return Done, oldsz; }
      ghost var s, lo := Now(), RoundUp(oldsz);
      RoundUpFacts(oldsz);
      GrownNothing(s, d, lo);
      DrawnNothing(s, d, lo / PGSIZE);
      var a := RoundUp(oldsz);
      while a < newsz
        invariant Valid() && IsDir(Now(), d) && a % PGSIZE == 0 && lo <= a
        invariant Grown(s, Now(), d, lo, a) && (a < newsz + PGSIZE) && Drawn(s, Now(), d, lo / PGSIZE, a / PGSIZE)
      {
        ghost var t, z := Now(), Now();
        var v;
        r, v, z := Grow(d, a, ZeroPage(), PTE_W + PTE_U);
        if r == Panic {
          GrownNotYet(s, t, d, lo, a);
          return Panic, 0;
        }
        if r == Fail {
          NeedStops(s, t, z, d, oldsz, newsz, a);
          var ok := TakeBack(d, oldsz, newsz, v, s, t, a);
          return Fail, 0;
        }
        DrawnMore(s, t, z, Now(), d, lo / PGSIZE, a / PGSIZE);
        GrownMore(s, t, Now(), d, lo, a);
        a := a + PGSIZE;
      }
      GrownDone(s, Now(), d, lo, a, newsz);
      SizedNow();
      GrownWritable(s, Now(), d, lo, newsz);
      NeedDone(s, Now(), d, oldsz, newsz, a);
      return Done, newsz;
    }

    /** One turn of copyuvm's loop; s is the state copyuvm was called in, k the one after setupkvm. */
    method CopyTurn(pd: nat, d: nat, i: nat, ghost s: State, ghost k: State, ghost sz: nat) returns (r: Res, mem: nat)
      requires Valid() && Inv(s) && IsDir(s, pd) && IsDir(Now(), d) && i % PGSIZE == 0 && i < KERNBASE
      requires Copied(s, Now(), data, pd, d, i) && Drawn(k, Now(), d, 0, i / PGSIZE) && i < sz <= KERNBASE
      modifies this
      ensures Valid() && IsDir(Now(), d)
      ensures r == Done ==> Copied(s, Now(), data, pd, d, i + PGSIZE) && Drawn(k, Now(), d, 0, i / PGSIZE + 1)
      ensures r == Fail ==> |k.mem| == NPAGE && d < NPAGE && |k.free| < GrowNeed(k.mem, d, 0, RoundUp(sz) / PGSIZE)
      ensures r == Fail && mem == 0 ==> Apart(s, Now(), d, -1)
      ensures r == Fail && mem != 0 ==>
                && KERNBASE <= mem && mem == KERNBASE + PageOf(mem) * PGSIZE && Apart(s, Now(), d, PageOf(mem))
                && PageOf(mem) < NPAGE && s.role[PageOf(mem)] == Free && role[PageOf(mem)] == Other
      ensures r == Panic ==> !Present(Leaf(s.mem, pd, i / PGSIZE))
    {
      hide TreeOk, ListOk, Leaf, Extended, Stuck, Present, FrameOf, FlagsOf, Apart, Copied, KernelLeaf, Drawn, Tabled, GrowNeed;
      ghost var t, v := Now(), i / PGSIZE;
      SizedNow();
      Split(i);
      ParentStill(s, t, data, pd, d, i);
      var pte := Walk(pd, i, false);
      if pte == Null {
        NoTableNoLeaf(t, pd, v);
        return Panic, 0;
      }
      LeafThere(t, pd, v);
      var e := this.mem[pte.t][pte.j];
      if !Present(e) { return Panic, 0; }
      UserThere(t, pd, v);
      PresentFlags(e);
      ghost var z;
      r, mem, z := Grow(d, i, this.mem[FrameOf(e)], FlagsOf(e));
      if r == Done {
        DrawnMore(k, t, z, Now(), d, 0, v);
        CopiedMore(s, t, Now(), data, pd, d, i);
      } else if r == Fail {
        RoundUpFacts(sz);
        DrawnFrom(k, t, d, 0, v);
        DrawnStops(k, t, z, d, 0, v, RoundUp(sz) / PGSIZE);
        CopiedStuck(s, t, Now(), data, pd, d, i, mem);
      } else {
        FreshEmpty(s, t, data, pd, d, i);
      }
    }

    /** copyuvm out of memory: the page in hand, if there is one, and the child's address space are given back. */
    method Abandon(d: nat, m: nat, ghost s: State) returns (ok: bool)
      requires Valid() && Inv(s) && IsDir(Now(), d) && Sized(s) && d < NPAGE && s.role[d] == Free
      requires m == 0 ==> Apart(s, Now(), d, -1)
      requires m != 0 ==>
                 && KERNBASE <= m && m == KERNBASE + PageOf(m) * PGSIZE && Apart(s, Now(), d, PageOf(m))
                 && PageOf(m) < NPAGE && s.role[PageOf(m)] == Free && role[PageOf(m)] == Other
      modifies this
      ensures ok && Valid() && Unchanged(s, Now())
    {
      hide TreeOk, ListOk, Leaf, Present, Apart, Dissolved, Unchanged;
      ok := true;
      if m != 0 {
        ghost var t := Now();
        SizedNow();
        StuckFreed(s, t, d, PageOf(m));
        PushedOk(t, PageOf(m));
        ok := KFree(m);
      }
      ghost var u := Now();
      ok := FreeVm(d);
      BuiltThenDissolved(s, u, Now(), d);
    }

    /**
     copyuvm: below sz the child has the parent's bytes and flags, on pages
     that were free; with fewer free pages than that takes, every page is back
     in its role. It panics only over a page below sz that the parent has not
     mapped.
     */
    method CopyUvm(pd: nat, sz: nat) returns (r: Res, d: nat)
      requires Valid() && IsDir(Now(), pd) && sz <= KERNBASE
      modifies this
      ensures Valid()
      ensures r == Done ==> d != 0 && d < NPAGE && old(role)[d] == Free && IsDir(Now(), d) && IsDir(Now(), pd)
      ensures r == Done ==> Copied(old(Now()), Now(), data, pd, d, sz)
      ensures r == Done ==> |mem| == |old(mem)| == NPAGE && SameAccess(old(mem), mem, pd, d, sz)
      ensures r == Fail ==> d == 0 && Unchanged(old(Now()), Now())
      ensures r == Done ==> |old(free)| >= CopyNeed(sz)
      ensures r == Fail ==> |old(free)| < CopyNeed(sz)
      ensures r == Panic ==> exists v: nat :: v * PGSIZE < sz && v < UVPN && !Present(Leaf(old(mem), pd, v))
    {
      hide TreeOk, ListOk, Leaf, Present, Apart, Copied, KernelLeaf, Dissolved, Unchanged, Drawn, GrowNeed;
      ghost var s := Now();
      SizedNow();
      var ok;
      ok, d := SetupKvm();
      if d == 0 { return Fail, 0; }
      ghost var k := Now();
      SizedNow();
      CopiedNothing(s, k, data, pd, d);
      DrawnNothing(k, d, 0);
      ChildNeeds(k.mem, d, sz);
      var i := 0;
      while i < sz
        invariant i % PGSIZE == 0 && i < sz + PGSIZE && Valid() && IsDir(Now(), d)
        invariant Copied(s, Now(), data, pd, d, i) && Drawn(k, Now(), d, 0, i / PGSIZE)
      {
        var m;
        r, m := CopyTurn(pd, d, i, s, k, sz);
        if r == Panic { return Panic, 0; }
        if r == Fail {
          ok := Abandon(d, m, s);
          return Fail, 0;
        }
        i := i + PGSIZE;
      }
      RoundUpFacts(sz);
      DrawnEnough(k, Now(), d, i / PGSIZE);
      CopiedDone(s, Now(), data, pd, d, i, sz);
      SizedNow();
      CopiedAccess(s, Now(), data, pd, d, sz);
      ParentStill(s, Now(), data, pd, d, sz);
      return Done, d;
    }
  }

  // ---------- copyuvm ----------

  /** Page v of the child: the parent's bytes and flags, on a page that was free. */
  ghost predicate CopyAt(s: State, t: State, pd: nat, d: nat, v: nat)
    requires Sized(s) && Sized(t) && d < NPAGE && pd < NPAGE && v < NVPN
  {
    var e := Leaf(s.mem, pd, v);
    Present(e) && FrameOf(e) < NPAGE && NewAt(s, t, d, v, s.mem[FrameOf(e)], FlagsOf(e))
  }

  /** d copies pd below address i and maps the kernel; all else is as in s. */
  ghost predicate Copied(s: State, t: State, data: nat, pd: nat, d: nat, i: nat) {
    && Apart(s, t, d, -1) && NoneFreed(s, t) && d < NPAGE && pd < NPAGE && s.role[d] == Free
    && (forall v: nat | v < NVPN && v * PGSIZE < i :: CopyAt(s, t, pd, d, v))
    && (forall v: nat | v < NVPN && v * PGSIZE >= i :: Leaf(t.mem, d, v) == KernelLeaf(data, v))
  }

  /** Below sz the child's user code may read and write what the parent's may, and nothing from there on. */
  ghost predicate SameAccess(mem: seq<Page>, mem': seq<Page>, pd: nat, d: nat, sz: nat)
    requires pd < |mem| && d < |mem'|
  {
    forall v: nat | v < NVPN ::
      && (UserMayRead(mem', d, v) <==> v * PGSIZE < sz && UserMayRead(mem, pd, v))
      && (UserMayWrite(mem', d, v) <==> v * PGSIZE < sz && UserMayWrite(mem, pd, v))
  }

  lemma CopiedAccess(s: State, t: State, data: nat, pd: nat, d: nat, sz: nat)
    requires Sized(s) && Sized(t) && TreeOk(s) && TreeOk(t) && IsDir(s, pd) && IsDir(t, d) && Copied(s, t, data, pd, d, sz)
    ensures SameAccess(s.mem, t.mem, pd, d, sz)
  {
    hide TreeOk, Leaf, FlagsOf, KernelLeaf, Apart, UserMayRead, UserMayWrite;
    forall v: nat | v < NVPN
      ensures UserMayRead(t.mem, d, v) <==> v * PGSIZE < sz && UserMayRead(s.mem, pd, v)
      ensures UserMayWrite(t.mem, d, v) <==> v * PGSIZE < sz && UserMayWrite(s.mem, pd, v)
    {
      LeafDecides(t, d, v);
      LeafDecides(s, pd, v);
      if v * PGSIZE < sz { assert CopyAt(s, t, pd, d, v); } else { KernelFlags(data, v); }
    }
  }

  /** The kernel's entries are not for user mode. */
  lemma KernelFlags(data: nat, v: nat)
    requires v < NVPN
    ensures !(FlagsOf(KernelLeaf(data, v)) % 2 == 1 && FlagsOf(KernelLeaf(data, v)) / 4 % 2 == 1)
  {
  }

  lemma KernelOnly(s: State, d: nat, data: nat)
    requires Sized(s) && TreeOk(s) && IsDir(s, d) && forall v: nat | v < NVPN :: Leaf(s.mem, d, v) == KernelLeaf(data, v)
    ensures forall v: nat | v < NVPN :: !UserMayRead(s.mem, d, v)
  {
    hide TreeOk, Leaf, FlagsOf, KernelLeaf, UserMayRead;
    forall v: nat | v < NVPN ensures !UserMayRead(s.mem, d, v) {
      LeafDecides(s, d, v);
      KernelFlags(data, v);
    }
  }

  lemma GrownWritable(s: State, t: State, d: nat, a: nat, b: nat)
    requires Sized(s) && Sized(t) && TreeOk(t) && IsDir(t, d) && Grown(s, t, d, a, b)
    ensures forall v: nat | v < NVPN && Within(v, a, b) :: UserMayWrite(t.mem, d, v)
  {
    hide TreeOk, Leaf, FlagsOf, Apart, UserMayRead, UserMayWrite;
    forall v: nat | v < NVPN && Within(v, a, b) ensures UserMayWrite(t.mem, d, v) {
      assert NewAt(s, t, d, v, ZeroPage(), 7);
      LeafDecides(t, d, v);
    }
  }

  lemma CopiedNothing(s: State, t: State, data: nat, pd: nat, d: nat)
    requires Apart(s, t, d, -1) && d < NPAGE && pd < NPAGE && s.role[d] == Free && TreeOk(s)
    requires forall v: nat | v < NVPN :: Leaf(t.mem, d, v) == KernelLeaf(data, v)
    ensures Copied(s, t, data, pd, d, 0)
  {
    hide Leaf, KernelLeaf, CopyAt;
    forall p: nat | p < NPAGE && s.role[p] != Free ensures t.role[p] != Free {
      assert RoleOk(s, p);
    }
  }

  lemma ParentStill(s: State, t: State, data: nat, pd: nat, d: nat, i: nat)
    requires Inv(s) && Inv(t) && Copied(s, t, data, pd, d, i) && IsDir(s, pd)
    ensures pd != d && IsDir(t, pd) && forall v: nat | v < NVPN :: Leaf(t.mem, pd, v) == Leaf(s.mem, pd, v)
  {
    hide Leaf, KernelLeaf, CopyAt, TreeOk, ListOk;
    ApartLeaf(s, t, d, -1, pd);
  }

  lemma NoTableNoLeaf(s: State, d: nat, v: nat)
    requires d < |s.mem| && v < NVPN && !Present(s.mem[d][v / NENT])
    ensures !Present(Leaf(s.mem, d, v))
  {
    ZeroEntry();
  }

  lemma PresentFlags(e: word)
    ensures FlagsOf(e) < PGSIZE && (Present(e) ==> FlagsOf(e) + (1 - FlagsOf(e) % 2) == FlagsOf(e))
  {
  }

  lemma CopiedMore(s: State, t: State, u: State, data: nat, pd: nat, d: nat, i: nat)
    requires Inv(s) && Inv(t) && IsDir(s, pd) && Copied(s, t, data, pd, d, i) && i % PGSIZE == 0 && i < KERNBASE
    requires var e := Leaf(s.mem, pd, i / PGSIZE);
             && Present(e) && FrameOf(e) < NPAGE
             && |t.mem| == NPAGE && Extended(t, u, d, i / PGSIZE, t.mem[FrameOf(e)], FlagsOf(e))
    ensures Copied(s, u, data, pd, d, i + PGSIZE)
  {
    var e := Leaf(s.mem, pd, i / PGSIZE);
    assert Sized(s) && Sized(t) && Sized(u);
    assert t.mem[FrameOf(e)] == s.mem[FrameOf(e)] by { ParentPage(s, t, data, pd, d, i); }
    hide Leaf, KernelLeaf, NewAt, Apart, Present, FrameOf, FlagsOf, TreeOk, ListOk;
    ApartTrans(s, t, u, d, -1);
    forall v: nat | v < NVPN && v * PGSIZE < i + PGSIZE ensures CopyAt(s, u, pd, d, v) {
      if v == i / PGSIZE {
        NewAtSince(s, t, u, d, v, s.mem[FrameOf(e)], FlagsOf(e));
      } else {
        assert CopyAt(s, t, pd, d, v);
        var x := Leaf(s.mem, pd, v);
        NewAtKept(s, t, u, d, v, s.mem[FrameOf(x)], FlagsOf(x), i / PGSIZE, t.mem[FrameOf(e)], FlagsOf(e));
      }
    }
  }

  lemma ParentPage(s: State, t: State, data: nat, pd: nat, d: nat, i: nat)
    requires Inv(s) && Inv(t) && IsDir(s, pd) && Copied(s, t, data, pd, d, i) && i < KERNBASE
    requires Present(Leaf(s.mem, pd, i / PGSIZE)) && FrameOf(Leaf(s.mem, pd, i / PGSIZE)) < NPAGE
    ensures t.mem[FrameOf(Leaf(s.mem, pd, i / PGSIZE))] == s.mem[FrameOf(Leaf(s.mem, pd, i / PGSIZE))]
  {
    UserThere(s, pd, i / PGSIZE);
    hide Leaf, KernelLeaf, CopyAt, Present, FrameOf, TreeOk, ListOk;
  }

  lemma CopiedStuck(s: State, t: State, u: State, data: nat, pd: nat, d: nat, i: nat, mem: nat)
    requires Copied(s, t, data, pd, d, i) && (mem == 0 || mem >= KERNBASE)
    requires if mem == 0 then u == t else Stuck(t, u, d, PageOf(mem))
    ensures Apart(s, u, d, if mem == 0 then -1 else PageOf(mem))
    ensures mem != 0 ==> PageOf(mem) < NPAGE && s.role[PageOf(mem)] == Free && u.role[PageOf(mem)] == Other
  {
    hide Leaf, KernelLeaf, CopyAt;
  }

  /** The child has nothing yet where the next page goes, so mapping it cannot clash. */
  lemma FreshEmpty(s: State, t: State, data: nat, pd: nat, d: nat, i: nat)
    requires Copied(s, t, data, pd, d, i) && i % PGSIZE == 0 && i < KERNBASE
    ensures !Present(Leaf(t.mem, d, i / PGSIZE))
  {
    ZeroEntry();
    hide Leaf, CopyAt;
  }

  lemma CopiedDone(s: State, t: State, data: nat, pd: nat, d: nat, i: nat, sz: nat)
    requires Copied(s, t, data, pd, d, i) && i % PGSIZE == 0 && sz <= i < sz + PGSIZE
    ensures Copied(s, t, data, pd, d, sz)
  {
    hide Leaf, KernelLeaf, CopyAt, Apart;
    forall v: nat ensures v * PGSIZE < i <==> v * PGSIZE < sz {}
  }

  // ---------- allocuvm ----------

  /** Exactly the pages in the range are new, zeroed and writable by the user. */
  ghost predicate Grown(s: State, t: State, d: nat, a: nat, b: nat) {
    && Apart(s, t, d, -1) && d < NPAGE && NoneFreed(s, t)
    && (forall v: nat | v < NVPN && Within(v, a, b) :: NewAt(s, t, d, v, ZeroPage(), 7))
    && (forall v: nat | v < NVPN && !Within(v, a, b) :: Leaf(t.mem, d, v) == Leaf(s.mem, d, v))
  }

  /** Nothing is mapped in the range, and everything else stands. */
  ghost predicate TakenBack(s: State, t: State, d: nat, a: nat, b: nat) {
    && Apart(s, t, d, -1) && d < NPAGE
    && (forall v: nat | v < NVPN && Within(v, a, b) :: !Present(Leaf(t.mem, d, v)))
    && (forall v: nat | v < NVPN && !Within(v, a, b) :: Leaf(t.mem, d, v) == Leaf(s.mem, d, v))
  }

  /** Where the range was empty, a failed growth leaves every user page of d where it was. */
  lemma FailedGrowthKeepsUsers(s: State, t: State, d: nat, a: nat, b: nat, v: nat, p: nat)
    requires Inv(s) && Inv(t) && IsDir(s, d) && IsDir(t, d) && TakenBack(s, t, d, a, b) && v < UVPN && p < NPAGE
    requires forall u: nat | u < NVPN && Within(u, a, b) :: !Present(Leaf(s.mem, d, u))
    ensures t.role[p] == User(d, v) <==> s.role[p] == User(d, v)
  {
    hide Leaf, Present, FrameOf, Apart;
    if Within(v, a, b) {
      assert RoleOk(s, p) && RoleOk(t, p);
    } else {
      SameUsers(s, t, d, v, p);
    }
  }

  lemma GrownNothing(s: State, d: nat, a: nat)
    requires Sized(s) && d < NPAGE
    ensures Grown(s, s, d, a, a)
  {
    hide Leaf;
  }

  lemma GrownNotYet(s: State, t: State, d: nat, lo: nat, a: nat)
    requires Grown(s, t, d, lo, a) && a % PGSIZE == 0 && a < KERNBASE
    ensures Leaf(t.mem, d, a / PGSIZE) == Leaf(s.mem, d, a / PGSIZE)
  {
    hide Leaf;
  }

  lemma GrownMore(s: State, t: State, u: State, d: nat, lo: nat, a: nat)
    requires Grown(s, t, d, lo, a) && lo <= a < KERNBASE && a % PGSIZE == 0 && Extended(t, u, d, a / PGSIZE, ZeroPage(), 7)
    ensures Grown(s, u, d, lo, a + PGSIZE)
  {
    assert Sized(s) && Sized(t) && Sized(u);
    hide Leaf, NewAt, Apart;
    ApartTrans(s, t, u, d, -1);
    forall v: nat | v < NVPN && Within(v, lo, a + PGSIZE) ensures NewAt(s, u, d, v, ZeroPage(), 7) {
      if v == a / PGSIZE {
        NewAtSince(s, t, u, d, v, ZeroPage(), 7);
      } else {
        NewAtKept(s, t, u, d, v, ZeroPage(), 7, a / PGSIZE, ZeroPage(), 7);
      }
    }
  }

  lemma GrownDone(s: State, t: State, d: nat, lo: nat, a: nat, hi: nat)
    requires Grown(s, t, d, lo, a) && a % PGSIZE == 0 && hi <= a && (a < hi + PGSIZE || a == lo)
    ensures Grown(s, t, d, lo, hi)
  {
    hide Leaf, NewAt, Apart;
    forall v: nat ensures Within(v, lo, hi) <==> Within(v, lo, a) {}
    hide Within;
  }

  lemma NothingTaken(s: State, t: State, w: State, d: nat, lo: nat, a: nat, hi: nat)
    requires Grown(s, t, d, lo, a) && a < hi && Released(t, w, d, lo, hi)
    ensures TakenBack(s, w, d, lo, hi)
  {
    ZeroEntry();
    hide Leaf, NewAt, Apart, Present;
    ReleasedApart(t, w, d, lo, hi);
    ApartTrans(s, t, w, d, -1);
  }

  lemma StuckTaken(s: State, t: State, u: State, w: State, d: nat, lo: nat, a: nat, hi: nat, x: nat)
    requires Grown(s, t, d, lo, a) && a < hi && Stuck(t, u, d, x) && Released(u, w, d, lo, hi) && Inv(w) && IsDir(w, d)
    ensures x < NPAGE && w.role[x] == Other && Sized(Pushed(w, x)) && TakenBack(s, Pushed(w, x), d, lo, hi)
  {
    ZeroEntry();
    hide Leaf, NewAt, Present, TreeOk;
    PushedOk(w, x);
    ReleasedApart(u, w, d, lo, hi);
    StuckFreed(t, w, d, x);
    ApartTrans(s, t, Pushed(w, x), d, -1);
  }

  // ---------- setupkvm ----------

  /** A row of the kernel's mappings: from virt on, size bytes, to phys. */
  datatype KmapRow = KmapRow(virt: nat, size: nat, phys: nat, perm: nat)

  function Kmap(data: nat, k: nat): KmapRow
    requires k < 4 && KERNBASE + EXTMEM < data < KERNBASE + PHYSTOP
  {
    match k
    case 0 => KmapRow(KERNBASE, EXTMEM, 0, PTE_W)
    case 1 => KmapRow(KERNBASE + EXTMEM, data - KERNBASE - EXTMEM, EXTMEM, 0)
    case 2 => KmapRow(data, PHYSTOP - (data - KERNBASE), data - KERNBASE, PTE_W)
    case _ => KmapRow(DEVSPACE, U32 - DEVSPACE, DEVSPACE, PTE_W)
  }

  /** What the address-space layout says about virtual page v: physical memory from KERNBASE on, devices on top. */
  function KernelLeaf(data: nat, v: nat): word
    requires v < NVPN
  {
    if v < UVPN then 0
    else if v < UVPN + NPAGE then
      Entry(v - UVPN, if KERNBASE + EXTMEM <= v * PGSIZE < data then 0 else PTE_W)
    else if DEVSPACE <= v * PGSIZE then Entry(v, PTE_W)
    else 0
  }

  /** The entry for page v after the first k rows. */
  function KmapLeaf(data: nat, k: nat, v: nat): word
    requires k <= 4 && KERNBASE + EXTMEM < data < KERNBASE + PHYSTOP && data % PGSIZE == 0 && v < NVPN
  {
    if k == 0 then 0
    else
      var row := Kmap(data, k - 1);
      if row.virt / PGSIZE <= v < (row.virt + row.size) / PGSIZE
      then Entry(row.phys / PGSIZE + (v - row.virt / PGSIZE), row.perm)
      else KmapLeaf(data, k - 1, v)
  }

  lemma RowFits(data: nat, k: nat)
    requires k < 4 && KERNBASE + EXTMEM < data < KERNBASE + PHYSTOP && data % PGSIZE == 0
    ensures var row := Kmap(data, k);
            && row.size >= 1 && row.virt + row.size <= U32 && row.phys % PGSIZE == 0 && row.perm < PGSIZE
            && row.virt / PGSIZE + Pages(row.virt, row.size) == (row.virt + row.size) / PGSIZE
            && row.phys / PGSIZE + Pages(row.virt, row.size) <= NVPN && row.virt / PGSIZE >= UVPN
  {
  }

  lemma NoRows(data: nat, mem: seq<Page>, d: nat)
    requires KERNBASE + EXTMEM < data < KERNBASE + PHYSTOP && data % PGSIZE == 0 && d < |mem|
    requires forall v: nat | v < NVPN :: Leaf(mem, d, v) == 0
    ensures forall v: nat | v < NVPN :: Leaf(mem, d, v) == KmapLeaf(data, 0, v)
  {
    hide Leaf;
  }

  lemma RowMapped(s: State, t: State, u: State, d: nat, data: nat, k: nat, m: nat)
    requires k < 4 && KERNBASE + EXTMEM < data < KERNBASE + PHYSTOP && data % PGSIZE == 0
    requires Apart(s, t, d, -1) && d < NPAGE && forall v: nat | v < NVPN :: Leaf(t.mem, d, v) == KmapLeaf(data, k, v)
    requires var row := Kmap(data, k);
             && row.virt / PGSIZE <= m <= (row.virt + row.size) / PGSIZE && row.virt / PGSIZE >= UVPN && row.perm < PGSIZE
             && row.phys / PGSIZE + (m - row.virt / PGSIZE) <= NVPN
             && MapsTo(t, u, d, row.virt / PGSIZE, m, row.phys / PGSIZE, row.perm)
    ensures Apart(s, u, d, -1) && IsDir(u, d)
    ensures var row := Kmap(data, k);
            && (m < NVPN && m < (row.virt + row.size) / PGSIZE ==> Leaf(t.mem, d, m) == KmapLeaf(data, k, m))
            && (m == (row.virt + row.size) / PGSIZE ==> forall v: nat | v < NVPN :: Leaf(u.mem, d, v) == KmapLeaf(data, k + 1, v))
  {
    hide Leaf, Entry, Apart;
    var row := Kmap(data, k);
    MapsApart(t, u, d, row.virt / PGSIZE, m, row.phys / PGSIZE, row.perm);
    ApartTrans(s, t, u, d, -1);
  }

  lemma ApartRefl(s: State, d: nat)
    requires Sized(s)
    ensures Apart(s, s, d, -1)
  {
  }

  lemma NobodyInHand(s: State, lo: nat, hi: nat, f: nat)
    requires Sized(s) && UVPN <= lo
    ensures InHand(s, lo, hi, f)
  {
  }

  /** The rows do not overlap. */
  lemma NoClash(data: nat, k: nat, v: nat)
    requires k < 4 && KERNBASE + EXTMEM < data < KERNBASE + PHYSTOP && data % PGSIZE == 0 && v < NVPN
    requires Kmap(data, k).virt / PGSIZE <= v < (Kmap(data, k).virt + Kmap(data, k).size) / PGSIZE
    ensures !Present(KmapLeaf(data, k, v))
  {
    ZeroEntry();
    hide Entry;
    if k > 0 {
      assert KmapLeaf(data, k, v) == KmapLeaf(data, k - 1, v);
      if k > 1 {
        assert KmapLeaf(data, k - 1, v) == KmapLeaf(data, k - 2, v);
        if k > 2 {
          assert KmapLeaf(data, k - 2, v) == KmapLeaf(data, k - 3, v);
        }
      }
    }
  }

  /** The four rows together are the layout. */
  lemma AllRows(data: nat)
    requires KERNBASE + EXTMEM < data < KERNBASE + PHYSTOP && data % PGSIZE == 0
    ensures forall v: nat | v < NVPN :: KmapLeaf(data, 4, v) == KernelLeaf(data, v)
  {
    hide Entry;
    forall v: nat | v < NVPN ensures KmapLeaf(data, 4, v) == KernelLeaf(data, v) {
      var d := data / PGSIZE;
      assert KmapLeaf(data, 1, v) == if UVPN <= v < UVPN + 256 then Entry(v - UVPN, PTE_W) else 0;
      assert KmapLeaf(data, 2, v) == if UVPN + 256 <= v < d then Entry(v - UVPN, 0) else KmapLeaf(data, 1, v);
      assert KmapLeaf(data, 3, v) == if d <= v < UVPN + NPAGE then Entry(v - UVPN, PTE_W) else KmapLeaf(data, 2, v);
    }
  }

  lemma TookDir(s: State, t: State, d: nat)
    requires Sized(s) && Sized(t) && s.first == t.first && d < NPAGE && s.role[d] == Free
    requires t.mem == s.mem[d := ZeroPage()] && t.role == s.role[d := Dir]
    ensures Apart(s, t, d, -1)
  {
  }

  /** How many pages the range of mappages touches. */
  function Pages(va: nat, size: nat): nat
    requires size >= 1
  {
    (va + size - 1) / PGSIZE - va / PGSIZE + 1
  }

  lemma HeadIs(s: State)
    requires ListOk(s)
    ensures Ptr(s.free, 0) == 0 <==> s.free == []
    ensures s.free != [] ==> s.free[0] < NPAGE && Ptr(s.free, 0) == Kva(s.free[0]) && PageOf(Ptr(s.free, 0)) == s.free[0]
  {
  }

  lemma InHandUpTo(s: State, lo: nat, m: nat, hi: nat, f: nat)
    requires Sized(s) && InHand(s, lo, hi, f) && lo <= m <= hi
    ensures InHand(s, lo, m, f)
  {
  }

  lemma MapsDir(s: State, t: State, d: nat, lo: nat, m: nat, f: nat, perm: nat)
    requires perm < PGSIZE && lo <= m && f + (m - lo) <= NVPN && MapsTo(s, t, d, lo, m, f, perm)
    ensures Sized(s) && Sized(t) && IsDir(s, d) && IsDir(t, d)
    ensures m < NVPN ==> Leaf(t.mem, d, m) == Leaf(s.mem, d, m)
  {
    hide Leaf;
  }

  lemma TableThere(s: State, d: nat, i: nat)
    requires TreeOk(s) && IsDir(s, d) && i < NENT
    ensures Present(s.mem[d][i]) ==>
              FrameOf(s.mem[d][i]) < NPAGE && s.role[FrameOf(s.mem[d][i])] == Tab(d, i) && FlagsOf(s.mem[d][i]) == OPEN
  {
    assert PdeOk(s, d, i);
  }

  lemma LeafThere(s: State, d: nat, v: nat)
    requires TreeOk(s) && IsDir(s, d) && v < NVPN && Present(s.mem[d][v / NENT])
    ensures FrameOf(s.mem[d][v / NENT]) < NPAGE && s.role[FrameOf(s.mem[d][v / NENT])] == Tab(d, v / NENT)
    ensures Leaf(s.mem, d, v) == s.mem[FrameOf(s.mem[d][v / NENT])][v % NENT]
  {
    assert PdeOk(s, d, v / NENT);
  }

  // ---------- freerange ----------

  /** The whole pages between the two addresses are free; all others are as they were. */
  ghost predicate RangeFreed(s: State, t: State, vstart: nat, vend: nat) {
    && Sized(s) && Sized(t) && t.first == s.first
    && (forall q: nat | q < NPAGE :: t.role[q] == if Whole(q, vstart, vend) then Free else s.role[q])
    && (forall q: nat | q < NPAGE && t.role[q] != Free :: t.mem[q] == s.mem[q])
  }

  predicate Whole(q: nat, vstart: nat, vend: nat)
    requires q < NPAGE
  {
    vstart <= Kva(q) && Kva(q) + PGSIZE <= vend
  }

  lemma RangeEmpty(s: State, vstart: nat, p: nat)
    requires Sized(s) && p < vstart + PGSIZE
    ensures RangeFreed(s, s, vstart, p)
  {
  }

  /** The page about to be freed is in hand, and freeing it completes the turn. */
  lemma RangeTurn(s: State, t: State, vstart: nat, p: nat, vend: nat)
    requires RangeFreed(s, t, vstart, p) && ListOk(t) && p % PGSIZE == 0 && KERNBASE <= vstart <= p && p + PGSIZE <= vend <= KERNBASE + PHYSTOP
    requires forall q: nat | q < NPAGE && Whole(q, vstart, vend) :: s.role[q] == Other
    ensures PageOf(p) < NPAGE && t.role[PageOf(p)] == Other
    ensures Sized(Pushed(t, PageOf(p))) && RangeFreed(s, Pushed(t, PageOf(p)), vstart, p + PGSIZE)
  {
    var k := PageOf(p);
    assert Kva(k) == p;
    assert !Whole(k, vstart, p) && Whole(k, vstart, vend);
    forall q: nat | q < NPAGE ensures Whole(q, vstart, p + PGSIZE) <==> Whole(q, vstart, p) || q == k {
    }
    hide Whole, Kva, ListOk;
  }

  lemma RangeDone(s: State, t: State, vstart: nat, p: nat, vend: nat)
    requires RangeFreed(s, t, vstart, p) && p % PGSIZE == 0 && p + PGSIZE > vend && (p < vstart + PGSIZE || p <= vend)
    ensures RangeFreed(s, t, vstart, vend)
  {
    forall q: nat | q < NPAGE ensures Whole(q, vstart, vend) <==> Whole(q, vstart, p) {
      assert Kva(q) % PGSIZE == 0;
    }
    hide Whole;
  }

  // ---------- deallocuvm and freevm ----------

  /** The first address under the next directory entry neither wraps nor passes a page with another directory entry. */
  lemma NextDirectory(a: nat)
    requires a < KERNBASE && a % PGSIZE == 0
    ensures var b := (Pdx(a) + 1) * (PGSIZE * NENT);
            && a < b <= KERNBASE && b % PGSIZE == 0 && b - PGSIZE == (b + (U32 - PGSIZE)) % U32
            && a <= b <= (a / PGSIZE / NENT + 1) * (PGSIZE * NENT)
  {
    Split(a);
  }

  lemma NaiveStep(s: State, d: nat, a: nat, hi: nat)
    requires Inv(s) && IsDir(s, d) && a % PGSIZE == 0 && a < hi <= KERNBASE
    ensures Naive(s, d, a, hi) == Naive(UnmapPage(s, d, a / PGSIZE), d, a + PGSIZE, hi)
  {
    hide UnmapPage;
  }

  lemma TornDownDir(role: seq<Role>, d: nat, i: nat)
    requires d < |role|
    ensures TornDown(role, d, i)[d] == Other
  {
  }

  lemma UserThere(s: State, d: nat, v: nat)
    requires Inv(s) && IsDir(s, d) && v < UVPN && Present(Leaf(s.mem, d, v))
    ensures s.first <= FrameOf(Leaf(s.mem, d, v)) < NPAGE && s.role[FrameOf(Leaf(s.mem, d, v))] == User(d, v)
  {
    assert LeafOk(s, d, v);
  }

  lemma UnmappedIs(s: State, d: nat, v: nat, t: nat, j: nat)
    requires Inv(s) && IsDir(s, d) && v < UVPN && Present(s.mem[d][v / NENT]) && Present(Leaf(s.mem, d, v))
    requires t == FrameOf(s.mem[d][v / NENT]) < NPAGE && s.role[t].Tab? && j == v % NENT
    requires FrameOf(Leaf(s.mem, d, v)) < NPAGE && s.role[FrameOf(Leaf(s.mem, d, v))].User?
    ensures var f := Pushed(s, FrameOf(Leaf(s.mem, d, v)));
            && Unmapped(s, d, v) == f.(mem := f.mem[t := f.mem[t][j := 0]])
            && Unmapped(s, d, v).free == f.free && Unmapped(s, d, v).first == f.first
  {
    hide FrameOf, Present, Leaf, TreeOk, ListOk;
    SizedIf(s);
    var f := Pushed(s, FrameOf(Leaf(s.mem, d, v)));
    assert f.mem[d] == s.mem[d];
    assert PutLeaf(f.mem, d, v, 0) == f.mem[t := f.mem[t][j := 0]];
  }

  lemma NothingLeft(s: State, t: State, d: nat)
    requires Released(s, t, d, 0, KERNBASE)
    ensures forall v: nat | v < UVPN :: !Present(Leaf(t.mem, d, v))
  {
    ZeroEntry();
    hide Leaf, Present;
  }

  // ---------- How many pages it takes ----------

  /** The tables of the kernel's mappings: 56 for physical memory, 8 for devices. */
  const KTABS: nat := 64

  /** The last directory entry on the way to the kernel's text. */
  function TextEntry(data: nat): nat
    requires data > KERNBASE
  {
    (data / PGSIZE - 1) / NENT
  }

  /** Directory entry i has a table after the first k rows of kmap. */
  predicate RowsReach(data: nat, k: nat, i: nat)
    requires data > KERNBASE
  {
    || (k >= 1 && i == 512)
    || (k >= 2 && 512 <= i <= TextEntry(data))
    || (k >= 3 && 512 <= i <= 567)
    || (k >= 4 && 1016 <= i <= 1023)
  }

  /** How many tables the first k rows take. */
  function RowTabs(data: nat, k: nat): int
    requires data > KERNBASE
  {
    if k == 0 then 0 else if k == 1 then 1 else if k == 2 then TextEntry(data) - 511 else if k == 3 then 56 else KTABS
  }

  ghost predicate KernelTabled(s: State, t: State, d: nat, data: nat, k: nat) {
    && Sized(s) && Sized(t) && d < NPAGE && data > KERNBASE
    && (forall i: nat | i < NENT :: Present(t.mem[d][i]) <==> RowsReach(data, k, i))
    && |t.free| == |s.free| - RowTabs(data, k)
  }

  lemma NoTables(s: State, d: nat, data: nat)
    requires Sized(s) && d < NPAGE && s.mem[d] == ZeroPage() && data > KERNBASE
    ensures KernelTabled(s, s, d, data, 0)
  {
    ZeroEntry();
    hide Present;
  }

  /** The pages of row k, and the first entry they leave to add. */
  lemma RowRange(data: nat, k: nat)
    requires k < 4 && KERNBASE + EXTMEM < data < KERNBASE + PHYSTOP && data % PGSIZE == 0
    ensures 512 <= TextEntry(data) <= 567
    ensures var row := Kmap(data, k);
            var lo, hi := row.virt / PGSIZE, (row.virt + row.size) / PGSIZE;
            && lo < hi <= NVPN
            && lo / NENT == (if k < 2 then 512 else if k == 2 then data / PGSIZE / NENT else 1016)
            && (hi - 1) / NENT == if k == 0 then 512 else if k == 1 then TextEntry(data) else if k == 2 then 567 else 1023
    ensures TextEntry(data) <= data / PGSIZE / NENT <= TextEntry(data) + 1
  {
  }

  lemma RowNeeds(s: State, t: State, d: nat, data: nat, k: nat)
    requires k < 4 && KERNBASE + EXTMEM < data < KERNBASE + PHYSTOP && data % PGSIZE == 0 && KernelTabled(s, t, d, data, k)
    ensures var row := Kmap(data, k);
            NewTabs(t.mem, d, row.virt / PGSIZE, (row.virt + row.size) / PGSIZE) == RowTabs(data, k + 1) - RowTabs(data, k)
    ensures RowTabs(data, k + 1) <= KTABS && |t.free| == |s.free| - RowTabs(data, k)
  {
    hide Present, NewTabs, TextEntry;
    RowRange(data, k);
    var row := Kmap(data, k);
    var lo, hi := row.virt / PGSIZE, (row.virt + row.size) / PGSIZE;
    NewTabsAbove(t.mem, d, lo, hi, if k == 0 then 511 else if k == 1 then 512 else if k == 2 then TextEntry(data) else 1015);
  }

  lemma RowTabled(s: State, t: State, u: State, d: nat, data: nat, k: nat)
    requires k < 4 && KERNBASE + EXTMEM < data < KERNBASE + PHYSTOP && data % PGSIZE == 0 && KernelTabled(s, t, d, data, k)
    requires var row := Kmap(data, k); Tabled(t, u, d, row.virt / PGSIZE, (row.virt + row.size) / PGSIZE)
    ensures KernelTabled(s, u, d, data, k + 1)
  {
    RowNeeds(s, t, d, data, k);
    hide Present, NewTabs, TextEntry;
    RowRange(data, k);
  }

  lemma AllTabled(s: State, t: State, d: nat, data: nat)
    requires KernelTabled(s, t, d, data, 4)
    ensures |s.free| >= KTABS
  {
    hide Present;
  }

  lemma UserUntabled(s: State, t: State, d: nat, data: nat)
    requires KernelTabled(s, t, d, data, 4)
    ensures |t.mem| == NPAGE && |t.free| == |s.free| - KTABS && forall i: nat | i < NENT / 2 :: !Present(t.mem[d][i])
  {
    hide Present;
  }

  /** The pages allocuvm takes to grow from oldsz to newsz: the user pages and the tables that are missing. */
  ghost function UserNeed(mem: seq<Page>, d: nat, oldsz: nat, newsz: nat): nat
    requires d < |mem| && oldsz <= newsz < KERNBASE
  {
    if RoundUp(oldsz) >= newsz then 0 else GrowNeed(mem, d, RoundUp(oldsz) / PGSIZE, RoundUp(newsz) / PGSIZE)
  }

  lemma NeedStops(s: State, t: State, z: State, d: nat, oldsz: nat, newsz: nat, a: nat)
    requires oldsz <= newsz < KERNBASE && RoundUp(oldsz) <= a < newsz && a % PGSIZE == 0
    requires Drawn(s, t, d, RoundUp(oldsz) / PGSIZE, a / PGSIZE)
    requires t.free == [] || (Sized(z) && z.mem[d] == t.mem[d] && |z.free| == |t.free| - 1
                              && |z.free| < NewTabs(z.mem, d, a / PGSIZE, a / PGSIZE + 1))
    ensures |s.mem| == NPAGE && d < NPAGE && |s.free| < UserNeed(s.mem, d, oldsz, newsz)
  {
    hide Present, NewTabs, GrowNeed, RoundUp, Drawn;
    RoundUpFacts(newsz);
    DrawnFrom(s, t, d, RoundUp(oldsz) / PGSIZE, a / PGSIZE);
    DrawnStops(s, t, z, d, RoundUp(oldsz) / PGSIZE, a / PGSIZE, RoundUp(newsz) / PGSIZE);
  }

  lemma NeedDone(s: State, t: State, d: nat, oldsz: nat, newsz: nat, a: nat)
    requires oldsz <= newsz < KERNBASE && RoundUp(oldsz) <= a && a % PGSIZE == 0 && newsz <= a
    requires a < newsz + PGSIZE && Drawn(s, t, d, RoundUp(oldsz) / PGSIZE, a / PGSIZE)
    ensures |s.mem| == NPAGE && d < NPAGE && |s.free| >= UserNeed(s.mem, d, oldsz, newsz)
  {
    hide Present, NewTabs, GrowNeed, RoundUp;
    RoundUpFacts(oldsz);
    RoundUpFacts(newsz);
    assert RoundUp(newsz) == a;
  }

  /** The pages copyuvm takes: those of setupkvm, the user pages, and a table for every 1024 of them. */
  function CopyNeed(sz: nat): nat {
    1 + KTABS + RoundUp(sz) / PGSIZE + (RoundUp(sz) / PGSIZE + NENT - 1) / NENT
  }

  lemma ChildNeeds(mem: seq<Page>, d: nat, sz: nat)
    requires |mem| == NPAGE && d < NPAGE && sz <= KERNBASE && forall i: nat | i < NENT / 2 :: !Present(mem[d][i])
    ensures RoundUp(sz) / PGSIZE <= UVPN && 1 + KTABS + GrowNeed(mem, d, 0, RoundUp(sz) / PGSIZE) == CopyNeed(sz)
  {
    hide Present;
    var hi := RoundUp(sz) / PGSIZE;
    if hi > 0 {
      NewTabsAbove(mem, d, 0, hi, -1);
    }
  }

  lemma DrawnFrom(s: State, t: State, d: nat, lo: nat, m: nat)
    requires Drawn(s, t, d, lo, m)
    ensures |s.mem| == NPAGE && d < NPAGE && lo <= m
  {
    hide Present;
  }

  lemma DrawnEnough(s: State, t: State, d: nat, m: nat)
    requires Drawn(s, t, d, 0, m)
    ensures |s.mem| == NPAGE && d < NPAGE && m <= NVPN && |s.free| >= GrowNeed(s.mem, d, 0, m)
  {
    hide Present;
  }
}

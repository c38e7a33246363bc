/** malloc, free and morecore of umalloc.c, over the headers in memory. */
module Umalloc {
  import opened Basics
  import opened FreeList

  /** How many units a request takes: its bytes rounded up, and one for the header. */
  function Units(nbytes: nat): nat {
    (nbytes + 7) / 8 + 1
  }

  class Allocator {
    /** The static header `base`, below all memory sbrk hands out. */
    const base: nat
    /** What sbrk answers, call by call: how far above the break the memory lies, or a refusal; after the last, refusals. */
    const answers: seq<Option<nat>>
    var mem: map<nat, Header>
    var freep: nat
    /** The break, in units, and the number of sbrk calls so far. */
    var brk: nat
    var calls: nat
    ghost var list: seq<nat>
    ghost var live: set<nat>
    ghost var own: map<nat, nat>
    /** freep is entry `at` of the list. */
    ghost var at: nat
    /** Units sbrk has handed out. */
    ghost var obtained: nat

    ghost function Now(): Heap
      reads this
    {
      Heap(base, mem, list, live, own)
    }

    ghost predicate Sane()
      reads this
    {
      && 0 < base < brk && Tiled(Now()) && Coalesced(Now())
      && at < |list| && freep == list[at] && freep != 0
      && forall u | u in own :: u < brk
    }

    /** The list is in order, and every unit sbrk handed out is accounted for. */
    ghost predicate Ready()
      reads this
    {
      Sane() && Total(Now()) == obtained
    }

    ghost predicate Valid()
      reads this
    {
      if freep == 0 then 0 < base < brk && list == [] && live == {} && own == map[] && obtained == 0 else Ready()
    }

    /** Conservation: the sizes on the free list and of the live blocks add up to what sbrk has handed out. */
    lemma NothingLeaks()
      requires Ready()
      ensures Sorted(Now()) && (forall b | b in live :: b in mem)
      ensures ListUnits(Now(), |list|) + BlockUnits(Now(), live) == obtained
    {
      hide Linked, Owns, UnitOk, Coalesced, Total;
      Conservation(Now());
    }

    constructor (base: nat, brk: nat, answers: seq<Option<nat>>)
      requires 0 < base < brk
      ensures Valid() && this.base == base && this.answers == answers && calls == 0 && live == {} && own == map[] && obtained == 0
    {
      this.base, this.brk, this.answers, freep, calls := base, brk, answers, 0, 0;
      mem, list, live, own, at, obtained := map[], [], {}, map[], 0, 0;
    }

    /** The next answer of sbrk is a refusal. */
    predicate Refuses()
      reads this`calls
    {
      calls >= |answers| || answers[calls].None?
    }

    /** sbrk: refuses, or hands out memory at or above the break. */
    method Sbrk(n: nat) returns (r: Option<nat>)
      modifies this`brk, this`calls, this`obtained
      ensures calls == old(calls) + 1 && (r.None? <==> old(Refuses()))
      ensures r.None? ==> brk == old(brk) && obtained == old(obtained)
      ensures r.Some? ==> old(brk) <= r.value && brk == r.value + n && obtained == old(obtained) + n
    {
      var refused := Refuses();
      if refused {
        calls := calls + 1;
        return None;
      }
      r := Some(brk + answers[calls].value);
      brk := r.value + n;
      calls, obtained := calls + 1, obtained + n;
    }

    /** free's search: it ends within one lap, at the entry the block belongs behind. */
    method Search(bp: nat) returns (p: nat, ghost t: nat, ghost steps: nat)
      requires Ready() && bp in live
      ensures Between(Now(), bp, t) && p == list[t] && steps < |list|
      ensures p in mem && p < bp && (bp < mem[p].ptr || mem[p].ptr == base)
    {
      hide Tiled, Coalesced;
      t := Spot(Now(), bp);
      p := freep;
      ghost var k: nat, n: nat := at, |list|;
      steps := 0;
      NextIs(Now(), k);
      while !(bp > p && bp < mem[p].ptr)
        invariant k < n && p == list[k] && p in mem && mem[p].ptr == list[Now().Next(k)]
        invariant steps + Ahead(n, k, t) == Ahead(n, at, t)
        decreases Ahead(n, k, t)
      {
        Stops(Now(), bp, t, k);
        if p >= mem[p].ptr && (bp > p || bp < mem[p].ptr) { break; }
        p := mem[p].ptr;
        k := Now().Next(k);
        NextIs(Now(), k);
        steps := steps + 1;
      }
      Stops(Now(), bp, t, k);
      NextIs(Now(), t);
      BaseFirst(Now());
    }

    /** The writes of free. */
    method Link(bp: nat, p: nat)
      requires p in mem && bp in mem && mem[p].ptr in mem && bp != mem[p].ptr && bp != p
      modifies this`mem
      ensures mem == LowerWrite(UpperWrite(old(mem), p, bp), p, bp)
    {
      if bp + mem[bp].size == mem[p].ptr {
        mem := mem[bp := Header(mem[bp].ptr, mem[bp].size + mem[mem[p].ptr].size)];
        mem := mem[bp := Header(mem[mem[p].ptr].ptr, mem[bp].size)];
      } else {
        mem := mem[bp := Header(mem[p].ptr, mem[bp].size)];
      }
      if p + mem[p].size == bp {
        mem := mem[p := Header(mem[p].ptr, mem[p].size + mem[bp].size)];
        mem := mem[p := Header(mem[bp].ptr, mem[p].size)];
      } else {
        mem := mem[p := Header(bp, mem[p].size)];
      }
    }

    /** free: the block joins the free units, coalesced with the free blocks it touches. */
    method Free(ap: nat) returns (ghost steps: nat)
      requires Valid() && ap >= 1 && ap - 1 in live
      modifies this`mem, this`freep, this`list, this`live, this`own, this`at
      ensures Ready() && steps < |old(list)|
      ensures live == old(live) - {ap - 1} && own.Keys == old(own).Keys
      ensures LiveKept(old(Now()), Now())
      ensures ap - 1 in own && (own[ap - 1] == freep || (at + 1 < |list| && own[ap - 1] == list[at + 1]))
      ensures ap - 1 in old(mem) && own[ap - 1] in mem && mem[own[ap - 1]].size >= old(mem)[ap - 1].size
    {
      hide Tiled, Coalesced, Freed, LiveKept, LowerWrite, UpperWrite, Between, Total;
      var bp := ap - 1;
      ghost var h := Now();
      var p;
      ghost var t;
      p, t, steps := Search(bp);
      FreedOk(h, bp, t);
      FreedMem(h, bp, t);
      FreedKeeps(h, bp, t);
      SpotApart(h, bp, t);
      Link(bp, p);
      freep := p;
      ghost var h' := Freed(h, bp, t);
      list, live, own, at := h'.list, h'.live, h'.own, t;
      assert Now() == h';
      TotalSame(h, h');
    }

    /** The header for memory just obtained: until it is freed it counts as handed out. */
    method AddCore(hp: nat, n: nat)
      requires Sane() && Total(Now()) + n == obtained
      requires base < hp && n >= 1 && hp + n <= brk && forall u | u in own :: u < hp
      modifies this`mem, this`live, this`own
      ensures Ready() && live == old(live) + {hp} && hp !in old(live) && LiveKept(old(Now()), Now())
      ensures old(own).Keys <= own.Keys && hp in mem && mem[hp].size == n
    {
      hide Tiled, Coalesced, LiveKept, Total, Range;
      ghost var h := Now();
      var garbage := if hp in mem then mem[hp].ptr else 0;
      CoredOk(h, hp, n, garbage);
      CoredKeeps(h, hp, n, garbage);
      CoredKeys(h, hp, n, garbage);
      CoredSize(h, hp, n, garbage);
      CoredCoalesced(h, hp, n, garbage);
      ghost var c := Cored(h, hp, n, garbage);
      mem := mem[hp := Header(garbage, n)];
      live, own := c.live, c.own;
      assert Now() == c;
    }

    /** morecore: at least 4096 units, handed to free; 0 exactly when sbrk refuses. */
    method MoreCore(nu: nat) returns (r: nat)
      requires Ready() && nu >= 1
      modifies this
      ensures Ready() && calls == old(calls) + 1 && live == old(live) && LiveKept(old(Now()), Now())
      ensures r == 0 <==> old(Refuses())
      ensures r == 0 ==> Now() == old(Now()) && brk == old(brk) && obtained == old(obtained)
      ensures r != 0 ==> r == freep && old(own).Keys <= own.Keys
      ensures r != 0 ==> obtained == old(obtained) + (if nu < 4096 then 4096 else nu)
      ensures r != 0 ==> freep in mem && (mem[freep].size >= nu || (at + 1 < |list| && list[at + 1] in mem && mem[list[at + 1]].size >= nu))
    {
      hide Tiled, Coalesced, LiveKept, Total;
      var n := if nu < 4096 then 4096 else nu;
      ghost var h := Now();
      var p := Sbrk(n);
      if p.None? {
        KeptRefl(h);
        return 0;
      }
      AddCore(p.value, n);
      ghost var c := Now();
      ghost var steps := Free(p.value + 1);
      KeptTrans(h, c, Now(), p.value);
      NextIs(Now(), at);
      return freep;
    }

    /** Block k, which fits exactly, leaves the list. */
    method TakeWhole(p: nat, prevp: nat, ghost k: nat)
      requires Ready() && 1 <= k < |list| && p == list[k] && prevp == list[k - 1] && p in mem
      modifies this`mem, this`freep, this`list, this`live, this`at
      ensures Ready() && p !in old(live) && live == old(live) + {p} && p in mem && mem[p].size == old(mem)[p].size
      ensures LiveKept(old(Now()), Now())
    {
      hide Tiled, Coalesced, LiveKept, Removed, Total;
      ghost var h := Now();
      Entries(h, k);
      TakenOk(h, k);
      TakenCoalesced(h, k);
      TakenKeeps(h, k);
      RemovedAt(h.list, k, k - 1);
      mem := mem[prevp := Header(mem[p].ptr, mem[prevp].size)];
      list, live := Removed(list, k), live + {p};
      assert Now() == Taken(h, k);
      freep := prevp;
      at := k - 1;
      TotalSame(h, Now());
    }

    /** The last n units of block k become a block of their own. */
    method TakeTail(p: nat, prevp: nat, n: nat, ghost k: nat) returns (q: nat)
      requires Ready() && 1 <= k < |list| && p == list[k] && prevp == list[k - 1] && p in mem && 1 <= n < mem[p].size
      modifies this`mem, this`freep, this`live, this`own, this`at
      ensures Ready() && q !in old(live) && live == old(live) + {q} && q in mem && mem[q].size == n
      ensures own.Keys == old(own).Keys && LiveKept(old(Now()), Now())
    {
      hide Tiled, Coalesced, LiveKept, Total;
      ghost var h := Now();
      Entries(h, k);
      var rest := mem[p].size - n;
      q := p + rest;
      var garbage := if q in mem then mem[q].ptr else 0;
      SplitOk(h, k, n, garbage);
      SplitCoalesced(h, k, n, garbage);
      SplitKeeps(h, k, n, garbage);
      mem := mem[p := Header(mem[p].ptr, rest)];
      mem := mem[q := Header(garbage, n)];
      live, own := Split(h, k, n, garbage).live, Split(h, k, n, garbage).own;
      assert Now() == Split(h, k, n, garbage);
      freep := prevp;
      at := k - 1;
      TotalSame(h, Now());
    }

    /** malloc's end: block k is handed out whole, or its last n units are. */
    method Take(p: nat, prevp: nat, n: nat, ghost k: nat) returns (r: nat)
      requires Ready() && 1 <= k < |list| && p == list[k] && prevp == list[k - 1] && n >= 1
      requires p in mem && mem[p].size >= n
      modifies this`mem, this`freep, this`list, this`live, this`own, this`at
      ensures Ready() && r != 0 && r - 1 !in old(live) && live == old(live) + {r - 1} && r - 1 in mem && mem[r - 1].size == n
      ensures own.Keys == old(own).Keys && LiveKept(old(Now()), Now())
    {
      hide Tiled, Coalesced, LiveKept, Total;
      if mem[p].size == n {
        TakeWhole(p, prevp, k);
        r := p + 1;
      } else {
        var q := TakeTail(p, prevp, n, k);
        r := q + 1;
      }
    }

    /**
     malloc: nil exactly when no free block is large enough and sbrk refuses;
     otherwise a block, apart from all others, with room for nbytes. sbrk is
     asked once if no free block is large enough, and not at all otherwise.
     */
    method Malloc(nbytes: nat) returns (r: nat)
      requires Valid() && 8 * Units(nbytes) < 0x8000_0000
      modifies this
      ensures Ready() && LiveKept(old(Now()), Now()) && old(own).Keys <= own.Keys
      ensures r == 0 ==> live == old(live) && own == old(own) && obtained == old(obtained)
      ensures r != 0 ==> r - 1 !in old(live) && live == old(live) + {r - 1} && r - 1 in mem && mem[r - 1].size == Units(nbytes)
      ensures r != 0 ==>
                obtained == old(obtained) + if HasFit(old(Now()), Units(nbytes)) then 0 else if Units(nbytes) < 4096 then 4096 else Units(nbytes)
      // room for nbytes behind the header, and not a unit more
      ensures nbytes <= 8 * (Units(nbytes) - 1) < nbytes + 8
      ensures calls == if HasFit(old(Now()), Units(nbytes)) then old(calls) else old(calls) + 1
      ensures r == 0 <==> !HasFit(old(Now()), Units(nbytes)) && old(Refuses())
    {
      hide Tiled, Coalesced, LiveKept, HasFit, Ahead, Passed, Coming, Total;
      var nunits := Units(nbytes);
      ghost var h0 := Now();
      var prevp := freep;
      if prevp == 0 {
        mem := mem[base := Header(base, 0)];
        freep, prevp := base, base;
        list, at := [base], 0;
      }
      ghost var h := Now();
      Started(h0, h, nunits);
      r := Fit(nunits, prevp);
      KeptFrom(h0, h, Now());
    }

    /** malloc's loop, entered at the successor of freep. */
    method Fit(nunits: nat, prev: nat) returns (r: nat)
      requires Ready() && nunits >= 1 && prev == freep
      modifies this
      ensures Ready() && LiveKept(old(Now()), Now()) && old(own).Keys <= own.Keys
      ensures r == 0 ==> live == old(live) && own == old(own) && obtained == old(obtained)
      ensures r != 0 ==> r - 1 !in old(live) && live == old(live) + {r - 1} && r - 1 in mem && mem[r - 1].size == nunits
      ensures r != 0 ==> obtained == old(obtained) + if HasFit(old(Now()), nunits) then 0 else if nunits < 4096 then 4096 else nunits
      ensures calls == if HasFit(old(Now()), nunits) then old(calls) else old(calls) + 1
      ensures r == 0 <==> !HasFit(old(Now()), nunits) && old(Refuses())
    {
      hide Tiled, Coalesced, LiveKept, HasFit, Ahead, Passed, Coming, Total;
      ghost var h := Now();
      ghost var asked := false;
      NextIs(h, at);
      ghost var k: nat := h.Next(at);
      PassedNone(h, at, nunits);
      KeptRefl(h);
      var prevp := prev;
      var p := mem[prevp].ptr;
      while true
        invariant Ready() && k < |list| && p == list[k] && p in mem && (k > 0 ==> prevp == list[k - 1])
        invariant LiveKept(h, Now()) && live == h.live && h.own.Keys <= own.Keys
        invariant !asked ==> Now() == h && calls == old(calls) && obtained == old(obtained) && Passed(h, at, k, nunits)
        invariant asked ==> calls == old(calls) + 1 && !HasFit(h, nunits) && Coming(Now(), at, k, nunits)
        invariant asked ==> !old(Refuses())
        invariant asked ==> obtained == old(obtained) + if nunits < 4096 then 4096 else nunits
        decreases !asked, Ahead(|list|, k, at)
      {
        ghost var g := Now();
        if mem[p].size >= nunits {
          Found(g, k, nunits);
          r := Take(p, prevp, nunits, k);
          KeptChain(h, g, Now());
          return;
        }
        SameEntry(g, k, at);
        if p == freep {
          NotYetAsked(g, at, k, nunits);
          NoFit(g, at, nunits);
          p := MoreCore(nunits);
          if p == 0 { return 0; }
          KeptChain(h, g, Now());
          asked, k := true, at;
          Comes(Now(), at, nunits);
        } else {
          PassedOne(g, at, k, nunits);
        }
        NextIs(Now(), k);
        prevp := p;
        p := mem[p].ptr;
        k := Now().Next(k);
      }
    }
  }

  lemma TotalSame(h: Heap, h': Heap)
    requires h'.own.Keys == h.own.Keys
    ensures Total(h') == Total(h)
  {
  }

  lemma Spot(h: Heap, bp: nat) returns (t: nat)
    requires Tiled(h) && bp in h.live
    ensures Between(h, bp, t) && h.base < bp && bp in h.mem
  {
    hide Linked, UnitOk;
    assert Owns(h, bp);
    t := FindSpot(h, bp, |h.list|);
  }

  lemma BaseFirst(h: Heap)
    requires Tiled(h)
    ensures |h.list| > 0 && h.list[0] == h.base
  {
  }

  lemma NextIs(h: Heap, k: nat)
    requires Tiled(h) && k < |h.list|
    ensures h.Next(k) < |h.list| && h.list[k] in h.mem && h.mem[h.list[k]].ptr == h.list[h.Next(k)]
    ensures h.list[h.Next(k)] in h.mem
  {
    hide UnitOk, Owns;
    assert Linked(h, k);
  }

  lemma Stops(h: Heap, bp: nat, t: nat, k: nat)
    requires Tiled(h) && bp in h.live && Between(h, bp, t) && k < |h.list|
    ensures h.list[k] in h.mem
    ensures var p, q := h.list[k], h.mem[h.list[k]].ptr;
            (bp > p && bp < q) || (p >= q && (bp > p || bp < q)) <==> k == t
  {
    hide UnitOk;
    assert Owns(h, bp) && Linked(h, k);
    StopsThere(h, bp, t, k);
  }

  lemma SpotApart(h: Heap, bp: nat, t: nat)
    requires Tiled(h) && bp in h.live && Between(h, bp, t)
    ensures t < |h.list| && h.list[t] in h.mem && h.mem[h.list[t]].ptr in h.mem && h.base <= h.list[t]
    ensures bp in h.mem && bp in h.own && bp != h.list[t] && bp != h.mem[h.list[t]].ptr
  {
    hide UnitOk;
    assert Owns(h, bp) && Linked(h, t);
    if t > 0 { assert Before(h.list, 0, t); }
  }

  lemma KeptRefl(h: Heap)
    requires Tiled(h)
    ensures LiveKept(h, h)
  {
    hide UnitOk, Linked;
    forall b | b in h.live ensures b in h.mem { assert Owns(h, b); }
  }

  lemma Entries(h: Heap, k: nat)
    requires Tiled(h) && 1 <= k < |h.list|
    ensures Sorted(h) && h.list[k] in h.mem && h.list[k - 1] in h.mem && h.base <= h.list[k - 1] && h.list[k] != h.list[k - 1]
  {
    hide Linked, Owns, UnitOk;
    assert Before(h.list, k - 1, k);
    if k > 1 { assert Before(h.list, 0, k - 1); }
  }

  // ---------- malloc's search ----------

  predicate Small(h: Heap, j: nat, n: nat)
    requires j < |h.list|
  {
    h.list[j] in h.mem ==> h.mem[h.list[j]].size < n
  }

  /** Going round from behind entry `at`, every entry before k was too small. */
  ghost predicate Passed(h: Heap, at: nat, k: nat, n: nat)
    requires at < |h.list| && k < |h.list|
  {
    forall j: nat | j < |h.list| && Ahead(|h.list|, j, at) > Ahead(|h.list|, k, at) :: Small(h, j, n)
  }

  /** A large enough entry lies between k and entry `at`. */
  ghost predicate Coming(h: Heap, at: nat, k: nat, n: nat)
    requires at < |h.list| && k < |h.list|
  {
    !Small(h, at, n) || (k == h.Next(at) && !Small(h, k, n))
  }

  lemma PassedNone(h: Heap, at: nat, n: nat)
    requires at < |h.list|
    ensures Passed(h, at, h.Next(at), n)
  {
  }

  lemma PassedOne(h: Heap, at: nat, k: nat, n: nat)
    requires at < |h.list| && k < |h.list| && k != at && Small(h, k, n)
    ensures Ahead(|h.list|, h.Next(k), at) + 1 == Ahead(|h.list|, k, at)
    ensures Passed(h, at, k, n) ==> Passed(h, at, h.Next(k), n)
    ensures Coming(h, at, k, n) ==> Coming(h, at, h.Next(k), n)
  {
  }

  lemma NotYetAsked(h: Heap, at: nat, k: nat, n: nat)
    requires at < |h.list| && k < |h.list| && k == at && Small(h, k, n)
    ensures !Coming(h, at, k, n)
    ensures Passed(h, at, k, n) ==> forall j: nat | j < |h.list| :: Small(h, j, n)
  {
  }

  lemma NoFit(h: Heap, at: nat, n: nat)
    requires at < |h.list|
    ensures (forall j: nat | j < |h.list| :: Small(h, j, n)) ==> !HasFit(h, n)
  {
    if HasFit(h, n) {
      var k: nat :| 1 <= k < |h.list| && h.list[k] in h.mem && h.mem[h.list[k]].size >= n;
      assert !Small(h, k, n);
    }
  }

  lemma Comes(h: Heap, at: nat, n: nat)
    requires at < |h.list| && h.list[at] in h.mem
    requires h.mem[h.list[at]].size >= n || (at + 1 < |h.list| && h.list[at + 1] in h.mem && h.mem[h.list[at + 1]].size >= n)
    ensures Coming(h, at, h.Next(at), n)
  {
  }

  /** A large enough entry is not base, and it fits. */
  lemma Found(h: Heap, k: nat, n: nat)
    requires Tiled(h) && k < |h.list| && h.list[k] in h.mem && h.mem[h.list[k]].size >= n >= 1
    ensures k >= 1 && HasFit(h, n)
  {
    hide Linked, Owns, UnitOk;
  }

  lemma SameEntry(h: Heap, k: nat, at: nat)
    requires Tiled(h) && k < |h.list| && at < |h.list|
    ensures h.list[k] == h.list[at] <==> k == at
  {
    hide Linked, Owns, UnitOk;
    if k < at { assert Before(h.list, k, at); }
    if at < k { assert Before(h.list, at, k); }
  }

  lemma KeptChain(h: Heap, g: Heap, h': Heap)
    requires LiveKept(h, g) && LiveKept(g, h') && g.live == h.live
    ensures LiveKept(h, h')
  {
  }

  /** The list holds base alone until memory is obtained. */
  lemma Started(h0: Heap, h: Heap, n: nat)
    requires h == h0 || (h0.list == [] && h0.live == {} && h0.own == map[] && h == h0.(mem := h0.mem[h0.base := Header(h0.base, 0)], list := [h0.base]))
    ensures h != h0 ==> Tiled(h) && Coalesced(h) && Total(h) == 0
    ensures HasFit(h, n) <==> HasFit(h0, n)
  {
    if h != h0 {
      assert Sorted(h);
      assert forall i: nat | i < |h.list| :: Linked(h, i);
    }
  }

  lemma KeptFrom(h0: Heap, h: Heap, h': Heap)
    requires LiveKept(h, h') && (h == h0 || h0.live == {})
    ensures LiveKept(h0, h')
  {
  }
}

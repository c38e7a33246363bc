/**
 umalloc.c: the circular, address-ordered free list of section 8.7 of The C
 Programming Language. Addresses count header-sized units. `Tiled` says that
 the list is sorted and starts at `base`, and that the units obtained from
 sbrk are exactly covered, each once, by the free and the live blocks.
 */
module FreeList {
  datatype Header = Header(ptr: nat, size: nat)

  /**
   mem: the headers in memory; list: the free list from base on; live: blocks
   handed out; own: for every unit obtained from sbrk, the block it lies in.
   */
  datatype Heap = Heap(base: nat, mem: map<nat, Header>, list: seq<nat>, live: set<nat>, own: map<nat, nat>) {
    function End(b: nat): nat
      requires b in mem
    {
      b + mem[b].size
    }

    function Next(i: nat): nat {
      if i + 1 < |list| then i + 1 else 0
    }
  }

  ghost predicate IsFree(h: Heap, b: nat) {
    exists k :: 1 <= k < |h.list| && h.list[k] == b
  }

  predicate Before(s: seq<nat>, i: nat, j: nat)
    requires i < j < |s|
  {
    s[i] < s[j]
  }

  ghost predicate Sorted(h: Heap) {
    && |h.list| >= 1 && h.list[0] == h.base
    && (forall i: nat, j: nat | i < j < |h.list| :: Before(h.list, i, j))
    && (forall i | 0 <= i < |h.list| :: h.list[i] in h.mem)
    && h.mem[h.base].size == 0
  }

  ghost predicate Linked(h: Heap, i: nat)
    requires Sorted(h) && i < |h.list|
  {
    h.mem[h.list[i]].ptr == h.list[h.Next(i)]
  }

  /** Block b consists of the units own gives it. */
  ghost predicate Owns(h: Heap, b: nat) {
    && b in h.mem && h.mem[b].size >= 1 && h.base < b
    && forall u: nat | b <= u < h.End(b) :: u in h.own && h.own[u] == b
  }

  ghost predicate UnitOk(h: Heap, u: nat)
    requires u in h.own
  {
    var b := h.own[u];
    b in h.mem && b <= u < h.End(b) && (b in h.live || IsFree(h, b))
  }

  ghost predicate Tiled(h: Heap) {
    && Sorted(h)
    && (forall i: nat | i < |h.list| :: Linked(h, i))
    && (forall i | 1 <= i < |h.list| :: Owns(h, h.list[i]) && h.list[i] !in h.live)
    && (forall b | b in h.live :: Owns(h, b))
    && (forall u | u in h.own :: UnitOk(h, u))
  }

  /** Free block i ends where the next one begins. */
  ghost predicate Touches(h: Heap, i: nat)
    requires Sorted(h)
  {
    1 <= i && i + 1 < |h.list| && h.End(h.list[i]) == h.list[i + 1]
  }

  ghost predicate Coalesced(h: Heap)
    requires Sorted(h)
  {
    forall i: nat :: !Touches(h, i)
  }

  /** Blocks do not overlap: the order of their starts is the order of their units. */
  lemma Disjoint(h: Heap, a: nat, b: nat)
    requires Tiled(h) && Owns(h, a) && Owns(h, b) && a < b
    ensures h.End(a) <= b
  {
    assert b in h.own && h.own[b] == b;
  }

  // ---------- Linking a block in ----------

  ghost function LinkIn(h: Heap, bp: nat, t: nat): Heap
    requires Sorted(h) && bp in h.mem && t < |h.list|
  {
    var p := h.list[t];
    var m := h.mem[bp := Header(h.list[h.Next(t)], h.mem[bp].size)];
    h.(mem := m[p := Header(bp, m[p].size)],
       list := Inserted(h.list, t, bp),
       live := h.live - {bp})
  }

  /** bp belongs behind entry t of the list. */
  ghost predicate Between(h: Heap, bp: nat, t: nat) {
    t < |h.list| && h.list[t] < bp && (t + 1 < |h.list| ==> bp < h.list[t + 1])
  }

  /** x inserted behind entry t. */
  function Inserted(s: seq<nat>, t: nat, x: nat): seq<nat>
    requires t < |s|
  {
    s[..t + 1] + [x] + s[t + 1..]
  }

  lemma InsertedAt(s: seq<nat>, t: nat, x: nat, i: nat)
    requires t < |s| && i <= |s|
    ensures |Inserted(s, t, x)| == |s| + 1
    ensures Inserted(s, t, x)[i] == if i <= t then s[i] else if i == t + 1 then x else s[i - 1]
  {
  }

  lemma InsertedBefore(s: seq<nat>, t: nat, x: nat, i: nat, j: nat)
    requires t < |s| && i < j <= |s| && s[t] < x && (t + 1 < |s| ==> x < s[t + 1])
    requires forall i: nat, j: nat | i < j < |s| :: Before(s, i, j)
    ensures |Inserted(s, t, x)| == |s| + 1 && Before(Inserted(s, t, x), i, j)
  {
    InsertedAt(s, t, x, i);
    InsertedAt(s, t, x, j);
    hide Inserted;
    if i < t { assert Before(s, i, t); }
    if t + 2 < j { assert Before(s, t + 1, j - 1); }
    if i <= t && j <= t { assert Before(s, i, j); }
    if i <= t && j >= t + 2 { assert Before(s, i, j - 1); }
    if i >= t + 2 { assert Before(s, i - 1, j - 1); }
  }

  lemma LinkInSorted(h: Heap, bp: nat, t: nat)
    requires Sorted(h) && Owns(h, bp) && Between(h, bp, t)
    ensures Sorted(LinkIn(h, bp, t))
  {
    var h' := LinkIn(h, bp, t);
    InsertedAt(h.list, t, bp, 0);
    forall i: nat | i < |h'.list| ensures h'.list[i] in h'.mem { InsertedAt(h.list, t, bp, i); }
    forall i: nat, j: nat | i < j < |h'.list| ensures Before(h'.list, i, j) { InsertedBefore(h.list, t, bp, i, j); }
  }

  lemma LinkInLinks(h: Heap, bp: nat, t: nat, i: nat)
    requires Tiled(h) && bp in h.live && Owns(h, bp) && Between(h, bp, t) && Sorted(LinkIn(h, bp, t)) && i <= |h.list|
    ensures |LinkIn(h, bp, t).list| == |h.list| + 1 && Linked(LinkIn(h, bp, t), i)
  {
    var h' := LinkIn(h, bp, t);
    InsertedAt(h.list, t, bp, i);
    InsertedAt(h.list, t, bp, h'.Next(i));
    hide Inserted, Owns, UnitOk;
    if i < t {
      assert Linked(h, i) && Before(h.list, i, t);
      assert h.list[i] != bp;
    } else if i == t + 1 {
      assert h'.mem[bp].ptr == h.list[h.Next(t)];
    } else if i > t + 1 {
      assert Linked(h, i - 1) && Before(h.list, t, i - 1);
      assert h.list[i - 1] != bp;
    }
  }

  lemma LinkInUnit(h: Heap, bp: nat, t: nat, u: nat)
    requires Tiled(h) && bp in h.live && Owns(h, bp) && Between(h, bp, t) && u in h.own
    ensures UnitOk(LinkIn(h, bp, t), u)
  {
    hide Linked, Owns, Inserted;
    OwnsThere(h, bp);
    var h' := LinkIn(h, bp, t);
    assert UnitOk(h, u);
    if h.own[u] == bp {
      InsertedAt(h.list, t, bp, t + 1);
      assert h'.list[t + 1] == bp;
    } else if IsFree(h, h.own[u]) {
      var k :| 1 <= k < |h.list| && h.list[k] == h.own[u];
      var k' := if k <= t then k else k + 1;
      InsertedAt(h.list, t, bp, k');
      assert h'.list[k'] == h.own[u];
    }
  }

  /** Ownership hangs on the owner map and the block's size alone. */
  lemma OwnsFrame(h: Heap, h': Heap, b: nat)
    requires Owns(h, b) && h'.base == h.base && h'.own == h.own && b in h'.mem && h'.mem[b].size == h.mem[b].size
    ensures Owns(h', b)
  {
  }

  lemma LinkInOk(h: Heap, bp: nat, t: nat)
    requires Tiled(h) && bp in h.live && Between(h, bp, t)
    ensures bp in h.mem && Tiled(LinkIn(h, bp, t))
  {
    assert Owns(h, bp);
    LinkInSorted(h, bp, t);
    var h' := LinkIn(h, bp, t);
    hide Inserted, Linked, Owns, UnitOk;
    forall i: nat | i < |h'.list| ensures Linked(h', i) {
      InsertedAt(h.list, t, bp, i);
      LinkInLinks(h, bp, t, i);
    }
    forall i | 1 <= i < |h'.list| ensures Owns(h', h'.list[i]) && h'.list[i] !in h'.live {
      InsertedAt(h.list, t, bp, i);
      OwnsFrame(h, h', h'.list[i]);
    }
    forall b | b in h'.live ensures Owns(h', b) { OwnsThere(h, b); OwnsFrame(h, h', b); }
    forall u | u in h'.own ensures UnitOk(h', u) { LinkInUnit(h, bp, t, u); }
  }

  lemma OwnsThere(h: Heap, b: nat)
    requires Owns(h, b)
    ensures b in h.mem && b in h.own && h.own[b] == b && h.base < b && h.mem[b].size >= 1
  {
  }

  // ---------- Taking an entry out ----------

  function Removed(s: seq<nat>, k: nat): seq<nat>
    requires k < |s|
  {
    s[..k] + s[k + 1..]
  }

  lemma RemovedAt(s: seq<nat>, k: nat, i: nat)
    requires k < |s| && i < |s| - 1
    ensures |Removed(s, k)| == |s| - 1
    ensures Removed(s, k)[i] == if i < k then s[i] else s[i + 1]
  {
  }

  lemma RemovedBefore(s: seq<nat>, k: nat, i: nat, j: nat)
    requires k < |s| && i < j < |s| - 1
    requires forall i: nat, j: nat | i < j < |s| :: Before(s, i, j)
    ensures |Removed(s, k)| == |s| - 1 && Before(Removed(s, k), i, j)
  {
    RemovedAt(s, k, i);
    RemovedAt(s, k, j);
    hide Removed;
    assert Before(s, if i < k then i else i + 1, if j < k then j else j + 1);
  }

  /** Entry k leaves the list; entry k-1, whose block has the given size, takes over its link. */
  ghost function Unlinked(h: Heap, k: nat, size: nat): Heap
    requires Sorted(h) && 1 <= k < |h.list|
  {
    h.(mem := h.mem[h.list[k - 1] := Header(h.mem[h.list[k]].ptr, size)], list := Removed(h.list, k))
  }

  lemma UnlinkedSorted(h: Heap, k: nat, size: nat)
    requires Sorted(h) && 1 <= k < |h.list| && (k == 1 ==> size == 0)
    ensures Sorted(Unlinked(h, k, size))
  {
    var h' := Unlinked(h, k, size);
    RemovedAt(h.list, k, 0);
    if k > 1 { assert Before(h.list, 0, k - 1); }
    forall i: nat | i < |h'.list| ensures h'.list[i] in h'.mem { RemovedAt(h.list, k, i); }
    forall i: nat, j: nat | i < j < |h'.list| ensures Before(h'.list, i, j) { RemovedBefore(h.list, k, i, j); }
  }

  lemma UnlinkedLinks(h: Heap, k: nat, size: nat, i: nat)
    requires Tiled(h) && 1 <= k < |h.list| && Sorted(Unlinked(h, k, size)) && i < |h.list| - 1
    ensures |Unlinked(h, k, size).list| == |h.list| - 1 && Linked(Unlinked(h, k, size), i)
  {
    var h' := Unlinked(h, k, size);
    RemovedAt(h.list, k, i);
    RemovedAt(h.list, k, h'.Next(i));
    hide Removed, Owns, UnitOk;
    assert Linked(h, k) && Linked(h, if i < k then i else i + 1);
    if i < k - 1 { assert Before(h.list, i, k - 1); }
    if i >= k { assert Before(h.list, k - 1, i + 1); }
  }

  /** malloc takes a block that fits exactly. */
  ghost function Taken(h: Heap, k: nat): Heap
    requires Sorted(h) && 1 <= k < |h.list|
  {
    Unlinked(h, k, h.mem[h.list[k - 1]].size).(live := h.live + {h.list[k]})
  }

  lemma TakenUnit(h: Heap, k: nat, u: nat)
    requires Tiled(h) && 1 <= k < |h.list| && u in h.own
    ensures UnitOk(Taken(h, k), u)
  {
    hide Linked, Owns, Removed;
    var h' := Taken(h, k);
    assert UnitOk(h, u);
    if h.own[u] != h.list[k] && IsFree(h, h.own[u]) {
      RemovedFree(h, k, h.own[u], h');
    }
  }

  lemma RemovedFree(h: Heap, k: nat, b: nat, h': Heap)
    requires IsFree(h, b) && 1 <= k < |h.list| && b != h.list[k] && h'.list == Removed(h.list, k)
    ensures IsFree(h', b)
  {
    var j :| 1 <= j < |h.list| && h.list[j] == b;
    var j' := if j < k then j else j - 1;
    RemovedAt(h.list, k, j');
    assert h'.list[j'] == b;
  }

  lemma TakenOk(h: Heap, k: nat)
    requires Tiled(h) && 1 <= k < |h.list|
    ensures Tiled(Taken(h, k)) && Sorted(Taken(h, k))
  {
    var h' := Taken(h, k);
    var u' := Unlinked(h, k, h.mem[h.list[k - 1]].size);
    UnlinkedSorted(h, k, h.mem[h.list[k - 1]].size);
    assert Sorted(h');
    forall i: nat | i < |h'.list| ensures Linked(h', i) {
      UnlinkedLinks(h, k, h.mem[h.list[k - 1]].size, i);
      assert Linked(u', i);
    }
    hide Linked, Owns, UnitOk, Removed;
    forall i | 1 <= i < |h'.list| ensures Owns(h', h'.list[i]) && h'.list[i] !in h'.live {
      RemovedAt(h.list, k, i);
      if i < k { assert Before(h.list, i, k); } else { assert Before(h.list, k, i + 1); }
      OwnsFrame(h, h', h'.list[i]);
    }
    forall b | b in h'.live ensures Owns(h', b) { OwnsThere(h, b); OwnsFrame(h, h', b); }
    forall u | u in h'.own ensures UnitOk(h', u) { TakenUnit(h, k, u); }
  }

  // ---------- Merging two neighbours ----------

  /** Block i absorbs block i+1, which begins where it ends. */
  ghost function Merged(h: Heap, i: nat): Heap
    requires Sorted(h) && 1 <= i && i + 1 < |h.list|
  {
    var a, b := h.list[i], h.list[i + 1];
    Unlinked(h, i + 1, h.mem[a].size + h.mem[b].size).(own := map u | u in h.own :: if h.own[u] == b then a else h.own[u])
  }

  lemma MergedOwns(h: Heap, i: nat, c: nat)
    requires Tiled(h) && Touches(h, i) && Owns(h, c) && c != h.list[i + 1]
    ensures Owns(Merged(h, i), c)
  {
    hide Linked, UnitOk, Removed;
    var a, b := h.list[i], h.list[i + 1];
    assert Owns(h, a) && Owns(h, b);
    var h' := Merged(h, i);
    forall u: nat | c <= u < h'.End(c) ensures u in h'.own && h'.own[u] == c {
      if c == a && u >= b {
        assert h.own[u] == b;
      } else {
        assert h.own[u] == c;
      }
    }
  }

  lemma MergedUnit(h: Heap, i: nat, u: nat)
    requires Tiled(h) && Touches(h, i) && u in h.own
    ensures UnitOk(Merged(h, i), u)
  {
    hide Linked, Owns, Removed;
    var a, b := h.list[i], h.list[i + 1];
    var h' := Merged(h, i);
    assert UnitOk(h, u) && Before(h.list, i, i + 1);
    RemovedFree(h, i + 1, a, h');
    if IsFree(h, h.own[u]) && h.own[u] != b {
      RemovedFree(h, i + 1, h.own[u], h');
    }
  }

  lemma MergedShape(h: Heap, i: nat)
    requires Tiled(h) && Touches(h, i)
    ensures Sorted(Merged(h, i)) && forall j: nat | j < |Merged(h, i).list| :: Linked(Merged(h, i), j)
  {
    var n := h.mem[h.list[i]].size + h.mem[h.list[i + 1]].size;
    var h', u' := Merged(h, i), Unlinked(h, i + 1, n);
    UnlinkedSorted(h, i + 1, n);
    hide Owns, UnitOk;
    assert Sorted(h');
    forall j: nat | j < |h'.list| ensures Linked(h', j) {
      UnlinkedLinks(h, i + 1, n, j);
      assert Linked(u', j);
    }
  }

  lemma MergedOk(h: Heap, i: nat)
    requires Tiled(h) && Touches(h, i)
    ensures Tiled(Merged(h, i))
  {
    hide Linked, Owns, UnitOk, Removed;
    MergedShape(h, i);
    RemovedAt(h.list, i + 1, 0);
    var h' := Merged(h, i);
    forall j | 1 <= j < |h'.list| ensures Owns(h', h'.list[j]) && h'.list[j] !in h'.live {
      RemovedAt(h.list, i + 1, j);
      if j <= i { assert Before(h.list, j, i + 1); } else { assert Before(h.list, i + 1, j + 1); }
      MergedOwns(h, i, h'.list[j]);
    }
    forall c | c in h'.live ensures Owns(h', c) { MergedOwns(h, i, c); }
    forall u | u in h'.own ensures UnitOk(h', u) { MergedUnit(h, i, u); }
  }

  // ---------- Splitting a block ----------

  /** The last n units of free block k become a live block. */
  ghost function Split(h: Heap, k: nat, n: nat, garbage: nat): Heap
    requires Sorted(h) && 1 <= k < |h.list| && n < h.mem[h.list[k]].size
  {
    var p := h.list[k];
    var q := h.End(p) - n;
    h.(mem := h.mem[p := Header(h.mem[p].ptr, h.mem[p].size - n)][q := Header(garbage, n)],
       live := h.live + {q},
       own := map u | u in h.own :: if h.own[u] == p && u >= q then q else h.own[u])
  }

  /** The new header lies inside the block, so it is no block's start yet. */
  lemma SplitFresh(h: Heap, k: nat, n: nat, c: nat)
    requires Tiled(h) && 1 <= k < |h.list| && 0 < n < h.mem[h.list[k]].size && (Owns(h, c) || c == h.base)
    ensures c != h.End(h.list[k]) - n
  {
    hide Linked, UnitOk;
    assert Owns(h, h.list[k]);
    var q := h.End(h.list[k]) - n;
    assert h.own[q] == h.list[k];
    if c != h.base { OwnsThere(h, c); }
  }

  lemma SplitOwns(h: Heap, k: nat, n: nat, g: nat, c: nat)
    requires Tiled(h) && 1 <= k < |h.list| && 0 < n < h.mem[h.list[k]].size
    requires Owns(h, c) || c == h.End(h.list[k]) - n
    ensures Owns(Split(h, k, n, g), c)
  {
    hide Linked, UnitOk;
    assert Owns(h, h.list[k]);
    if c != h.End(h.list[k]) - n { SplitFresh(h, k, n, c); }
    var h' := Split(h, k, n, g);
    forall u: nat | c <= u < h'.End(c) ensures u in h'.own && h'.own[u] == c {
      assert h.own[u] == if c == h.End(h.list[k]) - n then h.list[k] else c;
    }
  }

  lemma SplitUnit(h: Heap, k: nat, n: nat, g: nat, u: nat)
    requires Tiled(h) && 1 <= k < |h.list| && 0 < n < h.mem[h.list[k]].size && u in h.own
    ensures UnitOk(Split(h, k, n, g), u)
  {
    hide Linked;
    assert UnitOk(h, u);
    var b := h.own[u];
    assert Owns(h, h.list[k]) && Owns(h, b);
    SplitFresh(h, k, n, b);
    hide Owns, Sorted, Tiled;
    var h' := Split(h, k, n, g);
    assert IsFree(h, b) ==> IsFree(h', b);
  }

  lemma SplitOk(h: Heap, k: nat, n: nat, g: nat)
    requires Tiled(h) && 1 <= k < |h.list| && 0 < n < h.mem[h.list[k]].size
    ensures Tiled(Split(h, k, n, g)) && Sorted(Split(h, k, n, g))
  {
    hide Owns, UnitOk;
    var h' := Split(h, k, n, g);
    SplitFresh(h, k, n, h.base);
    assert Before(h.list, 0, k);
    forall i: nat | i < |h'.list| ensures Linked(h', i) {
      assert Linked(h, i);
      SplitFresh(h, k, n, h.list[i]);
    }
    hide Linked;
    forall i | 1 <= i < |h'.list| ensures Owns(h', h'.list[i]) && h'.list[i] !in h'.live {
      SplitOwns(h, k, n, g, h.list[i]);
      SplitFresh(h, k, n, h.list[i]);
    }
    forall c | c in h'.live ensures Owns(h', c) { SplitOwns(h, k, n, g, c); }
    forall u | u in h'.own ensures UnitOk(h', u) { SplitUnit(h, k, n, g, u); }
  }

  // ---------- New memory ----------

  ghost function Cored(h: Heap, hp: nat, nu: nat, garbage: nat): Heap {
    h.(mem := h.mem[hp := Header(garbage, nu)],
       live := h.live + {hp},
       own := h.own + map u | u in Range(hp, nu) :: hp)
  }

  function Range(lo: nat, n: nat): set<nat> {
    if n == 0 then {} else Range(lo, n - 1) + {lo + n - 1}
  }

  lemma {:induction false} RangeHas(lo: nat, n: nat)
    ensures forall u: nat :: u in Range(lo, n) <==> lo <= u < lo + n
    ensures |Range(lo, n)| == n
  {
    if n > 0 {
      RangeHas(lo, n - 1);
    }
  }

  lemma CoredUnits(h: Heap, hp: nat, nu: nat, g: nat, u: nat)
    requires forall u | u in h.own :: u < hp
    ensures var h' := Cored(h, hp, nu, g);
            && (u in h'.own <==> u in h.own || hp <= u < hp + nu)
            && (u in h.own ==> h'.own[u] == h.own[u])
            && (hp <= u < hp + nu ==> h'.own[u] == hp)
  {
    RangeHas(hp, nu);
  }

  lemma CoredOwns(h: Heap, hp: nat, nu: nat, g: nat, c: nat)
    requires Owns(h, c) && forall u | u in h.own :: u < hp
    ensures c < hp && Owns(Cored(h, hp, nu, g), c)
  {
    OwnsThere(h, c);
    var h' := Cored(h, hp, nu, g);
    forall u: nat | c <= u < h'.End(c) ensures u in h'.own && h'.own[u] == c { CoredUnits(h, hp, nu, g, u); }
  }

  lemma CoredNew(h: Heap, hp: nat, nu: nat, g: nat)
    requires h.base < hp && nu >= 1 && forall u | u in h.own :: u < hp
    ensures Owns(Cored(h, hp, nu, g), hp)
  {
    var h' := Cored(h, hp, nu, g);
    forall u: nat | hp <= u < h'.End(hp) ensures u in h'.own && h'.own[u] == hp { CoredUnits(h, hp, nu, g, u); }
  }

  lemma CoredUnit(h: Heap, hp: nat, nu: nat, g: nat, u: nat)
    requires Tiled(h) && u in Cored(h, hp, nu, g).own && forall u | u in h.own :: u < hp
    ensures UnitOk(Cored(h, hp, nu, g), u)
  {
    hide Linked, Owns;
    CoredUnits(h, hp, nu, g, u);
    var h' := Cored(h, hp, nu, g);
    if u in h.own {
      assert UnitOk(h, u);
      if IsFree(h, h.own[u]) {
        var k :| 1 <= k < |h.list| && h.list[k] == h.own[u];
        assert h'.list[k] == h.own[u];
      }
    }
  }

  lemma CoredOk(h: Heap, hp: nat, nu: nat, g: nat)
    requires Tiled(h) && h.base < hp && nu >= 1 && forall u | u in h.own :: u < hp
    ensures Tiled(Cored(h, hp, nu, g)) && Sorted(Cored(h, hp, nu, g))
  {
    hide UnitOk, Owns;
    var h' := Cored(h, hp, nu, g);
    forall i: nat | i < |h'.list| ensures Linked(h', i) && h.list[i] < hp && (i > 0 ==> Owns(h', h'.list[i])) {
      assert Linked(h, i);
      if i > 0 { CoredOwns(h, hp, nu, g, h.list[i]); }
    }
    hide Linked;
    CoredNew(h, hp, nu, g);
    forall c | c in h'.live ensures Owns(h', c) {
      if c != hp { CoredOwns(h, hp, nu, g, c); }
    }
    forall u | u in h'.own ensures UnitOk(h', u) { CoredUnit(h, hp, nu, g, u); }
  }

  // ---------- No two free blocks touch ----------

  lemma LinkInTouches(h: Heap, bp: nat, t: nat, i: nat)
    requires Tiled(h) && bp in h.live && Between(h, bp, t) && bp in h.mem && Sorted(LinkIn(h, bp, t))
    requires Touches(LinkIn(h, bp, t), i)
    ensures i == t || i == t + 1 || Touches(h, if i < t then i else i - 1)
  {
    hide Linked, UnitOk, Owns;
    InsertedAt(h.list, t, bp, 0);
    InsertedAt(h.list, t, bp, i);
    InsertedAt(h.list, t, bp, i + 1);
    hide Inserted;
    if i < t { assert Before(h.list, i, t); }
    if i > t + 1 { assert Before(h.list, t, i - 1); }
  }

  lemma MergedTouches(h: Heap, i: nat, j: nat)
    requires Tiled(h) && Touches(h, i) && Sorted(Merged(h, i)) && Touches(Merged(h, i), j)
    ensures Touches(h, if j < i then j else j + 1)
  {
    hide Linked, UnitOk, Owns;
    RemovedAt(h.list, i + 1, j);
    RemovedAt(h.list, i + 1, j + 1);
    hide Removed;
    if j < i { assert Before(h.list, j, i); }
    if j > i { assert Before(h.list, i, j + 1); }
  }

  lemma TouchesBounds(h: Heap, i: nat)
    requires Sorted(h) && Touches(h, i)
    ensures 1 <= i && i + 1 < |h.list|
  {
  }

  /** Only entry t, if any, touches its successor. */
  ghost predicate CoalescedBut(h: Heap, t: nat)
    requires Sorted(h)
  {
    forall i: nat | Touches(h, i) :: i == t
  }

  ghost function JoinUp(h: Heap, t: nat): Heap
    requires Sorted(h)
  {
    if Touches(h, t) then Merged(h, t) else h
  }

  lemma JoinOk(h: Heap, t: nat)
    requires Tiled(h) && CoalescedBut(h, t)
    ensures Tiled(JoinUp(h, t)) && Coalesced(JoinUp(h, t))
  {
    hide Linked, UnitOk, Owns, Touches, Merged;
    if Touches(h, t) {
      TouchesBounds(h, t);
      MergedOk(h, t);
      var h' := Merged(h, t);
      forall j: nat ensures !Touches(h', j) {
        if Touches(h', j) { MergedTouches(h, t, j); }
      }
    }
  }

  lemma JoinAbove(h: Heap, t: nat)
    requires Tiled(h) && forall i: nat | Touches(h, i) :: i == t || i == t + 1
    ensures Tiled(JoinUp(h, t + 1)) && CoalescedBut(JoinUp(h, t + 1), t)
  {
    hide Linked, UnitOk, Owns, Touches, Merged;
    if Touches(h, t + 1) {
      TouchesBounds(h, t + 1);
      MergedOk(h, t + 1);
      var h' := Merged(h, t + 1);
      forall j: nat | Touches(h', j) ensures j == t { MergedTouches(h, t + 1, j); }
    }
  }

  /** free: link the block in, then merge it with its upper and its lower neighbour where they touch. */
  ghost function Freed(h: Heap, bp: nat, t: nat): Heap
    requires Tiled(h) && bp in h.live && Between(h, bp, t)
  {
    LinkInOk(h, bp, t);
    var h1 := JoinUp(LinkIn(h, bp, t), t + 1);
    if Sorted(h1) then JoinUp(h1, t) else h1
  }

  lemma FreedOk(h: Heap, bp: nat, t: nat)
    requires Tiled(h) && Coalesced(h) && bp in h.live && Between(h, bp, t)
    ensures Tiled(Freed(h, bp, t)) && Coalesced(Freed(h, bp, t))
    ensures bp in h.mem && Sorted(LinkIn(h, bp, t)) && Sorted(JoinUp(LinkIn(h, bp, t), t + 1))
  {
    LinkInOk(h, bp, t);
    hide Linked, UnitOk, Owns, Touches, LinkIn, JoinUp;
    var h1 := LinkIn(h, bp, t);
    forall i: nat | Touches(h1, i) ensures i == t || i == t + 1 { LinkInTouches(h, bp, t, i); }
    JoinAbove(h1, t);
    JoinOk(JoinUp(h1, t + 1), t);
  }

  // ---------- Where a block belongs ----------

  /** Steps from entry k to entry t around the ring of n entries. */
  function Ahead(n: nat, k: nat, t: nat): nat
    requires k < n && t < n
  {
    if k <= t then t - k else n - k + t
  }

  lemma {:induction false} FindSpot(h: Heap, bp: nat, n: nat) returns (t: nat)
    requires Sorted(h) && h.base < bp && 1 <= n <= |h.list| && forall i | 0 <= i < |h.list| :: h.list[i] != bp
    requires n < |h.list| ==> bp < h.list[n]
    ensures Between(h, bp, t)
  {
    if h.list[n - 1] < bp {
      t := n - 1;
    } else {
      t := FindSpot(h, bp, n - 1);
    }
  }

  /** free's two stopping conditions hold at entry t and nowhere else. */
  lemma StopsThere(h: Heap, bp: nat, t: nat, k: nat)
    requires Sorted(h) && k < |h.list| && Linked(h, k) && h.base < bp && Between(h, bp, t)
    ensures var p, q := h.list[k], h.mem[h.list[k]].ptr;
            (bp > p && bp < q) || (p >= q && (bp > p || bp < q)) <==> k == t
  {
    if k < t { assert Before(h.list, k, t); if k + 1 < t { assert Before(h.list, k + 1, t); } }
    if t < k { assert Before(h.list, t, k); if t + 1 < k { assert Before(h.list, t + 1, k); } }
    if k + 1 < |h.list| { assert Before(h.list, k, k + 1); }
    if k > 0 { assert Before(h.list, 0, k); }
  }

  // ---------- free on the headers ----------

  /** What free writes: bp's header, with the block above it if they touch. */
  function UpperWrite(mem: map<nat, Header>, p: nat, bp: nat): map<nat, Header>
    requires p in mem && bp in mem && mem[p].ptr in mem
  {
    var q := mem[p].ptr;
    if bp + mem[bp].size == q then mem[bp := Header(mem[q].ptr, mem[bp].size + mem[q].size)]
    else mem[bp := Header(q, mem[bp].size)]
  }

  /** Then p's header, with bp if they touch. */
  function LowerWrite(mem: map<nat, Header>, p: nat, bp: nat): map<nat, Header>
    requires p in mem && bp in mem
  {
    if p + mem[p].size == bp then mem[p := Header(mem[bp].ptr, mem[p].size + mem[bp].size)]
    else mem[p := Header(bp, mem[p].size)]
  }

  lemma UpperMem(h: Heap, bp: nat, t: nat)
    requires Tiled(h) && bp in h.live && Between(h, bp, t)
    ensures bp in h.mem && Sorted(LinkIn(h, bp, t))
    ensures var p, h2 := h.list[t], JoinUp(LinkIn(h, bp, t), t + 1);
            && h.mem[p].ptr in h.mem
            && h2.mem == UpperWrite(h.mem, p, bp)[p := Header(bp, h.mem[p].size)]
            && |h2.list| > t + 1 && h2.list[t] == p && h2.list[t + 1] == bp && h2.list[0] == h.base
            && h2.live == h.live - {bp} && h2.own.Keys == h.own.Keys && h2.own[bp] == bp && h2.base == h.base
  {
    assert Owns(h, bp) && Linked(h, t);
    LinkInSorted(h, bp, t);
    OwnsThere(h, bp);
    hide UnitOk, Owns;
    var h1 := LinkIn(h, bp, t);
    InsertedAt(h.list, t, bp, t);
    InsertedAt(h.list, t, bp, t + 1);
    InsertedAt(h.list, t, bp, 0);
    if t + 1 < |h.list| {
      InsertedAt(h.list, t, bp, t + 2);
      assert Before(h.list, t, t + 1);
    }
    if Touches(h1, t + 1) {
      RemovedAt(h1.list, t + 2, 0);
      RemovedAt(h1.list, t + 2, t);
      RemovedAt(h1.list, t + 2, t + 1);
    }
  }

  lemma LowerMem(h: Heap, t: nat, bp: nat)
    requires Sorted(h) && t + 1 < |h.list| && h.list[t + 1] == bp && h.mem[h.list[t]].ptr == bp && bp in h.own && h.own[bp] == bp
    ensures var p, h' := h.list[t], JoinUp(h, t);
            && h'.mem == LowerWrite(h.mem, p, bp)
            && t < |h'.list| && h'.list[t] == p
            && h'.live == h.live && h'.own.Keys == h.own.Keys && h'.base == h.base
            && (h'.own[bp] == p || (t + 1 < |h'.list| && h'.own[bp] == h'.list[t + 1]))
            && h'.own[bp] in h'.mem && h'.mem[h'.own[bp]].size >= h.mem[bp].size
  {
    assert Before(h.list, t, t + 1);
    if Touches(h, t) {
      RemovedAt(h.list, t + 1, t);
    }
  }

  lemma LowerSame(m: map<nat, Header>, p: nat, bp: nat)
    requires p in m && bp in m && p != bp
    ensures LowerWrite(m[p := Header(bp, m[p].size)], p, bp) == LowerWrite(m, p, bp)
  {
  }

  /** free writes two headers, and that is the list with the block linked in and merged. */
  lemma FreedMem(h: Heap, bp: nat, t: nat)
    requires Tiled(h) && Coalesced(h) && bp in h.live && Between(h, bp, t)
    ensures var p, h' := h.list[t], Freed(h, bp, t);
            && bp in h.mem && h.mem[p].ptr in h.mem
            && h'.mem == LowerWrite(UpperWrite(h.mem, p, bp), p, bp)
            && t < |h'.list| && h'.list[t] == p
            && h'.live == h.live - {bp} && h'.own.Keys == h.own.Keys && h'.base == h.base
            && (h'.own[bp] == p || (t + 1 < |h'.list| && h'.own[bp] == h'.list[t + 1]))
            && h'.own[bp] in h'.mem && h'.mem[h'.own[bp]].size >= h.mem[bp].size
  {
    UpperMem(h, bp, t);
    FreedOk(h, bp, t);
    hide UnitOk, Owns, Linked, LinkIn, Coalesced, JoinUp, LowerWrite;
    LowerMem(JoinUp(LinkIn(h, bp, t), t + 1), t, bp);
    LowerSame(UpperWrite(h.mem, h.list[t], bp), h.list[t], bp);
  }

  // ---------- malloc ----------

  lemma TakenCoalesced(h: Heap, k: nat)
    requires Tiled(h) && Coalesced(h) && 1 <= k < |h.list| && Sorted(Taken(h, k))
    ensures Coalesced(Taken(h, k))
  {
    hide Linked, UnitOk;
    var h' := Taken(h, k);
    forall j: nat ensures !Touches(h', j) {
      if 1 <= j && j + 1 < |h'.list| {
        TakenApart(h, k, j);
      }
    }
  }

  lemma TakenApart(h: Heap, k: nat, j: nat)
    requires Tiled(h) && Coalesced(h) && 1 <= k < |h.list| && 1 <= j && j + 2 < |h.list|
    requires Sorted(Taken(h, k))
    ensures !Touches(Taken(h, k), j)
  {
    hide Linked, UnitOk;
    RemovedAt(h.list, k, j);
    RemovedAt(h.list, k, j + 1);
    hide Removed;
    assert !Touches(h, j) && !Touches(h, j + 1);
    if j + 1 == k {
      assert Before(h.list, j, k) && Before(h.list, k, k + 1);
      Disjoint(h, h.list[j], h.list[k]);
    }
  }

  lemma SplitCoalesced(h: Heap, k: nat, n: nat, g: nat)
    requires Tiled(h) && Coalesced(h) && 1 <= k < |h.list| && 0 < n < h.mem[h.list[k]].size && Sorted(Split(h, k, n, g))
    ensures Coalesced(Split(h, k, n, g))
  {
    hide Linked, UnitOk;
    var h' := Split(h, k, n, g);
    forall j: nat ensures !Touches(h', j) {
      assert !Touches(h, j);
      if 1 <= j && j + 1 < |h.list| {
        SplitFresh(h, k, n, h.list[j]);
        if j == k {
          assert Before(h.list, k, k + 1);
          Disjoint(h, h.list[k], h.list[k + 1]);
        } else {
          assert if j < k then Before(h.list, j, k) else Before(h.list, k, j);
        }
      }
    }
  }

  /** Blocks that stay in use keep their size. */
  ghost predicate LiveKept(h: Heap, h': Heap) {
    forall b | b in h.live && b in h'.live :: b in h.mem && b in h'.mem && h'.mem[b].size == h.mem[b].size
  }

  lemma FreedKeeps(h: Heap, bp: nat, t: nat)
    requires Tiled(h) && Coalesced(h) && bp in h.live && Between(h, bp, t)
    ensures LiveKept(h, Freed(h, bp, t))
  {
    hide Linked, UnitOk, Coalesced, Freed, LowerWrite, UpperWrite;
    FreedMem(h, bp, t);
    var h' := Freed(h, bp, t);
    forall b | b in h.live && b in h'.live ensures b in h.mem && b in h'.mem && h'.mem[b].size == h.mem[b].size {
      assert Owns(h, b);
      OnlyTwoWrites(h.mem, h.list[t], bp, b);
    }
  }

  lemma OnlyTwoWrites(mem: map<nat, Header>, p: nat, bp: nat, b: nat)
    requires p in mem && bp in mem && mem[p].ptr in mem && b in mem && b != p && b != bp
    ensures var m := LowerWrite(UpperWrite(mem, p, bp), p, bp);
            b in m && m[b] == mem[b]
  {
  }

  lemma KeptTrans(h: Heap, c: Heap, h': Heap, hp: nat)
    requires LiveKept(h, c) && LiveKept(c, h') && c.live == h.live + {hp} && h'.live == c.live - {hp} && hp !in h.live
    ensures LiveKept(h, h') && h'.live == h.live
  {
  }

  lemma TakenKeeps(h: Heap, k: nat)
    requires Tiled(h) && 1 <= k < |h.list|
    ensures LiveKept(h, Taken(h, k)) && h.list[k] !in h.live
  {
    hide Linked, UnitOk, Removed;
    forall b | b in h.live ensures b in h.mem { assert Owns(h, b); }
  }

  lemma SplitKeeps(h: Heap, k: nat, n: nat, g: nat)
    requires Tiled(h) && 1 <= k < |h.list| && 0 < n < h.mem[h.list[k]].size
    ensures LiveKept(h, Split(h, k, n, g)) && h.End(h.list[k]) - n !in h.live
    ensures Split(h, k, n, g).own.Keys == h.own.Keys
  {
    hide Linked, UnitOk;
    forall b | b in h.live ensures b in h.mem && b != h.End(h.list[k]) - n { assert Owns(h, b); SplitFresh(h, k, n, b); }
  }

  lemma CoredKeeps(h: Heap, hp: nat, nu: nat, g: nat)
    requires Tiled(h) && h.base < hp && nu >= 1 && forall u | u in h.own :: u < hp
    ensures LiveKept(h, Cored(h, hp, nu, g)) && hp !in h.live
  {
    hide Linked, UnitOk;
    forall b | b in h.live ensures b in h.mem && b < hp { assert Owns(h, b); OwnsThere(h, b); }
  }

  /** How many units have been obtained from sbrk. */
  ghost function Total(h: Heap): nat {
    |h.own.Keys|
  }

  lemma UnionOfDisjoint(a: set<nat>, b: set<nat>)
    requires a !! b
    ensures |a + b| == |a| + |b|
  {
  }

  lemma CoredKeys(h: Heap, hp: nat, nu: nat, g: nat)
    requires forall u | u in h.own :: u < hp
    ensures h.own.Keys !! Range(hp, nu) && Cored(h, hp, nu, g).own.Keys == h.own.Keys + Range(hp, nu)
    ensures forall u | u in Cored(h, hp, nu, g).own :: u < hp + nu
  {
    hide Range, Cored;
    RangeHas(hp, nu);
    forall u: nat ensures u in Cored(h, hp, nu, g).own <==> u in h.own || hp <= u < hp + nu { CoredUnits(h, hp, nu, g, u); }
  }

  lemma CoredSize(h: Heap, hp: nat, nu: nat, g: nat)
    requires forall u | u in h.own :: u < hp
    ensures Total(Cored(h, hp, nu, g)) == Total(h) + nu
  {
    hide Range;
    CoredKeys(h, hp, nu, g);
    RangeHas(hp, nu);
    hide Cored;
    UnionOfDisjoint(h.own.Keys, Range(hp, nu));
  }

  lemma CoredCoalesced(h: Heap, hp: nat, nu: nat, g: nat)
    requires Tiled(h) && Coalesced(h) && h.base < hp && forall u | u in h.own :: u < hp
    requires Sorted(Cored(h, hp, nu, g))
    ensures Coalesced(Cored(h, hp, nu, g))
  {
    hide Linked, UnitOk;
    forall i | 1 <= i < |h.list| ensures h.list[i] < hp { assert Owns(h, h.list[i]); OwnsThere(h, h.list[i]); }
    hide Owns;
    var h' := Cored(h, hp, nu, g);
    forall j: nat ensures !Touches(h', j) { assert !Touches(h, j); }
  }

  /** Some free block is large enough for n units. */
  ghost predicate HasFit(h: Heap, n: nat) {
    exists k :: 1 <= k < |h.list| && h.list[k] in h.mem && h.mem[h.list[k]].size >= n
  }

  // ---------- Conservation ----------

  /** Units in the free blocks 1..k of the list. */
  ghost function ListUnits(h: Heap, k: nat): nat
    requires k <= |h.list| && forall i | 0 <= i < |h.list| :: h.list[i] in h.mem
  {
    if k <= 1 then 0 else ListUnits(h, k - 1) + h.mem[h.list[k - 1]].size
  }

  /** Units in the blocks bs. */
  ghost function BlockUnits(h: Heap, bs: set<nat>): nat
    requires forall b | b in bs :: b in h.mem
  {
    if bs == {} then 0
    else
      var b :| b in bs;
      BlockUnits(h, bs - {b}) + h.mem[b].size
  }

  /** The units whose block is in bs. */
  ghost function Within(h: Heap, bs: set<nat>): set<nat> {
    set u | u in h.own && h.own[u] in bs
  }

  /** One more block brings its own units and no others. */
  lemma WithinMore(h: Heap, bs: set<nat>, b: nat)
    requires Tiled(h) && Owns(h, b) && b !in bs
    ensures |Within(h, bs + {b})| == |Within(h, bs)| + h.mem[b].size
  {
    hide Linked, Sorted;
    var x, y, r := Within(h, bs + {b}), Within(h, bs), Range(b, h.mem[b].size);
    hide Range;
    RangeHas(b, h.mem[b].size);
    forall u | u in h.own ensures UnitOk(h, u) {}
    assert x == y + r;
    assert y !! r;
    UnionOfDisjoint(y, r);
  }

  lemma {:induction false} BlocksCount(h: Heap, bs: set<nat>)
    requires Tiled(h) && forall b | b in bs :: Owns(h, b)
    ensures (forall b | b in bs :: b in h.mem) && |Within(h, bs)| == BlockUnits(h, bs)
    decreases |bs|
  {
    hide Tiled, Owns, Within;
    forall b | b in bs ensures b in h.mem { OwnsThere(h, b); }
    if bs == {} {
      NothingWithin(h);
    } else {
      var b :| b in bs && BlockUnits(h, bs) == BlockUnits(h, bs - {b}) + h.mem[b].size;
      BlocksCount(h, bs - {b});
      assert bs == (bs - {b}) + {b};
      WithinMore(h, bs - {b}, b);
    }
  }

  lemma NothingWithin(h: Heap)
    ensures |Within(h, {})| == 0
  {
    assert Within(h, {}) == {};
  }

  /** The blocks of list entries 1..k. */
  ghost function Starts(h: Heap, k: nat): set<nat>
    requires k <= |h.list|
  {
    if k <= 1 then {} else Starts(h, k - 1) + {h.list[k - 1]}
  }

  lemma {:induction false} StartsHas(h: Heap, k: nat, b: nat)
    requires k <= |h.list|
    ensures b in Starts(h, k) <==> exists i :: 1 <= i < k && h.list[i] == b
  {
    if k > 1 {
      StartsHas(h, k - 1, b);
      if h.list[k - 1] == b { assert 1 <= k - 1 < k; }
      if b in Starts(h, k - 1) { var i :| 1 <= i < k - 1 && h.list[i] == b; assert 1 <= i < k; }
    }
  }

  lemma {:induction false} ListCount(h: Heap, k: nat)
    requires Tiled(h) && k <= |h.list|
    ensures |Within(h, Starts(h, k))| == ListUnits(h, k)
  {
    hide Linked, UnitOk, Owns, Within;
    if k <= 1 {
      NothingWithin(h);
    } else {
      ListCount(h, k - 1);
      var b := h.list[k - 1];
      StartsHas(h, k - 1, b);
      forall i: nat | i < k - 1 ensures h.list[i] != b { assert Before(h.list, i, k - 1); }
      WithinMore(h, Starts(h, k - 1), b);
    }
  }

  /** Free or live, and not both. */
  lemma AllWithin(h: Heap)
    requires Tiled(h)
    ensures Within(h, Starts(h, |h.list|)) + Within(h, h.live) == h.own.Keys
    ensures Within(h, Starts(h, |h.list|)) !! Within(h, h.live)
  {
    hide Linked, Owns, Starts;
    forall u | u in h.own ensures h.own[u] in Starts(h, |h.list|) <==> h.own[u] !in h.live {
      assert UnitOk(h, u);
      StartsHas(h, |h.list|, h.own[u]);
    }
  }

  /** The sizes on the free list and the sizes of the live blocks add up to the units obtained from sbrk. */
  lemma Conservation(h: Heap)
    requires Tiled(h)
    ensures (forall b | b in h.live :: b in h.mem) && ListUnits(h, |h.list|) + BlockUnits(h, h.live) == Total(h)
  {
    var f, v := Within(h, Starts(h, |h.list|)), Within(h, h.live);
    ListCount(h, |h.list|);
    BlocksCount(h, h.live);
    AllWithin(h);
    hide Tiled, Within, Starts, ListUnits, BlockUnits;
    UnionOfDisjoint(f, v);
  }

  /** Every unit obtained lies in one block and no other, and that block is either free or live. */
  lemma OneBlockEach(h: Heap, u: nat, b: nat)
    requires Tiled(h) && u in h.own
    ensures (b in h.live || IsFree(h, b)) && b in h.mem && b <= u < h.End(b) <==> b == h.own[u]
    ensures b in h.live ==> !IsFree(h, b)
  {
    hide Linked;
    assert UnitOk(h, u);
    hide UnitOk;
    if b in h.live || IsFree(h, b) {
      assert Owns(h, b);
    }
  }

  lemma NotTouching(h: Heap, a: nat, b: nat)
    requires Tiled(h) && Coalesced(h) && IsFree(h, a) && IsFree(h, b)
    ensures a in h.mem && h.End(a) != b
  {
    hide Linked, UnitOk;
    var i :| 1 <= i < |h.list| && h.list[i] == a;
    var j :| 1 <= j < |h.list| && h.list[j] == b;
    assert Owns(h, a) && Owns(h, b);
    assert !Touches(h, i);
    if i + 1 < j {
      assert Before(h.list, i, i + 1) && Before(h.list, i + 1, j);
      Disjoint(h, a, h.list[i + 1]);
    } else if j < i {
      assert Before(h.list, j, i);
    }
  }
}

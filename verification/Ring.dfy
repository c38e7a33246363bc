/**
 The doubly linked ring of buffers in bio.c. Buffers 0..NBUF-1 and the list
 head (index NBUF) live in one array, and prev/next hold indices into it.
 `Links(bufs, ring)` says that following next from the head visits exactly
 `ring`, in order, and that prev undoes next.
 */
module Ring {
  import opened Blocks

  const NBUF: nat := 30

  datatype Buf = Buf(dev: nat, blockno: nat, valid: bool, dirty: bool, refcnt: nat, prev: nat, next: nat, data: Block)

  /** The k-th node after the head; both ends are the head itself. */
  function At(ring: seq<nat>, k: int): nat {
    if 0 <= k < |ring| then ring[k] else NBUF
  }

  predicate Nodes(bufs: seq<Buf>, ring: seq<nat>) {
    && |bufs| == NBUF + 1
    && (forall k | 0 <= k < |ring| :: ring[k] < NBUF)
    && (forall j, k | 0 <= j < k < |ring| :: ring[j] != ring[k])
  }

  predicate LinkAt(bufs: seq<Buf>, ring: seq<nat>, k: int)
    requires Nodes(bufs, ring)
  {
    bufs[At(ring, k)].next == At(ring, k + 1) && bufs[At(ring, k + 1)].prev == At(ring, k)
  }

  predicate Links(bufs: seq<Buf>, ring: seq<nat>) {
    Nodes(bufs, ring) && forall k | -1 <= k < |ring| :: LinkAt(bufs, ring, k)
  }

  function SetNext(bufs: seq<Buf>, i: nat, v: nat): seq<Buf>
    requires i < |bufs|
  {
    bufs[i := bufs[i].(next := v)]
  }

  function SetPrev(bufs: seq<Buf>, i: nat, v: nat): seq<Buf>
    requires i < |bufs|
  {
    bufs[i := bufs[i].(prev := v)]
  }

  /** The neighbours of b linked to each other. */
  function Unlinked(bufs: seq<Buf>, b: nat): seq<Buf>
    requires b < |bufs| && bufs[b].next < |bufs| && bufs[b].prev < |bufs|
  {
    SetNext(SetPrev(bufs, bufs[b].next, bufs[b].prev), bufs[b].prev, bufs[b].next)
  }

  /** Insert b right after the head. */
  function Pushed(bufs: seq<Buf>, b: nat): seq<Buf>
    requires |bufs| == NBUF + 1 && b < NBUF && bufs[NBUF].next <= NBUF
  {
    var f := bufs[NBUF].next;
    SetNext(SetPrev(SetPrev(SetNext(bufs, b, f), b, NBUF), f, b), NBUF, b)
  }

  function Without(ring: seq<nat>, p: nat): seq<nat>
    requires p < |ring|
  {
    ring[..p] + ring[p + 1..]
  }

  lemma UnlinkedLinks(bufs: seq<Buf>, ring: seq<nat>, p: nat)
    requires Links(bufs, ring) && p < |ring|
    ensures bufs[ring[p]].next == At(ring, p + 1) && bufs[ring[p]].prev == At(ring, p - 1)
    ensures Links(Unlinked(bufs, ring[p]), Without(ring, p))
  {
    var b, r := ring[p], Without(ring, p);
    assert LinkAt(bufs, ring, p) && LinkAt(bufs, ring, p - 1);
    var u := Unlinked(bufs, b);
    forall k | -1 <= k < |r|
      ensures LinkAt(u, r, k)
    {
      if k < p - 1 {
        assert LinkAt(bufs, ring, k);
      } else if k > p - 1 {
        assert LinkAt(bufs, ring, k + 1);
      }
    }
  }

  lemma PushedLinks(bufs: seq<Buf>, ring: seq<nat>, b: nat)
    requires Links(bufs, ring) && b < NBUF && b !in ring
    ensures bufs[NBUF].next <= NBUF && Links(Pushed(bufs, b), [b] + ring)
  {
    assert LinkAt(bufs, ring, -1);
    var u, r := Pushed(bufs, b), [b] + ring;
    forall k | -1 <= k < |r|
      ensures LinkAt(u, r, k)
    {
      if k > 0 {
        assert LinkAt(bufs, ring, k - 1);
      }
    }
  }

  /** Only the links of a buffer changed. */
  predicate SameBut(x: Buf, y: Buf) {
    x.(prev := 0, next := 0) == y.(prev := 0, next := 0)
  }
}

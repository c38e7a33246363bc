/**
 bio.c: the buffer cache. Buffers are found by scanning the ring from the most
 recently released end and recycled from the other end; a buffer that is in
 use or dirty is never recycled. The sleep lock on each buffer is left to the
 log machine, where processes interleave.
 */
module Bcache {
  import opened Basics
  import opened Blocks
  import opened Ring

  const DISK: nat := 1

  predicate Match(x: Buf, dev: nat, blockno: nat) {
    x.dev == dev && x.blockno == blockno
  }

  predicate Evictable(x: Buf) {
    x.refcnt == 0 && !x.dirty
  }

  /** At most one buffer per block; device 0 marks buffers never used. */
  predicate Unique(bufs: seq<Buf>)
    requires |bufs| == NBUF + 1
  {
    forall i: nat, j: nat | i < j < NBUF && bufs[i].dev != 0 ::
      !(bufs[i].dev == bufs[j].dev && bufs[i].blockno == bufs[j].blockno)
  }

  /** A valid buffer nobody is using shows what is on disk unless the log has pinned it. */
  predicate Settled(x: Buf, disk: seq<Block>) {
    x.valid && !x.dirty ==> x.dev == DISK && x.blockno < |disk| && x.data == disk[x.blockno]
  }

  predicate AllSettled(bufs: seq<Buf>, disk: seq<Block>)
    requires |bufs| == NBUF + 1
  {
    forall i: nat | i < NBUF && bufs[i].refcnt == 0 :: Settled(bufs[i], disk)
  }

  /** The ring lists the buffers by time of last release, latest first. */
  ghost predicate ByAge(ring: seq<nat>, stamp: seq<nat>, clock: nat) {
    && |stamp| == NBUF
    && (forall k | 0 <= k < |ring| :: ring[k] < NBUF && stamp[ring[k]] < clock)
    && (forall j, k | 0 <= j < k < |ring| :: stamp[ring[k]] < stamp[ring[j]])
  }

  /** What a reader of a disk block is shown. */
  ghost function Shown(bufs: seq<Buf>, disk: seq<Block>, blockno: nat): Block
    requires |bufs| == NBUF + 1 && blockno < |disk|
  {
    if exists i: nat :: i < NBUF && Match(bufs[i], DISK, blockno) && bufs[i].valid then
      var i: nat :| i < NBUF && Match(bufs[i], DISK, blockno) && bufs[i].valid;
      bufs[i].data
    else disk[blockno]
  }

  ghost predicate AllShown(bufs: seq<Buf>, disk: seq<Block>, latest: seq<Block>)
    requires |bufs| == NBUF + 1
  {
    |latest| == |disk| && forall c: nat | c < |disk| :: Shown(bufs, disk, c) == latest[c]
  }

  /** With at most one buffer per block, a valid buffer is what its block shows. */
  lemma ShownBy(bufs: seq<Buf>, disk: seq<Block>, i: nat)
    requires |bufs| == NBUF + 1 && Unique(bufs) && i < NBUF
    requires bufs[i].dev == DISK && bufs[i].blockno < |disk| && bufs[i].valid
    ensures Shown(bufs, disk, bufs[i].blockno) == bufs[i].data
  {
    assert Match(bufs[i], DISK, bufs[i].blockno);
  }

  function Below(n: nat): (s: set<nat>)
    ensures |s| == n && forall i: nat :: i in s <==> i < n
  {
    if n == 0 then {} else Below(n - 1) + {n - 1}
  }

  function Elems(ring: seq<nat>): (s: set<nat>)
    ensures forall x :: x in s <==> x in ring
  {
    if ring == [] then {} else Elems(ring[..|ring| - 1]) + {ring[|ring| - 1]}
  }

  lemma {:induction false} ElemsSize(ring: seq<nat>)
    requires forall j, k | 0 <= j < k < |ring| :: ring[j] != ring[k]
    ensures |Elems(ring)| == |ring|
  {
    if ring != [] {
      ElemsSize(ring[..|ring| - 1]);
    }
  }

  /** n distinct numbers below n are all the numbers below n. */
  lemma Pigeonhole(ring: seq<nat>, n: nat)
    requires |ring| == n && forall k | 0 <= k < |ring| :: ring[k] < n
    requires forall j, k | 0 <= j < k < |ring| :: ring[j] != ring[k]
    ensures forall i: nat | i < n :: i in ring
  {
    ElemsSize(ring);
    SubsetEqual(Elems(ring), Below(n));
  }

  lemma SubsetEqual(a: set<nat>, b: set<nat>)
    requires a <= b && |a| == |b|
    ensures a == b
  {
    assert b == a + (b - a);
    assert |b - a| == 0;
  }

  class Cache {
    var bufs: seq<Buf>
    var disk: seq<Block>
    ghost var ring: seq<nat>
    ghost var stamp: seq<nat>
    ghost var clock: nat
    /** What was last written to each block through the cache, and what the disk held where nothing was. */
    ghost var latest: seq<Block>

    ghost predicate Valid()
      reads this
    {
      && |ring| == NBUF && Links(bufs, ring)
      && Unique(bufs) && AllSettled(bufs, disk)
      && ByAge(ring, stamp, clock)
      && AllShown(bufs, disk, latest)
    }

    /** binit: every buffer is linked in right behind the head, so the last one comes first. */
    constructor (disk: seq<Block>)
      ensures Valid() && this.disk == disk && latest == disk
      ensures forall k: nat | k < NBUF :: ring[k] == NBUF - 1 - k
      ensures forall i: nat | i < NBUF :: bufs[i].dev == 0 && bufs[i].refcnt == 0 && !bufs[i].valid && !bufs[i].dirty
    {
      this.disk := disk;
      var zero := Buf(0, 0, false, false, 0, NBUF, NBUF, ZeroBlock);
      bufs := seq(NBUF + 1, _ => zero);
      ring, stamp, clock, latest := [], seq(NBUF, i => i), NBUF, disk;
      new;
      var b := 0;
      while b < NBUF
        invariant 0 <= b <= NBUF && |ring| == b && Links(bufs, ring)
        invariant forall k: nat | k < b :: ring[k] == b - 1 - k
        invariant forall i: nat | i < NBUF :: bufs[i].dev == 0 && bufs[i].refcnt == 0 && !bufs[i].valid && !bufs[i].dirty
        invariant stamp == seq(NBUF, i => i) && clock == NBUF && this.disk == disk && latest == disk
      {
        ghost var before := bufs;
        PushFront(b);
        assert forall i: nat | i < NBUF :: SameBut(bufs[i], before[i]);
        b := b + 1;
      }
    }

    /** The first scan of bget: from the head forwards, for the block itself. */
    method Find(dev: nat, blockno: nat) returns (b: nat)
      requires Valid()
      ensures b <= NBUF && (b < NBUF ==> Match(bufs[b], dev, blockno))
      ensures b == NBUF ==> forall i: nat | i < NBUF :: !Match(bufs[i], dev, blockno)
    {
      assert LinkAt(bufs, ring, -1);
      b := bufs[NBUF].next;
      ghost var k := 0;
      while b != NBUF && !Match(bufs[b], dev, blockno)
        invariant 0 <= k <= |ring| && b == At(ring, k)
        invariant forall j | 0 <= j < k :: !Match(bufs[ring[j]], dev, blockno)
        decreases |ring| - k
      {
        assert LinkAt(bufs, ring, k);
        b := bufs[b].next;
        k := k + 1;
      }
      if b == NBUF {
        NoneLeft(bufs, ring, dev, blockno);
      }
    }

    /** The second scan of bget: from the head backwards, for a buffer to recycle. */
    method Victim() returns (b: nat)
      requires Valid()
      ensures b <= NBUF && (b < NBUF ==> Evictable(bufs[b]))
      ensures b < NBUF ==> forall i: nat | i < NBUF && Evictable(bufs[i]) :: stamp[b] <= stamp[i]
      ensures b == NBUF ==> forall i: nat | i < NBUF :: !Evictable(bufs[i])
    {
      assert LinkAt(bufs, ring, |ring| - 1);
      b := bufs[NBUF].prev;
      ghost var k := |ring| - 1;
      while b != NBUF && !Evictable(bufs[b])
        invariant -1 <= k < |ring| && b == At(ring, k)
        invariant forall j | k < j < |ring| :: !Evictable(bufs[ring[j]])
        decreases k + 1
      {
        assert LinkAt(bufs, ring, k - 1);
        b := bufs[b].prev;
        k := k - 1;
      }
      if b != NBUF {
        OldestEvictable(bufs, ring, stamp, clock, k);
      } else {
        Pigeonhole(ring, NBUF);
        forall i: nat | i < NBUF ensures !Evictable(bufs[i]) {
          assert i in ring;
        }
      }
    }

    /**
     bget: the one buffer of the block if there is one, else the evictable
     buffer released longest ago, renamed and invalidated, else panic.
     */
    method Bget(dev: nat, blockno: nat) returns (r: Option<nat>)
      requires Valid() && dev != 0
      modifies this`bufs
      ensures r.Some? ==> r.value < NBUF && Valid() && bufs[r.value].refcnt > 0 && Match(bufs[r.value], dev, blockno)
      ensures forall i: nat | i < NBUF && Match(old(bufs)[i], dev, blockno) ::
                r == Some(i) && bufs == old(bufs)[i := Counted(old(bufs)[i])]
      ensures (forall i: nat | i < NBUF :: !Match(old(bufs)[i], dev, blockno)) && r.Some? ==>
                && Evictable(old(bufs)[r.value])
                && (forall j: nat | j < NBUF && Evictable(old(bufs)[j]) :: stamp[r.value] <= stamp[j])
                && bufs == old(bufs)[r.value := Renamed(old(bufs)[r.value], dev, blockno)]
      ensures r.None? ==> bufs == old(bufs) && forall j: nat | j < NBUF :: !Evictable(bufs[j]) && !Match(bufs[j], dev, blockno)
    {
      hide Shown, ByAge, LinkAt;
      var b := Find(dev, blockno);
      if b != NBUF {
        bufs := bufs[b := Counted(bufs[b])];
        LinksFrame(old(bufs), bufs, ring);
        ShownFrame(old(bufs), bufs, disk, disk);
        return Some(b);
      }
      b := Victim();
      if b != NBUF {
        bufs := bufs[b := Renamed(bufs[b], dev, blockno)];
        LinksFrame(old(bufs), bufs, ring);
        RenamedShows(old(bufs), disk, b, dev, blockno);
        return Some(b);
      }
      return None;
    }

    /**
     bread: the block's latest contents, in a buffer the caller holds; it panics
     exactly when the block is not cached and every buffer is in use or pinned.
     */
    method Bread(blockno: nat) returns (r: Option<nat>)
      requires Valid() && blockno < |disk|
      modifies this`bufs
      ensures r.None? <==> forall j: nat | j < NBUF :: !Evictable(old(bufs)[j]) && !Match(old(bufs)[j], DISK, blockno)
      ensures r.Some? ==>
                && r.value < NBUF && Valid() && Match(bufs[r.value], DISK, blockno) && bufs[r.value].valid && bufs[r.value].refcnt > 0
                && bufs[r.value].data == latest[blockno]
      ensures forall i: nat | i < NBUF && Match(old(bufs)[i], DISK, blockno) ::
                r == Some(i) && bufs == old(bufs)[i := Loaded(Counted(old(bufs)[i]), disk[blockno])]
      ensures (forall i: nat | i < NBUF :: !Match(old(bufs)[i], DISK, blockno)) && r.Some? ==>
                && Evictable(old(bufs)[r.value])
                && bufs == old(bufs)[r.value := Loaded(Renamed(old(bufs)[r.value], DISK, blockno), disk[blockno])]
    {
      hide Shown, ByAge, LinkAt, Unique, AllSettled, AllShown;
      r := Bget(DISK, blockno);
      if r.Some? {
        Fill(r.value);
      }
    }

    /** The disk read in bread, if the buffer has not been read in. */
    method Fill(b: nat)
      requires Valid() && b < NBUF && bufs[b].refcnt > 0 && bufs[b].dev == DISK && bufs[b].blockno < |disk|
      modifies this`bufs
      ensures Valid() && bufs == old(bufs)[b := Loaded(old(bufs)[b], disk[old(bufs)[b].blockno])]
      ensures bufs[b].data == latest[bufs[b].blockno]
    {
      hide Shown, ByAge, LinkAt, Unique, AllSettled;
      ghost var mid, data := bufs, disk[bufs[b].blockno];
      if !bufs[b].valid {
        bufs := bufs[b := bufs[b].(data := disk[bufs[b].blockno], valid := true)];
        LinksFrame(mid, bufs, ring);
        LoadKeeps(mid, b, data, disk);
        LoadShows(mid, disk, b);
      }
      ShownBy(bufs, disk, b);
    }

    /** The holder of a buffer changes its data: from now on these are the block's latest contents. */
    method Write(b: nat, data: Block)
      requires Valid() && b < NBUF && bufs[b].refcnt > 0 && bufs[b].valid && bufs[b].dev == DISK && bufs[b].blockno < |disk|
      modifies this`bufs, this`latest
      ensures Valid() && bufs == old(bufs)[b := old(bufs)[b].(data := data)] && latest == old(latest)[bufs[b].blockno := data]
    {
      hide Shown, ByAge, LinkAt, Unique, AllSettled;
      ghost var before := bufs;
      bufs := bufs[b := bufs[b].(data := data)];
      latest := latest[bufs[b].blockno := data];
      LinksFrame(before, bufs, ring);
      HeldKeeps(before, bufs, disk, b);
      WriteShows(before, bufs, disk, b);
    }

    /** The pin log_write sets: until the block is written the buffer is not recycled. */
    method Pin(b: nat)
      requires Valid() && b < NBUF && bufs[b].refcnt > 0
      modifies this`bufs
      ensures Valid() && bufs == old(bufs)[b := old(bufs)[b].(dirty := true)]
    {
      hide Shown, ByAge, LinkAt, Unique, AllSettled;
      ghost var before := bufs;
      bufs := bufs[b := bufs[b].(dirty := true)];
      LinksFrame(before, bufs, ring);
      HeldKeeps(before, bufs, disk, b);
      ShownFrame(before, bufs, disk, disk);
    }

    /** bwrite: the disk gets the buffer's data and the pin is gone; what a buffer that was read in shows is what it showed. */
    method Bwrite(b: nat)
      requires Valid() && b < NBUF && bufs[b].dev == DISK && bufs[b].blockno < |disk|
      modifies this`bufs, this`disk, this`latest
      ensures Valid() && bufs == old(bufs)[b := old(bufs)[b].(dirty := false, valid := true)]
      ensures disk == old(disk)[bufs[b].blockno := bufs[b].data] && latest == old(latest)[bufs[b].blockno := bufs[b].data]
      ensures old(bufs)[b].valid ==> latest == old(latest)
    {
      hide Shown, ByAge, LinkAt, Unique, AllSettled;
      ghost var before, d := bufs, disk;
      if bufs[b].valid { ShownBy(bufs, disk, b); }
      bufs := bufs[b := bufs[b].(dirty := false, valid := true)];
      disk := disk[bufs[b].blockno := bufs[b].data];
      latest := latest[bufs[b].blockno := bufs[b].data];
      LinksFrame(before, bufs, ring);
      BwriteKeeps(before, bufs, d, disk, b);
      BwriteShows(before, bufs, d, disk, b);
    }

    /** Take the p-th buffer out of the ring. */
    method Unlink(b: nat, ghost p: nat)
      requires Links(bufs, ring) && p < |ring| && ring[p] == b
      modifies this`bufs, this`ring
      ensures ring == Without(old(ring), p) && Links(bufs, ring) && SameFields(bufs, old(bufs))
    {
      UnlinkedLinks(bufs, ring, p);
      bufs := SetPrev(bufs, bufs[b].next, bufs[b].prev);
      bufs := SetNext(bufs, bufs[b].prev, bufs[b].next);
      assert bufs == Unlinked(old(bufs), b);
      ring := Without(ring, p);
    }

    /** Put a buffer back right behind the head. */
    method PushFront(b: nat)
      requires Links(bufs, ring) && b < NBUF && b !in ring
      modifies this`bufs, this`ring
      ensures ring == [b] + old(ring) && Links(bufs, ring) && SameFields(bufs, old(bufs))
    {
      PushedLinks(bufs, ring, b);
      bufs := SetNext(bufs, b, bufs[NBUF].next);
      bufs := SetPrev(bufs, b, NBUF);
      bufs := SetPrev(bufs, bufs[NBUF].next, b);
      bufs := SetNext(bufs, NBUF, b);
      assert bufs == Pushed(old(bufs), b);
      ring := [b] + ring;
    }

    /** Move a buffer to the recently-released end. */
    method MoveToHead(b: nat)
      requires |ring| == NBUF && Links(bufs, ring) && ByAge(ring, stamp, clock) && b < NBUF
      modifies this`bufs, this`ring, this`stamp, this`clock
      ensures |ring| == NBUF && Links(bufs, ring) && ByAge(ring, stamp, clock)
      ensures SameFields(bufs, old(bufs))
      ensures exists p: nat :: p < NBUF && old(ring)[p] == b && ring == [b] + Without(old(ring), p)
    {
      hide Links, LinkAt, SameFields, ByAge, Without;
      ghost var p := Position(bufs, ring, b);
      Unlink(b, p);
      ghost var mid := bufs;
      PushFront(b);
      SameFieldsTrans(bufs, mid, old(bufs));
      Younger(old(ring), stamp, clock, p);
      stamp := stamp[b := clock];
      clock := clock + 1;
    }

    /**
     brelse: the last user of a buffer moves it to the recently-released end.
     A buffer whose data were changed must have been logged or written.
     */
    method Brelse(b: nat)
      requires Valid() && b < NBUF && bufs[b].refcnt > 0 && Settled(bufs[b], disk)
      modifies this`bufs, this`ring, this`stamp, this`clock
      ensures Valid() && bufs[b].refcnt == old(bufs[b].refcnt) - 1
      ensures SameFields(bufs, old(bufs)[b := old(bufs)[b].(refcnt := bufs[b].refcnt)])
      ensures if bufs[b].refcnt > 0 then ring == old(ring)
              else exists p: nat :: p < NBUF && old(ring)[p] == b && ring == [b] + Without(old(ring), p)
    {
      hide Shown, ByAge, LinkAt;
      bufs := bufs[b := bufs[b].(refcnt := bufs[b].refcnt - 1)];
      LinksFrame(old(bufs), bufs, ring);
      ShownFrame(old(bufs), bufs, disk, disk);
      if bufs[b].refcnt == 0 {
        ghost var mid := bufs;
        MoveToHead(b);
        SameFieldsKeep(mid, bufs, disk);
        ShownSame(mid, bufs, disk);
        assert SameBut(bufs[b], mid[b]);
      }
    }
  }

  /** Filling a buffer in use disturbs neither uniqueness nor the buffers not in use. */
  lemma LoadKeeps(bufs: seq<Buf>, b: nat, data: Block, disk: seq<Block>)
    requires |bufs| == NBUF + 1 && b < NBUF && bufs[b].refcnt > 0 && Unique(bufs) && AllSettled(bufs, disk)
    ensures var bufs' := bufs[b := bufs[b].(data := data, valid := true)];
            Unique(bufs') && AllSettled(bufs', disk)
  {
  }

  /** Everything but the links is the same. */
  predicate SameFields(bufs: seq<Buf>, bufs': seq<Buf>) {
    |bufs| == |bufs'| && forall i | 0 <= i < |bufs| :: SameBut(bufs[i], bufs'[i])
  }

  lemma SameFieldsTrans(x: seq<Buf>, y: seq<Buf>, z: seq<Buf>)
    requires SameFields(x, y) && SameFields(y, z)
    ensures SameFields(x, z)
  {
    forall i | 0 <= i < |x| ensures SameBut(x[i], z[i]) {
      assert SameBut(x[i], y[i]) && SameBut(y[i], z[i]);
    }
  }

  lemma SameFieldsKeep(bufs: seq<Buf>, bufs': seq<Buf>, disk: seq<Block>)
    requires |bufs| == NBUF + 1 && SameFields(bufs', bufs)
    ensures Unique(bufs) ==> Unique(bufs')
    ensures AllSettled(bufs, disk) ==> AllSettled(bufs', disk)
  {
    assert forall i: nat | i < NBUF :: SameBut(bufs'[i], bufs[i]);
  }

  lemma Position(bufs: seq<Buf>, ring: seq<nat>, b: nat) returns (p: nat)
    requires Links(bufs, ring) && |ring| == NBUF && b < NBUF
    ensures p < NBUF && ring[p] == b && b !in Without(ring, p) && |Without(ring, p)| == NBUF - 1
    ensures forall j, k | 0 <= j < k < |ring| :: ring[j] != ring[k]
  {
    hide LinkAt;
    Pigeonhole(ring, NBUF);
    assert b in ring;
    p :| p < NBUF && ring[p] == b;
  }

  /** Moving an entry to the front with a fresh stamp keeps the ring sorted by age. */
  lemma Younger(ring: seq<nat>, stamp: seq<nat>, clock: nat, p: nat)
    requires ByAge(ring, stamp, clock) && p < |ring|
    requires forall j, k | 0 <= j < k < |ring| :: ring[j] != ring[k]
    ensures |stamp| == NBUF && ByAge([ring[p]] + Without(ring, p), stamp[ring[p] := clock], clock + 1)
  {
  }

  function Renamed(x: Buf, dev: nat, blockno: nat): Buf {
    x.(dev := dev, blockno := blockno, valid := false, dirty := false, refcnt := 1)
  }

  /** One more user. */
  function Counted(x: Buf): Buf { x.(refcnt := x.refcnt + 1) }

  /** The buffer once its block has been read in, if it was not already. */
  function Loaded(x: Buf, data: Block): Buf {
    if x.valid then x else x.(data := data, valid := true)
  }

  /** Which blocks are cached, and with what. */
  predicate SameCached(bufs: seq<Buf>, bufs': seq<Buf>)
    requires |bufs| == |bufs'| == NBUF + 1
  {
    forall i: nat | i < NBUF ::
      bufs'[i].dev == bufs[i].dev && bufs'[i].blockno == bufs[i].blockno
      && bufs'[i].valid == bufs[i].valid && bufs'[i].data == bufs[i].data
  }

  lemma ShownFrame(bufs: seq<Buf>, bufs': seq<Buf>, disk: seq<Block>, disk': seq<Block>)
    requires |bufs| == |bufs'| == NBUF + 1 && SameCached(bufs, bufs') && Unique(bufs) && disk' == disk
    ensures forall c: nat | c < |disk| :: Shown(bufs', disk', c) == Shown(bufs, disk, c)
  {
    forall c: nat | c < |disk| ensures Shown(bufs', disk', c) == Shown(bufs, disk, c) {
      if i: nat :| i < NBUF && Match(bufs[i], DISK, c) && bufs[i].valid {
        ShownBy(bufs, disk, i);
        ShownBy(bufs', disk', i);
      } else {
        assert forall i: nat | i < NBUF :: !(Match(bufs'[i], DISK, c) && bufs'[i].valid);
      }
    }
  }

  lemma ShownSame(bufs: seq<Buf>, bufs': seq<Buf>, disk: seq<Block>)
    requires |bufs| == NBUF + 1 && SameFields(bufs', bufs) && Unique(bufs)
    ensures |bufs'| == NBUF + 1 && forall c: nat | c < |disk| :: Shown(bufs', disk, c) == Shown(bufs, disk, c)
  {
    hide Shown;
    assert forall i: nat | i < NBUF :: SameBut(bufs'[i], bufs[i]);
    ShownFrame(bufs, bufs', disk, disk);
  }

  /** A recycled buffer had nothing to show that the disk does not have: it was neither in use nor pinned. */
  lemma RenamedShows(bufs: seq<Buf>, disk: seq<Block>, b: nat, dev: nat, blockno: nat)
    requires |bufs| == NBUF + 1 && b < NBUF && Evictable(bufs[b]) && Unique(bufs) && AllSettled(bufs, disk)
    requires dev != 0 && forall i: nat | i < NBUF :: !Match(bufs[i], dev, blockno)
    ensures var bufs' := bufs[b := Renamed(bufs[b], dev, blockno)];
            Unique(bufs') && forall c: nat | c < |disk| :: Shown(bufs', disk, c) == Shown(bufs, disk, c)
  {
    var bufs' := bufs[b := Renamed(bufs[b], dev, blockno)];
    forall c: nat | c < |disk| ensures Shown(bufs', disk, c) == Shown(bufs, disk, c) {
      if i: nat :| i < NBUF && Match(bufs[i], DISK, c) && bufs[i].valid {
        ShownBy(bufs, disk, i);
        if i == b {
          assert Settled(bufs[b], disk);
          assert forall j: nat | j < NBUF :: !(Match(bufs'[j], DISK, c) && bufs'[j].valid);
        } else {
          ShownBy(bufs', disk, i);
        }
      } else {
        assert forall j: nat | j < NBUF :: !(Match(bufs'[j], DISK, c) && bufs'[j].valid);
      }
    }
  }

  /** Reading the disk into the one buffer of a block shows nothing new. */
  lemma LoadShows(bufs: seq<Buf>, disk: seq<Block>, b: nat)
    requires |bufs| == NBUF + 1 && b < NBUF && Unique(bufs) && !bufs[b].valid && bufs[b].dev == DISK && bufs[b].blockno < |disk|
    ensures var bufs' := bufs[b := bufs[b].(data := disk[bufs[b].blockno], valid := true)];
            Unique(bufs') && forall c: nat | c < |disk| :: Shown(bufs', disk, c) == Shown(bufs, disk, c)
  {
    var bufs' := bufs[b := bufs[b].(data := disk[bufs[b].blockno], valid := true)];
    forall c: nat | c < |disk| ensures Shown(bufs', disk, c) == Shown(bufs, disk, c) {
      if c == bufs[b].blockno {
        ShownBy(bufs', disk, b);
        assert forall j: nat | j < NBUF :: !(Match(bufs[j], DISK, c) && bufs[j].valid);
      } else if i: nat :| i < NBUF && Match(bufs[i], DISK, c) && bufs[i].valid {
        ShownBy(bufs, disk, i);
        ShownBy(bufs', disk, i);
      } else {
        assert forall j: nat | j < NBUF :: !(Match(bufs'[j], DISK, c) && bufs'[j].valid);
      }
    }
  }

  /** Changing a held buffer disturbs neither uniqueness nor the buffers nobody holds. */
  lemma HeldKeeps(bufs: seq<Buf>, bufs': seq<Buf>, disk: seq<Block>, b: nat)
    requires |bufs| == |bufs'| == NBUF + 1 && b < NBUF && Unique(bufs) && AllSettled(bufs, disk)
    requires forall i: nat | i < NBUF && i != b :: bufs'[i] == bufs[i]
    requires bufs'[b].dev == bufs[b].dev && bufs'[b].blockno == bufs[b].blockno && bufs'[b].refcnt == bufs[b].refcnt > 0
    ensures Unique(bufs') && AllSettled(bufs', disk)
  {
  }

  /** The other buffers hold other blocks, so writing this one leaves them settled. */
  lemma BwriteKeeps(bufs: seq<Buf>, bufs': seq<Buf>, disk: seq<Block>, disk': seq<Block>, b: nat)
    requires |bufs| == NBUF + 1 && b < NBUF && Unique(bufs) && AllSettled(bufs, disk)
    requires bufs[b].dev == DISK && bufs[b].blockno < |disk| && bufs' == bufs[b := bufs[b].(dirty := false, valid := true)]
    requires disk' == disk[bufs[b].blockno := bufs[b].data]
    ensures Unique(bufs') && AllSettled(bufs', disk')
  {
    forall i: nat | i < NBUF && bufs'[i].refcnt == 0 ensures Settled(bufs'[i], disk') {
      if i != b { assert Settled(bufs[i], disk); }
    }
  }

  lemma WriteShows(bufs: seq<Buf>, bufs': seq<Buf>, disk: seq<Block>, b: nat)
    requires |bufs| == |bufs'| == NBUF + 1 && b < NBUF && Unique(bufs) && Unique(bufs')
    requires bufs[b].dev == DISK && bufs[b].blockno < |disk| && bufs[b].valid && bufs' == bufs[b := bufs[b].(data := bufs'[b].data)]
    ensures forall c: nat | c < |disk| && c != bufs[b].blockno :: Shown(bufs', disk, c) == Shown(bufs, disk, c)
    ensures Shown(bufs', disk, bufs[b].blockno) == bufs'[b].data
  {
    ShownBy(bufs', disk, b);
    forall c: nat | c < |disk| && c != bufs[b].blockno ensures Shown(bufs', disk, c) == Shown(bufs, disk, c) {
      if i: nat :| i < NBUF && Match(bufs[i], DISK, c) && bufs[i].valid {
        ShownBy(bufs, disk, i);
        ShownBy(bufs', disk, i);
      } else {
        assert forall j: nat | j < NBUF :: !(Match(bufs'[j], DISK, c) && bufs'[j].valid);
      }
    }
  }

  lemma BwriteShows(bufs: seq<Buf>, bufs': seq<Buf>, disk: seq<Block>, disk': seq<Block>, b: nat)
    requires |bufs| == |bufs'| == NBUF + 1 && b < NBUF && Unique(bufs) && Unique(bufs')
    requires bufs[b].dev == DISK && bufs[b].blockno < |disk|
    requires bufs' == bufs[b := bufs[b].(dirty := false, valid := true)]
    requires disk' == disk[bufs[b].blockno := bufs[b].data]
    ensures forall c: nat | c < |disk| && c != bufs[b].blockno :: Shown(bufs', disk', c) == Shown(bufs, disk, c)
    ensures Shown(bufs', disk', bufs[b].blockno) == bufs[b].data
  {
    ShownBy(bufs', disk', b);
    forall c: nat | c < |disk| && c != bufs[b].blockno
      ensures Shown(bufs', disk', c) == Shown(bufs, disk, c)
    {
      if i: nat :| i < NBUF && Match(bufs[i], DISK, c) && bufs[i].valid {
        ShownBy(bufs, disk, i);
        ShownBy(bufs', disk', i);
      } else {
        assert forall j: nat | j < NBUF :: !(Match(bufs'[j], DISK, c) && bufs'[j].valid);
      }
    }
  }

  lemma LinksFrame(bufs: seq<Buf>, bufs': seq<Buf>, ring: seq<nat>)
    requires Links(bufs, ring) && |bufs'| == |bufs|
    requires forall i | 0 <= i < |bufs| :: bufs'[i].prev == bufs[i].prev && bufs'[i].next == bufs[i].next
    ensures Links(bufs', ring)
  {
    forall k | -1 <= k < |ring| ensures LinkAt(bufs', ring, k) {
      assert LinkAt(bufs, ring, k);
    }
  }

  lemma NoneLeft(bufs: seq<Buf>, ring: seq<nat>, dev: nat, blockno: nat)
    requires Nodes(bufs, ring) && |ring| == NBUF
    requires forall j | 0 <= j < |ring| :: !Match(bufs[ring[j]], dev, blockno)
    ensures forall i: nat | i < NBUF :: !Match(bufs[i], dev, blockno)
  {
    Pigeonhole(ring, NBUF);
    forall i: nat | i < NBUF ensures !Match(bufs[i], dev, blockno) {
      assert i in ring;
    }
  }

  lemma OldestEvictable(bufs: seq<Buf>, ring: seq<nat>, stamp: seq<nat>, clock: nat, k: nat)
    requires Nodes(bufs, ring) && |ring| == NBUF && ByAge(ring, stamp, clock) && k < |ring|
    requires forall j | k < j < |ring| :: !Evictable(bufs[ring[j]])
    ensures forall i: nat | i < NBUF && Evictable(bufs[i]) :: stamp[ring[k]] <= stamp[i]
  {
    Pigeonhole(ring, NBUF);
    forall i: nat | i < NBUF && Evictable(bufs[i]) ensures stamp[ring[k]] <= stamp[i] {
      assert i in ring;
      var j :| 0 <= j < |ring| && ring[j] == i;
    }
  }
}

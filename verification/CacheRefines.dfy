/**
 The buffer cache of bio.c under the log machine: the ring of buffers is the
 map of cached blocks that the machine works on. Every call of the cache is a
 step of the machine, a recycled buffer an eviction just before it.
 */
module CacheRefines {
  import opened Basics
  import opened Blocks
  import opened Ring
  import opened Bcache
  import L = LogDisk
  import M = LogMachine
  import P = LogProof

  // ---------- The relation ----------

  predicate HasBlock(x: Buf, b: nat) {
    Match(x, DISK, b) && x.valid
  }

  ghost predicate Cached(bufs: seq<Buf>, b: nat)
    requires |bufs| == NBUF + 1
  {
    exists i: nat :: i < NBUF && HasBlock(bufs[i], b)
  }

  /** Cache entry y of the machine is what buffer x holds; a held entry is a buffer in use. */
  predicate Agree(x: Buf, y: M.Buf) {
    x.data == y.data && x.dirty == y.dirty && (!y.holder.Free? ==> x.refcnt > 0)
  }

  predicate BufMirrors(x: Buf, s: M.State) {
    && (x.dirty ==> x.valid)
    && (x.valid ==> x.dev == DISK && x.blockno in s.cache && Agree(x, s.cache[x.blockno]))
  }

  /** The valid buffers are the machine's cache, and the disks are the same. */
  ghost predicate Mirrors(bufs: seq<Buf>, disk: Disk, s: M.State) {
    && |bufs| == NBUF + 1 && s.disk == disk
    && (forall i: nat | i < NBUF :: BufMirrors(bufs[i], s))
    && (forall b | b in s.cache :: Cached(bufs, b))
  }

  /** binit: an empty cache. */
  method NewCache(disk: Disk, ghost s: M.State) returns (c: Cache)
    requires s.disk == disk && s.cache == map[]
    ensures fresh(c) && c.Valid() && Mirrors(c.bufs, c.disk, s)
  {
    hide LinkAt, Shown, ByAge;
    c := new Cache(disk);
  }

  /** The buffer of block b changes, and so does the machine's entry for b. */
  lemma Changed(bufs: seq<Buf>, disk: Disk, s: M.State, i: nat, x: Buf, disk': Disk, y: M.Buf, s': M.State)
    requires Mirrors(bufs, disk, s) && Unique(bufs) && i < NBUF && bufs[i].valid
    requires x.valid && x.dev == DISK && x.blockno == bufs[i].blockno && Agree(x, y)
    requires s'.disk == disk' && s'.cache == s.cache[x.blockno := y]
    ensures Mirrors(bufs[i := x], disk', s')
  {
    var bufs' := bufs[i := x];
    assert HasBlock(bufs'[i], x.blockno);
    forall k: nat | k < NBUF ensures BufMirrors(bufs'[k], s') {
      assert BufMirrors(bufs[k], s) && BufMirrors(bufs[i], s);
    }
    forall b | b in s'.cache ensures Cached(bufs', b) {
      if b != x.blockno {
        var k: nat :| k < NBUF && HasBlock(bufs[k], b);
        assert HasBlock(bufs'[k], b);
      }
    }
  }

  /** A block is read into a buffer that held none. */
  lemma Filled(bufs: seq<Buf>, disk: Disk, s: M.State, i: nat, x: Buf, y: M.Buf, s': M.State)
    requires Mirrors(bufs, disk, s) && i < NBUF && !bufs[i].valid && !Cached(bufs, x.blockno)
    requires x.valid && x.dev == DISK && Agree(x, y)
    requires s'.disk == disk && s'.cache == s.cache[x.blockno := y]
    ensures Mirrors(bufs[i := x], disk, s')
  {
    var bufs' := bufs[i := x];
    assert HasBlock(bufs'[i], x.blockno);
    forall k: nat | k < NBUF ensures BufMirrors(bufs'[k], s') {
      assert BufMirrors(bufs[k], s);
      assert bufs[k].valid ==> HasBlock(bufs[k], bufs[k].blockno);
    }
    forall b | b in s'.cache ensures Cached(bufs', b) {
      if b != x.blockno {
        var k: nat :| k < NBUF && HasBlock(bufs[k], b);
        assert HasBlock(bufs'[k], b);
      }
    }
  }

  /** A buffer gives its block up. */
  lemma Dropped(bufs: seq<Buf>, disk: Disk, s: M.State, i: nat, x: Buf)
    requires Mirrors(bufs, disk, s) && Unique(bufs) && i < NBUF && bufs[i].valid && !x.valid && !x.dirty
    ensures Mirrors(bufs[i := x], disk, s.(cache := s.cache - {bufs[i].blockno}))
  {
    var bufs', s' := bufs[i := x], s.(cache := s.cache - {bufs[i].blockno});
    assert BufMirrors(bufs[i], s);
    forall k: nat | k < NBUF ensures BufMirrors(bufs'[k], s') {
      assert BufMirrors(bufs[k], s);
      assert k != i && bufs[k].valid ==> bufs[k].blockno != bufs[i].blockno;
    }
    forall b | b in s'.cache ensures Cached(bufs', b) {
      assert b in s.cache;
      var k: nat :| k < NBUF && HasBlock(bufs[k], b);
      assert HasBlock(bufs'[k], b);
    }
  }

  /** A buffer without a block is renamed. */
  lemma Relabelled(bufs: seq<Buf>, disk: Disk, s: M.State, i: nat, x: Buf)
    requires Mirrors(bufs, disk, s) && i < NBUF && !bufs[i].valid && !x.valid && !x.dirty
    ensures Mirrors(bufs[i := x], disk, s)
  {
    var bufs' := bufs[i := x];
    forall k: nat | k < NBUF ensures BufMirrors(bufs'[k], s) { assert BufMirrors(bufs[k], s); }
    forall b | b in s.cache ensures Cached(bufs', b) {
      var k: nat :| k < NBUF && HasBlock(bufs[k], b);
      assert HasBlock(bufs'[k], b);
    }
  }

  lemma LinksIrrelevant(bufs: seq<Buf>, bufs': seq<Buf>, disk: Disk, s: M.State)
    requires Mirrors(bufs, disk, s) && SameFields(bufs', bufs)
    ensures Mirrors(bufs', disk, s)
  {
    forall k: nat | k < NBUF ensures BufMirrors(bufs'[k], s) {
      assert BufMirrors(bufs[k], s) && SameBut(bufs'[k], bufs[k]);
    }
    forall b | b in s.cache ensures Cached(bufs', b) {
      var k: nat :| k < NBUF && HasBlock(bufs[k], b);
      assert SameBut(bufs'[k], bufs[k]);
      assert HasBlock(bufs'[k], b);
    }
  }

  // ---------- bread ----------

  /** s, or s after the eviction of one block other than b. */
  ghost predicate MadeRoom(l: L.Layout, s: M.State, s1: M.State, b: nat) {
    s1 == s || exists v :: v != b && M.Enabled(l, s, M.Evict(v)) && s1 == M.Do(l, s, M.Evict(v))
  }

  /** The machine's cache once b has been read in for `who`. */
  function Fetched(s: M.State, b: nat, who: M.Holder): M.State
    requires b < |s.disk|
  {
    s.(cache := s.cache[b := if b in s.cache then s.cache[b].(holder := who) else M.Buf(s.disk[b], false, false, who)])
  }

  /** Block b has no buffer, and none can be recycled: bget panics. */
  predicate Exhausted(bufs: seq<Buf>, b: nat)
    requires |bufs| == NBUF + 1
  {
    forall j: nat | j < NBUF :: !Evictable(bufs[j]) && !Match(bufs[j], DISK, b)
  }

  /** The buffer is there. */
  lemma Hit(bufs: seq<Buf>, disk: Disk, s: M.State, i: nat, b: nat, who: M.Holder)
    requires Mirrors(bufs, disk, s) && Unique(bufs) && i < NBUF && Match(bufs[i], DISK, b) && b < |disk|
    ensures Mirrors(bufs[i := Loaded(Counted(bufs[i]), disk[b])], disk, Fetched(s, b, who))
  {
    var x, s' := Loaded(Counted(bufs[i]), disk[b]), Fetched(s, b, who);
    assert BufMirrors(bufs[i], s);
    if bufs[i].valid {
      Changed(bufs, disk, s, i, x, disk, s'.cache[b], s');
    } else {
      NotCached(bufs, i, b);
      CachedOnly(bufs, disk, s, b);
      Filled(bufs, disk, s, i, x, s'.cache[b], s');
    }
  }

  /** With at most one buffer per block, a buffer not yet read in means that the block is not cached. */
  lemma NotCached(bufs: seq<Buf>, i: nat, b: nat)
    requires |bufs| == NBUF + 1 && Unique(bufs) && i < NBUF && Match(bufs[i], DISK, b) && !bufs[i].valid
    ensures !Cached(bufs, b)
  {
  }

  lemma CachedOnly(bufs: seq<Buf>, disk: Disk, s: M.State, b: nat)
    requires Mirrors(bufs, disk, s)
    ensures b in s.cache <==> Cached(bufs, b)
  {
    forall i: nat | i < NBUF && HasBlock(bufs[i], b) ensures b in s.cache { assert BufMirrors(bufs[i], s); }
  }

  /** A buffer is recycled: the machine evicts its block first. */
  lemma Miss(l: L.Layout, bufs: seq<Buf>, disk: Disk, s: M.State, i: nat, b: nat, who: M.Holder) returns (s1: M.State)
    requires Mirrors(bufs, disk, s) && Unique(bufs) && i < NBUF && Evictable(bufs[i]) && b < |disk|
    requires forall k: nat | k < NBUF :: !Match(bufs[k], DISK, b)
    ensures MadeRoom(l, s, s1, b) && s1.disk == disk
    ensures Mirrors(bufs[i := Loaded(Renamed(bufs[i], DISK, b), disk[b])], disk, Fetched(s1, b, who))
  {
    var r := Renamed(bufs[i], DISK, b);
    var mid := bufs[i := r];
    assert BufMirrors(bufs[i], s);
    CachedOnly(bufs, disk, s, b);
    if bufs[i].valid {
      var v := bufs[i].blockno;
      s1 := s.(cache := s.cache - {v});
      assert M.Enabled(l, s, M.Evict(v)) && s1 == M.Do(l, s, M.Evict(v));
      Dropped(bufs, disk, s, i, r);
    } else {
      s1 := s;
      Relabelled(bufs, disk, s, i, r);
    }
    var x, s' := Loaded(r, disk[b]), Fetched(s1, b, who);
    CachedOnly(mid, disk, s1, b);
    Filled(mid, disk, s1, i, x, s'.cache[b], s');
    assert mid[i := x] == bufs[i := x];
  }

  /** The cache reads block b in, recycling a buffer if need be. */
  method Load(c: Cache, b: nat, ghost l: L.Layout, ghost s: M.State, ghost who: M.Holder) returns (r: Option<nat>, ghost s1: M.State)
    requires c.Valid() && Mirrors(c.bufs, c.disk, s) && b < |c.disk|
    modifies c`bufs
    ensures r.None? <==> Exhausted(old(c.bufs), b)
    ensures r.Some? ==>
              && c.Valid() && r.value < NBUF && |c.bufs| == NBUF + 1 && HasBlock(c.bufs[r.value], b) && c.bufs[r.value].refcnt > 0
              && MadeRoom(l, s, s1, b) && s1.disk == c.disk && Mirrors(c.bufs, c.disk, Fetched(s1, b, who))
  {
    hide Links, AllSettled, AllShown, ByAge, Mirrors, Unique;
    ghost var bufs := c.bufs;
    Sizes(bufs, c.disk, s);
    r := c.Bread(b);
    s1 := s;
    if r.Some? {
      if Match(bufs[r.value], DISK, b) {
        Hit(bufs, c.disk, s, r.value, b, who);
      } else {
        s1 := Miss(l, bufs, c.disk, s, r.value, b, who);
      }
      BufCount(c);
    }
  }

  /** bread is the machine's Bread, after an eviction where a buffer had to be recycled. */
  method Bread(c: Cache, b: nat, ghost l: L.Layout, ghost s: M.State, ghost who: M.Holder) returns (r: Option<nat>, ghost s': M.State)
    requires c.Valid() && Mirrors(c.bufs, c.disk, s) && M.Enabled(l, s, M.Bread(b, who))
    modifies c`bufs
    ensures r.None? <==> Exhausted(old(c.bufs), b)
    ensures r.Some? ==>
              && c.Valid() && r.value < NBUF && HasBlock(c.bufs[r.value], b) && Mirrors(c.bufs, c.disk, s')
              && exists s1 :: MadeRoom(l, s, s1, b) && M.Enabled(l, s1, M.Bread(b, who)) && s' == M.Do(l, s1, M.Bread(b, who))
  {
    hide Links, AllSettled, AllShown, ByAge, Mirrors;
    Sizes(c.bufs, c.disk, s);
    ghost var s1;
    r, s1 := Load(c, b, l, s, who);
    s' := s;
    if r.Some? {
      s' := Fetched(s1, b, who);
      StillReadable(l, s, s1, b, who);
    }
  }

  lemma Sizes(bufs: seq<Buf>, disk: Disk, s: M.State)
    requires Mirrors(bufs, disk, s)
    ensures |bufs| == NBUF + 1 && s.disk == disk
  {
  }

  lemma BufCount(c: Cache)
    requires c.Valid()
    ensures |c.bufs| == NBUF + 1
  {
    hide LinkAt, Shown;
  }

  lemma StillReadable(l: L.Layout, s: M.State, s1: M.State, b: nat, who: M.Holder)
    requires M.Enabled(l, s, M.Bread(b, who)) && MadeRoom(l, s, s1, b)
    ensures M.Enabled(l, s1, M.Bread(b, who)) && M.Do(l, s1, M.Bread(b, who)) == Fetched(s1, b, who)
  {
  }

  // ---------- Changes, pins and releases ----------

  /** A change to a held buffer is the machine's Modify. */
  method Modify(c: Cache, i: nat, data: Block, ghost l: L.Layout, ghost s: M.State, ghost b: nat)
    requires c.Valid() && Mirrors(c.bufs, c.disk, s) && i < NBUF && HasBlock(c.bufs[i], b) && b < |c.disk|
    requires M.Enabled(l, s, M.Modify(b, data))
    modifies c
    ensures c.Valid() && Mirrors(c.bufs, c.disk, M.Do(l, s, M.Modify(b, data)))
    ensures c.disk == old(c.disk) && c.latest == old(c.latest)[b := data]
  {
    hide Links, AllSettled, AllShown, ByAge;
    assert BufMirrors(c.bufs[i], s);
    ghost var bufs, s' := c.bufs, M.Do(l, s, M.Modify(b, data));
    c.Write(i, data);
    Changed(bufs, c.disk, s, i, c.bufs[i], c.disk, s'.cache[b], s');
  }

  /** The pin is what the machine's LogAppend does to the cache. */
  method Pin(c: Cache, i: nat, ghost l: L.Layout, ghost s: M.State, ghost k: nat)
    requires c.Valid() && Mirrors(c.bufs, c.disk, s) && P.Inv(l, s) && M.Enabled(l, s, M.LogAppend(k))
    requires i < NBUF && HasBlock(c.bufs[i], s.slots[k].pending.value)
    modifies c
    ensures c.Valid() && Mirrors(c.bufs, c.disk, M.Do(l, s, M.LogAppend(k)))
    ensures c.disk == old(c.disk) && c.latest == old(c.latest)
  {
    hide Links, AllSettled, AllShown, ByAge;
    assert BufMirrors(c.bufs[i], s);
    ghost var b := s.slots[k].pending.value;
    assert s.cache[b].holder == M.Call(k) by { assert P.SlotOk(s, k); }
    ghost var bufs, s' := c.bufs, M.Do(l, s, M.LogAppend(k));
    c.Pin(i);
    Changed(bufs, c.disk, s, i, c.bufs[i], c.disk, s'.cache[b], s');
  }

  /** brelse is the machine's Brelse; that the buffer was logged or unchanged is the machine's own rule. */
  method Brelse(c: Cache, i: nat, ghost l: L.Layout, ghost s: M.State, ghost b: nat)
    requires c.Valid() && Mirrors(c.bufs, c.disk, s) && P.Inv(l, s) && M.Enabled(l, s, M.Brelse(b))
    requires i < NBUF && HasBlock(c.bufs[i], b)
    modifies c
    ensures c.Valid() && Mirrors(c.bufs, c.disk, M.Do(l, s, M.Brelse(b)))
    ensures c.disk == old(c.disk) && c.latest == old(c.latest)
  {
    hide Links, AllSettled, AllShown, ByAge, SameFields;
    assert BufMirrors(c.bufs[i], s);
    assert P.BufOk(l, s, b);
    ghost var s' := M.Do(l, s, M.Brelse(b));
    Changed(c.bufs, c.disk, s, i, c.bufs[i], c.disk, s'.cache[b], s');
    assert c.bufs[i := c.bufs[i]] == c.bufs;
    Release(c, i, b, s');
  }

  /** Reading block b in, filling it and writing it, as commit does with log, header and home blocks, is the machine's bwrite. */
  method Store(c: Cache, b: nat, data: Block, ghost l: L.Layout, ghost s: M.State) returns (ok: bool, ghost s1: M.State)
    requires c.Valid() && Mirrors(c.bufs, c.disk, s) && b < |c.disk| && M.Unlocked(s, b)
    modifies c
    ensures !ok <==> Exhausted(old(c.bufs), b)
    ensures ok ==> c.Valid() && MadeRoom(l, s, s1, b) && |s1.disk| == |old(c.disk)| && Mirrors(c.bufs, c.disk, M.Bwrite(s1, b, data))
  {
    hide Links, AllSettled, AllShown, ByAge, Mirrors, MadeRoom;
    Sizes(c.bufs, c.disk, s);
    var r;
    r, s1 := Load(c, b, l, s, M.Free);
    if r.None? { return false, s1; }
    var i := r.value;
    ghost var mid := c.bufs;
    c.Write(i, data);
    c.Bwrite(i);
    ghost var x := mid[i].(data := data, dirty := false);
    assert c.bufs == mid[i := x];
    ghost var s' := M.Bwrite(s1, b, data);
    Changed(mid, old(c.disk), Fetched(s1, b, M.Free), i, x, c.disk, s'.cache[b], s');
    Release(c, i, b, s');
    return true, s1;
  }

  /** A buffer that shows what is on disk is let go. */
  method Release(c: Cache, i: nat, ghost b: nat, ghost s: M.State)
    requires c.Valid() && Mirrors(c.bufs, c.disk, s) && b in s.cache && s.cache[b].holder.Free?
    requires i < NBUF && HasBlock(c.bufs[i], b) && c.bufs[i].refcnt > 0 && Settled(c.bufs[i], c.disk)
    modifies c
    ensures c.Valid() && Mirrors(c.bufs, c.disk, s) && c.disk == old(c.disk) && c.latest == old(c.latest)
  {
    hide Links, AllSettled, AllShown, ByAge, SameFields;
    assert BufMirrors(c.bufs[i], s);
    ghost var bufs := c.bufs;
    c.Brelse(i);
    BufCount(c);
    ghost var y := bufs[i].(refcnt := c.bufs[i].refcnt);
    Changed(bufs, c.disk, s, i, y, c.disk, s.cache[b], s);
    LinksIrrelevant(bufs[i := y], c.bufs, c.disk, s);
  }
}

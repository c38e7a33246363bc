/**
 The callers of writei and readi: fileread's and filewrite's loops, the bound
 on what one filewrite chunk logs, and iput's release of an unlinked inode.
 */
module FsSyscall {
  import opened Basics
  import opened Blocks
  import opened FsLayout
  import opened FsInode
  import opened FsOps
  import opened FsFile

  /** How many bytes filewrite writes in one transaction: three blocks. */
  const CHUNK: nat := 1536

  // ---------- No holes ----------

  /** Exactly the blocks below the size are allocated. */
  ghost predicate NoHoles(disk: Disk, d: Dinode)
    requires d.Valid()
  {
    && (forall bn: nat | bn < MAXFILE :: Slot(disk, d, DataSlot(bn)) != 0 <==> BSIZE * bn < d.size)
    && (d.addrs[NDIRECT] != 0 <==> d.size > BSIZE * NDIRECT)
  }

  lemma NoHolesKept(disk: Disk, d: Dinode, disk': Disk, d': Dinode, off: nat, n: nat)
    requires d.Valid() && d'.Valid() && NoHoles(disk, d) && off <= d.size && Grown(disk, d.(size := d'.size), disk', d', off, n)
    requires d'.size == if off + n > d.size then off + n else d.size
    ensures NoHoles(disk', d')
  {
    SlotSize(disk, d, d'.size);
    hide Slot;
    forall bn: nat | bn < MAXFILE ensures Slot(disk', d', DataSlot(bn)) != 0 <==> BSIZE * bn < d'.size {
      assert Slot(disk, d, DataSlot(bn)) != 0 <==> BSIZE * bn < d.size;
    }
  }

  /** In a file without holes a write below the size needs no new address. */
  lemma NoHolesNoNewAddress(disk: Disk, d: Dinode, off: nat, n: nat, bn: nat)
    requires d.Valid() && NoHoles(disk, d) && off + n <= d.size && bn < MAXFILE && Touched(off, n, bn)
    ensures d.addrs[AddrFor(bn)] != 0
  {
    if bn < NDIRECT {
      assert Slot(disk, d, DataSlot(bn)) == d.addrs[bn];
    }
  }

  // ---------- The log bound ----------

  lemma {:induction false} FreshBound(disk: Disk, d: Dinode, lo: nat, hi: nat)
    requires d.Valid() && lo <= hi <= MAXFILE
    ensures FreshIn(disk, d, lo, hi) <= hi - lo
    ensures lo < hi && Slot(disk, d, DataSlot(lo)) != 0 ==> FreshIn(disk, d, lo, hi) < hi - lo
    decreases hi
  {
    hide Slot;
    if hi > lo {
      FreshBound(disk, d, lo, hi - 1);
    }
  }

  /** An unaligned first block is already there, so a chunk never needs more than MAXOPBLOCKS log blocks. */
  lemma ChunkCost(disk: Disk, d: Dinode, off: nat, n: nat)
    requires d.Valid() && NoHoles(disk, d) && off <= d.size && n <= CHUNK && off + n <= MAXBYTES
    ensures LogCost(disk, d, off, n) + 2 <= MAXOPBLOCKS
  {
    hide Slot, FreshIn;
    var lo, k := off / BSIZE, Span(off, n);
    FreshBound(disk, d, lo, lo + k);
    if n > 0 {
      if off % BSIZE == 0 {
        assert k <= 3;
      } else {
        assert k <= 4;
        assert BSIZE * lo < d.size;
        assert Slot(disk, d, DataSlot(lo)) != 0;
      }
    }
  }

  lemma LogsSize(logged: set<nat>, y: set<nat>, d: Dinode, cost: nat)
    requires d.Valid() && Logs({}, logged, y, d, cost)
    ensures |logged| <= cost + 1
  {
    UnionSize(y, IndirectOf(d));
    var all := y + IndirectOf(d);
    assert logged <= all;
    assert all == logged + (all - logged);
  }

  // ---------- filewrite ----------

  class OpenFile {
    const ip: Inode
    var off: nat

    constructor (ip: Inode, off: nat)
      ensures this.ip == ip && this.off == off
    {
      this.ip := ip;
      this.off := off;
    }
  }

  /** The inode is settled: without holes, within the largest size, and on disk as it is in memory. */
  ghost predicate Settled(fs: FileSystem, ip: Inode)
    reads fs, ip
  {
    && fs.Valid() && fs.Holds(ip) && Narrow(ip.d) && ip.d.size <= MAXBYTES
    && NoHoles(fs.disk, ip.d) && OnDisk(fs.sb, fs.Now(), ip.inum)
  }

  lemma SpliceMore(c: seq<byte>, off: nat, a: seq<byte>, b: seq<byte>)
    requires off <= |c|
    ensures |Splice(c, off, a)| == if off + |a| > |c| then off + |a| else |c|
    ensures Splice(Splice(c, off, a), off + |a|, b) == Splice(c, off, a + b)
  {
    var s := Splice(c, off, a);
    assert s[..off + |a|] == c[..off] + a;
    assert Splice(s, off + |a|, b) == Splice(c, off, a + b);
  }

  /** One filewrite transaction: a settled file stays settled, and at most MAXOPBLOCKS blocks are logged. */
  method WriteChunk(fs: FileSystem, ip: Inode, src: seq<byte>, off: nat) returns (r: Io)
    requires Settled(fs, ip) && off < U32 && |src| <= CHUNK
    modifies fs, ip
    ensures r.Ret? ==> Settled(fs, ip) && |fs.logged| <= MAXOPBLOCKS
    ensures r.Ret? && r.v < 0 <==> off > old(ip.d.size) || off + |src| > MAXBYTES
    ensures r.Ret? && r.v < 0 ==> r.v == -1 && ip.d == old(ip.d) && fs.disk == old(fs.disk) && fs.view == old(fs.view)
    ensures r.Ret? && r.v >= 0 ==>
              && r.v == |src| && fs.loose == old(fs.loose)
              && ip.d.size == (if off + |src| > old(ip.d.size) then off + |src| else old(ip.d.size))
              && Contents(fs.disk, ip.d) == Splice(old(Contents(fs.disk, ip.d)), off, src)
              && |fs.view| == |old(fs.view)|
              && OthersSame(fs.sb, old(fs.Now()), fs.Now(), ip.inum)
    ensures r.Panic? <==>
              && off <= old(ip.d.size) && off + |src| <= MAXBYTES
              && Room(fs.sb, old(fs.disk)) < Need(old(fs.disk), old(ip.d), off, |src|)
    ensures r.Ret? && r.v >= 0 ==>
              && Room(fs.sb, fs.disk) == Room(fs.sb, old(fs.disk)) - Need(old(fs.disk), old(ip.d), off, |src|)
              && Grown(old(fs.disk), old(ip.d).(size := ip.d.size), fs.disk, ip.d, off, |src|)
  {
    hide Owned, InodeAt, Slot, Grown, LogCost, Logs, Contents, Splice, OthersSame, NoHoles, Need, Room;
    ghost var f, d := fs.Now(), ip.d;
    OwnedSizes(fs.sb, f);
    fs.logged := {};
    ghost var y;
    r, y := WriteI(fs, ip, src, off);
    if r.Ret? && r.v >= 0 {
      ChunkCost(f.disk, d, off, |src|);
      LogsSize(fs.logged, y + {fs.sb.IBlock(ip.inum)}, ip.d, LogCost(f.disk, d, off, |src|) + 1);
      NoHolesKept(f.disk, d, fs.disk, ip.d, off, |src|);
      if off + |src| <= d.size {
        forall bn: nat | bn < MAXFILE && Touched(off, |src|, bn) ensures d.addrs[AddrFor(bn)] != 0 {
          NoHolesNoNewAddress(f.disk, d, off, |src|, bn);
        }
      }
    }
  }

  /** How far filewrite gets if blocks suffice: all the way, or up to the first chunk that does not fit. */
  function Reach(size: nat, off: nat, n: nat): (r: nat)
    requires size <= MAXBYTES
    ensures r <= n && (r > 0 ==> off <= size && off + r <= MAXBYTES)
    ensures r == n <==> n == 0 || (off <= size && off + n <= MAXBYTES)
  {
    if n == 0 || off > size then 0 else if off + n <= MAXBYTES then n else (MAXBYTES - off) / CHUNK * CHUNK
  }

  /** One turn of filewrite's loop and what it needs, in terms of the state filewrite began in. */
  ghost predicate Progress(sb: Super, disk: Disk, d: Dinode, disk': Disk, d': Dinode, off: nat, i: nat)
    requires d.Valid() && d'.Valid() && sb.Valid() && |disk| == |disk'| == sb.size
  {
    if i == 0 then disk' == disk && d' == d
    else
      && off + i <= MAXBYTES && Grown(disk, d.(size := d'.size), disk', d', off, i)
      && Room(sb, disk') == Room(sb, disk) - Need(disk, d, off, i)
  }

  lemma {:induction false} FreshInSplit(disk: Disk, d: Dinode, lo: nat, mid: nat, hi: nat)
    requires d.Valid() && lo <= mid <= hi <= MAXFILE
    ensures FreshIn(disk, d, lo, hi) == FreshIn(disk, d, lo, mid) + FreshIn(disk, d, mid, hi)
    decreases hi
  {
    hide Slot;
    if mid < hi { FreshInSplit(disk, d, lo, mid, hi - 1); }
  }

  lemma {:induction false} FreshInSame(disk: Disk, d: Dinode, disk': Disk, d': Dinode, lo: nat, hi: nat)
    requires d.Valid() && d'.Valid() && lo <= hi <= MAXFILE
    requires forall bn: nat | lo <= bn < hi :: Slot(disk', d', DataSlot(bn)) == 0 <==> Slot(disk, d, DataSlot(bn)) == 0
    ensures FreshIn(disk', d', lo, hi) == FreshIn(disk, d, lo, hi)
    decreases hi
  {
    hide Slot;
    if lo < hi { FreshInSame(disk, d, disk', d', lo, hi - 1); }
  }

  lemma {:induction false} FreshInNone(disk: Disk, d: Dinode, lo: nat, hi: nat)
    requires d.Valid() && lo <= hi <= MAXFILE && forall bn: nat | lo <= bn < hi :: Slot(disk, d, DataSlot(bn)) != 0
    ensures FreshIn(disk, d, lo, hi) == 0
    decreases hi
  {
    hide Slot;
    if lo < hi { FreshInNone(disk, d, lo, hi - 1); }
  }

  /** What two adjoining writes need, the second after the first, is what one write needs. */
  lemma NeedMore(disk: Disk, d: Dinode, disk': Disk, d': Dinode, off: nat, a: nat, b: nat)
    requires d.Valid() && d'.Valid() && Grown(disk, d, disk', d', off, a) && off + a + b <= MAXBYTES && a > 0 && b > 0
    ensures Need(disk, d, off, a + b) == Need(disk, d, off, a) + Need(disk', d', off + a, b)
  {
    hide Slot, FreshIn;
    var lo, mid, lo2, hi := off / BSIZE, off / BSIZE + Span(off, a), (off + a) / BSIZE, off / BSIZE + Span(off, a + b);
    assert hi == lo2 + Span(off + a, b) && lo2 <= mid <= hi;
    FreshInSplit(disk, d, lo, mid, hi);
    FreshInSplit(disk', d', lo2, mid, hi);
    assert forall bn: nat | lo2 <= bn < mid :: Touched(off, a, bn);
    assert forall bn: nat | mid <= bn < hi :: !Touched(off, a, bn);
    FreshInNone(disk', d', lo2, mid);
    FreshInSame(disk, d, disk', d', mid, hi);
  }

  lemma {:induction false} FreshInSize(disk: Disk, d: Dinode, size: nat, lo: nat, hi: nat)
    requires d.Valid() && lo <= hi <= MAXFILE
    ensures FreshIn(disk, d.(size := size), lo, hi) == FreshIn(disk, d, lo, hi)
    decreases hi
  {
    SlotSize(disk, d, size);
    hide Slot;
    if lo < hi { FreshInSize(disk, d, size, lo, hi - 1); }
  }

  lemma NeedSize(disk: Disk, d: Dinode, size: nat, off: nat, n: nat)
    requires d.Valid() && off + n <= MAXBYTES
    ensures Need(disk, d.(size := size), off, n) == Need(disk, d, off, n)
  {
    FreshInSize(disk, d, size, off / BSIZE, off / BSIZE + Span(off, n));
  }

  lemma GrownMore(disk: Disk, d: Dinode, disk1: Disk, d1: Dinode, disk2: Disk, d2: Dinode, off: nat, a: nat, b: nat)
    requires d.Valid() && d1.Valid() && d2.Valid() && a > 0 && b > 0
    requires Grown(disk, d.(size := d1.size), disk1, d1, off, a) && Grown(disk1, d1.(size := d2.size), disk2, d2, off + a, b)
    ensures Grown(disk, d.(size := d2.size), disk2, d2, off, a + b)
  {
    SlotSize(disk, d, d1.size);
    SlotSize(disk, d, d2.size);
    SlotSize(disk1, d1, d2.size);
    hide Slot;
    forall bn: nat ensures Touched(off, a + b, bn) <==> Touched(off, a, bn) || Touched(off + a, b, bn) {}
    hide Touched;
  }

  lemma ProgressMore(sb: Super, disk: Disk, d: Dinode, disk1: Disk, d1: Dinode, disk2: Disk, d2: Dinode, off: nat, i: nat, n: nat)
    requires sb.Valid() && |disk| == |disk1| == |disk2| == sb.size && d.Valid() && d1.Valid() && d2.Valid()
    requires Progress(sb, disk, d, disk1, d1, off, i) && n > 0 && off + i + n <= MAXBYTES
    requires Grown(disk1, d1.(size := d2.size), disk2, d2, off + i, n)
    requires Room(sb, disk2) == Room(sb, disk1) - Need(disk1, d1, off + i, n)
    ensures Progress(sb, disk, d, disk2, d2, off, i + n)
  {
    ProgressNeed(sb, disk, d, disk1, d1, off, i, n);
    hide Grown, Room, Need;
    if i > 0 { GrownMore(disk, d, disk1, d1, disk2, d2, off, i, n); }
  }

  /** What is still needed after i bytes, in terms of the beginning. */
  lemma ProgressNeed(sb: Super, disk: Disk, d: Dinode, disk1: Disk, d1: Dinode, off: nat, i: nat, n: nat)
    requires sb.Valid() && |disk| == |disk1| == sb.size && d.Valid() && d1.Valid()
    requires Progress(sb, disk, d, disk1, d1, off, i) && n > 0 && off + i + n <= MAXBYTES
    ensures Room(sb, disk1) - Need(disk1, d1, off + i, n) == Room(sb, disk) - Need(disk, d, off, i + n)
  {
    hide Grown, Room, Need;
    if i > 0 {
      NeedMore(disk, d.(size := d1.size), disk1, d1, off, i, n);
      NeedSize(disk, d, d1.size, off, i);
      NeedSize(disk, d, d1.size, off, i + n);
    }
  }

  /** Where a chunk does not fit, filewrite has got as far as it can. */
  lemma ReachStop(size: nat, off: nat, n: nat, i: nat, n1: nat)
    requires size <= MAXBYTES && i < n && i % CHUNK == 0 && n1 == (if n - i > CHUNK then CHUNK else n - i)
    requires i > 0 ==> off <= size && off + i <= MAXBYTES
    requires (i == 0 && off > size) || off + i + n1 > MAXBYTES
    ensures Reach(size, off, n) == i
  {
    if off <= size {
      assert (MAXBYTES - off) / CHUNK == i / CHUNK;
    }
  }

  /** Before that it goes on. */
  lemma ReachOn(size: nat, off: nat, n: nat, i: nat, n1: nat)
    requires size <= MAXBYTES && i < n && i % CHUNK == 0 && n1 == (if n - i > CHUNK then CHUNK else n - i)
    requires off <= size && off + i + n1 <= MAXBYTES
    ensures i + n1 <= Reach(size, off, n)
  {
    if off + n > MAXBYTES {
      assert (MAXBYTES - off) / CHUNK >= (i + CHUNK) / CHUNK;
    }
  }

  /**
   filewrite on an inode: a chunked write is one whole write. It returns n
   exactly when the whole range fits (or n is 0); otherwise it returns -1 after
   the chunks that did fit. It panics exactly when there are too few free
   blocks for the range it gets to. trail holds the file systems its
   transactions leave behind, one for each chunk.
   */
  method FileWrite(fs: FileSystem, f: OpenFile, addr: seq<byte>) returns (r: Io, ghost done: nat, ghost trail: seq<Fs>)
    requires Settled(fs, f.ip) && f.off < U32 && |addr| < U32
    modifies fs, f, f.ip
    ensures r.Ret? ==> Settled(fs, f.ip) && done == Reach(old(f.ip.d.size), old(f.off), |addr|) && f.off == old(f.off) + done
    ensures r.Ret? ==> r.v == (if done == |addr| then |addr| else -1)
    ensures r.Ret? && done > 0 ==> Contents(fs.disk, f.ip.d) == Splice(old(Contents(fs.disk, f.ip.d)), old(f.off), addr[..done])
    ensures r.Ret? && done == 0 ==> fs.disk == old(fs.disk) && f.ip.d == old(f.ip.d)
    ensures r.Ret? ==> OthersSame(fs.sb, old(fs.Now()), fs.Now(), f.ip.inum)
    ensures r.Panic? <==>
              var m := Reach(old(f.ip.d.size), old(f.off), |addr|);
              m > 0 && Room(fs.sb, old(fs.disk)) < Need(old(fs.disk), old(f.ip.d), old(f.off), m)
    ensures done <= |addr| && IsTrail(fs.sb, old(fs.Now()), trail, f.ip.inum, old(f.off), addr[..done])
    ensures r.Ret? ==> trail[|trail| - 1].disk == fs.disk && trail[|trail| - 1].view == fs.view
  {
    hide Contents, Splice, OthersSame, Settled, Owned, Need, Room, Reach, Written, Grown, IsTrail;
    SettledSizes(fs, f.ip);
    SettledHolds(fs, f.ip);
    ghost var g, off, d := fs.Now(), f.off, f.ip.d;
    WrittenNothing(fs.sb, g, f.ip.inum, d, off);
    done, trail := 0, [g];
    var i := 0;
    var n := |addr|;
    assert addr[..0] == [];
    TrailStart(fs, f.ip, off);
    while i < n
      invariant 0 <= i <= n && done == i && f.off == off + i && (i == n || i % CHUNK == 0) && i <= Reach(d.size, off, n)
      invariant Settled(fs, f.ip) && Written(fs.sb, g, fs.Now(), f.ip.inum, d, f.ip.d, off, addr[..i])
      invariant IsTrail(fs.sb, g, trail, f.ip.inum, off, addr[..i]) && |trail| > 0 && trail[|trail| - 1] == fs.Now()
      invariant fs.loose == g.loose
    {
      var n1 := if n - i > CHUNK then CHUNK else n - i;
      ghost var m, md := fs.Now(), f.ip.d;
      SettledSizes(fs, f.ip);
      WrittenFacts(fs.sb, g, m, f.ip.inum, d, md, off, addr[..i]);
      Attempt(fs.sb, g.disk, d, fs.disk, f.ip.d, d.size, off, n, i, n1);
      var w := WriteChunk(fs, f.ip, addr[i..i + n1], f.off);
      if w.Panic? { return Panic, done, trail; }
      SettledSizes(fs, f.ip);
      if w.v < 0 {
        WrittenAgain(fs.sb, g, m, fs.Now(), f.ip.inum, d, md, off, addr[..i]);
        WrittenFacts(fs.sb, g, fs.Now(), f.ip.inum, d, f.ip.d, off, addr[..i]);
        return Ret(-1), done, trail;
      }
      WrittenMore(fs.sb, g, m, fs.Now(), f.ip.inum, d, md, f.ip.d, off, addr[..i], addr[i..i + n1]);
      assert addr[..i] + addr[i..i + n1] == addr[..i + n1];
      TrailMore(fs, f.ip, g, trail, off, addr[..i], addr[i..i + n1]);
      trail := trail + [fs.Now()];
      f.off := f.off + w.v;
      i := i + w.v;
      done := i;
    }
    SettledSizes(fs, f.ip);
    WrittenFacts(fs.sb, g, fs.Now(), f.ip.inum, d, f.ip.d, off, addr[..i]);
    return Ret(n), done, trail;
  }

  /** From g to f the bytes src were written to file inum at off, in however many chunks. */
  ghost predicate Written(sb: Super, g: Fs, f: Fs, inum: nat, d: Dinode, d': Dinode, off: nat, src: seq<byte>) {
    && sb.Valid() && |g.disk| == |f.disk| == sb.size && |g.view| == |f.view| == sb.ninodes
    && d.Valid() && d'.Valid() && d.size <= MAXBYTES && d'.size <= MAXBYTES
    && (forall j | 0 <= j < |g.view| :: g.view[j].Valid() && f.view[j].Valid())
    && (src == [] ==> f.disk == g.disk && d' == d)
    && (src != [] ==>
          && off <= d.size && off + |src| <= MAXBYTES && d'.size == (if off + |src| > d.size then off + |src| else d.size)
          && Contents(f.disk, d') == Splice(Contents(g.disk, d), off, src))
    && OthersSame(sb, g, f, inum) && Progress(sb, g.disk, d, f.disk, d', off, |src|)
  }

  lemma WrittenNothing(sb: Super, g: Fs, inum: nat, d: Dinode, off: nat)
    requires sb.Valid() && |g.disk| == sb.size && |g.view| == sb.ninodes && d.Valid() && d.size <= MAXBYTES
    requires forall j | 0 <= j < |g.view| :: g.view[j].Valid()
    ensures Written(sb, g, g, inum, d, d, off, [])
  {
    hide Contents, OthersSame, Progress;
    OthersRefl(sb, g, inum);
    ProgressNone(sb, g.disk, d, off);
  }

  lemma WrittenFacts(sb: Super, g: Fs, f: Fs, inum: nat, d: Dinode, d': Dinode, off: nat, src: seq<byte>)
    requires Written(sb, g, f, inum, d, d', off, src)
    ensures sb.Valid() && |g.disk| == |f.disk| == sb.size && d.Valid() && d'.Valid() && d.size <= MAXBYTES
    ensures Progress(sb, g.disk, d, f.disk, d', off, |src|)
    ensures |g.view| == |f.view| == sb.ninodes && forall j | 0 <= j < |g.view| :: g.view[j].Valid() && f.view[j].Valid()
    ensures OthersSame(sb, g, f, inum)
    ensures src == [] ==> f.disk == g.disk && d' == d
    ensures src != [] ==>
              && off <= d.size && off + |src| <= MAXBYTES && d'.size == (if off + |src| > d.size then off + |src| else d.size)
              && Contents(f.disk, d') == Splice(Contents(g.disk, d), off, src)
              && Room(sb, g.disk) >= Need(g.disk, d, off, |src|)
  {
    hide Contents, Splice, OthersSame, Progress, Room, Need;
    FarEnough(sb, g.disk, d, f.disk, d', off, |src|);
  }

  lemma WrittenAgain(sb: Super, g: Fs, m: Fs, f: Fs, inum: nat, d: Dinode, d': Dinode, off: nat, src: seq<byte>)
    requires Written(sb, g, m, inum, d, d', off, src) && f.disk == m.disk && f.view == m.view
    ensures Written(sb, g, f, inum, d, d', off, src)
  {
    hide Contents, Splice, OthersSame, Progress;
    OthersSameAgain(sb, g, m, f, inum);
  }

  /** One more chunk. */
  lemma WrittenMore(sb: Super, g: Fs, m: Fs, f: Fs, inum: nat, d: Dinode, md: Dinode, d': Dinode, off: nat, a: seq<byte>, b: seq<byte>)
    requires Written(sb, g, m, inum, d, md, off, a) && b != [] && off + |a| <= md.size && off + |a| + |b| <= MAXBYTES
    requires |f.disk| == sb.size && |f.view| == sb.ninodes && d'.Valid() && forall j | 0 <= j < |f.view| :: f.view[j].Valid()
    requires d'.size == if off + |a| + |b| > md.size then off + |a| + |b| else md.size
    requires d'.size <= MAXBYTES && Contents(f.disk, d') == Splice(Contents(m.disk, md), off + |a|, b)
    requires OthersSame(sb, m, f, inum) && Grown(m.disk, md.(size := d'.size), f.disk, d', off + |a|, |b|)
    requires Room(sb, f.disk) == Room(sb, m.disk) - Need(m.disk, md, off + |a|, |b|)
    ensures Written(sb, g, f, inum, d, d', off, a + b)
  {
    hide Contents, Splice, OthersSame, Progress, Grown, Room, Need;
    OthersTrans(sb, g, m, f, inum);
    ProgressMore(sb, g.disk, d, m.disk, md, f.disk, d', off, |a|, |b|);
    if a == [] {
      assert a + b == b;
    } else {
      SpliceMore(Contents(g.disk, d), off, a, b);
    }
  }

  /** How much of n bytes the first k chunks hold. */
  function Cut(k: nat, n: nat): (r: nat)
    ensures r <= n && (r == n || r == k * CHUNK)
  {
    if k * CHUNK < n then k * CHUNK else n
  }

  /** Between two transactions: file inum has got src, its inode is on disk, and nothing is loose that was not before. */
  ghost predicate Stage(sb: Super, g: Fs, h: Fs, inum: nat, off: nat, src: seq<byte>) {
    && Owned(sb, h) && h.loose == g.loose && |g.view| == sb.ninodes && inum < sb.ninodes && OnDisk(sb, h, inum)
    && Written(sb, g, h, inum, g.view[inum], h.view[inum], off, src)
  }

  /** The file systems between the transactions of a write of src: one more chunk each, from g to the whole of src. */
  ghost predicate IsTrail(sb: Super, g: Fs, trail: seq<Fs>, inum: nat, off: nat, src: seq<byte>) {
    && |trail| == (|src| + CHUNK - 1) / CHUNK + 1 && trail[0] == g
    && forall k: nat | k < |trail| :: Stage(sb, g, trail[k], inum, off, src[..Cut(k, |src|)])
  }

  /** 1536 bytes to a transaction: a write of n bytes takes n / 1536 of them, rounded up, and the k-th leaves 1536 * k bytes written. */
  lemma TransactionsOf(sb: Super, g: Fs, trail: seq<Fs>, inum: nat, off: nat, src: seq<byte>, k: nat)
    requires IsTrail(sb, g, trail, inum, off, src)
    ensures |trail| - 1 == (if |src| % 1536 == 0 then |src| / 1536 else |src| / 1536 + 1)
    ensures k < |trail| && 1536 * k <= |src| ==> Stage(sb, g, trail[k], inum, off, src[..1536 * k])
    ensures |src| > 0 ==> Stage(sb, g, trail[|trail| - 1], inum, off, src)
  {
    hide Stage;
    assert src[..|src|] == src;
    var n := |trail| - 1;
    if |src| > 0 { assert Stage(sb, g, trail[n], inum, off, src[..Cut(n, |src|)]); }
  }

  lemma StageNow(fs: FileSystem, ip: Inode, g: Fs, off: nat, src: seq<byte>)
    requires Settled(fs, ip) && |g.view| == fs.sb.ninodes && ip.inum < |g.view| && fs.loose == g.loose
    requires Written(fs.sb, g, fs.Now(), ip.inum, g.view[ip.inum], ip.d, off, src)
    ensures Stage(fs.sb, g, fs.Now(), ip.inum, off, src)
  {
    hide Owned, Written, NoHoles, InodeAt;
    OwnedSizes(fs.sb, fs.Now());
  }

  lemma TrailStart(fs: FileSystem, ip: Inode, off: nat)
    requires Settled(fs, ip)
    ensures IsTrail(fs.sb, fs.Now(), [fs.Now()], ip.inum, off, [])
  {
    hide Settled, Written, Stage, Owned;
    SettledSizes(fs, ip);
    SettledHolds(fs, ip);
    WrittenNothing(fs.sb, fs.Now(), ip.inum, ip.d, off);
    StageNow(fs, ip, fs.Now(), off, []);
  }

  lemma SettledHolds(fs: FileSystem, ip: Inode)
    requires Settled(fs, ip)
    ensures fs.Holds(ip)
  {
    hide Owned, NoHoles, InodeAt;
  }

  lemma TrailMore(fs: FileSystem, ip: Inode, g: Fs, trail: seq<Fs>, off: nat, a: seq<byte>, b: seq<byte>)
    requires IsTrail(fs.sb, g, trail, ip.inum, off, a) && |a| % CHUNK == 0 && 0 < |b| <= CHUNK
    requires Settled(fs, ip) && |g.view| == fs.sb.ninodes && ip.inum < |g.view| && fs.loose == g.loose
    requires Written(fs.sb, g, fs.Now(), ip.inum, g.view[ip.inum], ip.d, off, a + b)
    ensures IsTrail(fs.sb, g, trail + [fs.Now()], ip.inum, off, a + b)
  {
    hide Settled, Written, Stage, Owned;
    StageNow(fs, ip, g, off, a + b);
    var c, n := a + b, |trail|;
    assert n == |a| / CHUNK + 1;
    forall k: nat | k <= n ensures Stage(fs.sb, g, (trail + [fs.Now()])[k], ip.inum, off, c[..Cut(k, |c|)]) {
      if k < n {
        assert Stage(fs.sb, g, trail[k], ip.inum, off, a[..Cut(k, |a|)]);
        assert Cut(k, |c|) == k * CHUNK == Cut(k, |a|);
        assert c[..k * CHUNK] == a[..k * CHUNK];
      } else {
        assert c[..|c|] == c;
      }
    }
  }

  lemma ProgressNone(sb: Super, disk: Disk, d: Dinode, off: nat)
    requires sb.Valid() && |disk| == sb.size && d.Valid()
    ensures Progress(sb, disk, d, disk, d, off, 0)
  {
  }

  /** A write that came this far had the blocks for it. */
  lemma FarEnough(sb: Super, disk: Disk, d: Dinode, disk': Disk, d': Dinode, off: nat, i: nat)
    requires d.Valid() && d'.Valid() && sb.Valid() && |disk| == |disk'| == sb.size && Progress(sb, disk, d, disk', d', off, i)
    ensures i > 0 ==> off + i <= MAXBYTES && Room(sb, disk) >= Need(disk, d, off, i)
  {
    hide Grown, Room, Need;
  }

  /** Whether the next chunk is refused, panics or goes through, told from the beginning. */
  lemma Attempt(sb: Super, disk: Disk, d: Dinode, disk1: Disk, d1: Dinode, size: nat, off: nat, n: nat, i: nat, n1: nat)
    requires sb.Valid() && |disk| == |disk1| == sb.size && d.Valid() && d1.Valid() && Progress(sb, disk, d, disk1, d1, off, i)
    requires size <= MAXBYTES && i < n && i % CHUNK == 0 && n1 == (if n - i > CHUNK then CHUNK else n - i)
    requires i == 0 ==> d1.size == size
    requires i > 0 ==> off <= size && off + i <= MAXBYTES && d1.size == (if off + i > size then off + i else size)
    ensures off + i > d1.size || off + i + n1 > MAXBYTES ==> Reach(size, off, n) == i
    ensures off + i <= d1.size && off + i + n1 <= MAXBYTES ==>
              && i + n1 <= Reach(size, off, n) && off + Reach(size, off, n) <= MAXBYTES
              && (Room(sb, disk1) < Need(disk1, d1, off + i, n1) ==> Room(sb, disk) < Need(disk, d, off, Reach(size, off, n)))
  {
    hide Grown, Room, Need, Progress;
    if off + i > d1.size || off + i + n1 > MAXBYTES {
      ReachStop(size, off, n, i, n1);
    } else {
      ReachOn(size, off, n, i, n1);
      ProgressNeed(sb, disk, d, disk1, d1, off, i, n1);
      NeedMonotone(disk, d, off, i + n1, Reach(size, off, n));
    }
  }

  lemma SettledSizes(fs: FileSystem, ip: Inode)
    requires Settled(fs, ip)
    ensures fs.sb.Valid() && |fs.disk| == fs.sb.size && |fs.view| == fs.sb.ninodes && ip.inum < fs.sb.ninodes
    ensures ip.d.Valid() && ip.d.size <= MAXBYTES && forall j | 0 <= j < |fs.view| :: fs.view[j].Valid()
  {
    OwnedSizes(fs.sb, fs.Now());
  }

  lemma OthersRefl(sb: Super, f: Fs, i: nat)
    requires |f.view| == sb.ninodes && sb.Valid() && |f.disk| == sb.size && forall j | 0 <= j < |f.view| :: f.view[j].Valid()
    ensures OthersSame(sb, f, f, i)
  {
  }

  lemma OthersSameAgain(sb: Super, f: Fs, g: Fs, h: Fs, i: nat)
    requires |f.view| == |g.view| == sb.ninodes && sb.Valid() && |f.disk| == |g.disk| == sb.size
    requires forall j | 0 <= j < |f.view| :: f.view[j].Valid() && g.view[j].Valid()
    requires OthersSame(sb, f, g, i) && h.disk == g.disk && h.view == g.view
    ensures OthersSame(sb, f, h, i)
  {
  }

  lemma OthersTrans(sb: Super, f: Fs, g: Fs, h: Fs, i: nat)
    requires |f.view| == |g.view| == |h.view| == sb.ninodes && sb.Valid() && |f.disk| == |g.disk| == |h.disk| == sb.size
    requires forall j | 0 <= j < |f.view| :: f.view[j].Valid() && g.view[j].Valid() && h.view[j].Valid()
    requires OthersSame(sb, f, g, i) && OthersSame(sb, g, h, i)
    ensures OthersSame(sb, f, h, i)
  {
    hide FileBlock, InodeAt;
    forall j: nat | j < sb.ninodes && j != i
      ensures h.view[j] == f.view[j] && InodeAt(sb, h.disk, j) == InodeAt(sb, f.disk, j)
      ensures forall bn: nat | bn < MAXFILE :: FileBlock(h.disk, h.view[j], bn) == FileBlock(f.disk, f.view[j], bn)
    {
      assert g.view[j] == f.view[j];
    }
  }

  // ---------- readi ----------

  /** Every block that off..off+n reaches into is allocated. */
  ghost predicate AllThere(disk: Disk, d: Dinode, off: nat, n: nat)
    requires d.Valid()
  {
    forall bn: nat | bn < MAXFILE && Touched(off, n, bn) :: Slot(disk, d, DataSlot(bn)) != 0
  }

  /** One turn of readi's loop: bytes o..o+m of block bn. */
  method ReadBlock(fs: FileSystem, ip: Inode, bn: nat, o: nat, m: nat) returns (r: Option<seq<byte>>)
    requires fs.Valid() && fs.Holds(ip) && ip.d.size <= MAXBYTES && bn < MAXFILE && o + m <= BSIZE && BSIZE * bn + o + m <= ip.d.size
    modifies fs, ip
    ensures r.None? <==> Room(fs.sb, old(fs.disk)) < MapNeed(old(fs.disk), old(ip.d), bn)
    ensures r.Some? ==>
              && |fs.disk| == fs.sb.size && ip.d.Valid() && Mapped(old(fs.disk), old(ip.d), fs.disk, ip.d, bn)
              && Room(fs.sb, fs.disk) == Room(fs.sb, old(fs.disk)) - MapNeed(old(fs.disk), old(ip.d), bn)
    ensures r.Some? ==>
              && Quiet(fs.sb, old(fs.Now()), fs.Now()) && fs.Holds(ip) && |fs.view| == |old(fs.view)| && ip.d.size == old(ip.d.size)
              && Contents(fs.disk, ip.d) == old(Contents(fs.disk, ip.d))
              && r.value == old(Contents(fs.disk, ip.d))[BSIZE * bn + o..BSIZE * bn + o + m]
              && (Slot(old(fs.disk), old(ip.d), DataSlot(bn)) != 0 ==>
                    fs.disk == old(fs.disk) && ip.d == old(ip.d) && fs.view == old(fs.view) && fs.logged == old(fs.logged))
  {
    hide Owned, InodeAt, FileBlock, Slot, Mapped, SameFiles, Quiet, Contents, Room, MapNeed;
    ghost var g, gd := fs.Now(), ip.d;
    OwnedSizes(fs.sb, g);
    var x := fs.BMap(ip, bn);
    if x.None? { return None; }
    QuietOwned(fs.sb, g, fs.Now());
    OwnedSizes(fs.sb, fs.Now());
    MappedFacts(g.disk, gd, fs.disk, ip.d, bn);
    QuietContents(fs.sb, g, fs.Now(), ip.inum);
    BlockBytes(fs.disk, ip.d, bn, x.value, o, m);
    assert fs.view == old(fs.view)[ip.inum := ip.d];
    return Some(fs.disk[x.value][o..o + m]);
  }

  lemma ReachedThere(disk: Disk, d: Dinode, off: nat, n: nat, tot: nat, bn: nat)
    requires d.Valid() && tot < n && bn == (off + tot) / BSIZE < MAXFILE && AllThere(disk, d, off, n)
    ensures Slot(disk, d, DataSlot(bn)) != 0
  {
    hide Slot;
    assert Touched(off, n, bn);
  }

  /** The blocks of off..off+tot that were missing have been allocated, and nothing else. */
  ghost predicate Drew(sb: Super, disk: Disk, d: Dinode, disk': Disk, d': Dinode, off: nat, tot: nat)
    requires sb.Valid() && |disk| == |disk'| == sb.size && d.Valid() && d'.Valid()
  {
    off + tot <= MAXBYTES && Grown(disk, d, disk', d', off, tot) && Room(sb, disk') == Room(sb, disk) - Need(disk, d, off, tot)
  }

  lemma DrewNothing(sb: Super, disk: Disk, d: Dinode, off: nat)
    requires sb.Valid() && |disk| == sb.size && d.Valid() && off <= MAXBYTES
    ensures Drew(sb, disk, d, disk, d, off, 0)
  {
    NeedNothing(disk, d, off);
    GrownNothing(disk, d, off, {});
  }

  lemma DrewNeeds(sb: Super, disk: Disk, d: Dinode, disk1: Disk, d1: Dinode, off: nat, tot: nat, m: nat, len: nat)
    requires sb.Valid() && |disk| == |disk1| == sb.size && d.Valid() && d1.Valid() && Drew(sb, disk, d, disk1, d1, off, tot)
    requires 0 < m && (tot == 0 || (off + tot) % BSIZE == 0) && (off + tot) % BSIZE + m <= BSIZE
    requires tot + m <= len && off + len <= MAXBYTES
    ensures Room(sb, disk1) < MapNeed(disk1, d1, (off + tot) / BSIZE) ==> Room(sb, disk) < Need(disk, d, off, len)
  {
    hide Grown, Need, Room, MapNeed;
    LogCostStep(disk, d, disk1, d1, off, tot, m);
    NeedMonotone(disk, d, off, tot + m, len);
  }

  lemma DrewMore(sb: Super, disk: Disk, d: Dinode, disk1: Disk, d1: Dinode, disk2: Disk, d2: Dinode, off: nat, tot: nat, m: nat)
    requires sb.Valid() && |disk| == |disk1| == |disk2| == sb.size && d.Valid() && d1.Valid() && d2.Valid()
    requires Drew(sb, disk, d, disk1, d1, off, tot) && off + tot + m <= MAXBYTES
    requires 0 < m && (tot == 0 || (off + tot) % BSIZE == 0) && (off + tot) % BSIZE + m <= BSIZE
    requires Mapped(disk1, d1, disk2, d2, (off + tot) / BSIZE)
    requires Room(sb, disk2) == Room(sb, disk1) - MapNeed(disk1, d1, (off + tot) / BSIZE)
    ensures Drew(sb, disk, d, disk2, d2, off, tot + m)
  {
    hide Grown, Need, Room, MapNeed, Mapped;
    LogCostStep(disk, d, disk1, d1, off, tot, m);
    GrownStep(disk, d, disk1, d1, disk2, d2, off, tot, m);
  }

  lemma DrewAll(sb: Super, disk: Disk, d: Dinode, disk': Disk, d': Dinode, off: nat, tot: nat)
    requires sb.Valid() && |disk| == |disk'| == sb.size && d.Valid() && d'.Valid() && Drew(sb, disk, d, disk', d', off, tot)
    ensures off + tot <= MAXBYTES && Room(sb, disk) >= Need(disk, d, off, tot)
  {
    hide Grown, Need, Room;
  }

  lemma SliceMore(c: seq<byte>, off: nat, tot: nat, m: nat)
    requires off + tot + m <= |c|
    ensures c[off..off + tot] + c[off + tot..off + tot + m] == c[off..off + tot + m]
  {
  }

  /** From f to g the bytes off..off+tot of a file were read, on the way to off+len. */
  ghost predicate ReadSoFar(sb: Super, f: Fs, g: Fs, d: Dinode, d': Dinode, off: nat, tot: nat, len: nat, same: bool) {
    && sb.Valid() && |f.disk| == |g.disk| == sb.size && d.Valid() && d'.Valid() && d'.size == d.size <= MAXBYTES
    && Quiet(sb, f, g) && Contents(g.disk, d') == Contents(f.disk, d)
    && Drew(sb, f.disk, d, g.disk, d', off, tot)
    && (AllThere(f.disk, d, off, len) ==> g.disk == f.disk && d' == d && g.view == f.view && same)
  }

  /** One turn of readi's loop: tot bytes are read, and the next block is due. */
  method ReadTurn(fs: FileSystem, ip: Inode, off: nat, len: nat, tot: nat, ghost f: Fs, ghost d: Dinode, ghost logged: set<nat>)
    returns (r: Option<seq<byte>>, m: nat)
    requires fs.Valid() && fs.Holds(ip) && tot < len && d.Valid() && off + len <= d.size && |f.disk| == fs.sb.size
    requires tot == 0 || (off + tot) % BSIZE == 0
    requires ReadSoFar(fs.sb, f, fs.Now(), d, ip.d, off, tot, len, fs.logged == logged)
    modifies fs, ip
    ensures 0 < m && tot + m <= len && (tot + m == len || (off + tot + m) % BSIZE == 0)
    ensures r.None? ==> Room(fs.sb, f.disk) < Need(f.disk, d, off, len)
    ensures r.Some? ==>
              && fs.Holds(ip) && ReadSoFar(fs.sb, f, fs.Now(), d, ip.d, off, tot + m, len, fs.logged == logged)
              && r.value == Contents(f.disk, d)[off + tot..off + tot + m]
  {
    hide Owned, InodeAt, Slot, Quiet, Contents, SameFiles, AllThere, Touched, Need, Room, MapNeed, Mapped, Drew;
    ghost var g, gd := fs.Now(), ip.d;
    var bn, o := (off + tot) / BSIZE, (off + tot) % BSIZE;
    m := if len - tot < BSIZE - o then len - tot else BSIZE - o;
    if AllThere(f.disk, d, off, len) { ReachedThere(f.disk, d, off, len, tot, bn); }
    DrewNeeds(fs.sb, f.disk, d, g.disk, gd, off, tot, m, len);
    r := ReadBlock(fs, ip, bn, o, m);
    if r.Some? {
      DrewMore(fs.sb, f.disk, d, g.disk, gd, fs.disk, ip.d, off, tot, m);
      QuietTrans(fs.sb, f, g, fs.Now());
    }
  }

  lemma ReadNothing(sb: Super, f: Fs, d: Dinode, off: nat, len: nat)
    requires Owned(sb, f) && d.Valid() && off <= d.size <= MAXBYTES
    ensures ReadSoFar(sb, f, f, d, d, off, 0, len, true)
  {
    hide Owned, Quiet, Contents, AllThere, Drew;
    OwnedSizes(sb, f);
    DrewNothing(sb, f.disk, d, off);
    QuietRefl(sb, f);
  }

  lemma ReadFacts(sb: Super, f: Fs, g: Fs, d: Dinode, d': Dinode, off: nat, tot: nat, len: nat, same: bool)
    requires ReadSoFar(sb, f, g, d, d', off, tot, len, same)
    ensures Owned(sb, g) && sb.Valid() && |f.disk| == |g.disk| == sb.size && d.Valid() && d'.Valid() && d'.size == d.size <= MAXBYTES
    ensures Quiet(sb, f, g) && Contents(g.disk, d') == Contents(f.disk, d)
    ensures off + tot <= MAXBYTES && Room(sb, f.disk) >= Need(f.disk, d, off, tot)
    ensures AllThere(f.disk, d, off, len) ==> g.disk == f.disk && d' == d && g.view == f.view && same
  {
    hide Owned, Quiet, Contents, AllThere, Drew, Need, Room;
    QuietOwned(sb, f, g);
    DrewAll(sb, f.disk, d, g.disk, d', off, tot);
  }

  /** The loop of readi over the clipped range. */
  method ReadLoop(fs: FileSystem, ip: Inode, off: nat, len: nat) returns (ok: bool, dst: seq<byte>)
    requires fs.Valid() && fs.Holds(ip) && ip.d.size <= MAXBYTES && off + len <= ip.d.size
    modifies fs, ip
    ensures ok <==> Room(fs.sb, old(fs.disk)) >= Need(old(fs.disk), old(ip.d), off, len)
    ensures ok ==>
              && Quiet(fs.sb, old(fs.Now()), fs.Now()) && fs.Holds(ip) && ip.d.size == old(ip.d.size)
              && Contents(fs.disk, ip.d) == old(Contents(fs.disk, ip.d))
              && dst == old(Contents(fs.disk, ip.d))[off..off + len]
              && (AllThere(old(fs.disk), old(ip.d), off, len) ==>
                    fs.disk == old(fs.disk) && ip.d == old(ip.d) && fs.view == old(fs.view) && fs.logged == old(fs.logged))
  {
    hide Owned, Quiet, Contents, AllThere, Need, Room, ReadSoFar;
    ghost var f, d, c := fs.Now(), ip.d, Contents(fs.disk, ip.d);
    OwnedSizes(fs.sb, f);
    ReadNothing(fs.sb, f, d, off, len);
    dst := [];
    var tot := 0;
    while tot < len
      invariant 0 <= tot <= len && dst == c[off..off + tot] && fs.Holds(ip)
      invariant tot == 0 || tot == len || (off + tot) % BSIZE == 0
      invariant ReadSoFar(fs.sb, f, fs.Now(), d, ip.d, off, tot, len, fs.logged == old(fs.logged))
    {
      ReadFacts(fs.sb, f, fs.Now(), d, ip.d, off, tot, len, fs.logged == old(fs.logged));
      var x, m := ReadTurn(fs, ip, off, len, tot, f, d, old(fs.logged));
      if x.None? { return false, dst; }
      SliceMore(c, off, tot, m);
      dst := dst + x.value;
      tot := tot + m;
    }
    ReadFacts(fs.sb, f, fs.Now(), d, ip.d, off, tot, len, fs.logged == old(fs.logged));
    return true, dst;
  }

  /**
   readi on a file that is not a device: the slice of the file from off,
   clipped at its size. No file changes; where no hole is read nothing does.
   */
  method ReadI(fs: FileSystem, ip: Inode, off: nat, n: nat) returns (r: Io, dst: seq<byte>)
    requires fs.Valid() && fs.Holds(ip) && ip.d.size <= MAXBYTES && off < U32 && n < U32
    modifies fs, ip
    ensures r.Ret? ==> fs.Valid() && fs.Holds(ip) && fs.loose == old(fs.loose)
    ensures r.Ret? && r.v < 0 <==> off > old(ip.d.size) || off + n >= U32
    ensures r.Ret? && r.v < 0 ==> r.v == -1 && dst == [] && fs.Now() == old(fs.Now()) && ip.d == old(ip.d)
    // a hole is filled in as it is read, and inside a transaction only that can panic
    ensures r.Panic? <==>
              && off <= old(ip.d.size) && off + n < U32
              && var len := if off + n > old(ip.d.size) then old(ip.d.size) - off else n;
                 Room(fs.sb, old(fs.disk)) < Need(old(fs.disk), old(ip.d), off, len)
    ensures r.Ret? && r.v >= 0 ==>
              && r.v == |dst| == (if off + n > old(ip.d.size) then old(ip.d.size) - off else n)
              && dst == old(Contents(fs.disk, ip.d))[off..off + |dst|]
              && Quiet(fs.sb, old(fs.Now()), fs.Now()) && ip.d.size == old(ip.d.size)
              && Contents(fs.disk, ip.d) == old(Contents(fs.disk, ip.d))
    ensures r.Ret? && r.v >= 0 && AllThere(old(fs.disk), old(ip.d), off, r.v) ==>
              fs.disk == old(fs.disk) && ip.d == old(ip.d) && fs.view == old(fs.view) && fs.logged == old(fs.logged)
  {
    hide Owned, InodeAt, Slot, Quiet, Contents, AllThere, Need, Room;
    ghost var f := fs.Now();
    OwnedSizes(fs.sb, f);
    if off > ip.d.size || (off + n) % U32 < off {
      return Ret(-1), [];
    }
    var len := if off + n > ip.d.size then ip.d.size - off else n;
    var ok;
    ok, dst := ReadLoop(fs, ip, off, len);
    if !ok { return Panic, dst; }
    QuietOwned(fs.sb, f, fs.Now());
    return Ret(len), dst;
  }

  /** In a file without holes every block below the size is there. */
  lemma NoHolesAllThere(disk: Disk, d: Dinode, off: nat, n: nat)
    requires d.Valid() && NoHoles(disk, d) && off + n <= d.size
    ensures AllThere(disk, d, off, n)
  {
    hide Slot;
    forall bn: nat | bn < MAXFILE && Touched(off, n, bn) ensures Slot(disk, d, DataSlot(bn)) != 0 {
      assert BSIZE * bn < d.size;
    }
  }

  lemma ThereNeedsNothing(disk: Disk, d: Dinode, off: nat, n: nat)
    requires d.Valid() && off + n <= MAXBYTES && AllThere(disk, d, off, n)
    ensures Need(disk, d, off, n) == 0
  {
    if n > 0 {
      var lo, hi := off / BSIZE, off / BSIZE + Span(off, n);
      assert forall bn: nat | lo <= bn < hi :: Touched(off, n, bn);
      if off + n > BSIZE * NDIRECT { NoIndirectNoInner(disk, d, DataSlot(hi - 1)); }
      hide Slot;
      FreshInNone(disk, d, lo, hi);
    }
  }

  /** fileread on an inode: it returns the file's bytes from the offset on, moves the offset past them and changes nothing else. */
  method FileRead(fs: FileSystem, f: OpenFile, n: nat) returns (r: Io, dst: seq<byte>)
    requires Settled(fs, f.ip) && f.off < U32 && n < U32
    modifies fs, f, f.ip
    ensures r.Ret?
    ensures
              && Settled(fs, f.ip) && fs.disk == old(fs.disk) && fs.view == old(fs.view) && fs.loose == old(fs.loose)
              && f.ip.d == old(f.ip.d) && f.off == old(f.off) + |dst|
              && (r.v < 0 <==> old(f.off) > f.ip.d.size || old(f.off) + n >= U32)
              && (r.v < 0 ==> r.v == -1 && dst == [])
              && (r.v >= 0 ==> r.v == |dst| == (if old(f.off) + n > f.ip.d.size then f.ip.d.size - old(f.off) else n))
              && (r.v >= 0 ==> dst == Contents(fs.disk, f.ip.d)[old(f.off)..f.off])
  {
    hide Owned, InodeAt, Slot, Quiet, Contents, NoHoles, AllThere, Need, Room;
    ghost var d, disk := f.ip.d, fs.disk;
    if f.off <= d.size {
      ghost var len := if f.off + n > d.size then d.size - f.off else n;
      NoHolesAllThere(disk, d, f.off, len);
      ThereNeedsNothing(disk, d, f.off, len);
    }
    r, dst := ReadI(fs, f.ip, f.off, n);
    if r.v > 0 {
      f.off := f.off + r.v;
    }
  }

  lemma MappedFacts(disk: Disk, d: Dinode, disk': Disk, d': Dinode, bn: nat)
    requires d.Valid() && d'.Valid() && bn < MAXFILE && Mapped(disk, d, disk', d', bn)
    ensures Slot(disk', d', DataSlot(bn)) != 0 && d'.size == d.size
    ensures Slot(disk, d, DataSlot(bn)) != 0 ==> d' == d
  {
  }

  /** Bytes o..o+m of the block bn of a file are bytes of its contents. */
  lemma BlockBytes(disk: Disk, d: Dinode, bn: nat, x: nat, o: nat, m: nat)
    requires d.Valid() && d.size <= MAXBYTES && bn < MAXFILE && x == Slot(disk, d, DataSlot(bn)) && 0 < x < |disk|
    requires o + m <= BSIZE && BSIZE * bn + o + m <= d.size
    ensures disk[x][o..o + m] == Contents(disk, d)[BSIZE * bn + o..BSIZE * bn + o + m]
  {
    assert FileBlock(disk, d, bn) == disk[x];
    hide FileBlock, Slot;
    var base := BSIZE * bn + o;
    var a, c := disk[x][o..o + m], Contents(disk, d)[base..base + m];
    forall k: nat | k < m ensures a[k] == c[k] {
      var p := base + k;
      assert p / BSIZE == bn && p % BSIZE == o + k;
      assert Contents(disk, d)[p] == ByteAt(disk, d, p);
    }
  }

  /** Mapping blocks changes no file's bytes. */
  lemma QuietContents(sb: Super, f: Fs, g: Fs, i: nat)
    requires Quiet(sb, f, g) && i < sb.ninodes && g.view[i].size == f.view[i].size <= MAXBYTES
    ensures f.view[i].Valid() && g.view[i].Valid() && Contents(g.disk, g.view[i]) == Contents(f.disk, f.view[i])
  {
    hide FileBlock, Owned;
    OwnedSizes(sb, f);
    OwnedSizes(sb, g);
    forall k: nat | k < f.view[i].size
      ensures Contents(g.disk, g.view[i])[k] == Contents(f.disk, f.view[i])[k]
    {
      assert FileBlock(g.disk, g.view[i], k / BSIZE) == FileBlock(f.disk, f.view[i], k / BSIZE);
    }
  }

  // ---------- iput ----------

  /**
   iput by the holder of the last reference to a loaded inode without links: its
   blocks become free, the inode is empty and of type 0 on disk and no longer
   loaded, and every other file stands. Otherwise only the reference is dropped.
   */
  method IPut(fs: FileSystem, ip: Inode, valid: bool, ref: nat) returns (ok: bool, loaded: bool, left: nat)
    requires fs.Valid() && fs.Holds(ip) && Narrow(ip.d) && ref >= 1
    modifies fs, ip
    ensures ok && left == ref - 1 && fs.Valid() && fs.Holds(ip) && fs.loose == old(fs.loose)
    ensures !(valid && old(ip.d.nlink) == 0 && ref == 1) ==>
              loaded == valid && fs.Now() == old(fs.Now()) && ip.d == old(ip.d) && fs.logged == old(fs.logged)
    ensures valid && old(ip.d.nlink) == 0 && ref == 1 ==>
              && !loaded && ip.d.typ == 0 && ip.d.size == 0 && OnDisk(fs.sb, fs.Now(), ip.inum)
              && Emptied(fs.sb, old(fs.Now()), fs.Now(), ip.inum)
  {
    ok, loaded, left := true, valid, ref - 1;
    if valid && ip.d.nlink == 0 && ref == 1 {
      hide Owned, InodeAt, Used, SameFiles, FileBlock, Emptied;
      ghost var f := fs.Now();
      OwnedSizes(fs.sb, f);
      ok := fs.ITrunc(ip);
      ghost var h := fs.Now();
      ip.d := ip.d.(typ := 0);
      fs.view := fs.view[ip.inum := ip.d];
      TypeIrrelevant(fs.sb, h, ip.inum);
      EmptiedNext(fs.sb, f, h, fs.Now(), ip.inum);
      ghost var e := fs.Now();
      fs.IUpdate(ip);
      EmptiedNext(fs.sb, f, e, fs.Now(), ip.inum);
      loaded := false;
    }
  }

  lemma TypeIrrelevant(sb: Super, f: Fs, i: nat)
    requires Owned(sb, f) && i < sb.ninodes
    ensures Owned(sb, f.(view := f.view[i := f.view[i].(typ := 0)]))
    ensures SameFiles(f, f.(view := f.view[i := f.view[i].(typ := 0)]))
  {
    hide Used, Word;
    var f' := f.(view := f.view[i := f.view[i].(typ := 0)]);
    forall b: nat | b < sb.size ensures StatusOk(sb, f', b) { assert StatusOk(sb, f, b); }
    forall b | b in f'.owner ensures OwnerOk(sb, f', b) { assert OwnerOk(sb, f, b); }
    forall j: nat, s: nat | j < sb.ninodes && s < NSLOT ensures SlotOwned(f', j, s) { assert SlotOwned(f, j, s); }
  }
}

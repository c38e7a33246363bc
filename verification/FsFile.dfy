/**
 readi, writei and filewrite: a file as a byte sequence over the block
 structure of fs.c. Holes read as zeros, as bmap's zeroed blocks make them.
 */
module FsFile {
  import opened Basics
  import opened Blocks
  import opened FsLayout
  import opened FsInode
  import opened FsOps

  const MAXBYTES: nat := 71680

  /** The chunk copied over the block from byte o on. */
  function Patch(b: Block, o: nat, chunk: seq<byte>): Block
    requires o + |chunk| <= BSIZE
  {
    b[..o] + chunk + b[o + |chunk|..]
  }

  /** Byte k of the file, whether or not k is below its size. */
  function ByteAt(disk: Disk, d: Dinode, k: nat): byte
    requires d.Valid() && k < MAXBYTES
  {
    FileBlock(disk, d, k / BSIZE)[k % BSIZE]
  }

  /** The file as a byte sequence. */
  function Contents(disk: Disk, d: Dinode): (c: seq<byte>)
    requires d.Valid() && d.size <= MAXBYTES
    ensures |c| == d.size && forall k | 0 <= k < d.size :: c[k] == ByteAt(disk, d, k)
  {
    seq(d.size, k requires 0 <= k < d.size => ByteAt(disk, d, k))
  }

  /** src written over c at off <= |c|. */
  function Splice(c: seq<byte>, off: nat, src: seq<byte>): seq<byte>
    requires off <= |c|
  {
    c[..off] + src + if off + |src| < |c| then c[off + |src|..] else []
  }

  /** From (disk, d) to (disk', d') exactly the bytes of src at off were written. */
  ghost predicate Spliced(disk: Disk, d: Dinode, disk': Disk, d': Dinode, off: nat, src: seq<byte>)
    requires d.Valid() && d'.Valid() && off + |src| <= MAXBYTES
  {
    forall k: nat | k < MAXBYTES ::
      ByteAt(disk', d', k) == if off <= k < off + |src| then src[k - off] else ByteAt(disk, d, k)
  }

  lemma SplicedContents(disk: Disk, d: Dinode, disk': Disk, d': Dinode, off: nat, src: seq<byte>)
    requires d.Valid() && d'.Valid() && off + |src| <= MAXBYTES && off <= d.size <= MAXBYTES
    requires Spliced(disk, d, disk', d', off, src)
    requires d'.size == if off + |src| > d.size then off + |src| else d.size
    ensures Contents(disk', d') == Splice(Contents(disk, d), off, src)
  {
    hide ByteAt;
    var c := Contents(disk, d);
    forall k: nat | k < d'.size ensures Contents(disk', d')[k] == Splice(c, off, src)[k] {
    }
  }

  /** A patch of one block is a splice at its byte position. */
  lemma PatchBytes(disk: Disk, d: Dinode, disk': Disk, d': Dinode, bn: nat, o: nat, chunk: seq<byte>)
    requires d.Valid() && d'.Valid() && bn < MAXFILE && o + |chunk| <= BSIZE
    requires FileBlock(disk', d', bn) == Patch(FileBlock(disk, d, bn), o, chunk)
    requires forall c: nat | c < MAXFILE && c != bn :: FileBlock(disk', d', c) == FileBlock(disk, d, c)
    ensures Spliced(disk, d, disk', d', BSIZE * bn + o, chunk)
  {
    hide FileBlock;
    forall k: nat | k < MAXBYTES
      ensures ByteAt(disk', d', k) ==
              if BSIZE * bn + o <= k < BSIZE * bn + o + |chunk| then chunk[k - (BSIZE * bn + o)] else ByteAt(disk, d, k)
    {
      assert k == BSIZE * (k / BSIZE) + k % BSIZE;
    }
  }

  /** Two consecutive splices are one. */
  lemma SplicedMore(disk: Disk, d: Dinode, disk1: Disk, d1: Dinode, disk2: Disk, d2: Dinode, off: nat, a: seq<byte>, b: seq<byte>)
    requires d.Valid() && d1.Valid() && d2.Valid() && off + |a| + |b| <= MAXBYTES
    requires Spliced(disk, d, disk1, d1, off, a) && Spliced(disk1, d1, disk2, d2, off + |a|, b)
    ensures Spliced(disk, d, disk2, d2, off, a + b)
  {
    hide ByteAt;
    forall k: nat | k < MAXBYTES
      ensures ByteAt(disk2, d2, k) == if off <= k < off + |a + b| then (a + b)[k - off] else ByteAt(disk, d, k)
    {
      assert ByteAt(disk1, d1, k) == if off <= k < off + |a| then a[k - off] else ByteAt(disk, d, k);
    }
  }

  /** Files of the inodes other than i are untouched, on disk and in memory. */
  ghost predicate OthersSame(sb: Super, f: Fs, f': Fs, i: nat)
    requires |f.view| == |f'.view| == sb.ninodes
    requires sb.Valid() && |f.disk| == |f'.disk| == sb.size
    requires forall j | 0 <= j < |f.view| :: f.view[j].Valid() && f'.view[j].Valid()
  {
    forall j: nat | j < sb.ninodes && j != i ::
      && f'.view[j] == f.view[j]
      && InodeAt(sb, f'.disk, j) == InodeAt(sb, f.disk, j)
      && forall bn: nat | bn < MAXFILE :: FileBlock(f'.disk, f'.view[j], bn) == FileBlock(f.disk, f.view[j], bn)
  }

  /** What one turn of writei's loop does to inode i. */
  ghost predicate Wrote(sb: Super, f: Fs, f': Fs, i: nat, off: nat, src: seq<byte>) {
    && Owned(sb, f) && Owned(sb, f') && f'.loose == f.loose && i < sb.ninodes && off + |src| <= MAXBYTES
    && OthersSame(sb, f, f', i)
    && InodeAt(sb, f'.disk, i) == InodeAt(sb, f.disk, i)
    && Spliced(f.disk, f.view[i], f'.disk, f'.view[i], off, src)
  }

  lemma WroteNothing(sb: Super, f: Fs, i: nat, off: nat)
    requires Owned(sb, f) && i < sb.ninodes && off <= MAXBYTES
    ensures Wrote(sb, f, f, i, off, [])
  {
  }

  lemma WroteMore(sb: Super, f: Fs, g: Fs, h: Fs, i: nat, off: nat, a: seq<byte>, b: seq<byte>)
    requires Wrote(sb, f, g, i, off, a) && Wrote(sb, g, h, i, off + |a|, b)
    ensures Wrote(sb, f, h, i, off, a + b)
  {
    hide Owned, FileBlock, InodeAt, Spliced;
    OwnedSizes(sb, f);
    OwnedSizes(sb, g);
    OwnedSizes(sb, h);
    SplicedMore(f.disk, f.view[i], g.disk, g.view[i], h.disk, h.view[i], off, a, b);
    forall j: nat | j < sb.ninodes && j != i
      ensures h.view[j] == f.view[j] && InodeAt(sb, h.disk, j) == InodeAt(sb, f.disk, j)
      ensures forall bn: nat | bn < MAXFILE :: FileBlock(h.disk, h.view[j], bn) == FileBlock(f.disk, f.view[j], bn)
    {
      assert g.view[j] == f.view[j];
    }
  }

  /** One turn of writei's loop: map the block, copy into it, log it. */
  method WriteBlock(fs: FileSystem, ip: Inode, bn: nat, o: nat, chunk: seq<byte>) returns (r: Option<nat>)
    requires fs.Valid() && fs.Holds(ip) && bn < MAXFILE && o + |chunk| <= BSIZE
    modifies fs, ip
    ensures r.None? <==> Room(fs.sb, old(fs.disk)) < MapNeed(old(fs.disk), old(ip.d), bn)
    ensures r.Some? ==>
              |fs.disk| == fs.sb.size && Room(fs.sb, fs.disk) == Room(fs.sb, old(fs.disk)) - MapNeed(old(fs.disk), old(ip.d), bn)
    ensures r.Some? ==>
              && Wrote(fs.sb, old(fs.Now()), fs.Now(), ip.inum, BSIZE * bn + o, chunk)
              && fs.Holds(ip) && fs.view == old(fs.view)[ip.inum := ip.d]
              && Mapped(old(fs.disk), old(ip.d), fs.disk, ip.d, bn)
              && r.value == Slot(fs.disk, ip.d, DataSlot(bn))
              && fs.logged == old(fs.logged) + MapCost(fs.sb, old(fs.disk), old(ip.d), fs.disk, ip.d, bn) + {r.value}
  {
    hide Owned, FileBlock, InodeAt, Quiet, Slot, Mapped, MapCost, SameFiles, Wrote, Room, MapNeed;
    ghost var f := fs.Now();
    OwnedSizes(fs.sb, f);
    r := fs.BMap(ip, bn);
    if r.Some? {
      ghost var m := fs.Now();
      QuietOwned(fs.sb, f, m);
      OwnedSizes(fs.sb, m);
      MappedNonzero(f.disk, f.view[ip.inum], m.disk, m.view[ip.inum], bn);
      var data := Patch(fs.disk[r.value], o, chunk);
      DataWriteStep(fs.sb, m, ip.inum, bn, data);
      SlotInData(fs.sb, m, ip.inum, DataSlot(bn));
      InodeFrame(fs.sb, m.disk, r.value, data);
      RoomFrame(fs.sb, m.disk, r.value, data);
      fs.LogWrite(r.value, data);
      SlotsSame(f.disk, f.view[ip.inum], m.disk, fs.disk, ip.d, bn, fs.sb);
      WroteBlock(fs.sb, f, m, fs.Now(), ip.inum, bn, o, chunk);
    }
  }

  lemma MappedNonzero(disk: Disk, d: Dinode, disk': Disk, d': Dinode, bn: nat)
    requires d.Valid() && d'.Valid() && bn < MAXFILE && Mapped(disk, d, disk', d', bn)
    ensures Slot(disk', d', DataSlot(bn)) != 0
  {
  }

  lemma SlotsSame(disk: Disk, d: Dinode, disk': Disk, disk2: Disk, d': Dinode, bn: nat, sb: Super)
    requires d.Valid() && d'.Valid() && bn < MAXFILE && Mapped(disk, d, disk', d', bn)
    requires forall t: nat | t < NSLOT :: Slot(disk2, d', t) == Slot(disk', d', t)
    ensures Mapped(disk, d, disk2, d', bn)
    ensures MapCost(sb, disk, d, disk2, d', bn) == MapCost(sb, disk, d, disk', d', bn)
  {
    hide Slot;
  }

  lemma WroteBlock(sb: Super, f: Fs, m: Fs, g: Fs, i: nat, bn: nat, o: nat, chunk: seq<byte>)
    requires Quiet(sb, f, m) && Owned(sb, g) && i < sb.ninodes && bn < MAXFILE && o + |chunk| <= BSIZE
    requires g.view == m.view && g.loose == m.loose && forall j: nat | j < sb.ninodes && j != i :: m.view[j] == f.view[j]
    requires var x := Slot(m.disk, m.view[i], DataSlot(bn));
             0 < x < sb.size && FileBlock(g.disk, g.view[i], bn) == Patch(m.disk[x], o, chunk)
    requires forall k: nat, c: nat | k < sb.ninodes && c < MAXFILE && !(k == i && c == bn) ::
               FileBlock(g.disk, g.view[k], c) == FileBlock(m.disk, m.view[k], c)
    requires forall j: nat | j < sb.ninodes :: InodeAt(sb, g.disk, j) == InodeAt(sb, m.disk, j)
    ensures Wrote(sb, f, g, i, BSIZE * bn + o, chunk)
  {
    hide Owned, InodeAt, Slot, Spliced;
    OwnedSizes(sb, f);
    OwnedSizes(sb, m);
    OwnedSizes(sb, g);
    assert FileBlock(m.disk, m.view[i], bn) == FileBlock(f.disk, f.view[i], bn);
    hide FileBlock;
    forall c: nat | c < MAXFILE && c != bn
      ensures FileBlock(g.disk, g.view[i], c) == FileBlock(f.disk, f.view[i], c)
    {
      assert FileBlock(m.disk, m.view[i], c) == FileBlock(f.disk, f.view[i], c);
    }
    PatchBytes(f.disk, f.view[i], g.disk, g.view[i], bn, o, chunk);
    forall j: nat, c: nat | j < sb.ninodes && j != i && c < MAXFILE
      ensures FileBlock(g.disk, g.view[j], c) == FileBlock(f.disk, f.view[j], c)
    {
      assert FileBlock(m.disk, m.view[j], c) == FileBlock(f.disk, f.view[j], c);
    }
  }

  // ---------- Which blocks a write touches and allocates ----------

  /** Some byte of off..off+tot lies in block bn. */
  predicate Touched(off: nat, tot: nat, bn: nat) {
    tot > 0 && off / BSIZE <= bn && BSIZE * bn < off + tot
  }

  /** Slots are filled in exactly where bytes were written, and never move. */
  ghost predicate Grown(disk: Disk, d: Dinode, disk': Disk, d': Dinode, off: nat, tot: nat)
    requires d.Valid() && d'.Valid()
  {
    && d' == d.(addrs := d'.addrs)
    && (forall bn: nat | bn < MAXFILE ::
          if Slot(disk, d, DataSlot(bn)) != 0 then Slot(disk', d', DataSlot(bn)) == Slot(disk, d, DataSlot(bn))
          else Slot(disk', d', DataSlot(bn)) != 0 <==> Touched(off, tot, bn))
    && (if d.addrs[NDIRECT] != 0 then d'.addrs[NDIRECT] == d.addrs[NDIRECT]
        else d'.addrs[NDIRECT] != 0 <==> tot > 0 && off + tot > BSIZE * NDIRECT)
  }

  lemma GrownStep(disk: Disk, d: Dinode, disk1: Disk, d1: Dinode, disk2: Disk, d2: Dinode, off: nat, tot: nat, m: nat)
    requires d.Valid() && d1.Valid() && d2.Valid() && Grown(disk, d, disk1, d1, off, tot)
    requires 0 < m && (tot == 0 || (off + tot) % BSIZE == 0) && (off + tot) % BSIZE + m <= BSIZE
    requires (off + tot) / BSIZE < MAXFILE && Mapped(disk1, d1, disk2, d2, (off + tot) / BSIZE)
    ensures Grown(disk, d, disk2, d2, off, tot + m)
  {
    hide Slot;
    var b := (off + tot) / BSIZE;
    forall bn: nat | bn < MAXFILE
      ensures Touched(off, tot + m, bn) <==> Touched(off, tot, bn) || bn == b
    {
    }
    forall bn: nat | bn < MAXFILE && bn != b
      ensures Slot(disk2, d2, DataSlot(bn)) == Slot(disk1, d1, DataSlot(bn))
    {
    }
  }

  /** The write left the addresses in the inode itself alone exactly when none it needed was 0. */
  lemma GrownIntact(disk: Disk, d: Dinode, disk': Disk, d': Dinode, off: nat, tot: nat)
    requires d.Valid() && d'.Valid() && Grown(disk, d, disk', d', off, tot) && off + tot <= MAXBYTES
    ensures d' == d <==> forall bn: nat | bn < MAXFILE && Touched(off, tot, bn) :: d.addrs[AddrFor(bn)] != 0
  {
    if d' == d {
      forall bn: nat | bn < MAXFILE && Touched(off, tot, bn) ensures d.addrs[AddrFor(bn)] != 0 {
        if bn < NDIRECT {
          assert Slot(disk, d, DataSlot(bn)) == d.addrs[bn] && Slot(disk', d', DataSlot(bn)) == d'.addrs[bn];
        }
      }
    }
    if forall bn: nat | bn < MAXFILE && Touched(off, tot, bn) :: d.addrs[AddrFor(bn)] != 0 {
      forall s | 0 <= s <= NDIRECT ensures d'.addrs[s] == d.addrs[s] {
        if s < NDIRECT {
          assert Slot(disk, d, DataSlot(s)) == d.addrs[s] && Slot(disk', d', DataSlot(s)) == d'.addrs[s];
        } else if d.addrs[NDIRECT] == 0 && tot > 0 && off + tot > BSIZE * NDIRECT {
          assert Touched(off, tot, (off + tot - 1) / BSIZE);
        }
      }
      assert d'.addrs == d.addrs;
    }
  }

  // ---------- How many blocks a write logs ----------

  /** How many blocks hold bytes off..off+tot. */
  function Span(off: nat, tot: nat): nat {
    if tot == 0 then 0 else (off + tot - 1) / BSIZE - off / BSIZE + 1
  }

  /** How many of the file's blocks lo..hi are not allocated. */
  function FreshIn(disk: Disk, d: Dinode, lo: nat, hi: nat): nat
    requires d.Valid() && lo <= hi <= MAXFILE
    decreases hi
  {
    if hi == lo then 0
    else FreshIn(disk, d, lo, hi - 1) + if Slot(disk, d, DataSlot(hi - 1)) == 0 then 1 else 0
  }

  /** How many blocks a write allocates: those of its range that are missing, and a missing indirect block it goes through. */
  function Need(disk: Disk, d: Dinode, off: nat, tot: nat): nat
    requires d.Valid() && off + tot <= MAXBYTES
  {
    FreshIn(disk, d, off / BSIZE, off / BSIZE + Span(off, tot))
    + if d.addrs[NDIRECT] == 0 && tot > 0 && off + tot > BSIZE * NDIRECT then 1 else 0
  }

  /** Data and free-map blocks one write may log. */
  function LogCost(disk: Disk, d: Dinode, off: nat, tot: nat): nat
    requires d.Valid() && off + tot <= MAXBYTES
  {
    Span(off, tot) + Need(disk, d, off, tot)
  }

  lemma {:induction false} FreshInMonotone(disk: Disk, d: Dinode, lo: nat, mid: nat, hi: nat)
    requires d.Valid() && lo <= mid <= hi <= MAXFILE
    ensures FreshIn(disk, d, lo, mid) <= FreshIn(disk, d, lo, hi)
    decreases hi
  {
    hide Slot;
    if mid < hi { FreshInMonotone(disk, d, lo, mid, hi - 1); }
  }

  lemma NeedMonotone(disk: Disk, d: Dinode, off: nat, a: nat, b: nat)
    requires d.Valid() && a <= b && off + b <= MAXBYTES
    ensures Need(disk, d, off, a) <= Need(disk, d, off, b)
  {
    hide FreshIn;
    assert Span(off, a) <= Span(off, b);
    FreshInMonotone(disk, d, off / BSIZE, off / BSIZE + Span(off, a), off / BSIZE + Span(off, b));
  }

  function IndirectOf(d: Dinode): set<nat>
    requires d.Valid()
  {
    if d.addrs[NDIRECT] == 0 then {} else {d.addrs[NDIRECT]}
  }

  /** Blocks logged so far: y, and the indirect block if there is one. */
  ghost predicate Logs(logged0: set<nat>, logged: set<nat>, y: set<nat>, d': Dinode, cost: nat)
    requires d'.Valid()
  {
    logged <= logged0 + y + IndirectOf(d') && |y| <= cost
  }

  lemma UnionSize(a: set<nat>, b: set<nat>)
    ensures |a + b| <= |a| + |b|
  {
    assert a + b == a + (b - a);
    assert b == (b - a) + (b * a);
  }

  /** What mapping block bn logs besides the block itself and the indirect block. */
  lemma MapCostSize(sb: Super, disk1: Disk, d1: Dinode, disk2: Disk, d2: Dinode, bn: nat) returns (a: set<nat>)
    requires d1.Valid() && d2.Valid() && bn < MAXFILE && Mapped(disk1, d1, disk2, d2, bn)
    ensures MapCost(sb, disk1, d1, disk2, d2, bn) <= a + IndirectOf(d2)
    ensures |a| <= MapNeed(disk1, d1, bn)
  {
    NoIndirectNoInner(disk1, d1, NDIRECT + 1);
    if bn >= NDIRECT { NoIndirectNoInner(disk1, d1, DataSlot(bn)); }
    hide Slot;
    var b := Slot(disk2, d2, DataSlot(bn));
    if Slot(disk1, d1, DataSlot(bn)) != 0 {
      a := {};
    } else if bn < NDIRECT || d1.addrs[NDIRECT] != 0 {
      a := {sb.BBlock(b)};
    } else {
      a := {sb.BBlock(b)} + {sb.BBlock(d2.addrs[NDIRECT])};
      UnionSize({sb.BBlock(b)}, {sb.BBlock(d2.addrs[NDIRECT])});
    }
  }

  lemma LogCostStep(disk: Disk, d: Dinode, disk1: Disk, d1: Dinode, off: nat, tot: nat, m: nat)
    requires d.Valid() && d1.Valid() && Grown(disk, d, disk1, d1, off, tot)
    requires 0 < m && (tot == 0 || (off + tot) % BSIZE == 0) && (off + tot) % BSIZE + m <= BSIZE
    requires off + tot + m <= MAXBYTES
    ensures var bn := (off + tot) / BSIZE;
            && Need(disk, d, off, tot + m) == Need(disk, d, off, tot) + MapNeed(disk1, d1, bn)
            && LogCost(disk, d, off, tot + m) == LogCost(disk, d, off, tot) + 1 + MapNeed(disk1, d1, bn)
  {
    hide Slot;
    var bn := (off + tot) / BSIZE;
    assert Span(off, tot + m) == Span(off, tot) + 1 && bn == off / BSIZE + Span(off, tot);
    assert !Touched(off, tot, bn);
  }

  /** One more block costs itself, its free-map block if it is fresh, and another if the indirect block is fresh too. */
  lemma LogsStep(sb: Super, disk: Disk, d: Dinode, disk1: Disk, d1: Dinode, disk2: Disk, d2: Dinode, off: nat, tot: nat, m: nat,
                 logged0: set<nat>, logged1: set<nat>, logged2: set<nat>, y: set<nat>, b: nat) returns (y': set<nat>)
    requires d.Valid() && d1.Valid() && d2.Valid() && Grown(disk, d, disk1, d1, off, tot)
    requires 0 < m && (tot == 0 || (off + tot) % BSIZE == 0) && (off + tot) % BSIZE + m <= BSIZE
    requires off + tot + m <= MAXBYTES && Mapped(disk1, d1, disk2, d2, (off + tot) / BSIZE)
    requires Logs(logged0, logged1, y, d1, LogCost(disk, d, off, tot))
    requires logged2 == logged1 + MapCost(sb, disk1, d1, disk2, d2, (off + tot) / BSIZE) + {b}
    ensures Logs(logged0, logged2, y', d2, LogCost(disk, d, off, tot + m))
  {
    var bn := (off + tot) / BSIZE;
    LogCostStep(disk, d, disk1, d1, off, tot, m);
    var a := MapCostSize(sb, disk1, d1, disk2, d2, bn);
    hide Slot, LogCost, MapCost, Grown;
    y' := y + ({b} + a);
    UnionSize(y, {b} + a);
    UnionSize({b}, a);
  }

  // ---------- writei ----------

  datatype Io = Panic | Ret(v: int)

  /** The loop of writei over the blocks of off..off+|src|. */
  method WriteLoop(fs: FileSystem, ip: Inode, src: seq<byte>, off: nat) returns (ok: bool, ghost y: set<nat>)
    requires fs.Valid() && fs.Holds(ip) && off + |src| <= MAXBYTES
    modifies fs, ip
    ensures ok <==> Room(fs.sb, old(fs.disk)) >= Need(old(fs.disk), old(ip.d), off, |src|)
    ensures ok ==>
              && |fs.disk| == fs.sb.size
              && Room(fs.sb, fs.disk) == Room(fs.sb, old(fs.disk)) - Need(old(fs.disk), old(ip.d), off, |src|)
    ensures ok ==>
              && Wrote(fs.sb, old(fs.Now()), fs.Now(), ip.inum, off, src)
              && fs.Holds(ip) && fs.view == old(fs.view)[ip.inum := ip.d]
              && Grown(old(fs.disk), old(ip.d), fs.disk, ip.d, off, |src|)
              && Logs(old(fs.logged), fs.logged, y, ip.d, LogCost(old(fs.disk), old(ip.d), off, |src|))
  {
    hide Owned, FileBlock, InodeAt, Slot, Mapped, MapCost, MapNeed, SameFiles, Wrote, Grown, LogCost, Logs, Need, Room;
    ghost var f, d := fs.Now(), ip.d;
    OwnedSizes(fs.sb, f);
    NeedNothing(f.disk, d, off);
    WroteNothing(fs.sb, f, ip.inum, off);
    GrownNothing(f.disk, d, off, fs.logged);
    y := {};
    var tot := 0;
    while tot < |src|
      invariant 0 <= tot <= |src| && (tot == 0 || tot == |src| || (off + tot) % BSIZE == 0)
      invariant fs.Holds(ip) && fs.view == old(fs.view)[ip.inum := ip.d]
      invariant Wrote(fs.sb, f, fs.Now(), ip.inum, off, src[..tot])
      invariant Grown(f.disk, d, fs.disk, ip.d, off, tot)
      invariant Logs(old(fs.logged), fs.logged, y, ip.d, LogCost(f.disk, d, off, tot))
      invariant |fs.disk| == fs.sb.size && Room(fs.sb, fs.disk) == Room(fs.sb, f.disk) - Need(f.disk, d, off, tot)
    {
      var bn, o := (off + tot) / BSIZE, (off + tot) % BSIZE;
      var m := if |src| - tot < BSIZE - o then |src| - tot else BSIZE - o;
      ghost var g, gd, gl := fs.Now(), ip.d, fs.logged;
      WroteOwned(fs.sb, f, g, ip.inum, off, src[..tot]);
      LogCostStep(f.disk, d, g.disk, gd, off, tot, m);
      NeedMonotone(f.disk, d, off, tot + m, |src|);
      var r := WriteBlock(fs, ip, bn, o, src[tot..tot + m]);
      if r.None? { return false, y; }
      WroteMore(fs.sb, f, g, fs.Now(), ip.inum, off, src[..tot], src[tot..tot + m]);
      assert src[..tot] + src[tot..tot + m] == src[..tot + m];
      GrownStep(f.disk, d, g.disk, gd, fs.disk, ip.d, off, tot, m);
      y := LogsStep(fs.sb, f.disk, d, g.disk, gd, fs.disk, ip.d, off, tot, m, old(fs.logged), gl, fs.logged, y, r.value);
      tot := tot + m;
    }
    assert src[..tot] == src;
    return true, y;
  }

  lemma NeedNothing(disk: Disk, d: Dinode, off: nat)
    requires d.Valid() && off <= MAXBYTES
    ensures Need(disk, d, off, 0) == 0
  {
  }

  lemma GrownNothing(disk: Disk, d: Dinode, off: nat, logged: set<nat>)
    requires d.Valid() && off <= MAXBYTES
    ensures Grown(disk, d, disk, d, off, 0) && Logs(logged, logged, {}, d, LogCost(disk, d, off, 0))
  {
  }

  lemma WroteOwned(sb: Super, f: Fs, g: Fs, i: nat, off: nat, src: seq<byte>)
    requires Wrote(sb, f, g, i, off, src)
    ensures Owned(sb, g) && g.loose == f.loose && InodeAt(sb, g.disk, i) == InodeAt(sb, f.disk, i)
  {
  }

  /**
   writei on a file that is not a device. It refuses a start beyond the end, a
   range that wraps around and a range beyond the largest file; otherwise it
   splices src into the file and leaves every other file alone.
   */
  method WriteI(fs: FileSystem, ip: Inode, src: seq<byte>, off: nat) returns (r: Io, ghost y: set<nat>)
    requires fs.Valid() && fs.Holds(ip) && Narrow(ip.d) && ip.d.size <= MAXBYTES && off < U32 && |src| < U32
    modifies fs, ip
    ensures r.Ret? ==> fs.Valid() && fs.Holds(ip) && fs.loose == old(fs.loose) && fs.view == old(fs.view)[ip.inum := ip.d]
    ensures r.Ret? && r.v < 0 <==> off > old(ip.d.size) || off + |src| > MAXBYTES
    ensures r.Ret? && r.v < 0 ==> r.v == -1 && fs.Now() == old(fs.Now()) && ip.d == old(ip.d) && fs.logged == old(fs.logged)
    // it panics exactly when there are too few free blocks for the missing blocks of the range
    ensures r.Panic? <==>
              && off <= old(ip.d.size) && off + |src| <= MAXBYTES
              && Room(fs.sb, old(fs.disk)) < Need(old(fs.disk), old(ip.d), off, |src|)
    ensures r.Ret? && r.v >= 0 ==>
              && |fs.disk| == fs.sb.size
              && Room(fs.sb, fs.disk) == Room(fs.sb, old(fs.disk)) - Need(old(fs.disk), old(ip.d), off, |src|)
    ensures r.Ret? && r.v >= 0 ==>
              && r.v == |src|
              && ip.d.size == (if off + |src| > old(ip.d.size) then off + |src| else old(ip.d.size))
              && Contents(fs.disk, ip.d) == Splice(old(Contents(fs.disk, ip.d)), off, src)
              && OthersSame(fs.sb, old(fs.Now()), fs.Now(), ip.inum)
              && Grown(old(fs.disk), old(ip.d).(size := ip.d.size), fs.disk, ip.d, off, |src|)
              && Narrow(ip.d)
              && Logs(old(fs.logged), fs.logged, y + {fs.sb.IBlock(ip.inum)}, ip.d, LogCost(old(fs.disk), old(ip.d), off, |src|) + 1)
    // write-through: the inode on disk follows, except after filling a hole below the size through the inode itself
    ensures r.Ret? && r.v >= 0 && OnDisk(fs.sb, old(fs.Now()), ip.inum) ==>
              (OnDisk(fs.sb, fs.Now(), ip.inum) <==>
                 off + |src| > old(ip.d.size)
                 || forall bn: nat | bn < MAXFILE && Touched(off, |src|, bn) :: old(ip.d).addrs[AddrFor(bn)] != 0)
  {
    hide Owned, FileBlock, InodeAt, Slot, SameFiles, Wrote, Grown, LogCost, Logs, Contents, Splice, OthersSame, Spliced;
    hide Need, Room;
    ghost var f, d := fs.Now(), ip.d;
    OwnedSizes(fs.sb, f);
    y := {};
    var end := (off + |src|) % U32;
    if off > ip.d.size || end < off {
      return Ret(-1), y;
    }
    if end > MAXBYTES {
      return Ret(-1), y;
    }
    var ok;
    ok, y := WriteLoop(fs, ip, src, off);
    if !ok { return Panic, y; }
    ghost var g := fs.Now();
    WroteOwned(fs.sb, f, g, ip.inum, off, src);
    GrownIntact(f.disk, d, g.disk, ip.d, off, |src|);
    ghost var gd, gl, iblk := ip.d, fs.logged, fs.sb.IBlock(ip.inum);
    if |src| > 0 && off + |src| > ip.d.size {
      ip.d := ip.d.(size := off + |src|);
      fs.view := fs.view[ip.inum := ip.d];
      SizeIrrelevant(fs.sb, g, ip.inum, off + |src|);
      ghost var h := fs.Now();
      assert h == g.(view := g.view[ip.inum := g.view[ip.inum].(size := off + |src|)]);
      OwnedSizes(fs.sb, g);
      OwnedSizes(fs.sb, h);
      GrownSame(f.disk, d, g.disk, gd, off, |src|);
      fs.IUpdate(ip);
      OwnedSizes(fs.sb, fs.Now());
      SameFilesTrans(g, h, fs.Now());
      WroteThrough(fs.sb, f, g, fs.Now(), ip.inum, off, src);
    } else {
      GrownSame(f.disk, d, g.disk, gd, off, |src|);
      WroteContents(fs.sb, f, g, ip.inum, off, src);
    }
    GrownResize(f.disk, d, g.disk, gd, fs.disk, ip.d, off, |src|);
    LogsInode(old(fs.logged), gl, fs.logged, y, gd, ip.d, LogCost(f.disk, d, off, |src|), iblk);
    return Ret(|src|), y;
  }

  lemma LogsInode(logged0: set<nat>, logged1: set<nat>, logged2: set<nat>, y: set<nat>, d1: Dinode, d2: Dinode, cost: nat, x: nat)
    requires d1.Valid() && d2.Valid() && d2.addrs == d1.addrs && Logs(logged0, logged1, y, d1, cost) && logged2 <= logged1 + {x}
    ensures Logs(logged0, logged2, y + {x}, d2, cost + 1)
  {
    UnionSize(y, {x});
  }

  lemma GrownResize(disk: Disk, d: Dinode, disk1: Disk, d1: Dinode, disk2: Disk, d2: Dinode, off: nat, tot: nat)
    requires d.Valid() && d1.Valid() && Grown(disk, d, disk1, d1, off, tot) && d2 == d1.(size := d2.size)
    requires forall s: nat | s < NSLOT :: Slot(disk2, d2, s) == Slot(disk1, d2, s)
    ensures Grown(disk, d.(size := d2.size), disk2, d2, off, tot)
  {
    SlotSize(disk, d, d2.size);
    SlotSize(disk1, d1, d2.size);
    hide Slot;
  }

  lemma GrownSame(disk: Disk, d: Dinode, disk1: Disk, d1: Dinode, off: nat, tot: nat)
    requires d.Valid() && d1.Valid() && Grown(disk, d, disk1, d1, off, tot)
    ensures d1 == d.(addrs := d1.addrs)
  {
  }

  lemma SlotSize(disk: Disk, d: Dinode, size: nat)
    requires d.Valid()
    ensures forall s: nat | s < NSLOT :: Slot(disk, d.(size := size), s) == Slot(disk, d, s)
  {
  }

  /** The file after a write that grew it. */
  lemma WroteThrough(sb: Super, f: Fs, g: Fs, h: Fs, i: nat, off: nat, src: seq<byte>)
    requires Wrote(sb, f, g, i, off, src) && Owned(sb, h) && off <= f.view[i].size < off + |src|
    requires h.view == g.view[i := g.view[i].(size := off + |src|)] && SameFiles(g, h)
    requires forall j: nat | j < sb.ninodes && j != i :: InodeAt(sb, h.disk, j) == InodeAt(sb, g.disk, j)
    ensures Contents(h.disk, h.view[i]) == Splice(Contents(f.disk, f.view[i]), off, src)
    ensures OthersSame(sb, f, h, i)
  {
    hide Owned, InodeAt, FileBlock, Contents, Splice;
    OwnedSizes(sb, f);
    OwnedSizes(sb, g);
    OwnedSizes(sb, h);
    forall k: nat | k < MAXBYTES
      ensures ByteAt(h.disk, h.view[i], k) == ByteAt(g.disk, g.view[i], k)
    {
      assert FileBlock(h.disk, h.view[i], k / BSIZE) == FileBlock(g.disk, g.view[i], k / BSIZE);
    }
    assert Spliced(f.disk, f.view[i], h.disk, h.view[i], off, src);
    SplicedContents(f.disk, f.view[i], h.disk, h.view[i], off, src);
    forall j: nat, bn: nat | j < sb.ninodes && j != i && bn < MAXFILE
      ensures FileBlock(h.disk, h.view[j], bn) == FileBlock(f.disk, f.view[j], bn)
    {
      assert FileBlock(h.disk, h.view[j], bn) == FileBlock(g.disk, g.view[j], bn);
    }
  }

  /** The file after a write that did not grow it. */
  lemma WroteContents(sb: Super, f: Fs, g: Fs, i: nat, off: nat, src: seq<byte>)
    requires Wrote(sb, f, g, i, off, src)
    requires off <= f.view[i].size <= MAXBYTES && g.view[i].size == f.view[i].size && off + |src| <= f.view[i].size
    ensures |g.view| == |f.view| && Contents(g.disk, g.view[i]) == Splice(Contents(f.disk, f.view[i]), off, src)
    ensures OthersSame(sb, f, g, i)
  {
    OwnedSizes(sb, f);
    OwnedSizes(sb, g);
    hide Owned, InodeAt, Spliced, FileBlock, Contents, Splice;
    SplicedContents(f.disk, f.view[i], g.disk, g.view[i], off, src);
  }
}

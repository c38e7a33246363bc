/**
 The file system over the log: a crash at any step of any run recovers to a
 file system that is sound, and that holds the files of one moment of the run.
 */
module FsCrash {
  import opened Basics
  import opened Blocks
  import opened FsLayout
  import opened FsInode
  import FsOps
  import F = FsFile
  import S = FsSyscall
  import L = LogDisk
  import M = LogMachine
  import P = LogProof
  import T = LogTheorems

  /** The inodes as the disk has them. */
  function DiskView(sb: Super, disk: Disk): (v: seq<Dinode>)
    requires sb.Valid() && |disk| == sb.size
    ensures |v| == sb.ninodes && forall i | 0 <= i < |v| :: v[i] == InodeAt(sb, disk, i)
  {
    seq(sb.ninodes, i requires 0 <= i < sb.ninodes => InodeAt(sb, disk, i))
  }

  /** The disk alone is a sound file system, owner telling which slot names each block. */
  ghost predicate SoundWith(sb: Super, disk: Disk, owner: map<nat, Ref>)
    requires sb.Valid() && |disk| == sb.size
  {
    Owned(sb, Fs(disk, DiskView(sb, disk), owner, {}))
  }

  ghost predicate Sound(sb: Super, disk: Disk) {
    sb.Valid() && |disk| == sb.size && exists owner :: SoundWith(sb, disk, owner)
  }

  /** The log area lies in front of the inodes. */
  predicate Fitting(l: L.Layout, sb: Super) {
    l.Valid() && sb.Valid() && l.size == sb.size && l.start + l.nlog <= sb.inodestart
  }

  ghost predicate SameHome(l: L.Layout, d: Disk, e: Disk) {
    |d| == |e| == l.size && forall b: nat | l.Home(b) :: e[b] == d[b]
  }

  // ---------- Only home blocks matter ----------

  lemma SameInodes(l: L.Layout, sb: Super, d: Disk, e: Disk)
    requires Fitting(l, sb) && SameHome(l, d, e)
    ensures DiskView(sb, e) == DiskView(sb, d)
  {
    hide InodeAt;
    forall i: nat | i < sb.ninodes ensures InodeAt(sb, e, i) == InodeAt(sb, d, i) { SameInode(l, sb, d, e, i); }
  }

  lemma SameInode(l: L.Layout, sb: Super, d: Disk, e: Disk, i: nat)
    requires Fitting(l, sb) && SameHome(l, d, e) && i < sb.ninodes
    ensures InodeAt(sb, e, i) == InodeAt(sb, d, i)
  {
    hide FromWords, GetWords;
    assert l.Home(sb.IBlock(i));
  }

  lemma SameUsed(l: L.Layout, sb: Super, d: Disk, e: Disk, b: nat)
    requires Fitting(l, sb) && SameHome(l, d, e) && b < sb.size
    ensures Used(sb, e, b) == Used(sb, d, b)
  {
    hide BitAt;
    assert l.Home(sb.BBlock(b));
  }

  lemma SameSlot(l: L.Layout, sb: Super, f: Fs, e: Disk, i: nat, s: nat)
    requires Fitting(l, sb) && SameHome(l, f.disk, e) && Owned(sb, f) && i < sb.ninodes && s < NSLOT
    ensures Slot(e, f.view[i], s) == Slot(f.disk, f.view[i], s)
    ensures Slot(f.disk, f.view[i], s) != 0 ==> l.Home(Slot(f.disk, f.view[i], s))
  {
    SlotInData(sb, f, i, NDIRECT);
    SlotInData(sb, f, i, s);
    ZeroAddr(f.disk, f.view[i], NDIRECT);
    hide Owned, Word;
    var x := f.view[i].addrs[NDIRECT];
    if x != 0 { assert l.Home(x); }
  }

  /** Ownership and files hang on home blocks alone. */
  lemma SameHomeOwned(l: L.Layout, sb: Super, f: Fs, e: Disk)
    requires Fitting(l, sb) && SameHome(l, f.disk, e) && Owned(sb, f)
    ensures Owned(sb, f.(disk := e)) && SameFiles(f, f.(disk := e))
  {
    hide Used, Slot;
    var g := f.(disk := e);
    forall i: nat, s: nat | i < sb.ninodes && s < NSLOT
      ensures Slot(e, f.view[i], s) == Slot(f.disk, f.view[i], s)
    {
      SameSlot(l, sb, f, e, i, s);
    }
    forall b: nat | b < sb.size ensures StatusOk(sb, g, b) {
      assert StatusOk(sb, f, b);
      SameUsed(l, sb, f.disk, e, b);
    }
    forall b | b in g.owner ensures OwnerOk(sb, g, b) { assert OwnerOk(sb, f, b); }
    forall i: nat, s: nat | i < sb.ninodes && s < NSLOT ensures SlotOwned(g, i, s) { assert SlotOwned(f, i, s); }
    forall i: nat, bn: nat | i < |f.view| && bn < MAXFILE
      ensures FileBlock(e, f.view[i], bn) == FileBlock(f.disk, f.view[i], bn)
    {
      SameSlot(l, sb, f, e, i, DataSlot(bn));
    }
  }

  // ---------- Crashes ----------

  /** The disk as a call would see it in state s. */
  ghost function LogicalDisk(l: L.Layout, s: M.State): (d: Disk)
    requires |s.disk| == l.size
    ensures |d| == l.size && forall b | 0 <= b < |d| :: d[b] == M.Seen(s, b)
  {
    seq(l.size, b requires 0 <= b < l.size => M.Seen(s, b))
  }

  /** The recovered disk holds the logical home blocks of the moment it recovers to. */
  lemma RecoveredHome(l: L.Layout, s: M.State, t: M.State)
    requires T.RecoversTo(l, s, t)
    ensures |L.Recover(l, s.disk)| == l.size && SameHome(l, LogicalDisk(l, t), L.Recover(l, s.disk))
  {
    hide L.Durable, L.Recover;
    L.RecoverIsDurable(l, s.disk);
    var r := L.Recover(l, s.disk);
    forall b: nat | l.Home(b) ensures r[b] == LogicalDisk(l, t)[b] {
      assert L.HomeOf(l, r)[b] == P.Logical(l, t)[b];
    }
  }

  /** Disk r is the file system of disk d: the same inodes, the same files, and sound if d is. */
  ghost predicate SameFileSystem(sb: Super, d: Disk, r: Disk)
    requires sb.Valid() && |d| == |r| == sb.size
  {
    && DiskView(sb, r) == DiskView(sb, d)
    && forall i: nat, bn: nat | i < sb.ninodes && bn < MAXFILE ::
         FileBlock(r, DiskView(sb, r)[i], bn) == FileBlock(d, DiskView(sb, d)[i], bn)
  }

  lemma SoundMoves(l: L.Layout, sb: Super, d: Disk, r: Disk)
    requires Fitting(l, sb) && SameHome(l, d, r) && Sound(sb, d)
    ensures Sound(sb, r) && SameFileSystem(sb, d, r)
  {
    hide Owned, FileBlock, InodeAt;
    var owner :| SoundWith(sb, d, owner);
    var f := Fs(d, DiskView(sb, d), owner, {});
    SameInodes(l, sb, d, r);
    FsOps.OwnedSizes(sb, f);
    SameHomeOwned(l, sb, f, r);
    assert f.(disk := r) == Fs(r, DiskView(sb, r), owner, {});
    assert SoundWith(sb, r, owner);
  }

  /**
   If the disk is a sound file system at every moment of the run without a call
   in progress, then after a crash at any step, during a commit or a recovery
   too, the recovered disk is a sound file system, and it is the one of such a
   moment: the same inodes and the same files.
   */
  lemma CrashKeepsFiles(l: L.Layout, sb: Super, run: seq<M.State>, now: nat) returns (m: nat)
    requires Fitting(l, sb) && M.IsRun(l, run) && T.Fits(l, run) && now < |run|
    requires forall k: nat | k <= now && T.Quiescent(run[k]) && |run[k].disk| == l.size :: Sound(sb, LogicalDisk(l, run[k]))
    ensures m <= now && T.Quiescent(run[m]) && |run[m].disk| == l.size
    ensures L.WellFormed(l, run[now].disk) && Sound(sb, L.Recover(l, run[now].disk))
    ensures SameFileSystem(sb, LogicalDisk(l, run[m]), L.Recover(l, run[now].disk))
  {
    hide M.IsRun, Sound, L.Recover;
    T.SystemCallsAtomic(l, run, now);
    m :| m <= now && T.RecoversTo(l, run[now], run[m]);
    RecoveredHome(l, run[now], run[m]);
    SoundMoves(l, sb, LogicalDisk(l, run[m]), L.Recover(l, run[now].disk));
  }

  // ---------- Where soundness comes from ----------

  ghost predicate AllOnDisk(sb: Super, f: Fs) {
    Owned(sb, f) && forall i: nat | i < sb.ninodes :: OnDisk(sb, f, i)
  }

  /** A file system with every inode written back and nothing in progress is sound on its disk alone. */
  lemma OwnedIsSound(sb: Super, f: Fs)
    requires AllOnDisk(sb, f) && f.loose == {}
    ensures sb.Valid() && |f.disk| == sb.size && Sound(sb, f.disk) && DiskView(sb, f.disk) == f.view
  {
    hide Owned, InodeAt;
    FsOps.OwnedSizes(sb, f);
    forall i: nat | i < sb.ninodes ensures DiskView(sb, f.disk)[i] == f.view[i] { assert OnDisk(sb, f, i); }
    assert f == Fs(f.disk, DiskView(sb, f.disk), f.owner, {});
    assert SoundWith(sb, f.disk, f.owner);
  }

  /** filewrite leaves every inode on disk after every chunk. */
  lemma StageOnDisk(sb: Super, g: Fs, h: Fs, inum: nat, off: nat, src: seq<byte>)
    requires S.Stage(sb, g, h, inum, off, src) && AllOnDisk(sb, g)
    ensures AllOnDisk(sb, h) && h.loose == g.loose
  {
    hide Owned, InodeAt, S.Progress, F.Contents, F.Splice, FileBlock;
    FsOps.OwnedSizes(sb, g);
    FsOps.OwnedSizes(sb, h);
    forall i: nat | i < sb.ninodes ensures OnDisk(sb, h, i) { assert OnDisk(sb, g, i); }
  }

  // ---------- Crashes during a long write ----------

  ghost predicate Sized(l: L.Layout, trail: seq<Fs>) {
    forall k | 0 <= k < |trail| :: |trail[k].disk| == l.size
  }

  /** The home blocks of the file systems of a trail from the j-th on. */
  ghost function Homes(l: L.Layout, trail: seq<Fs>, j: nat): set<map<nat, Block>>
    requires Sized(l, trail)
  {
    set k | j <= k < |trail| :: L.HomeOf(l, trail[k].disk)
  }

  /** In disk r file inum is what it was in g with src written at off; every other inode and file is as in g. */
  ghost predicate HasWritten(sb: Super, g: Fs, r: Disk, inum: nat, off: nat, src: seq<byte>)
    requires sb.Valid() && |r| == sb.size && |g.view| == sb.ninodes && inum < sb.ninodes
    requires forall i | 0 <= i < |g.view| :: g.view[i].Valid()
  {
    var v := DiskView(sb, r);
    && g.view[inum].size <= F.MAXBYTES && v[inum].size <= F.MAXBYTES
    && (src == [] ==> F.Contents(r, v[inum]) == F.Contents(g.disk, g.view[inum]))
    && (src != [] ==>
          && off <= g.view[inum].size
          && F.Contents(r, v[inum]) == F.Splice(F.Contents(g.disk, g.view[inum]), off, src))
    && forall i: nat | i < sb.ninodes && i != inum ::
         v[i] == g.view[i] && forall bn: nat | bn < MAXFILE :: FileBlock(r, v[i], bn) == FileBlock(g.disk, g.view[i], bn)
  }

  lemma StageHasWritten(sb: Super, g: Fs, h: Fs, inum: nat, off: nat, src: seq<byte>, r: Disk)
    requires S.Stage(sb, g, h, inum, off, src) && AllOnDisk(sb, g) && g.loose == {} && |r| == sb.size
    requires SameFileSystem(sb, h.disk, r)
    ensures |g.view| == sb.ninodes && (forall i | 0 <= i < |g.view| :: g.view[i].Valid()) && HasWritten(sb, g, r, inum, off, src)
  {
    hide Owned, InodeAt, S.Progress, F.Contents, F.Splice, FileBlock;
    StageOnDisk(sb, g, h, inum, off, src);
    OwnedIsSound(sb, h);
    FsOps.OwnedSizes(sb, g);
    SameContents(sb, h.disk, r, inum);
  }

  lemma SameContents(sb: Super, d: Disk, r: Disk, i: nat)
    requires sb.Valid() && |d| == |r| == sb.size && i < sb.ninodes && SameFileSystem(sb, d, r)
    requires DiskView(sb, d)[i].size <= F.MAXBYTES
    ensures F.Contents(r, DiskView(sb, r)[i]) == F.Contents(d, DiskView(sb, d)[i])
  {
    hide InodeAt, FileBlock;
    var v := DiskView(sb, d)[i];
    forall k: nat | k < v.size ensures F.ByteAt(r, v, k) == F.ByteAt(d, v, k) {
      assert FileBlock(r, v, k / BSIZE) == FileBlock(d, v, k / BSIZE);
    }
  }

  /**
   A long write is atomic chunk by chunk. Let a filewrite take the file system
   along `trail`, and let every call of the run that ends alone leave one of the
   file systems of the trail from the j-th on. Then a crash at any step recovers
   a sound file system in which the file has got the first k chunks of the write,
   whole, with j <= k, and every other file is as it was.
   */
  lemma CrashKeepsWholeChunks(
    l: L.Layout, sb: Super, run: seq<M.State>, base: nat, now: nat,
    trail: seq<Fs>, inum: nat, off: nat, src: seq<byte>, j: nat) returns (k: nat)
    requires Fitting(l, sb) && M.IsRun(l, run) && T.Fits(l, run) && base <= now < |run|
    requires |trail| > 0 && S.IsTrail(sb, trail[0], trail, inum, off, src) && AllOnDisk(sb, trail[0]) && trail[0].loose == {}
    requires Sized(l, trail) && T.RecoversTo(l, run[base], run[base]) && P.Logical(l, run[base]) in Homes(l, trail, j)
    requires forall i: nat | base <= i < now && T.EndsAlone(run, i) && |run[i + 1].disk| == l.size ::
               P.Logical(l, run[i + 1]) in Homes(l, trail, j)
    ensures j <= k < |trail| && L.WellFormed(l, run[now].disk)
    ensures inum < sb.ninodes == |trail[0].view| && forall i | 0 <= i < sb.ninodes :: trail[0].view[i].Valid()
    ensures var r := L.Recover(l, run[now].disk);
            |r| == sb.size && Sound(sb, r) && HasWritten(sb, trail[0], r, inum, off, src[..S.Cut(k, |src|)])
  {
    hide M.IsRun, Sound, L.Recover, L.Durable, P.Logical, S.Stage, HasWritten, AllOnDisk, SameFileSystem, L.HomeOf;
    T.RecoversWhatCallsLeft(l, run, base, now, Homes(l, trail, j));
    var d := run[now].disk;
    k :| j <= k < |trail| && L.Durable(l, d) == L.HomeOf(l, trail[k].disk);
    assert S.Stage(sb, trail[0], trail[k], inum, off, src[..S.Cut(k, |src|)]);
    StageRecovered(l, sb, d, trail[0], trail[k], inum, off, src[..S.Cut(k, |src|)]);
  }

  lemma StageRecovered(l: L.Layout, sb: Super, d: Disk, g: Fs, h: Fs, inum: nat, off: nat, src: seq<byte>)
    requires Fitting(l, sb) && S.Stage(sb, g, h, inum, off, src) && AllOnDisk(sb, g) && g.loose == {}
    requires L.WellFormed(l, d) && L.Durable(l, d) == L.HomeOf(l, h.disk)
    ensures inum < sb.ninodes == |g.view| && forall i | 0 <= i < |g.view| :: g.view[i].Valid()
    ensures |L.Recover(l, d)| == sb.size && Sound(sb, L.Recover(l, d)) && HasWritten(sb, g, L.Recover(l, d), inum, off, src)
  {
    hide Sound, L.Recover, L.Durable, S.Written, HasWritten, AllOnDisk, SameFileSystem, Owned;
    StageOnDisk(sb, g, h, inum, off, src);
    OwnedIsSound(sb, h);
    L.RecoverIsDurable(l, d);
    var r := L.Recover(l, d);
    forall b: nat | l.Home(b) ensures r[b] == h.disk[b] { assert L.HomeOf(l, r)[b] == L.HomeOf(l, h.disk)[b]; }
    SoundMoves(l, sb, h.disk, r);
    StageHasWritten(sb, g, h, inum, off, src, r);
  }
}

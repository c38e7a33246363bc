/**
 A file with a hole, and what writei does to it: the block it fills in through
 an address of the inode reaches the inode in memory and not the one on disk.
 */
module FsHole {
  import opened Blocks
  import opened FsLayout
  import opened FsInode
  import opened FsOps
  import opened FsFile

  /** Four blocks: boot, one inode block, the free map, and one data block. */
  function Tiny(): Super { Super(4, 1, 1, 2) }

  /** A file of one byte, with no block. */
  function Holed(): Dinode { Dinode(2, 0, 0, 1, 1, [0, 0, 0, 0, 0, 0, 0, 0, 0, 0, 0, 0, 0]) }

  lemma {:induction false} NoBits(k: nat)
    ensures !HasBit(0, k)
  {
    if k > 0 { NoBits(k - 1); }
  }

  lemma BlankMap(b: nat)
    requires b < 4
    ensures !Used(Tiny(), [ZeroBlock, ZeroBlock, ZeroBlock, ZeroBlock], b)
  {
    NoBits(b % BPB % 8);
  }

  /** The metadata marked in the free map. */
  function Marked(): (d: Disk)
    ensures |d| == 4
  {
    var d := [ZeroBlock, ZeroBlock, ZeroBlock, ZeroBlock];
    WithUsed(Tiny(), WithUsed(Tiny(), WithUsed(Tiny(), d, 0, true), 1, true), 2, true)
  }

  lemma MarkedAt()
    ensures forall b: nat | b < 4 :: Used(Tiny(), Marked(), b) <==> b < 3
  {
    hide Used, WithUsed;
    var sb, d := Tiny(), [ZeroBlock, ZeroBlock, ZeroBlock, ZeroBlock];
    forall b: nat | b < 4 ensures !Used(sb, d, b) { BlankMap(b); }
    WithUsedAt(sb, d, 0, true);
    var d1 := WithUsed(sb, d, 0, true);
    WithUsedAt(sb, d1, 1, true);
    WithUsedAt(sb, WithUsed(sb, d1, 1, true), 2, true);
  }

  /** The file system with the one holed file, in memory as on disk. */
  function Start(): Fs {
    Fs(Updated(Tiny(), Marked(), 0, Holed()), [Holed()], map[], {})
  }

  lemma StartOwned()
    ensures Owned(Tiny(), Start()) && OnDisk(Tiny(), Start(), 0) && Room(Tiny(), Start().disk) == 1
  {
    hide Used, WithUsed, PutInode, InodeAt;
    var sb, f := Tiny(), Start();
    MarkedAt();
    hide Marked;
    UpdatedAt(sb, Marked(), 0, Holed());
    UsedFrame(sb, Marked(), 1, PutInode(Marked()[1], 0, Holed()));
    assert f.disk == Marked()[1 := PutInode(Marked()[1], 0, Holed())];
    forall b: nat | b < 4 ensures Used(sb, f.disk, b) <==> b < 3 {
      assert Used(sb, f.disk, b) == Used(sb, Marked(), b);
      assert Used(Tiny(), Marked(), b) <==> b < 3;
    }
    EmptyIsOwned(sb, f.disk, f.view);
    assert FreeBelow(sb, f.disk, 3) == 0 by { NoneBelow(sb, f.disk, 3); }
  }

  /** Writing the byte needs the one free block, and an address of the inode that is 0. */
  lemma HoleNeeds()
    ensures Need(Start().disk, Holed(), 0, 1) == 1
    ensures Touched(0, 1, 0) && Holed().addrs[AddrFor(0)] == 0
  {
    hide Updated;
    assert Slot(Start().disk, Holed(), DataSlot(0)) == 0;
    assert FreshIn(Start().disk, Holed(), 0, 0) == 0;
  }

  /**
   writei over the hole of the one file: it succeeds and the byte is in the
   file, but the inode on disk, equal to the one in memory before, is left
   behind without the block.
   */
  method HoleLeavesInodeBehind(fs: FileSystem, ip: Inode) returns (r: Io)
    requires fs.sb == Tiny() && fs.Now() == Start() && ip.inum == 0 && ip.d == Holed()
    modifies fs, ip
    ensures r == Ret(1) && fs.Valid() && fs.Holds(ip) && ip.d.size <= MAXBYTES && Contents(fs.disk, ip.d) == [65]
    ensures OnDisk(Tiny(), Start(), 0) && !OnDisk(fs.sb, fs.Now(), 0)
  {
    hide Owned, OnDisk, Room, Need, Start, Contents;
    StartOwned();
    HoleNeeds();
    StartIs();
    ghost var y;
    r, y := WriteI(fs, ip, [65], 0);
    OneByte(old(fs.disk), fs.disk, ip.d);
  }

  lemma OneByte(disk: Disk, disk': Disk, d': Dinode)
    requires d'.Valid() && d'.size <= MAXBYTES && Contents(disk', d') == Splice(Contents(disk, Holed()), 0, [65])
    ensures Contents(disk', d') == [65]
  {
    hide ByteAt;
  }

  /** The two objects can be had. */
  method HoledFile() returns (fs: FileSystem, ip: Inode)
    ensures fresh(fs) && fresh(ip) && fs.sb == Tiny() && fs.Now() == Start() && ip.inum == 0 && ip.d == Holed()
  {
    hide Owned, OnDisk, Room, Start;
    StartOwned();
    fs := new FileSystem(Tiny(), Start().disk, Start());
    ip := new Inode(0, Holed());
  }

  lemma StartIs()
    ensures Start().view == [Holed()]
  {
  }
}

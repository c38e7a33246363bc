/**
 Inodes on disk: sixteen words each, eight to a block. iupdate writes one of
 them and leaves its neighbours in the block alone.
 */
module FsInode {
  import opened Basics
  import opened Blocks
  import opened FsLayout

  const U16: nat := 0x1_0000
  const IWORDS: nat := 16

  /** The widths of the C fields. */
  predicate Fits(d: Dinode) {
    && d.Valid() && d.typ < U16 && d.major < U16 && d.minor < U16 && d.nlink < U16 && d.size < U32
    && forall k | 0 <= k < |d.addrs| :: d.addrs[k] < U32
  }

  function ToWords(d: Dinode): (w: seq<nat>)
    requires Fits(d)
    ensures |w| == IWORDS && forall k | 0 <= k < |w| :: w[k] < U32
  {
    [d.typ + U16 * d.major, d.minor + U16 * d.nlink, d.size] + d.addrs
  }

  function FromWords(w: seq<nat>): (d: Dinode)
    requires |w| == IWORDS
    ensures d.Valid()
  {
    Dinode(w[0] % U16, w[0] / U16, w[1] % U16, w[1] / U16, w[2], w[3..])
  }

  lemma WordsRoundTrip(d: Dinode)
    requires Fits(d)
    ensures FromWords(ToWords(d)) == d
  {
    assert ToWords(d)[3..] == d.addrs;
  }

  function GetWords(b: Block, off: nat, n: nat): (w: seq<nat>)
    requires off + n <= WORDS
    ensures |w| == n
    decreases n
  {
    if n == 0 then [] else [Word(b, off)] + GetWords(b, off + 1, n - 1)
  }

  function PutWords(b: Block, off: nat, w: seq<nat>): (r: Block)
    requires off + |w| <= WORDS && forall k | 0 <= k < |w| :: w[k] < U32
    ensures forall k: nat | k < WORDS && !(off <= k < off + |w|) :: Word(r, k) == Word(b, k)
    decreases |w|
  {
    if w == [] then b else PutWord(PutWords(b, off + 1, w[1..]), off, w[0])
  }

  lemma {:induction false} GetWordsFrame(a: Block, b: Block, off: nat, n: nat)
    requires off + n <= WORDS && forall k: nat | off <= k < off + n :: Word(a, k) == Word(b, k)
    ensures GetWords(a, off, n) == GetWords(b, off, n)
    decreases n
  {
    if n > 0 { GetWordsFrame(a, b, off + 1, n - 1); }
  }

  lemma {:induction false} GetPutWords(b: Block, off: nat, w: seq<nat>)
    requires off + |w| <= WORDS && forall k | 0 <= k < |w| :: w[k] < U32
    ensures GetWords(PutWords(b, off, w), off, |w|) == w
    decreases |w|
  {
    hide Word, PutWord;
    if w != [] {
      var r := PutWords(b, off + 1, w[1..]);
      GetPutWords(b, off + 1, w[1..]);
      var r' := PutWord(r, off, w[0]);
      GetWordsFrame(r', r, off + 1, |w| - 1);
      assert GetWords(r', off, |w|) == [Word(r', off)] + GetWords(r', off + 1, |w| - 1);
    }
  }

  /** Inode inum as its block on disk spells it. */
  function InodeAt(sb: Super, disk: Disk, inum: nat): (d: Dinode)
    requires sb.Valid() && |disk| == sb.size && inum < sb.ninodes
    ensures d.Valid()
  {
    FromWords(GetWords(disk[sb.IBlock(inum)], IWORDS * (inum % IPB), IWORDS))
  }

  function PutInode(b: Block, inum: nat, d: Dinode): Block
    requires Fits(d)
  {
    PutWords(b, IWORDS * (inum % IPB), ToWords(d))
  }

  /** The disk after iupdate of inode inum. */
  function Updated(sb: Super, disk: Disk, inum: nat, d: Dinode): (r: Disk)
    requires sb.Valid() && |disk| == sb.size && inum < sb.ninodes && Fits(d)
    ensures |r| == |disk|
  {
    disk[sb.IBlock(inum) := PutInode(disk[sb.IBlock(inum)], inum, d)]
  }

  /** iupdate stores the inode; every other inode stays as it was. */
  lemma UpdatedAt(sb: Super, disk: Disk, inum: nat, d: Dinode)
    requires sb.Valid() && |disk| == sb.size && inum < sb.ninodes && Fits(d)
    ensures InodeAt(sb, Updated(sb, disk, inum, d), inum) == d
    ensures forall j: nat | j < sb.ninodes && j != inum ::
              InodeAt(sb, Updated(sb, disk, inum, d), j) == InodeAt(sb, disk, j)
  {
    hide PutWords, GetWords, Word, ToWords, FromWords;
    var r := Updated(sb, disk, inum, d);
    var x := sb.IBlock(inum);
    WordsRoundTrip(d);
    GetPutWords(disk[x], IWORDS * (inum % IPB), ToWords(d));
    forall j: nat | j < sb.ninodes && j != inum ensures InodeAt(sb, r, j) == InodeAt(sb, disk, j) {
      if sb.IBlock(j) == x {
        assert j % IPB != inum % IPB;
        GetWordsFrame(r[x], disk[x], IWORDS * (j % IPB), IWORDS);
      }
    }
  }

  // ---------- In bytes ----------

  /** The 64 bytes from o on are struct dinode with d's fields: four shorts, the size and thirteen addresses. */
  predicate Spells(b: Block, o: nat, d: Dinode)
    requires o + 64 <= BSIZE
  {
    && d.Valid()
    && U16At(b, o) == d.typ && U16At(b, o + 2) == d.major && U16At(b, o + 4) == d.minor && U16At(b, o + 6) == d.nlink
    && U32At(b, o + 8) == d.size
    && forall k: nat | k <= NDIRECT :: U32At(b, o + 12 + 4 * k) == d.addrs[k]
  }

  lemma {:induction false} GetWordsAt(b: Block, off: nat, n: nat, k: nat)
    requires off + n <= WORDS && k < n
    ensures GetWords(b, off, n)[k] == U32At(b, 4 * (off + k))
    decreases n
  {
    hide Word, U32At;
    if k == 0 { WordBytes(b, off); } else { GetWordsAt(b, off + 1, n - 1, k - 1); }
  }

  /** Inode inum of any disk is the 64 bytes at 64 * (inum % 8) of block inum / 8 + inodestart. */
  lemma InodeBytes(sb: Super, disk: Disk, inum: nat, d: Dinode)
    requires sb.Valid() && |disk| == sb.size && inum < sb.ninodes
    ensures InodeAt(sb, disk, inum) == d <==> Spells(disk[inum / 8 + sb.inodestart], 64 * (inum % 8), d)
  {
    hide GetWords, U32At, U16At;
    var b, o, i := disk[inum / 8 + sb.inodestart], 64 * (inum % 8), InodeAt(sb, disk, inum);
    var w := GetWords(b, IWORDS * (inum % IPB), IWORDS);
    assert i == FromWords(w);
    forall k: nat | k < IWORDS ensures w[k] == U32At(b, o + 4 * k) { GetWordsAt(b, IWORDS * (inum % IPB), IWORDS, k); }
    Halves(b, o);
    Halves(b, o + 4);
    assert w[0] == U32At(b, o + 4 * 0) && w[1] == U32At(b, o + 4 * 1) && w[2] == U32At(b, o + 4 * 2);
    forall k: nat | k <= NDIRECT ensures U32At(b, o + 12 + 4 * k) == i.addrs[k] { assert w[3 + k] == U32At(b, o + 4 * (3 + k)); }
    assert Spells(b, o, i);
    if Spells(b, o, d) {
      assert forall k: nat | k <= NDIRECT :: U32At(b, o + 12 + 4 * k) == d.addrs[k];
      assert d.addrs == i.addrs;
    }
  }

  /** Inode inum on disk is the one in memory. */
  predicate OnDisk(sb: Super, f: Fs, inum: nat)
    requires sb.Valid() && |f.disk| == sb.size && inum < sb.ninodes && |f.view| == sb.ninodes
  {
    InodeAt(sb, f.disk, inum) == f.view[inum]
  }

  /** A write outside the inode blocks changes no inode on disk. */
  lemma InodeFrame(sb: Super, disk: Disk, x: nat, data: Block)
    requires sb.Valid() && |disk| == sb.size && x < sb.size && sb.bmapstart <= x
    ensures forall j: nat | j < sb.ninodes :: InodeAt(sb, disk[x := data], j) == InodeAt(sb, disk, j)
  {
    hide FromWords, GetWords;
    forall j: nat | j < sb.ninodes ensures InodeAt(sb, disk[x := data], j) == InodeAt(sb, disk, j) {
      assert sb.IBlock(j) < sb.bmapstart;
    }
  }
}

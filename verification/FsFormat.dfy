/**
 The file system on disk, byte by byte: the free map, indirect blocks and the
 bytes of a file. (Inodes: `FsInode.InodeBytes`.)
 */
module FsFormat {
  import opened Blocks
  import opened FsLayout
  import opened FsFile

  // ---------- Free map ----------

  /** The status of block b is bit b % 8 of byte b % 4096 / 8 of block b / 4096 + bmapstart. */
  lemma FreeMapBit(sb: Super, disk: Disk, b: nat)
    requires sb.Valid() && |disk| == sb.size && b < sb.size
    ensures Used(sb, disk, b) <==> disk[b / 4096 + sb.bmapstart][b % 4096 / 8] / Pow2(b % 8) % 2 == 1
  {
    hide HasBit, Pow2;
    assert b % 4096 % 8 == b % 8;
    BitIs(disk[b / 4096 + sb.bmapstart][b % 4096 / 8], b % 8);
  }

  // ---------- Files ----------

  /** Where block bn of a file is: in the inode, or at byte 4 * (bn - 12) of the indirect block. */
  function Address(disk: Disk, d: Dinode, bn: nat): nat
    requires d.Valid() && bn < MAXFILE
  {
    if bn < 12 then d.addrs[bn]
    else if 0 < d.addrs[12] < |disk| then U32At(disk[d.addrs[12]], 4 * (bn - 12))
    else 0
  }

  lemma SlotAddress(disk: Disk, d: Dinode, bn: nat)
    requires d.Valid() && bn < MAXFILE
    ensures Slot(disk, d, DataSlot(bn)) == Address(disk, d, bn)
  {
    hide Word, U32At;
    if bn >= 12 && 0 < d.addrs[12] < |disk| { WordBytes(disk[d.addrs[12]], bn - 12); }
  }

  /** Byte p of a file is byte p % 512 of its block p / 512; a block without an address reads as zeros. */
  lemma FileByte(disk: Disk, d: Dinode, p: nat)
    requires d.Valid() && p < d.size <= MAXBYTES
    ensures var x := Address(disk, d, p / 512);
            Contents(disk, d)[p] == if 0 < x < |disk| then disk[x][p % 512] else 0
  {
    hide Slot, Address;
    SlotAddress(disk, d, p / 512);
  }
}

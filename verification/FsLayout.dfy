/**
 The on-disk layout of fs.c: free map, inodes and the blocks they own. An inode
 has 141 block slots: 12 direct, the indirect block, and the 128 entries inside
 the indirect block. `Owned` is the ownership invariant: the used data blocks
 are exactly the blocks some slot of some inode names, each named once (plus
 the `loose` blocks an operation in progress has allocated or detached).
 */
module FsLayout {
  import opened Basics
  import opened Blocks

  const NDIRECT: nat := 12
  const NINDIRECT: nat := 128
  const MAXFILE: nat := 140
  const NSLOT: nat := 141
  const IPB: nat := 8

  datatype Super = Super(size: nat, ninodes: nat, inodestart: nat, bmapstart: nat) {
    /** BBLOCK */
    function BBlock(b: nat): nat { b / BPB + bmapstart }

    /** IBLOCK */
    function IBlock(inum: nat): nat { inum / IPB + inodestart }

    /** First block behind the free map. */
    function DataStart(): nat { bmapstart + size / BPB + 1 }

    predicate Valid() {
      && inodestart + ninodes / IPB + 1 <= bmapstart
      && 0 < inodestart
      && DataStart() <= size < U32
    }
  }

  /** struct dinode, and the same fields of struct inode. */
  datatype Dinode = Dinode(typ: nat, major: nat, minor: nat, nlink: nat, size: nat, addrs: seq<nat>) {
    predicate Valid() {
      |addrs| == NDIRECT + 1
    }
  }

  // ---------- Free map ----------

  predicate Used(sb: Super, disk: Disk, b: nat)
    requires sb.Valid() && |disk| == sb.size && b < sb.size
  {
    BitAt(disk[sb.BBlock(b)], b % BPB)
  }

  function WithUsed(sb: Super, disk: Disk, b: nat, v: bool): (r: Disk)
    requires sb.Valid() && |disk| == sb.size && b < sb.size
    ensures |r| == |disk|
  {
    disk[sb.BBlock(b) := PutBit(disk[sb.BBlock(b)], b % BPB, v)]
  }

  /** Setting or clearing one bit of the free map changes one block's status. */
  lemma WithUsedAt(sb: Super, disk: Disk, b: nat, v: bool)
    requires sb.Valid() && |disk| == sb.size && b < sb.size
    ensures forall c: nat | c < sb.size :: Used(sb, WithUsed(sb, disk, b, v), c) == if c == b then v else Used(sb, disk, c)
  {
    hide PutBit, BitAt;
    var r := WithUsed(sb, disk, b, v);
    forall c: nat | c < sb.size
      ensures Used(sb, r, c) == if c == b then v else Used(sb, disk, c)
    {
      if sb.BBlock(c) == sb.BBlock(b) {
        assert c % BPB == b % BPB <==> c == b;
      }
    }
  }

  /** A write outside the free map changes no block's status. */
  lemma UsedFrame(sb: Super, disk: Disk, x: nat, data: Block)
    requires sb.Valid() && |disk| == sb.size && x < sb.size && !(sb.bmapstart <= x < sb.DataStart())
    ensures forall c: nat | c < sb.size :: Used(sb, disk[x := data], c) == Used(sb, disk, c)
  {
    hide BitAt;
  }

  /** How many of the blocks below n are free. */
  function FreeBelow(sb: Super, disk: Disk, n: nat): nat
    requires sb.Valid() && |disk| == sb.size && n <= sb.size
  {
    if n == 0 then 0 else FreeBelow(sb, disk, n - 1) + if Used(sb, disk, n - 1) then 0 else 1
  }

  /** How many blocks are free. */
  function Room(sb: Super, disk: Disk): nat
    requires sb.Valid() && |disk| == sb.size
  {
    FreeBelow(sb, disk, sb.size)
  }

  lemma {:induction false} FreeBelowSame(sb: Super, disk: Disk, disk': Disk, n: nat)
    requires sb.Valid() && |disk| == |disk'| == sb.size && n <= sb.size
    requires forall c: nat | c < n :: Used(sb, disk', c) == Used(sb, disk, c)
    ensures FreeBelow(sb, disk', n) == FreeBelow(sb, disk, n)
  {
    hide Used;
    if n > 0 { FreeBelowSame(sb, disk, disk', n - 1); }
  }

  lemma {:induction false} FreeBelowTake(sb: Super, disk: Disk, disk': Disk, b: nat, n: nat)
    requires sb.Valid() && |disk| == |disk'| == sb.size && b < n <= sb.size && !Used(sb, disk, b)
    requires forall c: nat | c < n :: Used(sb, disk', c) == if c == b then true else Used(sb, disk, c)
    ensures FreeBelow(sb, disk', n) == FreeBelow(sb, disk, n) - 1
  {
    hide Used;
    if n - 1 == b { FreeBelowSame(sb, disk, disk', b); } else { FreeBelowTake(sb, disk, disk', b, n - 1); }
  }

  lemma {:induction false} NoneBelow(sb: Super, disk: Disk, n: nat)
    requires sb.Valid() && |disk| == sb.size && n <= sb.size
    ensures FreeBelow(sb, disk, n) == 0 <==> forall c: nat | c < n :: Used(sb, disk, c)
  {
    hide Used;
    if n > 0 { NoneBelow(sb, disk, n - 1); }
  }

  lemma NoRoom(sb: Super, disk: Disk)
    requires sb.Valid() && |disk| == sb.size
    ensures Room(sb, disk) == 0 <==> forall c: nat | c < sb.size :: Used(sb, disk, c)
  {
    NoneBelow(sb, disk, sb.size);
  }

  /** A write outside the free map takes no room. */
  lemma RoomFrame(sb: Super, disk: Disk, x: nat, data: Block)
    requires sb.Valid() && |disk| == sb.size && x < sb.size && !(sb.bmapstart <= x < sb.DataStart())
    ensures Room(sb, disk[x := data]) == Room(sb, disk)
  {
    hide Used;
    UsedFrame(sb, disk, x, data);
    FreeBelowSame(sb, disk, disk[x := data], sb.size);
  }

  /** balloc takes one block of the room. */
  lemma RoomTaken(sb: Super, disk: Disk, b: nat)
    requires sb.Valid() && |disk| == sb.size && sb.DataStart() <= b < sb.size && !Used(sb, disk, b)
    ensures Room(sb, WithUsed(sb, disk, b, true)[b := ZeroBlock]) == Room(sb, disk) - 1
  {
    hide Used, WithUsed, FreeBelow;
    WithUsedAt(sb, disk, b, true);
    FreeBelowTake(sb, disk, WithUsed(sb, disk, b, true), b, sb.size);
    RoomFrame(sb, WithUsed(sb, disk, b, true), b, ZeroBlock);
  }

  // ---------- Slots ----------

  /** The block slot s of inode d names, or 0. */
  function Slot(disk: Disk, d: Dinode, s: nat): nat
    requires d.Valid() && s < NSLOT
  {
    if s <= NDIRECT then d.addrs[s]
    else if d.addrs[NDIRECT] == 0 || d.addrs[NDIRECT] >= |disk| then 0
    else Word(disk[d.addrs[NDIRECT]], s - NDIRECT - 1)
  }

  /** The slot of the bn-th block of a file. */
  function DataSlot(bn: nat): (s: nat)
    requires bn < MAXFILE
    ensures s < NSLOT && s != NDIRECT
  {
    if bn < NDIRECT then bn else bn + 1
  }

  /** The bn-th block of a file; a hole reads as zeros. */
  function FileBlock(disk: Disk, d: Dinode, bn: nat): Block
    requires d.Valid() && bn < MAXFILE
  {
    BlockAt(disk, Slot(disk, d, DataSlot(bn)))
  }

  function BlockAt(disk: Disk, b: nat): Block {
    if b == 0 || b >= |disk| then ZeroBlock else disk[b]
  }

  /** Slot s of inode i. */
  datatype Ref = Ref(i: nat, s: nat)

  /** `view` holds the inodes as the kernel has them in memory; `owner` inverts the slots. */
  datatype Fs = Fs(disk: Disk, view: seq<Dinode>, owner: map<nat, Ref>, loose: set<nat>)

  predicate SlotOwned(f: Fs, i: nat, s: nat)
    requires i < |f.view| && f.view[i].Valid() && s < NSLOT
  {
    Slot(f.disk, f.view[i], s) != 0 ==>
      Slot(f.disk, f.view[i], s) in f.owner && f.owner[Slot(f.disk, f.view[i], s)] == Ref(i, s)
  }

  predicate OwnerOk(sb: Super, f: Fs, b: nat)
    requires b in f.owner && |f.view| == sb.ninodes && forall i | 0 <= i < |f.view| :: f.view[i].Valid()
  {
    && sb.DataStart() <= b < sb.size && f.owner[b].i < sb.ninodes && f.owner[b].s < NSLOT
    && Slot(f.disk, f.view[f.owner[b].i], f.owner[b].s) == b
  }

  predicate StatusOk(sb: Super, f: Fs, b: nat)
    requires sb.Valid() && |f.disk| == sb.size && b < sb.size
  {
    Used(sb, f.disk, b) <==> b < sb.DataStart() || b in f.owner || b in f.loose
  }

  predicate Owned(sb: Super, f: Fs) {
    && sb.Valid() && |f.disk| == sb.size && |f.view| == sb.ninodes
    && (forall i | 0 <= i < |f.view| :: f.view[i].Valid())
    && (forall b: nat | b < sb.size :: StatusOk(sb, f, b))
    && (forall b | b in f.owner :: OwnerOk(sb, f, b))
    && (forall b | b in f.loose :: sb.DataStart() <= b < sb.size && b !in f.owner)
    && (forall i: nat, s: nat | i < sb.ninodes && s < NSLOT :: SlotOwned(f, i, s))
  }

  /** The invariant in its own words: a used block is metadata or named by exactly one slot of exactly one inode. */
  lemma OwnedExactlyOnce(sb: Super, f: Fs, b: nat)
    requires Owned(sb, f) && f.loose == {} && b < sb.size
    ensures Used(sb, f.disk, b) <==>
            b < sb.DataStart() || exists i: nat, s: nat :: i < sb.ninodes && s < NSLOT && Slot(f.disk, f.view[i], s) == b
    ensures b != 0 ==> forall i: nat, s: nat, j: nat, t: nat |
              i < sb.ninodes && s < NSLOT && j < sb.ninodes && t < NSLOT
              && Slot(f.disk, f.view[i], s) == b && Slot(f.disk, f.view[j], t) == b :: i == j && s == t
    ensures forall i: nat, s: nat | i < sb.ninodes && s < NSLOT && Slot(f.disk, f.view[i], s) == b && b != 0 ::
              sb.DataStart() <= b && Used(sb, f.disk, b)
  {
    hide Used;
    assert StatusOk(sb, f, b);
    if b in f.owner {
      assert OwnerOk(sb, f, b);
    }
    forall i: nat, s: nat | i < sb.ninodes && s < NSLOT && Slot(f.disk, f.view[i], s) == b && b != 0
      ensures b in f.owner && f.owner[b] == Ref(i, s) && sb.DataStart() <= b
    {
      assert SlotOwned(f, i, s);
      assert OwnerOk(sb, f, b);
    }
    assert b == 0 ==> b < sb.DataStart();
  }

  /** An empty file system: the free map marks the metadata and no inode has blocks. */
  lemma EmptyIsOwned(sb: Super, disk: Disk, view: seq<Dinode>)
    requires sb.Valid() && |disk| == sb.size && |view| == sb.ninodes
    requires forall i | 0 <= i < |view| :: view[i].Valid() && forall s | 0 <= s <= NDIRECT :: view[i].addrs[s] == 0
    requires forall b: nat | b < sb.size :: Used(sb, disk, b) <==> b < sb.DataStart()
    ensures Owned(sb, Fs(disk, view, map[], {}))
  {
    hide Used;
    var f := Fs(disk, view, map[], {});
    forall b: nat | b < sb.size ensures StatusOk(sb, f, b) {}
    forall i: nat, s: nat | i < sb.ninodes && s < NSLOT ensures SlotOwned(f, i, s) {
      assert view[i].addrs[NDIRECT] == 0;
    }
  }

  // ---------- What a write leaves alone ----------

  /** A write to a block that is no inode's indirect block moves no slot. */
  lemma SlotFrame(disk: Disk, x: nat, data: Block, d: Dinode)
    requires d.Valid() && x < |disk| && x != d.addrs[NDIRECT]
    ensures forall s: nat | s < NSLOT :: Slot(disk[x := data], d, s) == Slot(disk, d, s)
  {
    hide Word;
  }

  /** Block x is not the indirect block of any inode. */
  predicate NotIndirect(f: Fs, x: nat) {
    forall i | 0 <= i < |f.view| && f.view[i].Valid() :: f.view[i].addrs[NDIRECT] != x
  }

  lemma NotIndirectIf(sb: Super, f: Fs, x: nat)
    requires Owned(sb, f) && x != 0 && (x in f.owner ==> f.owner[x].s != NDIRECT)
    ensures NotIndirect(f, x)
  {
    hide Used, StatusOk, OwnerOk;
    forall i | 0 <= i < |f.view| ensures f.view[i].addrs[NDIRECT] != x {
      assert SlotOwned(f, i, NDIRECT);
      assert Slot(f.disk, f.view[i], NDIRECT) == f.view[i].addrs[NDIRECT];
    }
  }

  /** A write outside the free map that moves no slot keeps ownership. */
  lemma OwnedWrite(sb: Super, f: Fs, x: nat, data: Block)
    requires Owned(sb, f) && x < sb.size && !(sb.bmapstart <= x < sb.DataStart()) && NotIndirect(f, x)
    ensures Owned(sb, f.(disk := f.disk[x := data]))
    ensures forall i: nat, s: nat | i < sb.ninodes && s < NSLOT ::
              Slot(f.disk[x := data], f.view[i], s) == Slot(f.disk, f.view[i], s)
  {
    hide Used, Slot;
    var f' := f.(disk := f.disk[x := data]);
    UsedFrame(sb, f.disk, x, data);
    forall i: nat | i < sb.ninodes
      ensures forall s: nat | s < NSLOT :: Slot(f'.disk, f.view[i], s) == Slot(f.disk, f.view[i], s)
    {
      SlotFrame(f.disk, x, data, f.view[i]);
    }
    forall b: nat | b < sb.size ensures StatusOk(sb, f', b) { assert StatusOk(sb, f, b); }
    forall b | b in f'.owner ensures OwnerOk(sb, f', b) { assert OwnerOk(sb, f, b); }
    forall i: nat, s: nat | i < sb.ninodes && s < NSLOT ensures SlotOwned(f', i, s) { assert SlotOwned(f, i, s); }
  }

  /** Changing one bit of the free map moves no slot and no file block. */
  lemma OwnedStatus(sb: Super, f: Fs, b: nat, v: bool)
    requires Owned(sb, f) && b < sb.size && sb.DataStart() <= b && b !in f.owner
    ensures var f' := f.(disk := WithUsed(sb, f.disk, b, v), loose := if v then f.loose + {b} else f.loose - {b});
            && Owned(sb, f') && sb.BBlock(b) !in f.owner && NotIndirect(f, sb.BBlock(b))
            && forall i: nat, s: nat | i < sb.ninodes && s < NSLOT ::
                 Slot(f'.disk, f.view[i], s) == Slot(f.disk, f.view[i], s)
  {
    hide Used, Slot;
    var f' := f.(disk := WithUsed(sb, f.disk, b, v), loose := if v then f.loose + {b} else f.loose - {b});
    var x := sb.BBlock(b);
    assert x < sb.DataStart();
    assert x !in f.owner;
    NotIndirectIf(sb, f, x);
    WithUsedAt(sb, f.disk, b, v);
    forall i: nat | i < sb.ninodes
      ensures forall s: nat | s < NSLOT :: Slot(f'.disk, f.view[i], s) == Slot(f.disk, f.view[i], s)
    {
      SlotFrame(f.disk, x, f'.disk[x], f.view[i]);
    }
    forall c: nat | c < sb.size ensures StatusOk(sb, f', c) { assert StatusOk(sb, f, c); }
    forall c | c in f'.owner ensures OwnerOk(sb, f', c) { assert OwnerOk(sb, f, c); }
    forall i: nat, s: nat | i < sb.ninodes && s < NSLOT ensures SlotOwned(f', i, s) { assert SlotOwned(f, i, s); }
  }

  // ---------- Allocation and release steps ----------

  /** No inode's file has changed, holes counting as zeros. */
  predicate SameFiles(f: Fs, f': Fs)
    requires |f.view| == |f'.view|
    requires forall i | 0 <= i < |f.view| :: f.view[i].Valid() && f'.view[i].Valid()
  {
    forall i: nat, bn: nat | i < |f.view| && bn < MAXFILE ::
      FileBlock(f'.disk, f'.view[i], bn) == FileBlock(f.disk, f.view[i], bn)
  }

  /** A named block is a data block. */
  lemma SlotInData(sb: Super, f: Fs, i: nat, s: nat)
    requires Owned(sb, f) && i < sb.ninodes && s < NSLOT
    ensures var b := Slot(f.disk, f.view[i], s);
            b != 0 ==> b in f.owner && f.owner[b] == Ref(i, s) && sb.DataStart() <= b < sb.size
  {
    hide Used, Slot;
    assert SlotOwned(f, i, s);
    var b := Slot(f.disk, f.view[i], s);
    if b != 0 {
      assert OwnerOk(sb, f, b);
    }
  }

  /** Writing a block no slot names changes no file. */
  lemma FilesFrame(sb: Super, f: Fs, x: nat, data: Block)
    requires Owned(sb, f) && x < sb.size && x !in f.owner && NotIndirect(f, x)
    ensures SameFiles(f, f.(disk := f.disk[x := data]))
  {
    hide Used, Slot, StatusOk, OwnerOk, SlotOwned;
    forall i: nat, bn: nat | i < |f.view| && bn < MAXFILE
      ensures FileBlock(f.disk[x := data], f.view[i], bn) == FileBlock(f.disk, f.view[i], bn)
    {
      SlotFrame(f.disk, x, data, f.view[i]);
      SlotInData(sb, f, i, DataSlot(bn));
    }
  }

  /** balloc: block b, free until now, is marked and zeroed; no file notices. */
  lemma AllocStep(sb: Super, f: Fs, b: nat)
    requires Owned(sb, f) && b < sb.size && !Used(sb, f.disk, b)
    ensures var f' := f.(disk := WithUsed(sb, f.disk, b, true)[b := ZeroBlock], loose := f.loose + {b});
            Owned(sb, f') && SameFiles(f, f') && sb.DataStart() <= b && b !in f.owner && b !in f.loose
  {
    hide Used, Slot, SlotOwned, OwnerOk;
    assert StatusOk(sb, f, b);
    var m := f.(disk := WithUsed(sb, f.disk, b, true), loose := f.loose + {b});
    OwnedStatus(sb, f, b, true);
    FilesFrame(sb, f, sb.BBlock(b), m.disk[sb.BBlock(b)]);
    NotIndirectIf(sb, m, b);
    OwnedWrite(sb, m, b, ZeroBlock);
    FilesFrame(sb, m, b, ZeroBlock);
  }

  /** bfree of a detached block. */
  lemma FreeStep(sb: Super, f: Fs, b: nat)
    requires Owned(sb, f) && b in f.loose
    ensures Used(sb, f.disk, b)
    ensures var f' := f.(disk := WithUsed(sb, f.disk, b, false), loose := f.loose - {b});
            Owned(sb, f') && SameFiles(f, f')
  {
    hide Used, Slot, SlotOwned, OwnerOk;
    assert StatusOk(sb, f, b);
    var m := f.(disk := WithUsed(sb, f.disk, b, false), loose := f.loose - {b});
    OwnedStatus(sb, f, b, false);
    FilesFrame(sb, f, sb.BBlock(b), m.disk[sb.BBlock(b)]);
  }

  function WithAddr(d: Dinode, s: nat, b: nat): (r: Dinode)
    requires d.Valid() && s <= NDIRECT
    ensures r.Valid()
  {
    d.(addrs := d.addrs[s := b])
  }

  /** Slots of an inode after one address changes from 0 to a zeroed block, or back. */
  lemma WithAddrSlots(disk: Disk, d: Dinode, s: nat, b: nat)
    requires d.Valid() && s <= NDIRECT && d.addrs[s] == 0 && b < |disk| && disk[b] == ZeroBlock
    ensures forall t: nat | t < NSLOT :: Slot(disk, WithAddr(d, s, b), t) == if t == s then b else Slot(disk, d, t)
  {
    ZeroWords();
  }

  /** A freshly allocated block becomes an address of the inode itself. */
  lemma AttachStep(sb: Super, f: Fs, i: nat, s: nat, b: nat)
    requires Owned(sb, f) && i < sb.ninodes && s <= NDIRECT && f.view[i].addrs[s] == 0
    requires b in f.loose && f.disk[b] == ZeroBlock
    ensures var f' := f.(view := f.view[i := WithAddr(f.view[i], s, b)], owner := f.owner[b := Ref(i, s)], loose := f.loose - {b});
            && Owned(sb, f') && SameFiles(f, f') && Slot(f'.disk, f'.view[i], s) == b
            && forall t: nat | t < NSLOT && t != s :: Slot(f'.disk, f'.view[i], t) == Slot(f.disk, f.view[i], t)
  {
    hide Used, Slot;
    var f' := f.(view := f.view[i := WithAddr(f.view[i], s, b)], owner := f.owner[b := Ref(i, s)], loose := f.loose - {b});
    WithAddrSlots(f.disk, f.view[i], s, b);
    ZeroAddr(f.disk, f.view[i], s);
    forall c: nat | c < sb.size ensures StatusOk(sb, f', c) { assert StatusOk(sb, f, c); }
    forall c | c in f'.owner ensures OwnerOk(sb, f', c) { if c != b { assert OwnerOk(sb, f, c); } }
    forall j: nat, t: nat | j < sb.ninodes && t < NSLOT ensures SlotOwned(f', j, t) {
      assert SlotOwned(f, j, t);
    }
    forall j: nat, bn: nat | j < |f.view| && bn < MAXFILE
      ensures FileBlock(f'.disk, f'.view[j], bn) == FileBlock(f.disk, f.view[j], bn)
    {
    }
  }

  lemma ZeroAddr(disk: Disk, d: Dinode, s: nat)
    requires d.Valid() && s <= NDIRECT
    ensures Slot(disk, d, s) == d.addrs[s]
  {
  }

  /** A freshly allocated block becomes an entry of the indirect block. */
  lemma AttachInnerStep(sb: Super, f: Fs, i: nat, j: nat, b: nat)
    requires Owned(sb, f) && i < sb.ninodes && j < NINDIRECT && b in f.loose && f.disk[b] == ZeroBlock
    requires f.view[i].addrs[NDIRECT] != 0 && Slot(f.disk, f.view[i], NDIRECT + 1 + j) == 0
    ensures f.view[i].addrs[NDIRECT] < sb.size && b < U32
    ensures var x := f.view[i].addrs[NDIRECT];
            var f' := f.(disk := f.disk[x := PutWord(f.disk[x], j, b)], owner := f.owner[b := Ref(i, NDIRECT + 1 + j)], loose := f.loose - {b});
            && Owned(sb, f') && SameFiles(f, f') && Slot(f'.disk, f'.view[i], NDIRECT + 1 + j) == b
            && forall t: nat | t < NSLOT && t != NDIRECT + 1 + j :: Slot(f'.disk, f'.view[i], t) == Slot(f.disk, f.view[i], t)
  {
    hide Used, Slot;
    var x, s := f.view[i].addrs[NDIRECT], NDIRECT + 1 + j;
    ZeroAddr(f.disk, f.view[i], NDIRECT);
    SlotInData(sb, f, i, NDIRECT);
    var f' := f.(disk := f.disk[x := PutWord(f.disk[x], j, b)], owner := f.owner[b := Ref(i, s)], loose := f.loose - {b});
    UsedFrame(sb, f.disk, x, f'.disk[x]);
    InnerSlots(f.disk, f.view[i], j, b);
    OtherIndirects(sb, f, i, f'.disk[x]);
    forall c: nat | c < sb.size ensures StatusOk(sb, f', c) { assert StatusOk(sb, f, c); }
    forall c | c in f'.owner ensures OwnerOk(sb, f', c) { if c != b { assert OwnerOk(sb, f, c); } }
    forall k: nat, t: nat | k < sb.ninodes && t < NSLOT ensures SlotOwned(f', k, t) {
      assert SlotOwned(f, k, t);
    }
    forall k: nat, bn: nat | k < |f.view| && bn < MAXFILE
      ensures FileBlock(f'.disk, f'.view[k], bn) == FileBlock(f.disk, f.view[k], bn)
    {
      SlotInData(sb, f, k, DataSlot(bn));
    }
  }

  /** A write to the indirect block of inode i moves no slot of another inode. */
  lemma OtherIndirects(sb: Super, f: Fs, i: nat, data: Block)
    requires Owned(sb, f) && i < sb.ninodes && 0 < f.view[i].addrs[NDIRECT] < sb.size
    ensures forall k: nat, t: nat | k < sb.ninodes && k != i && t < NSLOT ::
              Slot(f.disk[f.view[i].addrs[NDIRECT] := data], f.view[k], t) == Slot(f.disk, f.view[k], t)
  {
    hide Used, Slot;
    var x := f.view[i].addrs[NDIRECT];
    ZeroAddr(f.disk, f.view[i], NDIRECT);
    SlotInData(sb, f, i, NDIRECT);
    forall k: nat | k < sb.ninodes && k != i
      ensures forall t: nat | t < NSLOT :: Slot(f.disk[x := data], f.view[k], t) == Slot(f.disk, f.view[k], t)
    {
      ZeroAddr(f.disk, f.view[k], NDIRECT);
      SlotInData(sb, f, k, NDIRECT);
      SlotFrame(f.disk, x, data, f.view[k]);
    }
  }

  lemma InnerSlots(disk: Disk, d: Dinode, j: nat, b: nat)
    requires d.Valid() && j < NINDIRECT && 0 < d.addrs[NDIRECT] < |disk| && b < U32
    ensures var disk' := disk[d.addrs[NDIRECT] := PutWord(disk[d.addrs[NDIRECT]], j, b)];
            forall t: nat | t < NSLOT :: Slot(disk', d, t) == if t == NDIRECT + 1 + j then b else Slot(disk, d, t)
  {
    hide Word, PutWord;
  }

  /** Overwriting block bn of file i changes that block of that file and nothing else. */
  lemma DataWriteStep(sb: Super, f: Fs, i: nat, bn: nat, data: Block)
    requires Owned(sb, f) && i < sb.ninodes && bn < MAXFILE && Slot(f.disk, f.view[i], DataSlot(bn)) != 0
    ensures Slot(f.disk, f.view[i], DataSlot(bn)) < sb.size
    ensures var x := Slot(f.disk, f.view[i], DataSlot(bn));
            var f' := f.(disk := f.disk[x := data]);
            && Owned(sb, f')
            && (forall k: nat, t: nat | k < sb.ninodes && t < NSLOT :: Slot(f'.disk, f.view[k], t) == Slot(f.disk, f.view[k], t))
            && FileBlock(f'.disk, f.view[i], bn) == data
            && forall k: nat, c: nat | k < sb.ninodes && c < MAXFILE && !(k == i && c == bn) ::
                 FileBlock(f'.disk, f.view[k], c) == FileBlock(f.disk, f.view[k], c)
  {
    hide Used, Slot;
    var x := Slot(f.disk, f.view[i], DataSlot(bn));
    SlotInData(sb, f, i, DataSlot(bn));
    NotIndirectIf(sb, f, x);
    OwnedWrite(sb, f, x, data);
    forall k: nat, c: nat | k < sb.ninodes && c < MAXFILE && !(k == i && c == bn)
      ensures FileBlock(f.disk[x := data], f.view[k], c) == FileBlock(f.disk, f.view[k], c)
    {
      SlotInData(sb, f, k, DataSlot(c));
    }
  }

  /** A write to a metadata block outside the free map (an inode block) changes no slot and no file. */
  lemma MetaWriteStep(sb: Super, f: Fs, x: nat, data: Block)
    requires Owned(sb, f) && 0 < x < sb.bmapstart
    ensures Owned(sb, f.(disk := f.disk[x := data])) && SameFiles(f, f.(disk := f.disk[x := data]))
    ensures forall k: nat, t: nat | k < sb.ninodes && t < NSLOT ::
              Slot(f.disk[x := data], f.view[k], t) == Slot(f.disk, f.view[k], t)
  {
    hide Used, Slot;
    assert x < sb.DataStart();
    assert x !in f.owner;
    NotIndirectIf(sb, f, x);
    OwnedWrite(sb, f, x, data);
    FilesFrame(sb, f, x, data);
  }

  /** The blocks an indirect block names from entry j on. */
  function Inner(x: Block, j: nat): set<nat>
    requires j <= NINDIRECT
    decreases NINDIRECT - j
  {
    if j == NINDIRECT then {}
    else if Word(x, j) == 0 then Inner(x, j + 1)
    else Inner(x, j + 1) + {Word(x, j)}
  }

  lemma {:induction false} InnerMembers(x: Block, j: nat)
    requires j <= NINDIRECT
    ensures forall k: nat | j <= k < NINDIRECT && Word(x, k) != 0 :: Word(x, k) in Inner(x, j)
    ensures forall b | b in Inner(x, j) :: b != 0 && exists k: nat :: j <= k < NINDIRECT && Word(x, k) == b
    decreases NINDIRECT - j
  {
    hide Word;
    if j < NINDIRECT {
      InnerMembers(x, j + 1);
    }
  }

  /** The blocks that slot s of inode i leads to: itself, and for the indirect block also what it names. */
  function Under(f: Fs, i: nat, s: nat): set<nat>
    requires i < |f.view| && f.view[i].Valid() && s <= NDIRECT
  {
    var b := f.view[i].addrs[s];
    if b == 0 || b >= |f.disk| then {} else if s < NDIRECT then {b} else {b} + Inner(f.disk[b], 0)
  }

  function Detached(f: Fs, i: nat, s: nat): Fs
    requires i < |f.view| && f.view[i].Valid() && s <= NDIRECT
  {
    f.(view := f.view[i := WithAddr(f.view[i], s, 0)], owner := f.owner - Under(f, i, s), loose := f.loose + Under(f, i, s))
  }

  lemma DetachSlots(disk: Disk, d: Dinode, s: nat, t: nat)
    requires d.Valid() && s <= NDIRECT && t < NSLOT
    ensures Slot(disk, WithAddr(d, s, 0), t) == if t == s || (s == NDIRECT && t > NDIRECT) then 0 else Slot(disk, d, t)
  {
  }

  lemma UnderIsOwned(sb: Super, f: Fs, i: nat, s: nat, b: nat)
    requires Owned(sb, f) && i < sb.ninodes && s <= NDIRECT && b in Under(f, i, s)
    ensures sb.DataStart() <= b < sb.size && b in f.owner && f.owner[b].i == i
    ensures f.owner[b].s == s || (s == NDIRECT && f.owner[b].s > NDIRECT)
  {
    var x := f.view[i].addrs[s];
    SlotInData(sb, f, i, s);
    hide Owned, Word;
    if b != x {
      InnerMembers(f.disk[x], 0);
      var k: nat :| k < NINDIRECT && Word(f.disk[x], k) == b;
      SlotInData(sb, f, i, NDIRECT + 1 + k);
    }
  }

  lemma OwnedIsUnder(sb: Super, f: Fs, s: nat, b: nat)
    requires Owned(sb, f) && s <= NDIRECT && b in f.owner && f.owner[b].i < |f.view|
    requires f.owner[b].s == s || (s == NDIRECT && f.owner[b].s > NDIRECT)
    ensures b in Under(f, f.owner[b].i, s)
  {
    assert OwnerOk(sb, f, b);
    hide Owned, Word;
    var i := f.owner[b].i;
    if f.owner[b].s != s {
      var k := f.owner[b].s - NDIRECT - 1;
      assert Slot(f.disk, f.view[i], NDIRECT + 1 + k) == b;
      var x := f.view[i].addrs[NDIRECT];
      InnerMembers(f.disk[x], 0);
      assert Word(f.disk[x], k) in Inner(f.disk[x], 0);
    }
  }

  /** Zeroing an address detaches the blocks it leads to; nobody else's file changes. */
  lemma DetachStep(sb: Super, f: Fs, i: nat, s: nat)
    requires Owned(sb, f) && i < sb.ninodes && s <= NDIRECT
    ensures Owned(sb, Detached(f, i, s))
    ensures forall j: nat, bn: nat | j < sb.ninodes && j != i && bn < MAXFILE ::
              FileBlock(f.disk, Detached(f, i, s).view[j], bn) == FileBlock(f.disk, f.view[j], bn)
  {
    hide Used, Slot, Under;
    var f' := Detached(f, i, s);
    forall b | b in Under(f, i, s)
      ensures sb.DataStart() <= b < sb.size && b in f.owner && f.owner[b].i == i
      ensures f.owner[b].s == s || (s == NDIRECT && f.owner[b].s > NDIRECT)
    {
      UnderIsOwned(sb, f, i, s, b);
    }
    forall b | b in f.owner && f.owner[b].i == i && (f.owner[b].s == s || (s == NDIRECT && f.owner[b].s > NDIRECT))
      ensures b in Under(f, i, s)
    {
      OwnedIsUnder(sb, f, s, b);
    }
    forall c: nat | c < sb.size ensures StatusOk(sb, f', c) { assert StatusOk(sb, f, c); }
    forall c | c in f'.owner ensures OwnerOk(sb, f', c) {
      assert OwnerOk(sb, f, c);
      DetachSlots(f.disk, f.view[i], s, f.owner[c].s);
    }
    forall j: nat, t: nat | j < sb.ninodes && t < NSLOT ensures SlotOwned(f', j, t) {
      assert SlotOwned(f, j, t);
      DetachSlots(f.disk, f.view[i], s, t);
    }
  }
}

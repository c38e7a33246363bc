/**
 The block and inode operations of fs.c, in their own form. The disk here is
 the logical disk that bread shows and log_write changes; `logged` collects the
 block numbers one operation has passed to log_write. `None` stands for panic.
 */
module FsOps {
  import opened Basics
  import opened Blocks
  import opened FsLayout
  import opened FsInode

  /** An in-memory inode, locked by the caller of the operations below. */
  class Inode {
    const inum: nat
    var d: Dinode

    constructor (inum: nat, d: Dinode)
      ensures this.inum == inum && this.d == d
    {
      this.inum := inum;
      this.d := d;
    }
  }

  /** Blocks x and y differ in nothing but the words or bytes of one block; files and inodes on disk are untouched. */
  ghost predicate Quiet(sb: Super, f: Fs, f': Fs) {
    && Owned(sb, f) && Owned(sb, f') && f'.loose == f.loose
    && SameFiles(f, f')
    && forall j: nat | j < sb.ninodes :: InodeAt(sb, f'.disk, j) == InodeAt(sb, f.disk, j)
  }

  /** The address of the inode itself that block bn of its file needs. */
  function AddrFor(bn: nat): (s: nat)
    ensures s <= NDIRECT
  {
    if bn < NDIRECT then bn else NDIRECT
  }

  /** What mapping block bn of a file may do to the slots of its inode: fill in empty ones on the way to bn. */
  ghost predicate Mapped(disk: Disk, d: Dinode, disk': Disk, d': Dinode, bn: nat)
    requires d.Valid() && d'.Valid() && bn < MAXFILE
  {
    && d' == d.(addrs := d'.addrs)
    && (d' == d <==> d.addrs[AddrFor(bn)] != 0)
    && (forall t: nat | t < NSLOT && t != DataSlot(bn) && t != NDIRECT :: Slot(disk', d', t) == Slot(disk, d, t))
    && (bn < NDIRECT || d.addrs[NDIRECT] != 0 ==> d'.addrs[NDIRECT] == d.addrs[NDIRECT])
    && (bn >= NDIRECT ==> d'.addrs[NDIRECT] != 0)
    && Slot(disk', d', DataSlot(bn)) != 0
    && (Slot(disk, d, DataSlot(bn)) != 0 ==> Slot(disk', d', DataSlot(bn)) == Slot(disk, d, DataSlot(bn)))
  }

  /** How many blocks mapping block bn allocates: the block itself, and the indirect block on the way. */
  function MapNeed(disk: Disk, d: Dinode, bn: nat): nat
    requires d.Valid()
  {
    if bn >= MAXFILE then 0
    else (if Slot(disk, d, DataSlot(bn)) == 0 then 1 else 0) + if bn >= NDIRECT && d.addrs[NDIRECT] == 0 then 1 else 0
  }

  /** The free-map and indirect blocks that mapping block bn logs, besides the data block. */
  ghost function MapCost(sb: Super, disk: Disk, d: Dinode, disk': Disk, d': Dinode, bn: nat): set<nat>
    requires d.Valid() && d'.Valid() && bn < MAXFILE
  {
    var b := Slot(disk', d', DataSlot(bn));
    if Slot(disk, d, DataSlot(bn)) != 0 then {}
    else if bn < NDIRECT then {sb.BBlock(b)}
    else if d.addrs[NDIRECT] != 0 then {sb.BBlock(b), d'.addrs[NDIRECT]}
    else {sb.BBlock(b), d'.addrs[NDIRECT], sb.BBlock(d'.addrs[NDIRECT])}
  }

  /** Slots lo..hi of inode inum have given their blocks back; all other ownership and all other files stand. */
  ghost predicate Released(sb: Super, f: Fs, f': Fs, inum: nat, lo: nat, hi: nat) {
    && Owned(sb, f) && Owned(sb, f') && f'.loose == f.loose
    && (forall j: nat | j < sb.ninodes && j != inum :: f'.view[j] == f.view[j])
    && (forall b :: b in f'.owner <==> b in f.owner && !(f.owner[b].i == inum && lo <= f.owner[b].s < hi))
    && (forall b | b in f'.owner :: f'.owner[b] == f.owner[b])
    && (forall j: nat, bn: nat | j < sb.ninodes && j != inum && bn < MAXFILE ::
          FileBlock(f'.disk, f'.view[j], bn) == FileBlock(f.disk, f.view[j], bn))
    && (forall j: nat | j < sb.ninodes :: InodeAt(sb, f'.disk, j) == InodeAt(sb, f.disk, j))
  }

  class FileSystem {
    const sb: Super
    var disk: Disk
    var logged: set<nat>
    ghost var view: seq<Dinode>
    ghost var owner: map<nat, Ref>
    ghost var loose: set<nat>

    constructor (sb: Super, disk: Disk, ghost f: Fs)
      requires Owned(sb, f) && f.disk == disk
      ensures Valid() && this.sb == sb && this.disk == disk && Now() == f && logged == {}
    {
      this.sb, this.disk := sb, disk;
      view, owner, loose, logged := f.view, f.owner, f.loose, {};
    }

    ghost function Now(): Fs
      reads this
    {
      Fs(disk, view, owner, loose)
    }

    ghost predicate Valid()
      reads this
    {
      Owned(sb, Now())
    }

    /** ip is the kernel's copy of inode ip.inum. */
    ghost predicate Holds(ip: Inode)
      reads this, ip
    {
      ip.inum < |view| && view[ip.inum] == ip.d && ip.d.Valid()
    }

    method LogWrite(b: nat, data: Block)
      requires b < |disk|
      modifies this`disk, this`logged
      ensures disk == old(disk)[b := data] && logged == old(logged) + {b}
    {
      disk := disk[b := data];
      logged := logged + {b};
    }

    /** The scan of balloc: the lowest free block. */
    method FirstFree() returns (r: Option<nat>)
      requires sb.Valid() && |disk| == sb.size
      ensures r.Some? ==> r.value < sb.size && !Used(sb, disk, r.value) && forall c: nat | c < r.value :: Used(sb, disk, c)
      ensures r.None? ==> forall c: nat | c < sb.size :: Used(sb, disk, c)
    {
      hide BitAt;
      var b := 0;
      while b < sb.size
        invariant b % BPB == 0
        invariant forall c: nat | c < b && c < sb.size :: Used(sb, disk, c)
      {
        var bp := disk[sb.BBlock(b)];
        var bi := 0;
        while bi < BPB && b + bi < sb.size
          invariant 0 <= bi <= BPB
          invariant forall c: nat | c < b + bi && c < sb.size :: Used(sb, disk, c)
        {
          assert sb.BBlock(b + bi) == sb.BBlock(b) && (b + bi) % BPB == bi;
          if !BitAt(bp, bi) {
            return Some(b + bi);
          }
          bi := bi + 1;
        }
        b := b + BPB;
      }
      return None;
    }

    /** balloc: the lowest free block is marked and zeroed, and no file notices. */
    method BAlloc() returns (r: Option<nat>)
      requires Valid()
      modifies this`disk, this`logged, this`loose
      ensures r.Some? ==>
                var b := r.value;
                && b < sb.size && !old(Used(sb, disk, b)) && (forall c: nat | c < b :: old(Used(sb, disk, c)))
                && disk == WithUsed(sb, old(disk), b, true)[b := ZeroBlock]
                && loose == old(loose) + {b} && b !in old(loose) && sb.DataStart() <= b
                && logged == old(logged) + {sb.BBlock(b), b}
                && Valid() && SameFiles(old(Now()), Now())
      ensures r.Some? ==> forall j: nat | j < sb.ninodes :: InodeAt(sb, disk, j) == InodeAt(sb, old(disk), j)
      ensures r.None? ==> disk == old(disk) && forall c: nat | c < sb.size :: Used(sb, disk, c)
      ensures r.None? <==> Room(sb, old(disk)) == 0
      ensures r.Some? ==> Room(sb, disk) == Room(sb, old(disk)) - 1
    {
      hide Owned, Used, InodeAt, SameFiles, Room;
      OwnedSizes(sb, Now());
      NoRoom(sb, disk);
      r := FirstFree();
      if r.Some? {
        var b := r.value;
        AllocStep(sb, Now(), b);
        RoomTaken(sb, disk, b);
        InodeFrame(sb, disk, sb.BBlock(b), PutBit(disk[sb.BBlock(b)], b % BPB, true));
        LogWrite(sb.BBlock(b), PutBit(disk[sb.BBlock(b)], b % BPB, true));
        InodeFrame(sb, disk, b, ZeroBlock);
        LogWrite(b, ZeroBlock);
        loose := loose + {b};
      }
    }

    /** Address s of ip, allocated if it is 0. */
    method EnsureAddr(ip: Inode, s: nat) returns (r: Option<nat>)
      requires Valid() && Holds(ip) && s <= NDIRECT
      modifies this, ip
      ensures r.Some? ==>
                && Quiet(sb, old(Now()), Now()) && Holds(ip) && view == old(view)[ip.inum := ip.d]
                && r.value == ip.d.addrs[s] != 0
                && ip.d == WithAddr(old(ip.d), s, r.value)
                && (forall t: nat | t < NSLOT && t != s :: Slot(disk, ip.d, t) == Slot(old(disk), old(ip.d), t))
                && (old(ip.d).addrs[s] != 0 ==> ip.d == old(ip.d) && disk == old(disk) && logged == old(logged))
                && (old(ip.d).addrs[s] == 0 ==> logged == old(logged) + {sb.BBlock(r.value), r.value})
      ensures r.None? <==> old(ip.d).addrs[s] == 0 && Room(sb, old(disk)) == 0
      ensures r.Some? ==> |disk| == sb.size && Room(sb, disk) == Room(sb, old(disk)) - (if old(ip.d).addrs[s] == 0 then 1 else 0)
    {
      hide Owned, InodeAt, SameFiles, Slot, WithUsed, Room, Used;
      ghost var f := Now();
      OwnedSizes(sb, f);
      var addr := ip.d.addrs[s];
      if addr == 0 {
        r := BAlloc();
        if r.None? { return; }
        addr := r.value;
        ghost var m := Now();
        assert m.loose - {addr} == f.loose;
        AttachStep(sb, m, ip.inum, s, addr);
        AllocKeepsSlots(sb, f, ip.inum, addr);
        ip.d := WithAddr(ip.d, s, addr);
        view := view[ip.inum := ip.d];
        owner := owner[addr := Ref(ip.inum, s)];
        loose := loose - {addr};
        SameFilesTrans(f, m, Now());
      } else {
        QuietRefl(sb, f);
        assert ip.d.addrs == ip.d.addrs[s := addr];
      }
      r := Some(addr);
      assert view == old(view)[ip.inum := ip.d];
    }

    /** The inner half of bmap: entry k of the indirect block, allocated if it is 0. */
    method EnsureInner(ip: Inode, k: nat) returns (r: Option<nat>)
      requires Valid() && Holds(ip) && k < NINDIRECT && ip.d.addrs[NDIRECT] != 0
      modifies this
      ensures r.Some? ==>
                && Quiet(sb, old(Now()), Now()) && view == old(view) && Holds(ip)
                && r.value == Slot(disk, ip.d, NDIRECT + 1 + k) != 0
                && (forall t: nat | t < NSLOT && t != NDIRECT + 1 + k :: Slot(disk, ip.d, t) == Slot(old(disk), ip.d, t))
                && (Slot(old(disk), ip.d, NDIRECT + 1 + k) != 0 ==> disk == old(disk) && logged == old(logged))
                && (Slot(old(disk), ip.d, NDIRECT + 1 + k) == 0 ==>
                      logged == old(logged) + {sb.BBlock(r.value), r.value, ip.d.addrs[NDIRECT]})
      ensures r.None? <==> Slot(old(disk), ip.d, NDIRECT + 1 + k) == 0 && Room(sb, old(disk)) == 0
      ensures r.Some? ==>
                && |disk| == sb.size
                && Room(sb, disk) == Room(sb, old(disk)) - (if Slot(old(disk), ip.d, NDIRECT + 1 + k) == 0 then 1 else 0)
    {
      hide Owned, InodeAt, SameFiles, WithUsed, Word, Room, Used;
      ghost var f := Now();
      OwnedSizes(sb, f);
      var x := ip.d.addrs[NDIRECT];
      SlotInData(sb, f, ip.inum, NDIRECT);
      var a := disk[x];
      var addr := Word(a, k);
      if addr == 0 {
        r := BAlloc();
        if r.None? { return; }
        addr := r.value;
        ghost var m := Now();
        assert m.loose - {addr} == f.loose;
        AllocKeepsSlots(sb, f, ip.inum, addr);
        AllocKeepsBlock(sb, f, x, addr);
        AttachInnerStep(sb, m, ip.inum, k, addr);
        InodeFrame(sb, disk, x, PutWord(a, k, addr));
        RoomFrame(sb, disk, x, PutWord(a, k, addr));
        LogWrite(x, PutWord(a, k, addr));
        owner := owner[addr := Ref(ip.inum, NDIRECT + 1 + k)];
        loose := loose - {addr};
        SameFilesTrans(f, m, Now());
      } else {
        QuietRefl(sb, f);
      }
      r := Some(addr);
    }

    /** bmap: the disk block of block bn of the file, allocated if there is none; no file's contents change. */
    method BMap(ip: Inode, bn: nat) returns (r: Option<nat>)
      requires Valid() && Holds(ip)
      modifies this, ip
      ensures r.None? <==> bn >= MAXFILE || Room(sb, old(disk)) < MapNeed(old(disk), old(ip.d), bn)
      ensures r.Some? ==> |disk| == sb.size && Room(sb, disk) == Room(sb, old(disk)) - MapNeed(old(disk), old(ip.d), bn)
      ensures r.Some? ==>
                && Quiet(sb, old(Now()), Now()) && Holds(ip) && view == old(view)[ip.inum := ip.d]
                && r.value == Slot(disk, ip.d, DataSlot(bn)) && r.value < sb.size
                && Mapped(old(disk), old(ip.d), disk, ip.d, bn)
                && logged == old(logged) + MapCost(sb, old(disk), old(ip.d), disk, ip.d, bn)
                             + (if Slot(old(disk), old(ip.d), DataSlot(bn)) == 0 then {r.value} else {})
                && (Slot(old(disk), old(ip.d), DataSlot(bn)) != 0 ==> disk == old(disk))
    {
      hide Owned, InodeAt, SameFiles, Slot, Mapped, Quiet, Room;
      ghost var f := Now();
      OwnedSizes(sb, f);
      if bn < NDIRECT {
        ZeroAddr(f.disk, f.view[ip.inum], bn);
        r := EnsureAddr(ip, bn);
        if r.Some? {
          QuietOwned(sb, f, Now());
          SlotInData(sb, Now(), ip.inum, bn);
          ZeroAddr(disk, ip.d, bn);
          MappedDirect(f.disk, f.view[ip.inum], disk, ip.d, bn);
        }
        return;
      }
      if bn - NDIRECT < NINDIRECT {
        NoIndirectNoInner(f.disk, f.view[ip.inum], DataSlot(bn));
        r := EnsureAddr(ip, NDIRECT);
        if r.None? { return; }
        ghost var m := Now();
        QuietOwned(sb, f, m);
        r := EnsureInner(ip, bn - NDIRECT);
        if r.Some? {
          QuietOwned(sb, m, Now());
          SlotInData(sb, Now(), ip.inum, DataSlot(bn));
          QuietTrans(sb, f, m, Now());
          MappedInner(f.disk, f.view[ip.inum], m.disk, disk, ip.d, bn);
        }
        return;
      }
      return None;
    }

    /** bfree: refuses, as a panic, only a block that is already free. */
    method BFree(b: nat) returns (ok: bool)
      requires sb.Valid() && |disk| == sb.size && b < sb.size
      modifies this`disk, this`logged
      ensures ok == old(Used(sb, disk, b))
      ensures ok ==> disk == WithUsed(sb, old(disk), b, false) && logged == old(logged) + {sb.BBlock(b)}
      ensures !ok ==> disk == old(disk)
    {
      var bp := disk[sb.BBlock(b)];
      var bi := b % BPB;
      if !BitAt(bp, bi) {
        return false;
      }
      LogWrite(sb.BBlock(b), PutBit(bp, bi, false));
      return true;
    }

    /** The first loop of itrunc: the direct blocks. */
    method TruncDirect(ip: Inode) returns (ok: bool)
      requires Valid() && Holds(ip)
      modifies this, ip
      ensures ok && Holds(ip) && view == old(view)[ip.inum := ip.d]
      ensures Released(sb, old(Now()), Now(), ip.inum, 0, NDIRECT)
      ensures ip.d == old(ip.d).(addrs := ip.d.addrs)
      ensures forall k | 0 <= k < NDIRECT :: ip.d.addrs[k] == 0
      ensures ip.d.addrs[NDIRECT] == old(ip.d).addrs[NDIRECT]
    {
      hide Owned, Released, InodeAt, WithUsed, Used;
      OwnedSizes(sb, Now());
      ReleasedNone(sb, Now(), ip.inum);
      var i := 0;
      while i < NDIRECT
        invariant 0 <= i <= NDIRECT && Holds(ip) && view == old(view)[ip.inum := ip.d] && |view| == sb.ninodes
        invariant Released(sb, old(Now()), Now(), ip.inum, 0, i)
        invariant ip.d == old(ip.d).(addrs := ip.d.addrs)
        invariant forall k | 0 <= k < i :: ip.d.addrs[k] == 0
        invariant forall k | i <= k <= NDIRECT :: ip.d.addrs[k] == old(ip.d).addrs[k]
      {
        ghost var f := Now();
        ReleasedOwned(sb, old(Now()), f, ip.inum, 0, i);
        OwnedSizes(sb, f);
        var b := ip.d.addrs[i];
        if b != 0 {
          SlotInData(sb, f, ip.inum, i);
          ReleaseDirect(sb, f, ip.inum, i);
          var fine := BFree(b);
          if !fine { return false; }
          ip.d := WithAddr(ip.d, i, 0);
          view := view[ip.inum := ip.d];
          owner := owner - {b};
        } else {
          ReleaseNothing(sb, f, ip.inum, i);
        }
        ReleasedTrans(sb, old(Now()), f, Now(), ip.inum, 0, i, i + 1);
        i := i + 1;
      }
      return true;
    }

    /** bfree of a block detached since state g. */
    method FreeOne(b: nat, ghost g: Fs) returns (ok: bool)
      requires Freed(sb, g, Now()) && b in loose && b < sb.size
      modifies this`disk, this`logged, this`loose
      ensures ok && Freed(sb, g, Now()) && loose == old(loose) - {b}
    {
      hide Owned, InodeAt, Used, SameFiles, Slot, Freed, WithUsed;
      ghost var m := Now();
      FreedSizes(sb, g, m);
      FreeStep(sb, m, b);
      ok := BFree(b);
      if !ok { return; }
      loose := loose - {b};
      FreedStep(sb, g, m, b);
    }

    /** The loop of itrunc over the indirect block a, whose address has been detached from state f. */
    method FreeInner(a: Block, ghost f: Fs, ghost i: nat) returns (ok: bool)
      requires Owned(sb, f) && i < sb.ninodes && 0 < f.view[i].addrs[NDIRECT] < sb.size
      requires a == f.disk[f.view[i].addrs[NDIRECT]] && Now() == Detached(f, i, NDIRECT) && Valid()
      modifies this`disk, this`logged, this`loose
      ensures ok && Freed(sb, Detached(f, i, NDIRECT), Now())
      ensures view == old(view) && owner == old(owner) && loose == f.loose + {f.view[i].addrs[NDIRECT]}
    {
      OwnedSizes(sb, f);
      hide Owned, InodeAt, Used, SameFiles, Slot, Freed, Word, Inner, WithUsed, Under;
      ghost var g, x := Now(), f.view[i].addrs[NDIRECT];
      UnderIndirect(sb, f, i);
      FreedRefl(sb, g);
      InnerEnd(a);
      var j := 0;
      while j < NINDIRECT
        invariant 0 <= j <= NINDIRECT
        invariant Freed(sb, g, Now()) && view == g.view && owner == g.owner
        invariant loose == f.loose + {x} + Inner(a, j)
      {
        ghost var m := Now();
        FreedSizes(sb, g, m);
        if Word(a, j) != 0 {
          InnerStep(sb, f, i, j);
          var fine := FreeOne(Word(a, j), g);
          if !fine { return false; }
        } else {
          InnerSkip(a, j);
        }
        j := j + 1;
      }
      return true;
    }

    /** The second half of itrunc: the blocks the indirect block names, then the indirect block itself. */
    method TruncIndirect(ip: Inode) returns (ok: bool)
      requires Valid() && Holds(ip)
      modifies this, ip
      ensures ok && Holds(ip) && view == old(view)[ip.inum := ip.d]
      ensures Released(sb, old(Now()), Now(), ip.inum, NDIRECT, NSLOT)
      ensures ip.d == WithAddr(old(ip.d), NDIRECT, 0)
    {
      hide Owned, Released, InodeAt, Used, SameFiles, Slot;
      ghost var f := Now();
      OwnedSizes(sb, f);
      var x := ip.d.addrs[NDIRECT];
      if x == 0 {
        ReleaseNothing(sb, f, ip.inum, NDIRECT);
        assert ip.d.addrs == ip.d.addrs[NDIRECT := 0];
        assert view == old(view)[ip.inum := ip.d];
        return true;
      }
      SlotInData(sb, f, ip.inum, NDIRECT);
      ZeroAddr(disk, ip.d, NDIRECT);
      var a := disk[x];
      // the kernel clears the address last; detaching it first changes no real state
      ghost var g := Detached(f, ip.inum, NDIRECT);
      DetachStep(sb, f, ip.inum, NDIRECT);
      UnderIndirect(sb, f, ip.inum);
      view, owner, loose := g.view, g.owner, g.loose;
      ok := FreeInner(a, f, ip.inum);
      ghost var m := Now();
      FreedSizes(sb, g, m);
      FreeStep(sb, m, x);
      var fine := BFree(x);
      if !fine { return false; }
      assert x !in f.loose by { LooseUnowned(sb, f, x); }
      loose := loose - {x};
      FreedStep(sb, g, m, x);
      ip.d := WithAddr(ip.d, NDIRECT, 0);
      assert Now() == m.(disk := disk, loose := loose);
      assert view == old(view)[ip.inum := ip.d];
      assert loose == f.loose;
      ReleaseIndirect(sb, f, Now(), ip.inum);
      return true;
    }

    /** iupdate: the inode on disk becomes the one in memory. */
    method IUpdate(ip: Inode)
      requires Valid() && Holds(ip) && Narrow(ip.d)
      modifies this`disk, this`logged
      ensures Valid() && OnDisk(sb, Now(), ip.inum) && SameFiles(old(Now()), Now())
      ensures ip.inum / 8 + sb.inodestart < |disk| && Spells(disk[ip.inum / 8 + sb.inodestart], 64 * (ip.inum % 8), ip.d)
      ensures logged == old(logged) + {sb.IBlock(ip.inum)}
      ensures forall j: nat | j < sb.ninodes && j != ip.inum :: InodeAt(sb, disk, j) == InodeAt(sb, old(disk), j)
      ensures forall s: nat | s < NSLOT :: Slot(disk, ip.d, s) == Slot(old(disk), ip.d, s)
      ensures Room(sb, disk) == Room(sb, old(disk))
    {
      hide Owned, InodeAt, SameFiles, Slot, Room, Spells;
      OwnedSizes(sb, Now());
      NarrowFits(sb, Now(), ip.inum);
      var x := sb.IBlock(ip.inum);
      RoomFrame(sb, disk, x, PutInode(disk[x], ip.inum, ip.d));
      MetaWriteStep(sb, Now(), x, PutInode(disk[x], ip.inum, ip.d));
      UpdatedAt(sb, disk, ip.inum, ip.d);
      LogWrite(x, PutInode(disk[x], ip.inum, ip.d));
      InodeBytes(sb, disk, ip.inum, ip.d);
    }

    /**
     itrunc: exactly the inode's own blocks become free, no panic on the way,
     and the emptied inode is on disk.
     */
    method ITrunc(ip: Inode) returns (ok: bool)
      requires Valid() && Holds(ip) && Narrow(ip.d)
      modifies this, ip
      ensures ok && Valid() && Holds(ip) && loose == old(loose) && view == old(view)[ip.inum := ip.d]
      ensures ip.d == old(ip.d).(addrs := ip.d.addrs, size := 0) && forall k | 0 <= k <= NDIRECT :: ip.d.addrs[k] == 0
      ensures Emptied(sb, old(Now()), Now(), ip.inum) && OnDisk(sb, Now(), ip.inum)
    {
      hide Owned, Released, InodeAt, Used, SameFiles, FileBlock, Emptied;
      ghost var f := Now();
      OwnedSizes(sb, f);
      ok := TruncDirect(ip);
      ghost var g := Now();
      ReleasedOwned(sb, f, g, ip.inum, 0, NDIRECT);
      ok := TruncIndirect(ip);
      ghost var h := Now();
      ReleasedTrans(sb, f, g, h, ip.inum, 0, NDIRECT, NSLOT);
      ReleasedAll(sb, f, h, ip.inum);
      ip.d := ip.d.(size := 0);
      view := view[ip.inum := ip.d];
      SizeIrrelevant(sb, h, ip.inum, 0);
      EmptiedNext(sb, f, h, Now(), ip.inum);
      ghost var e := Now();
      IUpdate(ip);
      EmptiedNext(sb, f, e, Now(), ip.inum);
      assert view == old(view)[ip.inum := ip.d];
    }
  }

  /** Exactly the blocks of inode inum have become free; every other file and every other inode on disk stands. */
  ghost predicate Emptied(sb: Super, f: Fs, f': Fs, inum: nat) {
    && Owned(sb, f) && Owned(sb, f')
    && (forall b: nat | b < sb.size ::
          Used(sb, f'.disk, b) <==> Used(sb, f.disk, b) && !(b in f.owner && f.owner[b].i == inum))
    && (forall j: nat, bn: nat | j < sb.ninodes && j != inum && bn < MAXFILE ::
          FileBlock(f'.disk, f'.view[j], bn) == FileBlock(f.disk, f.view[j], bn))
    && (forall j: nat | j < sb.ninodes && j != inum :: InodeAt(sb, f'.disk, j) == InodeAt(sb, f.disk, j))
  }

  /** The fields iupdate stores in shorts and uints. */
  predicate Narrow(d: Dinode) {
    d.typ < U16 && d.major < U16 && d.minor < U16 && d.nlink < U16 && d.size < U32
  }

  lemma NarrowFits(sb: Super, f: Fs, i: nat)
    requires Owned(sb, f) && i < sb.ninodes && Narrow(f.view[i])
    ensures Fits(f.view[i])
  {
    hide Used, Slot, StatusOk, SlotOwned, OwnerOk;
    forall k | 0 <= k < |f.view[i].addrs| ensures f.view[i].addrs[k] < U32 {
      ZeroAddr(f.disk, f.view[i], k);
      SlotInData(sb, f, i, k);
    }
  }

  /** From f to f' only loose blocks were freed. */
  ghost predicate Freed(sb: Super, f: Fs, f': Fs) {
    && Owned(sb, f) && Owned(sb, f') && f'.view == f.view && f'.owner == f.owner && SameFiles(f, f')
    && forall j: nat | j < sb.ninodes :: InodeAt(sb, f'.disk, j) == InodeAt(sb, f.disk, j)
  }

  lemma FreedRefl(sb: Super, f: Fs)
    requires Owned(sb, f)
    ensures Freed(sb, f, f)
  {
  }

  lemma FreedSizes(sb: Super, f: Fs, f': Fs)
    requires Freed(sb, f, f')
    ensures Owned(sb, f') && sb.Valid() && |f'.disk| == sb.size && |f'.view| == sb.ninodes
  {
  }

  lemma FreedStep(sb: Super, g: Fs, m: Fs, b: nat)
    requires Freed(sb, g, m) && b in m.loose
    ensures b < sb.size && Freed(sb, g, m.(disk := WithUsed(sb, m.disk, b, false), loose := m.loose - {b}))
  {
    hide Used, Slot, SlotOwned, OwnerOk, StatusOk, InodeAt, WithUsed, SameFiles;
    FreeStep(sb, m, b);
    var h := m.(disk := WithUsed(sb, m.disk, b, false), loose := m.loose - {b});
    SameFilesTrans(g, m, h);
    WithUsedInodes(sb, m.disk, b, false);
  }

  lemma LooseUnowned(sb: Super, f: Fs, b: nat)
    requires Owned(sb, f) && b in f.owner
    ensures b !in f.loose
  {
  }

  lemma UnderIndirect(sb: Super, f: Fs, i: nat)
    requires Owned(sb, f) && i < sb.ninodes && f.view[i].addrs[NDIRECT] != 0
    ensures f.view[i].addrs[NDIRECT] < sb.size
    ensures Under(f, i, NDIRECT) == {f.view[i].addrs[NDIRECT]} + Inner(f.disk[f.view[i].addrs[NDIRECT]], 0)
  {
    hide Used, SlotOwned, OwnerOk, StatusOk, Slot;
    ZeroAddr(f.disk, f.view[i], NDIRECT);
    SlotInData(sb, f, i, NDIRECT);
  }

  /** Entry j of the indirect block names a block that no later entry, no address and no other operation names. */
  lemma InnerStep(sb: Super, f: Fs, i: nat, j: nat)
    requires Owned(sb, f) && i < sb.ninodes && j < NINDIRECT && 0 < f.view[i].addrs[NDIRECT] < sb.size
    requires Word(f.disk[f.view[i].addrs[NDIRECT]], j) != 0
    ensures var x := f.view[i].addrs[NDIRECT];
            var a := f.disk[x];
            && Word(a, j) < sb.size && Word(a, j) in f.loose + {x} + Inner(a, j)
            && f.loose + {x} + Inner(a, j) - {Word(a, j)} == f.loose + {x} + Inner(a, j + 1)
  {
    hide Used, SlotOwned, OwnerOk, StatusOk, Word;
    var x := f.view[i].addrs[NDIRECT];
    var a := f.disk[x];
    SlotInData(sb, f, i, NDIRECT + 1 + j);
    SlotInData(sb, f, i, NDIRECT);
    LooseUnowned(sb, f, Word(a, j));
    if Word(a, j) in Inner(a, j + 1) {
      InnerMembers(a, j + 1);
      var k: nat :| j + 1 <= k < NINDIRECT && Word(a, k) == Word(a, j);
      SlotInData(sb, f, i, NDIRECT + 1 + k);
      assert false;
    }
    assert Inner(a, j) == Inner(a, j + 1) + {Word(a, j)};
  }

  lemma InnerSkip(a: Block, j: nat)
    requires j < NINDIRECT && Word(a, j) == 0
    ensures Inner(a, j) == Inner(a, j + 1)
  {
  }

  lemma InnerEnd(a: Block)
    ensures Inner(a, NINDIRECT) == {}
  {
  }

  lemma ReleaseIndirect(sb: Super, f: Fs, f': Fs, inum: nat)
    requires Owned(sb, f) && inum < sb.ninodes && Freed(sb, Detached(f, inum, NDIRECT), f') && f'.loose == f.loose
    ensures Released(sb, f, f', inum, NDIRECT, NSLOT)
  {
    hide Used, Slot, SlotOwned, OwnerOk, StatusOk, Under, InodeAt;
    DetachStep(sb, f, inum, NDIRECT);
    var g := Detached(f, inum, NDIRECT);
    forall b | b in Under(f, inum, NDIRECT)
      ensures b in f.owner && f.owner[b].i == inum && NDIRECT <= f.owner[b].s < NSLOT
    {
      UnderIsOwned(sb, f, inum, NDIRECT, b);
      OwnerRange(sb, f, b);
    }
    forall b | b in f.owner && f.owner[b].i == inum && NDIRECT <= f.owner[b].s
      ensures b in Under(f, inum, NDIRECT)
    {
      OwnedIsUnder(sb, f, NDIRECT, b);
    }
    forall j: nat, bn: nat | j < sb.ninodes && j != inum && bn < MAXFILE
      ensures FileBlock(f'.disk, f'.view[j], bn) == FileBlock(f.disk, f.view[j], bn)
    {
      assert FileBlock(f'.disk, f'.view[j], bn) == FileBlock(g.disk, g.view[j], bn);
    }
  }

  lemma OwnerRange(sb: Super, f: Fs, b: nat)
    requires Owned(sb, f) && b in f.owner
    ensures f.owner[b].i < sb.ninodes && f.owner[b].s < NSLOT && sb.DataStart() <= b < sb.size
  {
    hide Slot;
    assert OwnerOk(sb, f, b);
  }

  /** With all its slots released, exactly the inode's own blocks have become free. */
  lemma ReleasedAll(sb: Super, f: Fs, f': Fs, inum: nat)
    requires Released(sb, f, f', inum, 0, NSLOT)
    ensures Emptied(sb, f, f', inum) && Owned(sb, f') && f'.loose == f.loose
  {
    hide Used, Slot, SlotOwned, InodeAt, FileBlock;
    forall b: nat | b < sb.size
      ensures Used(sb, f'.disk, b) <==> Used(sb, f.disk, b) && !(b in f.owner && f.owner[b].i == inum)
    {
      assert StatusOk(sb, f, b) && StatusOk(sb, f', b);
      if b in f.owner { OwnerRange(sb, f, b); LooseUnowned(sb, f, b); }
    }
  }

  /** The size field plays no part in ownership. */
  lemma SizeIrrelevant(sb: Super, f: Fs, i: nat, size: nat)
    requires Owned(sb, f) && i < sb.ninodes
    ensures Owned(sb, f.(view := f.view[i := f.view[i].(size := size)]))
    ensures SameFiles(f, f.(view := f.view[i := f.view[i].(size := size)]))
  {
    hide Used, Word;
    var f' := f.(view := f.view[i := f.view[i].(size := size)]);
    forall b: nat | b < sb.size ensures StatusOk(sb, f', b) { assert StatusOk(sb, f, b); }
    forall b | b in f'.owner ensures OwnerOk(sb, f', b) { assert OwnerOk(sb, f, b); }
    forall j: nat, s: nat | j < sb.ninodes && s < NSLOT ensures SlotOwned(f', j, s) { assert SlotOwned(f, j, s); }
  }

  /** A change that neither moves ownership nor touches files or other inodes leaves the emptied state as it is. */
  lemma EmptiedNext(sb: Super, f: Fs, g: Fs, h: Fs, inum: nat)
    requires Emptied(sb, f, g, inum) && Owned(sb, h) && h.owner == g.owner && h.loose == g.loose && |h.view| == |g.view|
    requires SameFiles(g, h)
    requires forall j: nat | j < sb.ninodes && j != inum :: InodeAt(sb, h.disk, j) == InodeAt(sb, g.disk, j)
    ensures Emptied(sb, f, h, inum)
  {
    hide Used, Slot, SlotOwned, OwnerOk, FileBlock, InodeAt;
    forall b: nat | b < sb.size ensures Used(sb, h.disk, b) == Used(sb, g.disk, b) {
      assert StatusOk(sb, h, b) && StatusOk(sb, g, b);
    }
    forall j: nat, bn: nat | j < sb.ninodes && j != inum && bn < MAXFILE
      ensures FileBlock(h.disk, h.view[j], bn) == FileBlock(f.disk, f.view[j], bn)
    {
      assert FileBlock(g.disk, g.view[j], bn) == FileBlock(f.disk, f.view[j], bn);
    }
  }

  lemma ReleasedNone(sb: Super, f: Fs, inum: nat)
    requires Owned(sb, f)
    ensures Released(sb, f, f, inum, 0, 0)
  {
  }

  lemma ReleasedOwned(sb: Super, f: Fs, f': Fs, inum: nat, lo: nat, hi: nat)
    requires Released(sb, f, f', inum, lo, hi)
    ensures Owned(sb, f) && Owned(sb, f') && f'.loose == f.loose
    ensures forall j: nat | j < sb.ninodes :: InodeAt(sb, f'.disk, j) == InodeAt(sb, f.disk, j)
  {
  }

  lemma ReleasedTrans(sb: Super, f: Fs, g: Fs, h: Fs, inum: nat, lo: nat, mid: nat, hi: nat)
    requires Released(sb, f, g, inum, lo, mid) && Released(sb, g, h, inum, mid, hi) && lo <= mid <= hi
    ensures Released(sb, f, h, inum, lo, hi)
  {
    hide Owned, FileBlock, InodeAt;
    OwnedSizes(sb, f);
    OwnedSizes(sb, g);
    OwnedSizes(sb, h);
    forall j: nat, bn: nat | j < sb.ninodes && j != inum && bn < MAXFILE
      ensures FileBlock(h.disk, h.view[j], bn) == FileBlock(f.disk, f.view[j], bn)
    {
      assert FileBlock(g.disk, g.view[j], bn) == FileBlock(f.disk, f.view[j], bn);
    }
  }

  /** An empty address has nothing to release. */
  lemma ReleaseNothing(sb: Super, f: Fs, inum: nat, s: nat)
    requires Owned(sb, f) && inum < sb.ninodes && s <= NDIRECT && f.view[inum].addrs[s] == 0
    ensures Released(sb, f, f, inum, s, if s < NDIRECT then s + 1 else NSLOT)
  {
    hide Used, Slot, StatusOk, SlotOwned;
    forall b | b in f.owner && f.owner[b].i == inum
      ensures !(s <= f.owner[b].s < if s < NDIRECT then s + 1 else NSLOT)
    {
      assert OwnerOk(sb, f, b);
      ZeroAddr(f.disk, f.view[inum], s);
      if f.owner[b].s > NDIRECT { NoIndirectNoInner(f.disk, f.view[inum], f.owner[b].s); }
    }
  }

  /** bfree and zeroing of one direct address. */
  lemma ReleaseDirect(sb: Super, f: Fs, inum: nat, s: nat)
    requires Owned(sb, f) && inum < sb.ninodes && s < NDIRECT && f.view[inum].addrs[s] != 0
    ensures f.view[inum].addrs[s] < sb.size && Used(sb, f.disk, f.view[inum].addrs[s])
    ensures var b := f.view[inum].addrs[s];
            Released(sb, f, Fs(WithUsed(sb, f.disk, b, false), f.view[inum := WithAddr(f.view[inum], s, 0)], f.owner - {b}, f.loose), inum, s, s + 1)
  {
    hide Used, Slot, InodeAt, WithUsed, StatusOk, SlotOwned;
    var b := f.view[inum].addrs[s];
    SlotInData(sb, f, inum, s);
    ZeroAddr(f.disk, f.view[inum], s);
    var g := Detached(f, inum, s);
    DetachStep(sb, f, inum, s);
    assert Under(f, inum, s) == {b};
    FreeStep(sb, g, b);
    assert StatusOk(sb, f, b);
    var h := Fs(WithUsed(sb, f.disk, b, false), f.view[inum := WithAddr(f.view[inum], s, 0)], f.owner - {b}, f.loose);
    assert g.loose - {b} == f.loose;
    assert h == g.(disk := WithUsed(sb, g.disk, b, false), loose := g.loose - {b});
    WithUsedInodes(sb, f.disk, b, false);
    forall c | c in f.owner && f.owner[c] == Ref(inum, s) ensures c == b {
      assert OwnerOk(sb, f, c);
    }
  }

  lemma WithUsedInodes(sb: Super, disk: Disk, b: nat, v: bool)
    requires sb.Valid() && |disk| == sb.size && b < sb.size
    ensures forall j: nat | j < sb.ninodes :: InodeAt(sb, WithUsed(sb, disk, b, v), j) == InodeAt(sb, disk, j)
  {
    hide InodeAt, PutBit;
    InodeFrame(sb, disk, sb.BBlock(b), PutBit(disk[sb.BBlock(b)], b % BPB, v));
  }

  lemma QuietTrans(sb: Super, f: Fs, g: Fs, h: Fs)
    requires Quiet(sb, f, g) && Quiet(sb, g, h)
    ensures Quiet(sb, f, h)
  {
    hide SameFiles;
    SameFilesTrans(f, g, h);
  }

  lemma MappedDirect(disk: Disk, d: Dinode, disk': Disk, d': Dinode, bn: nat)
    requires d.Valid() && bn < NDIRECT && d'.Valid() && d'.addrs[bn] != 0 && d' == WithAddr(d, bn, d'.addrs[bn])
    requires forall t: nat | t < NSLOT && t != bn :: Slot(disk', d', t) == Slot(disk, d, t)
    requires d.addrs[bn] != 0 ==> disk' == disk
    requires d.addrs[bn] != 0 ==> d'.addrs[bn] == d.addrs[bn]
    ensures Mapped(disk, d, disk', d', bn)
  {
    assert d.addrs[bn] != 0 ==> d.addrs[bn := d.addrs[bn]] == d.addrs;
  }

  lemma MappedInner(disk: Disk, d: Dinode, mid: Disk, disk': Disk, d': Dinode, bn: nat)
    requires d.Valid() && NDIRECT <= bn < MAXFILE && d'.Valid()
    requires d'.addrs[NDIRECT] != 0 && d' == WithAddr(d, NDIRECT, d'.addrs[NDIRECT])
    requires d.addrs[NDIRECT] != 0 ==> d'.addrs[NDIRECT] == d.addrs[NDIRECT] && mid == disk
    requires forall t: nat | t < NSLOT && t != NDIRECT :: Slot(mid, d', t) == Slot(disk, d, t)
    requires forall t: nat | t < NSLOT && t != DataSlot(bn) :: Slot(disk', d', t) == Slot(mid, d', t)
    requires Slot(disk', d', DataSlot(bn)) != 0
    requires Slot(mid, d', DataSlot(bn)) != 0 ==> disk' == mid
    ensures Mapped(disk, d, disk', d', bn)
  {
    hide Slot;
    assert d.addrs[NDIRECT] != 0 ==> d.addrs[NDIRECT := d.addrs[NDIRECT]] == d.addrs;
  }

  lemma NoIndirectNoInner(disk: Disk, d: Dinode, t: nat)
    requires d.Valid() && NDIRECT < t < NSLOT
    ensures d.addrs[NDIRECT] == 0 ==> Slot(disk, d, t) == 0
  {
  }

  lemma QuietOwned(sb: Super, f: Fs, g: Fs)
    requires Quiet(sb, f, g)
    ensures Owned(sb, g) && g.loose == f.loose
  {
  }

  lemma AllocKeepsBlock(sb: Super, f: Fs, x: nat, b: nat)
    requires Owned(sb, f) && b < sb.size && !Used(sb, f.disk, b) && x in f.owner
    ensures x < sb.size && WithUsed(sb, f.disk, b, true)[b := ZeroBlock][x] == f.disk[x]
  {
    hide Used, Slot, SlotOwned;
    assert StatusOk(sb, f, b) && OwnerOk(sb, f, x);
  }

  lemma QuietRefl(sb: Super, f: Fs)
    requires Owned(sb, f)
    ensures Quiet(sb, f, f)
  {
  }

  lemma OwnedSizes(sb: Super, f: Fs)
    requires Owned(sb, f)
    ensures sb.Valid() && |f.disk| == sb.size && |f.view| == sb.ninodes
    ensures forall i | 0 <= i < |f.view| :: f.view[i].Valid()
    ensures forall b | b in f.loose :: sb.DataStart() <= b < sb.size
  {
  }

  lemma AllocKeepsSlots(sb: Super, f: Fs, i: nat, b: nat)
    requires Owned(sb, f) && i < sb.ninodes && b < sb.size && !Used(sb, f.disk, b)
    ensures forall t: nat | t < NSLOT ::
              Slot(WithUsed(sb, f.disk, b, true)[b := ZeroBlock], f.view[i], t) == Slot(f.disk, f.view[i], t)
  {
    hide Slot, Used, SlotOwned;
    assert StatusOk(sb, f, b);
    OwnedStatus(sb, f, b, true);
    var m := f.(disk := WithUsed(sb, f.disk, b, true), loose := f.loose + {b});
    NotIndirectIf(sb, m, b);
    SlotFrame(m.disk, b, ZeroBlock, f.view[i]);
  }

  lemma SameFilesTrans(f: Fs, g: Fs, h: Fs)
    requires |f.view| == |g.view| == |h.view|
    requires forall i | 0 <= i < |f.view| :: f.view[i].Valid() && g.view[i].Valid() && h.view[i].Valid()
    requires SameFiles(f, g) && SameFiles(g, h)
    ensures SameFiles(f, h)
  {
    hide FileBlock;
    forall i: nat, bn: nat | i < |f.view| && bn < MAXFILE
      ensures FileBlock(h.disk, h.view[i], bn) == FileBlock(f.disk, f.view[i], bn)
    {
      assert FileBlock(g.disk, g.view[i], bn) == FileBlock(f.disk, f.view[i], bn);
    }
  }
}

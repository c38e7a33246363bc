/**
 The block-writing routines of log.c in their own form: loops over the header
 entries, one disk write at a time. The ghost `trace` records the disk after
 every single write, so a contract about the trace is a contract about a crash
 at any point.
 */
module Log {
  import opened Basics
  import opened Blocks
  import opened LogDisk
  import LogProof

  type Cache = map<nat, Block>

  /** Sizes fit, and every cached block that the log has not pinned agrees with the disk. */
  predicate Sound(l: Layout, d: Disk, cache: Cache, lh: seq<nat>) {
    && l.Valid() && WellFormed(l, d) && Installable(l, lh)
    && forall b | b in cache && b !in lh :: b < l.size && cache[b] == d[b]
  }

  /** What a reader of b is given. */
  function Seen(d: Disk, cache: Cache, b: nat): Block
    requires b < |d|
  {
    if b in cache then cache[b] else d[b]
  }

  function Logical(l: Layout, d: Disk, cache: Cache): map<nat, Block>
    requires |d| == l.size
  {
    map b: nat | 0 <= b < l.size && l.Home(b) :: Seen(d, cache, b)
  }

  /** The first i pinned blocks have their copies in the log. */
  predicate CopiedTo(l: Layout, d: Disk, cache: Cache, lh: seq<nat>, i: nat)
    requires l.Valid() && |d| == l.size && Installable(l, lh) && i <= |lh|
  {
    forall k: nat | k < i :: LogCopy(l, d, k) == Seen(d, cache, lh[k])
  }

  /** Entries from..to of the trace are disks that all recover to c. */
  ghost predicate AllRecover(l: Layout, trace: seq<Disk>, from: nat, to: nat, c: map<nat, Block>)
    requires from <= to <= |trace|
  {
    forall t: nat | from <= t < to :: WellFormed(l, trace[t]) && Durable(l, trace[t]) == c
  }

  /** Caching what is there and writing a block outside the home area shows no reader anything new. */
  lemma LogWriteUnseen(l: Layout, d: Disk, cache: Cache, h: nat, t: nat, x: Block)
    requires |d| == l.size && h < l.size && x == Seen(d, cache, h) && t < l.size && l.InLog(t)
    ensures Logical(l, d[t := x], cache[h := x][t := x]) == Logical(l, d, cache)
  {
  }

  /** One turn of write_log. */
  lemma WriteLogTurn(l: Layout, d: Disk, cache: Cache, lh: seq<nat>, i: nat, d': Disk, cache': Cache)
    requires Sound(l, d, cache, lh) && DecodeHead(d[l.start]) == [] && i < |lh| && CopiedTo(l, d, cache, lh, i)
    requires d' == d[l.start + 1 + i := Seen(d, cache, lh[i])]
    requires cache' == cache[lh[i] := Seen(d, cache, lh[i])][l.start + 1 + i := Seen(d, cache, lh[i])]
    ensures Sound(l, d', cache', lh) && DecodeHead(d'[l.start]) == [] && CopiedTo(l, d', cache', lh, i + 1)
    ensures Durable(l, d') == Durable(l, d) && Logical(l, d', cache') == Logical(l, d, cache)
  {
    hide DecodeHead, Distinct, Logical;
    var t, x := l.start + 1 + i, Seen(d, cache, lh[i]);
    LogProof.LogBlockWrite(l, d, i, x);
    assert l.InLog(t) && l.Home(lh[i]);
    DurableSame(l, d, d', []);
    LogWriteUnseen(l, d, cache, lh[i], t, x);
    forall k: nat | k < i ensures LogCopy(l, d', k) == Seen(d', cache', lh[k]) {
      assert l.Home(lh[k]) && LogCopy(l, d, k) == Seen(d, cache, lh[k]);
    }
  }

  /** The header write: all at once, the disk recovers to what the cache shows. */
  lemma CommitTurn(l: Layout, d: Disk, cache: Cache, lh: seq<nat>, h: Block)
    requires Sound(l, d, cache, lh) && CopiedTo(l, d, cache, lh, |lh|)
    requires Word(h, 0) <= LOGSIZE && DecodeHead(h) == lh
    ensures var d', cache' := d[l.start := h], cache[l.start := h];
            && Sound(l, d', cache', lh)
            && Durable(l, d') == Logical(l, d, cache) == Logical(l, d', cache')
  {
    hide DecodeHead, Distinct;
    var d', cache' := d[l.start := h], cache[l.start := h];
    assert l.InLog(l.start);
    forall b: nat | l.Home(b) ensures Durable(l, d')[b] == Seen(d, cache, b) == Seen(d', cache', b) {
      if b in lh {
        var k := IndexOf(lh, b);
        assert LogCopy(l, d, k) == Seen(d, cache, lh[k]);
      }
    }
  }

  /** One turn of install_trans. */
  lemma InstallTurn(l: Layout, d: Disk, cache: Cache, lh: seq<nat>, i: nat, d': Disk, cache': Cache)
    requires Sound(l, d, cache, lh) && DecodeHead(d[l.start]) == lh && i < |lh|
    requires AllHome(l, d, cache, lh, i)
    requires d' == d[lh[i] := LogCopy(l, d, i)]
    requires cache' == cache[l.start + 1 + i := LogCopy(l, d, i)][lh[i] := LogCopy(l, d, i)]
    ensures Sound(l, d', cache', lh) && DecodeHead(d'[l.start]) == lh
    ensures AllHome(l, d', cache', lh, i + 1)
    ensures Durable(l, d') == Durable(l, d)
  {
    LogProof.InstallKeepsDurable(l, d, lh, i);
    assert l.InLog(l.start + 1 + i) && l.Home(lh[i]);
  }

  lemma InstalledNext(l: Layout, d: Disk, lh: seq<nat>, i: nat)
    requires l.Valid() && |d| == l.size && Installable(l, lh) && i <= |lh|
    ensures Installed(l, d, lh, 0) == d
    ensures i < |lh| ==>
              var p := Installed(l, d, lh, i);
              Installed(l, d, lh, i + 1) == p[lh[i] := LogCopy(l, p, i)]
  {
  }

  /** Every entry has reached its home block. */
  predicate AllHome(l: Layout, d: Disk, cache: Cache, lh: seq<nat>, i: nat)
    requires l.Valid() && |d| == l.size && Installable(l, lh) && i <= |lh|
  {
    forall k: nat | k < i :: d[lh[k]] == LogCopy(l, d, k) && Seen(d, cache, lh[k]) == d[lh[k]]
  }

  /** The header is cleared only when every entry is home, so nothing durable changes. */
  lemma EraseTurn(l: Layout, d: Disk, cache: Cache, lh: seq<nat>, h: Block)
    requires Sound(l, d, cache, lh) && DecodeHead(d[l.start]) == lh && AllHome(l, d, cache, lh, |lh|)
    requires Word(h, 0) <= LOGSIZE && DecodeHead(h) == []
    ensures var d', cache' := d[l.start := h], cache[l.start := h];
            && Sound(l, d', cache', [])
            && Durable(l, d') == Durable(l, d) == HomeOf(l, d') == Logical(l, d', cache')
  {
    hide DecodeHead;
    var d', cache' := d[l.start := h], cache[l.start := h];
    assert l.InLog(l.start);
    forall b | b in cache ensures b < l.size && cache[b] == d[b] {
      if b in lh {
        var k := IndexOf(lh, b);
        assert d[lh[k]] == LogCopy(l, d, k);
      }
    }
    EmptyLog(l, d', cache');
    forall b: nat | l.Home(b) ensures Durable(l, d)[b] == HomeOf(l, d')[b] {
      if b in lh {
        var k := IndexOf(lh, b);
        assert d[lh[k]] == LogCopy(l, d, k);
      }
    }
    assert HomeOf(l, d') == Durable(l, d);
  }

  lemma AllRecoverMore(l: Layout, trace: seq<Disk>, from: nat, c: map<nat, Block>, d: Disk)
    requires from <= |trace| && AllRecover(l, trace, from, |trace|, c)
    requires WellFormed(l, d) && Durable(l, d) == c
    ensures AllRecover(l, trace + [d], from, |trace| + 1, c)
  {
  }

  lemma SoundSizes(l: Layout, d: Disk, cache: Cache, lh: seq<nat>)
    requires Sound(l, d, cache, lh)
    ensures l.Valid() && WellFormed(l, d) && Installable(l, lh) && AllHome(l, d, cache, lh, 0)
  {
  }

  /** A pinned block may differ from the disk. */
  lemma PinnedSound(l: Layout, d: Disk, cache: Cache, lh: seq<nat>, b: nat)
    requires Sound(l, d, cache - {b}, lh) && l.Home(b) && |lh| < LOGSIZE && |lh| + 1 < l.nlog
    ensures Sound(l, d, cache, if b in lh then lh else lh + [b])
  {
    var lh' := if b in lh then lh else lh + [b];
    assert b in lh' && forall c | c in lh :: c in lh';
    assert Distinct(lh');
    forall c | c in cache && c !in lh' ensures c < l.size && cache[c] == d[c] {
      assert c in cache - {b};
    }
  }

  class Journal {
    const l: Layout
    var disk: Disk
    var cache: Cache
    var lh: seq<nat>
    ghost var trace: seq<Disk>

    constructor (l: Layout, disk: Disk)
      requires l.Valid() && WellFormed(l, disk)
      ensures Sound(this.l, this.disk, cache, lh)
      ensures this.l == l && this.disk == disk && cache == map[] && lh == [] && trace == []
    {
      this.l := l;
      this.disk := disk;
      cache, lh, trace := map[], [], [];
    }

    method Bread(b: nat) returns (data: Block)
      requires b < |disk|
      modifies this`cache
      ensures data == Seen(disk, old(cache), b) && cache == old(cache)[b := data]
    {
      if b !in cache {
        cache := cache[b := disk[b]];
      }
      data := cache[b];
    }

    method Bwrite(b: nat, data: Block)
      requires b < |disk|
      modifies this`cache, this`disk, this`trace
      ensures disk == old(disk)[b := data] && cache == old(cache)[b := data]
      ensures trace == old(trace) + [disk]
    {
      cache := cache[b := data];
      disk := disk[b := data];
      trace := trace + [disk];
    }

    /**
     log_write, for a cached block the caller has changed: the block is pinned,
     once however often it is logged, and the disk need not agree with it until
     the commit. Its panics are the two space checks and the call outside a
     transaction.
     */
    method LogWrite(b: nat, outstanding: nat) returns (ok: bool)
      requires b in cache && l.Home(b) && Sound(l, disk, cache - {b}, lh)
      modifies this`lh
      ensures ok <==> |old(lh)| < LOGSIZE && |old(lh)| < l.nlog - 1 && outstanding >= 1
      ensures ok ==> Sound(l, disk, cache, lh) && lh == if b in old(lh) then old(lh) else old(lh) + [b]
      ensures !ok ==> lh == old(lh)
    {
      if |lh| >= LOGSIZE || |lh| >= l.nlog - 1 {
        return false;
      }
      if outstanding < 1 {
        return false;
      }
      var i := 0;
      while i < |lh| && lh[i] != b
        invariant i <= |lh| && lh == old(lh) && forall k | 0 <= k < i :: lh[k] != b
      {
        i := i + 1;
      }
      PinnedSound(l, disk, cache, lh, b);
      lh := if i == |lh| then lh + [b] else lh[i := b];
      assert lh == if b in old(lh) then old(lh) else old(lh) + [b];
      hide Sound;
      return true;
    }

    /** Copy the pinned blocks into the log: nothing durable changes at any of its writes. */
    method WriteLog()
      requires Sound(l, disk, cache, lh) && DecodeHead(disk[l.start]) == []
      modifies this`cache, this`disk, this`trace
      ensures Sound(l, disk, cache, lh) && DecodeHead(disk[l.start]) == [] && CopiedTo(l, disk, cache, lh, |lh|)
      ensures forall k: nat | k < |lh| :: disk[l.start + 1 + k] == Seen(disk, cache, lh[k])
      ensures Durable(l, disk) == old(Durable(l, disk)) && Logical(l, disk, cache) == old(Logical(l, disk, cache))
      ensures |trace| == |old(trace)| + |lh|
      ensures AllRecover(l, trace, |old(trace)|, |trace|, old(Durable(l, disk)))
    {
      var tail := 0;
      while tail < |lh|
        invariant 0 <= tail <= |lh|
        invariant Sound(l, disk, cache, lh) && DecodeHead(disk[l.start]) == [] && CopiedTo(l, disk, cache, lh, tail)
        invariant Durable(l, disk) == old(Durable(l, disk))
        invariant Logical(l, disk, cache) == old(Logical(l, disk, cache))
        invariant |trace| == |old(trace)| + tail
        invariant AllRecover(l, trace, |old(trace)|, |trace|, old(Durable(l, disk)))
      {
        ghost var d: Disk, c: Cache := disk, cache;
        var to := Bread(l.start + tail + 1);
        var from := Bread(lh[tail]);
        assert l.InLog(l.start + tail + 1) && l.Home(lh[tail]);
        Bwrite(l.start + tail + 1, from);
        ghost var t: nat := l.start + 1 + tail;
        assert cache == c[lh[tail] := from][t := from];
        WriteLogTurn(l, d, c, lh, tail, disk, cache);
        tail := tail + 1;
      }
    }

    /** Write the in-memory header over the cached header block. */
    method WriteHead()
      requires l.start < |disk| && |lh| <= LOGSIZE && forall k | 0 <= k < |lh| :: lh[k] < U32
      modifies this`cache, this`disk, this`trace
      ensures disk == old(disk)[l.start := EncodeHead(Seen(old(disk), old(cache), l.start), lh)] && Heads(disk[l.start], lh)
      ensures cache == old(cache)[l.start := disk[l.start]] && trace == old(trace) + [disk]
    {
      var buf := Bread(l.start);
      ghost var target := EncodeHead(buf, lh);
      buf := PutWord(buf, 0, |lh|);
      var i := 0;
      while i < |lh|
        invariant 0 <= i <= |lh| && PutEntries(buf, lh, i) == target
      {
        buf := PutWord(buf, 1 + i, lh[i]);
        i := i + 1;
      }
      Bwrite(l.start, buf);
      HeadWritten(Seen(old(disk), old(cache), l.start), lh);
    }

    /** Read the on-disk header into memory. */
    method ReadHead()
      requires l.start < |disk| && Word(Seen(disk, cache, l.start), 0) <= LOGSIZE
      modifies this`cache, this`lh
      ensures lh == DecodeHead(Seen(disk, old(cache), l.start)) && Heads(Seen(disk, old(cache), l.start), lh)
      ensures cache == old(cache)[l.start := Seen(disk, old(cache), l.start)]
    {
      hide Word;
      var buf := Bread(l.start);
      lh := [];
      var n := Word(buf, 0);
      while |lh| < n
        invariant |lh| <= n && lh + ReadEntries(buf, |lh|, n) == DecodeHead(buf)
        invariant cache == old(cache)[l.start := buf]
        decreases n - |lh|
      {
        assert lh + ([Word(buf, 1 + |lh|)] + ReadEntries(buf, |lh| + 1, n)) ==
               (lh + [Word(buf, 1 + |lh|)]) + ReadEntries(buf, |lh| + 1, n);
        lh := lh + [Word(buf, 1 + |lh|)];
      }
      HeadRead(buf);
    }

    /** One turn of install_trans. */
    method InstallOne(tail: nat)
      requires Sound(l, disk, cache, lh) && DecodeHead(disk[l.start]) == lh && tail < |lh| && AllHome(l, disk, cache, lh, tail)
      modifies this`cache, this`disk, this`trace
      ensures Sound(l, disk, cache, lh) && DecodeHead(disk[l.start]) == lh && AllHome(l, disk, cache, lh, tail + 1)
      ensures disk == old(disk)[lh[tail] := LogCopy(l, old(disk), tail)] && trace == old(trace) + [disk]
      ensures Durable(l, disk) == old(Durable(l, disk))
    {
      hide Durable, DecodeHead, Distinct, AllHome;
      ghost var d: Disk, c: Cache := disk, cache;
      assert l.InLog(l.start + tail + 1) && l.Home(lh[tail]);
      var lbuf := Bread(l.start + tail + 1);
      var dbuf := Bread(lh[tail]);
      Bwrite(lh[tail], lbuf);
      ghost var t: nat := l.start + 1 + tail;
      assert cache == c[t := lbuf][lh[tail] := lbuf];
      InstallTurn(l, d, c, lh, tail, disk, cache);
    }

    /** Copy the logged blocks home: whatever write a crash follows, the disk recovers alike. */
    method InstallTrans()
      requires Sound(l, disk, cache, lh) && DecodeHead(disk[l.start]) == lh
      modifies this`cache, this`disk, this`trace
      ensures Sound(l, disk, cache, lh) && DecodeHead(disk[l.start]) == lh
      ensures disk == Installed(l, old(disk), lh, |lh|)
      ensures AllHome(l, disk, cache, lh, |lh|)
      ensures Durable(l, disk) == old(Durable(l, disk))
      ensures |trace| == |old(trace)| + |lh| && old(trace) <= trace
      ensures AllRecover(l, trace, |old(trace)|, |trace|, old(Durable(l, disk)))
    {
      hide Durable, DecodeHead, Distinct, Installed, AllHome, Sound, LogCopy;
      SoundSizes(l, disk, cache, lh);
      InstalledNext(l, disk, lh, 0);
      var tail := 0;
      while tail < |lh|
        invariant 0 <= tail <= |lh|
        invariant Sound(l, disk, cache, lh) && WellFormed(l, disk) && DecodeHead(disk[l.start]) == lh
        invariant disk == Installed(l, old(disk), lh, tail)
        invariant AllHome(l, disk, cache, lh, tail)
        invariant Durable(l, disk) == old(Durable(l, disk))
        invariant |trace| == |old(trace)| + tail && old(trace) <= trace
        invariant AllRecover(l, trace, |old(trace)|, |trace|, old(Durable(l, disk)))
      {
        ghost var d: Disk := disk;
        InstallOne(tail);
        SoundSizes(l, disk, cache, lh);
        InstalledNext(l, old(disk), lh, tail);
        AllRecoverMore(l, trace[..|trace| - 1], |old(trace)|, old(Durable(l, disk)), disk);
        assert trace == trace[..|trace| - 1] + [disk];
        tail := tail + 1;
      }
    }

    /**
     Commit is crash-atomic: up to the header write every disk recovers to the
     old contents, and from the header write on every disk recovers to the new.
     */
    method Commit() returns (ghost cut: nat)
      requires Sound(l, disk, cache, lh) && DecodeHead(disk[l.start]) == []
      modifies this`cache, this`disk, this`trace, this`lh
      ensures Sound(l, disk, cache, lh) && lh == [] && DecodeHead(disk[l.start]) == []
      ensures |old(trace)| <= cut <= |trace|
      ensures AllRecover(l, trace, |old(trace)|, cut, old(Durable(l, disk)))
      ensures AllRecover(l, trace, cut, |trace|, old(Logical(l, disk, cache)))
      ensures Logical(l, disk, cache) == old(Logical(l, disk, cache)) == HomeOf(l, disk) == Durable(l, disk)
    {
      hide Durable, DecodeHead, LogCopy, Logical, Distinct, EncodeHead, HomeOf;
      if |lh| > 0 {
        WriteLog();
        cut := |trace|;
        ghost var d, c, t := disk, cache, trace;
        HeadRoundTrip(Seen(disk, cache, l.start), lh);
        WriteHead();
        CommitTurn(l, d, c, lh, disk[l.start]);
        ghost var t1 := trace;
        InstallTrans();
        ghost var d2, c2, lh2 := disk, cache, lh;
        lh := [];
        HeadRoundTrip(Seen(disk, cache, l.start), lh);
        WriteHead();
        EraseTurn(l, d2, c2, lh2, disk[l.start]);
      } else {
        cut := |trace|;
        EmptyLog(l, disk, cache);
      }
    }

    /**
     Recovery at boot, on whatever disk the last crash left: it ends with the
     durable contents on the home blocks and an empty log, and a crash after
     any of its own writes leaves a disk that recovers to the same contents.
     */
    method RecoverFromLog()
      requires Sound(l, disk, cache, []) && lh == []
      modifies this`cache, this`disk, this`trace, this`lh
      ensures disk == Recover(l, old(disk)) && WellFormed(l, disk)
      ensures Sound(l, disk, cache, lh) && lh == [] && DecodeHead(disk[l.start]) == []
      ensures HomeOf(l, disk) == Logical(l, disk, cache) == Durable(l, disk) == old(Durable(l, disk))
      ensures |old(trace)| <= |trace| && AllRecover(l, trace, |old(trace)|, |trace|, old(Durable(l, disk)))
    {
      hide Durable, DecodeHead, LogCopy, Logical, EncodeHead, HomeOf, PutWord;
      ReadHead();
      InstallTrans();
      ghost var d, c, e := disk, cache, lh;
      lh := [];
      HeadRoundTrip(Seen(disk, cache, l.start), lh);
      HeaderClean(l, d, c, e);
      assert Word(d[l.start], 0) <= LOGSIZE;
      WriteHead();
      EraseTurn(l, d, c, e, disk[l.start]);
    }
  }

  /** The cached header block is the one on disk. */
  lemma HeaderClean(l: Layout, d: Disk, cache: Cache, lh: seq<nat>)
    requires Sound(l, d, cache, lh)
    ensures Seen(d, cache, l.start) == d[l.start]
  {
    assert l.InLog(l.start);
  }

  /** With nothing logged the cache shows the disk itself. */
  lemma EmptyLog(l: Layout, d: Disk, cache: Cache)
    requires Sound(l, d, cache, []) && DecodeHead(d[l.start]) == []
    ensures Logical(l, d, cache) == HomeOf(l, d) == Durable(l, d)
  {
    DurableEmpty(l, d);
  }
}

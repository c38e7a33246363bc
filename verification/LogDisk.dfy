/**
 The on-disk redo log of log.c: a header block naming home blocks, followed by
 one log block per name. `Recover` is what an uninterrupted recover_from_log
 leaves on disk; everything about crashes is stated through it.
 */
module LogDisk {
  import opened Basics
  import opened Blocks

  const LOGSIZE: nat := 30

  /** sb.size, sb.logstart and sb.nlog */
  datatype Layout = Layout(size: nat, start: nat, nlog: nat) {
    predicate Valid() {
      2 <= nlog && start + nlog <= size < U32 && start + LOGSIZE < size
    }

    predicate InLog(b: nat) {
      start <= b < start + nlog
    }

    /** A block outside the log area: the only kind file system calls touch. */
    predicate Home(b: nat) {
      b < size && !InLog(b)
    }
  }

  /** The loop of write_head: entries from i on stored behind the count word. */
  function PutEntries(b: Block, lh: seq<nat>, i: nat): (r: Block)
    requires i <= |lh| <= LOGSIZE
    requires forall k | 0 <= k < |lh| :: lh[k] < U32
    ensures forall w: nat | w <= i :: Word(r, w) == Word(b, w)
    ensures forall k: nat | i <= k < |lh| :: Word(r, 1 + k) == lh[k]
    decreases |lh| - i
  {
    if i == |lh| then b else PutEntries(PutWord(b, 1 + i, lh[i]), lh, i + 1)
  }

  /** write_head on a cached header block b; entries past the count keep their stale values. */
  function EncodeHead(b: Block, lh: seq<nat>): (r: Block)
    requires |lh| <= LOGSIZE
    requires forall k | 0 <= k < |lh| :: lh[k] < U32
  {
    PutEntries(PutWord(b, 0, |lh|), lh, 0)
  }

  /** read_head; a count above LOGSIZE would overrun lh.block. */
  function DecodeHead(b: Block): (lh: seq<nat>)
    requires Word(b, 0) <= LOGSIZE
    ensures |lh| == Word(b, 0)
  {
    ReadEntries(b, 0, Word(b, 0))
  }

  /** The loop of read_head, from entry i. */
  function ReadEntries(b: Block, i: nat, n: nat): (lh: seq<nat>)
    requires i <= n <= LOGSIZE
    ensures |lh| == n - i
    decreases n - i
  {
    if i == n then [] else [Word(b, 1 + i)] + ReadEntries(b, i + 1, n)
  }

  lemma {:induction false} EntriesAt(b: Block, lh: seq<nat>, i: nat)
    requires i <= |lh| <= LOGSIZE && forall w: nat | i < w <= |lh| :: Word(b, w) == lh[w - 1]
    ensures ReadEntries(b, i, |lh|) == lh[i..]
    decreases |lh| - i
  {
    if i < |lh| {
      EntriesAt(b, lh, i + 1);
      assert Word(b, 1 + i) == lh[i];
      assert lh[i..] == [lh[i]] + lh[i + 1..];
    }
  }

  lemma HeadRoundTrip(b: Block, lh: seq<nat>)
    requires |lh| <= LOGSIZE
    requires forall k | 0 <= k < |lh| :: lh[k] < U32
    ensures Word(EncodeHead(b, lh), 0) == |lh|
    ensures DecodeHead(EncodeHead(b, lh)) == lh
  {
    var r := EncodeHead(b, lh);
    forall w: nat | 0 < w <= |lh| ensures Word(r, w) == lh[w - 1] {
      assert Word(r, 1 + (w - 1)) == lh[w - 1];
    }
    EntriesAt(r, lh, 0);
    assert lh[0..] == lh;
  }

  /** Entries that install_trans can copy: distinct home blocks that fit the log area. */
  predicate Installable(l: Layout, lh: seq<nat>) {
    && |lh| <= LOGSIZE && |lh| < l.nlog
    && Distinct(lh)
    && forall k | 0 <= k < |lh| :: l.Home(lh[k])
  }

  predicate WellFormed(l: Layout, d: Disk) {
    && l.Valid()
    && |d| == l.size
    && Word(d[l.start], 0) <= LOGSIZE
    && Installable(l, DecodeHead(d[l.start]))
  }

  /** The header names exactly lh. */
  predicate Holds(l: Layout, d: Disk, lh: seq<nat>) {
    && l.Valid()
    && |d| == l.size
    && Word(d[l.start], 0) <= LOGSIZE
    && DecodeHead(d[l.start]) == lh
  }

  /** The log block that carries entry k. */
  function LogCopy(l: Layout, d: Disk, k: nat): Block
    requires l.Valid() && |d| == l.size && k < LOGSIZE
  {
    d[l.start + 1 + k]
  }

  /** install_trans stopped after its first i copies. */
  function Installed(l: Layout, d: Disk, lh: seq<nat>, i: nat): (r: Disk)
    requires l.Valid() && |d| == l.size && Installable(l, lh) && i <= |lh|
    ensures |r| == |d|
  {
    if i == 0 then d
    else
      var p := Installed(l, d, lh, i - 1);
      p[lh[i - 1] := p[l.start + i]]
  }

  /** What an uninterrupted recover_from_log leaves on disk. */
  function Recover(l: Layout, d: Disk): (r: Disk)
    requires WellFormed(l, d)
    ensures |r| == |d|
  {
    var lh := DecodeHead(d[l.start]);
    var p := Installed(l, d, lh, |lh|);
    p[l.start := EncodeHead(p[l.start], [])]
  }

  /** The contents of all home blocks. */
  function HomeOf(l: Layout, d: Disk): map<nat, Block>
    requires |d| == l.size
  {
    map b: nat | 0 <= b < l.size && l.Home(b) :: d[b]
  }

  /** What the home blocks hold once the machine has rebooted and recovered; see RecoverIsDurable. */
  ghost function Durable(l: Layout, d: Disk): map<nat, Block>
    requires WellFormed(l, d)
  {
    Overlay(l, d, DecodeHead(d[l.start]))
  }

  /** The home blocks with each block named in lh replaced by its log copy. */
  ghost function Overlay(l: Layout, d: Disk, lh: seq<nat>): map<nat, Block>
    requires l.Valid() && |d| == l.size && |lh| <= LOGSIZE
  {
    map b: nat | 0 <= b < l.size && l.Home(b) :: if b in lh then LogCopy(l, d, IndexOf(lh, b)) else d[b]
  }

  /** Position of b in the header. */
  ghost function IndexOf(lh: seq<nat>, b: nat): (k: nat)
    requires b in lh
    ensures k < |lh| && lh[k] == b
  {
    var k: nat :| k < |lh| && lh[k] == b;
    k
  }

  /** install_trans copies log block k to home block lh[k] and moves nothing else. */
  lemma {:induction false} InstalledAt(l: Layout, d: Disk, lh: seq<nat>, i: nat)
    requires l.Valid() && |d| == l.size && Installable(l, lh) && i <= |lh|
    ensures forall k: nat | k < i :: Installed(l, d, lh, i)[lh[k]] == LogCopy(l, d, k)
    ensures forall b: nat | b < l.size && b !in lh[..i] :: Installed(l, d, lh, i)[b] == d[b]
  {
    if i > 0 {
      InstalledAt(l, d, lh, i - 1);
      var p := Installed(l, d, lh, i - 1);
      assert l.InLog(l.start + i);
      assert p[l.start + i] == d[l.start + i];
      assert lh[..i] == lh[..i - 1] + [lh[i - 1]];
    }
  }

  /** Each home block after an uninterrupted recovery. */
  lemma RecoverAt(l: Layout, d: Disk, b: nat)
    requires WellFormed(l, d) && l.Home(b)
    ensures Recover(l, d)[b] == Durable(l, d)[b]
  {
    hide DecodeHead, EncodeHead, Word, Distinct, Installed;
    var lh := DecodeHead(d[l.start]);
    InstalledAt(l, d, lh, |lh|);
    assert lh[..|lh|] == lh;
    assert l.InLog(l.start);
    if b in lh {
      assert Installed(l, d, lh, |lh|)[lh[IndexOf(lh, b)]] == LogCopy(l, d, IndexOf(lh, b));
    }
  }

  lemma RecoverEmpties(l: Layout, d: Disk)
    requires WellFormed(l, d)
    ensures Holds(l, Recover(l, d), [])
  {
    hide DecodeHead, EncodeHead, Word, Distinct, Installed;
    var lh := DecodeHead(d[l.start]);
    HeadRoundTrip(Installed(l, d, lh, |lh|)[l.start], []);
  }

  /** An uninterrupted recovery leaves the durable contents on the home blocks and an empty log. */
  lemma RecoverIsDurable(l: Layout, d: Disk)
    requires WellFormed(l, d)
    ensures HomeOf(l, Recover(l, d)) == Durable(l, d)
    ensures Holds(l, Recover(l, d), [])
  {
    hide DecodeHead, Word, Installable, Recover, Holds;
    RecoverEmpties(l, d);
    forall b: nat | l.Home(b) ensures Recover(l, d)[b] == Durable(l, d)[b] { RecoverAt(l, d, b); }
  }

  /** Two disks whose headers and logged copies agree, and whose other home blocks agree, recover alike. */
  lemma DurableSame(l: Layout, d: Disk, e: Disk, lh: seq<nat>)
    requires WellFormed(l, d) && DecodeHead(d[l.start]) == lh
    requires WellFormed(l, e) && DecodeHead(e[l.start]) == lh
    requires forall k: nat | k < |lh| :: LogCopy(l, d, k) == LogCopy(l, e, k)
    requires forall b: nat | l.Home(b) && b !in lh :: d[b] == e[b]
    ensures Durable(l, d) == Durable(l, e)
  {
  }

  /** With an empty header recovery changes no home block. */
  lemma DurableEmpty(l: Layout, d: Disk)
    requires WellFormed(l, d) && DecodeHead(d[l.start]) == []
    ensures Durable(l, d) == HomeOf(l, d)
  {
    assert forall b: nat :: b !in DecodeHead(d[l.start]);
  }

  /** Clearing a header that is clear leaves the block as it is. */
  lemma ClearTwice(b: Block)
    requires Word(b, 0) == 0
    ensures EncodeHead(b, []) == b
  {
    WordsDetermineBlock(PutWord(b, 0, 0), b);
  }

  /** Recovery is idempotent: recovering a recovered disk leaves every block of it as it is. */
  lemma RecoverIdempotent(l: Layout, d: Disk)
    requires WellFormed(l, d)
    ensures WellFormed(l, Recover(l, d)) && Recover(l, Recover(l, d)) == Recover(l, d)
    ensures Durable(l, Recover(l, d)) == Durable(l, d)
  {
    hide EncodeHead, Word, Durable;
    var r := Recover(l, d);
    RecoverIsDurable(l, d);
    assert DecodeHead(r[l.start]) == [] && Installed(l, r, [], 0) == r;
    DurableEmpty(l, r);
    ClearTwice(r[l.start]);
  }

  // ---------- In bytes ----------

  /** Block b is a log header for lh: the count at byte 0, entry k at byte 4 + 4k. */
  predicate Heads(b: Block, lh: seq<nat>) {
    U32At(b, 0) == |lh| <= LOGSIZE && forall k: nat | k < |lh| :: U32At(b, 4 + 4 * k) == lh[k]
  }

  /** write_head spells the header. */
  lemma HeadWritten(b: Block, lh: seq<nat>)
    requires |lh| <= LOGSIZE && forall k | 0 <= k < |lh| :: lh[k] < U32
    ensures Heads(EncodeHead(b, lh), lh)
  {
    hide Word, U32At;
    var r := EncodeHead(b, lh);
    HeadRoundTrip(b, lh);
    WordBytes(r, 0);
    forall k: nat | k < |lh| ensures U32At(r, 4 + 4 * k) == lh[k] { WordBytes(r, 1 + k); }
  }

  lemma {:induction false} EntryRead(b: Block, i: nat, n: nat, k: nat)
    requires i <= k < n <= LOGSIZE
    ensures ReadEntries(b, i, n)[k - i] == U32At(b, 4 + 4 * k)
    decreases n - i
  {
    hide Word, U32At;
    if i == k { WordBytes(b, 1 + k); } else { EntryRead(b, i + 1, n, k); }
  }

  /** read_head takes the header for what its bytes spell. */
  lemma HeadRead(b: Block)
    requires Word(b, 0) <= LOGSIZE
    ensures Heads(b, DecodeHead(b))
  {
    hide Word, U32At;
    WordBytes(b, 0);
    forall k: nat | k < |DecodeHead(b)| ensures U32At(b, 4 + 4 * k) == DecodeHead(b)[k] { EntryRead(b, 0, Word(b, 0), k); }
  }

  /**
   Recovery in terms of bytes: a block the header names in entry k gets the block
   start + 1 + k, every other home block stays, and the count becomes 0.
   */
  lemma RecoveredBytes(l: Layout, d: Disk, b: nat)
    requires WellFormed(l, d) && l.Home(b)
    ensures var h, r := d[l.start], Recover(l, d);
            && U32At(h, 0) <= LOGSIZE && U32At(r[l.start], 0) == 0
            && (forall k: nat | k < U32At(h, 0) && U32At(h, 4 + 4 * k) == b :: r[b] == d[l.start + 1 + k])
            && ((forall k: nat | k < U32At(h, 0) :: U32At(h, 4 + 4 * k) != b) ==> r[b] == d[b])
  {
    hide DecodeHead, U32At, Word, Recover;
    var h, r := d[l.start], Recover(l, d);
    var lh := DecodeHead(h);
    HeadRead(h);
    RecoverIsDurable(l, d);
    HeadRead(r[l.start]);
    RecoverAt(l, d, b);
    forall k: nat | k < U32At(h, 0) && U32At(h, 4 + 4 * k) == b ensures r[b] == d[l.start + 1 + k] {
      assert lh[k] == b == lh[IndexOf(lh, b)];
    }
  }
}

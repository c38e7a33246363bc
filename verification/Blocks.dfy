/**
 Disk blocks as byte arrays, with the two views the kernel lays over them:
 32-bit little-endian words (log headers, inodes, indirect blocks) and
 single bits (the free map).
 */
module Blocks {
  import opened Basics

  const BSIZE: nat := 512
  const WORDS: nat := 128
  const BPB: nat := 4096

  type Block = b: seq<byte> | |b| == 512 witness seq(512, _ => 0)

  type Disk = seq<Block>

  /** A block of zeros. */
  const ZeroBlock: Block := Zeros(512)

  function Zeros(n: nat): (s: seq<byte>)
    ensures |s| == n && forall i | 0 <= i < n :: s[i] == 0
  {
    seq(n, _ => 0)
  }

  /** The number whose little-endian bytes are s. */
  function LeNat(s: seq<byte>): (w: nat)
    ensures w < Pow256(|s|)
  {
    if s == [] then 0 else s[0] + 256 * LeNat(s[1..])
  }

  function Pow256(n: nat): (p: nat)
    ensures p > 0
  {
    if n == 0 then 1 else 256 * Pow256(n - 1)
  }

  /** The low n bytes of w, little-endian. */
  function LeBytes(w: nat, n: nat): (s: seq<byte>)
    ensures |s| == n
  {
    if n == 0 then [] else [w % 256] + LeBytes(w / 256, n - 1)
  }

  lemma {:induction false} LeRoundTrip(w: nat, n: nat)
    requires w < Pow256(n)
    ensures LeNat(LeBytes(w, n)) == w
  {
    if n > 0 {
      LeRoundTrip(w / 256, n - 1);
      assert LeBytes(w, n)[1..] == LeBytes(w / 256, n - 1);
    }
  }

  lemma {:induction false} LeUnique(s: seq<byte>, t: seq<byte>)
    requires |s| == |t| && LeNat(s) == LeNat(t)
    ensures s == t
  {
    if s != [] {
      assert s[0] == LeNat(s) % 256 && t[0] == LeNat(t) % 256;
      LeUnique(s[1..], t[1..]);
      assert s == [s[0]] + s[1..] && t == [t[0]] + t[1..];
    }
  }

  lemma U32IsFourBytes()
    ensures Pow256(4) == U32
  {
    assert Pow256(2) == 0x1_0000;
  }

  /** The i-th uint of a block. */
  function Word(b: Block, i: nat): (w: nat)
    requires i < WORDS
    ensures w < U32
  {
    U32IsFourBytes();
    LeNat(b[4 * i..4 * i + 4])
  }

  /** Store w as the i-th uint of a block; every other uint keeps its value. */
  function PutWord(b: Block, i: nat, w: nat): (r: Block)
    requires i < WORDS && w < U32
    ensures Word(r, i) == w
    ensures forall j: nat | j < WORDS && j != i :: Word(r, j) == Word(b, j)
  {
    var r := b[..4 * i] + LeBytes(w, 4) + b[4 * i + 4..];
    assert Word(r, i) == w by {
      U32IsFourBytes();
      LeRoundTrip(w, 4);
      assert r[4 * i..4 * i + 4] == LeBytes(w, 4);
    }
    assert forall j: nat | j < WORDS && j != i :: Word(r, j) == Word(b, j) by {
      forall j: nat | j < WORDS && j != i ensures Word(r, j) == Word(b, j) {
        assert r[4 * j..4 * j + 4] == b[4 * j..4 * j + 4];
      }
    }
    r
  }

  lemma ZeroWords()
    ensures forall i: nat | i < WORDS :: Word(ZeroBlock, i) == 0
  {
    forall i: nat | i < WORDS ensures Word(ZeroBlock, i) == 0 {
      assert ZeroBlock[4 * i..4 * i + 4] == [0, 0, 0, 0] == LeBytes(0, 4) by {
        assert LeBytes(0, 2) == [0, 0];
      }
      LeRoundTrip(0, 4);
    }
  }

  /** Two blocks with the same words are the same block. */
  lemma WordsDetermineBlock(a: Block, b: Block)
    requires forall i: nat | i < WORDS :: Word(a, i) == Word(b, i)
    ensures a == b
  {
    forall k: nat | k < 512
      ensures a[k] == b[k]
    {
      var i := k / 4;
      assert Word(a, i) == Word(b, i);
      LeUnique(a[4 * i..4 * i + 4], b[4 * i..4 * i + 4]);
      assert a[k] == a[4 * i..4 * i + 4][k - 4 * i] && b[k] == b[4 * i..4 * i + 4][k - 4 * i];
    }
  }

  // ---------- Bytes ----------

  /** The ushort at byte o: low byte first. */
  function U16At(b: Block, o: nat): nat
    requires o + 2 <= BSIZE
  {
    b[o] as nat + 256 * (b[o + 1] as nat)
  }

  /** The uint at byte o: low byte first. */
  function U32At(b: Block, o: nat): nat
    requires o + 4 <= BSIZE
  {
    b[o] as nat + 256 * (b[o + 1] as nat) + 65536 * (b[o + 2] as nat) + 16777216 * (b[o + 3] as nat)
  }

  /** The i-th uint is the one at byte 4i. */
  lemma WordBytes(b: Block, i: nat)
    requires i < WORDS
    ensures Word(b, i) == U32At(b, 4 * i)
  {
    var s := b[4 * i..4 * i + 4];
    assert s[1..][1..] == s[2..] && s[2..][1..] == s[3..] && s[3..][1..] == [];
    assert LeNat(s[3..]) == s[3];
    assert LeNat(s[2..]) == s[2] + 256 * LeNat(s[3..]);
    assert LeNat(s[1..]) == s[1] + 256 * LeNat(s[2..]);
  }

  /** A uint is two ushorts. */
  lemma Halves(b: Block, o: nat)
    requires o + 4 <= BSIZE
    ensures U32At(b, o) % 65536 == U16At(b, o) && U32At(b, o) / 65536 == U16At(b, o + 2)
  {
    assert U32At(b, o) == U16At(b, o) + 65536 * U16At(b, o + 2);
  }

  function Pow2(w: nat): (p: nat)
    ensures p > 0
  {
    if w == 0 then 1 else 2 * Pow2(w - 1)
  }

  /** Bit k of x is set. */
  predicate HasBit(x: nat, k: nat) {
    if k == 0 then x % 2 == 1 else HasBit(x / 2, k - 1)
  }

  /** Bit k is what is left after k halvings. */
  lemma {:induction false} BitIs(x: nat, k: nat)
    ensures HasBit(x, k) <==> x / Pow2(k) % 2 == 1
  {
    if k > 0 {
      BitIs(x / 2, k - 1);
      DivDiv(x, Pow2(k - 1));
    }
  }

  lemma DivDiv(x: nat, m: nat)
    requires m > 0
    ensures x / (2 * m) == x / 2 / m
  {
    var h := x / 2;
    var q, r := h / m, h % m;
    var d, t := x / (2 * m), x % (2 * m);
    assert x == 2 * (q * m + r) + x % 2;
    assert x == 2 * m * d + t;
    assert 2 * m * (d - q) == 2 * r + x % 2 - t;
    if d != q { FarMultiple(d - q, m); }
  }

  lemma FarMultiple(k: int, m: nat)
    requires m > 0 && k != 0
    ensures 2 * m * k >= 2 * m || 2 * m * k <= -2 * m
  {
    if k > 0 {
      assert m * (k - 1) >= 0;
    } else {
      assert m * (-k - 1) >= 0;
    }
  }

  /** Bit k of x replaced by v, for x of width w. */
  function WithBit(x: nat, k: nat, v: bool, w: nat): (r: nat)
    requires k < w && x < Pow2(w)
    ensures r < Pow2(w)
    ensures forall j: nat :: HasBit(r, j) == if j == k then v else HasBit(x, j)
  {
    if k == 0 then x / 2 * 2 + (if v then 1 else 0)
    else
      var h := WithBit(x / 2, k - 1, v, w - 1);
      var r := x % 2 + 2 * h;
      assert r / 2 == h && r % 2 == x % 2;
      r
  }

  function WithBitOfByte(x: byte, k: nat, v: bool): (r: byte)
    requires k < 8
    ensures forall j: nat :: HasBit(r, j) == if j == k then v else HasBit(x, j)
  {
    assert Pow2(8) == 256 by { assert Pow2(4) == 16; }
    WithBit(x, k, v, 8)
  }

  /** Bit i of a free-map block, as fs.c addresses it: eight to a byte, the lowest first. */
  predicate BitAt(b: Block, i: nat)
    requires i < BPB
  {
    HasBit(b[i / 8], i % 8)
  }

  /** Sets or clears bit i of a free-map block; no other bit moves. */
  function PutBit(b: Block, i: nat, v: bool): (r: Block)
    requires i < BPB
    ensures forall j: nat | j < BPB :: BitAt(r, j) == if j == i then v else BitAt(b, j)
  {
    b[i / 8 := WithBitOfByte(b[i / 8], i % 8, v)]
  }
}

/**
  How a file system lies on the disk (kernel/fs.h, kernel/fs.c): data blocks, the bitmap
  with one bit per block, and 64-byte inodes, sixteen to a block; and what mounting a disk
  reads back.
 */
module DiskFormat {
  import opened Param
  import opened Disk
  import opened BlockMap
  import opened FileSystem

  // ---------- bytes and words ----------

  predicate IsByte(x: int) {
    0 <= x < 0x100
  }

  /** Byte `j` of a little-endian word. */
  function ByteOf(w: int, j: nat): int {
    if j == 0 then w % 0x100
    else if j == 1 then w / 0x100 % 0x100
    else if j == 2 then w / 0x1_0000 % 0x100
    else w / 0x100_0000 % 0x100
  }

  lemma ByteOfWord(b0: int, b1: int, b2: int, b3: int)
    requires IsByte(b0) && IsByte(b1) && IsByte(b2) && IsByte(b3)
    ensures var w := b0 + 0x100 * b1 + 0x1_0000 * b2 + 0x100_0000 * b3;
            ByteOf(w, 0) == b0 && ByteOf(w, 1) == b1 && ByteOf(w, 2) == b2 && ByteOf(w, 3) == b3
  {
    var w3 := b3;
    var w2 := b2 + 0x100 * w3;
    var w1 := b1 + 0x100 * w2;
    var w := b0 + 0x100 * w1;
    assert w / 0x100 == w1 && w % 0x100 == b0;
    assert w1 / 0x100 == w2 && w1 % 0x100 == b1;
    assert w2 / 0x100 == w3 && w2 % 0x100 == b2;
    assert w / 0x1_0000 == w2 && w / 0x100_0000 == w3;
  }

  function WordsOf(bytes: Bytes): Block
    requires |bytes| == BSIZE
  {
    seq(WORDS, k requires 0 <= k < WORDS => GetWord(bytes, k))
  }

  function BytesOf(b: Block): Bytes {
    seq(BSIZE, j requires 0 <= j < BSIZE => ByteOf(b[j / 4], j % 4))
  }

  lemma BytesRoundTrip(bytes: Bytes)
    requires |bytes| == BSIZE && forall k :: 0 <= k < BSIZE ==> IsByte(bytes[k])
    ensures BytesOf(WordsOf(bytes)) == bytes
  {
    forall j | 0 <= j < BSIZE ensures BytesOf(WordsOf(bytes))[j] == bytes[j] {
      var k := j / 4;
      ByteOfWord(bytes[4 * k], bytes[4 * k + 1], bytes[4 * k + 2], bytes[4 * k + 3]);
      hide ByteOf;
      assert j == 4 * k + j % 4;
    }
  }

  // ---------- bits ----------

  /** Bits from..from+n-1 as a number, the lowest bit first; there are none past the end. */
  function Pack(bits: seq<bool>, from: nat, n: nat): nat
    decreases n
  {
    if n == 0 then 0
    else (if from < |bits| && bits[from] then 1 else 0) + 2 * Pack(bits, from + 1, n - 1)
  }

  predicate HasBit(w: int, m: nat)
    decreases m
  {
    if m == 0 then w % 2 == 1 else HasBit(w / 2, m - 1)
  }

  lemma {:induction false} PackRoundTrip(bits: seq<bool>, from: nat, n: nat, m: nat)
    requires m < n
    ensures HasBit(Pack(bits, from, n), m) <==> from + m < |bits| && bits[from + m]
    decreases n
  {
    var rest := Pack(bits, from + 1, n - 1);
    var bit := if from < |bits| && bits[from] then 1 else 0;
    assert (bit + 2 * rest) / 2 == rest && (bit + 2 * rest) % 2 == bit;
    if m > 0 {
      PackRoundTrip(bits, from + 1, n - 1, m - 1);
    }
  }

  lemma {:induction false} PackSame(bits: seq<bool>, bits': seq<bool>, from: nat, n: nat)
    requires |bits'| == |bits| && forall x: nat :: from <= x < from + n && x < |bits| ==> bits'[x] == bits[x]
    ensures Pack(bits', from, n) == Pack(bits, from, n)
    decreases n
  {
    if n > 0 {
      PackSame(bits, bits', from + 1, n - 1);
    }
  }

  // ---------- inodes ----------

  /** Words of struct dinode. */
  const INODEWORDS: nat := 16

  predicate IsShort(x: int) {
    -0x8000 <= x < 0x8000
  }

  /** The values struct dinode can hold. */
  ghost predicate InodeFits(ino: Inode) {
    && IsShort(ino.typ) && IsShort(ino.major) && IsShort(ino.minor) && IsShort(ino.nlink)
    && ino.size < 0x1_0000_0000
    && |ino.addrs| == NDIRECT + 1
    && forall s :: 0 <= s < |ino.addrs| ==> ino.addrs[s] < 0x1_0000_0000
  }

  /** Two shorts in one word, the first in its lower half. */
  function TwoShorts(a: int, b: int): int {
    (if a < 0 then a + 0x1_0000 else a) + 0x1_0000 * (if b < 0 then b + 0x1_0000 else b)
  }

  function ShortOf(u: int): int {
    if u < 0x8000 then u else u - 0x1_0000
  }

  lemma ShortsRoundTrip(a: int, b: int)
    requires IsShort(a) && IsShort(b)
    ensures var w := TwoShorts(a, b);
            ShortOf(w % 0x1_0000) == a && ShortOf(w / 0x1_0000 % 0x1_0000) == b
  {
    var lo, hi := if a < 0 then a + 0x1_0000 else a, if b < 0 then b + 0x1_0000 else b;
    var w := lo + 0x1_0000 * hi;
    assert w / 0x1_0000 == hi && w % 0x1_0000 == lo;
  }

  /** struct dinode. */
  function InodeWords(ino: Inode): (ws: seq<int>)
    requires |ino.addrs| == NDIRECT + 1
    ensures |ws| == INODEWORDS
  {
    var addrs: seq<int> := ino.addrs;
    [TwoShorts(ino.typ, ino.major), TwoShorts(ino.minor, ino.nlink), ino.size] + addrs
  }

  function NatOf(w: int): nat {
    if w < 0 then 0 else w
  }

  function NatsOf(ws: seq<int>): (ns: seq<nat>)
    ensures |ns| == |ws| && forall j :: 0 <= j < |ws| ==> ns[j] == NatOf(ws[j])
  {
    seq(|ws|, j requires 0 <= j < |ws| => NatOf(ws[j]))
  }

  function ReadInode(ws: seq<int>): (ino: Inode)
    requires |ws| == INODEWORDS
    ensures |ino.addrs| == NDIRECT + 1
  {
    Inode(ShortOf(ws[0] % 0x1_0000), ShortOf(ws[0] / 0x1_0000 % 0x1_0000), ShortOf(ws[1] % 0x1_0000),
          ShortOf(ws[1] / 0x1_0000 % 0x1_0000), NatOf(ws[2]), NatsOf(ws[3..]))
  }

  lemma InodeRoundTrip(ino: Inode)
    requires InodeFits(ino)
    ensures ReadInode(InodeWords(ino)) == ino
  {
    ShortsRoundTrip(ino.typ, ino.major);
    ShortsRoundTrip(ino.minor, ino.nlink);
    hide TwoShorts;
    hide ShortOf;
    assert NatsOf(InodeWords(ino)[3..]) == ino.addrs;
  }

  // ---------- blocks ----------

  /** The layout of the disk that mkfs makes: 2000 blocks, 200 inodes in blocks 32.., the bitmap
      in block 45. */
  lemma MkfsLayout()
    ensures var sb := Super(2000, 200, 2 + LOGSIZE, 2 + LOGSIZE + 200 / IPB + 1, 2 + LOGSIZE + 200 / IPB + 1 + 2000 / BPB + 1);
            sb.Valid() && sb.Laid()
  {
    assert forall b: nat :: b < 2000 ==> b / BPB == 0;
  }

  /** Whatever the kernel's types can hold. */
  ghost predicate Fits(sb: Super, fs: Fs) {
    && Shaped(sb, fs)
    && (forall i: nat :: i < sb.ninodes ==> InodeFits(fs.dinodes[i]))
    && (forall b: nat, k: nat :: b < sb.size && k < BSIZE ==> IsByte(fs.blocks[b][k]))
  }

  /** Inodes from..from+15 in one block. */
  ghost function InodeBlock(inodes: seq<Inode>, from: nat): Block
    requires forall i: nat :: i < |inodes| ==> |inodes[i].addrs| == NDIRECT + 1
  {
    seq(WORDS, w requires 0 <= w < WORDS =>
      if from + w / INODEWORDS < |inodes| then InodeWords(inodes[from + w / INODEWORDS])[w % INODEWORDS] else 0)
  }

  ghost function BitBlock(bits: seq<bool>, from: nat): Block {
    seq(WORDS, k requires 0 <= k < WORDS => Pack(bits, from + 32 * k, 32))
  }

  /** What block `b` of the disk holds, from the inode blocks on. */
  ghost function EncodeBlock(sb: Super, fs: Fs, b: nat): Block
    requires Fits(sb, fs) && sb.inodestart <= b < sb.size
  {
    if b < sb.bmapstart then InodeBlock(fs.dinodes, (b - sb.inodestart) * IPB)
    else if b < sb.dataStart then BitBlock(fs.bits, (b - sb.bmapstart) * BPB)
    else WordsOf(fs.blocks[b])
  }

  ghost predicate Holds(sb: Super, d: Disk, fs: Fs) {
    && Fits(sb, fs)
    && sb.size <= |d|
    && forall b: nat :: sb.inodestart <= b < sb.size ==> d[b] == EncodeBlock(sb, fs, b)
  }

  // ---------- reading a disk back ----------

  ghost function DiskBit(sb: Super, d: Disk, b: nat): bool
    requires sb.BBLOCK(b) < |d|
  {
    HasBit(d[sb.BBLOCK(b)][b % BPB / 32], b % 32)
  }

  ghost function DiskInode(sb: Super, d: Disk, i: nat): (ino: Inode)
    requires sb.IBLOCK(i) < |d|
    ensures |ino.addrs| == NDIRECT + 1
  {
    InodeSlotIn(i);
    ReadInode(d[sb.IBLOCK(i)][INODEWORDS * (i % IPB)..INODEWORDS * (i % IPB) + INODEWORDS])
  }

  lemma InodeSlotIn(i: nat)
    ensures INODEWORDS * (i % IPB) + INODEWORDS <= WORDS
  {
  }

  /** The file system a kernel booted on disk `d` finds. */
  ghost function Mounted(sb: Super, d: Disk): Fs
    requires sb.Laid() && sb.dataStart <= sb.size <= |d|
  {
    var inodes := seq(sb.ninodes, i requires 0 <= i < sb.ninodes => DiskInode(sb, d, i));
    Fs(seq(sb.size, b requires 0 <= b < sb.size => DiskBit(sb, d, b)),
       seq(sb.size, b requires 0 <= b < sb.size => BytesOf(d[b])), inodes, inodes)
  }

  lemma BitPlace(b: nat)
    ensures b / BPB * BPB + 32 * (b % BPB / 32) + b % 32 == b && b % BPB / 32 < WORDS
  {
    var r := b % BPB;
    assert b == b / BPB * BPB + r;
    assert r == 32 * (r / 32) + r % 32;
    assert b % 32 == r % 32 by {
      assert b == 32 * (b / BPB * 256 + r / 32) + r % 32;
    }
  }

  lemma BitReadsBack(sb: Super, d: Disk, fs: Fs, b: nat)
    requires Holds(sb, d, fs) && sb.Laid() && b < sb.size
    ensures DiskBit(sb, d, b) == fs.bits[b]
  {
    hide Super.Laid;
    hide Pack;
    hide HasBit;
    AreasInRange(sb, b, 0);
    BitPlace(b);
    BitBlockAt(sb, d, fs, b);
    PackRoundTrip(fs.bits, b - b % 32, 32, b % 32);
  }

  lemma BitBlockAt(sb: Super, d: Disk, fs: Fs, b: nat)
    requires Holds(sb, d, fs) && sb.Laid() && b < sb.size && b % BPB / 32 < WORDS
    requires b / BPB * BPB + 32 * (b % BPB / 32) == b - b % 32
    ensures sb.BBLOCK(b) < |d| && d[sb.BBLOCK(b)][b % BPB / 32] == Pack(fs.bits, b - b % 32, 32)
  {
    hide Pack;
    var x := sb.BBLOCK(b);
    assert sb.bmapstart <= x < sb.dataStart;
    assert x - sb.bmapstart == b / BPB;
  }

  lemma InodePlace(i: nat, w: nat)
    requires w < INODEWORDS
    ensures var at := INODEWORDS * (i % IPB) + w;
            at < WORDS && at / INODEWORDS == i % IPB && at % INODEWORDS == w && i / IPB * IPB + i % IPB == i
  {
  }

  lemma InodeReadsBack(sb: Super, d: Disk, fs: Fs, i: nat)
    requires Holds(sb, d, fs) && sb.Laid() && i < sb.ninodes
    ensures sb.IBLOCK(i) < |d| && DiskInode(sb, d, i) == fs.dinodes[i]
  {
    hide InodeWords;
    hide ReadInode;
    hide InodeBlock;
    var x := sb.IBLOCK(i);
    assert sb.inodestart <= x < sb.bmapstart && (x - sb.inodestart) * IPB == i / IPB * IPB;
    InodeSlice(fs.dinodes, i);
    InodeRoundTrip(fs.dinodes[i]);
  }

  lemma InodeSlice(inodes: seq<Inode>, i: nat)
    requires i < |inodes| && forall j: nat :: j < |inodes| ==> |inodes[j].addrs| == NDIRECT + 1
    ensures INODEWORDS * (i % IPB) + INODEWORDS <= WORDS
    ensures InodeBlock(inodes, i / IPB * IPB)[INODEWORDS * (i % IPB)..INODEWORDS * (i % IPB) + INODEWORDS] == InodeWords(inodes[i])
  {
    hide InodeWords;
    InodeSlotIn(i);
    var at, b := INODEWORDS * (i % IPB), InodeBlock(inodes, i / IPB * IPB);
    forall w: nat | w < INODEWORDS ensures b[at..at + INODEWORDS][w] == InodeWords(inodes[i])[w] {
      InodePlace(i, w);
    }
  }

  lemma BlockReadsBack(sb: Super, d: Disk, fs: Fs, b: nat)
    requires Holds(sb, d, fs) && sb.Laid() && sb.dataStart <= b < sb.size
    ensures BytesOf(d[b]) == fs.blocks[b]
  {
    hide WordsOf;
    BytesRoundTrip(fs.blocks[b]);
  }

  /** Mounting a disk that holds a file system finds the bitmap, the data and, as its inodes,
      those on disk. */
  lemma MountReadsBack(sb: Super, d: Disk, fs: Fs)
    requires Holds(sb, d, fs) && sb.Laid()
    ensures sb.dataStart <= sb.size <= |d|
    ensures var m := Mounted(sb, d);
            && m.bits == fs.bits && m.inodes == m.dinodes == fs.dinodes && |m.blocks| == sb.size
            && forall b: nat :: b < sb.size ==> |m.blocks[b]| == BSIZE && (sb.dataStart <= b ==> m.blocks[b] == fs.blocks[b])
  {
    hide Super.Laid;
    hide DiskBit;
    hide DiskInode;
    hide EncodeBlock;
    var m := Mounted(sb, d);
    forall b: nat | b < sb.size ensures m.bits[b] == fs.bits[b] && (sb.dataStart <= b ==> m.blocks[b] == fs.blocks[b]) {
      BitReadsBack(sb, d, fs, b);
      if sb.dataStart <= b {
        BlockReadsBack(sb, d, fs, b);
      }
    }
    forall i: nat | i < sb.ninodes ensures m.dinodes[i] == fs.dinodes[i] {
      InodeReadsBack(sb, d, fs, i);
    }
  }

  // ---------- what is not logged has not changed on disk ----------

  lemma UnloggedInodes(sb: Super, fs: Fs, fs': Fs, logged: set<int>, b: nat)
    requires Tracked(sb, fs, fs', logged) && Fits(sb, fs) && Fits(sb, fs') && b !in logged
    requires sb.inodestart <= b < sb.bmapstart
    ensures InodeBlock(fs'.dinodes, (b - sb.inodestart) * IPB) == InodeBlock(fs.dinodes, (b - sb.inodestart) * IPB)
  {
    hide InodeWords;
    hide Super.IBLOCK;
    hide Super.BBLOCK;
    hide Super.Laid;
    var from := (b - sb.inodestart) * IPB;
    forall w: nat | w < WORDS ensures InodeBlock(fs'.dinodes, from)[w] == InodeBlock(fs.dinodes, from)[w] {
      InodeInBlock(sb, b, w);
      var i := from + w / INODEWORDS;
      assert i < sb.ninodes ==> fs'.dinodes[i] == fs.dinodes[i];
    }
  }

  lemma InodeInBlock(sb: Super, b: nat, w: nat)
    requires sb.inodestart <= b && w < WORDS
    ensures sb.IBLOCK((b - sb.inodestart) * IPB + w / INODEWORDS) == b
  {
    assert w / INODEWORDS < IPB;
    assert ((b - sb.inodestart) * IPB + w / INODEWORDS) / IPB == b - sb.inodestart;
  }

  lemma UnloggedBits(sb: Super, fs: Fs, fs': Fs, logged: set<int>, b: nat)
    requires Tracked(sb, fs, fs', logged) && b !in logged && sb.bmapstart <= b
    ensures BitBlock(fs'.bits, (b - sb.bmapstart) * BPB) == BitBlock(fs.bits, (b - sb.bmapstart) * BPB)
  {
    hide Pack;
    var from := (b - sb.bmapstart) * BPB;
    forall k | 0 <= k < WORDS ensures BitBlock(fs'.bits, from)[k] == BitBlock(fs.bits, from)[k] {
      forall x: nat | from + 32 * k <= x < from + 32 * k + 32 && x < sb.size ensures fs'.bits[x] == fs.bits[x] {
        assert x / BPB == b - sb.bmapstart;
        assert sb.BBLOCK(x) == b;
      }
      PackSame(fs.bits, fs'.bits, from + 32 * k, 32);
    }
  }

  /** A block that is not in the transaction holds what it held. */
  lemma UnloggedBlock(sb: Super, fs: Fs, fs': Fs, logged: set<int>, b: nat)
    requires Tracked(sb, fs, fs', logged) && Fits(sb, fs) && Fits(sb, fs') && b !in logged
    requires sb.inodestart <= b < sb.size
    ensures EncodeBlock(sb, fs', b) == EncodeBlock(sb, fs, b)
  {
    hide InodeBlock;
    hide BitBlock;
    hide WordsOf;
    if b < sb.bmapstart {
      UnloggedInodes(sb, fs, fs', logged, b);
    } else if b < sb.dataStart {
      UnloggedBits(sb, fs, fs', logged, b);
    }
  }
}

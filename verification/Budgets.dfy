/**
  How much itrunc and writei log (kernel/fs.c, kernel/file.c), exactly, on disks with any
  number of bitmap blocks.
 */
module Budgets {
  import opened Param
  import opened Util
  import opened Disk
  import opened BlockMap
  import opened FileSystem
  import opened FileContents
  import opened FileOps
  import opened Truncate

  /** The numbers from `lo` up to but not including `hi`. */
  ghost function Interval(lo: int, hi: int): (r: set<int>)
    ensures forall x :: x in r <==> lo <= x < hi
    ensures |r| == if lo <= hi then hi - lo else 0
    decreases hi - lo
  {
    if lo >= hi then {} else Interval(lo, hi - 1) + {hi - 1}
  }

  // ---------- itrunc ----------

  /** How many blocks of the bitmap hold bits of data blocks. */
  function Span(sb: Super): nat
    requires sb.Valid()
  {
    if sb.dataStart < sb.size then (sb.size - 1) / BPB - sb.dataStart / BPB + 1 else 0
  }

  /** The first of them. */
  function FirstBitmap(sb: Super): nat {
    sb.bmapstart + sb.dataStart / BPB
  }

  lemma DivLe(a: nat, b: nat)
    requires a <= b
    ensures a / BPB <= b / BPB
  {
  }

  lemma BitmapIn(sb: Super, b: nat)
    requires sb.Valid() && sb.dataStart <= b < sb.size
    ensures FirstBitmap(sb) <= sb.BBLOCK(b) < FirstBitmap(sb) + Span(sb)
  {
    DivLe(sb.dataStart, b);
    DivLe(b, sb.size - 1);
  }

  lemma TruncBound(sb: Super, fs: Fs, own: Owners, i: nat)
    requires Inv(sb, fs, own)
    ensures |TruncLog(sb, own, i)| <= Span(sb) + 1
  {
    hide Addr;
    hide FirstBitmap;
    hide Span;
    hide Super.BBLOCK;
    hide Super.IBLOCK;
    var lo := FirstBitmap(sb);
    var log := FreedLog(sb, own, Others(own, i));
    forall x | x in log ensures lo <= x < lo + Span(sb) {
      var b: nat :| b in own && x == sb.BBLOCK(b);
      assert OwnedRightly(sb, fs, own, b);
      BitmapIn(sb, b);
    }
    SubsetSize(log, Interval(lo, lo + Span(sb)));
  }

  /** A data block in the k-th of the bitmap blocks. */
  function Mark(sb: Super, k: nat): nat {
    if k == 0 then sb.dataStart else (sb.dataStart / BPB + k) * BPB
  }

  lemma MarkIn(sb: Super, k: nat)
    requires sb.Valid() && k < Span(sb)
    ensures sb.dataStart <= Mark(sb, k) < sb.size && Mark(sb, k) / BPB == sb.dataStart / BPB + k
  {
    if k > 0 {
      var q := sb.dataStart / BPB;
      assert sb.dataStart < (q + 1) * BPB <= (q + k) * BPB;
      assert q + k <= (sb.size - 1) / BPB;
      assert (q + k) * BPB <= (sb.size - 1) / BPB * BPB <= sb.size - 1;
    }
  }

  /** An inode with one block in each of the first ten. */
  ghost function Marks(sb: Super): set<int> {
    set k: nat | k < MAXOPBLOCKS :: Mark(sb, k)
  }

  function MarkedInode(sb: Super): (ino: Inode)
    ensures |ino.addrs| == NDIRECT + 1 && forall k: nat :: k <= NDIRECT ==> ino.addrs[k] == if k < MAXOPBLOCKS then Mark(sb, k) else 0
  {
    Inode(2, 0, 0, 1, 0, seq(NDIRECT + 1, k requires 0 <= k <= NDIRECT => if k < MAXOPBLOCKS then Mark(sb, k) else 0))
  }

  function EmptyInode(): (ino: Inode)
    ensures |ino.addrs| == NDIRECT + 1 && forall k: nat :: k <= NDIRECT ==> ino.addrs[k] == 0
  {
    Inode(0, 0, 0, 0, 0, seq(NDIRECT + 1, _ => 0))
  }

  ghost function MarkedFs(sb: Super): Fs {
    var inodes := seq(sb.ninodes, i => if i == 0 then MarkedInode(sb) else EmptyInode());
    Fs(seq(sb.size, b => b < sb.dataStart || b in Marks(sb)), seq(sb.size, _ => ZeroBlock()), inodes, inodes)
  }

  ghost function MarkedOwners(sb: Super): Owners {
    map b | b in Marks(sb) && b >= 0 :: (0, if b / BPB >= sb.dataStart / BPB then b / BPB - sb.dataStart / BPB else 0)
  }

  lemma MarksIn(sb: Super, b: int)
    requires sb.Valid() && Span(sb) >= MAXOPBLOCKS
    ensures b in Marks(sb) <==>
              sb.dataStart <= b < sb.size && sb.dataStart / BPB <= b / BPB < sb.dataStart / BPB + MAXOPBLOCKS && b == Mark(sb, b / BPB - sb.dataStart / BPB)
  {
    if b in Marks(sb) {
      var k: nat :| k < MAXOPBLOCKS && b == Mark(sb, k);
      MarkIn(sb, k);
    }
  }

  lemma MarkedConsistent(sb: Super)
    requires sb.Valid() && sb.ninodes > 0 && Span(sb) >= MAXOPBLOCKS
    ensures Inv(sb, MarkedFs(sb), MarkedOwners(sb))
  {
    hide Mark;
    hide Span;
    hide MarkedInode;
    hide EmptyInode;
    hide ZeroBlock;
    var fs, own := MarkedFs(sb), MarkedOwners(sb);
    assert forall b :: 0 <= b < sb.size ==> fs.blocks[b] == ZeroBlock();
    assert forall i :: 0 <= i < sb.ninodes ==> fs.inodes[i] == if i == 0 then MarkedInode(sb) else EmptyInode();
    assert Shaped(sb, fs);
    forall i: nat, s: nat | i < sb.ninodes && s < NSLOT ensures OwnsSlot(sb, fs, own, i, s) {
      if i == 0 && s < MAXOPBLOCKS {
        MarkIn(sb, s);
        assert Mark(sb, s) in Marks(sb);
      }
    }
    forall b | b in own ensures OwnedRightly(sb, fs, own, b) {
      MarksIn(sb, b);
      assert fs.inodes[0] == MarkedInode(sb);
    }
    forall b: nat | b < sb.size ensures fs.bits[b] <==> b < sb.dataStart || b in own {
    }
  }

  /** Truncating that inode logs one block too many. */
  lemma MarkedLogsMore(sb: Super)
    requires sb.Valid() && sb.Laid() && sb.ninodes > 0 && Span(sb) >= MAXOPBLOCKS
    ensures |TruncLog(sb, MarkedOwners(sb), 0)| == MAXOPBLOCKS + 1
  {
    hide Span;
    hide Mark;
    hide FirstBitmap;
    hide Super.BBLOCK;
    var lo, own := FirstBitmap(sb), MarkedOwners(sb);
    var log := FreedLog(sb, own, Others(own, 0));
    assert Others(own, 0) == map[];
    forall x ensures x in log <==> lo <= x < lo + MAXOPBLOCKS {
      if x in log {
        var b: nat :| b in own && x == sb.BBLOCK(b);
        var k: nat :| k < MAXOPBLOCKS && b == Mark(sb, k);
        MarkBitmap(sb, k);
      }
      if lo <= x < lo + MAXOPBLOCKS {
        MarkBitmap(sb, x - lo);
        assert Mark(sb, x - lo) in own;
      }
    }
    assert log == Interval(lo, lo + MAXOPBLOCKS);
    InodeBefore(sb);
  }

  lemma MarkBitmap(sb: Super, k: nat)
    requires sb.Valid() && k < Span(sb)
    ensures sb.BBLOCK(Mark(sb, k)) == FirstBitmap(sb) + k && Mark(sb, k) >= 0
  {
    MarkIn(sb, k);
    hide Mark;
  }

  lemma InodeBefore(sb: Super)
    requires sb.Laid() && sb.ninodes > 0
    ensures sb.IBLOCK(0) < FirstBitmap(sb)
  {
  }

  /** itrunc of every file of every consistent file system fits into one transaction if and only
      if the bits of the data blocks lie in fewer than MAXOPBLOCKS blocks of the bitmap. */
  lemma TruncBudget(sb: Super)
    requires sb.Valid() && sb.Laid() && sb.ninodes > 0
    ensures (forall fs, own, i: nat :: Inv(sb, fs, own) && i < sb.ninodes ==> |TruncLog(sb, own, i)| <= MAXOPBLOCKS)
            <==> Span(sb) < MAXOPBLOCKS
  {
    hide Inv;
    hide Span;
    hide TruncLog;
    if Span(sb) < MAXOPBLOCKS {
      forall fs, own, i: nat | Inv(sb, fs, own) ensures |TruncLog(sb, own, i)| <= MAXOPBLOCKS {
        TruncBound(sb, fs, own, i);
      }
    } else {
      MarkedConsistent(sb);
      MarkedLogsMore(sb);
    }
  }

  // ---------- writei ----------

  /** A block has one slot. */
  lemma {:induction false} DataSetExact(sb: Super, fs: Fs, own: Owners, i: nat, lo: nat, hi: nat)
    requires Inv(sb, fs, own) && i < sb.ninodes && lo <= hi <= MAXFILE
    requires forall bn: nat :: lo <= bn < hi ==> Addr(sb, fs, i, SlotOf(bn)) != 0
    ensures |DataSet(sb, fs, i, lo, hi)| == hi - lo
    decreases hi
  {
    hide Inv;
    hide Addr;
    InvShaped(sb, fs, own);
    if lo < hi {
      DataSetExact(sb, fs, own, i, lo, hi - 1);
      var a := Addr(sb, fs, i, SlotOf(hi - 1));
      forall bn: nat | lo <= bn < hi - 1 ensures Addr(sb, fs, i, SlotOf(bn)) != a {
        SlotIsData(bn);
        SlotIsData(hi - 1);
        if Addr(sb, fs, i, SlotOf(bn)) == a {
          NoSharing(sb, fs, own, i, SlotOf(bn), i, SlotOf(hi - 1));
        }
      }
      assert DataSet(sb, fs, i, lo, hi) == DataSet(sb, fs, i, lo, hi - 1) + {a};
    } else {
      assert DataSet(sb, fs, i, lo, hi) == {};
    }
  }

  /** A write that ran to its end, in a transaction of its own. */
  ghost predicate FullWrite(sb: Super, fs: Fs, own: Owners, fs': Fs, own': Owners, logged: set<int>, i: nat, lo: nat, hi: nat) {
    && Inv(sb, fs, own) && Inv(sb, fs', own') && sb.Laid() && i < sb.ninodes && lo <= hi <= MAXFILE
    && Exactly(sb, own, {}, fs', own', logged, i, lo, hi, hi, {sb.IBLOCK(i)})
    && forall bn: nat :: lo <= bn < hi ==> Addr(sb, fs', i, SlotOf(bn)) != 0
  }

  /** It allocated the indirect block or changed it. */
  ghost predicate TouchesIndirect(own: Owners, own': Owners, ib: int) {
    Listing(own, own') || ib in NewOnes(own, own')
  }

  /** A new block is the indirect block or one of those written. */
  lemma NewIsTouched(sb: Super, fs: Fs, own: Owners, fs': Fs, own': Owners, logged: set<int>, i: nat, lo: nat, hi: nat, b: int)
    requires FullWrite(sb, fs, own, fs', own', logged, i, lo, hi) && b in NewOnes(own, own')
    ensures b == fs'.inodes[i].addrs[INDIRECT] || b in DataSet(sb, fs', i, lo, hi)
    ensures sb.dataStart <= b < sb.size
  {
    assert OwnedRightly(sb, fs', own', b);
    var s := own'[b].1;
    assert s != INDIRECT ==> SlotOf(BlockOfSlot(s)) == s;
    assert s == INDIRECT ==> Addr(sb, fs', i, s) == fs'.inodes[i].addrs[INDIRECT];
    hide Addr;
  }

  /** The indirect block is none of those written, and an indirect block that lists blocks is a
      data block. */
  lemma IndirectApart(sb: Super, fs: Fs, own: Owners, fs': Fs, own': Owners, logged: set<int>, i: nat, lo: nat, hi: nat)
    requires FullWrite(sb, fs, own, fs', own', logged, i, lo, hi)
    ensures var ib := fs'.inodes[i].addrs[INDIRECT];
            ib !in DataSet(sb, fs', i, lo, hi) && (TouchesIndirect(own, own', ib) ==> sb.dataStart <= ib < sb.size)
  {
    var ib := fs'.inodes[i].addrs[INDIRECT];
    assert Addr(sb, fs', i, INDIRECT) == ib;
    if Listing(own, own') {
      var b :| b in NewOnes(own, own') && own'[b].1 > INDIRECT;
      assert OwnedRightly(sb, fs', own', b);
      assert ib != 0;
    }
    if ib in NewOnes(own, own') {
      assert OwnedRightly(sb, fs', own', ib);
    }
    assert OwnsSlot(sb, fs', own', i, INDIRECT);
    hide Addr;
    forall bn: nat | lo <= bn < hi ensures Addr(sb, fs', i, SlotOf(bn)) != ib {
      SlotIsData(bn);
      assert OwnsSlot(sb, fs', own', i, SlotOf(bn));
    }
  }

  lemma DataInRange(sb: Super, fs': Fs, own': Owners, i: nat, lo: nat, hi: nat, x: int)
    requires Inv(sb, fs', own') && i < sb.ninodes && lo <= hi <= MAXFILE && x in DataSet(sb, fs', i, lo, hi)
    requires forall bn: nat :: lo <= bn < hi ==> Addr(sb, fs', i, SlotOf(bn)) != 0
    ensures sb.dataStart <= x < sb.size
  {
    hide Addr;
    var bn: nat :| lo <= bn < hi && x == Addr(sb, fs', i, SlotOf(bn));
    SlotIsData(bn);
    assert OwnsSlot(sb, fs', own', i, SlotOf(bn));
  }

  /** What is logged, by area: the inode's block, the bitmap blocks of what was allocated, the
      blocks written, the indirect block. */
  lemma LogByArea(sb: Super, fs: Fs, own: Owners, fs': Fs, own': Owners, logged: set<int>, i: nat, lo: nat, hi: nat)
    requires FullWrite(sb, fs, own, fs', own', logged, i, lo, hi)
    ensures var ib := fs'.inodes[i].addrs[INDIRECT];
            logged == {sb.IBLOCK(i)} + BitmapBlocks(sb, NewOnes(own, own')) + DataSet(sb, fs', i, lo, hi)
                      + if TouchesIndirect(own, own', ib) then {ib} else {}
  {
    var ib := fs'.inodes[i].addrs[INDIRECT];
    forall b | b in NewOnes(own, own') ensures b == ib || b in DataSet(sb, fs', i, lo, hi) {
      NewIsTouched(sb, fs, own, fs', own', logged, i, lo, hi, b);
    }
    hide Inv;
    hide DataSet;
    hide BitmapBlocks;
    hide NewOnes;
    hide Listing;
  }

  /** The size of a union of sets in disjoint areas. */
  lemma AreasAdd(inode: int, bits: set<int>, data: set<int>, ind: set<int>, bmapstart: int, dataStart: int)
    requires inode < bmapstart <= dataStart && (forall x :: x in bits ==> bmapstart <= x < dataStart)
    requires (forall x :: x in data ==> dataStart <= x) && (forall x :: x in ind ==> dataStart <= x) && data !! ind
    ensures |{inode} + bits + data + ind| == 1 + |bits| + |data| + |ind|
  {
    var low := {inode} + bits;
    assert |low| == 1 + |bits|;
    forall x | x in low ensures x < dataStart {
    }
    assert |low + data| == |low| + |data| by {
      assert low * data == {};
    }
    assert |low + data + ind| == |low + data| + |ind| by {
      assert (low + data) * ind == {};
    }
  }

  /** Exactly how much a write logs. */
  lemma WriteCount(sb: Super, fs: Fs, own: Owners, fs': Fs, own': Owners, logged: set<int>, i: nat, lo: nat, hi: nat)
    requires FullWrite(sb, fs, own, fs', own', logged, i, lo, hi)
    ensures |logged| == 1 + (hi - lo) + |BitmapBlocks(sb, NewOnes(own, own'))|
                        + if TouchesIndirect(own, own', fs'.inodes[i].addrs[INDIRECT]) then 1 else 0
  {
    var ib := fs'.inodes[i].addrs[INDIRECT];
    var bits, data := BitmapBlocks(sb, NewOnes(own, own')), DataSet(sb, fs', i, lo, hi);
    var ind: set<int> := if TouchesIndirect(own, own', ib) then {ib} else {};
    LogByArea(sb, fs, own, fs', own', logged, i, lo, hi);
    DataSetExact(sb, fs', own', i, lo, hi);
    IndirectApart(sb, fs, own, fs', own', logged, i, lo, hi);
    forall x | x in bits ensures sb.bmapstart <= x < sb.dataStart {
      var b: nat :| b in NewOnes(own, own') && x == sb.BBLOCK(b);
      NewIsTouched(sb, fs, own, fs', own', logged, i, lo, hi, b);
    }
    forall x | x in data ensures sb.dataStart <= x {
      DataInRange(sb, fs', own', i, lo, hi, x);
    }
    assert sb.IBLOCK(i) < sb.bmapstart;
    hide FullWrite;
    hide TouchesIndirect;
    hide BitmapBlocks;
    hide DataSet;
    AreasAdd(sb.IBLOCK(i), bits, data, ind, sb.bmapstart, sb.dataStart);
  }

  /** `bs` are the lowest free blocks. */
  ghost predicate LowestFree(sb: Super, fs: Fs, bs: set<int>)
    requires Shaped(sb, fs)
  {
    forall b :: b in bs ==>
      sb.dataStart <= b < sb.size && !fs.bits[b] && forall x :: sb.dataStart <= x < b ==> fs.bits[x] || x in bs
  }

  lemma LowestUnique(sb: Super, fs: Fs, a: set<int>, b: set<int>)
    requires Shaped(sb, fs) && LowestFree(sb, fs, a) && LowestFree(sb, fs, b) && |a| == |b|
    ensures a == b
  {
    if exists x :: x in a && x !in b {
      var x :| x in a && x !in b;
      forall y | y in b ensures y in a {
        assert x != y;
      }
      assert b - a == {};
    } else {
      assert a - b == {};
    }
    SameSize(a, b);
    SameSize(b, a);
  }

  lemma SameSize(a: set<int>, b: set<int>)
    requires |a| == |b|
    ensures a - b == {} ==> a == b
  {
    if a - b == {} {
      assert forall x :: x in a ==> x !in a - b;
      assert b * a == a;
      assert |b - a| == |b| - |b * a|;
      assert forall x :: x in b ==> x !in b - a;
    }
  }

  /** The four lowest free blocks have their bits in four different blocks of the bitmap. */
  ghost predicate FourApart(sb: Super, fs: Fs)
    requires Shaped(sb, fs)
  {
    exists bs :: |bs| == 4 && LowestFree(sb, fs, bs) && |BitmapBlocks(sb, bs)| == 4
  }

  /** A write that touches four file blocks, needs three of them and the indirect block
      allocated, and finds these far apart. */
  ghost predicate TakesAll(sb: Super, fs: Fs, i: nat, lo: nat, hi: nat)
    requires Shaped(sb, fs) && i < sb.ninodes && hi <= MAXFILE
  {
    && hi - lo == 4 && hi > NDIRECT
    && Addr(sb, fs, i, INDIRECT) == 0
    && (forall bn: nat :: lo < bn < hi ==> Addr(sb, fs, i, SlotOf(bn)) == 0)
    && FourApart(sb, fs)
  }

  lemma NewIsLowest(sb: Super, fs: Fs, own: Owners, fs': Fs, own': Owners, logged: set<int>, i: nat, lo: nat, hi: nat)
    requires FullWrite(sb, fs, own, fs', own', logged, i, lo, hi)
    ensures LowestFree(sb, fs, NewOnes(own, own'))
  {
    forall b | b in NewOnes(own, own')
      ensures sb.dataStart <= b < sb.size && !fs.bits[b] && forall x :: sb.dataStart <= x < b ==> fs.bits[x] || x in NewOnes(own, own')
    {
      NewIsTouched(sb, fs, own, fs', own', logged, i, lo, hi, b);
      hide Addr;
      forall x | sb.dataStart <= x < b ensures fs.bits[x] || x in NewOnes(own, own') {
        assert x in own';
      }
    }
  }

  /** A slot that was empty and is not any more holds a new block, and the other way round. */
  lemma NewWhenEmpty(sb: Super, fs: Fs, own: Owners, fs': Fs, own': Owners, i: nat, s: nat)
    requires Inv(sb, fs, own) && Inv(sb, fs', own') && Grows(own, own') && i < sb.ninodes && s < NSLOT && Addr(sb, fs', i, s) != 0
    ensures Addr(sb, fs', i, s) in NewOnes(own, own') <==> Addr(sb, fs, i, s) == 0
  {
    hide Addr;
    var b := Addr(sb, fs', i, s);
    assert OwnsSlot(sb, fs', own', i, s) && OwnsSlot(sb, fs, own, i, s);
    if b in own {
      assert OwnedRightly(sb, fs, own, b);
    }
    if Addr(sb, fs, i, s) != 0 {
      assert OwnedRightly(sb, fs', own', Addr(sb, fs, i, s));
    }
  }

  /** At most as many bitmap blocks as blocks. */
  lemma {:induction false} BitmapBlocksSize(sb: Super, bs: set<int>)
    ensures |BitmapBlocks(sb, bs)| <= |bs|
    decreases |bs|
  {
    hide Super.BBLOCK;
    if exists b :: b in bs {
      var b :| b in bs;
      BitmapBlocksSize(sb, bs - {b});
      BitmapUnion(sb, bs - {b}, {b});
      assert bs - {b} + {b} == bs;
      assert BitmapBlocks(sb, {b}) == if b >= 0 then {sb.BBLOCK(b)} else {};
    } else {
      assert BitmapBlocks(sb, bs) == {};
    }
  }

  /** The blocks a write of four file blocks may have allocated: the first one is there. */
  ghost function Candidates(sb: Super, fs': Fs, i: nat, lo: nat): set<int>
    requires Shaped(sb, fs') && i < sb.ninodes && lo + 4 <= MAXFILE
  {
    DataSet(sb, fs', i, lo + 1, lo + 4) + {fs'.inodes[i].addrs[INDIRECT]}
  }

  lemma FullWriteFacts(sb: Super, fs: Fs, own: Owners, fs': Fs, own': Owners, logged: set<int>, i: nat, lo: nat, hi: nat)
    requires FullWrite(sb, fs, own, fs', own', logged, i, lo, hi)
    ensures Shaped(sb, fs) && Shaped(sb, fs') && Inv(sb, fs', own') && i < sb.ninodes && lo <= hi <= MAXFILE
    ensures forall bn: nat :: lo <= bn < hi ==> Addr(sb, fs', i, SlotOf(bn)) != 0
  {
  }

  lemma DataSetSub(sb: Super, fs: Fs, i: nat, lo: nat, hi: nat)
    requires Shaped(sb, fs) && i < sb.ninodes && hi <= MAXFILE
    ensures DataSet(sb, fs, i, lo + 1, hi) <= DataSet(sb, fs, i, lo, hi)
  {
    hide Addr;
  }

  lemma CandidatesFour(sb: Super, fs: Fs, own: Owners, fs': Fs, own': Owners, logged: set<int>, i: nat, lo: nat)
    requires FullWrite(sb, fs, own, fs', own', logged, i, lo, lo + 4)
    ensures |Candidates(sb, fs', i, lo)| == 4
  {
    hide Addr;
    hide Inv;
    hide DataSet;
    hide FullWrite;
    hide TouchesIndirect;
    FullWriteFacts(sb, fs, own, fs', own', logged, i, lo, lo + 4);
    IndirectApart(sb, fs, own, fs', own', logged, i, lo, lo + 4);
    DataSetExact(sb, fs', own', i, lo + 1, lo + 4);
    DataSetSub(sb, fs', i, lo, lo + 4);
  }

  lemma NewAreCandidates(sb: Super, fs: Fs, own: Owners, fs': Fs, own': Owners, logged: set<int>, i: nat, lo: nat)
    requires FullWrite(sb, fs, own, fs', own', logged, i, lo, lo + 4) && Addr(sb, fs, i, SlotOf(lo)) != 0
    ensures NewOnes(own, own') <= Candidates(sb, fs', i, lo)
  {
    hide Addr;
    hide Inv;
    SlotIsData(lo);
    NewWhenEmpty(sb, fs, own, fs', own', i, SlotOf(lo));
    forall b | b in NewOnes(own, own') ensures b in Candidates(sb, fs', i, lo) {
      NewIsTouched(sb, fs, own, fs', own', logged, i, lo, lo + 4, b);
      if b != fs'.inodes[i].addrs[INDIRECT] {
        var bn: nat :| lo <= bn < lo + 4 && b == Addr(sb, fs', i, SlotOf(bn));
        assert bn != lo;
      }
    }
  }

  /** All of them were allocated exactly when the slots were empty. */
  lemma CandidatesNew(sb: Super, fs: Fs, own: Owners, fs': Fs, own': Owners, logged: set<int>, i: nat, lo: nat)
    requires FullWrite(sb, fs, own, fs', own', logged, i, lo, lo + 4)
    ensures Candidates(sb, fs', i, lo) <= NewOnes(own, own') <==>
              lo + 4 > NDIRECT && Addr(sb, fs, i, INDIRECT) == 0 && forall bn: nat :: lo < bn < lo + 4 ==> Addr(sb, fs, i, SlotOf(bn)) == 0
  {
    forall bn: nat | lo < bn < lo + 4
      ensures Addr(sb, fs', i, SlotOf(bn)) in NewOnes(own, own') <==> Addr(sb, fs, i, SlotOf(bn)) == 0
      ensures Addr(sb, fs', i, SlotOf(bn)) in DataSet(sb, fs', i, lo + 1, lo + 4)
    {
      SlotIsData(bn);
      NewWhenEmpty(sb, fs, own, fs', own', i, SlotOf(bn));
    }
    IndirectNew(sb, fs, own, fs', own', logged, i, lo, lo + 4);
    hide Addr;
    hide Inv;
    hide NewOnes;
  }

  /** The indirect block was allocated exactly when it was missing and a file block needed it. */
  lemma IndirectNew(sb: Super, fs: Fs, own: Owners, fs': Fs, own': Owners, logged: set<int>, i: nat, lo: nat, hi: nat)
    requires FullWrite(sb, fs, own, fs', own', logged, i, lo, hi) && lo < hi
    ensures fs'.inodes[i].addrs[INDIRECT] in NewOnes(own, own') <==> hi > NDIRECT && Addr(sb, fs, i, INDIRECT) == 0
  {
    var ib := fs'.inodes[i].addrs[INDIRECT];
    assert Addr(sb, fs', i, INDIRECT) == ib;
    SlotIsData(hi - 1);
    assert hi > NDIRECT ==> Addr(sb, fs', i, SlotOf(hi - 1)) != 0 && ib != 0;
    if ib in NewOnes(own, own') {
      assert OwnedRightly(sb, fs', own', ib) && OwnsSlot(sb, fs', own', i, INDIRECT);
    }
    hide Addr;
    if ib != 0 {
      NewWhenEmpty(sb, fs, own, fs', own', i, INDIRECT);
    }
  }

  /** A write of four file blocks that logs MAXOPBLOCKS blocks had to allocate all it may. */
  lemma FourNeed(sb: Super, fs: Fs, own: Owners, fs': Fs, own': Owners, logged: set<int>, i: nat, lo: nat)
    requires FullWrite(sb, fs, own, fs', own', logged, i, lo, lo + 4) && Addr(sb, fs, i, SlotOf(lo)) != 0
    requires |logged| == MAXOPBLOCKS
    ensures TakesAll(sb, fs, i, lo, lo + 4)
  {
    hide FullWrite;
    hide Addr;
    hide Candidates;
    hide BitmapBlocks;
    hide NewOnes;
    hide LowestFree;
    FullWriteFacts(sb, fs, own, fs', own', logged, i, lo, lo + 4);
    var news, cands := NewOnes(own, own'), Candidates(sb, fs', i, lo);
    WriteCount(sb, fs, own, fs', own', logged, i, lo, lo + 4);
    NewAreCandidates(sb, fs, own, fs', own', logged, i, lo);
    CandidatesNew(sb, fs, own, fs', own', logged, i, lo);
    CandidatesFour(sb, fs, own, fs', own', logged, i, lo);
    NewIsLowest(sb, fs, own, fs', own', logged, i, lo, lo + 4);
    BitmapBlocksSize(sb, news);
    SubsetSize(news, cands);
    assert |BitmapBlocks(sb, news)| == 4 == |news|;
    SameSize(news, cands);
    assert news - cands == {};
    assert FourApart(sb, fs);
  }

  lemma FourSuffice(sb: Super, fs: Fs, own: Owners, fs': Fs, own': Owners, logged: set<int>, i: nat, lo: nat)
    requires FullWrite(sb, fs, own, fs', own', logged, i, lo, lo + 4) && Addr(sb, fs, i, SlotOf(lo)) != 0
    requires TakesAll(sb, fs, i, lo, lo + 4)
    ensures |logged| == MAXOPBLOCKS
  {
    hide FullWrite;
    hide Addr;
    hide Candidates;
    hide BitmapBlocks;
    hide NewOnes;
    hide LowestFree;
    hide Listing;
    FullWriteFacts(sb, fs, own, fs', own', logged, i, lo, lo + 4);
    var bs :| |bs| == 4 && LowestFree(sb, fs, bs) && |BitmapBlocks(sb, bs)| == 4;
    var news, cands := NewOnes(own, own'), Candidates(sb, fs', i, lo);
    WriteCount(sb, fs, own, fs', own', logged, i, lo, lo + 4);
    NewAreCandidates(sb, fs, own, fs', own', logged, i, lo);
    CandidatesNew(sb, fs, own, fs', own', logged, i, lo);
    CandidatesFour(sb, fs, own, fs', own', logged, i, lo);
    IndirectNew(sb, fs, own, fs', own', logged, i, lo, lo + 4);
    assert news == cands;
    NewIsLowest(sb, fs, own, fs', own', logged, i, lo, lo + 4);
    LowestUnique(sb, fs, bs, news);
  }

  /** A write allocates no more blocks than it touches file blocks, and the indirect block. */
  lemma NewFew(sb: Super, fs': Fs, own: Owners, own': Owners, i: nat, lo: nat, hi: nat)
    requires Inv(sb, fs', own') && i < sb.ninodes && lo <= hi <= MAXFILE && NewSlots(own, own', i, lo, hi)
    ensures |NewOnes(own, own')| <= hi - lo + 1
  {
    var data, ib := DataSet(sb, fs', i, lo, hi), fs'.inodes[i].addrs[INDIRECT];
    forall b | b in NewOnes(own, own') ensures b in data + {ib} {
      assert OwnedRightly(sb, fs', own', b);
      var s := own'[b].1;
      assert s != INDIRECT ==> SlotOf(BlockOfSlot(s)) == s;
      assert s == INDIRECT ==> Addr(sb, fs', i, s) == ib;
    }
    hide Addr;
    hide Inv;
    DataSetSize(sb, fs', i, lo, hi);
    hide DataSet;
    SubsetSize(NewOnes(own, own'), data + {ib});
  }

  lemma ChunkBlocks(off: nat, n: nat)
    requires n <= MAXCHUNK
    ensures off / BSIZE <= BlockEnd(off, n) <= off / BSIZE + 4
    ensures BlockEnd(off, n) == off / BSIZE + 4 ==> off / BSIZE * BSIZE < off
  {
  }

  /** writei's budget, exactly: a chunk of filewrite that is written to its end logs MAXOPBLOCKS
      blocks if and only if it touches four file blocks, all but the first of which and the
      indirect block it has to allocate, and the four lowest free blocks have their bits in
      four different blocks of the bitmap. */
  lemma WriteBudgetExact(sb: Super, fs: Fs, own: Owners, fs': Fs, own': Owners, logged: set<int>, i: nat, off: nat, n: nat)
    requires FullWrite(sb, fs, own, fs', own', logged, i, off / BSIZE, BlockEnd(off, n)) && n <= MAXCHUNK
    requires Shaped(sb, fs) && i < sb.ninodes && NoHoles(sb, fs, i) && off <= fs.inodes[i].size
    ensures |logged| == MAXOPBLOCKS <==> TakesAll(sb, fs, i, off / BSIZE, BlockEnd(off, n))
  {
    hide BlockEnd;
    hide FullWrite;
    hide TakesAll;
    hide NoHoles;
    hide Addr;
    var lo, hi := off / BSIZE, BlockEnd(off, n);
    ChunkBlocks(off, n);
    if hi == lo + 4 {
      FirstMapped(sb, fs, i, off);
      FourExact(sb, fs, own, fs', own', logged, i, lo);
    } else {
      FewCount(sb, fs, own, fs', own', logged, i, lo, hi);
    }
  }

  lemma FirstMapped(sb: Super, fs: Fs, i: nat, off: nat)
    requires Shaped(sb, fs) && i < sb.ninodes && NoHoles(sb, fs, i) && off / BSIZE * BSIZE < off <= fs.inodes[i].size
    ensures off / BSIZE < MAXFILE && Addr(sb, fs, i, SlotOf(off / BSIZE)) != 0
  {
    hide Addr;
  }

  lemma FourExact(sb: Super, fs: Fs, own: Owners, fs': Fs, own': Owners, logged: set<int>, i: nat, lo: nat)
    requires Shaped(sb, fs) && i < sb.ninodes && lo < MAXFILE
    requires FullWrite(sb, fs, own, fs', own', logged, i, lo, lo + 4) && Addr(sb, fs, i, SlotOf(lo)) != 0
    ensures lo + 4 <= MAXFILE && (|logged| == MAXOPBLOCKS <==> TakesAll(sb, fs, i, lo, lo + 4))
  {
    hide FullWrite;
    hide TakesAll;
    hide Addr;
    FullWriteFacts(sb, fs, own, fs', own', logged, i, lo, lo + 4);
    if |logged| == MAXOPBLOCKS {
      FourNeed(sb, fs, own, fs', own', logged, i, lo);
    }
    if TakesAll(sb, fs, i, lo, lo + 4) {
      FourSuffice(sb, fs, own, fs', own', logged, i, lo);
    }
  }

  lemma FewCount(sb: Super, fs: Fs, own: Owners, fs': Fs, own': Owners, logged: set<int>, i: nat, lo: nat, hi: nat)
    requires FullWrite(sb, fs, own, fs', own', logged, i, lo, hi) && hi < lo + 4
    ensures |logged| < MAXOPBLOCKS && Shaped(sb, fs) && i < sb.ninodes && hi <= MAXFILE && !TakesAll(sb, fs, i, lo, hi)
  {
    assert NewSlots(own, own', i, lo, hi);
    hide FullWrite;
    hide NewOnes;
    hide BitmapBlocks;
    hide NewSlots;
    hide Addr;
    FullWriteFacts(sb, fs, own, fs', own', logged, i, lo, hi);
    WriteCount(sb, fs, own, fs', own', logged, i, lo, hi);
    NewFew(sb, fs', own, own', i, lo, hi);
    BitmapBlocksSize(sb, NewOnes(own, own'));
  }

  /** One transaction of filewrite. */
  method WriteChunk(f: FileSys, i: nat, src: seq<int>, avail: nat, off: nat) returns (r: int, ghost t: Txn)
    requires f.Valid() && i < f.sb.ninodes && NoHoles(f.sb, f.fs, i)
    requires off < 0x1_0000_0000 && |src| <= MAXCHUNK
    modifies f
    ensures r == -1 <==> BadWrite(old(f.fs).inodes[i].size, off, |src|)
    ensures IsTxn(f.sb, t) && t.before == old(f.fs) && t.logged == f.logged
    ensures r >= 0 ==> r <= |src| && Wrote(f.sb, old(f.fs), t.after, i, off, src[..r])
    ensures r >= 0 && r == |src| ==>
              off + |src| <= MAXFILE * BSIZE &&
              (|f.logged| == MAXOPBLOCKS <==> TakesAll(f.sb, old(f.fs), i, off / BSIZE, BlockEnd(off, |src|)))
  {
    hide Inv;
    hide Tracked;
    hide Wrote;
    hide NoHoles;
    hide Exactly;
    hide Grows;
    hide NewSlots;
    hide LeftAt;
    hide Step;
    hide TakesAll;
    hide IsTxn;
    ghost var fs0, own0 := f.fs, f.own;
    InvShaped(f.sb, fs0, own0);
    ghost var left;
    r, t, left := WriteTxn(f, i, src, avail, off);
    if r >= 0 && r == |src| {
      assert src[..r] == src;
      WriteIsFull(f.sb, t, i, off, src);
      WriteBudgetExact(f.sb, fs0, own0, t.after, f.own, f.logged, i, off, |src|);
    }
  }

  lemma WriteIsFull(sb: Super, t: Txn, i: nat, off: nat, src: seq<int>)
    requires IsTxn(sb, t) && Wrote(sb, t.before, t.after, i, off, src)
    requires off + |src| <= MAXFILE * BSIZE
    requires Exactly(sb, t.ownBefore, {}, t.after, t.ownAfter, t.logged, i, off / BSIZE, BlockEnd(off, |src|), BlockEnd(off, |src|),
                     {sb.IBLOCK(i)})
    ensures FullWrite(sb, t.before, t.ownBefore, t.after, t.ownAfter, t.logged, i, off / BSIZE, BlockEnd(off, |src|))
  {
    hide Inv;
    hide Exactly;
    hide Addr;
    OverwrittenAt(Content(sb, t.before, i), off, src);
    var size := t.after.inodes[i].size;
    assert size >= off + |src|;
    hide Content;
    forall bn: nat | off / BSIZE <= bn < BlockEnd(off, |src|) ensures bn * BSIZE < size && bn < MAXFILE {
    }
    hide BlockEnd;
  }

  // ---------- a file system where that happens ----------

  /** Five bitmap blocks.  All data blocks below 4 * BPB are in use but the first of each bitmap
      block; those above are free. */
  const BUSY: Super := Super(4 * BPB + 16, 2740, 2, 200, 210)

  predicate InUse(b: int) {
    BUSY.dataStart <= b < 4 * BPB && b % BPB != 0
  }

  /** Inode 0 has ten blocks, the others have the rest in turn. */
  function OwnerOf(b: int): (nat, nat)
    requires InUse(b)
  {
    var k := b - BUSY.dataStart;
    if k < 10 then (0, k) else (1 + (k - 10) / NDIRECT, (k - 10) % NDIRECT)
  }

  function BlockIn(i: nat, s: nat): nat {
    var b := if i == 0 then BUSY.dataStart + s else BUSY.dataStart + 10 + NDIRECT * (i - 1) + s;
    if s >= NDIRECT || (i == 0 && s >= 10) || !InUse(b) then 0 else b
  }

  lemma BlockInOwner(i: nat, s: nat)
    ensures BlockIn(i, s) != 0 ==> InUse(BlockIn(i, s)) && OwnerOf(BlockIn(i, s)) == (i, s)
  {
  }

  lemma OwnerBlockIn(b: int)
    requires InUse(b)
    ensures OwnerOf(b).0 < BUSY.ninodes && OwnerOf(b).1 < NDIRECT && BlockIn(OwnerOf(b).0, OwnerOf(b).1) == b
  {
  }

  function BusyInode(i: nat): (ino: Inode)
    ensures |ino.addrs| == NDIRECT + 1 && forall s: nat :: s <= NDIRECT ==> ino.addrs[s] == BlockIn(i, s)
    ensures ino.size == if i == 0 then 9 * BSIZE + 1 else 0
  {
    Inode(2, 0, 0, 1, if i == 0 then 9 * BSIZE + 1 else 0, seq(NDIRECT + 1, s requires 0 <= s <= NDIRECT => BlockIn(i, s)))
  }

  function BusyFs(): (fs: Fs)
    ensures |fs.bits| == |fs.blocks| == BUSY.size && |fs.inodes| == |fs.dinodes| == BUSY.ninodes
    ensures forall b :: 0 <= b < BUSY.size ==> fs.bits[b] == (b < BUSY.dataStart || InUse(b)) && fs.blocks[b] == ZeroBlock()
    ensures forall i: nat :: i < BUSY.ninodes ==> fs.inodes[i] == BusyInode(i)
  {
    var inodes := seq(BUSY.ninodes, i requires 0 <= i < BUSY.ninodes => BusyInode(i));
    Fs(seq(BUSY.size, b requires 0 <= b < BUSY.size => b < BUSY.dataStart || InUse(b)), seq(BUSY.size, _ => ZeroBlock()), inodes, inodes)
  }

  ghost function BusyOwners(): Owners {
    map b | 0 <= b < BUSY.size && InUse(b) :: OwnerOf(b)
  }

  lemma BusyConsistent()
    ensures Inv(BUSY, BusyFs(), BusyOwners()) && BUSY.Laid()
  {
    hide BusyFs;
    hide BusyInode;
    hide BlockIn;
    hide OwnerOf;
    hide ZeroBlock;
    var sb, fs, own := BUSY, BusyFs(), BusyOwners();
    assert Shaped(sb, fs);
    forall i: nat, s: nat | i < sb.ninodes && s < NSLOT ensures OwnsSlot(sb, fs, own, i, s) {
      NoIndirect(i);
      if s < INDIRECT {
        BlockInOwner(i, s);
      }
    }
    forall b | b in own ensures OwnedRightly(sb, fs, own, b) {
      OwnerBlockIn(b);
    }
    BusyLaid();
  }

  lemma NoIndirect(i: nat)
    ensures BlockIn(i, INDIRECT) == 0
  {
  }

  lemma BusyLaid()
    ensures BUSY.Laid()
  {
    forall i: nat | i < BUSY.ninodes ensures BUSY.inodestart <= BUSY.IBLOCK(i) < BUSY.bmapstart {
      BusyInodeBlock(i);
    }
    forall b: nat | b < BUSY.size ensures BUSY.bmapstart <= BUSY.BBLOCK(b) < BUSY.dataStart {
      BusyBitBlock(b);
    }
    hide Super.IBLOCK;
    hide Super.BBLOCK;
  }

  lemma BusyInodeBlock(i: nat)
    requires i < BUSY.ninodes
    ensures BUSY.inodestart <= BUSY.IBLOCK(i) < BUSY.bmapstart
  {
    assert i / IPB < 172;
  }

  lemma BusyBitBlock(b: nat)
    requires b < BUSY.size
    ensures BUSY.bmapstart <= BUSY.BBLOCK(b) < BUSY.dataStart
  {
    assert b / BPB < 5;
  }

  /** The lowest four free blocks are those left out, in four bitmap blocks. */
  lemma BusyApart()
    requires Shaped(BUSY, BusyFs())
    ensures FourApart(BUSY, BusyFs())
  {
    var bs: set<int> := {BPB, 2 * BPB, 3 * BPB, 4 * BPB};
    assert |bs| == 4;
    hide BusyFs;
    forall x | BUSY.dataStart <= x < 4 * BPB ensures InUse(x) || x in bs {
      if x % BPB == 0 {
        MultipleOf(x);
      }
    }
    assert LowestFree(BUSY, BusyFs(), bs);
    var bits: set<int> := {201, 202, 203, 204};
    assert |bits| == 4;
    assert BUSY.BBLOCK(BPB) == 201 && BUSY.BBLOCK(2 * BPB) == 202 && BUSY.BBLOCK(3 * BPB) == 203 && BUSY.BBLOCK(4 * BPB) == 204;
    assert BitmapBlocks(BUSY, bs) == bits;
  }

  lemma MultipleOf(x: int)
    requires 0 < x < 4 * BPB && x % BPB == 0
    ensures x == BPB || x == 2 * BPB || x == 3 * BPB
  {
    assert x == x / BPB * BPB;
  }

  lemma BusyTakesAll()
    requires Shaped(BUSY, BusyFs())
    ensures NoHoles(BUSY, BusyFs(), 0) && TakesAll(BUSY, BusyFs(), 0, 9, 13)
  {
    BusyApart();
    NoIndirect(0);
    hide FourApart;
    hide BusyFs;
    hide BusyInode;
    assert BusyFs().inodes[0] == BusyInode(0);
    assert forall bn: nat :: bn < 10 ==> BlockIn(0, bn) == BUSY.dataStart + bn;
  }

  /** There is room for what a chunk may need. */
  lemma BusyNotFull(fs': Fs, own': Owners, logged: set<int>, hi: nat)
    requires Inv(BUSY, fs', own') && Exactly(BUSY, BusyOwners(), {}, fs', own', logged, 0, 9, hi, 13, {BUSY.IBLOCK(0)})
    ensures exists b :: 0 <= b < BUSY.size && !fs'.bits[b]
  {
    NewFew(BUSY, fs', BusyOwners(), own', 0, 9, 13);
    hide Exactly;
    var spare := Interval(4 * BPB, 4 * BPB + 16);
    if forall b :: 0 <= b < BUSY.size ==> fs'.bits[b] {
      forall b | b in spare ensures b in NewOnes(BusyOwners(), own') {
        assert fs'.bits[b];
      }
      SubsetSize(spare, NewOnes(BusyOwners(), own'));
      assert false;
    }
  }

  lemma BusyNumbers(off: nat, n: nat)
    requires off == 9 * BSIZE + 1 && n == MAXCHUNK
    ensures off / BSIZE == 9 && BlockEnd(off, n) == 13 && off + n <= MAXFILE * BSIZE && 0 < off < 0x1_0000_0000 && !BadWrite(off, off, n)
  {
  }

  lemma StepWithin(off: nat, n: nat, r: nat)
    requires r <= n
    ensures r + Step(off + r, n - r) <= n
  {
  }

  lemma BusyReady(off: nat)
    requires off == 9 * BSIZE + 1
    ensures Inv(BUSY, BusyFs(), BusyOwners()) && BUSY.Laid() && Shaped(BUSY, BusyFs())
    ensures NoHoles(BUSY, BusyFs(), 0) && BusyFs().inodes[0].size == off
  {
    hide Inv;
    hide Super.Laid;
    hide TakesAll;
    BusyConsistent();
    InvShaped(BUSY, BusyFs(), BusyOwners());
    BusyTakesAll();
  }

  /** A chunk written to the end of the file on this disk is written to its end. */
  method BusyWrite(off: nat, src: seq<int>) returns (f: FileSys, ghost t: Txn)
    requires off == 9 * BSIZE + 1 && |src| == MAXCHUNK
    ensures f.Valid() && f.sb == BUSY && f.logged == t.logged && f.own == t.ownAfter && t.before == BusyFs() && t.ownBefore == BusyOwners()
    ensures IsTxn(BUSY, t) && Wrote(BUSY, t.before, t.after, 0, off, src)
    ensures Exactly(BUSY, t.ownBefore, {}, t.after, t.ownAfter, t.logged, 0, 9, 13, 13, {BUSY.IBLOCK(0)})
  {
    hide BusyFs;
    hide BusyOwners;
    hide Inv;
    hide Super.Laid;
    hide NoHoles;
    hide Exactly;
    hide Tracked;
    hide Grows;
    hide NewSlots;
    hide LeftAt;
    hide Wrote;
    hide IsTxn;
    hide Step;
    hide BadWrite;
    hide BlockEnd;
    BusyReady(off);
    BusyNumbers(off, |src|);
    f := new FileSys(BUSY, BusyFs(), BusyOwners());
    ghost var left;
    var r;
    r, t, left := WriteTxn(f, 0, src, |src|, off);
    StepWithin(off, |src|, r);
    if r < |src| {
      BusyNotFull(t.after, f.own, f.logged, BlockEnd(off, r));
      assert false;
    }
    assert src[..r] == src;
    LeftFacts(BUSY, t.after, f.fs, 0, off, src, |src|, r, left);
  }

  /** The budget is exact: on this disk a chunk logs MAXOPBLOCKS blocks. */
  method WriteBudgetReached() returns (f: FileSys)
    ensures f.Valid() && |f.logged| == MAXOPBLOCKS
  {
    hide BusyFs;
    hide BusyOwners;
    hide Inv;
    hide TakesAll;
    hide NoHoles;
    hide Exactly;
    hide Tracked;
    hide Wrote;
    hide IsTxn;
    hide BlockEnd;
    hide BadWrite;
    var src, off: nat := seq(MAXCHUNK, _ => 0), 9 * BSIZE + 1;
    BusyNumbers(off, |src|);
    BusyConsistent();
    InvShaped(BUSY, BusyFs(), BusyOwners());
    BusyTakesAll();
    ghost var t;
    f, t := BusyWrite(off, src);
    WriteIsFull(BUSY, t, 0, off, src);
    assert BusyFs().inodes[0] == BusyInode(0);
    WriteBudgetExact(BUSY, BusyFs(), BusyOwners(), t.after, f.own, f.logged, 0, off, |src|);
  }
}

/**
  Reading and writing files (kernel/fs.c, kernel/file.c): readi, writei and filewrite
  against the byte-array view of a file, and the blocks one transaction logs.
 */
module FileOps {
  import opened Param
  import opened Util
  import opened Disk
  import opened BlockMap
  import opened FileSystem
  import opened FileContents

  // ---------- the blocks a write logs ----------

  /** The blocks that hold file blocks lo..hi-1. */
  ghost function DataSet(sb: Super, fs: Fs, i: nat, lo: nat, hi: nat): set<int>
    requires Shaped(sb, fs) && i < sb.ninodes && hi <= MAXFILE
  {
    set bn: nat | lo <= bn < hi :: Addr(sb, fs, i, SlotOf(bn))
  }

  /** The bitmap blocks that hold their bits. */
  ghost function BitSet(sb: Super, fs: Fs, i: nat, lo: nat, hi: nat): set<int>
    requires Shaped(sb, fs) && i < sb.ninodes && hi <= MAXFILE
  {
    set bn: nat | lo <= bn < hi && Addr(sb, fs, i, SlotOf(bn)) > 0 :: sb.BBLOCK(Addr(sb, fs, i, SlotOf(bn)))
  }

  lemma {:induction false} DataSetSize(sb: Super, fs: Fs, i: nat, lo: nat, hi: nat)
    requires Shaped(sb, fs) && i < sb.ninodes && lo <= hi <= MAXFILE
    ensures |DataSet(sb, fs, i, lo, hi)| <= hi - lo
    decreases hi
  {
    if lo < hi {
      hide Addr;
      DataSetSize(sb, fs, i, lo, hi - 1);
      assert DataSet(sb, fs, i, lo, hi) == DataSet(sb, fs, i, lo, hi - 1) + {Addr(sb, fs, i, SlotOf(hi - 1))};
    }
  }

  lemma {:induction false} BitSetSize(sb: Super, fs: Fs, i: nat, lo: nat, hi: nat)
    requires Shaped(sb, fs) && i < sb.ninodes && lo <= hi <= MAXFILE
    ensures |BitSet(sb, fs, i, lo, hi)| <= hi - lo
    decreases hi
  {
    if lo < hi {
      hide Addr;
      BitSetSize(sb, fs, i, lo, hi - 1);
      var a := Addr(sb, fs, i, SlotOf(hi - 1));
      assert BitSet(sb, fs, i, lo, hi) == BitSet(sb, fs, i, lo, hi - 1) + if a > 0 then {sb.BBLOCK(a)} else {};
    }
  }

  /** `logged` is no more than: the blocks of file blocks lo..hi-1, the bitmap blocks of those
      from `nu` on, and the indirect block with its bitmap block. */
  ghost predicate LogWithin(sb: Super, fs: Fs, i: nat, logged: set<int>, lo: nat, nu: nat, hi: nat)
    requires Shaped(sb, fs) && i < sb.ninodes && hi <= MAXFILE
  {
    logged <= DataSet(sb, fs, i, lo, hi) + BitSet(sb, fs, i, nu, hi) + AllocLog(sb, fs.inodes[i].addrs[INDIRECT])
  }

  /** Mapping more blocks keeps the bound. */
  lemma LogWithinGrows(sb: Super, fs: Fs, own: Owners, fs': Fs, own': Owners, i: nat, logged: set<int>, lo: nat, nu: nat, hi: nat)
    requires Extended(sb, fs, own, fs', own', i) && hi <= MAXFILE && LogWithin(sb, fs, i, logged, lo, nu, hi)
    requires forall bn: nat :: lo <= bn < hi ==> Addr(sb, fs, i, SlotOf(bn)) != 0
    requires lo <= nu
    ensures LogWithin(sb, fs', i, logged, lo, nu, hi)
  {
    assert fs.inodes[i].addrs[INDIRECT] == Addr(sb, fs, i, INDIRECT) && fs'.inodes[i].addrs[INDIRECT] == Addr(sb, fs', i, INDIRECT);
    hide Addr;
    hide OwnsSlot;
    hide OwnedRightly;
    forall bn: nat | lo <= bn < hi ensures Addr(sb, fs', i, SlotOf(bn)) == Addr(sb, fs, i, SlotOf(bn)) {
      SlotIsData(bn);
    }
    assert DataSet(sb, fs', i, lo, hi) == DataSet(sb, fs, i, lo, hi);
    assert BitSet(sb, fs', i, nu, hi) == BitSet(sb, fs, i, nu, hi);
  }

  /** What visiting file block `hi` may log: its block, the indirect block, and the bitmap
      blocks of what had to be allocated. */
  ghost function VisitLog(sb: Super, fs: Fs, i: nat, nu: nat, hi: nat, addr: int): set<int>
    requires Shaped(sb, fs) && i < sb.ninodes
  {
    AllocLog(sb, fs.inodes[i].addrs[INDIRECT]) + (if nu <= hi then AllocLog(sb, addr) else {}) + {addr}
  }

  /** One more file block: bmap logged its allocation unless it was mapped already. */
  lemma LogWithinMore(sb: Super, fs: Fs, i: nat, logged: set<int>, logged': set<int>, lo: nat, nu: nat, hi: nat, addr: int)
    requires Shaped(sb, fs) && i < sb.ninodes && lo <= hi < MAXFILE && lo <= nu
    requires LogWithin(sb, fs, i, logged, lo, nu, hi) && addr == Addr(sb, fs, i, SlotOf(hi)) != 0
    requires logged' <= logged + VisitLog(sb, fs, i, nu, hi, addr)
    ensures LogWithin(sb, fs, i, logged', lo, nu, hi + 1)
  {
    hide Addr;
    assert DataSet(sb, fs, i, lo, hi + 1) == DataSet(sb, fs, i, lo, hi) + {addr};
    if nu <= hi && addr > 0 {
      assert sb.BBLOCK(addr) in BitSet(sb, fs, i, nu, hi + 1);
    }
    forall x | x in BitSet(sb, fs, i, nu, hi) ensures x in BitSet(sb, fs, i, nu, hi + 1) {
      var bn: nat :| nu <= bn < hi && Addr(sb, fs, i, SlotOf(bn)) > 0 && x == sb.BBLOCK(Addr(sb, fs, i, SlotOf(bn)));
    }
  }

  /** The bytes one transaction of filewrite writes at most. */
  const MAXCHUNK: nat := (MAXOPBLOCKS - 1 - 1 - 2) / 2 * BSIZE

  /** Write budget: a write of at most MAXCHUNK bytes logs at most MAXOPBLOCKS blocks.  An
      unaligned write touches one block more, but that one is mapped already. */
  lemma WriteBudget(sb: Super, fs: Fs, i: nat, logged: set<int>, off: nat, n: nat, hi: nat)
    requires Shaped(sb, fs) && i < sb.ninodes && n <= MAXCHUNK && hi <= MAXFILE
    requires off / BSIZE <= hi && (n == 0 ==> hi == off / BSIZE) && (n > 0 ==> hi <= (off + n - 1) / BSIZE + 1)
    requires LogWithin(sb, fs, i, logged, off / BSIZE, First(off), hi)
    ensures |logged + {sb.IBLOCK(i)}| <= MAXOPBLOCKS
  {
    hide Addr;
    var lo, nu := off / BSIZE, First(off);
    DataSetSize(sb, fs, i, lo, hi);
    if nu <= hi {
      BitSetSize(sb, fs, i, nu, hi);
    } else {
      assert BitSet(sb, fs, i, nu, hi) == {};
    }
    var a, b, c := DataSet(sb, fs, i, lo, hi), BitSet(sb, fs, i, nu, hi), AllocLog(sb, fs.inodes[i].addrs[INDIRECT]);
    assert |c| <= 2;
    SubsetSize(logged + {sb.IBLOCK(i)}, a + b + c + {sb.IBLOCK(i)});
    assert |a + b + c + {sb.IBLOCK(i)}| <= |a| + |b| + |c| + 1;
    assert (hi - lo) + (if nu <= hi then hi - nu else 0) <= 7;
  }

  lemma WriteBudgetBeyond(sb: Super, fs: Fs, i: nat, before: set<int>, logged: set<int>, off: nat, n: nat, hi: nat)
    requires Shaped(sb, fs) && i < sb.ninodes && n <= MAXCHUNK && hi <= MAXFILE
    requires off / BSIZE <= hi && (n == 0 ==> hi == off / BSIZE) && (n > 0 ==> hi <= (off + n - 1) / BSIZE + 1)
    requires LogWithin(sb, fs, i, logged - before, off / BSIZE, First(off), hi)
    ensures |logged + {sb.IBLOCK(i)} - before| <= MAXOPBLOCKS
  {
    hide LogWithin;
    WriteBudget(sb, fs, i, logged - before, off, n, hi);
    SubsetSize(logged + {sb.IBLOCK(i)} - before, logged - before + {sb.IBLOCK(i)});
  }

  /** The first file block a write at `off` may have to allocate. */
  function First(off: nat): nat {
    if off % BSIZE == 0 then off / BSIZE else off / BSIZE + 1
  }

  // ---------- exactly what a write logs ----------

  /** File blocks lo..hi-1 have been written, and those up to `top` may have been allocated:
      `logged'` is `logged` and `extra`, the blocks written, and what allocating the blocks
      that are new since `own` logs. */
  ghost predicate Exactly(sb: Super, own: Owners, logged: set<int>, fs': Fs, own': Owners, logged': set<int>,
                          i: nat, lo: nat, hi: nat, top: nat, extra: set<int>) {
    && Shaped(sb, fs') && i < sb.ninodes && hi <= MAXFILE
    && Grows(own, own') && Lowest(sb, own, own') && NewSlots(own, own', i, lo, top)
    && logged' == logged + NewLog(sb, own, own', fs'.inodes[i].addrs[INDIRECT]) + DataSet(sb, fs', i, lo, hi) + extra
  }

  lemma ExactlyStarts(sb: Super, fs: Fs, own: Owners, logged: set<int>, i: nat, lo: nat)
    requires Shaped(sb, fs) && i < sb.ninodes && lo <= MAXFILE
    ensures Exactly(sb, own, logged, fs, own, logged, i, lo, lo, lo, {})
  {
    AllocatesNothing(sb, own, logged, fs.inodes[i].addrs[INDIRECT], i, lo, lo);
    assert DataSet(sb, fs, i, lo, lo) == {};
  }

  /** An inode that lists a block keeps its indirect block. */
  lemma ListingKeepsIndirect(sb: Super, own: Owners, fs1: Fs, own1: Owners, fs2: Fs, own2: Owners, i: nat, lo: nat, hi: nat)
    requires NewSlots(own, own1, i, lo, hi) && Extended(sb, fs1, own1, fs2, own2, i) && Listing(own, own1)
    ensures fs2.inodes[i].addrs[INDIRECT] == fs1.inodes[i].addrs[INDIRECT]
  {
    var b :| b in NewOnes(own, own1) && own1[b].1 > INDIRECT;
    assert OwnedRightly(sb, fs1, own1, b);
    assert Addr(sb, fs1, i, INDIRECT) == fs1.inodes[i].addrs[INDIRECT] != 0;
    assert Addr(sb, fs2, i, INDIRECT) == fs2.inodes[i].addrs[INDIRECT];
  }

  /** One more file block, which bmap found or made, and which has been logged. */
  lemma ExactlyMore(sb: Super, own: Owners, logged: set<int>, fs1: Fs, own1: Owners, logged1: set<int>,
                    fs2: Fs, own2: Owners, logged2: set<int>, i: nat, lo: nat, hi: nat, addr: int)
    requires Exactly(sb, own, logged, fs1, own1, logged1, i, lo, hi, hi, {}) && lo <= hi < MAXFILE
    requires Extended(sb, fs1, own1, fs2, own2, i) && addr == Addr(sb, fs2, i, SlotOf(hi)) != 0
    requires Allocates(sb, own1, logged1, own2, logged2, fs2.inodes[i].addrs[INDIRECT], i, hi, hi + 1)
    requires forall bn: nat :: lo <= bn < hi ==> Addr(sb, fs1, i, SlotOf(bn)) != 0
    ensures Exactly(sb, own, logged, fs2, own2, logged2 + {addr}, i, lo, hi + 1, hi + 1, {})
  {
    var ib1, ib2 := fs1.inodes[i].addrs[INDIRECT], fs2.inodes[i].addrs[INDIRECT];
    if Listing(own, own1) {
      ListingKeepsIndirect(sb, own, fs1, own1, fs2, own2, i, lo, hi);
    }
    DataMore(sb, fs1, own1, fs2, own2, i, lo, hi, addr);
    AllocatedMore(sb, own, own1, ib1, own2, ib2, i, lo, hi);
    hide Addr;
    hide Inv;
    hide DataSet;
    hide NewLog;
    hide Listing;
    hide Lowest;
    hide NewSlots;
    hide Grows;
  }

  lemma DataMore(sb: Super, fs1: Fs, own1: Owners, fs2: Fs, own2: Owners, i: nat, lo: nat, hi: nat, addr: int)
    requires Extended(sb, fs1, own1, fs2, own2, i) && lo <= hi < MAXFILE && addr == Addr(sb, fs2, i, SlotOf(hi))
    requires forall bn: nat :: lo <= bn < hi ==> Addr(sb, fs1, i, SlotOf(bn)) != 0
    ensures DataSet(sb, fs2, i, lo, hi + 1) == DataSet(sb, fs1, i, lo, hi) + {addr}
  {
    hide Addr;
    hide OwnsSlot;
    hide OwnedRightly;
    forall bn: nat | lo <= bn < hi ensures Addr(sb, fs2, i, SlotOf(bn)) == Addr(sb, fs1, i, SlotOf(bn)) {
      SlotIsData(bn);
    }
    forall x ensures x in DataSet(sb, fs2, i, lo, hi + 1) <==> x in DataSet(sb, fs1, i, lo, hi) + {addr} {
    }
  }

  lemma AllocatedMore(sb: Super, own: Owners, own1: Owners, ib1: int, own2: Owners, ib2: int, i: nat, lo: nat, hi: nat)
    requires Grows(own, own1) && Lowest(sb, own, own1) && NewSlots(own, own1, i, lo, hi) && lo <= hi
    requires Grows(own1, own2) && Lowest(sb, own1, own2) && NewSlots(own1, own2, i, hi, hi + 1)
    requires Listing(own, own1) ==> ib1 == ib2
    ensures Grows(own, own2) && Lowest(sb, own, own2) && NewSlots(own, own2, i, lo, hi + 1)
    ensures NewLog(sb, own, own2, ib2) == NewLog(sb, own, own1, ib1) + NewLog(sb, own1, own2, ib2)
  {
    var logged1 := NewLog(sb, own, own1, ib1);
    var logged2 := logged1 + NewLog(sb, own1, own2, ib2);
    hide NewLog;
    hide Listing;
    assert {} + logged1 == logged1;
    AllocatesWithin(sb, own, {}, own1, logged1, ib1, i, lo, hi, lo, hi + 1);
    AllocatesWithin(sb, own1, logged1, own2, logged2, ib2, i, hi, hi + 1, lo, hi + 1);
    AllocatesTwice(sb, own, {}, own1, logged1, ib1, own2, logged2, ib2, i, lo, hi + 1);
    assert {} + NewLog(sb, own, own2, ib2) == NewLog(sb, own, own2, ib2);
  }

  /** bmap ran for one more file block, whether or not it found one. */
  lemma ExactlyThen(sb: Super, own: Owners, logged: set<int>, fs1: Fs, own1: Owners, logged1: set<int>,
                    fs2: Fs, own2: Owners, logged2: set<int>, i: nat, lo: nat, hi: nat)
    requires Exactly(sb, own, logged, fs1, own1, logged1, i, lo, hi, hi, {}) && lo <= hi
    requires Extended(sb, fs1, own1, fs2, own2, i)
    requires Allocates(sb, own1, logged1, own2, logged2, fs2.inodes[i].addrs[INDIRECT], i, hi, hi + 1)
    requires forall bn: nat :: lo <= bn < hi ==> Addr(sb, fs1, i, SlotOf(bn)) != 0
    ensures Exactly(sb, own, logged, fs2, own2, logged2, i, lo, hi, hi + 1, {})
  {
    var ib1, ib2 := fs1.inodes[i].addrs[INDIRECT], fs2.inodes[i].addrs[INDIRECT];
    if Listing(own, own1) {
      ListingKeepsIndirect(sb, own, fs1, own1, fs2, own2, i, lo, hi);
    }
    DataKept(sb, fs1, own1, fs2, own2, i, lo, hi);
    AllocatedMore(sb, own, own1, ib1, own2, ib2, i, lo, hi);
    hide Addr;
    hide Inv;
    hide DataSet;
    hide NewLog;
    hide Listing;
    hide Lowest;
    hide NewSlots;
    hide Grows;
  }

  lemma DataKept(sb: Super, fs1: Fs, own1: Owners, fs2: Fs, own2: Owners, i: nat, lo: nat, hi: nat)
    requires Extended(sb, fs1, own1, fs2, own2, i) && hi <= MAXFILE
    requires forall bn: nat :: lo <= bn < hi ==> Addr(sb, fs1, i, SlotOf(bn)) != 0
    ensures DataSet(sb, fs2, i, lo, hi) == DataSet(sb, fs1, i, lo, hi)
  {
    hide Addr;
    hide OwnsSlot;
    hide OwnedRightly;
    forall bn: nat | lo <= bn < hi ensures Addr(sb, fs2, i, SlotOf(bn)) == Addr(sb, fs1, i, SlotOf(bn)) {
      SlotIsData(bn);
    }
  }

  lemma ExactlyWider(sb: Super, own: Owners, logged: set<int>, fs': Fs, own': Owners, logged': set<int>, i: nat, lo: nat, hi: nat,
                     top: nat, top': nat)
    requires Exactly(sb, own, logged, fs', own', logged', i, lo, hi, top, {}) && top <= top'
    ensures Exactly(sb, own, logged, fs', own', logged', i, lo, hi, top', {})
  {
    hide NewLog;
    hide DataSet;
    hide Lowest;
    hide Grows;
  }

  /** Neither the bytes in blocks nor the fields of an inode other than its slots matter. */
  lemma ExactlySame(sb: Super, own: Owners, logged: set<int>, fs1: Fs, own1: Owners, logged1: set<int>, fs2: Fs, i: nat, lo: nat, hi: nat,
                    top: nat, extra: set<int>)
    requires Exactly(sb, own, logged, fs1, own1, logged1, i, lo, hi, top, {}) && Shaped(sb, fs2)
    requires forall t: nat :: t < NSLOT ==> Addr(sb, fs2, i, t) == Addr(sb, fs1, i, t)
    ensures Exactly(sb, own, logged, fs2, own1, logged1 + extra, i, lo, hi, top, extra)
  {
    assert Addr(sb, fs2, i, INDIRECT) == fs2.inodes[i].addrs[INDIRECT] && Addr(sb, fs1, i, INDIRECT) == fs1.inodes[i].addrs[INDIRECT];
    hide Addr;
    hide NewLog;
    hide Lowest;
    hide NewSlots;
    forall bn: nat | lo <= bn < hi ensures Addr(sb, fs2, i, SlotOf(bn)) == Addr(sb, fs1, i, SlotOf(bn)) {
      SlotIsData(bn);
    }
    assert DataSet(sb, fs2, i, lo, hi) == DataSet(sb, fs1, i, lo, hi);
    hide DataSet;
  }

  // ---------- sizes and the inode on disk ----------

  /** The state once the size is set and iupdate has copied the inode to disk. */
  ghost function Updated(fs: Fs, i: nat, size: nat): Fs
    requires i < |fs.inodes| == |fs.dinodes|
  {
    var ino := fs.inodes[i].(size := size);
    Fs(fs.bits, fs.blocks, fs.inodes[i := ino], fs.dinodes[i := ino])
  }

  /** Neither moves a block or changes a byte. */
  lemma UpdatedSlots(sb: Super, fs: Fs, own: Owners, i: nat, size: nat)
    requires Inv(sb, fs, own) && i < sb.ninodes
    ensures Inv(sb, Updated(fs, i, size), own)
    ensures var fs' := Updated(fs, i, size);
            && (forall j: nat, t: nat :: j < sb.ninodes && t < NSLOT ==> Addr(sb, fs', j, t) == Addr(sb, fs, j, t))
            && (forall j: nat, k: nat :: j < sb.ninodes && k / BSIZE < MAXFILE ==> ByteAt(sb, fs', j, k) == ByteAt(sb, fs, j, k))
  {
    var fs' := Updated(fs, i, size);
    assert Shaped(sb, fs');
    SameSlots(sb, fs, own, fs');
    forall k: nat | k / BSIZE < MAXFILE ensures SlotOf(k / BSIZE) < NSLOT {
      SlotIsData(k / BSIZE);
    }
  }

  function Max(a: nat, b: nat): nat {
    if a < b then b else a
  }

  /** What a write of `data` at `off` makes of a file's bytes. */
  function Overwritten(bytes: seq<int>, off: nat, data: seq<int>): seq<int>
    requires off <= |bytes|
  {
    bytes[..off] + data + if off + |data| < |bytes| then bytes[off + |data|..] else []
  }

  /** The whole effect of writei on the files: inode `i` overwritten with `data` at `off`, its
      copy on disk up to date, and no other file touched. */
  ghost predicate Wrote(sb: Super, fs: Fs, fs': Fs, i: nat, off: nat, data: seq<int>) {
    && Shaped(sb, fs) && Shaped(sb, fs') && i < sb.ninodes
    && NoHoles(sb, fs, i) && NoHoles(sb, fs', i) && off <= fs.inodes[i].size
    && Content(sb, fs', i) == Overwritten(Content(sb, fs, i), off, data)
    && fs'.inodes[i] == fs.inodes[i].(size := |Content(sb, fs', i)|, addrs := fs'.inodes[i].addrs)
    && fs'.dinodes[i] == fs'.inodes[i]
    && (forall j: nat :: j < sb.ninodes && j != i ==> SameFile(sb, fs, fs', j))
  }

  lemma FinishWrite(sb: Super, fs: Fs, own: Owners, fs1: Fs, own1: Owners, i: nat, off: nat, data: seq<int>)
    requires Written(sb, fs, own, fs1, own1, i, off, data) && NoHoles(sb, fs, i) && off <= fs.inodes[i].size
    ensures var fs2 := Updated(fs1, i, Max(fs.inodes[i].size, off + |data|));
            Inv(sb, fs2, own1) && Wrote(sb, fs, fs2, i, off, data)
  {
    var size := Max(fs.inodes[i].size, off + |data|);
    var fs2 := Updated(fs1, i, size);
    UpdatedSlots(sb, fs1, own1, i, size);
    hide Addr;
    hide ByteAt;
    hide OwnsSlot;
    hide OwnedRightly;
    FinishContent(sb, fs, own, fs1, own1, i, off, data);
    hide Content;
    hide Overwritten;
    forall j: nat | j < sb.ninodes && j != i ensures SameFile(sb, fs, fs2, j) {
      assert SameFile(sb, fs, fs1, j);
    }
  }

  lemma FinishContent(sb: Super, fs: Fs, own: Owners, fs1: Fs, own1: Owners, i: nat, off: nat, data: seq<int>)
    requires Written(sb, fs, own, fs1, own1, i, off, data) && NoHoles(sb, fs, i) && off <= fs.inodes[i].size
    ensures var fs2 := Updated(fs1, i, Max(fs.inodes[i].size, off + |data|));
            && Shaped(sb, fs2) && NoHoles(sb, fs2, i)
            && Content(sb, fs2, i) == Overwritten(Content(sb, fs, i), off, data)
  {
    var size := Max(fs.inodes[i].size, off + |data|);
    var fs2 := Updated(fs1, i, size);
    UpdatedSlots(sb, fs1, own1, i, size);
    hide Addr;
    hide ByteAt;
    hide OwnsSlot;
    hide OwnedRightly;
    hide Inv;
    forall bn: nat | bn < MAXFILE && bn * BSIZE < size ensures Addr(sb, fs2, i, SlotOf(bn)) != 0 {
      SlotIsData(bn);
      if bn * BSIZE >= fs.inodes[i].size {
        assert (bn * BSIZE) / BSIZE == bn;
      }
    }
    var before, after := Content(sb, fs, i), Content(sb, fs2, i);
    OverwrittenAt(before, off, data);
    hide Overwritten;
    hide Covered;
    forall k: nat | k < size ensures after[k] == Overwritten(before, off, data)[k] {
      assert k / BSIZE < MAXFILE;
      assert after[k] == ByteAt(sb, fs1, i, k);
      if !(off <= k < off + |data|) {
        MappedByte(sb, fs, i, k);
      }
    }
  }

  lemma OverwrittenAt(bytes: seq<int>, off: nat, data: seq<int>)
    requires off <= |bytes|
    ensures var r := Overwritten(bytes, off, data);
            && |r| == Max(|bytes|, off + |data|)
            && forall k :: 0 <= k < |r| ==> r[k] == if off <= k < off + |data| then data[k - off] else bytes[k]
  {
  }

  function Min(a: nat, b: nat): nat {
    if a < b then a else b
  }

  /** The state writei is in after `data` has been written from `off` on: file blocks
      off/BSIZE..hi-1 have been visited, and `logged` beyond `before` is theirs. */
  ghost predicate Writing(sb: Super, fs: Fs, own: Owners, before: set<int>, fs': Fs, own': Owners, logged: set<int>,
                          i: nat, off: nat, data: seq<int>, hi: nat) {
    && Written(sb, fs, own, fs', own', i, off, data)
    && off / BSIZE <= hi <= MAXFILE
    && (forall bn: nat :: off / BSIZE <= bn < hi ==> Addr(sb, fs', i, SlotOf(bn)) != 0)
    && LogWithin(sb, fs', i, logged - before, off / BSIZE, First(off), hi)
  }

  lemma WritingStarts(sb: Super, fs: Fs, own: Owners, logged: set<int>, i: nat, off: nat)
    requires Inv(sb, fs, own) && i < sb.ninodes && off <= MAXFILE * BSIZE
    ensures Writing(sb, fs, own, logged, fs, own, logged, i, off, [], off / BSIZE)
  {
    WrittenNothing(sb, fs, own, i, off);
    hide Addr;
    assert logged - logged == {};
  }

  /** bmap for the next file block found the disk full. */
  lemma WritingFull(sb: Super, fs: Fs, own: Owners, before: set<int>, fs1: Fs, own1: Owners, logged1: set<int>,
                    fs2: Fs, own2: Owners, logged2: set<int>, i: nat, off: nat, data: seq<int>, hi: nat)
    requires Writing(sb, fs, own, before, fs1, own1, logged1, i, off, data, hi)
    requires Extended(sb, fs1, own1, fs2, own2, i)
    requires logged2 <= logged1 + AllocLog(sb, fs2.inodes[i].addrs[INDIRECT])
    ensures Writing(sb, fs, own, before, fs2, own2, logged2, i, off, data, hi)
  {
    WrittenThenExtended(sb, fs, own, fs1, own1, fs2, own2, i, off, data);
    LogWithinGrows(sb, fs1, own1, fs2, own2, i, logged1 - before, off / BSIZE, First(off), hi);
    hide Addr;
    hide Written;
    forall bn: nat | off / BSIZE <= bn < hi ensures Addr(sb, fs2, i, SlotOf(bn)) != 0 {
      SlotIsData(bn);
    }
  }

  /** bmap found or made the next file block. */
  lemma WritingVisits(sb: Super, fs: Fs, own: Owners, before: set<int>, fs1: Fs, own1: Owners, logged1: set<int>,
                      fs2: Fs, own2: Owners, logged2: set<int>, i: nat, off: nat, data: seq<int>, hi: nat, addr: int)
    requires Writing(sb, fs, own, before, fs1, own1, logged1, i, off, data, hi) && hi < MAXFILE
    requires Extended(sb, fs1, own1, fs2, own2, i) && addr == Addr(sb, fs2, i, SlotOf(hi)) != 0
    requires logged2 <= logged1 + VisitLog(sb, fs2, i, First(off), hi, addr)
    ensures Writing(sb, fs, own, before, fs2, own2, logged2, i, off, data, hi + 1)
  {
    hide Addr;
    hide Written;
    hide LogWithin;
    hide Extended;
    hide Inv;
    hide VisitLog;
    WritingWritten(sb, fs, own, before, fs1, own1, logged1, i, off, data, hi);
    ExtendedInv(sb, fs1, own1, fs2, own2, i);
    InvShaped(sb, fs2, own2);
    WrittenThenExtended(sb, fs, own, fs1, own1, fs2, own2, i, off, data);
    LogWithinGrows(sb, fs1, own1, fs2, own2, i, logged1 - before, off / BSIZE, First(off), hi);
    LogWithinMore(sb, fs2, i, logged1 - before, logged2 - before, off / BSIZE, First(off), hi, addr);
    forall bn: nat | off / BSIZE <= bn < hi + 1 ensures Addr(sb, fs2, i, SlotOf(bn)) != 0 {
      SlotIsData(bn);
    }
  }

  /** The chunk has been copied into the block just visited. */
  lemma WritingMore(sb: Super, fs: Fs, own: Owners, before: set<int>, fs1: Fs, own1: Owners, logged1: set<int>,
                    fs2: Fs, i: nat, off: nat, data: seq<int>, chunk: seq<int>, hi: nat)
    requires Writing(sb, fs, own, before, fs1, own1, logged1, i, off, data, hi) && hi == (off + |data|) / BSIZE + 1
    requires (off + |data|) % BSIZE + |chunk| <= BSIZE && off + |data| + |chunk| <= MAXFILE * BSIZE
    requires var b := Addr(sb, fs1, i, SlotOf(hi - 1));
             0 < b < sb.size ==> fs2 == fs1.(blocks := fs1.blocks[b := Splice(fs1.blocks[b], (off + |data|) % BSIZE, chunk)])
    ensures Writing(sb, fs, own, before, fs2, own1, logged1, i, off, data + chunk, hi)
  {
    WrittenMore(sb, fs, own, fs1, own1, i, off, data, chunk);
    hide Addr;
    hide Written;
    forall bn: nat | off / BSIZE <= bn < hi ensures Addr(sb, fs2, i, SlotOf(bn)) == Addr(sb, fs1, i, SlotOf(bn)) {
      SlotIsData(bn);
    }
    assert DataSet(sb, fs2, i, off / BSIZE, hi) == DataSet(sb, fs1, i, off / BSIZE, hi);
    forall bn: nat | First(off) <= bn < hi ensures Addr(sb, fs2, i, SlotOf(bn)) == Addr(sb, fs1, i, SlotOf(bn)) {
    }
    assert BitSet(sb, fs2, i, First(off), hi) == BitSet(sb, fs1, i, First(off), hi);
  }

  lemma UpdatedTracked(sb: Super, base: Fs, fs: Fs, logged: set<int>, i: nat, size: nat)
    requires Tracked(sb, base, fs, logged) && i < sb.ninodes && |fs.inodes| == sb.ninodes
    ensures Tracked(sb, base, Updated(fs, i, size), logged + {sb.IBLOCK(i)}) && Updated(fs, i, size).bits == fs.bits
  {
    var ino := fs.inodes[i].(size := size);
    TrackedMemory(sb, base, fs, logged, fs.inodes[i := ino]);
    TrackedInode(sb, base, fs.(inodes := fs.inodes[i := ino]), logged, i, ino);
    hide Tracked;
  }

  // ---------- a copy that fails half way ----------

  /** What writei leaves when copying from the caller fails after `bytes`: they are in the buffer
      of the block at `at`, where readers see them, and nobody has logged them. */
  ghost function Leftover(sb: Super, fs: Fs, i: nat, at: nat, bytes: seq<int>): Fs
    requires Shaped(sb, fs) && i < sb.ninodes && (bytes != [] ==> at / BSIZE < MAXFILE && at % BSIZE + |bytes| <= BSIZE)
  {
    if bytes == [] then fs
    else
      var b := Addr(sb, fs, i, SlotOf(at / BSIZE));
      if 0 < b < sb.size then fs.(blocks := fs.blocks[b := Splice(fs.blocks[b], at % BSIZE, bytes)]) else fs
  }

  /** After writing the first `r` bytes of `src` at `off`, which would give `clean`, a copy has left
      `left` bytes more, up to the end of the caller's memory. */
  ghost predicate LeftAt(sb: Super, clean: Fs, fs: Fs, i: nat, off: nat, src: seq<int>, avail: nat, r: nat, left: nat) {
    && Shaped(sb, clean) && i < sb.ninodes && r + left <= |src|
    && (left > 0 ==> r + left == avail < |src| && (off + r) / BSIZE < MAXFILE && (off + r) % BSIZE + left <= BSIZE)
    && fs == Leftover(sb, clean, i, off + r, src[r..r + left])
  }

  lemma LeftNone(sb: Super, fs: Fs, i: nat, off: nat, src: seq<int>, avail: nat, r: nat)
    requires Shaped(sb, fs) && i < sb.ninodes && r <= |src|
    ensures LeftAt(sb, fs, fs, i, off, src, avail, r, 0)
  {
    assert src[r..r] == [];
  }

  lemma LeftFacts(sb: Super, clean: Fs, fs: Fs, i: nat, off: nat, src: seq<int>, avail: nat, r: nat, left: nat)
    requires LeftAt(sb, clean, fs, i, off, src, avail, r, left)
    ensures Shaped(sb, fs) && fs.bits == clean.bits && fs.inodes == clean.inodes && fs.dinodes == clean.dinodes
    ensures r + left <= |src| && (left == 0 || r == |src| ==> fs == clean && left == 0)
  {
    if left > 0 {
      SlotIsData((off + r) / BSIZE);
    }
    hide Addr;
  }

  /** A turn of writei's loop has copied `left` bytes of its chunk. */
  lemma LeftInTurn(sb: Super, clean: Fs, fs: Fs, i: nat, off: nat, src: seq<int>, avail: nat, r: nat, m: nat, left: nat)
    requires Shaped(sb, clean) && i < sb.ninodes && r + m <= |src| && left <= m && (left > 0 ==> left < m && left == avail - r)
    requires (off + r) / BSIZE < MAXFILE && (off + r) % BSIZE + m <= BSIZE
    requires fs == Leftover(sb, clean, i, off + r, src[r..r + m][..left])
    ensures LeftAt(sb, clean, fs, i, off, src, avail, r, left)
  {
    hide Leftover;
    assert src[r..r + m][..left] == src[r..r + left];
  }

  /** The same within a longer write. */
  lemma LeftInChunk(sb: Super, clean: Fs, fs: Fs, i: nat, off: nat, src: seq<int>, avail: nat, n: nat, m: nat, r: nat, left: nat)
    requires n + m <= |src|
    requires LeftAt(sb, clean, fs, i, off + n, src[n..n + m], if avail < n then 0 else avail - n, r, left)
    ensures LeftAt(sb, clean, fs, i, off, src, avail, n + r, left)
  {
    hide Leftover;
    SliceOfSlice(src, n, m, r, r + left);
  }

  lemma SliceOfSlice(src: seq<int>, n: nat, m: nat, a: nat, b: nat)
    requires n + m <= |src| && a <= b <= m
    ensures src[n..n + m][a..b] == src[n + a..n + b]
  {
    var l, r := src[n..n + m][a..b], src[n + a..n + b];
    assert forall k :: 0 <= k < |l| ==> l[k] == r[k];
  }

  lemma LeftUpdated(sb: Super, clean: Fs, fs: Fs, own: Owners, i: nat, off: nat, src: seq<int>, avail: nat, r: nat, left: nat, size: nat)
    requires LeftAt(sb, clean, fs, i, off, src, avail, r, left) && Inv(sb, clean, own)
    ensures Shaped(sb, fs) && fs.inodes == clean.inodes && fs.dinodes == clean.dinodes
    ensures LeftAt(sb, Updated(clean, i, size), Updated(fs, i, size), i, off, src, avail, r, left)
  {
    UpdatedSlots(sb, clean, own, i, size);
    LeftFacts(sb, clean, fs, i, off, src, avail, r, left);
    if left > 0 {
      SlotIsData((off + r) / BSIZE);
    }
    hide Addr;
    hide ByteAt;
  }

  // ---------- the operations ----------

  /** iupdate: copy the inode to disk. */
  method Iupdate(f: FileSys, i: nat)
    requires Shaped(f.sb, f.fs) && i < f.sb.ninodes
    modifies f`fs, f`logged
    ensures f.fs == old(f.fs).(dinodes := old(f.fs).dinodes[i := old(f.fs).inodes[i]])
    ensures f.logged == old(f.logged) + {f.sb.IBLOCK(i)}
    ensures old(Tracked(f.sb, f.base, f.fs, f.logged)) ==> Tracked(f.sb, f.base, f.fs, f.logged)
  {
    hide Tracked;
    if Tracked(f.sb, f.base, f.fs, f.logged) {
      TrackedInode(f.sb, f.base, f.fs, f.logged, i, f.fs.inodes[i]);
    }
    f.fs := f.fs.(dinodes := f.fs.dinodes[i := f.fs.inodes[i]]);
    f.LogWrite(f.sb.IBLOCK(i));
  }

  /** How many bytes writei and readi move in one turn at `at` with `left` bytes to go. */
  function Step(at: nat, left: nat): nat {
    Min(left, BSIZE - at % BSIZE)
  }

  /** off + n < off, in 32-bit arithmetic. */
  predicate Wraps(off: nat, n: nat) {
    (off + n) % 0x1_0000_0000 < off
  }

  lemma WrapsMeans(off: nat, n: nat)
    requires off < 0x1_0000_0000 && n < 0x1_0000_0000
    ensures Wraps(off, n) <==> off + n >= 0x1_0000_0000
  {
  }

  predicate BadWrite(size: nat, off: nat, n: nat) {
    off > size || off + n >= 0x1_0000_0000 || off + n > MAXFILE * BSIZE
  }

  /** writei of `src` at `off`, of which the caller's memory has the first `avail` bytes.  The
      result is -1 when the arguments are refused and else the number of bytes written, which
      falls short only when the disk is full or a copy failed.  Exactly those bytes of exactly
      this file have changed, except that a copy that fails half way leaves `left` bytes
      more in the buffer. */
  method Writei(f: FileSys, i: nat, src: seq<int>, avail: nat, off: nat) returns (r: int, ghost clean: Fs, ghost left: nat)
    requires f.Valid() && i < f.sb.ninodes && NoHoles(f.sb, f.fs, i)
    requires off < 0x1_0000_0000 && |src| < 0x1_0000_0000
    modifies f`fs, f`logged, f`own
    ensures Inv(f.sb, clean, f.own) && Tracked(f.sb, f.base, clean, f.logged) && Shaped(f.sb, clean)
    ensures r == -1 <==> BadWrite(old(f.fs).inodes[i].size, off, |src|)
    ensures r == -1 ==> f.fs == clean == old(f.fs) && f.own == old(f.own) && f.logged == old(f.logged) && left == 0
    ensures r != -1 ==> 0 <= r <= |src| && Wrote(f.sb, old(f.fs), clean, i, off, src[..r])
    ensures r != -1 ==> LeftAt(f.sb, clean, f.fs, i, off, src, avail, r, left)
    ensures 0 <= r < |src| ==> (forall b :: 0 <= b < f.sb.size ==> clean.bits[b]) || r + left == avail < r + Step(off + r, |src| - r)
    ensures r <= avail && (r >= 0 ==> OnBoundary(off, |src|, r))
    ensures |src| <= MAXCHUNK ==> |f.logged - old(f.logged)| <= MAXOPBLOCKS
    ensures r >= 0 ==>
              Exactly(f.sb, old(f.own), old(f.logged), clean, f.own, f.logged, i, off / BSIZE, BlockEnd(off, r), BlockEnd(off, |src|),
                      {f.sb.IBLOCK(i)})
  {
    hide Grows;
    hide NewSlots;
    hide Exactly;
    hide Wraps;
    hide NoHoles;
    hide Wrote;
    hide Inv;
    hide Tracked;
    hide Step;
    hide LeftAt;
    InvShaped(f.sb, f.fs, f.own);
    WrapsMeans(off, |src|);
    assert f.logged - f.logged == {};
    clean, left := f.fs, 0;
    if off > f.fs.inodes[i].size || Wraps(off, |src|) {
      return -1, clean, left;
    }
    if off + |src| > MAXFILE * BSIZE {
      return -1, clean, left;
    }
    r, clean, left := WriteAccepted(f, i, src, avail, off);
  }

  /** writei once its arguments are accepted. */
  method WriteAccepted(f: FileSys, i: nat, src: seq<int>, avail: nat, off: nat) returns (tot: nat, ghost clean: Fs, ghost left: nat)
    requires f.Valid() && i < f.sb.ninodes && NoHoles(f.sb, f.fs, i)
    requires off <= f.fs.inodes[i].size && off + |src| <= MAXFILE * BSIZE
    modifies f`fs, f`logged, f`own
    ensures Inv(f.sb, clean, f.own) && Tracked(f.sb, f.base, clean, f.logged) && Shaped(f.sb, clean)
    ensures tot <= |src| && Wrote(f.sb, old(f.fs), clean, i, off, src[..tot])
    ensures LeftAt(f.sb, clean, f.fs, i, off, src, avail, tot, left)
    ensures tot < |src| ==> (forall b :: 0 <= b < f.sb.size ==> clean.bits[b]) || tot + left == avail < tot + Step(off + tot, |src| - tot)
    ensures tot <= avail && OnBoundary(off, |src|, tot)
    ensures |src| <= MAXCHUNK ==> |f.logged - old(f.logged)| <= MAXOPBLOCKS
    ensures Exactly(f.sb, old(f.own), old(f.logged), clean, f.own, f.logged, i, off / BSIZE, BlockEnd(off, tot), BlockEnd(off, |src|),
                    {f.sb.IBLOCK(i)})
  {
    hide Grows;
    hide NewSlots;
    hide Inv;
    hide Tracked;
    hide Written;
    hide LogWithin;
    hide Wrote;
    hide Exactly;
    hide Updated;
    hide Step;
    hide First;
    hide NoHoles;
    hide LeftAt;
    ghost var hi;
    tot, hi, clean, left := WriteLoop(f, i, src, avail, off);
    FinishWrite(f.sb, old(f.fs), old(f.own), clean, f.own, i, off, src[..tot]);
    if |src| <= MAXCHUNK {
      WriteBudgetBeyond(f.sb, clean, i, old(f.logged), f.logged, off, |src|, hi);
    }
    ghost var fs1, log1, size := clean, f.logged, Max(clean.inodes[i].size, off + tot);
    LeftFacts(f.sb, clean, f.fs, i, off, src, avail, tot, left);
    LeftUpdated(f.sb, clean, f.fs, f.own, i, off, src, avail, tot, left, size);
    UpdatedSlots(f.sb, fs1, f.own, i, size);
    UpdatedTracked(f.sb, f.base, fs1, log1, i, size);
    SetSize(f, i, off + tot);
    clean := Updated(fs1, i, size);
    InvShaped(f.sb, clean, f.own);
    ExactlySame(f.sb, old(f.own), old(f.logged), fs1, f.own, log1, clean, i, off / BSIZE, BlockEnd(off, tot), BlockEnd(off, |src|),
                {f.sb.IBLOCK(i)});
  }

  /** The end of writei: raise the size to `at` if it is below, and iupdate in any case. */
  method SetSize(f: FileSys, i: nat, at: nat)
    requires Shaped(f.sb, f.fs) && i < f.sb.ninodes
    modifies f`fs, f`logged
    ensures f.fs == Updated(old(f.fs), i, Max(old(f.fs).inodes[i].size, at)) && f.fs.bits == old(f.fs).bits
    ensures f.logged == old(f.logged) + {f.sb.IBLOCK(i)}
  {
    hide Tracked;
    if at > f.fs.inodes[i].size {
      f.fs := f.fs.(inodes := f.fs.inodes[i := f.fs.inodes[i].(size := at)]);
    }
    Iupdate(f, i);
    assert f.fs.inodes == Updated(old(f.fs), i, Max(old(f.fs).inodes[i].size, at)).inodes;
  }

  /** writei's loop. */
  method WriteLoop(f: FileSys, i: nat, src: seq<int>, avail: nat, off: nat)
    returns (tot: nat, ghost hi: nat, ghost clean: Fs, ghost left: nat)
    requires f.Valid() && i < f.sb.ninodes && NoHoles(f.sb, f.fs, i)
    requires off <= f.fs.inodes[i].size && off + |src| <= MAXFILE * BSIZE
    modifies f`fs, f`logged, f`own
    ensures Inv(f.sb, clean, f.own) && Tracked(f.sb, f.base, clean, f.logged) && Shaped(f.sb, clean)
    ensures tot <= |src| && off / BSIZE <= hi <= MAXFILE
    ensures LeftAt(f.sb, clean, f.fs, i, off, src, avail, tot, left)
    ensures Written(f.sb, old(f.fs), old(f.own), clean, f.own, i, off, src[..tot])
    ensures LogWithin(f.sb, clean, i, f.logged - old(f.logged), off / BSIZE, First(off), hi)
    ensures Exactly(f.sb, old(f.own), old(f.logged), clean, f.own, f.logged, i, off / BSIZE, BlockEnd(off, tot), BlockEnd(off, |src|), {})
    ensures (|src| == 0 ==> hi == off / BSIZE) && (|src| > 0 ==> hi <= (off + |src| - 1) / BSIZE + 1)
    ensures clean.inodes[i].size == old(f.fs).inodes[i].size
    ensures tot < |src| ==> (forall b :: 0 <= b < f.sb.size ==> clean.bits[b]) || tot + left == avail < tot + Step(off + tot, |src| - tot)
    ensures tot <= avail && OnBoundary(off, |src|, tot)
  {
    hide OnBoundary;
    hide Inv;
    hide Tracked;
    hide Writing;
    hide Addr;
    hide Step;
    hide First;
    hide Exactly;
    hide Visited;
    hide BlockEnd;
    hide Grows;
    hide NewSlots;
    hide Leftover;
    hide LeftAt;
    hide Written;
    hide LogWithin;
    hide NoHoles;
    ghost var fs0, own0, log0 := f.fs, f.own, f.logged;
    InvShaped(f.sb, fs0, own0);
    hi := off / BSIZE;
    VisitedStarts(off, |src|);
    WritingStarts(f.sb, fs0, own0, log0, i, off);
    ExactlyStarts(f.sb, fs0, own0, log0, i, hi);
    LeftNone(f.sb, fs0, i, off, src, avail, 0);
    assert src[..0] == [];
    tot := 0;
    clean, left := f.fs, 0;
    var stopped := false;
    while tot < |src| && !stopped
      invariant tot <= |src| && Inv(f.sb, clean, f.own) && Tracked(f.sb, f.base, clean, f.logged) && Shaped(f.sb, clean)
      invariant LeftAt(f.sb, clean, f.fs, i, off, src, avail, tot, left)
      invariant !stopped ==> left == 0 && clean == f.fs
      invariant Writing(f.sb, fs0, own0, log0, clean, f.own, f.logged, i, off, src[..tot], hi)
      invariant Visited(off, |src|, tot, stopped, hi)
      invariant !stopped ==> Exactly(f.sb, own0, log0, clean, f.own, f.logged, i, off / BSIZE, hi, hi, {}) && hi == BlockEnd(off, tot)
      invariant stopped ==>
                  && tot < |src|
                  && Exactly(f.sb, own0, log0, clean, f.own, f.logged, i, off / BSIZE, BlockEnd(off, tot), BlockEnd(off, |src|), {})
      invariant OnBoundary(off, |src|, tot)
      invariant clean.inodes[i].size == fs0.inodes[i].size
      invariant stopped ==> (forall b :: 0 <= b < f.sb.size ==> clean.bits[b]) || tot + left == avail < tot + Step(off + tot, |src| - tot)
      invariant tot <= avail
      decreases |src| - tot, !stopped
    {
      var m := Step(off + tot, |src| - tot);
      StepFacts(off, |src|, tot, hi);
      var ok := if tot + m <= avail then m else avail - tot;
      stopped, hi, clean, left := WriteTurn(f, i, src[tot..tot + m], ok, off + tot, fs0, own0, log0, off, src[..tot], hi);
      if stopped {
        ExactlyWider(f.sb, own0, log0, clean, f.own, f.logged, i, off / BSIZE, BlockEnd(off, tot), BlockEnd(off, tot) + 1, BlockEnd(off, |src|));
        LeftInTurn(f.sb, clean, f.fs, i, off, src, avail, tot, m, left);
      } else {
        assert src[..tot] + src[tot..tot + m] == src[..tot + m];
        tot := tot + m;
        LeftNone(f.sb, clean, i, off, src, avail, tot);
      }
    }
    VisitedBound(off, |src|, tot, stopped, hi);
    WritingWritten(f.sb, fs0, own0, log0, clean, f.own, f.logged, i, off, src[..tot], hi);
  }

  /** The file block after the last one a write of `n` bytes touches. */
  function BlockEnd(off: nat, n: nat): nat {
    if n == 0 then off / BSIZE else (off + n - 1) / BSIZE + 1
  }

  /** Which file blocks a write has visited. */
  ghost predicate Visited(off: nat, n: nat, tot: nat, stopped: bool, hi: nat) {
    if stopped then off / BSIZE <= hi && n > 0 && hi <= (off + n - 1) / BSIZE + 1
    else if tot < n then hi == (off + tot) / BSIZE && (tot == 0 || (off + tot) % BSIZE == 0)
    else if n == 0 then hi == off / BSIZE
    else hi == (off + n - 1) / BSIZE + 1
  }

  /** A write that stops short stops at the end of a block. */
  ghost predicate OnBoundary(off: nat, n: nat, tot: nat) {
    0 < tot < n ==> (off + tot) % BSIZE == 0
  }

  lemma StepFacts(off: nat, n: nat, tot: nat, hi: nat)
    requires tot < n && Visited(off, n, tot, false, hi) && off + n <= MAXFILE * BSIZE
    ensures var m := Step(off + tot, n - tot);
            && 0 < m && tot + m <= n && (off + tot) % BSIZE + m <= BSIZE
            && hi == (off + tot) / BSIZE < MAXFILE
            && Visited(off, n, tot + m, false, hi + 1) && BlockEnd(off, tot + m) == hi + 1
            && OnBoundary(off, n, tot + m)
            && Visited(off, n, tot, true, hi) && Visited(off, n, tot, true, hi + 1) && hi + 1 <= BlockEnd(off, n)
            && (hi < First(off) ==> hi == off / BSIZE)
  {
    var m := Step(off + tot, n - tot);
    assert (off + tot) / BSIZE <= (off + n - 1) / BSIZE;
    if tot + m < n {
      assert (off + tot + m) % BSIZE == 0;
    } else {
      assert (off + n - 1) / BSIZE == (off + tot) / BSIZE;
    }
  }

  lemma VisitedStarts(off: nat, n: nat)
    ensures Visited(off, n, 0, false, off / BSIZE) && BlockEnd(off, 0) == off / BSIZE && OnBoundary(off, n, 0)
  {
  }

  lemma VisitedBound(off: nat, n: nat, tot: nat, stopped: bool, hi: nat)
    requires Visited(off, n, tot, stopped, hi) && (stopped || tot == n)
    ensures !stopped ==> hi == BlockEnd(off, n)
    ensures off / BSIZE <= hi && (n == 0 ==> hi == off / BSIZE) && (n > 0 ==> hi <= (off + n - 1) / BSIZE + 1)
  {
  }

  /** One turn of writei's loop: map the next file block, copy the chunk in, and log the block;
      or stop, when there is no block or when the caller's memory ends after `ok` bytes. */
  method WriteTurn(f: FileSys, i: nat, chunk: seq<int>, ok: nat, at: nat,
                   ghost fs0: Fs, ghost own0: Owners, ghost log0: set<int>, ghost off: nat, ghost data: seq<int>, ghost hi: nat)
    returns (stopped: bool, ghost hi': nat, ghost clean: Fs, ghost left: nat)
    requires f.Valid() && i < f.sb.ninodes && at == off + |data| && hi == at / BSIZE < MAXFILE && ok <= |chunk|
    requires at % BSIZE + |chunk| <= BSIZE && at + |chunk| <= MAXFILE * BSIZE
    requires Shaped(f.sb, fs0) && NoHoles(f.sb, fs0, i) && off <= fs0.inodes[i].size && (hi < First(off) ==> hi == off / BSIZE)
    requires Writing(f.sb, fs0, own0, log0, f.fs, f.own, f.logged, i, off, data, hi)
    requires Exactly(f.sb, own0, log0, f.fs, f.own, f.logged, i, off / BSIZE, hi, hi, {})
    modifies f`fs, f`logged, f`own
    ensures Inv(f.sb, clean, f.own) && Tracked(f.sb, f.base, clean, f.logged) && Shaped(f.sb, clean)
    ensures left <= ok && f.fs == Leftover(f.sb, clean, i, at, chunk[..left])
    ensures !stopped ==> left == 0 && clean == f.fs
    ensures left > 0 ==> left == ok < |chunk|
    ensures Exactly(f.sb, own0, log0, clean, f.own, f.logged, i, off / BSIZE, if stopped then hi else hi + 1, hi + 1, {})
    ensures clean.inodes[i].size == old(f.fs).inodes[i].size
    ensures ok < |chunk| ==> stopped
    ensures stopped ==> (forall b :: 0 <= b < f.sb.size ==> clean.bits[b]) || left == ok < |chunk|
    ensures if stopped then hi <= hi' <= hi + 1 else hi' == hi + 1
    ensures Writing(f.sb, fs0, own0, log0, clean, f.own, f.logged, i, off, if stopped then data else data + chunk, hi')
  {
    hide Inv;
    hide Tracked;
    hide Writing;
    hide Extended;
    hide Addr;
    hide First;
    hide Exactly;
    hide Allocates;
    hide Grows;
    hide NewSlots;
    ghost var fs1, own1, log1 := f.fs, f.own, f.logged;
    WritingPremapped(f.sb, fs0, own0, log0, fs1, own1, log1, i, off, data, hi);
    var addr := f.Bmap(i, at / BSIZE);
    ExtendedInv(f.sb, fs1, own1, f.fs, f.own, i);
    InvShaped(f.sb, f.fs, f.own);
    ExactlyThen(f.sb, own0, log0, fs1, own1, log1, f.fs, f.own, f.logged, i, off / BSIZE, hi);
    clean, left := f.fs, 0;
    if addr == 0 {
      WritingFull(f.sb, fs0, own0, log0, fs1, own1, log1, f.fs, f.own, f.logged, i, off, data, hi);
      return true, hi, clean, left;
    }
    SlotIsData(hi);
    AddrInRange(f.sb, f.fs, f.own, i, SlotOf(hi));
    ghost var fs2, log2 := f.fs, f.logged;
    var block := f.fs.blocks[addr];
    f.fs := f.fs.(blocks := f.fs.blocks[addr := Splice(block, at % BSIZE, chunk[..ok])]);
    if ok < |chunk| {
      left := ok;
      assert Splice(block, at % BSIZE, []) == block;
      assert fs2.blocks[addr := block] == fs2.blocks;
      WritingVisits(f.sb, fs0, own0, log0, fs1, own1, log1, fs2, f.own, f.logged, i, off, data, hi, addr);
      return true, hi + 1, clean, left;
    }
    assert chunk[..ok] == chunk;
    ExactlyMore(f.sb, own0, log0, fs1, own1, log1, fs2, f.own, log2, i, off / BSIZE, hi, addr);
    WriteKeeps(f.sb, fs2, f.own, i, SlotOf(hi), Splice(block, at % BSIZE, chunk));
    TrackedBlock(f.sb, f.base, fs2, f.logged, addr, Splice(block, at % BSIZE, chunk));
    f.LogWrite(addr);
    clean := f.fs;
    ExactlySame(f.sb, own0, log0, fs2, f.own, f.logged, f.fs, i, off / BSIZE, hi + 1, hi + 1, {});
    assert f.logged + {} == f.logged;
    WritingVisits(f.sb, fs0, own0, log0, fs1, own1, log1, fs2, f.own, f.logged, i, off, data, hi, addr);
    WritingMore(f.sb, fs0, own0, log0, fs2, f.own, f.logged, f.fs, i, off, data, chunk, hi + 1);
    WritingInv(f.sb, fs0, own0, log0, f.fs, f.own, f.logged, i, off, data + chunk, hi + 1);
    return false, hi + 1, clean, left;
  }

  lemma InvShaped(sb: Super, fs: Fs, own: Owners)
    requires Inv(sb, fs, own)
    ensures Shaped(sb, fs)
  {
  }

  /** The block an unaligned write starts in is mapped already: the file has no holes. */
  lemma WritingPremapped(sb: Super, fs: Fs, own: Owners, before: set<int>, fs1: Fs, own1: Owners, logged1: set<int>,
                         i: nat, off: nat, data: seq<int>, hi: nat)
    requires Writing(sb, fs, own, before, fs1, own1, logged1, i, off, data, hi)
    requires Shaped(sb, fs) && i < sb.ninodes && NoHoles(sb, fs, i) && off <= fs.inodes[i].size
    ensures Shaped(sb, fs1) && Inv(sb, fs1, own1)
    ensures hi == off / BSIZE && hi < First(off) ==> hi < MAXFILE && Addr(sb, fs1, i, SlotOf(hi)) != 0
    ensures hi <= MAXFILE && forall bn: nat :: off / BSIZE <= bn < hi ==> Addr(sb, fs1, i, SlotOf(bn)) != 0
  {
    if hi == off / BSIZE && hi < First(off) {
      assert hi * BSIZE < off;
      SlotIsData(hi);
      hide Addr;
      assert Addr(sb, fs, i, SlotOf(hi)) != 0;
    }
  }

  lemma WritingInv(sb: Super, fs: Fs, own: Owners, before: set<int>, fs1: Fs, own1: Owners, logged1: set<int>,
                   i: nat, off: nat, data: seq<int>, hi: nat)
    requires Writing(sb, fs, own, before, fs1, own1, logged1, i, off, data, hi)
    ensures Inv(sb, fs1, own1) && Shaped(sb, fs1)
  {
  }

  lemma WritingWritten(sb: Super, fs: Fs, own: Owners, before: set<int>, fs1: Fs, own1: Owners, logged1: set<int>,
                       i: nat, off: nat, data: seq<int>, hi: nat)
    requires Writing(sb, fs, own, before, fs1, own1, logged1, i, off, data, hi)
    ensures Written(sb, fs, own, fs1, own1, i, off, data) && Shaped(sb, fs1) && i < sb.ninodes && off / BSIZE <= hi <= MAXFILE
    ensures LogWithin(sb, fs1, i, logged1 - before, off / BSIZE, First(off), hi)
  {
  }

  lemma AddrInRange(sb: Super, fs: Fs, own: Owners, i: nat, s: nat)
    requires Inv(sb, fs, own) && i < sb.ninodes && s < NSLOT && Addr(sb, fs, i, s) != 0
    ensures sb.dataStart <= Addr(sb, fs, i, s) < sb.size && |fs.blocks[Addr(sb, fs, i, s)]| == BSIZE
  {
    assert OwnsSlot(sb, fs, own, i, s);
  }

  /** The bytes readi is asked for that the file has. */
  function Readable(size: nat, off: nat, n: nat): nat {
    if off > size || off + n >= 0x1_0000_0000 then 0 else Min(n, size - off)
  }

  /** readi.  Copying out succeeds for the first `avail` bytes.  It returns exactly the slice of
      the file that was asked for, allocates nothing and logs nothing, so fileread may call
      it outside a transaction. */
  method Readi(f: FileSys, i: nat, off: nat, n: nat, avail: nat) returns (r: int, bytes: seq<int>)
    requires f.Valid() && i < f.sb.ninodes && NoHoles(f.sb, f.fs, i)
    requires off < 0x1_0000_0000 && n < 0x1_0000_0000
    modifies f`fs, f`logged, f`own
    ensures f.fs == old(f.fs) && f.own == old(f.own) && f.logged == old(f.logged)
    ensures var m := Readable(f.fs.inodes[i].size, off, n);
            if m > avail then r == -1
            else r == m && bytes == if m == 0 then [] else Content(f.sb, f.fs, i)[off..off + m]
  {
    hide Tracked;
    var size := f.fs.inodes[i].size;
    WrapsMeans(off, n);
    if off > size || Wraps(off, n) {
      return 0, [];
    }
    var left := if off + n > size then size - off else n;
    r, bytes := ReadLoop(f, i, off, left, avail);
  }

  /** readi's loop, over bytes the file has. */
  method ReadLoop(f: FileSys, i: nat, off: nat, n: nat, avail: nat) returns (tot: int, bytes: seq<int>)
    requires f.Valid() && i < f.sb.ninodes && NoHoles(f.sb, f.fs, i) && off + n <= f.fs.inodes[i].size
    modifies f`fs, f`logged, f`own
    ensures f.fs == old(f.fs) && f.own == old(f.own) && f.logged == old(f.logged)
    ensures if n > avail then tot == -1 else tot == n && bytes == Content(f.sb, f.fs, i)[off..off + n]
  {
    hide Inv;
    hide Tracked;
    hide Addr;
    hide Extended;
    hide Allocates;
    hide Content;
    InvShaped(f.sb, f.fs, f.own);
    tot, bytes := 0, [];
    while tot < n
      invariant 0 <= tot <= n && (tot == 0 || tot <= avail)
      invariant f.fs == old(f.fs) && f.own == old(f.own) && f.logged == old(f.logged)
      invariant bytes == Content(f.sb, f.fs, i)[off..off + tot]
    {
      var at := off + tot;
      MappedByte(f.sb, f.fs, i, at);
      StepIn(at, n - tot);
      var m := Step(at, n - tot);
      BlockSlice(f.sb, f.fs, f.own, i, at, m);
      hide Step;
      var addr := f.Bmap(i, at / BSIZE);
      if addr == 0 {
        assert false;
      }
      if tot + m > avail {
        return -1, bytes;
      }
      bytes := bytes + f.fs.blocks[addr][at % BSIZE..at % BSIZE + m];
      tot := tot + m;
    }
  }

  lemma StepIn(at: nat, left: nat)
    requires left > 0
    ensures 0 < Step(at, left) <= left && at % BSIZE + Step(at, left) <= BSIZE
  {
  }

  lemma MappedByte(sb: Super, fs: Fs, i: nat, k: nat)
    requires Shaped(sb, fs) && i < sb.ninodes && NoHoles(sb, fs, i) && k < fs.inodes[i].size
    ensures k / BSIZE < MAXFILE && SlotOf(k / BSIZE) < NSLOT && Addr(sb, fs, i, SlotOf(k / BSIZE)) != 0
  {
    SlotIsData(k / BSIZE);
    assert k / BSIZE * BSIZE <= k;
    hide Addr;
  }

  /** Part of a block is a slice of the file. */
  lemma BlockSlice(sb: Super, fs: Fs, own: Owners, i: nat, at: nat, m: nat)
    requires Inv(sb, fs, own) && i < sb.ninodes && NoHoles(sb, fs, i)
    requires at + m <= fs.inodes[i].size && at < fs.inodes[i].size && at % BSIZE + m <= BSIZE
    ensures at / BSIZE < MAXFILE && 0 < Addr(sb, fs, i, SlotOf(at / BSIZE)) < sb.size
    ensures |fs.blocks[Addr(sb, fs, i, SlotOf(at / BSIZE))]| == BSIZE
    ensures fs.blocks[Addr(sb, fs, i, SlotOf(at / BSIZE))][at % BSIZE..at % BSIZE + m] == Content(sb, fs, i)[at..at + m]
  {
    MappedByte(sb, fs, i, at);
    AddrInRange(sb, fs, own, i, SlotOf(at / BSIZE));
    hide Addr;
    var b := Addr(sb, fs, i, SlotOf(at / BSIZE));
    var part, file := fs.blocks[b][at % BSIZE..at % BSIZE + m], Content(sb, fs, i)[at..at + m];
    forall k | 0 <= k < m ensures part[k] == file[k] {
      assert (at + k) / BSIZE == at / BSIZE && (at + k) % BSIZE == at % BSIZE + k;
    }
  }

  // ---------- filewrite ----------

  lemma OverwrittenTwice(c: seq<int>, off: nat, a: seq<int>, b: seq<int>)
    requires off <= |c|
    ensures off + |a| <= |Overwritten(c, off, a)|
    ensures Overwritten(Overwritten(c, off, a), off + |a|, b) == Overwritten(c, off, a + b)
  {
  }

  lemma WroteTwice(sb: Super, fs: Fs, fs1: Fs, fs2: Fs, i: nat, off: nat, a: seq<int>, b: seq<int>)
    requires Wrote(sb, fs, fs1, i, off, a) && Wrote(sb, fs1, fs2, i, off + |a|, b)
    ensures Wrote(sb, fs, fs2, i, off, a + b)
  {
    hide Addr;
    hide ByteAt;
    hide Overwritten;
    hide Content;
    OverwrittenTwice(Content(sb, fs, i), off, a, b);
    forall j: nat | j < sb.ninodes && j != i ensures SameFile(sb, fs, fs2, j) {
      assert SameFile(sb, fs, fs1, j) && SameFile(sb, fs1, fs2, j);
    }
  }

  /** One transaction: the file system before and after it, the blocks it logged, and how
      much of the write was done when it ended. */
  datatype Txn = Txn(before: Fs, ownBefore: Owners, after: Fs, ownAfter: Owners, logged: set<int>, done: nat)

  /** The first `n` bytes of `src` have been written at `off`. */
  ghost predicate Progress(sb: Super, fs: Fs, fs': Fs, i: nat, off: nat, src: seq<int>, n: nat) {
    n <= |src| && ((n == 0 && fs' == fs) || Wrote(sb, fs, fs', i, off, src[..n]))
  }

  /** A step from one consistent file system to another that logs all it changes. */
  ghost predicate IsTxn(sb: Super, t: Txn) {
    && Inv(sb, t.before, t.ownBefore)
    && Inv(sb, t.after, t.ownAfter)
    && Tracked(sb, t.before, t.after, t.logged)
  }

  /** The file system after the first `t` transactions. */
  ghost function StateAt(fs: Fs, txns: seq<Txn>, t: nat): Fs
    requires t <= |txns|
  {
    if t == 0 then fs else txns[t - 1].after
  }

  /** The transactions of a write that took the file system from `fs` to `fs'`, each of them
      within its budget. */
  ghost predicate WriteTxns(sb: Super, fs: Fs, fs': Fs, i: nat, off: nat, src: seq<int>, txns: seq<Txn>) {
    && (forall t :: 0 <= t < |txns| ==> |txns[t].logged| <= MAXOPBLOCKS)
    && (forall t :: 0 <= t < |txns| ==> IsTxn(sb, txns[t]) && Progress(sb, fs, txns[t].after, i, off, src, txns[t].done))
    && (forall t :: 0 <= t < |txns| ==> txns[t].before == StateAt(fs, txns, t))
    && fs' == StateAt(fs, txns, |txns|)
  }

  lemma OneMoreTxn(sb: Super, fs: Fs, i: nat, off: nat, src: seq<int>, txns: seq<Txn>, t: Txn)
    requires WriteTxns(sb, fs, t.before, i, off, src, txns)
    requires IsTxn(sb, t) && Progress(sb, fs, t.after, i, off, src, t.done) && |t.logged| <= MAXOPBLOCKS
    ensures WriteTxns(sb, fs, t.after, i, off, src, txns + [t])
  {
    hide IsTxn;
    hide Progress;
    hide StateAt;
    StateAfter(fs, txns, t, |txns|);
    forall k: nat | k < |txns| + 1 ensures (txns + [t])[k].before == StateAt(fs, txns + [t], k) {
      StateAfter(fs, txns, t, k);
      assert k < |txns| ==> txns[k].before == StateAt(fs, txns, k);
    }
  }

  lemma StateAfter(fs: Fs, txns: seq<Txn>, t: Txn, k: nat)
    requires k <= |txns|
    ensures StateAt(fs, txns + [t], k) == StateAt(fs, txns, k) && StateAt(fs, txns + [t], |txns| + 1) == t.after
  {
  }

  /** filewrite on an inode file at offset `off`: one transaction per chunk, each within the
      budget and leaving a whole file system behind in which a first part of `src` has been
      written.  However it ends, the first off' - off bytes of `src` have been; it falls
      short only for a bad offset, a file too long, a full disk or a failed copy. */
  method Filewrite(f: FileSys, i: nat, off: nat, src: seq<int>, avail: nat)
    returns (ret: int, off': nat, ghost txns: seq<Txn>, ghost clean: Fs, ghost left: nat)
    requires f.Valid() && i < f.sb.ninodes && NoHoles(f.sb, f.fs, i)
    requires off < 0x1_0000_0000 && |src| < 0x8000_0000
    modifies f
    ensures Inv(f.sb, clean, f.own) && Shaped(f.sb, clean) && NoHoles(f.sb, clean, i)
    ensures WriteTxns(f.sb, old(f.fs), clean, i, off, src, txns)
    ensures off <= off' <= off + |src|
    ensures ret == if off' == off + |src| then |src| else -1
    ensures Progress(f.sb, old(f.fs), clean, i, off, src, off' - off)
    ensures LeftAt(f.sb, clean, f.fs, i, off, src, avail, off' - off, left)
    ensures left == 0 ==> f.Valid() && f.fs == clean
    ensures ret == -1 ==>
              || off > old(f.fs).inodes[i].size || off + |src| > MAXFILE * BSIZE || |src| > avail
              || (forall b :: 0 <= b < f.sb.size ==> clean.bits[b])
  {
    hide Inv;
    hide Tracked;
    hide Wrote;
    hide NoHoles;
    hide IsTxn;
    hide WriteTxns;
    hide Progress;
    hide Exactly;
    hide Grows;
    hide NewSlots;
    hide LeftAt;
    hide BlockEnd;
    hide Step;
    ghost var fs0 := f.fs;
    InvShaped(f.sb, fs0, f.own);
    var i', r, done := 0, 0, false;
    off' := off;
    txns, clean, left := [], f.fs, 0;
    NoTxns(f.sb, fs0, i, off, src);
    LeftNone(f.sb, fs0, i, off, src, avail, 0);
    while i' < |src| && !done
      invariant 0 <= i' <= |src| && off' == off + i' + (if done && r > 0 then r else 0) && off' <= off + |src|
      invariant Inv(f.sb, clean, f.own) && Tracked(f.sb, f.base, clean, f.logged) && Shaped(f.sb, clean) && NoHoles(f.sb, clean, i)
      invariant LeftAt(f.sb, clean, f.fs, i, off, src, avail, off' - off, left)
      invariant left == 0 ==> clean == f.fs
      invariant !done ==> left == 0
      invariant WriteTxns(f.sb, fs0, clean, i, off, src, txns)
      invariant Progress(f.sb, fs0, clean, i, off, src, off' - off)
      invariant off' < 0x1_0000_0000 && (i' > 0 ==> off' <= clean.inodes[i].size)
      invariant i' == 0 && !done ==> clean == fs0
      invariant done ==> off' < off + |src|
      invariant done ==>
                  || off > fs0.inodes[i].size || off + |src| > MAXFILE * BSIZE || |src| > avail
                  || (forall b :: 0 <= b < f.sb.size ==> clean.bits[b])
      decreases |src| - i', !done
    {
      var remaining := if |src| - i' > MAXCHUNK then MAXCHUNK else |src| - i';
      ghost var fs1 := f.fs;
      ghost var t;
      r, t, left := WriteTxn(f, i, src[i'..i' + remaining], if avail < i' then 0 else avail - i', off');
      clean := t.after;
      if r >= 0 {
        MoreProgress(f.sb, fs0, fs1, clean, i, off, src, i', remaining, r);
        LeftFacts(f.sb, clean, f.fs, i, off', src[i'..i' + remaining], if avail < i' then 0 else avail - i', r, left);
        LeftInChunk(f.sb, clean, f.fs, i, off, src, avail, i', remaining, r, left);
        StepBound(off' + r, remaining - r);
      }
      if r > 0 {
        off' := off' + r;
      }
      t := DoneWith(f.sb, t, off' - off);
      OneMoreTxn(f.sb, fs0, i, off, src, txns, t);
      txns := txns + [t];
      if r != remaining {
        done := true;
      } else {
        i' := i' + r;
      }
    }
    ret := if i' == |src| then |src| else -1;
  }

  /** One transaction of filewrite: begin_op, writei, end_op. */
  method WriteTxn(f: FileSys, i: nat, src: seq<int>, avail: nat, off: nat) returns (r: int, ghost t: Txn, ghost left: nat)
    requires f.Valid() && i < f.sb.ninodes && NoHoles(f.sb, f.fs, i)
    requires off < 0x1_0000_0000 && |src| <= MAXCHUNK
    modifies f
    ensures IsTxn(f.sb, t) && t.before == old(f.fs) && t.ownBefore == old(f.own) && t.ownAfter == f.own && t.logged == f.logged
    ensures |t.logged| <= MAXOPBLOCKS && f.base == t.before
    ensures Inv(f.sb, t.after, f.own) && Tracked(f.sb, f.base, t.after, f.logged) && Shaped(f.sb, t.after)
    ensures r == -1 <==> BadWrite(old(f.fs).inodes[i].size, off, |src|)
    ensures r == -1 ==> f.fs == t.after == old(f.fs) && left == 0
    ensures r != -1 ==> 0 <= r <= |src| && Wrote(f.sb, old(f.fs), t.after, i, off, src[..r])
    ensures r != -1 ==> LeftAt(f.sb, t.after, f.fs, i, off, src, avail, r, left)
    ensures 0 <= r < |src| ==> (forall b :: 0 <= b < f.sb.size ==> t.after.bits[b]) || r + left == avail < r + Step(off + r, |src| - r)
    ensures r <= avail && (r >= 0 ==> OnBoundary(off, |src|, r))
    ensures r >= 0 ==>
              Exactly(f.sb, old(f.own), {}, t.after, f.own, f.logged, i, off / BSIZE, BlockEnd(off, r), BlockEnd(off, |src|), {f.sb.IBLOCK(i)})
  {
    hide Inv;
    hide Tracked;
    hide Wrote;
    hide NoHoles;
    hide Exactly;
    hide Grows;
    hide NewSlots;
    hide LeftAt;
    hide Step;
    f.BeginOp();
    ghost var clean;
    r, clean, left := Writei(f, i, src, avail, off);
    t := Txn(old(f.fs), old(f.own), clean, f.own, f.logged, 0);
    TxnDone(f.sb, t);
  }

  ghost function DoneWith(sb: Super, t: Txn, done: nat): (t': Txn)
    ensures t' == t.(done := done) && (IsTxn(sb, t') <==> IsTxn(sb, t))
  {
    t.(done := done)
  }

  lemma StepBound(off: nat, n: nat)
    ensures Step(off, n) <= n
  {
  }

  lemma MoreProgress(sb: Super, fs: Fs, fs1: Fs, fs2: Fs, i: nat, off: nat, src: seq<int>, n: nat, m: nat, r: nat)
    requires n + m <= |src| && r <= m && Progress(sb, fs, fs1, i, off, src, n)
    requires Wrote(sb, fs1, fs2, i, off + n, src[n..n + m][..r])
    ensures Progress(sb, fs, fs2, i, off, src, n + r)
    ensures Shaped(sb, fs2) && i < sb.ninodes && NoHoles(sb, fs2, i)
    ensures off + n + r <= fs2.inodes[i].size <= MAXFILE * BSIZE
  {
    hide Wrote;
    assert src[n..n + m][..r] == src[n..n + r];
    assert src[..n] + src[n..n + r] == src[..n + r];
    if n == 0 && fs1 == fs {
      assert src[n..n + r] == src[..r];
    } else {
      WroteTwice(sb, fs, fs1, fs2, i, off, src[..n], src[n..n + r]);
    }
    WroteNoHoles(sb, fs, fs2, i, off, src[..n + r]);
  }

  lemma NoTxns(sb: Super, fs: Fs, i: nat, off: nat, src: seq<int>)
    ensures WriteTxns(sb, fs, fs, i, off, src, []) && Progress(sb, fs, fs, i, off, src, 0)
  {
  }

  lemma TxnDone(sb: Super, t: Txn)
    requires Inv(sb, t.before, t.ownBefore) && Inv(sb, t.after, t.ownAfter)
    requires Tracked(sb, t.before, t.after, t.logged) && |t.logged - {}| <= MAXOPBLOCKS
    ensures IsTxn(sb, t) && |t.logged| <= MAXOPBLOCKS
  {
    hide Inv;
    hide Tracked;
    assert t.logged - {} == t.logged;
  }

  lemma WroteNoHoles(sb: Super, fs: Fs, fs': Fs, i: nat, off: nat, data: seq<int>)
    requires Wrote(sb, fs, fs', i, off, data)
    ensures Shaped(sb, fs') && i < sb.ninodes && NoHoles(sb, fs', i)
    ensures off + |data| <= fs'.inodes[i].size <= MAXFILE * BSIZE
  {
    hide Addr;
    assert |Overwritten(Content(sb, fs, i), off, data)| >= off + |data|;
  }
}

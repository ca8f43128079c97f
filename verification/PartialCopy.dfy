/**
  What a copy that fails half way does to a file (kernel/fs.c): writei has put bytes into the
  buffer that it neither counts nor logs.
 */
module PartialCopy {
  import opened Disk
  import opened BlockMap
  import opened FileSystem
  import opened FileContents
  import opened FileOps

  /** Readers see the bytes, in this file alone. */
  lemma LeftoverSeen(sb: Super, fs: Fs, own: Owners, i: nat, at: nat, bytes: seq<int>)
    requires Inv(sb, fs, own) && i < sb.ninodes && at / BSIZE < MAXFILE && at % BSIZE + |bytes| <= BSIZE
    requires Addr(sb, fs, i, SlotOf(at / BSIZE)) != 0
    ensures var g := Leftover(sb, fs, i, at, bytes);
            && Inv(sb, g, own) && g.inodes == fs.inodes && g.dinodes == fs.dinodes
            && forall j: nat, k: nat :: j < sb.ninodes && k / BSIZE < MAXFILE ==>
                 ByteAt(sb, g, j, k) == if j == i && at <= k < at + |bytes| then bytes[k - at] else ByteAt(sb, fs, j, k)
  {
    BlockBytes(sb, fs, own, i, at / BSIZE, at % BSIZE, bytes);
    assert at / BSIZE * BSIZE + at % BSIZE == at;
    hide Addr;
    hide ByteAt;
    hide Inv;
  }

  /** The file reads as if nothing had been left if and only if the bytes lie past its end or are
      those that were there. */
  lemma LeftoverReads(sb: Super, fs: Fs, own: Owners, i: nat, at: nat, bytes: seq<int>)
    requires Inv(sb, fs, own) && i < sb.ninodes && at / BSIZE < MAXFILE && at % BSIZE + |bytes| <= BSIZE
    requires Addr(sb, fs, i, SlotOf(at / BSIZE)) != 0 && fs.inodes[i].size <= MAXFILE * BSIZE
    ensures var g := Leftover(sb, fs, i, at, bytes);
            && Shaped(sb, g) && g.inodes[i].size == fs.inodes[i].size
            && (Content(sb, g, i) == Content(sb, fs, i) <==>
                forall k :: 0 <= k < |bytes| && at + k < fs.inodes[i].size ==> bytes[k] == Content(sb, fs, i)[at + k])
  {
    LeftoverSeen(sb, fs, own, i, at, bytes);
    hide Leftover;
    hide Addr;
    hide ByteAt;
    hide OwnsSlot;
    hide OwnedRightly;
    var g := Leftover(sb, fs, i, at, bytes);
    var c, d := Content(sb, fs, i), Content(sb, g, i);
    forall k: nat | k < |c| ensures d[k] == if at <= k < at + |bytes| then bytes[k - at] else c[k] {
      assert k / BSIZE < MAXFILE;
    }
    if d == c {
      forall k | 0 <= k < |bytes| && at + k < |c| ensures bytes[k] == c[at + k] {
        assert d[at + k] == bytes[k];
      }
    }
    if forall k :: 0 <= k < |bytes| && at + k < |c| ==> bytes[k] == c[at + k] {
      forall k: nat | k < |c| ensures d[k] == c[k] {
        assert at <= k < at + |bytes| ==> bytes[k - at] == c[at + (k - at)];
      }
    }
  }

  /** Everything that changed is still in the log if and only if the block was logged for some
      other reason, or has the contents it had when the transaction began. */
  lemma LeftoverLogged(sb: Super, base: Fs, fs: Fs, own: Owners, logged: set<int>, i: nat, at: nat, bytes: seq<int>)
    requires Inv(sb, fs, own) && Tracked(sb, base, fs, logged) && i < sb.ninodes
    requires bytes != [] && at / BSIZE < MAXFILE && at % BSIZE + |bytes| <= BSIZE && Addr(sb, fs, i, SlotOf(at / BSIZE)) != 0
    ensures var g, b := Leftover(sb, fs, i, at, bytes), Addr(sb, fs, i, SlotOf(at / BSIZE));
            && sb.dataStart <= b < sb.size && |g.blocks| == |base.blocks| == sb.size
            && (Tracked(sb, base, g, logged) <==> b in logged || g.blocks[b] == base.blocks[b])
  {
    SlotIsData(at / BSIZE);
    AddrInRange(sb, fs, own, i, SlotOf(at / BSIZE));
    hide Addr;
    hide Inv;
    hide Super.Laid;
    hide Super.BBLOCK;
    hide Super.IBLOCK;
  }

  // ---------- a write that does it ----------

  /** One file of two zero bytes, and one free block. */
  const SMALL: Super := Super(6, 1, 2, 3, 4)

  function SmallInode(): (ino: Inode)
    ensures |ino.addrs| == NDIRECT + 1 && forall s: nat :: s <= NDIRECT ==> ino.addrs[s] == if s == 0 then 4 else 0
  {
    Inode(2, 0, 0, 1, 2, seq(NDIRECT + 1, s requires 0 <= s <= NDIRECT => if s == 0 then 4 else 0))
  }

  function SmallFs(): Fs {
    var zero := ZeroBlock();
    Fs([true, true, true, true, true, false], [zero, zero, zero, zero, zero, zero], [SmallInode()], [SmallInode()])
  }

  ghost function SmallOwners(): Owners {
    map[4 := (0, 0)]
  }

  lemma SmallConsistent()
    ensures Inv(SMALL, SmallFs(), SmallOwners()) && SMALL.Laid() && NoHoles(SMALL, SmallFs(), 0)
    ensures Content(SMALL, SmallFs(), 0) == [0, 0]
  {
    hide ZeroBlock;
    hide SmallInode;
    var fs, own := SmallFs(), SmallOwners();
    assert Shaped(SMALL, fs);
    forall s: nat | s < NSLOT ensures Addr(SMALL, fs, 0, s) == if s == 0 then 4 else 0 {
    }
    hide Addr;
    assert forall i: nat, s: nat :: i < SMALL.ninodes && s < NSLOT ==> OwnsSlot(SMALL, fs, own, i, s);
    assert OwnedRightly(SMALL, fs, own, 4);
    assert forall bn: nat :: bn < MAXFILE && bn * BSIZE < 2 ==> bn == 0;
    assert ByteAt(SMALL, fs, 0, 0) == 0 && ByteAt(SMALL, fs, 0, 1) == 0;
    SmallLaid();
  }

  lemma SmallLaid()
    ensures SMALL.Laid()
  {
    assert forall b: nat :: b < 6 ==> b / BPB == 0;
  }

  /** The first block is there, so nothing is allocated. */
  lemma SmallKept(fs: Fs, own: Owners, logged: set<int>)
    requires Inv(SMALL, fs, own) && Exactly(SMALL, SmallOwners(), {}, fs, own, logged, 0, 0, 0, 1, {SMALL.IBLOCK(0)})
    ensures Addr(SMALL, fs, 0, 0) == 4 && !fs.bits[5] && logged == {2}
  {
    assert 4 in SmallOwners();
    assert OwnedRightly(SMALL, fs, own, 4);
    forall b | b in own ensures b in SmallOwners() {
      assert OwnedRightly(SMALL, fs, own, b);
      assert b !in SmallOwners() ==> b in NewOnes(SmallOwners(), own);
    }
    hide Addr;
    assert NewOnes(SmallOwners(), own) == {};
    assert DataSet(SMALL, fs, 0, 0, 0) == {};
  }

  lemma SmallNumbers(n: nat)
    requires n == 2
    ensures BlockEnd(0, 0) == 0 && BlockEnd(0, n) == 1 && !BadWrite(2, 0, n) && n <= MAXCHUNK && 0 / BSIZE == 0
    ensures 1 % BSIZE != 0
  {
  }

  lemma SmallLeft(clean: Fs, fs: Fs, own: Owners, logged: set<int>)
    requires Inv(SMALL, clean, own) && Tracked(SMALL, SmallFs(), clean, logged) && Addr(SMALL, clean, 0, 0) == 4 && logged == {2}
    requires clean.inodes[0].size == 2 && Content(SMALL, clean, 0) == [0, 0] && fs == Leftover(SMALL, clean, 0, 0, [7])
    ensures Shaped(SMALL, fs) && fs.inodes[0].size == 2 && Content(SMALL, fs, 0) == [7, 0]
    ensures !Tracked(SMALL, SmallFs(), fs, logged)
  {
    LeftoverSeen(SMALL, clean, own, 0, 0, [7]);
    LeftoverLogged(SMALL, SmallFs(), clean, own, logged, 0, 0, [7]);
    assert fs.blocks[4][0] == 7 && SmallFs().blocks[4][0] == 0;
    hide Leftover;
    hide Addr;
    hide Tracked;
    hide Inv;
    hide ByteAt;
    assert Content(SMALL, clean, 0)[1] == ByteAt(SMALL, clean, 0, 1);
    assert Content(SMALL, fs, 0)[0] == 7 && Content(SMALL, fs, 0)[1] == 0;
  }

  /** A write of two bytes of which the caller has one: it returns 0 and logs no data, but the
      first byte of the file is another. */
  method LeftoverReached() returns (f: FileSys, r: int)
    ensures Shaped(f.sb, f.fs) && f.sb.ninodes == 1 && f.fs.inodes[0].size == 2
    ensures r == 0 && Content(SMALL, SmallFs(), 0) == [0, 0] && Content(f.sb, f.fs, 0) == [7, 0]
    ensures f.base == SmallFs() && !Tracked(f.sb, f.base, f.fs, f.logged)
  {
    SmallConsistent();
    hide SmallFs;
    hide Inv;
    hide NoHoles;
    hide Exactly;
    hide Tracked;
    hide Grows;
    hide NewSlots;
    hide BadWrite;
    hide BlockEnd;
    f := new FileSys(SMALL, SmallFs(), SmallOwners());
    ghost var t, left;
    var src := [7, 8];
    SmallNumbers(|src|);
    r, t, left := WriteTxn(f, 0, src, 1, 0);
    SmallKept(t.after, f.own, f.logged);
    assert src[..0] == [] && src[0..0 + 1] == [7];
    assert Overwritten([0, 0], 0, []) == [0, 0];
    SmallLeft(t.after, f.fs, f.own, f.logged);
  }
}

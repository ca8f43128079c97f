/**
  The block allocator and the block map of an inode (kernel/fs.c): balloc and bmap, with
  the set of blocks they log.
 */
module FileSystem {
  import opened BlockMap

  /** The blocks that allocating `b` logs: itself, zeroed, and its block of the bitmap. */
  function AllocLog(sb: Super, b: int): set<int> {
    if b > 0 then {b, sb.BBLOCK(b)} else {}
  }

  /** What bmap may do: fill empty slots of inode `i`.  Every slot in use, every other inode
      and every data block keep what they had. */
  ghost predicate Extended(sb: Super, fs: Fs, own: Owners, fs': Fs, own': Owners, i: nat) {
    && Inv(sb, fs, own) && Inv(sb, fs', own') && i < sb.ninodes
    && fs'.dinodes == fs.dinodes
    && fs'.inodes[i] == fs.inodes[i].(addrs := fs'.inodes[i].addrs)
    && (forall j :: 0 <= j < sb.ninodes && j != i ==> fs'.inodes[j] == fs.inodes[j])
    && (forall j: nat, t: nat :: j < sb.ninodes && t < NSLOT && (j != i || Addr(sb, fs, j, t) != 0) ==>
          Addr(sb, fs', j, t) == Addr(sb, fs, j, t))
    && (forall b :: b in own && own[b].1 != INDIRECT ==> 0 <= b < sb.size && fs'.blocks[b] == fs.blocks[b])
    && (forall b :: b in own ==> b in own' && own'[b] == own[b])
  }

  lemma ExtendedRefl(sb: Super, fs: Fs, own: Owners, i: nat)
    requires Inv(sb, fs, own) && i < sb.ninodes
    ensures Extended(sb, fs, own, fs, own, i)
  {
    forall b | b in own ensures 0 <= b < sb.size {
      assert OwnedRightly(sb, fs, own, b);
    }
  }

  lemma ExtendedTrans(sb: Super, fs: Fs, own: Owners, fs1: Fs, own1: Owners, fs2: Fs, own2: Owners, i: nat)
    requires Extended(sb, fs, own, fs1, own1, i) && Extended(sb, fs1, own1, fs2, own2, i)
    ensures Extended(sb, fs, own, fs2, own2, i)
  {
    hide Addr;
    hide OwnsSlot;
    hide OwnedRightly;
  }

  lemma DirectExtends(sb: Super, fs: Fs, own: Owners, b: nat, i: nat, s: nat)
    requires Inv(sb, fs, own) && i < sb.ninodes && s <= INDIRECT && Addr(sb, fs, i, s) == 0
    requires b < sb.size && !fs.bits[b]
    ensures Extended(sb, fs, own, Installed(fs, b, i, s), own[b := (i, s)], i)
    ensures Addr(sb, Installed(fs, b, i, s), i, s) == b
  {
    InstallDirect(sb, fs, own, b, i, s);
    hide Addr;
    hide OwnsSlot;
    forall x | x in own ensures 0 <= x < sb.size && x != b {
      assert OwnedRightly(sb, fs, own, x);
    }
  }

  lemma IndirectExtends(sb: Super, fs: Fs, own: Owners, b: nat, i: nat, k: nat)
    requires Inv(sb, fs, own) && i < sb.ninodes && k < NINDIRECT
    requires Addr(sb, fs, i, INDIRECT) != 0 && Addr(sb, fs, i, INDIRECT + 1 + k) == 0
    requires b < sb.size && !fs.bits[b]
    ensures 0 < fs.inodes[i].addrs[INDIRECT] < sb.size
    ensures var fs' := Listed(fs, b, fs.inodes[i].addrs[INDIRECT], k);
            Extended(sb, fs, own, fs', own[b := (i, INDIRECT + 1 + k)], i) && Addr(sb, fs', i, INDIRECT + 1 + k) == b
  {
    InstallIndirect(sb, fs, own, b, i, k);
    assert OwnsSlot(sb, fs, own, i, INDIRECT);
    assert Addr(sb, fs, i, INDIRECT) == fs.inodes[i].addrs[INDIRECT];
    hide Addr;
    hide OwnsSlot;
    hide PutWord;
    forall x | x in own ensures 0 <= x < sb.size && x != b {
      assert OwnedRightly(sb, fs, own, x);
    }
  }

  lemma ExtendedInv(sb: Super, fs: Fs, own: Owners, fs': Fs, own': Owners, i: nat)
    requires Extended(sb, fs, own, fs', own', i)
    ensures Inv(sb, fs', own') && i < sb.ninodes
    ensures Shaped(sb, fs) && forall t: nat :: t < NSLOT && Addr(sb, fs, i, t) != 0 ==> Addr(sb, fs', i, t) == Addr(sb, fs, i, t)
    ensures fs'.inodes[i].size == fs.inodes[i].size
  {
    hide Addr;
    hide OwnsSlot;
    hide OwnedRightly;
  }

  // ---------- whatever changes on disk has been logged ----------

  /** Every block whose contents differ from what they were in `base` is in `logged`, and
      only blocks of inodes, of the bitmap or of data are. */
  ghost predicate Tracked(sb: Super, base: Fs, fs: Fs, logged: set<int>) {
    && sb.Laid() && sb.dataStart <= sb.size
    && |fs.bits| == |base.bits| == |fs.blocks| == |base.blocks| == sb.size
    && |fs.dinodes| == |base.dinodes| == sb.ninodes
    && (forall b: nat :: b < sb.size ==> fs.blocks[b] == base.blocks[b] || b in logged)
    && (forall b: nat :: b < sb.size ==> fs.bits[b] == base.bits[b] || sb.BBLOCK(b) in logged)
    && (forall i: nat :: i < sb.ninodes ==> fs.dinodes[i] == base.dinodes[i] || sb.IBLOCK(i) in logged)
    && (forall x :: x in logged ==> sb.inodestart <= x < sb.size)
  }

  lemma TrackedAgain(sb: Super, base: Fs, fs: Fs, logged: set<int>)
    requires Tracked(sb, base, fs, logged)
    ensures Tracked(sb, fs, fs, {})
  {
  }

  lemma AreasInRange(sb: Super, b: nat, i: nat)
    requires sb.Laid() && sb.dataStart <= sb.size
    ensures sb.inodestart < sb.dataStart
    ensures b < sb.size ==> sb.inodestart <= sb.BBLOCK(b) < sb.dataStart
    ensures i < sb.ninodes ==> sb.inodestart <= sb.IBLOCK(i) < sb.bmapstart < sb.dataStart
  {
  }

  lemma TrackedBit(sb: Super, base: Fs, fs: Fs, logged: set<int>, b: nat, v: bool)
    requires Tracked(sb, base, fs, logged) && b < sb.size
    ensures Tracked(sb, base, fs.(bits := fs.bits[b := v]), logged + {sb.BBLOCK(b)})
  {
    hide Super.Laid;
    hide Super.BBLOCK;
    hide Super.IBLOCK;
    AreasInRange(sb, b, 0);
  }

  lemma TrackedBlock(sb: Super, base: Fs, fs: Fs, logged: set<int>, b: nat, data: Bytes)
    requires Tracked(sb, base, fs, logged) && sb.dataStart <= b < sb.size
    ensures Tracked(sb, base, fs.(blocks := fs.blocks[b := data]), logged + {b})
  {
    hide Super.Laid;
    hide Super.BBLOCK;
    hide Super.IBLOCK;
    AreasInRange(sb, b, 0);
  }

  lemma TrackedInode(sb: Super, base: Fs, fs: Fs, logged: set<int>, i: nat, ino: Inode)
    requires Tracked(sb, base, fs, logged) && i < sb.ninodes
    ensures Tracked(sb, base, fs.(dinodes := fs.dinodes[i := ino]), logged + {sb.IBLOCK(i)})
  {
    hide Super.Laid;
    hide Super.BBLOCK;
    hide Super.IBLOCK;
    AreasInRange(sb, 0, i);
  }

  /** The inodes in memory are not on the disk. */
  lemma TrackedMemory(sb: Super, base: Fs, fs: Fs, logged: set<int>, inodes: seq<Inode>)
    requires Tracked(sb, base, fs, logged)
    ensures Tracked(sb, base, fs.(inodes := inodes), logged)
  {
  }

  // ---------- exactly what allocation logs ----------

  /** Blocks that got an owner. */
  ghost function NewOnes(own: Owners, own': Owners): set<int> {
    own'.Keys - own.Keys
  }

  ghost function BitmapBlocks(sb: Super, bs: set<int>): set<int> {
    set b: nat | b in bs :: sb.BBLOCK(b)
  }

  /** Some of them are listed in an indirect block. */
  ghost predicate Listing(own: Owners, own': Owners) {
    exists b :: b in NewOnes(own, own') && own'[b].1 > INDIRECT
  }

  /** What that logs: each block, zeroed, its block of the bitmap, and the indirect block when
      it lists one of them. */
  ghost function NewLog(sb: Super, own: Owners, own': Owners, ib: int): set<int> {
    NewOnes(own, own') + BitmapBlocks(sb, NewOnes(own, own')) + if Listing(own, own') then {ib} else {}
  }

  /** They were the lowest free blocks. */
  ghost predicate Lowest(sb: Super, own: Owners, own': Owners) {
    forall b, x :: b in NewOnes(own, own') && sb.dataStart <= x < b ==> x in own'
  }

  ghost predicate Grows(own: Owners, own': Owners) {
    forall b :: b in own ==> b in own' && own'[b] == own[b]
  }

  /** The file block a slot other than the indirect one is for. */
  function BlockOfSlot(s: nat): nat {
    if s < NDIRECT then s else if s == INDIRECT then 0 else s - 1
  }

  /** They are in the slots of inode `i` for file blocks lo..hi-1, or in its indirect slot if
      one of these needs it. */
  ghost predicate NewSlots(own: Owners, own': Owners, i: nat, lo: nat, hi: nat) {
    forall b :: b in NewOnes(own, own') ==>
      own'[b].0 == i && own'[b].1 < NSLOT && if own'[b].1 == INDIRECT then hi > NDIRECT else lo <= BlockOfSlot(own'[b].1) < hi
  }

  /** Everything about the blocks that were allocated between two states. */
  ghost predicate Allocates(sb: Super, own: Owners, logged: set<int>, own': Owners, logged': set<int>, ib: int, i: nat, lo: nat, hi: nat) {
    && Grows(own, own')
    && logged' == logged + NewLog(sb, own, own', ib)
    && Lowest(sb, own, own')
    && NewSlots(own, own', i, lo, hi)
  }

  lemma AllocatesNothing(sb: Super, own: Owners, logged: set<int>, ib: int, i: nat, lo: nat, hi: nat)
    ensures Allocates(sb, own, logged, own, logged, ib, i, lo, hi)
  {
    assert NewOnes(own, own) == {};
  }

  lemma AllocatesOne(sb: Super, fs: Fs, own: Owners, logged: set<int>, ib: int, i: nat, s: nat, b: nat, bn: nat)
    requires Inv(sb, fs, own) && b < sb.size && !fs.bits[b] && s < NSLOT && forall x :: 0 <= x < b ==> fs.bits[x]
    requires if s == INDIRECT then bn >= NDIRECT else s == SlotOf(bn)
    ensures var logged' := if s > INDIRECT then logged + {sb.BBLOCK(b), b} + {ib} else logged + {sb.BBLOCK(b), b};
            Allocates(sb, own, logged, own[b := (i, s)], logged', ib, i, bn, bn + 1)
  {
    hide OwnsSlot;
    hide OwnedRightly;
    hide Super.BBLOCK;
    var own' := own[b := (i, s)];
    assert b !in own;
    assert NewOnes(own, own') == {b};
    assert BitmapBlocks(sb, {b}) == {sb.BBLOCK(b)};
    assert s > INDIRECT ==> b in NewOnes(own, own') && own'[b].1 > INDIRECT;
  }

  lemma NoListing(own: Owners, b: int, place: (nat, nat))
    requires place.1 <= INDIRECT
    ensures !Listing(own, own) && !Listing(own, own[b := place])
  {
  }

  lemma NewOnesTwice(own: Owners, own1: Owners, own2: Owners)
    requires Grows(own, own1) && Grows(own1, own2)
    ensures NewOnes(own, own2) == NewOnes(own, own1) + NewOnes(own1, own2)
    ensures Listing(own, own2) <==> Listing(own, own1) || Listing(own1, own2)
  {
    forall x ensures x in NewOnes(own, own2) <==> x in NewOnes(own, own1) + NewOnes(own1, own2) {
    }
    if b :| b in NewOnes(own, own1) && own1[b].1 > INDIRECT {
      assert b in NewOnes(own, own2) && own2[b].1 > INDIRECT;
    }
    if b :| b in NewOnes(own1, own2) && own2[b].1 > INDIRECT {
      assert b in NewOnes(own, own2);
    }
  }

  lemma AllocatesTwice(sb: Super, own: Owners, logged: set<int>, own1: Owners, logged1: set<int>, ib1: int,
                       own2: Owners, logged2: set<int>, ib2: int, i: nat, lo: nat, hi: nat)
    requires Allocates(sb, own, logged, own1, logged1, ib1, i, lo, hi) && Allocates(sb, own1, logged1, own2, logged2, ib2, i, lo, hi)
    requires Listing(own, own1) ==> ib1 == ib2
    ensures Allocates(sb, own, logged, own2, logged2, ib2, i, lo, hi)
  {
    hide Super.BBLOCK;
    NewOnesTwice(own, own1, own2);
    BitmapUnion(sb, NewOnes(own, own1), NewOnes(own1, own2));
    hide BitmapBlocks;
    hide Listing;
    forall b, x | b in NewOnes(own, own2) && sb.dataStart <= x < b ensures x in own2 {
    }
    hide NewOnes;
  }

  lemma BitmapUnion(sb: Super, a: set<int>, b: set<int>)
    ensures BitmapBlocks(sb, a + b) == BitmapBlocks(sb, a) + BitmapBlocks(sb, b)
  {
    hide Super.BBLOCK;
  }

  lemma AllocatesWithin(sb: Super, own: Owners, logged: set<int>, own': Owners, logged': set<int>, ib: int, i: nat,
                        lo: nat, hi: nat, lo': nat, hi': nat)
    requires Allocates(sb, own, logged, own', logged', ib, i, lo, hi) && lo' <= lo && hi <= hi'
    ensures Allocates(sb, own, logged, own', logged', ib, i, lo', hi')
  {
  }

  class FileSys {
    const sb: Super
    var fs: Fs

    /** Blocks log_write has recorded since begin_op. */
    var logged: set<int>

    /** What the file system was at begin_op. */
    ghost var base: Fs

    ghost var own: Owners

    ghost predicate Valid()
      reads this
    {
      Inv(sb, fs, own) && Tracked(sb, base, fs, logged)
    }

    constructor (sb: Super, fs: Fs, ghost own: Owners)
      requires Inv(sb, fs, own) && sb.Laid()
      ensures Valid() && this.sb == sb && this.fs == fs && this.own == own && base == fs && logged == {}
    {
      this.sb := sb;
      this.fs := fs;
      this.own := own;
      base := fs;
      logged := {};
    }

    /** begin_op, once the last transaction is done. */
    method BeginOp()
      requires Valid()
      modifies this`logged, this`base
      ensures Valid() && base == fs && logged == {}
    {
      hide Inv;
      logged, base := {}, fs;
      TrackedAgain(sb, old(base), fs, old(logged));
    }

    method LogWrite(b: nat)
      modifies this`logged
      ensures logged == old(logged) + {b}
    {
      logged := logged + {b};
    }

    /** balloc: the lowest free block, marked in use and zeroed; 0 when there is none. */
    method Balloc() returns (r: nat)
      requires Valid()
      modifies this`fs, this`logged
      ensures r == 0 ==> (forall b :: 0 <= b < sb.size ==> old(fs).bits[b]) && fs == old(fs) && logged == old(logged)
      ensures r != 0 ==>
                && sb.dataStart <= r < sb.size && !old(fs).bits[r]
                && (forall b :: 0 <= b < r ==> old(fs).bits[b])
                && fs == Fs(old(fs).bits[r := true], old(fs).blocks[r := ZeroBlock()], old(fs).inodes, old(fs).dinodes)
                && logged == old(logged) + {sb.BBLOCK(r), r}
      ensures Tracked(sb, base, fs, logged)
    {
      hide OwnsSlot;
      hide OwnedRightly;
      hide Tracked;
      hide Super.BBLOCK;
      var b := 0;
      while b < sb.size
        invariant fs == old(fs) && logged == old(logged)
        invariant forall x :: 0 <= x < b && x < sb.size ==> fs.bits[x]
      {
        var bi := 0;
        while bi < BPB && b + bi < sb.size
          invariant 0 <= bi <= BPB && fs == old(fs) && logged == old(logged)
          invariant forall x :: 0 <= x < b + bi && x < sb.size ==> fs.bits[x]
        {
          if !fs.bits[b + bi] {
            r := b + bi;
            TrackedBit(sb, base, fs, logged, r, true);
            fs := fs.(bits := fs.bits[r := true]);
            LogWrite(sb.BBLOCK(r));
            Bzero(r);
            return;
          }
          bi := bi + 1;
        }
        b := b + BPB;
      }
      r := 0;
    }

    method Bzero(b: nat)
      requires sb.dataStart <= b < sb.size && Tracked(sb, base, fs, logged)
      modifies this`fs, this`logged
      ensures fs == Fs(old(fs).bits, old(fs).blocks[b := ZeroBlock()], old(fs).inodes, old(fs).dinodes)
      ensures logged == old(logged) + {b} && Tracked(sb, base, fs, logged)
    {
      var zero := ZeroBlock();
      TrackedBlock(sb, base, fs, logged, b, zero);
      fs := fs.(blocks := fs.blocks[b := zero]);
      LogWrite(b);
    }

    /** The block in direct or indirect slot `s`, allocated when the slot is empty. */
    method EnsureSlot(i: nat, s: nat, ghost bn: nat) returns (addr: nat)
      requires Valid() && i < sb.ninodes && s <= INDIRECT && if s == INDIRECT then bn >= NDIRECT else s == SlotOf(bn)
      modifies this`fs, this`logged, this`own
      ensures Valid() && Extended(sb, old(fs), old(own), fs, own, i)
      ensures addr != 0 ==> addr == Addr(sb, fs, i, s) == fs.inodes[i].addrs[s]
      ensures s != INDIRECT ==> fs.inodes[i].addrs[INDIRECT] == old(fs).inodes[i].addrs[INDIRECT]
      ensures addr == 0 ==> forall b :: 0 <= b < sb.size ==> fs.bits[b]
      ensures addr == 0 || old(fs).inodes[i].addrs[s] != 0 ==>
                addr == old(fs).inodes[i].addrs[s] && fs == old(fs) && own == old(own) && logged == old(logged)
      ensures logged <= old(logged) + AllocLog(sb, addr)
      ensures Allocates(sb, old(own), old(logged), own, logged, fs.inodes[i].addrs[INDIRECT], i, bn, bn + 1) && !Listing(old(own), own)
    {
      hide Allocates;
      hide Listing;
      NoListing(own, 0, (i, s));
      AllocatesNothing(sb, own, logged, fs.inodes[i].addrs[INDIRECT], i, bn, bn + 1);
      ExtendedRefl(sb, fs, own, i);
      addr := fs.inodes[i].addrs[s];
      if addr == 0 {
        addr := Balloc();
        if addr != 0 {
          DirectExtends(sb, old(fs), own, addr, i, s);
          NoListing(own, addr, (i, s));
          AllocatesOne(sb, old(fs), own, old(logged), if s == INDIRECT then addr else fs.inodes[i].addrs[INDIRECT], i, s, addr, bn);
          hide Extended;
          hide Tracked;
          TrackedMemory(sb, base, fs, logged, fs.inodes[i := fs.inodes[i].(addrs := fs.inodes[i].addrs[s := addr])]);
          fs := fs.(inodes := fs.inodes[i := fs.inodes[i].(addrs := fs.inodes[i].addrs[s := addr])]);
          own := own[addr := (i, s)];
        }
      }
    }

    /** The block in word `k` of the indirect block, allocated when the word is 0. */
    method EnsureWord(i: nat, k: nat) returns (addr: int)
      requires Valid() && i < sb.ninodes && k < NINDIRECT && Addr(sb, fs, i, INDIRECT) != 0
      modifies this`fs, this`logged, this`own
      ensures Valid() && Extended(sb, old(fs), old(own), fs, own, i)
      ensures fs.inodes == old(fs).inodes
      ensures addr != 0 ==> addr == Addr(sb, fs, i, INDIRECT + 1 + k)
      ensures addr == 0 ==> forall b :: 0 <= b < sb.size ==> fs.bits[b]
      ensures addr == 0 || Addr(sb, old(fs), i, INDIRECT + 1 + k) != 0 ==>
                addr == Addr(sb, old(fs), i, INDIRECT + 1 + k) && fs == old(fs) && own == old(own) && logged == old(logged)
      ensures logged <= old(logged) + {fs.inodes[i].addrs[INDIRECT]} + AllocLog(sb, addr)
      ensures Allocates(sb, old(own), old(logged), own, logged, fs.inodes[i].addrs[INDIRECT], i, NDIRECT + k, NDIRECT + k + 1)
    {
      hide Allocates;
      AllocatesNothing(sb, own, logged, fs.inodes[i].addrs[INDIRECT], i, NDIRECT + k, NDIRECT + k + 1);
      ExtendedRefl(sb, fs, own, i);
      assert OwnsSlot(sb, fs, own, i, INDIRECT);
      var ib := fs.inodes[i].addrs[INDIRECT];
      addr := GetWord(fs.blocks[ib], k);
      if addr == 0 {
        var b := Balloc();
        if b != 0 {
          IndirectExtends(sb, old(fs), own, b, i, k);
          AllocatesOne(sb, old(fs), own, old(logged), ib, i, INDIRECT + 1 + k, b, NDIRECT + k);
          hide Extended;
          hide Tracked;
          var words := PutWord(fs.blocks[ib], k, b);
          TrackedBlock(sb, base, fs, logged, ib, words);
          fs := fs.(blocks := fs.blocks[ib := words]);
          LogWrite(ib);
          own := own[b := (i, INDIRECT + 1 + k)];
        }
        addr := b;
      }
    }

    /** bmap: the block of file block `bn`, allocating it and the indirect block when they
        are missing; 0 when the disk is full. */
    method Bmap(i: nat, bn: nat) returns (addr: int)
      requires Valid() && i < sb.ninodes && bn < MAXFILE
      modifies this`fs, this`logged, this`own
      ensures Valid() && Extended(sb, old(fs), old(own), fs, own, i)
      ensures addr != 0 ==> addr == Addr(sb, fs, i, SlotOf(bn))
      ensures addr == 0 ==> forall b :: 0 <= b < sb.size ==> fs.bits[b]
      ensures Addr(sb, old(fs), i, SlotOf(bn)) != 0 ==>
                addr == Addr(sb, old(fs), i, SlotOf(bn)) && fs == old(fs) && own == old(own) && logged == old(logged)
      ensures logged <= old(logged) + AllocLog(sb, fs.inodes[i].addrs[INDIRECT]) + AllocLog(sb, addr)
      ensures Allocates(sb, old(own), old(logged), own, logged, fs.inodes[i].addrs[INDIRECT], i, bn, bn + 1)
    {
      hide Extended;
      hide Allocates;
      hide Listing;
      if bn < NDIRECT {
        addr := EnsureSlot(i, bn, bn);
        ExtendedInv(sb, old(fs), old(own), fs, own, i);
        return;
      }
      var ib := EnsureSlot(i, INDIRECT, bn);
      ExtendedInv(sb, old(fs), old(own), fs, own, i);
      if ib == 0 {
        return 0;
      }
      ghost var fs1, own1, log1 := fs, own, logged;
      addr := EnsureWord(i, bn - NDIRECT);
      AllocatesTwice(sb, old(own), old(logged), own1, log1, fs1.inodes[i].addrs[INDIRECT], own, logged, fs.inodes[i].addrs[INDIRECT], i, bn, bn + 1);
      ExtendedTrans(sb, old(fs), old(own), fs1, own1, fs, own, i);
      ExtendedInv(sb, old(fs), old(own), fs, own, i);
    }
  }
}

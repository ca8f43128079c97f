/**
  Giving blocks and inodes back (kernel/fs.c): bfree, itrunc, the freeing branch of iput,
  and ialloc, which hands the inode out again.
 */
module Truncate {
  import opened Disk
  import opened BlockMap
  import opened FileSystem
  import opened FileContents
  import FileOps

  /** The invariant while itrunc frees the blocks an indirect block lists: the words below `n`
      of inode `i`'s indirect block are stale, everything else is as in Inv. */
  ghost predicate InvBut(sb: Super, fs: Fs, own: Owners, i: nat, n: nat) {
    && Shaped(sb, fs)
    && (forall j: nat, s: nat :: j < sb.ninodes && s < NSLOT && !(j == i && INDIRECT < s <= INDIRECT + n) ==> OwnsSlot(sb, fs, own, j, s))
    && (forall b :: b in own ==> OwnedRightly(sb, fs, own, b) && !(own[b].0 == i && INDIRECT < own[b].1 <= INDIRECT + n))
    && (forall b :: 0 <= b < sb.size ==> (fs.bits[b] <==> b < sb.dataStart || b in own))
  }

  ghost function Freed(fs: Fs, b: nat): Fs
    requires b < |fs.bits|
  {
    fs.(bits := fs.bits[b := false])
  }

  ghost function Cleared(fs: Fs, b: nat, i: nat, s: nat): Fs
    requires b < |fs.bits| && i < |fs.inodes| && s < |fs.inodes[i].addrs|
  {
    Freed(fs, b).(inodes := fs.inodes[i := fs.inodes[i].(addrs := fs.inodes[i].addrs[s := 0])])
  }

  /** Freeing the block in a direct slot and emptying the slot. */
  lemma FreeDirect(sb: Super, fs: Fs, own: Owners, i: nat, s: nat)
    requires Inv(sb, fs, own) && i < sb.ninodes && s < INDIRECT && Addr(sb, fs, i, s) != 0
    ensures var b := fs.inodes[i].addrs[s];
            && b < sb.size && fs.bits[b] && b in own && own[b].0 == i
            && Inv(sb, Cleared(fs, b, i, s), own - {b})
  {
    hide GetWord;
    var b := fs.inodes[i].addrs[s];
    assert OwnsSlot(sb, fs, own, i, s);
    var fs', own' := Cleared(fs, b, i, s), own - {b};
    assert Shaped(sb, fs');
    forall j: nat, t: nat | j < sb.ninodes && t < NSLOT
      ensures Addr(sb, fs', j, t) == if j == i && t == s then 0 else Addr(sb, fs, j, t)
    {
    }
    hide Addr;
    forall j: nat, t: nat | j < sb.ninodes && t < NSLOT ensures OwnsSlot(sb, fs', own', j, t) {
      assert OwnsSlot(sb, fs, own, j, t);
    }
    forall x | x in own' ensures OwnedRightly(sb, fs', own', x) {
      assert OwnedRightly(sb, fs, own, x);
    }
  }

  /** Freeing the block that word `n` of the indirect block lists, without clearing the word. */
  lemma FreeWord(sb: Super, fs: Fs, own: Owners, i: nat, n: nat)
    requires InvBut(sb, fs, own, i, n) && i < sb.ninodes && n < NINDIRECT
    ensures var b := Addr(sb, fs, i, INDIRECT + 1 + n);
            if b == 0 then InvBut(sb, fs, own, i, n + 1)
            else 0 < b < sb.size && fs.bits[b] && b in own && own[b].0 == i && InvBut(sb, Freed(fs, b), own - {b}, i, n + 1)
  {
    hide GetWord;
    var b := Addr(sb, fs, i, INDIRECT + 1 + n);
    assert OwnsSlot(sb, fs, own, i, INDIRECT + 1 + n);
    var fs', own' := if b == 0 then fs else Freed(fs, b), own - {b};
    assert Shaped(sb, fs');
    assert forall j: nat, t: nat :: j < sb.ninodes && t < NSLOT ==> Addr(sb, fs', j, t) == Addr(sb, fs, j, t);
    hide Addr;
    assert b == 0 ==> own' == own by {
      assert forall x :: x in own ==> OwnedRightly(sb, fs, own, x);
    }
    forall j: nat, t: nat | j < sb.ninodes && t < NSLOT && !(j == i && INDIRECT < t <= INDIRECT + n + 1) ensures OwnsSlot(sb, fs', own', j, t) {
      assert OwnsSlot(sb, fs, own, j, t);
    }
    forall x | x in own' ensures OwnedRightly(sb, fs', own', x) && !(own'[x].0 == i && INDIRECT < own'[x].1 <= INDIRECT + n + 1) {
      assert OwnedRightly(sb, fs, own, x);
    }
  }

  /** Freeing the indirect block itself, once everything it lists is free. */
  lemma FreeIndirect(sb: Super, fs: Fs, own: Owners, i: nat)
    requires InvBut(sb, fs, own, i, NINDIRECT) && i < sb.ninodes && Addr(sb, fs, i, INDIRECT) != 0
    ensures var b := fs.inodes[i].addrs[INDIRECT];
            && b < sb.size && fs.bits[b] && b in own && own[b].0 == i
            && Inv(sb, Cleared(fs, b, i, INDIRECT), own - {b})
  {
    hide GetWord;
    var b := fs.inodes[i].addrs[INDIRECT];
    assert OwnsSlot(sb, fs, own, i, INDIRECT);
    var fs', own' := Cleared(fs, b, i, INDIRECT), own - {b};
    assert Shaped(sb, fs');
    forall j: nat, t: nat | j < sb.ninodes && t < NSLOT
      ensures Addr(sb, fs', j, t) == if j == i && t >= INDIRECT then 0 else Addr(sb, fs, j, t)
    {
    }
    hide Addr;
    forall j: nat, t: nat | j < sb.ninodes && t < NSLOT ensures OwnsSlot(sb, fs', own', j, t) {
      if !(j == i && t >= INDIRECT) {
        assert OwnsSlot(sb, fs, own, j, t);
      }
    }
    forall x | x in own' ensures OwnedRightly(sb, fs', own', x) {
      assert OwnedRightly(sb, fs, own, x);
    }
  }

  /** Only blocks of inode `i` have been given up. */
  ghost predicate GaveUp(own: Owners, own': Owners, i: nat) {
    && (forall b :: b in own' ==> b in own && own'[b] == own[b])
    && (forall b :: b in own && own[b].0 != i ==> b in own')
  }

  /** The bitmap blocks that hold the bits of the blocks given up. */
  ghost function FreedLog(sb: Super, own: Owners, own': Owners): set<int> {
    set b: int | b in own && b !in own' && b >= 0 :: sb.BBLOCK(b)
  }

  lemma NothingFreed(sb: Super, own: Owners, i: nat)
    ensures GaveUp(own, own, i) && FreedLog(sb, own, own) == {}
  {
  }

  lemma FreedLogGrows(sb: Super, own: Owners, own1: Owners, i: nat, b: nat)
    requires GaveUp(own, own1, i) && b in own1 && own1[b].0 == i
    ensures GaveUp(own, own1 - {b}, i)
    ensures FreedLog(sb, own, own1 - {b}) == FreedLog(sb, own, own1) + {sb.BBLOCK(b)}
  {
    assert b in own && b !in own1 - {b};
  }

  /** No slot of inode `i` holds a block. */
  ghost predicate Empty(sb: Super, fs: Fs, i: nat)
    requires Shaped(sb, fs) && i < sb.ninodes
  {
    forall s: nat :: s <= INDIRECT ==> fs.inodes[i].addrs[s] == 0
  }

  ghost function Others(own: Owners, i: nat): Owners {
    map b | b in own && own[b].0 != i :: own[b]
  }

  /** What itrunc logs: the bitmap blocks of the inode's blocks, and the inode's block. */
  ghost function TruncLog(sb: Super, own: Owners, i: nat): set<int> {
    FreedLog(sb, own, Others(own, i)) + {sb.IBLOCK(i)}
  }

  /** What itrunc does: inode `i` is empty, in memory and on disk, every block it had and no
      other is free, and no other file has changed. */
  ghost predicate Truncated(sb: Super, fs: Fs, own: Owners, fs': Fs, own': Owners, i: nat, typ: int) {
    && Inv(sb, fs, own) && Inv(sb, fs', own') && i < sb.ninodes
    && own' == Others(own, i)
    && (forall b :: 0 <= b < sb.size ==> (fs'.bits[b] <==> fs.bits[b] && !(b in own && own[b].0 == i)))
    && Empty(sb, fs', i)
    && fs'.inodes[i] == fs.inodes[i].(typ := typ, size := 0, addrs := fs'.inodes[i].addrs)
    && fs'.dinodes[i] == fs'.inodes[i]
    && (forall j: nat :: j < sb.ninodes && j != i ==> SameFile(sb, fs, fs', j))
  }

  /** The end of itrunc and of iput's freeing branch: new type, size 0, inode copied to disk. */
  ghost function Closed(fs: Fs, i: nat, typ: int): Fs
    requires i < |fs.inodes| == |fs.dinodes|
  {
    var ino := fs.inodes[i].(typ := typ, size := 0);
    fs.(inodes := fs.inodes[i := ino], dinodes := fs.dinodes[i := ino])
  }

  /** Everything but inode `i` and the bitmap is as it was. */
  ghost predicate OthersKept(sb: Super, fs: Fs, fs': Fs, i: nat) {
    && Shaped(sb, fs) && Shaped(sb, fs') && i < sb.ninodes
    && fs'.blocks == fs.blocks && fs'.dinodes == fs.dinodes
    && (forall j :: 0 <= j < sb.ninodes && j != i ==> fs'.inodes[j] == fs.inodes[j])
    && fs'.inodes[i] == fs.inodes[i].(addrs := fs'.inodes[i].addrs)
  }

  lemma AllGivenUp(own: Owners, own': Owners, i: nat)
    requires GaveUp(own, own', i) && forall b :: b in own' ==> own'[b].0 != i
    ensures own' == Others(own, i)
  {
    forall b | b in own' ensures b in Others(own, i) && Others(own, i)[b] == own'[b] {
      assert b in own && own[b].0 != i;
    }
    forall b | b in Others(own, i) ensures b in own' {
      assert b in own && own[b].0 != i;
    }
  }

  lemma ClosedTruncates(sb: Super, fs: Fs, own: Owners, fs1: Fs, own1: Owners, i: nat, typ: int)
    requires Inv(sb, fs, own) && Inv(sb, fs1, own1) && OthersKept(sb, fs, fs1, i) && Empty(sb, fs1, i) && GaveUp(own, own1, i)
    ensures Truncated(sb, fs, own, Closed(fs1, i, typ), own1, i, typ)
  {
    hide GetWord;
    var fs' := Closed(fs1, i, typ);
    assert Shaped(sb, fs');
    forall j: nat, t: nat | j < sb.ninodes && t < NSLOT
      ensures Addr(sb, fs', j, t) == Addr(sb, fs1, j, t) == if j == i then 0 else Addr(sb, fs, j, t)
    {
    }
    SameSlots(sb, fs1, own1, fs');
    hide Addr;
    forall b | b in own1 ensures own1[b].0 != i {
      assert OwnedRightly(sb, fs1, own1, b);
    }
    forall b | b in own ensures b >= sb.dataStart {
      assert OwnedRightly(sb, fs, own, b);
    }
    AllGivenUp(own, own1, i);
    forall j: nat | j < sb.ninodes && j != i ensures SameFile(sb, fs, fs', j) {
      forall k: nat | k / BSIZE < MAXFILE ensures ByteAt(sb, fs', j, k) == ByteAt(sb, fs, j, k) {
        SlotIsData(k / BSIZE);
      }
    }
  }

  // ---------- the operations ----------

  lemma TrackedSize(sb: Super, base: Fs, fs: Fs, logged: set<int>)
    requires Tracked(sb, base, fs, logged)
    ensures |fs.bits| == sb.size && |fs.dinodes| == sb.ninodes
  {
  }

  /** bfree.  Its panic, "freeing free block", needs a bit that is already clear. */
  method Bfree(f: FileSys, b: nat)
    requires b < |f.fs.bits| && f.fs.bits[b] && Tracked(f.sb, f.base, f.fs, f.logged)
    modifies f`fs, f`logged, f`own
    ensures f.fs == Freed(old(f.fs), b) && f.own == old(f.own) - {b}
    ensures f.logged == old(f.logged) + {f.sb.BBLOCK(b)} && Tracked(f.sb, f.base, f.fs, f.logged)
  {
    TrackedSize(f.sb, f.base, f.fs, f.logged);
    hide Tracked;
    TrackedBit(f.sb, f.base, f.fs, f.logged, b, false);
    f.fs := f.fs.(bits := f.fs.bits[b := false]);
    f.own := f.own - {b};
    f.LogWrite(f.sb.BBLOCK(b));
  }

  /** itrunc: never frees a free block, frees exactly the blocks of the inode, and logs
      exactly their bitmap blocks and the inode's block. */
  method Itrunc(f: FileSys, i: nat)
    requires f.Valid() && i < f.sb.ninodes
    modifies f`fs, f`logged, f`own
    ensures f.Valid() && Truncated(f.sb, old(f.fs), old(f.own), f.fs, f.own, i, old(f.fs).inodes[i].typ)
    ensures f.logged == old(f.logged) + TruncLog(f.sb, old(f.own), i)
  {
    hide Inv;
    hide Tracked;
    hide InvBut;
    hide Addr;
    hide GetWord;
    ghost var fs0, own0, log0 := f.fs, f.own, f.logged;
    TruncDirect(f, i);
    if f.fs.inodes[i].addrs[INDIRECT] != 0 {
      TruncIndirect(f, i, own0, log0);
    }
    ClosedTruncates(f.sb, fs0, own0, f.fs, f.own, i, fs0.inodes[i].typ);
    TrackedMemory(f.sb, f.base, f.fs, f.logged, f.fs.inodes[i := f.fs.inodes[i].(size := 0)]);
    f.fs := f.fs.(inodes := f.fs.inodes[i := f.fs.inodes[i].(size := 0)]);
    FileOps.Iupdate(f, i);
  }

  /** The direct blocks. */
  method TruncDirect(f: FileSys, i: nat)
    requires f.Valid() && i < f.sb.ninodes
    modifies f`fs, f`logged, f`own
    ensures f.Valid() && OthersKept(f.sb, old(f.fs), f.fs, i) && GaveUp(old(f.own), f.own, i)
    ensures forall s :: 0 <= s < NDIRECT ==> f.fs.inodes[i].addrs[s] == 0
    ensures f.logged == old(f.logged) + FreedLog(f.sb, old(f.own), f.own)
  {
    FileOps.InvShaped(f.sb, f.fs, f.own);
    NothingFreed(f.sb, f.own, i);
    hide Inv;
    hide Tracked;
    hide GaveUp;
    hide FreedLog;
    hide Super.BBLOCK;
    var n := 0;
    while n < NDIRECT
      invariant n <= NDIRECT && f.Valid() && OthersKept(f.sb, old(f.fs), f.fs, i) && GaveUp(old(f.own), f.own, i)
      invariant forall s :: 0 <= s < n ==> f.fs.inodes[i].addrs[s] == 0
      invariant f.logged == old(f.logged) + FreedLog(f.sb, old(f.own), f.own)
    {
      var b := f.fs.inodes[i].addrs[n];
      if b != 0 {
        FreeDirect(f.sb, f.fs, f.own, i, n);
        FreedLogGrows(f.sb, old(f.own), f.own, i, b);
        Bfree(f, b);
        TrackedMemory(f.sb, f.base, f.fs, f.logged, f.fs.inodes[i := f.fs.inodes[i].(addrs := f.fs.inodes[i].addrs[n := 0])]);
        f.fs := f.fs.(inodes := f.fs.inodes[i := f.fs.inodes[i].(addrs := f.fs.inodes[i].addrs[n := 0])]);
      }
      n := n + 1;
    }
  }

  /** The blocks the indirect block lists, then the indirect block. */
  method TruncIndirect(f: FileSys, i: nat, ghost own0: Owners, ghost log0: set<int>)
    requires f.Valid() && i < f.sb.ninodes && Shaped(f.sb, f.fs) && f.fs.inodes[i].addrs[INDIRECT] != 0
    requires GaveUp(own0, f.own, i) && f.logged == log0 + FreedLog(f.sb, own0, f.own)
    modifies f`fs, f`logged, f`own
    ensures f.Valid() && OthersKept(f.sb, old(f.fs), f.fs, i) && GaveUp(own0, f.own, i)
    ensures f.fs.inodes[i].addrs == old(f.fs).inodes[i].addrs[INDIRECT := 0]
    ensures f.logged == log0 + FreedLog(f.sb, own0, f.own)
  {
    var ib := f.fs.inodes[i].addrs[INDIRECT];
    assert OwnsSlot(f.sb, f.fs, f.own, i, INDIRECT);
    assert InvBut(f.sb, f.fs, f.own, i, 0);
    hide Inv;
    hide Tracked;
    hide InvBut;
    hide GetWord;
    hide GaveUp;
    hide FreedLog;
    hide Super.BBLOCK;
    var n := 0;
    while n < NINDIRECT
      invariant n <= NINDIRECT && InvBut(f.sb, f.fs, f.own, i, n)
      invariant f.fs == old(f.fs).(bits := f.fs.bits) && |f.fs.bits| == f.sb.size
      invariant Tracked(f.sb, f.base, f.fs, f.logged)
      invariant GaveUp(own0, f.own, i)
      invariant f.logged == log0 + FreedLog(f.sb, own0, f.own)
    {
      var b := GetWord(f.fs.blocks[ib], n);
      FreeWord(f.sb, f.fs, f.own, i, n);
      if b != 0 {
        FreedLogGrows(f.sb, own0, f.own, i, b);
        Bfree(f, b);
      }
      n := n + 1;
    }
    FreeIndirect(f.sb, f.fs, f.own, i);
    FreedLogGrows(f.sb, own0, f.own, i, ib);
    Bfree(f, ib);
    TrackedMemory(f.sb, f.base, f.fs, f.logged, f.fs.inodes[i := f.fs.inodes[i].(addrs := f.fs.inodes[i].addrs[INDIRECT := 0])]);
    f.fs := f.fs.(inodes := f.fs.inodes[i := f.fs.inodes[i].(addrs := f.fs.inodes[i].addrs[INDIRECT := 0])]);
  }

  /** Inodes that are free on disk hold no block. */
  ghost predicate FreeInodesEmpty(sb: Super, fs: Fs)
    requires Shaped(sb, fs)
  {
    forall i: nat :: i < sb.ninodes && fs.dinodes[i].typ == 0 ==> Empty(sb, fs, i)
  }

  /** iput of the last reference to an inode without links: truncate it and mark it free. */
  method IputLast(f: FileSys, i: nat)
    requires f.Valid() && i < f.sb.ninodes && FreeInodesEmpty(f.sb, f.fs)
    modifies f`fs, f`logged, f`own
    ensures f.Valid() && Truncated(f.sb, old(f.fs), old(f.own), f.fs, f.own, i, 0) && FreeInodesEmpty(f.sb, f.fs)
    ensures f.logged == old(f.logged) + TruncLog(f.sb, old(f.own), i)
  {
    FileOps.InvShaped(f.sb, f.fs, f.own);
    hide Inv;
    hide Tracked;
    ghost var fs0, own0 := f.fs, f.own;
    Itrunc(f, i);
    FileOps.InvShaped(f.sb, f.fs, f.own);
    TruncatedThenFreed(f.sb, fs0, own0, f.fs, f.own, i);
    TrackedMemory(f.sb, f.base, f.fs, f.logged, f.fs.inodes[i := f.fs.inodes[i].(typ := 0)]);
    f.fs := f.fs.(inodes := f.fs.inodes[i := f.fs.inodes[i].(typ := 0)]);
    FileOps.Iupdate(f, i);
  }

  lemma TruncatedThenFreed(sb: Super, fs: Fs, own: Owners, fs1: Fs, own1: Owners, i: nat)
    requires Shaped(sb, fs) && i < sb.ninodes && Truncated(sb, fs, own, fs1, own1, i, fs.inodes[i].typ) && FreeInodesEmpty(sb, fs)
    ensures Truncated(sb, fs, own, Closed(fs1, i, 0), own1, i, 0) && FreeInodesEmpty(sb, Closed(fs1, i, 0))
  {
    hide GetWord;
    var fs' := Closed(fs1, i, 0);
    assert Shaped(sb, fs');
    assert forall j: nat, t: nat :: j < sb.ninodes && t < NSLOT ==> Addr(sb, fs', j, t) == Addr(sb, fs1, j, t);
    SameSlots(sb, fs1, own1, fs');
    hide Addr;
    forall j: nat | j < sb.ninodes && j != i ensures SameFile(sb, fs, fs', j) {
      assert SameFile(sb, fs, fs1, j);
      forall k: nat | k / BSIZE < MAXFILE ensures ByteAt(sb, fs', j, k) == ByteAt(sb, fs, j, k) {
        SlotIsData(k / BSIZE);
        assert ByteAt(sb, fs1, j, k) == ByteAt(sb, fs, j, k);
      }
    }
    forall j: nat | j < sb.ninodes && fs'.dinodes[j].typ == 0 ensures Empty(sb, fs', j) {
      assert j != i ==> SameFile(sb, fs, fs1, j);
    }
  }

  /** The inode that ialloc writes, and that the first ilock reads back. */
  function NewInode(typ: int): (ino: Inode)
    ensures |ino.addrs| == NDIRECT + 1
  {
    Inode(typ, 0, 0, 0, 0, seq(NDIRECT + 1, _ => 0))
  }

  /** ialloc: the lowest free inode above 0, made an empty file of type `typ`; 0 when there is
      none.  No block moves and no other file changes. */
  method Ialloc(f: FileSys, typ: int) returns (inum: nat)
    requires f.Valid() && FreeInodesEmpty(f.sb, f.fs)
    modifies f`fs, f`logged, f`own
    ensures f.Valid() && f.own == old(f.own) && (typ != 0 ==> FreeInodesEmpty(f.sb, f.fs))
    ensures inum == 0 ==> f.fs == old(f.fs) && f.logged == old(f.logged) && forall i :: 0 < i < f.sb.ninodes ==> f.fs.dinodes[i].typ != 0
    ensures inum != 0 ==>
              && inum < f.sb.ninodes && old(f.fs).dinodes[inum].typ == 0
              && (forall i :: 0 < i < inum ==> old(f.fs).dinodes[i].typ != 0)
              && f.fs.inodes[inum] == f.fs.dinodes[inum] == NewInode(typ)
              && Content(f.sb, f.fs, inum) == []
              && (forall j: nat :: j < f.sb.ninodes && j != inum ==> SameFile(f.sb, old(f.fs), f.fs, j))
              && f.logged == old(f.logged) + {f.sb.IBLOCK(inum)}
  {
    FileOps.InvShaped(f.sb, f.fs, f.own);
    hide Inv;
    hide Tracked;
    inum := 1;
    while inum < f.sb.ninodes
      invariant 1 <= inum && f.fs == old(f.fs) && f.own == old(f.own) && f.logged == old(f.logged)
      invariant forall i :: 0 < i < inum && i < f.sb.ninodes ==> f.fs.dinodes[i].typ != 0
    {
      if f.fs.dinodes[inum].typ == 0 {
        var ino := NewInode(typ);
        NewInodeKeeps(f.sb, f.fs, f.own, inum, typ);
        TrackedMemory(f.sb, f.base, f.fs, f.logged, f.fs.inodes[inum := ino]);
        TrackedInode(f.sb, f.base, f.fs.(inodes := f.fs.inodes[inum := ino]), f.logged, inum, ino);
        f.fs := f.fs.(inodes := f.fs.inodes[inum := ino], dinodes := f.fs.dinodes[inum := ino]);
        f.LogWrite(f.sb.IBLOCK(inum));
        return;
      }
      inum := inum + 1;
    }
    return 0;
  }

  lemma NewInodeKeeps(sb: Super, fs: Fs, own: Owners, i: nat, typ: int)
    requires Inv(sb, fs, own) && i < sb.ninodes && Empty(sb, fs, i)
    ensures var fs' := fs.(inodes := fs.inodes[i := NewInode(typ)], dinodes := fs.dinodes[i := NewInode(typ)]);
            Inv(sb, fs', own) && forall j: nat :: j < sb.ninodes && j != i ==> SameFile(sb, fs, fs', j)
  {
    hide GetWord;
    var fs' := fs.(inodes := fs.inodes[i := NewInode(typ)], dinodes := fs.dinodes[i := NewInode(typ)]);
    assert Shaped(sb, fs');
    assert forall j: nat, t: nat :: j < sb.ninodes && t < NSLOT ==> Addr(sb, fs', j, t) == Addr(sb, fs, j, t);
    SameSlots(sb, fs, own, fs');
    hide Addr;
    forall j: nat | j < sb.ninodes && j != i ensures SameFile(sb, fs, fs', j) {
      forall k: nat | k / BSIZE < MAXFILE ensures ByteAt(sb, fs', j, k) == ByteAt(sb, fs, j, k) {
        SlotIsData(k / BSIZE);
      }
    }
  }
}

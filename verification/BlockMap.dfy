/**
  Inodes, their blocks and the free bitmap (kernel/fs.c) as values: which slot of which
  inode owns each block, and what each operation does to that ownership.
 */
module BlockMap {
  import opened Disk

  const NDIRECT: nat := 12
  const NINDIRECT: nat := BSIZE / 4
  const MAXFILE: nat := NDIRECT + NINDIRECT

  /** Bitmap bits and inodes per block. */
  const BPB: nat := BSIZE * 8
  const IPB: nat := BSIZE / 64

  /** The bytes of one block. */
  type Bytes = seq<int>

  function ZeroBlock(): (b: Bytes)
    ensures |b| == BSIZE && forall k :: 0 <= k < BSIZE ==> b[k] == 0
  {
    seq(BSIZE, _ => 0)
  }

  // ---------- 32-bit words in a block ----------

  /** ((uint *)data)[k], little-endian. */
  function GetWord(b: Bytes, k: nat): int
    requires |b| == BSIZE && k < NINDIRECT
  {
    b[4 * k] + 0x100 * b[4 * k + 1] + 0x1_0000 * b[4 * k + 2] + 0x100_0000 * b[4 * k + 3]
  }

  function PutWord(b: Bytes, k: nat, w: nat): Bytes
    requires |b| == BSIZE && k < NINDIRECT
  {
    b[4 * k := w % 0x100][4 * k + 1 := w / 0x100 % 0x100][4 * k + 2 := w / 0x1_0000 % 0x100][4 * k + 3 := w / 0x100_0000 % 0x100]
  }

  lemma WordRoundTrip(b: Bytes, k: nat, w: nat, j: nat)
    requires |b| == BSIZE && k < NINDIRECT && w < 0x1_0000_0000 && j < NINDIRECT
    ensures GetWord(PutWord(b, k, w), j) == if j == k then w else GetWord(b, j)
  {
    WordBytes(w);
  }

  lemma WordBytes(w: nat)
    requires w < 0x1_0000_0000
    ensures w == w % 0x100 + 0x100 * (w / 0x100 % 0x100) + 0x1_0000 * (w / 0x1_0000 % 0x100) + 0x100_0000 * (w / 0x100_0000 % 0x100)
  {
    var a := w / 0x100;
    var b := a / 0x100;
    assert w / 0x1_0000 == b && w / 0x100_0000 == b / 0x100;
    assert b / 0x100 < 0x100;
  }

  // ---------- state ----------

  datatype Inode = Inode(typ: int, major: int, minor: int, nlink: int, size: nat, addrs: seq<nat>)

  /** Where the superblock puts things: blocks below `dataStart` are metadata. */
  datatype Super = Super(size: nat, ninodes: nat, inodestart: nat, bmapstart: nat, dataStart: nat) {
    ghost predicate Valid() {
      0 < dataStart <= size < 0x1_0000_0000
    }

    /** The areas do not overlap: inode blocks, then the bitmap, then data. */
    ghost predicate Laid() {
      && inodestart <= bmapstart < dataStart
      && (forall i: nat :: i < ninodes ==> inodestart <= IBLOCK(i) < bmapstart)
      && (forall b: nat :: b < size ==> bmapstart <= BBLOCK(b) < dataStart)
    }

    function IBLOCK(i: nat): nat {
      i / IPB + inodestart
    }

    function BBLOCK(b: nat): nat {
      b / BPB + bmapstart
    }
  }

  /** Bitmap bits, block contents, and each inode in memory and on disk. */
  datatype Fs = Fs(bits: seq<bool>, blocks: seq<Bytes>, inodes: seq<Inode>, dinodes: seq<Inode>)

  // ---------- slots ----------

  /** Slots 0..11 are the direct blocks, slot 12 the indirect block, slots 13.. the blocks
      it lists. */
  const NSLOT: nat := NDIRECT + 1 + NINDIRECT
  const INDIRECT: nat := NDIRECT

  /** The slot of file block `bn`. */
  function SlotOf(bn: nat): nat {
    if bn < NDIRECT then bn else bn + 1
  }

  ghost predicate Shaped(sb: Super, fs: Fs) {
    && sb.Valid()
    && |fs.bits| == |fs.blocks| == sb.size
    && |fs.inodes| == |fs.dinodes| == sb.ninodes
    && (forall b :: 0 <= b < |fs.blocks| ==> |fs.blocks[b]| == BSIZE)
    && (forall i :: 0 <= i < |fs.inodes| ==> |fs.inodes[i].addrs| == NDIRECT + 1)
  }

  /** The block in slot `s` of inode `i`, 0 when the slot is empty. */
  ghost function Addr(sb: Super, fs: Fs, i: nat, s: nat): int
    requires Shaped(sb, fs) && i < sb.ninodes && s < NSLOT
  {
    var a := fs.inodes[i].addrs;
    if s <= INDIRECT then a[s]
    else if 0 < a[INDIRECT] < sb.size then GetWord(fs.blocks[a[INDIRECT]], s - INDIRECT - 1)
    else 0
  }

  /** Who owns each block. */
  type Owners = map<int, (nat, nat)>

  /** Slot (i, s) is empty or holds a data block that `own` says is its. */
  ghost predicate OwnsSlot(sb: Super, fs: Fs, own: Owners, i: nat, s: nat)
    requires Shaped(sb, fs) && i < sb.ninodes && s < NSLOT
  {
    var b := Addr(sb, fs, i, s);
    b != 0 ==> sb.dataStart <= b < sb.size && b in own && own[b] == (i, s)
  }

  /** `own` says that block `b` sits in a slot, and it does. */
  ghost predicate OwnedRightly(sb: Super, fs: Fs, own: Owners, b: int)
    requires Shaped(sb, fs) && b in own
  {
    && own[b].0 < sb.ninodes && own[b].1 < NSLOT
    && Addr(sb, fs, own[b].0, own[b].1) == b
    && sb.dataStart <= b < sb.size
  }

  /** Every block in a slot is owned by that slot alone; the bits in use are exactly the
      metadata and the owned blocks. */
  ghost predicate Inv(sb: Super, fs: Fs, own: Owners) {
    && Shaped(sb, fs)
    && (forall i: nat, s: nat :: i < sb.ninodes && s < NSLOT ==> OwnsSlot(sb, fs, own, i, s))
    && (forall b :: b in own ==> OwnedRightly(sb, fs, own, b))
    && (forall b :: 0 <= b < sb.size ==> (fs.bits[b] <==> b < sb.dataStart || b in own))
  }

  /** No block is in two slots. */
  lemma NoSharing(sb: Super, fs: Fs, own: Owners, i: nat, s: nat, j: nat, t: nat)
    requires Inv(sb, fs, own) && i < sb.ninodes && j < sb.ninodes && s < NSLOT && t < NSLOT
    requires Addr(sb, fs, i, s) == Addr(sb, fs, j, t) != 0
    ensures i == j && s == t
  {
    assert OwnsSlot(sb, fs, own, i, s) && OwnsSlot(sb, fs, own, j, t);
  }

  // ---------- filling an empty slot with a fresh block ----------

  ghost function Installed(fs: Fs, b: nat, i: nat, s: nat): Fs
    requires b < |fs.bits| == |fs.blocks| && i < |fs.inodes| && s < |fs.inodes[i].addrs|
  {
    Fs(fs.bits[b := true], fs.blocks[b := ZeroBlock()],
       fs.inodes[i := fs.inodes[i].(addrs := fs.inodes[i].addrs[s := b])], fs.dinodes)
  }

  /** A zeroed block put into an empty direct slot, or into the indirect slot. */
  lemma InstallDirect(sb: Super, fs: Fs, own: Owners, b: nat, i: nat, s: nat)
    requires Inv(sb, fs, own) && i < sb.ninodes && s <= INDIRECT && Addr(sb, fs, i, s) == 0
    requires b < sb.size && !fs.bits[b]
    ensures var fs' := Installed(fs, b, i, s);
            && Inv(sb, fs', own[b := (i, s)])
            && forall j: nat, t: nat :: j < sb.ninodes && t < NSLOT ==>
                 Addr(sb, fs', j, t) == if j == i && t == s then b else Addr(sb, fs, j, t)
  {
    var fs' := Installed(fs, b, i, s);
    assert Shaped(sb, fs');
    forall j: nat, t: nat | j < sb.ninodes && t < NSLOT
      ensures Addr(sb, fs', j, t) == if j == i && t == s then b else Addr(sb, fs, j, t)
    {
      var a := fs.inodes[j].addrs[INDIRECT];
      if t > INDIRECT && 0 < a < sb.size {
        assert OwnsSlot(sb, fs, own, j, INDIRECT);
        assert a == Addr(sb, fs, j, INDIRECT) && a != b;
      }
    }
    InstallKeeps(sb, fs, own, fs', b, i, s);
  }

  /** The bookkeeping common to both ways of filling a slot. */
  lemma InstallKeeps(sb: Super, fs: Fs, own: Owners, fs': Fs, b: nat, i: nat, s: nat)
    requires Inv(sb, fs, own) && Shaped(sb, fs') && i < sb.ninodes && s < NSLOT && Addr(sb, fs, i, s) == 0
    requires b < sb.size && !fs.bits[b] && fs'.bits == fs.bits[b := true]
    requires forall j: nat, t: nat :: j < sb.ninodes && t < NSLOT ==>
               Addr(sb, fs', j, t) == if j == i && t == s then b else Addr(sb, fs, j, t)
    ensures Inv(sb, fs', own[b := (i, s)])
  {
    hide Addr;
    var own' := own[b := (i, s)];
    forall j: nat, t: nat | j < sb.ninodes && t < NSLOT ensures OwnsSlot(sb, fs', own', j, t) {
      assert OwnsSlot(sb, fs, own, j, t);
    }
    forall x | x in own' ensures OwnedRightly(sb, fs', own', x) {
      if x != b {
        assert OwnedRightly(sb, fs, own, x);
      }
    }
  }

  ghost function Listed(fs: Fs, b: nat, ib: nat, k: nat): Fs
    requires b < |fs.bits| == |fs.blocks| && ib < |fs.blocks| && |fs.blocks[ib]| == BSIZE && k < NINDIRECT
  {
    Fs(fs.bits[b := true], fs.blocks[b := ZeroBlock()][ib := PutWord(fs.blocks[ib], k, b)], fs.inodes, fs.dinodes)
  }

  /** A zeroed block listed in an empty word of the indirect block. */
  lemma InstallIndirect(sb: Super, fs: Fs, own: Owners, b: nat, i: nat, k: nat)
    requires Inv(sb, fs, own) && i < sb.ninodes && k < NINDIRECT
    requires Addr(sb, fs, i, INDIRECT) != 0 && Addr(sb, fs, i, INDIRECT + 1 + k) == 0
    requires b < sb.size && !fs.bits[b]
    ensures 0 < fs.inodes[i].addrs[INDIRECT] < sb.size
    ensures var fs' := Listed(fs, b, fs.inodes[i].addrs[INDIRECT], k);
            && Inv(sb, fs', own[b := (i, INDIRECT + 1 + k)])
            && forall j: nat, t: nat :: j < sb.ninodes && t < NSLOT ==>
                 Addr(sb, fs', j, t) == if j == i && t == INDIRECT + 1 + k then b else Addr(sb, fs, j, t)
  {
    hide GetWord;
    hide PutWord;
    var ib := fs.inodes[i].addrs[INDIRECT];
    assert OwnsSlot(sb, fs, own, i, INDIRECT);
    PutWordLength(fs.blocks[ib], k, b);
    var fs' := Listed(fs, b, ib, k);
    assert Shaped(sb, fs');
    forall j: nat, t: nat | j < sb.ninodes && t < NSLOT
      ensures Addr(sb, fs', j, t) == if j == i && t == INDIRECT + 1 + k then b else Addr(sb, fs, j, t)
    {
      var a := fs.inodes[j].addrs[INDIRECT];
      if t > INDIRECT && 0 < a < sb.size {
        assert OwnsSlot(sb, fs, own, j, INDIRECT);
        assert a == Addr(sb, fs, j, INDIRECT) && a != b;
        WordRoundTrip(fs.blocks[ib], k, b, t - INDIRECT - 1);
      }
    }
    InstallKeeps(sb, fs, own, fs', b, i, INDIRECT + 1 + k);
  }

  lemma PutWordLength(b: Bytes, k: nat, w: nat)
    requires |b| == BSIZE && k < NINDIRECT
    ensures |PutWord(b, k, w)| == BSIZE
  {
  }

  /** Overwriting a data block moves no block. */
  lemma WriteKeeps(sb: Super, fs: Fs, own: Owners, i: nat, s: nat, data: Bytes)
    requires Inv(sb, fs, own) && i < sb.ninodes && s < NSLOT && s != INDIRECT && Addr(sb, fs, i, s) != 0
    requires |data| == BSIZE
    ensures sb.dataStart <= Addr(sb, fs, i, s) < sb.size
    ensures var fs' := fs.(blocks := fs.blocks[Addr(sb, fs, i, s) := data]);
            && Inv(sb, fs', own)
            && forall j: nat, t: nat :: j < sb.ninodes && t < NSLOT ==> Addr(sb, fs', j, t) == Addr(sb, fs, j, t)
  {
    hide GetWord;
    assert OwnsSlot(sb, fs, own, i, s);
    var fs' := fs.(blocks := fs.blocks[Addr(sb, fs, i, s) := data]);
    forall j: nat, t: nat | j < sb.ninodes && t < NSLOT ensures Addr(sb, fs', j, t) == Addr(sb, fs, j, t) {
      assert OwnsSlot(sb, fs, own, j, INDIRECT);
    }
    SameSlots(sb, fs, own, fs');
  }

  lemma SameSlots(sb: Super, fs: Fs, own: Owners, fs': Fs)
    requires Inv(sb, fs, own) && Shaped(sb, fs') && fs'.bits == fs.bits
    requires forall j: nat, t: nat :: j < sb.ninodes && t < NSLOT ==> Addr(sb, fs', j, t) == Addr(sb, fs, j, t)
    ensures Inv(sb, fs', own)
  {
    hide Addr;
    forall j: nat, t: nat | j < sb.ninodes && t < NSLOT ensures OwnsSlot(sb, fs', own, j, t) {
      assert OwnsSlot(sb, fs, own, j, t);
    }
    forall x | x in own ensures OwnedRightly(sb, fs', own, x) {
      assert OwnedRightly(sb, fs, own, x);
    }
  }
}

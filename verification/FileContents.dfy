/**
  The bytes of a file (kernel/fs.c): what the blocks of an inode add up to, and how
  writing a run of bytes into one block after another changes that.
 */
module FileContents {
  import opened Disk
  import opened BlockMap
  import opened FileSystem

  /** Byte `k` of inode `i`, 0 where no block is mapped. */
  ghost function ByteAt(sb: Super, fs: Fs, i: nat, k: nat): int
    requires Shaped(sb, fs) && i < sb.ninodes && k / BSIZE < MAXFILE
  {
    var b := Addr(sb, fs, i, SlotOf(k / BSIZE));
    if 0 < b < sb.size then fs.blocks[b][k % BSIZE] else 0
  }

  /** Every block of the first `n` bytes is mapped. */
  ghost predicate Covered(sb: Super, fs: Fs, i: nat, n: nat)
    requires Shaped(sb, fs) && i < sb.ninodes
  {
    && n <= MAXFILE * BSIZE
    && forall bn: nat :: bn < MAXFILE && bn * BSIZE < n ==> Addr(sb, fs, i, SlotOf(bn)) != 0
  }

  /** No holes: every block below the size is mapped. */
  ghost predicate NoHoles(sb: Super, fs: Fs, i: nat)
    requires Shaped(sb, fs) && i < sb.ninodes
  {
    Covered(sb, fs, i, fs.inodes[i].size)
  }

  /** The file as a byte array. */
  ghost function Content(sb: Super, fs: Fs, i: nat): (s: seq<int>)
    requires Shaped(sb, fs) && i < sb.ninodes && fs.inodes[i].size <= MAXFILE * BSIZE
    ensures |s| == fs.inodes[i].size
  {
    seq(fs.inodes[i].size, k requires 0 <= k < fs.inodes[i].size => ByteAt(sb, fs, i, k))
  }

  /** Nothing about inode `j` has changed: not its fields, its slots or its bytes. */
  ghost predicate SameFile(sb: Super, fs: Fs, fs': Fs, j: nat)
    requires Shaped(sb, fs) && Shaped(sb, fs') && j < sb.ninodes
  {
    && fs'.inodes[j] == fs.inodes[j]
    && fs'.dinodes[j] == fs.dinodes[j]
    && (forall t: nat :: t < NSLOT ==> Addr(sb, fs', j, t) == Addr(sb, fs, j, t))
    && (forall k: nat :: k / BSIZE < MAXFILE ==> ByteAt(sb, fs', j, k) == ByteAt(sb, fs, j, k))
  }

  /** The bytes of inode `i` from `off` on were overwritten with `data`; blocks may have been
      mapped, nothing else of inode `i` and nothing of any other inode changed. */
  ghost predicate Written(sb: Super, fs: Fs, own: Owners, fs': Fs, own': Owners, i: nat, off: nat, data: seq<int>) {
    && Inv(sb, fs, own) && Inv(sb, fs', own') && i < sb.ninodes && off + |data| <= MAXFILE * BSIZE
    && fs'.dinodes == fs.dinodes
    && fs'.inodes[i] == fs.inodes[i].(addrs := fs'.inodes[i].addrs)
    && (forall j: nat :: j < sb.ninodes && j != i ==> SameFile(sb, fs, fs', j))
    && (forall t: nat :: t < NSLOT && Addr(sb, fs, i, t) != 0 ==> Addr(sb, fs', i, t) == Addr(sb, fs, i, t))
    && (forall k: nat :: off <= k < off + |data| ==>
          Addr(sb, fs', i, SlotOf(k / BSIZE)) != 0 && ByteAt(sb, fs', i, k) == data[k - off])
    && (forall k: nat :: k / BSIZE < MAXFILE && !(off <= k < off + |data|) && Addr(sb, fs, i, SlotOf(k / BSIZE)) != 0 ==>
          ByteAt(sb, fs', i, k) == ByteAt(sb, fs, i, k))
  }

  lemma SlotIsData(bn: nat)
    requires bn < MAXFILE
    ensures SlotOf(bn) < NSLOT && SlotOf(bn) != INDIRECT
  {
  }

  lemma WrittenNothing(sb: Super, fs: Fs, own: Owners, i: nat, off: nat)
    requires Inv(sb, fs, own) && i < sb.ninodes && off <= MAXFILE * BSIZE
    ensures Written(sb, fs, own, fs, own, i, off, [])
  {
  }

  /** bmap shows no byte of any mapped block a change. */
  lemma ExtendedBytes(sb: Super, fs: Fs, own: Owners, fs': Fs, own': Owners, i: nat)
    requires Extended(sb, fs, own, fs', own', i)
    ensures forall j: nat :: j < sb.ninodes && j != i ==> SameFile(sb, fs, fs', j)
    ensures forall k: nat :: k / BSIZE < MAXFILE && Addr(sb, fs, i, SlotOf(k / BSIZE)) != 0 ==>
              ByteAt(sb, fs', i, k) == ByteAt(sb, fs, i, k)
  {
    forall j: nat, k: nat | j < sb.ninodes && k / BSIZE < MAXFILE && (j != i || Addr(sb, fs, j, SlotOf(k / BSIZE)) != 0)
      ensures ByteAt(sb, fs', j, k) == ByteAt(sb, fs, j, k)
    {
      var s := SlotOf(k / BSIZE);
      SlotIsData(k / BSIZE);
      assert OwnsSlot(sb, fs, own, j, s);
      hide Addr;
      assert Addr(sb, fs', j, s) == Addr(sb, fs, j, s);
    }
  }

  /** After bmap, as after no write at all. */
  lemma WrittenThenExtended(sb: Super, fs: Fs, own: Owners, fs1: Fs, own1: Owners, fs2: Fs, own2: Owners,
                            i: nat, off: nat, data: seq<int>)
    requires Written(sb, fs, own, fs1, own1, i, off, data) && Extended(sb, fs1, own1, fs2, own2, i)
    ensures Written(sb, fs, own, fs2, own2, i, off, data)
  {
    ExtendedBytes(sb, fs1, own1, fs2, own2, i);
    hide Addr;
    hide ByteAt;
    hide OwnsSlot;
    hide OwnedRightly;
    hide Inv;
    forall j: nat | j < sb.ninodes && j != i ensures SameFile(sb, fs, fs2, j) {
      assert SameFile(sb, fs, fs1, j) && SameFile(sb, fs1, fs2, j);
    }
    forall k: nat | k / BSIZE < MAXFILE ensures SlotOf(k / BSIZE) < NSLOT {
      SlotIsData(k / BSIZE);
    }
  }

  function Splice(b: Bytes, o: nat, chunk: seq<int>): Bytes
    requires |b| == BSIZE && o + |chunk| <= BSIZE
  {
    b[..o] + chunk + b[o + |chunk|..]
  }

  /** Overwriting part of one mapped block changes exactly those bytes. */
  lemma BlockBytes(sb: Super, fs: Fs, own: Owners, i: nat, bn: nat, o: nat, chunk: seq<int>)
    requires Inv(sb, fs, own) && i < sb.ninodes && bn < MAXFILE && Addr(sb, fs, i, SlotOf(bn)) != 0
    requires o + |chunk| <= BSIZE
    ensures SlotOf(bn) < NSLOT && 0 < Addr(sb, fs, i, SlotOf(bn)) < sb.size
    ensures var b := Addr(sb, fs, i, SlotOf(bn));
            var fs' := fs.(blocks := fs.blocks[b := Splice(fs.blocks[b], o, chunk)]);
            && Inv(sb, fs', own)
            && (forall j: nat, t: nat :: j < sb.ninodes && t < NSLOT ==> Addr(sb, fs', j, t) == Addr(sb, fs, j, t))
            && (forall j: nat, k: nat :: j < sb.ninodes && k / BSIZE < MAXFILE ==>
                  ByteAt(sb, fs', j, k) ==
                  if j == i && bn * BSIZE + o <= k < bn * BSIZE + o + |chunk| then chunk[k - (bn * BSIZE + o)]
                  else ByteAt(sb, fs, j, k))
  {
    var s := SlotOf(bn);
    SlotIsData(bn);
    var b := Addr(sb, fs, i, s);
    assert OwnsSlot(sb, fs, own, i, s);
    var data := Splice(fs.blocks[b], o, chunk);
    WriteKeeps(sb, fs, own, i, s, data);
    var fs' := fs.(blocks := fs.blocks[b := data]);
    forall j: nat, k: nat | j < sb.ninodes && k / BSIZE < MAXFILE
      ensures ByteAt(sb, fs', j, k) ==
              if j == i && bn * BSIZE + o <= k < bn * BSIZE + o + |chunk| then chunk[k - (bn * BSIZE + o)]
              else ByteAt(sb, fs, j, k)
    {
      SlotIsData(k / BSIZE);
      assert OwnsSlot(sb, fs, own, j, SlotOf(k / BSIZE));
      hide Addr;
      assert Addr(sb, fs', j, SlotOf(k / BSIZE)) == Addr(sb, fs, j, SlotOf(k / BSIZE));
      if Addr(sb, fs, j, SlotOf(k / BSIZE)) == b {
        assert j == i && k / BSIZE == bn;
        assert k % BSIZE == k - bn * BSIZE;
      }
    }
  }

  /** One more chunk written, at the end of what has been written so far. */
  lemma WrittenMore(sb: Super, fs: Fs, own: Owners, fs1: Fs, own1: Owners, i: nat, off: nat, data: seq<int>, chunk: seq<int>)
    requires Written(sb, fs, own, fs1, own1, i, off, data)
    requires var at := off + |data|;
             && at + |chunk| <= MAXFILE * BSIZE && at / BSIZE < MAXFILE && at % BSIZE + |chunk| <= BSIZE
             && Addr(sb, fs1, i, SlotOf(at / BSIZE)) != 0
    ensures var bn := (off + |data|) / BSIZE;
            && 0 < Addr(sb, fs1, i, SlotOf(bn)) < sb.size
            && var b := Addr(sb, fs1, i, SlotOf(bn));
            && |fs1.blocks[b]| == BSIZE
            && var fs2 := fs1.(blocks := fs1.blocks[b := Splice(fs1.blocks[b], (off + |data|) % BSIZE, chunk)]);
            && Written(sb, fs, own, fs2, own1, i, off, data + chunk)
            && (forall j: nat, t: nat :: j < sb.ninodes && t < NSLOT ==> Addr(sb, fs2, j, t) == Addr(sb, fs1, j, t))
  {
    var at := off + |data|;
    var bn, o := at / BSIZE, at % BSIZE;
    BlockBytes(sb, fs1, own1, i, bn, o, chunk);
    var b := Addr(sb, fs1, i, SlotOf(bn));
    var fs2 := fs1.(blocks := fs1.blocks[b := Splice(fs1.blocks[b], o, chunk)]);
    assert bn * BSIZE + o == at;
    WrittenMoreBytes(sb, fs, own, fs1, fs2, own1, i, off, data, chunk);
  }

  lemma WrittenMoreBytes(sb: Super, fs: Fs, own: Owners, fs1: Fs, fs2: Fs, own1: Owners, i: nat, off: nat, data: seq<int>, chunk: seq<int>)
    requires Written(sb, fs, own, fs1, own1, i, off, data)
    requires off + |data| + |chunk| <= MAXFILE * BSIZE && (off + |data|) % BSIZE + |chunk| <= BSIZE
    requires |chunk| > 0 ==> (off + |data|) / BSIZE < MAXFILE && Addr(sb, fs1, i, SlotOf((off + |data|) / BSIZE)) != 0
    requires Inv(sb, fs2, own1) && fs2.inodes == fs1.inodes && fs2.dinodes == fs1.dinodes
    requires forall j: nat, t: nat :: j < sb.ninodes && t < NSLOT ==> Addr(sb, fs2, j, t) == Addr(sb, fs1, j, t)
    requires forall j: nat, k: nat :: j < sb.ninodes && k / BSIZE < MAXFILE ==>
               ByteAt(sb, fs2, j, k) ==
               if j == i && off + |data| <= k < off + |data| + |chunk| then chunk[k - (off + |data|)] else ByteAt(sb, fs1, j, k)
    ensures Written(sb, fs, own, fs2, own1, i, off, data + chunk)
  {
    hide Addr;
    hide ByteAt;
    hide OwnsSlot;
    hide OwnedRightly;
    forall k: nat | k / BSIZE < MAXFILE ensures SlotOf(k / BSIZE) < NSLOT {
      SlotIsData(k / BSIZE);
    }
    forall j: nat | j < sb.ninodes && j != i ensures SameFile(sb, fs, fs2, j) {
      assert SameFile(sb, fs, fs1, j);
    }
    forall k: nat | off <= k < off + |data + chunk|
      ensures Addr(sb, fs2, i, SlotOf(k / BSIZE)) != 0 && ByteAt(sb, fs2, i, k) == (data + chunk)[k - off]
    {
      if k >= off + |data| {
        assert k / BSIZE == (off + |data|) / BSIZE;
      }
    }
  }
}

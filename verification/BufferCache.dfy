/**
  The buffer cache (kernel/bio.c): NBUF buffers on a doubly linked ring in order
  of last use, in front of the disk.

  Buffers are indices 0..NBUF-1; index NBUF is the list head `bcache.head`.
  Every method is one step that C runs under bcache.lock or under the buffer's
  sleep-lock, so `Valid` holds after any interleaving of these steps.
 */
module BufferCache {
  import opened Util
  import opened Param
  import opened Disk

  /** The list head `bcache.head`, numbered after the buffers. */
  const HEAD: nat := NBUF

  datatype Buf = Buf(valid: bool, dev: nat, blockno: nat, locked: bool, refcnt: nat, data: Block) {
    predicate Caches(d: nat, x: nat) {
      dev == d && blockno == x
    }
  }

  // ---------- the ring ----------

  /** The ring read from the head back to the head. */
  ghost function Cycle(ring: seq<nat>): seq<nat> {
    [HEAD] + ring + [HEAD]
  }

  /** `next` and `prev` thread exactly the buffers of `ring`, each once, in this order. */
  ghost predicate Linked(next: seq<nat>, prev: seq<nat>, ring: seq<nat>) {
    var c := Cycle(ring);
    && |next| == |prev| == NBUF + 1
    && (forall i :: 0 <= i < |ring| ==> ring[i] < NBUF)
    && (forall i, j :: 0 <= i < j < |ring| ==> ring[i] != ring[j])
    && (forall i :: 0 <= i < |c| - 1 ==> next[c[i]] == c[i + 1])
    && (forall i :: 1 <= i < |c| ==> prev[c[i]] == c[i - 1])
  }

  /** Splice an absent buffer in right after the head. */
  lemma SpliceIn(next: seq<nat>, prev: seq<nat>, ring: seq<nat>, b: nat)
    requires Linked(next, prev, ring) && b < NBUF && b !in ring
    ensures next[HEAD] <= NBUF
    ensures Linked(next[b := next[HEAD]][HEAD := b], prev[b := HEAD][next[HEAD] := b], [b] + ring)
  {
    var c, c' := Cycle(ring), Cycle([b] + ring);
    assert c[0] == HEAD && c[1] == next[HEAD];
    assert c' == [HEAD, b] + c[1..];
    var n', p' := next[b := next[HEAD]][HEAD := b], prev[b := HEAD][next[HEAD] := b];
    forall i | 0 <= i < |c'| - 1 ensures n'[c'[i]] == c'[i + 1] {
      if i >= 2 { assert c'[i] == c[i - 1] && c'[i + 1] == c[i]; }
    }
    forall i | 1 <= i < |c'| ensures p'[c'[i]] == c'[i - 1] {
      if i >= 3 { assert c'[i] == c[i - 1] && c'[i - 1] == c[i - 2] && c[i - 1] != c[1]; }
    }
  }

  /** Unlink the k-th buffer of the ring. */
  lemma SpliceOut(next: seq<nat>, prev: seq<nat>, ring: seq<nat>, k: nat)
    requires Linked(next, prev, ring) && k < |ring|
    ensures next[ring[k]] <= NBUF && prev[ring[k]] <= NBUF
    ensures var b := ring[k];
            Linked(next[prev[b] := next[b]], prev[next[b] := prev[b]], ring[..k] + ring[k + 1..])
  {
    var b, ring' := ring[k], ring[..k] + ring[k + 1..];
    var c, c' := Cycle(ring), Cycle(ring');
    assert c[k + 1] == b && next[b] == c[k + 2] && prev[b] == c[k];
    assert forall i :: 0 <= i < |c'| ==> c'[i] == if i <= k then c[i] else c[i + 1];
    var n', p' := next[prev[b] := next[b]], prev[next[b] := prev[b]];
    forall i | 0 <= i < |c'| - 1 ensures n'[c'[i]] == c'[i + 1] {
      if i < k {
        assert c'[i] == c[i] && c'[i + 1] == c[i + 1] && c[i] != c[k];
      } else if i > k {
        assert c'[i] == c[i + 1] && c'[i + 1] == c[i + 2] && c[i + 1] != c[k];
      }
    }
    forall i | 1 <= i < |c'| ensures p'[c'[i]] == c'[i - 1] {
      if i > k + 1 {
        assert c'[i] == c[i + 1] && c'[i - 1] == c[i] && c[i + 1] != c[k + 2];
      } else if i <= k {
        assert c'[i] == c[i] && c'[i - 1] == c[i - 1] && c[i] != c[k + 2];
      }
    }
  }

  // ---------- what the cache makes of the disk ----------

  ghost predicate Holds(bufs: seq<Buf>, i: int, x: nat) {
    0 <= i < |bufs| && bufs[i].Caches(ROOTDEV, x)
  }

  /** The contents a reader of block `x` sees. */
  ghost function View(bufs: seq<Buf>, disk: Disk, x: nat): Block
    requires x < |disk|
  {
    if i :| Holds(bufs, i, x) && bufs[i].valid then bufs[i].data else disk[x]
  }

  /** At most one buffer per block (buffers never used all claim block 0 of device 0). */
  ghost predicate OneBufferPerBlock(bufs: seq<Buf>) {
    forall i, j :: 0 <= i < j < |bufs| && bufs[i].dev != 0 ==> !bufs[j].Caches(bufs[i].dev, bufs[i].blockno)
  }

  ghost predicate ValidBuf(b: Buf, disk: Disk) {
    && (b.dev == 0 || b.dev == ROOTDEV)
    && (b.dev == 0 ==> !b.valid && b.refcnt == 0)
    && (b.locked ==> b.refcnt > 0 && b.valid)
    && (b.dev == ROOTDEV ==> b.blockno < |disk|)
    // an unreferenced buffer may be recycled: it must not hold the only copy
    && (b.valid && b.refcnt == 0 ==> b.data == disk[b.blockno])
  }

  ghost predicate ValidBufs(bufs: seq<Buf>, disk: Disk) {
    && |bufs| == NBUF
    && OneBufferPerBlock(bufs)
    && forall i :: 0 <= i < |bufs| ==> ValidBuf(bufs[i], disk)
  }

  lemma ViewOf(bufs: seq<Buf>, disk: Disk, i: nat)
    requires ValidBufs(bufs, disk) && i < NBUF && bufs[i].valid
    ensures View(bufs, disk, bufs[i].blockno) == bufs[i].data
  {
    assert Holds(bufs, i, bufs[i].blockno);
  }

  lemma ViewUncached(bufs: seq<Buf>, disk: Disk, x: nat)
    requires ValidBufs(bufs, disk) && x < |disk|
    requires forall i :: 0 <= i < NBUF ==> !(Holds(bufs, i, x) && bufs[i].valid)
    ensures View(bufs, disk, x) == disk[x]
  {
  }

  /** Reference counts and locks change no reader's view. */
  lemma CountsUnseen(bufs: seq<Buf>, disk: Disk, b: nat, b': Buf)
    requires ValidBufs(bufs, disk) && b < NBUF
    requires b' == bufs[b].(locked := b'.locked, refcnt := b'.refcnt)
    ensures SameView(bufs, bufs[b := b'], disk)
  {
    var bufs' := bufs[b := b'];
    forall x | 0 <= x < |disk| ensures View(bufs', disk, x) == View(bufs, disk, x) {
      forall i | 0 <= i < NBUF ensures Holds(bufs', i, x) == Holds(bufs, i, x) && bufs'[i].valid == bufs[i].valid && bufs'[i].data == bufs[i].data {
      }
      if i :| Holds(bufs, i, x) && bufs[i].valid {
        ViewOf(bufs, disk, i);
        assert Holds(bufs', i, x);
      }
    }
  }

  ghost predicate SameView(bufs: seq<Buf>, bufs': seq<Buf>, disk: Disk) {
    forall x :: 0 <= x < |disk| ==> View(bufs', disk, x) == View(bufs, disk, x)
  }

  /** Replacing one buffer changes no reader's view when what it holds afterwards is what
      readers saw before, and what it held before is either kept or on disk. */
  lemma ReplaceBuffer(bufs: seq<Buf>, disk: Disk, r: nat, b: Buf)
    requires ValidBufs(bufs, disk) && r < NBUF
    requires ValidBufs(bufs[r := b], disk)
    requires b.valid ==> b.blockno < |disk| && b.data == View(bufs, disk, b.blockno)
    requires bufs[r].valid && !(b.valid && b.blockno == bufs[r].blockno) ==> bufs[r].data == disk[bufs[r].blockno]
    ensures SameView(bufs, bufs[r := b], disk)
  {
    var bufs' := bufs[r := b];
    forall x | 0 <= x < |disk| ensures View(bufs', disk, x) == View(bufs, disk, x) {
      if b.valid && b.blockno == x {
        ViewOf(bufs', disk, r);
      } else if i :| i != r && Holds(bufs, i, x) && bufs[i].valid {
        assert Holds(bufs', i, x);
        ViewOf(bufs, disk, i);
        ViewOf(bufs', disk, i);
      } else {
        assert forall i :: 0 <= i < NBUF && i != r ==> (Holds(bufs', i, x) ==> Holds(bufs, i, x));
        ViewUncached(bufs', disk, x);
        if bufs[r].valid && bufs[r].blockno == x {
          ViewOf(bufs, disk, r);
        } else {
          ViewUncached(bufs, disk, x);
        }
      }
    }
  }

  /** Changing the contents of a valid buffer changes the view of its block only. */
  lemma ViewOfChanged(bufs: seq<Buf>, disk: Disk, b: nat, data: Block)
    requires ValidBufs(bufs, disk) && b < NBUF && bufs[b].locked
    ensures var bufs' := bufs[b := bufs[b].(data := data)];
            && ValidBufs(bufs', disk)
            && forall x :: 0 <= x < |disk| ==>
                 View(bufs', disk, x) == if x == bufs[b].blockno then data else View(bufs, disk, x)
  {
    var bufs' := bufs[b := bufs[b].(data := data)];
    assert ValidBufs(bufs', disk);
    forall x | 0 <= x < |disk|
      ensures View(bufs', disk, x) == if x == bufs[b].blockno then data else View(bufs, disk, x)
    {
      if i :| Holds(bufs, i, x) && bufs[i].valid {
        assert Holds(bufs', i, x);
        ViewOf(bufs, disk, i);
        ViewOf(bufs', disk, i);
        if x == bufs[b].blockno { ViewOf(bufs', disk, b); }
      } else {
        assert forall i :: 0 <= i < NBUF ==> (Holds(bufs', i, x) ==> Holds(bufs, i, x));
        assert !Holds(bufs, b, x);
        ViewUncached(bufs, disk, x);
        ViewUncached(bufs', disk, x);
      }
    }
  }

  /** Reading block `x` into buffer `r`, which caches it already or may be recycled. */
  lemma ReadView(bufs: seq<Buf>, disk: Disk, r: nat, x: nat)
    requires ValidBufs(bufs, disk) && r < NBUF && x < |disk|
    requires bufs[r].Caches(ROOTDEV, x) ||
             (bufs[r].refcnt == 0 && forall i :: 0 <= i < NBUF ==> !bufs[i].Caches(ROOTDEV, x))
    ensures View(bufs, disk, x) == if bufs[r].valid && bufs[r].blockno == x then bufs[r].data else disk[x]
    ensures var bufs' := bufs[r := Buf(true, ROOTDEV, x, true, bufs[r].refcnt + 1, View(bufs, disk, x))];
            ValidBufs(bufs', disk) && SameView(bufs, bufs', disk)
  {
    if bufs[r].valid && bufs[r].blockno == x {
      ViewOf(bufs, disk, r);
    } else {
      ViewUncached(bufs, disk, x);
    }
    ReplaceBuffer(bufs, disk, r, Buf(true, ROOTDEV, x, true, bufs[r].refcnt + 1, View(bufs, disk, x)));
  }

  /** Writing a cached block through to the disk changes no reader's view. */
  lemma WriteThrough(bufs: seq<Buf>, disk: Disk, b: nat)
    requires ValidBufs(bufs, disk) && b < NBUF && bufs[b].valid
    requires ValidBufs(bufs, disk[bufs[b].blockno := bufs[b].data])
    ensures forall x :: 0 <= x < |disk| ==> View(bufs, disk[bufs[b].blockno := bufs[b].data], x) == View(bufs, disk, x)
  {
    var disk' := disk[bufs[b].blockno := bufs[b].data];
    forall x | 0 <= x < |disk| ensures View(bufs, disk', x) == View(bufs, disk, x) {
      if i :| Holds(bufs, i, x) && bufs[i].valid {
        ViewOf(bufs, disk, i);
        ViewOf(bufs, disk', i);
      } else {
        assert !Holds(bufs, b, x);
        ViewUncached(bufs, disk, x);
        ViewUncached(bufs, disk', x);
      }
    }
  }

  /** A reference given up leaves the buffers as they should be exactly when it was not the
      last one or the buffer is not held and is no more than a copy. */
  lemma DroppedRef(bufs: seq<Buf>, disk: Disk, b: nat, b': Buf)
    requires ValidBufs(bufs, disk) && b < NBUF && bufs[b].refcnt > 0
    requires b' == bufs[b].(locked := b'.locked, refcnt := bufs[b].refcnt - 1) && (b'.locked ==> bufs[b].locked)
    ensures ValidBufs(bufs[b := b'], disk) <==> (bufs[b].refcnt == 1 ==> !b'.locked && (b'.valid ==> b'.data == disk[b'.blockno]))
  {
    assert ValidBuf(bufs[b], disk);
    var bufs' := bufs[b := b'];
    assert OneBufferPerBlock(bufs');
    assert ValidBufs(bufs', disk) <==> ValidBuf(bufs'[b], disk);
  }

  ghost predicate MovedToFront(ring: seq<nat>, ring': seq<nat>, b: nat) {
    exists k :: 0 <= k < |ring| && ring[k] == b && ring' == [b] + (ring[..k] + ring[k + 1..])
  }

  /** Moving one buffer to the front loses none. */
  lemma MoveToFront(ring: seq<nat>, k: nat)
    requires k < |ring| == NBUF && forall i :: 0 <= i < NBUF ==> i in ring
    ensures |[ring[k]] + (ring[..k] + ring[k + 1..])| == NBUF
    ensures var ring' := [ring[k]] + (ring[..k] + ring[k + 1..]);
            forall i :: 0 <= i < NBUF ==> i in ring'
  {
    var ring' := [ring[k]] + (ring[..k] + ring[k + 1..]);
    forall i | 0 <= i < NBUF ensures i in ring' {
      assert i in ring;
      var j :| 0 <= j < NBUF && ring[j] == i;
      assert ring'[if j == k then 0 else if j < k then j + 1 else j] == i;
    }
  }

  /** Buffer `i` is the one bget hands out for an uncached block: unreferenced, and
      every buffer used less recently is referenced. */
  ghost predicate IsVictim(bufs: seq<Buf>, ring: seq<nat>, r: nat) {
    exists k :: 0 <= k < |ring| && ring[k] == r && r < |bufs| && bufs[r].refcnt == 0 &&
                forall j :: k < j < |ring| ==> ring[j] < |bufs| && bufs[ring[j]].refcnt != 0
  }

  /** What bread leaves: buffer `r` locked, referenced once more and holding the block as
      every reader sees it, a referenced buffer never changing identity. */
  ghost predicate IsRead(bufs: seq<Buf>, bufs': seq<Buf>, disk: Disk, x: nat, r: nat)
    requires |bufs| == NBUF && r < NBUF && x < |disk|
  {
    && bufs' == bufs[r := Buf(true, ROOTDEV, x, true, bufs[r].refcnt + 1, View(bufs, disk, x))]
    && (bufs[r].refcnt > 0 ==> bufs[r].Caches(ROOTDEV, x))
  }

  function Referenced(b: Buf): Buf {
    b.(refcnt := b.refcnt + 1)
  }

  function Recycled(b: Buf, dev: nat, blockno: nat): Buf {
    b.(dev := dev, blockno := blockno, valid := false, refcnt := 1)
  }

  /** When bget panics: the block is not cached and every buffer is referenced. */
  ghost predicate NoBuffers(bufs: seq<Buf>, dev: nat, blockno: nat) {
    forall i :: 0 <= i < |bufs| ==> !bufs[i].Caches(dev, blockno) && bufs[i].refcnt != 0
  }

  class Cache {
    var bufs: seq<Buf>
    var next: seq<nat>
    var prev: seq<nat>
    var disk: Disk

    /** The ring, most recently used first. */
    ghost var ring: seq<nat>

    /** Every block write the disk has performed. */
    ghost var writes: seq<Write>

    /** Every buffer is on the ring, once. */
    ghost predicate OnRing()
      reads this
    {
      && Linked(next, prev, ring)
      && |ring| == NBUF
      && (forall i :: 0 <= i < NBUF ==> i in ring)
    }

    ghost predicate Valid()
      reads this
    {
      ValidBufs(bufs, disk) && OnRing()
    }

    lemma BufsValid()
      requires Valid()
      ensures ValidBufs(bufs, disk)
    {
    }

    /** binit: the ring is built by pushing each buffer behind the head. */
    constructor (d: Disk)
      ensures Valid() && disk == d && writes == []
      ensures forall i :: 0 <= i < NBUF ==> bufs[i].refcnt == 0 && !bufs[i].valid
      ensures forall i :: 0 <= i < NBUF ==> ring[i] == NBUF - 1 - i
    {
      var zero: Block := seq(WORDS, _ => 0);
      bufs := seq(NBUF, _ => Buf(false, 0, 0, false, 0, zero));
      disk := d;
      next := seq(NBUF + 1, _ => HEAD);
      prev := seq(NBUF + 1, _ => HEAD);
      ring := [];
      writes := [];
      new;
      var b := 0;
      while b < NBUF
        invariant b <= NBUF
        invariant ValidBufs(bufs, disk) && disk == d && writes == []
        invariant forall i :: 0 <= i < NBUF ==> bufs[i].refcnt == 0 && !bufs[i].valid
        invariant Linked(next, prev, ring)
        invariant |ring| == b && forall i :: 0 <= i < b ==> ring[i] == b - 1 - i
      {
        SpliceIn(next, prev, ring, b);
        next := next[b := next[HEAD]];
        prev := prev[b := HEAD];
        prev := prev[next[HEAD] := b];
        next := next[HEAD := b];
        ring := [b] + ring;
        b := b + 1;
      }
      forall i | 0 <= i < NBUF ensures i in ring {
        assert ring[NBUF - 1 - i] == i;
      }
    }

    /** bget's first scan, from the most recently used end. */
    method FindCached(dev: nat, blockno: nat) returns (r: Option<nat>)
      requires Valid()
      ensures r.None? ==> forall i :: 0 <= i < NBUF ==> !bufs[i].Caches(dev, blockno)
      ensures r.Some? ==> r.value < NBUF && bufs[r.value].Caches(dev, blockno)
    {
      ghost var c, k := Cycle(ring), 0;
      assert c[0] == HEAD;
      var b := next[HEAD];
      while b != HEAD
        invariant 0 <= k <= NBUF && b == c[k + 1]
        invariant forall j :: 0 <= j < k ==> !bufs[ring[j]].Caches(dev, blockno)
        decreases NBUF - k
      {
        assert b == ring[k];
        if bufs[b].dev == dev && bufs[b].blockno == blockno {
          return Some(b);
        }
        b := next[b];
        k := k + 1;
      }
      assert k == NBUF;
      forall i | 0 <= i < NBUF ensures !bufs[i].Caches(dev, blockno) {
        assert i in ring;
      }
      return None;
    }

    /** bget's second scan, from the least recently used end. */
    method FindVictim() returns (r: Option<nat>)
      requires Valid()
      ensures r.None? ==> forall i :: 0 <= i < NBUF ==> bufs[i].refcnt != 0
      ensures r.Some? ==> IsVictim(bufs, ring, r.value)
    {
      ghost var c, k := Cycle(ring), NBUF;
      assert c[|c| - 1] == HEAD;
      var b := prev[HEAD];
      while b != HEAD
        invariant 0 <= k <= NBUF && b == c[k]
        invariant forall j :: k <= j < NBUF ==> bufs[ring[j]].refcnt != 0
        decreases k
      {
        assert b == ring[k - 1];
        if bufs[b].refcnt == 0 {
          return Some(b);
        }
        b := prev[b];
        k := k - 1;
      }
      assert k == 0;
      forall i | 0 <= i < NBUF ensures bufs[i].refcnt != 0 {
        assert i in ring;
      }
      return None;
    }

    /** bget without the final acquiresleep: find the block, or recycle the least
        recently used unreferenced buffer; None is panic("bget: no buffers"). */
    method Bget(dev: nat, blockno: nat) returns (r: Option<nat>)
      requires Valid() && dev == ROOTDEV && blockno < |disk|
      modifies this`bufs
      ensures Valid()
      ensures r.None? <==> NoBuffers(old(bufs), dev, blockno)
      ensures r.None? ==> bufs == old(bufs)
      ensures r.Some? ==> r.value < NBUF
      ensures r.Some? ==>
                if old(bufs)[r.value].Caches(dev, blockno)
                then bufs == old(bufs)[r.value := Referenced(old(bufs)[r.value])]
                else
                  && (forall i :: 0 <= i < NBUF ==> !old(bufs)[i].Caches(dev, blockno))
                  && IsVictim(old(bufs), ring, r.value)
                  && bufs == old(bufs)[r.value := Recycled(old(bufs)[r.value], dev, blockno)]
    {
      r := FindCached(dev, blockno);
      if r.Some? {
        bufs := bufs[r.value := Referenced(bufs[r.value])];
        return;
      }
      r := FindVictim();
      if r.Some? {
        bufs := bufs[r.value := Recycled(bufs[r.value], dev, blockno)];
      }
    }

    /** bread, taken when the sleep-lock of the block's buffer is free. */
    method Bread(dev: nat, blockno: nat) returns (r: Option<nat>)
      requires Valid() && dev == ROOTDEV && blockno < |disk|
      requires forall i :: 0 <= i < NBUF && bufs[i].Caches(dev, blockno) ==> !bufs[i].locked
      modifies this`bufs
      ensures Valid()
      ensures r.None? <==> NoBuffers(old(bufs), dev, blockno)
      ensures r.None? ==> bufs == old(bufs)
      ensures SameView(old(bufs), bufs, disk)
      ensures r.Some? ==> r.value < NBUF && IsRead(old(bufs), bufs, disk, blockno, r.value)
    {
      hide Linked;
      hide View;
      r := Bget(dev, blockno);
      if r.Some? {
        var b := r.value;
        assert !old(bufs)[b].locked by {
          assert ValidBuf(old(bufs)[b], disk);
        }
        hide ValidBufs;
        bufs := bufs[b := bufs[b].(locked := true)];
        if !bufs[b].valid {
          bufs := bufs[b := bufs[b].(data := disk[blockno])];
          bufs := bufs[b := bufs[b].(valid := true)];
        }
        ReadView(old(bufs), disk, b, blockno);
        assert bufs == old(bufs)[b := bufs[b]];
      }
    }

    /** A holder of the buffer changes its contents in place. */
    method SetData(b: nat, data: Block)
      requires Valid() && b < NBUF && bufs[b].locked
      modifies this`bufs
      ensures Valid()
      ensures bufs == old(bufs)[b := old(bufs)[b].(data := data)]
      ensures forall x :: 0 <= x < |disk| ==>
                View(bufs, disk, x) == if x == bufs[b].blockno then data else View(old(bufs), disk, x)
    {
      ViewOfChanged(bufs, disk, b, data);
      bufs := bufs[b := bufs[b].(data := data)];
    }

    /** bwrite; holding the sleep-lock is what its panic asks for. */
    method Bwrite(b: nat)
      requires Valid() && b < NBUF && bufs[b].locked
      modifies this`disk, this`writes
      ensures Valid()
      ensures disk == old(disk)[bufs[b].blockno := bufs[b].data]
      ensures writes == old(writes) + [Write(bufs[b].blockno, bufs[b].data)]
      ensures forall x :: 0 <= x < |disk| ==> View(bufs, disk, x) == View(bufs, old(disk), x)
    {
      disk := disk[bufs[b].blockno := bufs[b].data];
      writes := writes + [Write(bufs[b].blockno, bufs[b].data)];
      assert forall i :: 0 <= i < NBUF && i != b && bufs[i].valid ==> bufs[i].blockno != bufs[b].blockno by {
        assert forall i :: 0 <= i < NBUF && bufs[i].valid ==> bufs[i].dev == ROOTDEV;
      }
      WriteThrough(bufs, old(disk), b);
    }

    /** brelse's relinking of the ring. */
    method MakeMostRecent(b: nat)
      requires OnRing() && b < NBUF
      modifies this`next, this`prev, this`ring
      ensures OnRing()
      ensures MovedToFront(old(ring), ring, b)
    {
      assert b in ring;
      ghost var k :| 0 <= k < |ring| && ring[k] == b;
      ghost var rest := ring[..k] + ring[k + 1..];
      SpliceOut(next, prev, ring, k);
      prev := prev[next[b] := prev[b]];
      next := next[prev[b] := next[b]];
      SpliceIn(next, prev, rest, b);
      next := next[b := next[HEAD]];
      prev := prev[b := HEAD];
      prev := prev[next[HEAD] := b];
      next := next[HEAD := b];
      MoveToFront(ring, k);
      ring := [b] + rest;
    }

    /** brelse: unlock, drop the reference, and move the buffer to the front when it was
        the last one.  The cache stays as it should be exactly when that did not leave the
        only copy of a block in a buffer that may be recycled. */
    method Brelse(b: nat)
      requires Valid() && b < NBUF && bufs[b].locked
      modifies this`bufs, this`next, this`prev, this`ring
      ensures OnRing() && SameView(old(bufs), bufs, disk)
      ensures bufs == old(bufs)[b := old(bufs)[b].(locked := false, refcnt := old(bufs)[b].refcnt - 1)]
      ensures Valid() <==> (old(bufs)[b].refcnt == 1 ==> bufs[b].data == disk[bufs[b].blockno])
      ensures bufs[b].refcnt > 0 ==> ring == old(ring)
      ensures bufs[b].refcnt == 0 ==> MovedToFront(old(ring), ring, b)
    {
      hide View;
      hide Linked;
      bufs := bufs[b := bufs[b].(locked := false)];
      bufs := bufs[b := bufs[b].(refcnt := bufs[b].refcnt - 1)];
      assert bufs == old(bufs)[b := old(bufs)[b].(locked := false, refcnt := old(bufs)[b].refcnt - 1)];
      CountsUnseen(old(bufs), disk, b, bufs[b]);
      DroppedRef(old(bufs), disk, b, bufs[b]);
      hide ValidBufs;
      if bufs[b].refcnt == 0 {
        MakeMostRecent(b);
      }
    }

    method Bpin(b: nat)
      requires Valid() && b < NBUF && bufs[b].dev == ROOTDEV
      modifies this`bufs
      ensures Valid()
      ensures bufs == old(bufs)[b := Referenced(old(bufs)[b])]
      ensures SameView(old(bufs), bufs, disk)
    {
      CountsUnseen(bufs, disk, b, Referenced(bufs[b]));
      bufs := bufs[b := bufs[b].(refcnt := bufs[b].refcnt + 1)];
    }

    /** bunpin; what brelse's contract says of the last reference. */
    method Bunpin(b: nat)
      requires Valid() && b < NBUF && bufs[b].refcnt > 0
      modifies this`bufs
      ensures OnRing() && SameView(old(bufs), bufs, disk)
      ensures bufs == old(bufs)[b := old(bufs)[b].(refcnt := old(bufs)[b].refcnt - 1)]
      ensures Valid() <==> (old(bufs)[b].refcnt == 1 ==> !bufs[b].locked && (bufs[b].valid ==> bufs[b].data == disk[bufs[b].blockno]))
    {
      hide View;
      hide Linked;
      CountsUnseen(bufs, disk, b, bufs[b].(refcnt := bufs[b].refcnt - 1));
      DroppedRef(bufs, disk, b, bufs[b].(refcnt := bufs[b].refcnt - 1));
      bufs := bufs[b := bufs[b].(refcnt := bufs[b].refcnt - 1)];
    }
  }
}

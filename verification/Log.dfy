/**
  The logging layer over the buffer cache (kernel/log.c): log_write, commit and
  recovery, with the file system's view of the disk as one flat array of blocks.

  commit runs without holding log.lock.  Here it goes one bread or one bwrite at a time, and
  other processes may read, release and change buffers between any two of its steps.
 */
module Log {
  import opened Param
  import opened Disk
  import opened BufferCache
  import opened Util
  import opened LogRecovery
  import LogProtocol

  /** Nobody holds the buffer of block `x`. */
  predicate NotHeld(bufs: seq<Buf>, x: nat) {
    forall i :: 0 <= i < |bufs| && bufs[i].Caches(ROOTDEV, x) ==> !bufs[i].locked
  }

  /** Some buffer can be recycled. */
  ghost predicate Spare(bufs: seq<Buf>) {
    exists i :: 0 <= i < |bufs| && bufs[i].refcnt == 0
  }

  function Holder(b: Buf): nat {
    if b.locked then 1 else 0
  }

  /** Block `x` is in buffer `p`, which keeps a reference besides its holder's. */
  ghost predicate PinnedAt(bufs: seq<Buf>, p: nat, x: nat) {
    p < |bufs| && bufs[p].valid && bufs[p].Caches(ROOTDEV, x) && bufs[p].refcnt > Holder(bufs[p])
  }

  lemma SpareForAny(bufs: seq<Buf>, x: nat)
    requires Spare(bufs)
    ensures !NoBuffers(bufs, ROOTDEV, x)
  {
    var i :| 0 <= i < |bufs| && bufs[i].refcnt == 0;
  }

  /** A buffer that may be read into is not held. */
  lemma ReadUnlocked(bufs: seq<Buf>, disk: Disk, x: nat, r: nat)
    requires ValidBufs(bufs, disk) && NotHeld(bufs, x) && r < NBUF && (bufs[r].refcnt > 0 ==> bufs[r].Caches(ROOTDEV, x))
    ensures !bufs[r].locked
  {
    assert ValidBuf(bufs[r], disk);
  }

  /** memmove into a held buffer, then bwrite. */
  method Overwrite(c: Cache, b: nat, v: Block)
    requires c.Valid() && b < NBUF && c.bufs[b].locked
    modifies c`bufs, c`disk, c`writes
    ensures c.Valid()
    ensures c.bufs == old(c.bufs)[b := old(c.bufs)[b].(data := v)]
    ensures c.disk == old(c.disk)[c.bufs[b].blockno := v]
    ensures c.writes == old(c.writes) + [Write(c.bufs[b].blockno, v)]
    ensures forall z :: 0 <= z < |c.disk| ==>
              View(c.bufs, c.disk, z) == if z == c.bufs[b].blockno then v else View(old(c.bufs), old(c.disk), z)
  {
    c.SetData(b, v);
    c.Bwrite(b);
  }

  /** A buffer given up with `dropped` references. */
  function Released(b: Buf, dropped: nat): Buf
    requires dropped <= b.refcnt
  {
    b.(locked := false, refcnt := b.refcnt - dropped)
  }

  // ---------- recovery ----------

  ghost predicate Unreferenced(bufs: seq<Buf>) {
    forall i :: 0 <= i < |bufs| ==> bufs[i].refcnt == 0
  }

  /** A cache nobody references shows the disk. */
  lemma CleanCache(bufs: seq<Buf>, disk: Disk)
    requires ValidBufs(bufs, disk) && Unreferenced(bufs)
    ensures (forall x :: NotHeld(bufs, x)) && Spare(bufs)
    ensures forall x :: 0 <= x < |disk| ==> View(bufs, disk, x) == disk[x]
  {
    assert bufs[0].refcnt == 0;
    assert forall i :: 0 <= i < |bufs| ==> ValidBuf(bufs[i], disk);
    forall x | 0 <= x < |disk| ensures View(bufs, disk, x) == disk[x] {
      if i :| Holds(bufs, i, x) && bufs[i].valid {
        ViewOf(bufs, disk, i);
        assert ValidBuf(bufs[i], disk);
      }
    }
  }

  /** One round of install_trans when recovering: on a cache nobody uses, copy log block `x`
      to its home block `y`. */
  method Install(c: Cache, x: nat, y: nat)
    requires c.Valid() && Unreferenced(c.bufs) && x < |c.disk| && y < |c.disk| && x != y
    modifies c
    ensures c.Valid() && Unreferenced(c.bufs)
    ensures c.disk == old(c.disk)[y := old(c.disk)[x]]
    ensures c.writes == old(c.writes) + [Write(y, old(c.disk)[x])]
  {
    hide Linked;
    hide View;
    CleanCache(c.bufs, c.disk);
    SpareForAny(c.bufs, x);
    var l := c.Bread(ROOTDEV, x);
    var lbuf := l.value;
    assert c.bufs[if lbuf == 0 then 1 else 0].refcnt == 0;
    SpareForAny(c.bufs, y);
    var d := c.Bread(ROOTDEV, y);
    var dbuf := d.value;
    assert dbuf != lbuf;
    Overwrite(c, dbuf, c.bufs[lbuf].data);
    c.Brelse(lbuf);
    c.Brelse(dbuf);
  }

  /** The home blocks hold `vals`, everything else is as it was. */
  ghost predicate HomesSet(disk: Disk, disk': Disk, homes: seq<nat>, vals: seq<Block>) {
    && |disk'| == |disk|
    && |homes| == |vals|
    && (forall k :: 0 <= k < |homes| ==> homes[k] < |disk| && disk'[homes[k]] == vals[k])
    && (forall x :: 0 <= x < |disk| && x !in homes ==> disk'[x] == disk[x])
  }

  lemma HomesStart(disk: Disk)
    ensures HomesSet(disk, disk, [], [])
  {
  }

  lemma HeadSize(l: Layout, disk: Disk)
    requires Recoverable(l, disk)
    ensures l.start < |disk| && ValidHead(disk[l.start]) && |GetHead(disk[l.start])| == |LoggedVals(l, disk)|
  {
  }

  /** One more home block installed. */
  lemma HomeStep(disk0: Disk, disk: Disk, homes: seq<nat>, vals: seq<Block>, k: nat)
    requires k < |vals| == |homes| && homes[k] < |disk0| && homes[k] !in homes[..k]
    requires HomesSet(disk0, disk, homes[..k], vals[..k])
    ensures HomesSet(disk0, disk[homes[k] := vals[k]], homes[..k + 1], vals[..k + 1])
  {
    assert homes[..k + 1] == homes[..k] + [homes[k]];
  }

  /** What install_trans and the header write leave is what Recover describes. */
  lemma RecoveredDisk(l: Layout, disk0: Disk, disk: Disk)
    requires Recoverable(l, disk0)
    requires HomesSet(disk0, disk, GetHead(disk0[l.start]), LoggedVals(l, disk0))
    requires disk[l.start] == disk0[l.start]
    ensures disk[l.start := PutHead(disk0[l.start], [])] == Recover(l, disk0)
  {
    var homes, vals := GetHead(disk0[l.start]), LoggedVals(l, disk0);
    var ws := InstallWrites(homes, vals);
    ApplyInstalls(disk0, homes, vals);
    ApplyAppend(disk0, ws, Write(l.start, PutHead(disk0[l.start], [])));
    assert forall x :: 0 <= x < |disk0| ==> disk[x] == Apply(disk0, ws)[x];
  }

  /** Installing home blocks leaves the log blocks alone. */
  lemma LogKept(l: Layout, disk0: Disk, disk: Disk, k: nat)
    requires Recoverable(l, disk0) && k < |GetHead(disk0[l.start])|
    requires HomesSet(disk0, disk, GetHead(disk0[l.start])[..k], LoggedVals(l, disk0)[..k])
    ensures var homes := GetHead(disk0[l.start]);
            && |disk| == |disk0| && l.start + 1 + k < |disk| && homes[k] < |disk| && homes[k] != l.start + 1 + k
            && homes[k] !in homes[..k] && disk[l.start + 1 + k] == LoggedVals(l, disk0)[k]
  {
    assert l.Contains(l.start + 1 + k);
  }

  lemma HeaderKept(l: Layout, disk0: Disk, disk: Disk)
    requires Recoverable(l, disk0) && HomesSet(disk0, disk, GetHead(disk0[l.start]), LoggedVals(l, disk0))
    ensures |disk| == |disk0| && disk[l.start] == disk0[l.start]
  {
    assert l.Contains(l.start);
  }

  /** Installing distinct home blocks one after the other sets exactly those blocks. */
  lemma {:induction false} ApplyInstalls(disk: Disk, homes: seq<nat>, vals: seq<Block>)
    requires |homes| == |vals|
    requires forall k :: 0 <= k < |homes| ==> homes[k] < |disk|
    requires forall i, j :: 0 <= i < j < |homes| ==> homes[i] != homes[j]
    ensures InRange(disk, InstallWrites(homes, vals))
    ensures HomesSet(disk, Apply(disk, InstallWrites(homes, vals)), homes, vals)
    decreases |homes|
  {
    if homes != [] {
      var n := |homes| - 1;
      ApplyInstalls(disk, homes[..n], vals[..n]);
      assert InstallWrites(homes, vals) == InstallWrites(homes[..n], vals[..n]) + [Write(homes[n], vals[n])];
      ApplyAppend(disk, InstallWrites(homes[..n], vals[..n]), Write(homes[n], vals[n]));
    }
  }

  /** write_head's copy of the in-memory header into the header block. */
  method FillHead(b: Block, homes: seq<nat>) returns (h: Block)
    requires |homes| <= LOGSIZE
    ensures h == PutHead(b, homes)
  {
    h := b[0 := |homes|];
    for i := 0 to |homes|
      invariant h[0] == |homes|
      invariant forall k :: 0 <= k < i ==> h[1 + k] == homes[k]
      invariant forall k :: i < k < WORDS ==> h[k] == b[k]
    {
      h := h[1 + i := homes[i]];
    }
    var p := PutHead(b, homes);
    assert forall k :: 0 <= k < WORDS ==> h[k] == p[k];
  }

  // ---------- what the layer keeps ----------

  /** What the file system last logged: `flat` outside the log area, the disk inside it. */
  ghost function Latest(l: Layout, disk: Disk, flat: Disk, x: nat): Block
    requires x < |disk| == |flat|
  {
    if l.Contains(x) then disk[x] else flat[x]
  }

  /** Readers see the last logged contents of every block nobody holds. */
  ghost predicate Coherent(l: Layout, bufs: seq<Buf>, disk: Disk, flat: Disk) {
    && |flat| == |disk|
    && forall x :: 0 <= x < |disk| && NotHeld(bufs, x) ==> View(bufs, disk, x) == Latest(l, disk, flat, x)
  }

  /** Home blocks that are not pending have reached the disk. */
  ghost predicate Flushed(l: Layout, disk: Disk, flat: Disk, pending: seq<nat>) {
    && |flat| == |disk|
    && forall x :: 0 <= x < |disk| && !l.Contains(x) && x !in pending ==> disk[x] == flat[x]
  }

  /** Each pending block is pinned in the buffer `pins` names. */
  ghost predicate Pinned(bufs: seq<Buf>, pending: seq<nat>, pins: seq<nat>) {
    && |pins| == |pending|
    && forall k :: 0 <= k < |pending| ==> PinnedAt(bufs, pins[k], pending[k])
  }

  ghost predicate HomeBlocks(l: Layout, disk: Disk, pending: seq<nat>) {
    && l.start + l.size <= |disk|
    && |pending| <= LOGSIZE && |pending| < l.size
    && (forall k :: 0 <= k < |pending| ==> pending[k] < |disk| && !l.Contains(pending[k]))
    && Distinct(pending)
  }

  ghost predicate Distinct(s: seq<nat>) {
    forall i, j :: 0 <= i < j < |s| ==> s[i] != s[j]
  }

  /** Every reference is a holder's or a pin. */
  ghost predicate Counted(bufs: seq<Buf>, pins: seq<nat>) {
    forall i :: 0 <= i < |bufs| ==> bufs[i].refcnt == Holder(bufs[i]) + if i in pins then 1 else 0
  }

  /** Nobody but commit, which holds the buffers `held`, holds log blocks. */
  ghost predicate HoldersOutside(l: Layout, bufs: seq<Buf>, held: seq<nat>) {
    forall i :: 0 <= i < |bufs| && bufs[i].locked && i !in held ==> !l.Contains(bufs[i].blockno)
  }

  /** The part of LogLayer's invariant that is about buffers; `pending` are the blocks that
      have yet to reach their homes. */
  ghost predicate BufsOk(l: Layout, bufs: seq<Buf>, disk: Disk, flat: Disk, pending: seq<nat>, pins: seq<nat>, held: seq<nat>) {
    && ValidBufs(bufs, disk) && Pinned(bufs, pending, pins) && Coherent(l, bufs, disk, flat)
    && Counted(bufs, pins) && HoldersOutside(l, bufs, held)
  }

  ghost function Contents(flat: Disk, xs: seq<nat>): (vs: seq<Block>)
    requires forall k :: 0 <= k < |xs| ==> xs[k] < |flat|
    ensures |vs| == |xs|
  {
    seq(|xs|, k requires 0 <= k < |xs| => flat[xs[k]])
  }

  /** A cache nobody references, before anything is logged. */
  lemma CleanBufs(l: Layout, bufs: seq<Buf>, disk: Disk)
    requires ValidBufs(bufs, disk) && Unreferenced(bufs)
    ensures BufsOk(l, bufs, disk, disk, [], [], [])
  {
    assert forall i :: 0 <= i < |bufs| ==> ValidBuf(bufs[i], disk);
    CleanCache(bufs, disk);
  }

  lemma LockedBuf(bufs: seq<Buf>, disk: Disk, flat: Disk, l: Layout, b: nat)
    requires ValidBufs(bufs, disk) && Coherent(l, bufs, disk, flat) && b < NBUF && bufs[b].locked
    ensures |bufs| == NBUF && bufs[b].dev == ROOTDEV && bufs[b].valid && bufs[b].blockno < |disk| == |flat|
  {
    assert ValidBuf(bufs[b], disk);
  }

  /** Logging the contents of a held buffer keeps every pending block pinned, every reader
      coherent and every other home block flushed. */
  lemma LogWriteKeeps(l: Layout, bufs: seq<Buf>, disk: Disk, flat: Disk, lh: seq<nat>, pins: seq<nat>, b: nat)
    requires ValidBufs(bufs, disk) && b < NBUF && bufs[b].locked && bufs[b].dev == ROOTDEV && bufs[b].blockno < |disk|
    requires HomeBlocks(l, disk, lh) && Pinned(bufs, lh, pins)
    requires Coherent(l, bufs, disk, flat) && Flushed(l, disk, flat, lh)
    ensures var x := bufs[b].blockno;
            && Coherent(l, bufs, disk, flat[x := bufs[b].data])
            && Flushed(l, disk, flat[x := bufs[b].data], if x in lh then lh else lh + [x])
  {
    assert Holds(bufs, b, bufs[b].blockno);
    assert !NotHeld(bufs, bufs[b].blockno);
  }

  lemma PinKeeps(l: Layout, bufs: seq<Buf>, disk: Disk, flat: Disk, lh: seq<nat>, pins: seq<nat>, b: nat)
    requires ValidBufs(bufs, disk) && b < NBUF && bufs[b].locked && bufs[b].dev == ROOTDEV && bufs[b].valid
    requires SameView(bufs, bufs[b := Referenced(bufs[b])], disk) && bufs[b].blockno !in lh
    requires Coherent(l, bufs, disk, flat) && Pinned(bufs, lh, pins) && Counted(bufs, pins) && HoldersOutside(l, bufs, [])
    ensures var bufs' := bufs[b := Referenced(bufs[b])];
            && Coherent(l, bufs', disk, flat) && Pinned(bufs', lh + [bufs[b].blockno], pins + [b])
            && Counted(bufs', pins + [b]) && HoldersOutside(l, bufs', [])
  {
    var bufs' := bufs[b := Referenced(bufs[b])];
    NotPinned(bufs, lh, pins, b);
    forall x | 0 <= x < |disk| && NotHeld(bufs', x) ensures NotHeld(bufs, x) {
      forall i | 0 <= i < |bufs| && bufs[i].Caches(ROOTDEV, x) ensures !bufs[i].locked {
        assert bufs'[i].Caches(ROOTDEV, x);
      }
    }
  }

  lemma HeldOutside(l: Layout, bufs: seq<Buf>, disk: Disk, flat: Disk, pending: seq<nat>, pins: seq<nat>, held: seq<nat>, b: nat)
    requires BufsOk(l, bufs, disk, flat, pending, pins, held) && b < NBUF && bufs[b].locked && b !in held
    ensures |bufs| == NBUF && !l.Contains(bufs[b].blockno) && bufs[b].blockno < |disk| == |flat| && bufs[b].dev == ROOTDEV
  {
    assert ValidBuf(bufs[b], disk);
  }

  /** A buffer whose block is not pending is not pinned. */
  lemma NotPinned(bufs: seq<Buf>, lh: seq<nat>, pins: seq<nat>, b: nat)
    requires Pinned(bufs, lh, pins) && b < |bufs| && bufs[b].blockno !in lh
    ensures b !in pins
  {
    forall k | 0 <= k < |pins| ensures pins[k] != b {
      assert PinnedAt(bufs, pins[k], lh[k]);
    }
  }

  /** The buffer of a pending block is pinned. */
  lemma IsPinned(bufs: seq<Buf>, disk: Disk, lh: seq<nat>, pins: seq<nat>, b: nat)
    requires ValidBufs(bufs, disk) && Pinned(bufs, lh, pins) && b < NBUF && bufs[b].dev == ROOTDEV && bufs[b].blockno in lh
    ensures b in pins
  {
    var k :| 0 <= k < |lh| && lh[k] == bufs[b].blockno;
    assert PinnedAt(bufs, pins[k], lh[k]);
  }

  /** bread keeps all of it, when commit reads a log block or anybody a home block. */
  lemma ReadKeeps(l: Layout, bufs: seq<Buf>, bufs': seq<Buf>, disk: Disk, flat: Disk, pending: seq<nat>, pins: seq<nat>,
                  held: seq<nat>, held': seq<nat>, x: nat, r: nat)
    requires BufsOk(l, bufs, disk, flat, pending, pins, held) && x < |disk| && NotHeld(bufs, x) && r < NBUF
    requires IsRead(bufs, bufs', disk, x, r) && SameView(bufs, bufs', disk) && ValidBufs(bufs', disk) && !bufs[r].locked
    requires if l.Contains(x) then held' == held + [r] else held' == held || held' == held + [r]
    ensures BufsOk(l, bufs', disk, flat, pending, pins, held') && bufs'[r].data == Latest(l, disk, flat, x)
  {
    forall k | 0 <= k < |pending| ensures PinnedAt(bufs', pins[k], pending[k]) {
      assert PinnedAt(bufs, pins[k], pending[k]);
    }
    forall z | 0 <= z < |disk| && NotHeld(bufs', z) ensures NotHeld(bufs, z) {
      forall i | 0 <= i < |bufs| && bufs[i].Caches(ROOTDEV, z) ensures !bufs[i].locked {
        assert i != r ==> bufs'[i] == bufs[i];
      }
    }
  }

  /** So does a holder changing their buffer, with or without writing it to the disk. */
  lemma ModifyKeeps(l: Layout, bufs: seq<Buf>, disk: Disk, bufs': seq<Buf>, disk': Disk, flat: Disk, pending: seq<nat>,
                    pins: seq<nat>, held: seq<nat>, b: nat)
    requires BufsOk(l, bufs, disk, flat, pending, pins, held) && b < NBUF && bufs[b].locked && ValidBufs(bufs', disk')
    requires bufs' == bufs[b := bufs[b].(data := bufs'[b].data)]
    requires |disk'| == |disk| && forall x :: 0 <= x < |disk| && x != bufs[b].blockno ==>
               disk'[x] == disk[x] && View(bufs', disk', x) == View(bufs, disk, x)
    ensures BufsOk(l, bufs', disk', flat, pending, pins, held)
  {
    assert ValidBuf(bufs[b], disk);
    assert Holds(bufs', b, bufs[b].blockno);
    forall k | 0 <= k < |pending| ensures PinnedAt(bufs', pins[k], pending[k]) {
      assert PinnedAt(bufs, pins[k], pending[k]);
    }
    forall z | 0 <= z < |disk| && NotHeld(bufs', z) ensures NotHeld(bufs, z) && z != bufs[b].blockno {
      forall i | 0 <= i < |bufs| && bufs[i].Caches(ROOTDEV, z) ensures !bufs[i].locked {
        assert bufs'[i] == bufs[i] || i == b;
        assert !(bufs'[i].Caches(ROOTDEV, z) && bufs'[i].locked);
      }
    }
  }

  /** A buffer released with its last reference is not the only copy of its block. */
  lemma ReleaseSafe(l: Layout, bufs: seq<Buf>, disk: Disk, flat: Disk, pending: seq<nat>, pins: seq<nat>, held: seq<nat>, b: nat)
    requires BufsOk(l, bufs, disk, flat, pending, pins, held) && Flushed(l, disk, flat, pending) && b < NBUF && bufs[b].locked
    requires bufs[b].blockno < |disk| == |flat| && bufs[b].data == Latest(l, disk, flat, bufs[b].blockno)
    ensures |bufs| == NBUF && bufs[b].refcnt > 0 && (bufs[b].refcnt == 1 ==> bufs[b].data == disk[bufs[b].blockno])
  {
    assert ValidBuf(bufs[b], disk);
    if bufs[b].blockno in pending {
      IsPinned(bufs, disk, pending, pins, b);
    }
  }

  lemma ReleaseKeeps(l: Layout, bufs: seq<Buf>, bufs': seq<Buf>, disk: Disk, flat: Disk, pending: seq<nat>, pins: seq<nat>,
                     held: seq<nat>, held': seq<nat>, b: nat)
    requires BufsOk(l, bufs, disk, flat, pending, pins, held) && b < NBUF && bufs[b].locked && bufs[b].refcnt > 0
    requires bufs' == bufs[b := Released(bufs[b], 1)] && SameView(bufs, bufs', disk) && ValidBufs(bufs', disk)
    requires bufs[b].blockno < |disk| == |flat| && bufs[b].data == Latest(l, disk, flat, bufs[b].blockno)
    requires forall i :: i in held ==> i in held' || i == b
    ensures BufsOk(l, bufs', disk, flat, pending, pins, held')
  {
    assert ValidBuf(bufs[b], disk);
    ViewOf(bufs, disk, b);
    forall k | 0 <= k < |pending| ensures PinnedAt(bufs', pins[k], pending[k]) {
      assert PinnedAt(bufs, pins[k], pending[k]);
    }
    forall z | 0 <= z < |disk| && NotHeld(bufs', z) && z != bufs[b].blockno ensures NotHeld(bufs, z) {
      forall i | 0 <= i < |bufs| && bufs[i].Caches(ROOTDEV, z) ensures !bufs[i].locked {
        assert bufs'[i] == bufs[i] || i == b;
        assert !(bufs'[i].Caches(ROOTDEV, z) && bufs'[i].locked);
      }
    }
  }

  /** bunpin takes the first pending block off the list. */
  lemma UnpinKeeps(l: Layout, bufs: seq<Buf>, bufs': seq<Buf>, disk: Disk, flat: Disk, pending: seq<nat>, pins: seq<nat>,
                   held: seq<nat>)
    requires BufsOk(l, bufs, disk, flat, pending, pins, held) && pending != [] && Distinct(pending)
    requires bufs' == bufs[pins[0] := bufs[pins[0]].(refcnt := bufs[pins[0]].refcnt - 1)]
    requires SameView(bufs, bufs', disk) && ValidBufs(bufs', disk)
    ensures BufsOk(l, bufs', disk, flat, pending[1..], pins[1..], held)
  {
    assert pins == [pins[0]] + pins[1..];
    assert PinnedAt(bufs, pins[0], pending[0]);
    forall k | 0 < k < |pending| ensures PinnedAt(bufs', pins[k], pending[k]) && pins[k] != pins[0] {
      assert PinnedAt(bufs, pins[k], pending[k]);
    }
    assert pins[0] !in pins[1..];
    forall z | 0 <= z < |disk| && NotHeld(bufs', z) ensures NotHeld(bufs, z) {
      forall i | 0 <= i < |bufs| && bufs[i].Caches(ROOTDEV, z) ensures !bufs[i].locked {
        assert bufs'[i].locked == bufs[i].locked && bufs'[i].Caches(ROOTDEV, z);
      }
    }
  }

  // ---------- commit, one step at a time ----------

  /** How many block writes a commit makes. */
  function Total(lh: seq<nat>): nat {
    if lh == [] then 0 else 2 * |lh| + 2
  }

  lemma TotalIs(l: Layout, head: Block, lh: seq<nat>, vals: seq<Block>)
    requires |lh| == |vals| <= LOGSIZE
    ensures |CommitWrites(l, head, lh, vals)| == Total(lh)
  {
  }

  /** The blocks that commit reads for write number `w`, in order: a log block and a home
      block for the rounds of write_log and install_trans, the header for write_head. */
  function Round(l: Layout, lh: seq<nat>, w: nat): (xs: seq<nat>)
    requires w < Total(lh)
    ensures 1 <= |xs| <= 2
  {
    var n := |lh|;
    if w < n then [l.start + 1 + w, lh[w]]
    else if n < w <= 2 * n then [l.start + 1 + (w - n - 1), lh[w - n - 1]]
    else [l.start]
  }

  /** The block that write number `w` goes to. */
  function WrittenTo(l: Layout, lh: seq<nat>, w: nat): nat
    requires w < Total(lh)
  {
    var xs := Round(l, lh, w);
    if w < |lh| then xs[0] else xs[|xs| - 1]
  }

  /** The entries of lh whose pins are gone after `w` writes: they are installed. */
  function Settled(lh: seq<nat>, w: nat): (k: nat)
    ensures k <= |lh|
  {
    if w <= |lh| then 0 else if w <= 2 * |lh| then w - |lh| - 1 else |lh|
  }

  /** Those of the other entries. */
  ghost function Rest(s: seq<nat>, lh: seq<nat>, w: nat): seq<nat>
    requires |s| == |lh|
  {
    s[Settled(lh, w)..]
  }

  /** Nothing is settled before the header is written. */
  lemma SamePending(s: seq<nat>, lh: seq<nat>, w: nat)
    requires |s| == |lh| && w <= |lh|
    ensures Rest(s, lh, w + 1) == Rest(s, lh, w) == s
  {
  }

  /** A header write settles nothing. */
  lemma HeaderSettles(s: seq<nat>, lh: seq<nat>, w: nat)
    requires |s| == |lh| && lh != [] && (w == |lh| || w == 2 * |lh| + 1)
    ensures Rest(s, lh, w + 1) == Rest(s, lh, w)
  {
  }

  /** An install settles the first block that was pending. */
  lemma InstallSettles(s: seq<nat>, lh: seq<nat>, w: nat)
    requires |s| == |lh| && |lh| < w <= 2 * |lh|
    ensures Rest(s, lh, w) != [] && Rest(s, lh, w)[0] == s[w - |lh| - 1] && Rest(s, lh, w + 1) == Rest(s, lh, w)[1..]
  {
  }

  lemma AllSettled(s: seq<nat>, lh: seq<nat>, w: nat)
    requires |s| == |lh| && w == Total(lh)
    ensures Rest(s, lh, w) == []
  {
  }

  lemma RestIsAll(s: seq<nat>, lh: seq<nat>, w: nat)
    requires |s| == |lh| && w <= |lh|
    ensures Rest(s, lh, w) == s
  {
  }

  /** `disk` is what the commit of the blocks `lh` of `flat`, begun on disk `base`, has made of
      it with `w` writes. */
  ghost predicate Midway(l: Layout, base: Disk, disk: Disk, flat: Disk, lh: seq<nat>, w: nat) {
    && HomeBlocks(l, base, lh) && Flushed(l, base, flat, lh) && HeadIs(l, base, [])
    && w <= |CommitWrites(l, base[l.start], lh, Contents(flat, lh))|
    && disk == Crashed(l, base, lh, Contents(flat, lh), w)
  }

  /** What write number `w` of a commit puts there. */
  ghost function NextData(l: Layout, disk: Disk, flat: Disk, lh: seq<nat>, w: nat): Block
    requires HomeBlocks(l, disk, lh) && |flat| == |disk| && w < Total(lh)
  {
    var n := |lh|;
    if w < n then flat[lh[w]]
    else if w == n then PutHead(disk[l.start], lh)
    else if w <= 2 * n then flat[lh[w - n - 1]]
    else PutHead(disk[l.start], [])
  }

  /** What the disk then holds. */
  lemma MidwayDisk(l: Layout, base: Disk, disk: Disk, flat: Disk, lh: seq<nat>, w: nat)
    requires Midway(l, base, disk, flat, lh, w)
    ensures HomeBlocks(l, disk, lh) && w <= Total(lh) && |flat| == |disk| == |base|
    ensures CommitDisk(l, base, lh, Contents(flat, lh), disk, w)
  {
    hide Crashed;
    hide CommitDisk;
    hide CommitWrites;
    hide Contents;
    hide HeadIs;
    CrashedIs(l, base, lh, Contents(flat, lh), w);
    TotalIs(l, base[l.start], lh, Contents(flat, lh));
  }

  /** The log blocks written so far hold what they should. */
  lemma MidwayLog(l: Layout, base: Disk, disk: Disk, flat: Disk, lh: seq<nat>, w: nat, k: nat)
    requires Midway(l, base, disk, flat, lh, w) && k < |lh| && k < w <= 2 * |lh| + 1
    ensures |flat| == |disk| == |base| && HomeBlocks(l, disk, lh) && disk[l.start + 1 + k] == flat[lh[k]]
  {
    hide Crashed;
    hide CommitDisk;
    hide CommitWrites;
    hide HeadIs;
    MidwayDisk(l, base, disk, flat, lh, w);
    LogBlockIs(l, base, lh, Contents(flat, lh), disk, w, k);
  }

  lemma LogBlockIs(l: Layout, base: Disk, homes: seq<nat>, vals: seq<Block>, disk: Disk, w: nat, k: nat)
    requires ValidTxn(l, base, homes, vals) && CommitDisk(l, base, homes, vals, disk, w) && k < |homes| && k < w <= 2 * |homes| + 1
    ensures |disk| == |base| && disk[l.start + 1 + k] == vals[k]
  {
    hide PutHead;
  }

  /** Every block that is not pending is on the disk as the file system last logged it. */
  lemma MidwayFlushed(l: Layout, base: Disk, disk: Disk, flat: Disk, lh: seq<nat>, w: nat)
    requires Midway(l, base, disk, flat, lh, w)
    ensures |flat| == |disk| && Flushed(l, disk, flat, Rest(lh, lh, w))
  {
    MidwayDisk(l, base, disk, flat, lh, w);
    hide Midway;
    hide HomeBlocks;
    var d, vals := Settled(lh, w), Contents(flat, lh);
    forall x | 0 <= x < |disk| && !l.Contains(x) && x !in lh[d..] ensures disk[x] == flat[x] {
      MidwayBlock(l, base, disk, flat, lh, w, x);
    }
  }

  lemma MidwayBlock(l: Layout, base: Disk, disk: Disk, flat: Disk, lh: seq<nat>, w: nat, x: nat)
    requires Midway(l, base, disk, flat, lh, w) && x < |disk| == |flat| == |base|
    requires !l.Contains(x) && x !in Rest(lh, lh, w)
    ensures disk[x] == flat[x]
  {
    hide Crashed;
    hide PutHead;
    hide HeadIs;
    MidwayDisk(l, base, disk, flat, lh, w);
    var d, vals := Settled(lh, w), Contents(flat, lh);
    if x in lh {
      var k := BeforeSlice(lh, d, x);
      assert disk[lh[k]] == vals[k];
    }
  }

  lemma BeforeSlice(lh: seq<nat>, d: nat, x: nat) returns (k: nat)
    requires d <= |lh| && x in lh && x !in lh[d..]
    ensures k < d && lh[k] == x
  {
    assert lh == lh[..d] + lh[d..];
    k :| k < d && lh[..d][k] == x;
  }

  /** Before the first write nothing has changed, and after the last the log is empty. */
  lemma MidwayEnds(l: Layout, base: Disk, disk: Disk, flat: Disk, lh: seq<nat>, w: nat)
    requires Midway(l, base, disk, flat, lh, w)
    ensures w == 0 ==> disk == base
    ensures w == Total(lh) ==> Midway(l, disk, disk, flat, [], 0)
  {
    var vals := Contents(flat, lh);
    MidwayDisk(l, base, disk, flat, lh, w);
    assert CommitWrites(l, base[l.start], lh, vals)[..0] == [];
    if w == Total(lh) {
      MidwayFlushed(l, base, disk, flat, lh, w);
      if lh != [] {
        HeadRoundTrip(PutHead(base[l.start], lh), []);
      }
      MidwayNone(l, disk, flat);
    }
  }

  /** A disk with an empty log, before anything is logged. */
  lemma MidwayNone(l: Layout, disk: Disk, flat: Disk)
    requires HomeBlocks(l, disk, []) && Flushed(l, disk, flat, []) && HeadIs(l, disk, [])
    ensures Midway(l, disk, disk, flat, [], 0)
  {
    MidwayStart(l, disk, flat, []);
  }

  /** A transaction no write of which is made yet. */
  lemma MidwayStart(l: Layout, disk: Disk, flat: Disk, lh: seq<nat>)
    requires HomeBlocks(l, disk, lh) && Flushed(l, disk, flat, lh) && HeadIs(l, disk, [])
    ensures Midway(l, disk, disk, flat, lh, 0)
  {
    assert CommitWrites(l, disk[l.start], lh, Contents(flat, lh))[..0] == [];
  }

  /** The next write of the commit. */
  lemma NextWrite(l: Layout, base: Disk, disk: Disk, flat: Disk, lh: seq<nat>, w: nat)
    requires HomeBlocks(l, disk, lh) && |flat| == |disk| && w < Total(lh)
    requires ValidTxn(l, base, lh, Contents(flat, lh)) && CommitDisk(l, base, lh, Contents(flat, lh), disk, w)
    ensures |CommitWrites(l, base[l.start], lh, Contents(flat, lh))| == Total(lh)
    ensures CommitWrites(l, base[l.start], lh, Contents(flat, lh))[w] == Write(WrittenTo(l, lh, w), NextData(l, disk, flat, lh, w))
  {
    hide PutHead;
    hide CommitWrites;
    var vals := Contents(flat, lh);
    TotalIs(l, base[l.start], lh, vals);
    CommitWritesAt(l, base[l.start], lh, vals);
    assert disk[l.start] == if w <= |lh| then base[l.start] else PutHead(base[l.start], lh);
  }

  /** One more write. */
  lemma MidwayNext(l: Layout, base: Disk, disk: Disk, flat: Disk, lh: seq<nat>, w: nat)
    requires Midway(l, base, disk, flat, lh, w) && w < Total(lh)
    ensures HomeBlocks(l, disk, lh) && |flat| == |disk| == |base| && WrittenTo(l, lh, w) < |disk|
    ensures var x, v := WrittenTo(l, lh, w), NextData(l, disk, flat, lh, w);
            && CommitWrites(l, base[l.start], lh, Contents(flat, lh))[w] == Write(x, v)
            && Midway(l, base, disk[x := v], flat, lh, w + 1)
  {
    hide Crashed;
    hide CommitDisk;
    hide CommitWrites;
    hide HeadIs;
    hide Contents;
    hide WrittenTo;
    hide NextData;
    MidwayDisk(l, base, disk, flat, lh, w);
    NextWrite(l, base, disk, flat, lh, w);
    CrashedNext(l, base, lh, Contents(flat, lh), w);
  }

  /** log_write of a buffer whose block is in the log already. */
  lemma AbsorbKeeps(l: Layout, bufs: seq<Buf>, disk: Disk, flat: Disk, lh: seq<nat>, pins: seq<nat>, b: nat)
    requires BufsOk(l, bufs, disk, flat, lh, pins, []) && b < NBUF && bufs[b].locked && bufs[b].blockno in lh
    requires HomeBlocks(l, disk, lh) && Flushed(l, disk, flat, lh) && HeadIs(l, disk, []) && bufs[b].blockno < |flat|
    ensures var flat' := flat[bufs[b].blockno := bufs[b].data];
            BufsOk(l, bufs, disk, flat', Rest(lh, lh, 0), Rest(pins, lh, 0), []) && Midway(l, disk, disk, flat', lh, 0)
  {
    LockedBuf(bufs, disk, flat, l, b);
    LogWriteKeeps(l, bufs, disk, flat, lh, pins, b);
    MidwayStart(l, disk, flat[bufs[b].blockno := bufs[b].data], lh);
    RestIsAll(lh, lh, 0);
    RestIsAll(pins, lh, 0);
    hide Coherent;
    hide Flushed;
    hide Midway;
    hide Rest;
  }

  /** log_write of a buffer whose block joins the log. */
  lemma JoinKeeps(l: Layout, bufs: seq<Buf>, disk: Disk, flat: Disk, lh: seq<nat>, pins: seq<nat>, b: nat)
    requires BufsOk(l, bufs, disk, flat, lh, pins, []) && b < NBUF && bufs[b].locked && bufs[b].blockno !in lh
    requires HomeBlocks(l, disk, lh) && Flushed(l, disk, flat, lh) && HeadIs(l, disk, []) && bufs[b].blockno < |flat|
    requires |lh| < LOGSIZE && |lh| < l.size - 1
    requires var bufs' := bufs[b := Referenced(bufs[b])]; ValidBufs(bufs', disk) && SameView(bufs, bufs', disk)
    ensures var x, bufs' := bufs[b].blockno, bufs[b := Referenced(bufs[b])];
            var lh', pins', flat' := lh + [x], pins + [b], flat[x := bufs[b].data];
            && |pins'| == |lh'|
            && BufsOk(l, bufs', disk, flat', Rest(lh', lh', 0), Rest(pins', lh', 0), []) && Midway(l, disk, disk, flat', lh', 0)
  {
    var x, bufs' := bufs[b].blockno, bufs[b := Referenced(bufs[b])];
    var lh', pins', flat' := lh + [x], pins + [b], flat[x := bufs[b].data];
    HeldOutside(l, bufs, disk, flat, lh, pins, [], b);
    LockedBuf(bufs, disk, flat, l, b);
    LogWriteKeeps(l, bufs, disk, flat, lh, pins, b);
    PinKeeps(l, bufs, disk, flat', lh, pins, b);
    MidwayStart(l, disk, flat', lh');
    RestIsAll(lh', lh', 0);
    RestIsAll(pins', lh', 0);
    hide Coherent;
    hide Flushed;
    hide Midway;
    hide Rest;
  }

  /** The writes issued since `begun` are the first `w` of that commit. */
  ghost predicate Traced(begun: seq<Write>, writes: seq<Write>, l: Layout, base: Disk, flat: Disk, lh: seq<nat>, w: nat) {
    && HomeBlocks(l, base, lh) && |flat| == |base|
    && w <= |CommitWrites(l, base[l.start], lh, Contents(flat, lh))|
    && writes == begun + CommitWrites(l, base[l.start], lh, Contents(flat, lh))[..w]
  }

  lemma TracedStart(writes: seq<Write>, l: Layout, base: Disk, flat: Disk, lh: seq<nat>)
    requires HomeBlocks(l, base, lh) && |flat| == |base|
    ensures Traced(writes, writes, l, base, flat, lh, 0)
  {
    assert CommitWrites(l, base[l.start], lh, Contents(flat, lh))[..0] == [];
  }

  lemma TracedNothing(begun: seq<Write>, writes: seq<Write>, l: Layout, base: Disk, flat: Disk, lh: seq<nat>)
    requires Traced(begun, writes, l, base, flat, lh, 0)
    ensures writes == begun
  {
    assert CommitWrites(l, base[l.start], lh, Contents(flat, lh))[..0] == [];
  }

  lemma TracedNext(begun: seq<Write>, writes: seq<Write>, l: Layout, base: Disk, flat: Disk, lh: seq<nat>, w: nat)
    requires Traced(begun, writes, l, base, flat, lh, w) && w < |CommitWrites(l, base[l.start], lh, Contents(flat, lh))|
    ensures Traced(begun, writes + [CommitWrites(l, base[l.start], lh, Contents(flat, lh))[w]], l, base, flat, lh, w + 1)
  {
    hide CommitWrites;
    hide Contents;
    var ws := CommitWrites(l, base[l.start], lh, Contents(flat, lh));
    assert ws[..w + 1] == ws[..w] + [ws[w]];
  }

  /** What the next write of a commit makes of the disk and of the trace. */
  lemma OneWrite(begun: seq<Write>, writes: seq<Write>, l: Layout, base: Disk, disk: Disk, flat: Disk, lh: seq<nat>, w: nat)
    requires Midway(l, base, disk, flat, lh, w) && Traced(begun, writes, l, base, flat, lh, w) && w < Total(lh)
    ensures HomeBlocks(l, disk, lh) && Distinct(lh) && |lh| <= LOGSIZE && |flat| == |disk| && WrittenTo(l, lh, w) < |disk|
    ensures var x, v := WrittenTo(l, lh, w), NextData(l, disk, flat, lh, w);
            && Midway(l, base, disk[x := v], flat, lh, w + 1) && Flushed(l, disk[x := v], flat, Rest(lh, lh, w + 1))
            && Traced(begun, writes + [Write(x, v)], l, base, flat, lh, w + 1)
  {
    hide Midway;
    hide Traced;
    hide CommitWrites;
    hide WrittenTo;
    hide NextData;
    hide Contents;
    hide Flushed;
    hide Rest;
    MidwayNext(l, base, disk, flat, lh, w);
    var x, v := WrittenTo(l, lh, w), NextData(l, disk, flat, lh, w);
    MidwayFlushed(l, base, disk[x := v], flat, lh, w + 1);
    TotalIs(l, base[l.start], lh, Contents(flat, lh));
    TracedNext(begun, writes, l, base, flat, lh, w);
  }

  /** The blocks commit reads for its next write. */
  function Next(l: Layout, lh: seq<nat>, committing: bool, w: nat): seq<nat> {
    if committing && w < Total(lh) then Round(l, lh, w) else []
  }

  /** The block commit reads next, if it does not write next; it holds `n` buffers. */
  function NextRead(l: Layout, lh: seq<nat>, committing: bool, w: nat, n: nat): Option<nat> {
    var xs := Next(l, lh, committing, w);
    if n < |xs| then Some(xs[n]) else None
  }

  /** Outside the log area `base` is `flat`. */
  ghost predicate SameOutside(l: Layout, base: Disk, flat: Disk) {
    |base| == |flat| && forall x :: 0 <= x < |base| && !l.Contains(x) ==> base[x] == flat[x]
  }

  /** Commit holds the buffers of the first blocks of the round, and they show what they should. */
  ghost predicate HeldOk(l: Layout, bufs: seq<Buf>, disk: Disk, flat: Disk, xs: seq<nat>, held: seq<nat>) {
    && |held| <= |xs| && |flat| == |disk|
    && forall k :: 0 <= k < |held| ==> HeldAt(l, bufs, disk, flat, xs[k], held[k])
  }

  ghost predicate HeldAt(l: Layout, bufs: seq<Buf>, disk: Disk, flat: Disk, x: nat, b: nat) {
    && b < |bufs| && bufs[b].locked && bufs[b].Caches(ROOTDEV, x)
    && x < |disk| == |flat| && bufs[b].data == Latest(l, disk, flat, x)
  }

  lemma HeldKept(l: Layout, bufs: seq<Buf>, bufs': seq<Buf>, disk: Disk, flat: Disk, xs: seq<nat>, held: seq<nat>)
    requires HeldOk(l, bufs, disk, flat, xs, held) && |bufs'| == |bufs| && forall b :: b in held && b < |bufs| ==> bufs'[b] == bufs[b]
    ensures HeldOk(l, bufs', disk, flat, xs, held)
  {
    forall k | 0 <= k < |held| ensures HeldAt(l, bufs', disk, flat, xs[k], held[k]) {
      assert HeldAt(l, bufs, disk, flat, xs[k], held[k]);
    }
  }

  lemma HeldNone(l: Layout, bufs: seq<Buf>, disk: Disk, flat: Disk, xs: seq<nat>)
    requires |flat| == |disk|
    ensures HeldOk(l, bufs, disk, flat, xs, [])
  {
  }

  /** A buffer nobody holds is not one of commit's. */
  lemma HeldLocked(l: Layout, bufs: seq<Buf>, disk: Disk, flat: Disk, xs: seq<nat>, held: seq<nat>, b: nat)
    requires HeldOk(l, bufs, disk, flat, xs, held) && b < |bufs| && !bufs[b].locked
    ensures b !in held
  {
    forall k | 0 <= k < |held| ensures held[k] != b {
      assert HeldAt(l, bufs, disk, flat, xs[k], held[k]);
    }
  }

  /** One more buffer held for the round. */
  lemma HeldMore(l: Layout, bufs: seq<Buf>, bufs': seq<Buf>, disk: Disk, flat: Disk, xs: seq<nat>, held: seq<nat>, r: nat)
    requires HeldOk(l, bufs, disk, flat, xs, held) && |held| < |xs| && r < |bufs| == |bufs'| && !bufs[r].locked
    requires bufs' == bufs[r := bufs'[r]] && HeldAt(l, bufs', disk, flat, xs[|held|], r)
    ensures HeldOk(l, bufs', disk, flat, xs, held + [r])
  {
    HeldLocked(l, bufs, disk, flat, xs, held, r);
    HeldKept(l, bufs, bufs', disk, flat, xs, held);
  }

  /** Commit reads blocks of the disk. */
  lemma NextInRange(l: Layout, base: Disk, disk: Disk, flat: Disk, lh: seq<nat>, committing: bool, w: nat, x: nat)
    requires Midway(l, base, disk, flat, lh, w) && x in Next(l, lh, committing, w)
    ensures x < |disk| == |flat|
  {
    hide Midway;
    hide CommitDisk;
    hide Contents;
    MidwayDisk(l, base, disk, flat, lh, w);
  }

  /** Both buffers of a round of write_log or install_trans are held: they differ, the log block
      is nobody's but commit's, and the home block is pinned. */
  lemma RoundOfTwo(l: Layout, bufs: seq<Buf>, disk: Disk, flat: Disk, pins: seq<nat>, lh: seq<nat>, w: nat, held: seq<nat>)
    requires BufsOk(l, bufs, disk, flat, Rest(lh, lh, w), pins, held) && HomeBlocks(l, disk, lh) && |held| == 2
    requires w < Total(lh) && HeldOk(l, bufs, disk, flat, Round(l, lh, w), held)
    ensures |Round(l, lh, w)| == 2
    ensures var x, y := Round(l, lh, w)[0], Round(l, lh, w)[1];
            && |bufs| == NBUF && held[0] != held[1] && held[0] < NBUF && held[1] < NBUF && x < |disk| == |flat| && y < |disk| && x != y
            && l.Contains(x) && !l.Contains(y)
            && bufs[held[0]] == Buf(true, ROOTDEV, x, true, 1, disk[x])
            && bufs[held[1]] == Buf(true, ROOTDEV, y, true, 2, flat[y])
  {
    var xs := Round(l, lh, w);
    assert HeldAt(l, bufs, disk, flat, xs[0], held[0]) && HeldAt(l, bufs, disk, flat, xs[1], held[1]);
    assert ValidBuf(bufs[held[0]], disk) && ValidBuf(bufs[held[1]], disk);
    RoundKinds(l, disk, lh, w);
    RoundPending(l, lh, w);
    NotPinned(bufs, Rest(lh, lh, w), pins, held[0]);
    IsPinned(bufs, disk, Rest(lh, lh, w), pins, held[1]);
  }

  /** The home block of a round has yet to be settled. */
  lemma RoundPending(l: Layout, lh: seq<nat>, w: nat)
    requires w < Total(lh) && |Round(l, lh, w)| == 2
    ensures Round(l, lh, w)[1] in Rest(lh, lh, w) && forall x :: x in Rest(lh, lh, w) ==> x in lh
  {
    var k := Settled(lh, w);
    assert w > |lh| ==> Round(l, lh, w)[1] == Rest(lh, lh, w)[0];
    assert w < |lh| ==> Round(l, lh, w)[1] == Rest(lh, lh, w)[w];
  }

  lemma RoundKinds(l: Layout, disk: Disk, lh: seq<nat>, w: nat)
    requires HomeBlocks(l, disk, lh) && w < Total(lh) && |Round(l, lh, w)| == 2
    ensures l.Contains(Round(l, lh, w)[0]) && !l.Contains(Round(l, lh, w)[1]) && Round(l, lh, w)[0] !in lh
  {
    assert forall k :: 0 <= k < |lh| ==> !l.Contains(lh[k]);
  }

  /** The home block that is installed is the first pending one, pinned in the buffer held for it. */
  lemma FirstPending(l: Layout, bufs: seq<Buf>, disk: Disk, flat: Disk, lh: seq<nat>, pins: seq<nat>, w: nat, held: seq<nat>, b: nat)
    requires |pins| == |lh| && |lh| < w <= 2 * |lh| && Distinct(lh)
    requires BufsOk(l, bufs, disk, flat, Rest(lh, lh, w), Rest(pins, lh, w), held)
    requires b < NBUF && b < |bufs| && bufs[b].Caches(ROOTDEV, lh[w - |lh| - 1])
    ensures Rest(lh, lh, w) != [] && Rest(pins, lh, w) != [] && Rest(pins, lh, w)[0] == b && Distinct(Rest(lh, lh, w))
    ensures Rest(lh, lh, w + 1) == Rest(lh, lh, w)[1..] && Rest(pins, lh, w + 1) == Rest(pins, lh, w)[1..]
  {
    InstallSettles(lh, lh, w);
    InstallSettles(pins, lh, w);
    var pending, live := Rest(lh, lh, w), Rest(pins, lh, w);
    assert PinnedAt(bufs, live[0], pending[0]);
    assert bufs[live[0]].Caches(ROOTDEV, pending[0]) && bufs[b].Caches(ROOTDEV, pending[0]);
  }

  /** The header block is nobody's but commit's. */
  lemma HeaderHeld(l: Layout, bufs: seq<Buf>, disk: Disk, flat: Disk, pins: seq<nat>, lh: seq<nat>, w: nat, held: seq<nat>)
    requires BufsOk(l, bufs, disk, flat, Rest(lh, lh, w), pins, held) && HomeBlocks(l, disk, lh) && |held| == 1
    requires lh != [] && (w == |lh| || w == 2 * |lh| + 1) && HeldOk(l, bufs, disk, flat, Round(l, lh, w), held)
    ensures |bufs| == NBUF && held[0] < NBUF && l.start < |disk| == |flat| && l.Contains(l.start)
    ensures bufs[held[0]] == Buf(true, ROOTDEV, l.start, true, 1, disk[l.start])
  {
    assert HeldAt(l, bufs, disk, flat, l.start, held[0]);
    assert ValidBuf(bufs[held[0]], disk);
    assert forall x :: x in Rest(lh, lh, w) ==> x in lh;
    assert forall k :: 0 <= k < |lh| ==> !l.Contains(lh[k]);
    NotPinned(bufs, Rest(lh, lh, w), pins, held[0]);
  }

  /** After a commit the disk is as the file system left it. */
  lemma Settle(l: Layout, disk: Disk, flat: Disk)
    requires Midway(l, disk, disk, flat, [], 0)
    ensures HomeBlocks(l, disk, []) && SameOutside(l, disk, flat)
  {
    hide Crashed;
  }

  /** A step of commit touched only buffers it holds or held, and took only buffers nobody held. */
  ghost predicate OnlyMine(bufs: seq<Buf>, held: seq<nat>, bufs': seq<Buf>, held': seq<nat>) {
    && |bufs| == |bufs'| == NBUF
    && forall i :: 0 <= i < NBUF ==>
         && (i !in held && i !in held' ==> bufs'[i] == bufs[i])
         && (i !in held && i in held' ==> !bufs[i].locked)
         && (i in held && i !in held' ==> !bufs'[i].locked)
  }

  /** Nobody holds a log block or a pending block. */
  ghost predicate Quiet(l: Layout, bufs: seq<Buf>, lh: seq<nat>) {
    forall x :: l.Contains(x) || x in lh ==> NotHeld(bufs, x)
  }

  /** Nobody holds a block they did not hold before. */
  lemma QuietAgain(l: Layout, bufs: seq<Buf>, bufs': seq<Buf>, lh: seq<nat>)
    requires Quiet(l, bufs, lh) && |bufs| == |bufs'|
    requires forall i :: 0 <= i < |bufs| && bufs'[i].locked ==> bufs'[i] == bufs[i]
    ensures Quiet(l, bufs', lh)
  {
    forall x | l.Contains(x) || x in lh ensures NotHeld(bufs', x) {
      assert NotHeld(bufs, x);
    }
  }

  /** Once the log block of a round is read, the home block can be: it is pinned. */
  lemma HomeCached(l: Layout, bufs: seq<Buf>, bufs': seq<Buf>, disk: Disk, flat: Disk, pins: seq<nat>, lh: seq<nat>, w: nat, held: seq<nat>)
    requires BufsOk(l, bufs', disk, flat, Rest(lh, lh, w), pins, held) && HomeBlocks(l, disk, lh) && |held| == 1
    requires w < Total(lh) && |Round(l, lh, w)| == 2 && HeldOk(l, bufs', disk, flat, Round(l, lh, w), held)
    requires Quiet(l, bufs, lh) && |bufs| == |bufs'| && held[0] < |bufs| && bufs' == bufs[held[0] := bufs'[held[0]]]
    ensures NotHeld(bufs', Round(l, lh, w)[1]) && !NoBuffers(bufs', ROOTDEV, Round(l, lh, w)[1])
  {
    var x, y := Round(l, lh, w)[0], Round(l, lh, w)[1];
    RoundKinds(l, disk, lh, w);
    RoundPending(l, lh, w);
    assert HeldAt(l, bufs', disk, flat, x, held[0]);
    assert NotHeld(bufs, y);
    var k :| 0 <= k < |Rest(lh, lh, w)| && Rest(lh, lh, w)[k] == y;
    assert PinnedAt(bufs', pins[k], y);
  }

  /** When commit reads its first log block, bget finds no buffer exactly when all are in use. */
  lemma NoneSpare(l: Layout, bufs: seq<Buf>, disk: Disk, flat: Disk, lh: seq<nat>, pins: seq<nat>, x: nat)
    requires BufsOk(l, bufs, disk, flat, lh, pins, []) && HomeBlocks(l, disk, lh) && l.Contains(x)
    ensures NoBuffers(bufs, ROOTDEV, x) <==> !Spare(bufs)
  {
    assert forall k :: 0 <= k < |lh| ==> !l.Contains(lh[k]);
    forall i | 0 <= i < |bufs| && bufs[i].Caches(ROOTDEV, x) ensures bufs[i].refcnt == 0 {
      NotPinned(bufs, lh, pins, i);
    }
    if Spare(bufs) {
      SpareForAny(bufs, x);
    }
  }

  /** The layer right after recovery. */
  lemma BootState(l: Layout, bufs: seq<Buf>, disk: Disk)
    requires ValidBufs(bufs, disk) && Unreferenced(bufs) && HomeBlocks(l, disk, []) && HeadIs(l, disk, [])
    ensures BufsOk(l, bufs, disk, disk, Rest([], [], 0), Rest([], [], 0), []) && Midway(l, disk, disk, disk, [], 0)
    ensures HeldOk(l, bufs, disk, disk, Next(l, [], false, 0), [])
  {
    CleanBufs(l, bufs, disk);
    MidwayNone(l, disk, disk);
    RestIsAll([], [], 0);
  }

  /** A crash after `w` writes of a commit, then any crashing recoveries, then a complete one:
      outside the log area the disk is wholly as it was before the commit, or wholly as the
      file system calls have left it. */
  lemma CrashedCommit(l: Layout, base: Disk, disk: Disk, flat: Disk, lh: seq<nat>, w: nat, ks: seq<nat>)
    requires Midway(l, base, disk, flat, lh, w)
    ensures BootsRecoverable(l, disk, ks) && Recoverable(l, AfterCrashes(l, disk, ks))
    ensures |flat| == |base| && |Recover(l, AfterCrashes(l, disk, ks))| == |base|
    ensures forall x :: 0 <= x < |base| && !l.Contains(x) ==>
              Recover(l, AfterCrashes(l, disk, ks))[x] == if w <= |lh| then base[x] else flat[x]
  {
    var vals := Contents(flat, lh);
    CrashAtomicity(l, base, lh, vals, w, ks);
    hide Crashed;
    hide CommitWrites;
    hide Recover;
    hide AfterCrashes;
    var r := Recover(l, AfterCrashes(l, disk, ks));
    if w > |lh| {
      forall x | 0 <= x < |r| && !l.Contains(x) ensures r[x] == flat[x] {
        if i :| 0 <= i < |lh| && lh[i] == x {
          assert r[lh[i]] == vals[i];
        }
      }
    }
  }

  /** Distinct numbers below n, n of them, are all the numbers below n. */
  lemma {:induction false} DistinctCover(s: seq<nat>, n: nat)
    requires |s| == n && Distinct(s) && forall k :: 0 <= k < n ==> s[k] < n
    ensures forall v :: 0 <= v < n ==> v in s
  {
    if n > 0 {
      if k :| 0 <= k < n && s[k] == n - 1 {
        var t := s[..k] + s[k + 1..];
        DistinctCover(t, n - 1);
        forall v | 0 <= v < n ensures v in s {
          if v < n - 1 {
            assert v in t;
          }
        }
      } else {
        Pigeonhole(s, n - 1);
      }
    }
  }

  /** Pending blocks are pinned in different buffers. */
  lemma PinsDiffer(l: Layout, bufs: seq<Buf>, disk: Disk, lh: seq<nat>, pins: seq<nat>)
    requires HomeBlocks(l, disk, lh) && Pinned(bufs, lh, pins)
    ensures Distinct(pins) && forall k :: 0 <= k < |pins| ==> pins[k] < |bufs|
  {
    forall i, j | 0 <= i < j < |pins| ensures pins[i] != pins[j] {
      assert PinnedAt(bufs, pins[i], lh[i]) && PinnedAt(bufs, pins[j], lh[j]);
    }
    forall k | 0 <= k < |pins| ensures pins[k] < |bufs| {
      assert PinnedAt(bufs, pins[k], lh[k]);
    }
  }

  /** The cache has as many buffers as the log has room for.  While nobody holds a buffer,
      commit finds one for its log blocks exactly when the transaction leaves one unpinned. */
  lemma CommitNeedsSpare(l: Layout, bufs: seq<Buf>, disk: Disk, lh: seq<nat>, pins: seq<nat>)
    requires ValidBufs(bufs, disk) && HomeBlocks(l, disk, lh) && Pinned(bufs, lh, pins) && Counted(bufs, pins)
    requires forall i :: 0 <= i < NBUF ==> !bufs[i].locked
    ensures Spare(bufs) <==> |lh| < NBUF
  {
    PinsDiffer(l, bufs, disk, lh, pins);
    if |lh| == NBUF {
      DistinctCover(pins, NBUF);
    } else if !Spare(bufs) {
      forall i | 0 <= i < NBUF ensures i in pins {
        assert bufs[i].refcnt != 0;
      }
      CoverIsLong(pins, NBUF);
    }
  }

  lemma {:induction false} CoverIsLong(s: seq<nat>, n: nat)
    requires forall v :: 0 <= v < n ==> v in s
    ensures |s| >= n
    decreases n
  {
    if n > 0 {
      assert n - 1 in s;
      var k :| 0 <= k < |s| && s[k] == n - 1;
      var t := s[..k] + s[k + 1..];
      forall v | 0 <= v < n - 1 ensures v in t {
        assert v in s;
        var j :| 0 <= j < |s| && s[j] == v;
        assert t[if j < k then j else j - 1] == v;
      }
      CoverIsLong(t, n - 1);
    }
  }

  /** What came of a step of commit: it went on, has to wait for a buffer somebody holds, or
      found no buffer. */
  datatype Progress = Went | Waited | NoBuffer

  class LogLayer {
    const cache: Cache
    const layout: Layout

    /** log.lh.block[0..log.lh.n]. */
    var lh: seq<nat>

    /** File-system calls inside begin_op/end_op. */
    var outstanding: int

    var committing: bool

    /** What each process is doing. */
    var ops: seq<LogProtocol.Op>

    /** Where commit is: the block writes it has made, and the buffers it holds for the next. */
    var done: nat
    var held: seq<nat>

    /** The buffers log_write pinned, one per entry of lh. */
    ghost var pins: seq<nat>

    /** The contents of every block as the file system calls have left them. */
    ghost var flat: Disk

    /** The disk after the last commit, and before the one under way, and all writes by then. */
    ghost var base: Disk
    ghost var begun: seq<Write>

    ghost predicate Valid()
      reads this, cache
    {
      && cache.Valid() && LogProtocol.Inv(Protocol())
      && Midway(layout, base, cache.disk, flat, lh, done) && Traced(begun, cache.writes, layout, base, flat, lh, done)
      && |pins| == |lh|
      && BufsOk(layout, cache.bufs, cache.disk, flat, Rest(lh, lh, done), Rest(pins, lh, done), held)
      && (!committing ==> done == 0)
      && HeldOk(layout, cache.bufs, cache.disk, flat, Next(layout, lh, committing, done), held)
    }

    /** The state of the group-commit protocol. */
    function Protocol(): LogProtocol.State
      reads this
    {
      LogProtocol.State(lh, outstanding, committing, ops)
    }

    /** initlog on a cache nobody uses yet: recover from whatever the log holds. */
    constructor (c: Cache, l: Layout, nproc: nat)
      requires c.Valid() && Unreferenced(c.bufs) && Recoverable(l, c.disk)
      modifies c
      ensures Valid() && cache == c && layout == l
      ensures Unreferenced(c.bufs) && Protocol() == LogProtocol.Init(nproc)
      ensures c.disk == Recover(l, old(c.disk)) && flat == base == c.disk
      ensures c.writes == old(c.writes) + RecoveryWrites(l, old(c.disk))
    {
      cache := c;
      layout := l;
      lh := [];
      pins := [];
      outstanding := 0;
      committing := false;
      done := 0;
      held := [];
      ops := LogProtocol.Init(nproc).ops;
      flat := c.disk;
      base := c.disk;
      begun := [];
      new;
      hide Cache.OnRing;
      hide ValidBufs;
      hide BufsOk;
      hide Midway;
      hide Traced;
      hide HeldOk;
      hide Rest;
      hide Recoverable;
      hide RecoveryWrites;
      hide Recover;
      hide LogProtocol.Inv;
      hide Next;
      hide HeadIs;
      hide HomeBlocks;
      RecoverFromLog();
      flat := c.disk;
      base := c.disk;
      begun := c.writes;
      c.BufsValid();
      TracedStart(begun, l, base, flat, []);
      BootState(l, c.bufs, c.disk);
      LogProtocol.RunKeepsInv(nproc, []);
    }

    /** recover_from_log: install what the header names, then clear the header. */
    method RecoverFromLog()
      requires cache.Valid() && Unreferenced(cache.bufs) && Recoverable(layout, cache.disk)
      modifies this`lh, cache
      ensures cache.Valid() && Unreferenced(cache.bufs)
      ensures lh == [] && HeadIs(layout, cache.disk, []) && HomeBlocks(layout, cache.disk, [])
      ensures cache.disk == Recover(layout, old(cache.disk))
      ensures cache.writes == old(cache.writes) + RecoveryWrites(layout, old(cache.disk))
    {
      hide ValidBufs;
      hide Linked;
      hide HomesSet;
      ghost var disk0 := cache.disk;
      ReadHead();
      InstallTrans();
      HeaderKept(layout, disk0, cache.disk);
      ghost var disk1 := cache.disk;
      lh := [];
      WriteHead();
      RecoveredDisk(layout, disk0, disk1);
      RecoverEmpties(layout, disk0);
    }

    /** read_head. */
    method ReadHead()
      requires cache.Valid() && Unreferenced(cache.bufs)
      requires layout.start < |cache.disk| && ValidHead(cache.disk[layout.start])
      modifies this`lh, cache
      ensures cache.Valid() && Unreferenced(cache.bufs)
      ensures cache.disk == old(cache.disk) && cache.writes == old(cache.writes)
      ensures lh == GetHead(cache.disk[layout.start])
    {
      hide Linked;
      CleanCache(cache.bufs, cache.disk);
      var b := cache.Bread(ROOTDEV, layout.start);
      var head := cache.bufs[b.value].data;
      lh := [];
      for i := 0 to head[0]
        invariant |lh| == i && forall k :: 0 <= k < i ==> lh[k] == head[1 + k]
        modifies this`lh
      {
        lh := lh + [head[1 + i]];
      }
      cache.Brelse(b.value);
    }

    /** install_trans when recovering. */
    method InstallTrans()
      requires cache.Valid() && Unreferenced(cache.bufs) && Recoverable(layout, cache.disk)
      requires lh == GetHead(cache.disk[layout.start])
      modifies cache
      ensures cache.Valid() && Unreferenced(cache.bufs)
      ensures cache.writes == old(cache.writes) + InstallWrites(lh, LoggedVals(layout, old(cache.disk)))
      ensures HomesSet(old(cache.disk), cache.disk, lh, LoggedVals(layout, old(cache.disk)))
    {
      hide ValidBufs;
      hide Cache.OnRing;
      hide Recoverable;
      hide HomesSet;
      hide Unreferenced;
      HeadSize(layout, cache.disk);
      ghost var vals := LoggedVals(layout, cache.disk);
      ghost var ws := InstallWrites(lh, vals);
      var tail := 0;
      assert vals[..0] == [] && ws[..0] == [] && lh[..0] == [];
      HomesStart(cache.disk);
      while tail < |lh|
        invariant tail <= |lh| && cache.Valid() && Unreferenced(cache.bufs)
        invariant cache.writes == old(cache.writes) + ws[..tail]
        invariant HomesSet(old(cache.disk), cache.disk, lh[..tail], vals[..tail])
      {
        ghost var disk1 := cache.disk;
        assert lh == GetHead(old(cache.disk)[layout.start]);
        LogKept(layout, old(cache.disk), disk1, tail);
        Install(cache, layout.start + tail + 1, lh[tail]);
        HomeStep(old(cache.disk), disk1, lh, vals, tail);
        assert ws[..tail + 1] == ws[..tail] + [ws[tail]];
        tail := tail + 1;
      }
      assert ws[..tail] == ws && vals[..tail] == vals && lh[..tail] == lh;
    }

    /** write_head when recovering. */
    method WriteHead()
      requires cache.Valid() && Unreferenced(cache.bufs)
      requires layout.start < |cache.disk| && |lh| <= LOGSIZE
      modifies cache
      ensures cache.Valid() && Unreferenced(cache.bufs)
      ensures var v := PutHead(old(cache.disk)[layout.start], lh);
              && cache.disk == old(cache.disk)[layout.start := v]
              && cache.writes == old(cache.writes) + [Write(layout.start, v)]
    {
      hide Linked;
      hide View;
      CleanCache(cache.bufs, cache.disk);
      SpareForAny(cache.bufs, layout.start);
      var b := cache.Bread(ROOTDEV, layout.start);
      var head := FillHead(cache.bufs[b.value].data, lh);
      Overwrite(cache, b.value, head);
      cache.Brelse(b.value);
    }

    // ---------- the file system's calls ----------

    /** bread of a home block nobody holds, by the file system or by a reader outside any
        operation, at any time: what it returns is what the file system last logged. */
    method Read(x: nat) returns (r: Option<nat>)
      requires Valid() && x < |cache.disk| && !layout.Contains(x) && NotHeld(cache.bufs, x)
      modifies cache`bufs
      ensures Valid() && (r == None <==> NoBuffers(old(cache.bufs), ROOTDEV, x)) && (r == None ==> cache.bufs == old(cache.bufs))
      ensures r.Some? ==>
                && r.value < NBUF && !old(cache.bufs)[r.value].locked
                && cache.bufs == old(cache.bufs)[r.value := cache.bufs[r.value]]
                && cache.bufs[r.value].locked && cache.bufs[r.value].Caches(ROOTDEV, x) && cache.bufs[r.value].data == flat[x]
    {
      hide Linked;
      hide Midway;
      hide Traced;
      hide LogProtocol.Inv;
      r := cache.Bread(ROOTDEV, x);
      if r.Some? {
        ReadUnlocked(old(cache.bufs), cache.disk, x, r.value);
        HeldLocked(layout, old(cache.bufs), cache.disk, flat, Next(layout, lh, committing, done), held, r.value);
        HeldKept(layout, old(cache.bufs), cache.bufs, cache.disk, flat, Next(layout, lh, committing, done), held);
        ReadKeeps(layout, old(cache.bufs), cache.bufs, cache.disk, flat, Rest(lh, lh, done), Rest(pins, lh, done), held, held, x, r.value);
      }
    }

    /** The holder of a buffer changes it in place. */
    method Modify(b: nat, data: Block)
      requires Valid() && b < NBUF && cache.bufs[b].locked && b !in held
      modifies cache`bufs
      ensures Valid() && cache.bufs == old(cache.bufs)[b := old(cache.bufs)[b].(data := data)]
    {
      hide Linked;
      hide Midway;
      hide Traced;
      hide LogProtocol.Inv;
      cache.SetData(b, data);
      HeldKept(layout, old(cache.bufs), cache.bufs, cache.disk, flat, Next(layout, lh, committing, done), held);
      ModifyKeeps(layout, old(cache.bufs), cache.disk, cache.bufs, cache.disk, flat, Rest(lh, lh, done), Rest(pins, lh, done), held, b);
    }

    /** brelse by a holder who has logged what they changed. */
    method Release(b: nat)
      requires Valid() && b < NBUF && cache.bufs[b].locked && b !in held
      requires cache.bufs[b].blockno < |flat| && cache.bufs[b].data == flat[cache.bufs[b].blockno]
      modifies cache`bufs, cache`next, cache`prev, cache`ring
      ensures Valid() && cache.bufs == old(cache.bufs)[b := Released(old(cache.bufs)[b], 1)]
    {
      hide Midway;
      hide Traced;
      hide BufsOk;
      hide View;
      hide ValidBufs;
      hide Cache.OnRing;
      hide MovedToFront;
      hide HeldOk;
      hide Next;
      hide Rest;
      hide SameView;
      hide Flushed;
      hide LogProtocol.Inv;
      ghost var pending, live := Rest(lh, lh, done), Rest(pins, lh, done);
      MidwayFlushed(layout, base, cache.disk, flat, lh, done);
      HeldOutside(layout, cache.bufs, cache.disk, flat, pending, live, held, b);
      GiveBack(b, pending, live, held, held);
      HeldKept(layout, old(cache.bufs), cache.bufs, cache.disk, flat, Next(layout, lh, committing, done), held);
    }

    /** begin_op, one pass of its loop: false means the caller goes to sleep. */
    method BeginOp(p: nat) returns (admitted: bool)
      requires Valid() && p < |ops| && ops[p].Idle?
      modifies this`outstanding, this`ops
      ensures Valid()
      ensures admitted <==> LogProtocol.Enabled(old(Protocol()), LogProtocol.BeginOp(p))
      ensures Protocol() ==
                if admitted then LogProtocol.Do(old(Protocol()), LogProtocol.BeginOp(p)) else old(Protocol())
    {
      hide LogProtocol.Inv;
      hide Midway;
      hide Traced;
      hide BufsOk;
      hide Cache.Valid;
      hide HeldOk;
      hide Rest;
      hide Next;
      if committing {
        admitted := false;
      } else if |lh| + (outstanding + 1) * MAXOPBLOCKS > LOGSIZE {
        admitted := false;
      } else {
        LogProtocol.StepKeepsInv(Protocol(), LogProtocol.BeginOp(p));
        outstanding := outstanding + 1;
        ops := ops[p := LogProtocol.Active(0)];
        admitted := true;
      }
    }

    /** log_write of a held buffer by the operation of process `p`.  Unless it panics, the
        block joins the log once, its buffer gets pinned, and readers will see it. */
    method LogWrite(b: nat, p: nat) returns (panicked: bool)
      requires Valid() && b < NBUF && cache.bufs[b].locked
      requires LogProtocol.Enabled(Protocol(), LogProtocol.LogWrite(p, cache.bufs[b].blockno))
      modifies this`lh, this`pins, this`flat, this`ops, cache`bufs
      ensures Valid()
      ensures var x, t := old(cache.bufs)[b].blockno, LogProtocol.LogWrite(p, old(cache.bufs)[b].blockno);
              && (panicked <==> LogProtocol.Panics(old(Protocol()), t, layout.size))
              && (panicked ==> Protocol() == old(Protocol()) && flat == old(flat) && cache.bufs == old(cache.bufs))
              && (!panicked ==> Protocol() == LogProtocol.Do(old(Protocol()), t) && x < |old(flat)|)
              && (!panicked ==> flat == old(flat)[x := old(cache.bufs)[b].data])
              && (!panicked ==>
                    cache.bufs == if x in old(lh) then old(cache.bufs) else old(cache.bufs)[b := Referenced(old(cache.bufs)[b])])
    {
      hide Cache.OnRing;
      hide ValidBufs;
      hide BufsOk;
      hide HeadIs;
      hide Flushed;
      hide Midway;
      hide Traced;
      hide Rest;
      hide HeldOk;
      hide SameView;
      hide LogProtocol.Inv;
      NotCommitting(p);
      HeldOutside(layout, cache.bufs, cache.disk, flat, lh, pins, held, b);
      ghost var t := LogProtocol.LogWrite(p, cache.bufs[b].blockno);
      LogProtocol.StepKeepsInv(Protocol(), t);
      if |lh| >= LOGSIZE || |lh| >= layout.size - 1 {
        return true;
      }
      if outstanding < 1 {
        assert false;
      }
      panicked := false;
      var x := cache.bufs[b].blockno;
      var i := Absorb(x);
      HeldNone(layout, cache.bufs, cache.disk, flat[x := cache.bufs[b].data], []);
      if i == |lh| {
        cache.Bpin(b);
        cache.BufsValid();
        JoinKeeps(layout, old(cache.bufs), cache.disk, flat, lh, pins, b);
        HeldNone(layout, cache.bufs, cache.disk, flat[x := cache.bufs[b].data], []);
        lh := lh + [x];
        pins := pins + [b];
        ops := ops[p := LogProtocol.Active(ops[p].used + 1)];
      } else {
        AbsorbKeeps(layout, cache.bufs, cache.disk, flat, lh, pins, b);
      }
      TracedStart(cache.writes, layout, cache.disk, flat[x := cache.bufs[b].data], lh);
      flat := flat[x := cache.bufs[b].data];
    }

    /** While an operation is under way commit is not, and the disk is as the last one left it. */
    lemma NotCommitting(p: nat)
      requires Valid() && p < |ops| && ops[p].Active?
      ensures !committing && outstanding >= 1 && done == 0 && held == [] && base == cache.disk && begun == cache.writes
      ensures Rest(lh, lh, done) == lh && Rest(pins, lh, done) == pins
      ensures HomeBlocks(layout, cache.disk, lh) && Flushed(layout, cache.disk, flat, lh) && HeadIs(layout, cache.disk, [])
    {
      LogProtocol.ActiveCounts(ops, p);
      MidwayEnds(layout, base, cache.disk, flat, lh, done);
      TracedNothing(begun, cache.writes, layout, base, flat, lh);
    }

    /** log_write's search for an entry it can absorb block `x` into. */
    method Absorb(x: nat) returns (i: nat)
      ensures i <= |lh| && (i < |lh| ==> lh[i] == x) && (x in lh <==> i < |lh|)
    {
      i := 0;
      while i < |lh| && lh[i] != x
        invariant i <= |lh| && x !in lh[..i]
      {
        i := i + 1;
      }
    }

    /** end_op up to commit.  The last operation out goes on with CommitStep. */
    method EndOp(p: nat)
      requires Valid() && LogProtocol.Enabled(Protocol(), LogProtocol.EndOp(p))
      modifies this`outstanding, this`committing, this`ops
      ensures Valid() && Protocol() == LogProtocol.Do(old(Protocol()), LogProtocol.EndOp(p))
    {
      hide LogProtocol.Inv;
      hide Midway;
      hide Traced;
      hide BufsOk;
      hide Cache.Valid;
      hide HeldOk;
      hide Rest;
      hide Next;
      NotCommitting(p);
      LogProtocol.StepKeepsInv(Protocol(), LogProtocol.EndOp(p));
      HeldNone(layout, cache.bufs, cache.disk, flat, Next(layout, lh, false, 0));
      HeldNone(layout, cache.bufs, cache.disk, flat, Next(layout, lh, true, 0));
      outstanding := outstanding - 1;
      if committing {
        assert false;
      }
      if outstanding == 0 {
        committing := true;
        ops := ops[p := LogProtocol.Committing];
      } else {
        ops := ops[p := LogProtocol.Idle];
      }
    }

    // ---------- commit, one bread or one bwrite at a time ----------

    /** One bread of commit. */
    method Fetch() returns (o: Progress)
      requires Valid() && |held| < |Next(layout, lh, committing, done)|
      modifies this`held, cache`bufs
      ensures Valid()
      ensures var x := old(Next(layout, lh, committing, done)[|held|]);
              && (o == Waited <==> !NotHeld(old(cache.bufs), x))
              && (o == NoBuffer <==> NoBuffers(old(cache.bufs), ROOTDEV, x))
      ensures o != Went ==> held == old(held) && cache.bufs == old(cache.bufs)
      ensures o == Went ==>
                && |held| == |old(held)| + 1 && held[..|old(held)|] == old(held)
                && var r := held[|old(held)|];
                && r < NBUF && !old(cache.bufs)[r].locked && cache.bufs == old(cache.bufs)[r := cache.bufs[r]]
    {
      hide Midway;
      hide Traced;
      hide BufsOk;
      hide View;
      hide Cache.OnRing;
      hide HeldOk;
      hide Next;
      hide Rest;
      hide SameView;
      hide LogProtocol.Inv;
      var xs := Next(layout, lh, committing, done);
      var x := xs[|held|];
      NextInRange(layout, base, cache.disk, flat, lh, committing, done, x);
      if !NotHeld(cache.bufs, x) {
        return Waited;
      }
      var r := cache.Bread(ROOTDEV, x);
      if r == None {
        return NoBuffer;
      }
      ghost var was := held;
      held := held + [r.value];
      ReadUnlocked(old(cache.bufs), cache.disk, x, r.value);
      ReadKeeps(layout, old(cache.bufs), cache.bufs, cache.disk, flat, Rest(lh, lh, done), Rest(pins, lh, done), was, held, x, r.value);
      HeldMore(layout, old(cache.bufs), cache.bufs, cache.disk, flat, xs, was, r.value);
      return Went;
    }

    /** memmove and bwrite by commit. */
    method Store(b: nat, v: Block, ghost pending: seq<nat>, ghost live: seq<nat>)
      requires cache.Valid() && b < NBUF && cache.bufs[b].locked
      requires BufsOk(layout, cache.bufs, cache.disk, flat, pending, live, held)
      modifies cache`bufs, cache`disk, cache`writes
      ensures cache.Valid() && BufsOk(layout, cache.bufs, cache.disk, flat, pending, live, held)
      ensures cache.bufs == old(cache.bufs)[b := old(cache.bufs)[b].(data := v)]
      ensures cache.disk == old(cache.disk)[cache.bufs[b].blockno := v]
      ensures cache.writes == old(cache.writes) + [Write(cache.bufs[b].blockno, v)]
    {
      hide BufsOk;
      hide View;
      hide Cache.OnRing;
      Overwrite(cache, b, v);
      ModifyKeeps(layout, old(cache.bufs), old(cache.disk), cache.bufs, cache.disk, flat, pending, live, held, b);
    }

    /** brelse by a holder who leaves the block as it was last logged. */
    method GiveBack(b: nat, ghost pending: seq<nat>, ghost live: seq<nat>, ghost mine: seq<nat>, ghost mine': seq<nat>)
      requires cache.Valid() && b < NBUF && cache.bufs[b].locked
      requires BufsOk(layout, cache.bufs, cache.disk, flat, pending, live, mine) && Flushed(layout, cache.disk, flat, pending)
      requires cache.bufs[b].blockno < |cache.disk| == |flat|
      requires cache.bufs[b].data == Latest(layout, cache.disk, flat, cache.bufs[b].blockno)
      requires forall i :: i in mine ==> i in mine' || i == b
      modifies cache`bufs, cache`next, cache`prev, cache`ring
      ensures cache.Valid() && BufsOk(layout, cache.bufs, cache.disk, flat, pending, live, mine')
      ensures cache.bufs == old(cache.bufs)[b := old(cache.bufs)[b].(locked := false, refcnt := old(cache.bufs)[b].refcnt - 1)]
    {
      hide BufsOk;
      hide View;
      hide ValidBufs;
      hide Cache.OnRing;
      hide MovedToFront;
      hide SameView;
      hide Flushed;
      ReleaseSafe(layout, cache.bufs, cache.disk, flat, pending, live, mine, b);
      cache.Brelse(b);
      cache.BufsValid();
      ReleaseKeeps(layout, old(cache.bufs), cache.bufs, cache.disk, flat, pending, live, mine, mine', b);
    }

    /** The bwrite of a round of write_log, and what follows it. */
    method PutLog()
      requires Valid() && committing && done < |lh| && |held| == 2
      modifies cache, this`held, this`done
      ensures Valid() && held == [] && done == old(done) + 1 && |cache.bufs| == NBUF && Spare(cache.bufs)
      ensures forall i :: 0 <= i < NBUF ==> if i in old(held) then !cache.bufs[i].locked else cache.bufs[i] == old(cache.bufs)[i]
    {
      hide Midway;
      hide Traced;
      hide BufsOk;
      hide View;
      hide ValidBufs;
      hide Cache.OnRing;
      hide HeldOk;
      hide HeldAt;
      hide Rest;
      hide SameView;
      hide Flushed;
      hide HomeBlocks;
      hide LogProtocol.Inv;
      var to, from := held[0], held[1];
      ghost var pending, live := Rest(lh, lh, done), Rest(pins, lh, done);
      OneWrite(begun, cache.writes, layout, base, cache.disk, flat, lh, done);
      RoundOfTwo(layout, cache.bufs, cache.disk, flat, live, lh, done, held);
      SamePending(lh, lh, done);
      SamePending(pins, lh, done);
      Store(to, cache.bufs[from].data, pending, live);
      GiveBack(from, pending, live, held, [to]);
      GiveBack(to, pending, live, [to], []);
      assert cache.bufs[to].refcnt == 0;
      held := [];
      done := done + 1;
      HeldNone(layout, cache.bufs, cache.disk, flat, Next(layout, lh, committing, done));
    }

    /** The bwrite of a round of install_trans, and what follows it. */
    method PutHome()
      requires Valid() && committing && |lh| < done <= 2 * |lh| && |held| == 2
      modifies cache, this`held, this`done
      ensures Valid() && held == [] && done == old(done) + 1 && |cache.bufs| == NBUF && Spare(cache.bufs)
      ensures forall i :: 0 <= i < NBUF ==> if i in old(held) then !cache.bufs[i].locked else cache.bufs[i] == old(cache.bufs)[i]
    {
      hide Distinct;
      hide Midway;
      hide Traced;
      hide BufsOk;
      hide View;
      hide ValidBufs;
      hide Cache.OnRing;
      hide HeldOk;
      hide HeldAt;
      hide Rest;
      hide SameView;
      hide Flushed;
      hide HomeBlocks;
      hide LogProtocol.Inv;
      var lbuf, dbuf := held[0], held[1];
      ghost var pending, live := Rest(lh, lh, done), Rest(pins, lh, done);
      OneWrite(begun, cache.writes, layout, base, cache.disk, flat, lh, done);
      RoundOfTwo(layout, cache.bufs, cache.disk, flat, live, lh, done, held);
      MidwayLog(layout, base, cache.disk, flat, lh, done, done - |lh| - 1);
      Store(dbuf, cache.bufs[lbuf].data, pending, live);
      FirstPending(layout, cache.bufs, cache.disk, flat, lh, pins, done, held, dbuf);
      Unpin(dbuf, pending, live);
      GiveBack(lbuf, pending[1..], live[1..], held, [dbuf]);
      GiveBack(dbuf, pending[1..], live[1..], [dbuf], []);
      assert cache.bufs[lbuf].refcnt == 0;
      held := [];
      done := done + 1;
      HeldNone(layout, cache.bufs, cache.disk, flat, Next(layout, lh, committing, done));
    }

    /** install_trans's bunpin. */
    method Unpin(b: nat, ghost pending: seq<nat>, ghost live: seq<nat>)
      requires cache.Valid() && BufsOk(layout, cache.bufs, cache.disk, flat, pending, live, held)
      requires pending != [] && live != [] && live[0] == b < NBUF && Distinct(pending) && cache.bufs[b].refcnt == 2
      modifies cache`bufs
      ensures cache.Valid() && BufsOk(layout, cache.bufs, cache.disk, flat, pending[1..], live[1..], held)
      ensures cache.bufs == old(cache.bufs)[b := old(cache.bufs)[b].(refcnt := 1)]
    {
      hide BufsOk;
      hide View;
      hide Cache.OnRing;
      cache.Bunpin(b);
      UnpinKeeps(layout, old(cache.bufs), cache.bufs, cache.disk, flat, pending, live, held);
    }

    /** The bwrite of write_head, and what follows it. */
    method PutHeader()
      requires Valid() && committing && lh != [] && (done == |lh| || done == 2 * |lh| + 1) && |held| == 1
      modifies cache, this`held, this`done
      ensures Valid() && held == [] && done == old(done) + 1 && |cache.bufs| == NBUF && Spare(cache.bufs)
      ensures forall i :: 0 <= i < NBUF ==> if i in old(held) then !cache.bufs[i].locked else cache.bufs[i] == old(cache.bufs)[i]
    {
      hide Midway;
      hide Traced;
      hide BufsOk;
      hide View;
      hide ValidBufs;
      hide Cache.OnRing;
      hide HeldOk;
      hide HeldAt;
      hide Rest;
      hide SameView;
      hide Flushed;
      hide HomeBlocks;
      hide LogProtocol.Inv;
      var b := held[0];
      ghost var pending, live := Rest(lh, lh, done), Rest(pins, lh, done);
      OneWrite(begun, cache.writes, layout, base, cache.disk, flat, lh, done);
      HeaderHeld(layout, cache.bufs, cache.disk, flat, live, lh, done, held);
      HeaderSettles(lh, lh, done);
      HeaderSettles(pins, lh, done);
      var head := FillHead(cache.bufs[b].data, if done == |lh| then lh else []);
      Store(b, head, pending, live);
      GiveBack(b, pending, live, held, []);
      assert cache.bufs[b].refcnt == 0;
      held := [];
      done := done + 1;
      HeldNone(layout, cache.bufs, cache.disk, flat, Next(layout, lh, committing, done));
    }

    /** The end of end_op, when commit is through. */
    method Finish(p: nat)
      requires Valid() && p < |ops| && ops[p].Committing? && done == Total(lh)
      modifies this`lh, this`pins, this`done, this`committing, this`ops, this`base, this`begun
      ensures Valid() && Protocol() == LogProtocol.Do(old(Protocol()), LogProtocol.Commit(p))
      ensures base == cache.disk && held == [] && done == 0
      ensures SameOutside(layout, base, flat)
    {
      hide Midway;
      hide Traced;
      hide BufsOk;
      hide View;
      hide ValidBufs;
      hide Cache.OnRing;
      hide HeldAt;
      hide Rest;
      hide SameView;
      hide HomeBlocks;
      hide LogProtocol.Inv;
      LogProtocol.StepKeepsInv(Protocol(), LogProtocol.Commit(p));
      MidwayEnds(layout, base, cache.disk, flat, lh, done);
      AllSettled(lh, lh, done);
      AllSettled(pins, lh, done);
      RestIsAll([], [], 0);
      Settle(layout, cache.disk, flat);
      TracedStart(cache.writes, layout, cache.disk, flat, []);
      lh := [];
      pins := [];
      done := 0;
      base := cache.disk;
      begun := cache.writes;
      committing := false;
      ops := ops[p := LogProtocol.Idle];
    }

    /** The bwrite of any round, and what follows it. */
    method Put()
      requires Valid() && committing && done < Total(lh) && |held| == |Next(layout, lh, committing, done)|
      modifies cache, this`held, this`done
      ensures Valid() && held == [] && done == old(done) + 1 && |cache.bufs| == NBUF && Spare(cache.bufs)
      ensures forall i :: 0 <= i < NBUF ==> if i in old(held) then !cache.bufs[i].locked else cache.bufs[i] == old(cache.bufs)[i]
    {
      hide LogLayer.Valid;
      if done < |lh| {
        PutLog();
      } else if |lh| < done <= 2 * |lh| {
        PutHome();
      } else {
        PutHeader();
      }
    }

    /** The next step of commit: a bread, a bwrite, or the end of end_op.  Other processes may
        do anything between two such steps. */
    method CommitStep(p: nat) returns (o: Progress)
      requires Valid() && p < |ops| && ops[p].Committing?
      modifies this, cache
      ensures Valid() && flat == old(flat)
      ensures var x := old(NextRead(layout, lh, committing, done, |held|));
              && (o == Waited <==> x.Some? && !NotHeld(old(cache.bufs), x.value))
              && (o == NoBuffer <==> x.Some? && NoBuffers(old(cache.bufs), ROOTDEV, x.value))
      ensures o != Went ==> unchanged(this) && unchanged(cache)
      ensures o == Went && old(done) == Total(old(lh)) ==>
                && Protocol() == LogProtocol.Do(old(Protocol()), LogProtocol.Commit(p)) && base == cache.disk
                && SameOutside(layout, base, flat)
      ensures o == Went && old(done) < Total(old(lh)) ==>
                && Protocol() == old(Protocol()) && base == old(base) && begun == old(begun)
                && done == old(done) + if old(NextRead(layout, lh, committing, done, |held|)) == None then 1 else 0
      ensures OnlyMine(old(cache.bufs), old(held), cache.bufs, held)
    {
      hide LogLayer.Valid;
      hide NoBuffers;
      hide Round;
      CommitUnderWay(p);
      if done == Total(lh) {
        Finish(p);
        return Went;
      } else if |held| < |Next(layout, lh, committing, done)| {
        o := Fetch();
      } else {
        Put();
        return Went;
      }
    }

    lemma CommitUnderWay(p: nat)
      requires Valid() && p < |ops| && ops[p].Committing?
      ensures committing && done <= Total(lh) && |cache.bufs| == NBUF && |held| <= |Next(layout, lh, committing, done)|
    {
      hide Midway;
      hide Traced;
      hide CommitDisk;
      hide BufsOk;
      hide Contents;
      MidwayDisk(layout, base, cache.disk, flat, lh, done);
    }

    /** A whole round of commit while nobody else runs. */
    method OneRound() returns (ok: bool)
      requires Valid() && committing && done < Total(lh) && held == [] && Quiet(layout, cache.bufs, lh)
      modifies this`held, this`done, cache
      ensures ok <==> !NoBuffers(old(cache.bufs), ROOTDEV, Round(layout, lh, old(done))[0])
      ensures Valid() && held == [] && Quiet(layout, cache.bufs, lh)
      ensures if ok then done == old(done) + 1 && Spare(cache.bufs) else done == old(done) && cache.bufs == old(cache.bufs)
      ensures !ok ==> cache.disk == old(cache.disk) && cache.writes == old(cache.writes)
    {
      hide LogLayer.Valid;
      hide NoBuffers;
      hide Round;
      hide Quiet;
      hide Spare;
      hide NotHeld;
      ghost var bufs0 := cache.bufs;
      LogBlockFree(bufs0);
      var o := Fetch();
      if o == NoBuffer {
        return false;
      }
      if |held| < |Next(layout, lh, committing, done)| {
        HomeBlockFree(bufs0);
        o := Fetch();
      }
      Put();
      QuietAgain(layout, bufs0, cache.bufs, lh);
      return true;
    }

    /** Nobody holds the log block of the round. */
    lemma LogBlockFree(bufs: seq<Buf>)
      requires Valid() && done < Total(lh) && Quiet(layout, bufs, lh)
      ensures NotHeld(bufs, Round(layout, lh, done)[0]) && |cache.bufs| == NBUF
    {
      hide Midway;
      hide CommitDisk;
      hide BufsOk;
      hide Contents;
      MidwayDisk(layout, base, cache.disk, flat, lh, done);
      assert layout.Contains(Round(layout, lh, done)[0]);
    }

    /** Nobody holds the home block either, and it is cached. */
    lemma HomeBlockFree(bufs: seq<Buf>)
      requires Valid() && committing && done < Total(lh) && |Next(layout, lh, committing, done)| == 2 && |held| == 1
      requires Quiet(layout, bufs, lh) && |bufs| == NBUF && held[0] < NBUF && cache.bufs == bufs[held[0] := cache.bufs[held[0]]]
      ensures var x := Next(layout, lh, committing, done)[1]; NotHeld(cache.bufs, x) && !NoBuffers(cache.bufs, ROOTDEV, x)
    {
      hide Midway;
      hide CommitDisk;
      hide BufsOk;
      hide Contents;
      MidwayDisk(layout, base, cache.disk, flat, lh, done);
      HomeCached(layout, bufs, cache.bufs, cache.disk, flat, Rest(pins, lh, done), lh, done, held);
    }

    /** commit and the end of end_op while nobody else runs and nobody holds a log block or a
        pending block.  It panics exactly when there is something to commit and every buffer is
        held or pinned; otherwise it issues exactly commit's writes. */
    method Commit(p: nat) returns (panicked: bool)
      requires Valid() && p < |ops| && ops[p].Committing? && done == 0 && held == [] && Quiet(layout, cache.bufs, lh)
      modifies this, cache
      ensures Valid() && flat == old(flat)
      ensures panicked <==> old(lh) != [] && !Spare(old(cache.bufs))
      ensures panicked ==> cache.disk == old(cache.disk) && cache.writes == old(cache.writes)
      ensures !panicked ==>
                && Protocol() == LogProtocol.Do(old(Protocol()), LogProtocol.Commit(p)) && base == cache.disk
                && Traced(old(cache.writes), cache.writes, layout, old(base), flat, old(lh), Total(old(lh)))
    {
      hide LogLayer.Valid;
      hide NoBuffers;
      hide Round;
      hide Quiet;
      hide Spare;
      hide Traced;
      CommitUnderWay(p);
      Alone();
      while done < Total(lh)
        invariant Valid() && held == [] && Quiet(layout, cache.bufs, lh) && done <= Total(lh)
        invariant Protocol() == old(Protocol()) && flat == old(flat) && base == old(base) && begun == old(begun)
        invariant if done == 0 then cache.bufs == old(cache.bufs) && cache.disk == old(cache.disk) && cache.writes == old(cache.writes)
                  else Spare(old(cache.bufs)) && Spare(cache.bufs)
        decreases Total(lh) - done
      {
        if done > 0 {
          SpareForAny(cache.bufs, Round(layout, lh, done)[0]);
        }
        var ok := OneRound();
        if !ok {
          return true;
        }
      }
      WritesSoFar();
      Finish(p);
      return false;
    }

    /** Before the first write of a commit. */
    lemma Alone()
      requires Valid() && done == 0 && held == []
      ensures begun == cache.writes && (lh != [] ==> (NoBuffers(cache.bufs, ROOTDEV, Round(layout, lh, 0)[0]) <==> !Spare(cache.bufs)))
    {
      hide Midway;
      hide Traced;
      hide CommitDisk;
      hide BufsOk;
      hide Contents;
      hide Rest;
      MidwayDisk(layout, base, cache.disk, flat, lh, done);
      TracedNothing(begun, cache.writes, layout, base, flat, lh);
      RestIsAll(lh, lh, 0);
      RestIsAll(pins, lh, 0);
      if lh != [] {
        NoneSpare(layout, cache.bufs, cache.disk, flat, lh, pins, layout.start + 1);
      }
    }

    lemma WritesSoFar()
      requires Valid()
      ensures Traced(begun, cache.writes, layout, base, flat, lh, done)
    {
    }

  }
}

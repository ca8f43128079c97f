/**
  Runs of the cache and the log together (kernel/bio.c, kernel/log.c): any interleaving of
  reads, changes in place, releases, begin_ops, log_writes, end_ops and single breads and
  bwrites of commit, by any number of processes, makes the disk look like one flat array of
  blocks, and a crash anywhere in it leaves that array as some commit left it.
 */
module LogRuns {
  import opened Util
  import opened Param
  import opened Disk
  import opened BufferCache
  import opened LogRecovery
  import LogProtocol
  import opened Log

  /** A call some process makes next. */
  datatype Call =
    | DoRead(x: nat)
    | DoModify(b: nat, data: Block)
    | DoLog(b: nat, p: nat)
    | DoRelease(b: nat)
    | DoBegin(p: nat)
    | DoEnd(p: nat)
    | DoCommit(p: nat)

  /** What came of it: the caller had to wait or broke the rules of the layer, bread returned
      data, log_write recorded data, a commit was completed, the kernel panicked, or anything
      else. */
  datatype Outcome = Waits | Got(x: nat, data: Block) | Logged(x: nat, data: Block) | Committed | Panicked | Done

  /** The flat array of blocks: each block as it was logged last. */
  ghost function FlatAfter(flat: Disk, rs: seq<Outcome>): (f: Disk)
    ensures |f| == |flat|
  {
    if rs == [] then flat
    else
      var n := |rs| - 1;
      var f := FlatAfter(flat, rs[..n]);
      if rs[n].Logged? && rs[n].x < |f| then f[rs[n].x := rs[n].data] else f
  }

  lemma FlatAppend(flat: Disk, rs: seq<Outcome>, o: Outcome)
    ensures var f := FlatAfter(flat, rs);
            FlatAfter(flat, rs + [o]) == if o.Logged? && o.x < |f| then f[o.x := o.data] else f
  {
    assert (rs + [o])[..|rs|] == rs;
  }

  /** Whoever but commit holds a buffer and has logged what they changed sees the flat array in
      it; the buffers with changes that are not logged are held. */
  ghost predicate HoldersClean(bufs: seq<Buf>, flat: Disk, dirty: set<nat>, held: seq<nat>) {
    && (forall b :: 0 <= b < |bufs| && bufs[b].locked && b !in dirty && b !in held ==> bufs[b].blockno < |flat| && bufs[b].data == flat[bufs[b].blockno])
    && (forall b :: b in dirty ==> b < |bufs| && bufs[b].locked && b !in held)
  }

  /** Every read a call makes returned what the flat array holds. */
  ghost predicate ReadsFlat(flat: Disk, rs: seq<Outcome>, k: nat)
    requires k < |rs|
  {
    rs[k].Got? ==> rs[k].x < |flat| && rs[k].data == FlatAfter(flat, rs[..k])[rs[k].x]
  }

  /** The last commit was completed at outcome m - 1, or there was none. */
  ghost predicate LastCommit(rs: seq<Outcome>, m: nat) {
    && m <= |rs| && (m > 0 ==> rs[m - 1] == Committed)
    && forall k :: m <= k < |rs| ==> rs[k] != Committed
  }

  class Runner {
    const log: LogLayer

    /** Buffers changed since they were last logged: their holders may not release them yet. */
    var dirty: set<nat>

    ghost predicate Valid()
      reads this, log, log.cache
    {
      log.Valid() && HoldersClean(log.cache.bufs, log.flat, dirty, log.held)
    }

    constructor (log: LogLayer)
      requires log.Valid() && forall i :: 0 <= i < |log.cache.bufs| ==> !log.cache.bufs[i].locked
      ensures Valid() && this.log == log
    {
      this.log := log;
      dirty := {};
    }

    /** The block commit reads next, if it is about to read one. */
    function CommitReads(): Option<nat>
      reads this, log
    {
      NextRead(log.layout, log.lh, log.committing, log.done, |log.held|)
    }

    /** The call goes ahead now: locks it needs are free, and the caller keeps the rules of the
        layer: hold what you change, log what you changed before you release it, and stay
        inside an operation's budget. */
    ghost predicate Ready(call: Call)
      requires Valid()
      reads this, log, log.cache
    {
      var c := log.cache;
      match call
      case DoRead(x) => x < |c.disk| && !log.layout.Contains(x) && NotHeld(c.bufs, x)
      case DoModify(b, _) => b < NBUF && c.bufs[b].locked && b !in log.held
      case DoLog(b, p) =>
        && b < NBUF && c.bufs[b].locked && b !in log.held
        && LogProtocol.Enabled(log.Protocol(), LogProtocol.LogWrite(p, c.bufs[b].blockno))
      case DoRelease(b) => b < NBUF && c.bufs[b].locked && b !in log.held && b !in dirty
      case DoBegin(p) => p < |log.ops| && LogProtocol.Enabled(log.Protocol(), LogProtocol.BeginOp(p))
      case DoEnd(p) => LogProtocol.Enabled(log.Protocol(), LogProtocol.EndOp(p))
      case DoCommit(p) =>
        && LogProtocol.Enabled(log.Protocol(), LogProtocol.Commit(p))
        && (CommitReads().Some? ==> NotHeld(c.bufs, CommitReads().value))
    }

    /** The call panics: no buffer for a block that is not cached, or a full log. */
    ghost predicate Panics(call: Call)
      requires Valid() && Ready(call)
      reads this, log, log.cache
    {
      var c := log.cache;
      match call
      case DoRead(x) => NoBuffers(c.bufs, ROOTDEV, x)
      case DoLog(b, p) => LogProtocol.Panics(log.Protocol(), LogProtocol.LogWrite(p, c.bufs[b].blockno), log.layout.size)
      case DoCommit(p) => CommitReads().Some? && NoBuffers(c.bufs, ROOTDEV, CommitReads().value)
      case _ => false
    }

    method Read(x: nat) returns (o: Outcome)
      requires Valid()
      modifies log.cache`bufs
      ensures (o == Waits <==> !old(Ready(DoRead(x)))) && (o == Panicked <==> old(Ready(DoRead(x)) && Panics(DoRead(x))))
      ensures Valid() && (o == Waits || o == Panicked || (o.Got? && o.x == x < |log.flat| && o.data == log.flat[x]))
    {
      hide LogLayer.Valid;
      hide NoBuffers;
      Sizes(log);
      var c := log.cache;
      if x >= |c.disk| || log.layout.Contains(x) || !NotHeld(c.bufs, x) {
        return Waits;
      }
      var r := log.Read(x);
      if r == None {
        return Panicked;
      }
      OneTaken(old(c.bufs), c.bufs, log.flat, dirty, log.held, r.value);
      o := Got(x, c.bufs[r.value].data);
    }

    method Modify(b: nat, data: Block) returns (o: Outcome)
      requires Valid()
      modifies log.cache`bufs, this`dirty
      ensures (o == Waits <==> !old(Ready(DoModify(b, data)))) && (o == Panicked <==> old(Ready(DoModify(b, data)) && Panics(DoModify(b, data))))
      ensures Valid() && (o == Waits || o == Done)
    {
      hide LogLayer.Valid;
      Sizes(log);
      if b >= |log.cache.bufs| || !log.cache.bufs[b].locked || b in log.held {
        return Waits;
      }
      log.Modify(b, data);
      dirty := dirty + {b};
      o := Done;
    }

    method LogWrite(b: nat, p: nat) returns (o: Outcome)
      requires Valid()
      modifies log`lh, log`pins, log`flat, log`ops, log.cache`bufs, this`dirty
      ensures (o == Waits <==> !old(Ready(DoLog(b, p)))) && (o == Panicked <==> old(Ready(DoLog(b, p)) && Panics(DoLog(b, p))))
      ensures Valid() && (o == Waits || o == Panicked || (o.Logged? && o.x < |old(log.flat)|))
      ensures log.flat == if o.Logged? then old(log.flat)[o.x := o.data] else old(log.flat)
    {
      hide LogLayer.Valid;
      hide LogProtocol.Panics;
      hide LogProtocol.Enabled;
      hide LogProtocol.Do;
      Sizes(log);
      var c := log.cache;
      if b >= |c.bufs| || !c.bufs[b].locked || b in log.held || !LogProtocol.Enabled(log.Protocol(), LogProtocol.LogWrite(p, c.bufs[b].blockno)) {
        return Waits;
      }
      OtherHolders(log, dirty, b);
      var x := c.bufs[b].blockno;
      var panicked := log.LogWrite(b, p);
      if panicked {
        return Panicked;
      }
      dirty := dirty - {b};
      o := Logged(x, c.bufs[b].data);
    }

    method Release(b: nat) returns (o: Outcome)
      requires Valid()
      modifies log.cache`bufs, log.cache`next, log.cache`prev, log.cache`ring
      ensures (o == Waits <==> !old(Ready(DoRelease(b)))) && (o == Panicked <==> old(Ready(DoRelease(b)) && Panics(DoRelease(b))))
      ensures Valid() && (o == Waits || o == Done)
    {
      hide LogLayer.Valid;
      Sizes(log);
      if b >= |log.cache.bufs| || !log.cache.bufs[b].locked || b in log.held || b in dirty {
        return Waits;
      }
      log.Release(b);
      o := Done;
    }

    method Begin(p: nat) returns (o: Outcome)
      requires Valid()
      modifies log`outstanding, log`ops
      ensures (o == Waits <==> !old(Ready(DoBegin(p)))) && (o == Panicked <==> old(Ready(DoBegin(p)) && Panics(DoBegin(p))))
      ensures Valid() && (o == Waits || o == Done)
    {
      hide LogLayer.Valid;
      hide HoldersClean;
      if p >= |log.ops| || !log.ops[p].Idle? {
        return Waits;
      }
      var admitted := log.BeginOp(p);
      o := if admitted then Done else Waits;
    }

    method End(p: nat) returns (o: Outcome)
      requires Valid()
      modifies log`outstanding, log`committing, log`ops
      ensures (o == Waits <==> !old(Ready(DoEnd(p)))) && (o == Panicked <==> old(Ready(DoEnd(p)) && Panics(DoEnd(p))))
      ensures Valid() && (o == Waits || o == Done)
    {
      hide LogLayer.Valid;
      hide HoldersClean;
      if !LogProtocol.Enabled(log.Protocol(), LogProtocol.EndOp(p)) {
        return Waits;
      }
      log.EndOp(p);
      o := Done;
    }

    method Commit(p: nat) returns (o: Outcome)
      requires Valid()
      modifies log, log.cache
      ensures (o == Waits <==> !old(Ready(DoCommit(p)))) && (o == Panicked <==> old(Ready(DoCommit(p)) && Panics(DoCommit(p))))
      ensures Valid() && (o == Waits || o == Panicked || o == Done || o == Committed)
      ensures log.flat == old(log.flat)
      ensures if o == Committed then SameOutside(log.layout, log.base, log.flat) else log.base == old(log.base)
    {
      hide LogLayer.Valid;
      hide NoBuffers;
      hide Round;
      hide OnlyMine;
      if !LogProtocol.Enabled(log.Protocol(), LogProtocol.Commit(p)) {
        return Waits;
      }
      var over := log.done == Total(log.lh);
      log.CommitUnderWay(p);
      var step := log.CommitStep(p);
      CommitHolders(old(log.cache.bufs), old(log.held), log.cache.bufs, log.held, log.flat, dirty);
      if step == Waited {
        return Waits;
      }
      if step == NoBuffer {
        return Panicked;
      }
      Sizes(log);
      o := if over then Committed else Done;
    }

    method Do(call: Call) returns (o: Outcome)
      requires Valid()
      modifies this, log, log.cache
      ensures Valid()
      ensures (o == Waits <==> !old(Ready(call))) && (o == Panicked <==> old(Ready(call) && Panics(call)))
      ensures log.flat == if o.Logged? && o.x < |old(log.flat)| then old(log.flat)[o.x := o.data] else old(log.flat)
      ensures o.Got? ==> o.x < |old(log.flat)| && o.data == old(log.flat)[o.x]
      ensures if o == Committed then SameOutside(log.layout, log.base, log.flat) else log.base == old(log.base)
    {
      hide LogLayer.Valid;
      hide HoldersClean;
      hide SameOutside;
      match call {
        case DoRead(x) => o := Read(x);
        case DoModify(b, data) => o := Modify(b, data);
        case DoLog(b, p) => o := LogWrite(b, p);
        case DoRelease(b) => o := Release(b);
        case DoBegin(p) => o := Begin(p);
        case DoEnd(p) => o := End(p);
        case DoCommit(p) => o := Commit(p);
      }
    }

    /** The cache and the log refine one flat array of blocks: in any run of calls, up to a
        panic if there is one, every read returned the contents its block was last logged
        with, or had at the start; and the base that a crash can fall back to is the flat array
        as the last completed commit, after `m` outcomes, left it. */
    method Run(calls: seq<Call>) returns (rs: seq<Outcome>, ghost m: nat)
      requires Valid() && SameOutside(log.layout, log.base, log.flat)
      modifies this, log, log.cache
      ensures Valid() && |rs| <= |calls| && (|rs| < |calls| ==> Panicked in rs)
      ensures forall k: nat :: k < |rs| ==> ReadsFlat(old(log.flat), rs, k)
      ensures log.flat == FlatAfter(old(log.flat), rs)
      ensures LastCommit(rs, m) && SameOutside(log.layout, log.base, FlatAfter(old(log.flat), rs[..m]))
    {
      hide LogLayer.Valid;
      hide HoldersClean;
      hide SameOutside;
      hide FlatAfter;
      hide ReadsFlat;
      rs, m := [], 0;
      FlatNone(log.flat);
      while |rs| < |calls|
        invariant |rs| <= |calls| && Valid() && log.flat == FlatAfter(old(log.flat), rs)
        invariant forall k: nat :: k < |rs| ==> ReadsFlat(old(log.flat), rs, k)
        invariant LastCommit(rs, m) && SameOutside(log.layout, log.base, FlatAfter(old(log.flat), rs[..m]))
        decreases |calls| - |rs|
      {
        var o := Do(calls[|rs|]);
        FlatAppend(old(log.flat), rs, o);
        ReadsMore(old(log.flat), rs, o);
        assert (rs + [o])[..m] == rs[..m] && (rs + [o])[..|rs| + 1] == rs + [o];
        rs := rs + [o];
        m := if o == Committed then |rs| else m;
        if o == Panicked {
          return;
        }
      }
    }

    /** Crash safety of the whole: the machine stops anywhere in any run, any number of
        recoveries stop anywhere, one completes.  Every block outside the log is then as it was
        logged by outcome `c`, for the same `c`: either now, or when the last commit was
        completed. */
    method RunAndCrash(calls: seq<Call>, ghost ks: seq<nat>) returns (rs: seq<Outcome>, ghost m: nat, ghost c: nat)
      requires Valid() && SameOutside(log.layout, log.base, log.flat)
      modifies this, log, log.cache
      ensures LastCommit(rs, m) && (c == m || c == |rs|)
      ensures BootsRecoverable(log.layout, log.cache.disk, ks) && Recoverable(log.layout, AfterCrashes(log.layout, log.cache.disk, ks))
      ensures SameOutside(log.layout, Recover(log.layout, AfterCrashes(log.layout, log.cache.disk, ks)), FlatAfter(old(log.flat), rs[..c]))
    {
      hide LogLayer.Valid;
      hide HoldersClean;
      hide SameOutside;
      hide FlatAfter;
      hide ReadsFlat;
      hide Recover;
      hide AfterCrashes;
      hide BootsRecoverable;
      hide Recoverable;
      rs, m := Run(calls);
      CrashOf(log, ks);
      assert rs[..|rs|] == rs;
      c := if log.done <= |log.lh| then m else |rs|;
      SameTransitive(log.layout, Recover(log.layout, AfterCrashes(log.layout, log.cache.disk, ks)), log.base,
                     FlatAfter(old(log.flat), rs[..m]));
    }
  }

  lemma SameTransitive(l: Layout, a: Disk, b: Disk, c: Disk)
    requires SameOutside(l, b, c)
    ensures SameOutside(l, a, b) ==> SameOutside(l, a, c)
  {
  }

  lemma FlatNone(flat: Disk)
    ensures FlatAfter(flat, []) == flat
  {
  }

  lemma Sizes(log: LogLayer)
    requires log.Valid()
    ensures |log.cache.bufs| == NBUF && |log.flat| == |log.cache.disk| == |log.base|
  {
    hide CommitDisk;
    hide Contents;
    MidwayDisk(log.layout, log.base, log.cache.disk, log.flat, log.lh, log.done);
  }

  lemma CrashOf(log: LogLayer, ks: seq<nat>)
    requires log.Valid()
    ensures BootsRecoverable(log.layout, log.cache.disk, ks) && Recoverable(log.layout, AfterCrashes(log.layout, log.cache.disk, ks))
    ensures SameOutside(log.layout, Recover(log.layout, AfterCrashes(log.layout, log.cache.disk, ks)),
                        if log.done <= |log.lh| then log.base else log.flat)
  {
    hide Recover;
    hide AfterCrashes;
    hide BootsRecoverable;
    hide Recoverable;
    hide Midway;
    CrashedCommit(log.layout, log.base, log.cache.disk, log.flat, log.lh, log.done, ks);
  }

  /** A buffer that nobody held is taken by somebody who sees the flat array in it. */
  lemma OneTaken(bufs: seq<Buf>, bufs': seq<Buf>, flat: Disk, dirty: set<nat>, held: seq<nat>, r: nat)
    requires HoldersClean(bufs, flat, dirty, held) && r < |bufs| == |bufs'| && bufs' == bufs[r := bufs'[r]] && !bufs[r].locked
    requires bufs'[r].blockno < |flat| && bufs'[r].data == flat[bufs'[r].blockno]
    ensures HoldersClean(bufs', flat, dirty, held)
  {
  }

  /** A step of commit leaves the others' buffers alone. */
  lemma CommitHolders(bufs: seq<Buf>, held: seq<nat>, bufs': seq<Buf>, held': seq<nat>, flat: Disk, dirty: set<nat>)
    requires HoldersClean(bufs, flat, dirty, held) && OnlyMine(bufs, held, bufs', held')
    ensures HoldersClean(bufs', flat, dirty, held')
  {
  }

  lemma ReadsMore(flat: Disk, rs: seq<Outcome>, o: Outcome)
    requires forall k: nat :: k < |rs| ==> ReadsFlat(flat, rs, k)
    requires o.Got? ==> o.x < |flat| && o.data == FlatAfter(flat, rs)[o.x]
    ensures forall k: nat :: k < |rs| + 1 ==> ReadsFlat(flat, rs + [o], k)
  {
    var rs' := rs + [o];
    forall k: nat | k < |rs'| ensures ReadsFlat(flat, rs', k) {
      if k < |rs| {
        assert ReadsFlat(flat, rs, k) && rs'[..k] == rs[..k];
      } else {
        assert rs'[..k] == rs;
      }
    }
  }

  /** Logging one block leaves what other holders see. */
  lemma OtherHolders(log: LogLayer, dirty: set<nat>, b: nat)
    requires log.Valid() && HoldersClean(log.cache.bufs, log.flat, dirty, log.held)
    requires b < NBUF && log.cache.bufs[b].locked && b !in log.held
    ensures var bufs, flat := log.cache.bufs, log.flat;
            && bufs[b].blockno < |flat|
            && HoldersClean(bufs, flat[bufs[b].blockno := bufs[b].data], dirty - {b}, log.held)
  {
    hide Midway;
    hide Traced;
    hide Coherent;
    hide HeldOk;
    var bufs, disk := log.cache.bufs, log.cache.disk;
    assert ValidBuf(bufs[b], disk);
    assert |log.flat| == |disk| by { Sizes(log); }
    forall i | 0 <= i < |bufs| && bufs[i].locked && i != b ensures bufs[i].blockno != bufs[b].blockno {
      assert ValidBuf(bufs[i], disk);
    }
  }

  // ---------- a commit that finds no buffer ----------

  ghost predicate NoneHeld(bufs: seq<Buf>) {
    forall i :: 0 <= i < |bufs| ==> !bufs[i].locked
  }

  /** Three operations have logged blocks base..base+k-1 and hold no buffer. */
  ghost predicate Filled(log: LogLayer, base: nat, k: nat)
    reads log, log.cache
  {
    k <= LOGSIZE && log.Valid() && NoneHeld(log.cache.bufs) && log.Protocol() == LogProtocol.Filling(base, k)
  }

  /** While operations are under way nothing is settled, and with fewer than NBUF blocks logged
      a buffer is left. */
  lemma FilledHasSpare(log: LogLayer, base: nat, k: nat)
    requires Filled(log, base, k)
    ensures log.held == [] && log.done == 0 && |log.lh| == k && |log.cache.bufs| == NBUF && (k < NBUF <==> Spare(log.cache.bufs))
  {
    hide Midway;
    hide Traced;
    hide Coherent;
    hide HoldersOutside;
    log.NotCommitting(0);
    CommitNeedsSpare(log.layout, log.cache.bufs, log.cache.disk, log.lh, log.pins);
  }

  /** One more block read, logged and released. */
  method LogOne(log: LogLayer, base: nat, k: nat)
    requires Filled(log, base, k) && k < LOGSIZE && k < log.layout.size - 1
    requires base + k < |log.cache.disk| && !log.layout.Contains(base + k)
    modifies log, log.cache
    ensures Filled(log, base, k + 1) && |log.cache.disk| == |old(log.cache.disk)|
  {
    hide LogLayer.Valid;
    hide NoBuffers;
    hide LogProtocol.Filling;
    hide LogProtocol.Do;
    hide LogProtocol.Enabled;
    hide LogProtocol.Panics;
    FilledHasSpare(log, base, k);
    FillStep(base, k, log.layout.size);
    SpareForAny(log.cache.bufs, base + k);
    var r := log.Read(base + k);
    var panicked := log.LogWrite(r.value, Process(k));
    log.Release(r.value);
  }

  /** Which of three operations logs block `k`. */
  function Process(k: nat): nat {
    if k < 10 then 0 else if k < 20 then 1 else 2
  }

  lemma FillStep(base: nat, k: nat, size: nat)
    requires k < LOGSIZE && k < size - 1
    ensures var s, t := LogProtocol.Filling(base, k), LogProtocol.LogWrite(Process(k), base + k);
            && |s.lh| == k && base + k !in s.lh && LogProtocol.Enabled(s, t) && !LogProtocol.Panics(s, t, size)
            && LogProtocol.Do(s, t) == LogProtocol.Filling(base, k + 1)
  {
    var s := LogProtocol.Filling(base, k);
    assert base + k !in s.lh;
    assert s.lh + [base + k] == LogProtocol.Filling(base, k + 1).lh;
  }

  /** Three operations within their budgets can fill the log so that commit panics in its first
      bread: the log has as much room as the cache has buffers.  On a log area of LOGSIZE blocks,
      which has room for one block less, it takes one more buffer that somebody holds. */
  method FullTransactionPanics(c: Cache, l: Layout, base: nat) returns (panicked: bool)
    requires c.Valid() && Unreferenced(c.bufs) && Recoverable(l, c.disk) && l.size >= LOGSIZE && l.start + l.size <= |c.disk|
    requires base + LOGSIZE <= |c.disk| && forall x :: base <= x < base + LOGSIZE ==> !l.Contains(x)
    modifies c
    ensures panicked
  {
    hide Filled;
    var log := BeginThree(c, l, base);
    var n := if l.size > LOGSIZE then LOGSIZE else LOGSIZE - 1;
    for k := 0 to n
      invariant Filled(log, base, k) && fresh(log) && log.cache == c && log.layout == l && |c.disk| == |old(c.disk)|
    {
      LogOne(log, base, k);
    }
    panicked := EndThree(log, base, n);
  }

  /** Boot, and three operations begin. */
  method BeginThree(c: Cache, l: Layout, ghost base: nat) returns (log: LogLayer)
    requires c.Valid() && Unreferenced(c.bufs) && Recoverable(l, c.disk)
    modifies c
    ensures fresh(log) && log.cache == c && log.layout == l && |c.disk| == |old(c.disk)| && Filled(log, base, 0)
  {
    hide Recoverable;
    hide RecoveryWrites;
    hide LogLayer.Valid;
    log := new LogLayer(c, l, 3);
    UnreferencedUnheld(log);
    var _ := log.BeginOp(0);
    var _ := log.BeginOp(1);
    var _ := log.BeginOp(2);
    assert log.Protocol() == LogProtocol.Filling(base, 0);
  }

  /** With all but one buffer pinned, a held one is the last. */
  lemma OneMoreHeld(log: LogLayer, r: nat)
    requires log.Valid() && |log.ops| > 0 && log.ops[0].Active? && |log.lh| == NBUF - 1
    requires r < NBUF && log.cache.bufs[r].locked && log.cache.bufs[r].blockno !in log.lh
    ensures !Spare(log.cache.bufs)
  {
    hide Midway;
    hide Traced;
    hide Coherent;
    hide HoldersOutside;
    log.NotCommitting(0);
    var bufs, pins := log.cache.bufs, log.pins;
    PinsDiffer(log.layout, bufs, log.cache.disk, log.lh, pins);
    NotPinned(bufs, log.lh, pins, r);
    DistinctCover(pins + [r], NBUF);
    forall i | 0 <= i < |bufs| ensures bufs[i].refcnt != 0 {
      assert i in pins + [r];
    }
  }

  /** Another process reads and holds one more block if there is a buffer left, the three
      operations end, and commit makes its first bread. */
  method EndThree(log: LogLayer, base: nat, n: nat) returns (panicked: bool)
    requires Filled(log, base, n) && LOGSIZE - 1 <= n <= LOGSIZE
    requires base + LOGSIZE <= |log.cache.disk| && forall x :: base <= x < base + LOGSIZE ==> !log.layout.Contains(x)
    modifies log, log.cache
    ensures panicked
  {
    hide LogLayer.Valid;
    hide NoBuffers;
    hide Spare;
    FilledHasSpare(log, base, n);
    if n < NBUF {
      SpareForAny(log.cache.bufs, base + n);
      var r := log.Read(base + n);
      OneMoreHeld(log, r.value);
    }
    log.EndOp(0);
    log.EndOp(1);
    log.EndOp(2);
    log.CommitUnderWay(2);
    log.Alone();
    var o := log.CommitStep(2);
    panicked := o == NoBuffer;
  }

  lemma UnreferencedUnheld(log: LogLayer)
    requires log.Valid() && Unreferenced(log.cache.bufs)
    ensures NoneHeld(log.cache.bufs)
  {
    hide Midway;
    hide Traced;
    assert forall i :: 0 <= i < |log.cache.bufs| ==> ValidBuf(log.cache.bufs[i], log.cache.disk);
  }
}

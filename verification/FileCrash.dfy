/**
  Files across a crash (kernel/log.c, kernel/fs.c, kernel/file.c): commit a transaction of
  the file system through the log, crash anywhere, recover and mount.  Every file is then as
  it was before the transaction, or as it was after it.
 */
module FileCrash {
  import opened Param
  import opened Disk
  import opened LogRecovery
  import opened BlockMap
  import opened FileSystem
  import opened FileContents
  import opened FileOps
  import opened DiskFormat

  /** iupdate has been called after every change of an inode. */
  ghost predicate Synced(fs: Fs) {
    fs.inodes == fs.dinodes
  }

  /** The contents that the logged blocks are to get. */
  ghost function NewBlocks(sb: Super, fs: Fs, homes: seq<nat>): (vals: seq<Block>)
    requires Fits(sb, fs) && forall j :: 0 <= j < |homes| ==> sb.inodestart <= homes[j] < sb.size
    ensures |vals| == |homes|
  {
    seq(|homes|, j requires 0 <= j < |homes| => EncodeBlock(sb, fs, homes[j]))
  }

  /** `homes` lists the blocks in `logged`, which fit into the log, and the log lies before the
      inodes. */
  ghost predicate LogsTo(l: Layout, sb: Super, logged: set<int>, homes: seq<nat>) {
    && (forall j :: 0 <= j < |homes| ==> homes[j] in logged)
    && (forall x :: x in logged ==> x in homes)
    && (forall i, j :: 0 <= i < j < |homes| ==> homes[i] != homes[j])
    && |homes| <= LOGSIZE && |homes| < l.size && l.start + l.size <= sb.inodestart
  }

  lemma TxnIsValid(l: Layout, sb: Super, d: Disk, fs: Fs, fs': Fs, logged: set<int>, homes: seq<nat>)
    requires Tracked(sb, fs, fs', logged) && Fits(sb, fs') && LogsTo(l, sb, logged, homes) && sb.size <= |d|
    ensures forall j :: 0 <= j < |homes| ==> sb.inodestart <= homes[j] < sb.size
    ensures ValidTxn(l, d, homes, NewBlocks(sb, fs', homes))
  {
    hide EncodeBlock;
    hide Super.Laid;
    AreasInRange(sb, 0, 0);
  }

  /** None of the home blocks written. */
  lemma OldHolds(l: Layout, sb: Super, d: Disk, r: Disk, fs: Fs)
    requires Holds(sb, d, fs) && l.start + l.size <= sb.inodestart && HomesOld(l, d, r)
    ensures Holds(sb, r, fs)
  {
    hide EncodeBlock;
  }

  /** All of them written. */
  lemma NewHolds(l: Layout, sb: Super, d: Disk, r: Disk, fs: Fs, fs': Fs, logged: set<int>, homes: seq<nat>)
    requires Holds(sb, d, fs) && Tracked(sb, fs, fs', logged) && Fits(sb, fs') && LogsTo(l, sb, logged, homes)
    requires forall j :: 0 <= j < |homes| ==> sb.inodestart <= homes[j] < sb.size
    requires HomesInstalled(l, d, homes, NewBlocks(sb, fs', homes), r)
    ensures Holds(sb, r, fs')
  {
    hide EncodeBlock;
    hide Super.Laid;
    hide Fits;
    forall b: nat | sb.inodestart <= b < sb.size ensures r[b] == EncodeBlock(sb, fs', b) {
      if b in homes {
        var j :| 0 <= j < |homes| && homes[j] == b;
        assert r[homes[j]] == NewBlocks(sb, fs', homes)[j];
      } else {
        UnloggedBlock(sb, fs, fs', logged, b);
      }
    }
  }

  /** The disk after commit of the transaction has crashed after `k` writes, recoveries after
      ks[0], ks[1], ... writes, and one recovery has gone through. */
  ghost function Rebooted(l: Layout, sb: Super, d: Disk, fs: Fs, fs': Fs, logged: set<int>, homes: seq<nat>, k: nat, ks: seq<nat>): (r: Disk)
    requires Holds(sb, d, fs) && Tracked(sb, fs, fs', logged) && Fits(sb, fs') && LogsTo(l, sb, logged, homes) && HeadIs(l, d, [])
    requires k <= if homes == [] then 0 else 2 * |homes| + 2
    ensures HeadIs(l, r, [])
    ensures Holds(sb, r, if k <= |homes| then fs else fs')
  {
    TxnIsValid(l, sb, d, fs, fs', logged, homes);
    var vals := NewBlocks(sb, fs', homes);
    CommitLength(l, d[l.start], homes, vals);
    CrashAtomicity(l, d, homes, vals, k, ks);
    var r := Recover(l, AfterCrashes(l, Crashed(l, d, homes, vals, k), ks));
    RebootHolds(l, sb, d, r, fs, fs', logged, homes, k);
    r
  }

  lemma CommitLength(l: Layout, head: Block, homes: seq<nat>, vals: seq<Block>)
    requires |homes| == |vals| <= LOGSIZE
    ensures |CommitWrites(l, head, homes, vals)| == if homes == [] then 0 else 2 * |homes| + 2
  {
  }

  lemma RebootHolds(l: Layout, sb: Super, d: Disk, r: Disk, fs: Fs, fs': Fs, logged: set<int>, homes: seq<nat>, k: nat)
    requires Holds(sb, d, fs) && Tracked(sb, fs, fs', logged) && Fits(sb, fs') && LogsTo(l, sb, logged, homes)
    requires forall j :: 0 <= j < |homes| ==> sb.inodestart <= homes[j] < sb.size
    requires if k <= |homes| then HomesOld(l, d, r) else HomesInstalled(l, d, homes, NewBlocks(sb, fs', homes), r)
    ensures Holds(sb, r, if k <= |homes| then fs else fs')
  {
    hide Holds;
    hide HomesOld;
    hide HomesInstalled;
    if k <= |homes| {
      OldHolds(l, sb, d, r, fs);
    } else {
      NewHolds(l, sb, d, r, fs, fs', logged, homes);
    }
  }

  /** Mounting finds a consistent file system with the same files. */
  lemma MountedFiles(sb: Super, d: Disk, fs: Fs, own: Owners)
    requires Holds(sb, d, fs) && sb.Laid() && Inv(sb, fs, own) && Synced(fs)
    ensures sb.dataStart <= sb.size <= |d|
    ensures Inv(sb, Mounted(sb, d), own)
    ensures forall j: nat :: j < sb.ninodes ==> SameFile(sb, fs, Mounted(sb, d), j)
  {
    MountReadsBack(sb, d, fs);
    hide Mounted;
    hide Holds;
    hide GetWord;
    var m := Mounted(sb, d);
    assert Shaped(sb, m);
    forall j: nat, t: nat | j < sb.ninodes && t < NSLOT ensures Addr(sb, m, j, t) == Addr(sb, fs, j, t) {
      assert OwnsSlot(sb, fs, own, j, INDIRECT);
    }
    SameSlots(sb, fs, own, m);
    hide Addr;
    forall j: nat | j < sb.ninodes ensures SameFile(sb, fs, m, j) {
      forall k: nat | k / BSIZE < MAXFILE ensures ByteAt(sb, m, j, k) == ByteAt(sb, fs, j, k) {
        SlotIsData(k / BSIZE);
        assert OwnsSlot(sb, fs, own, j, SlotOf(k / BSIZE));
      }
    }
  }

  /** FilesAtomic for one step. */
  lemma TxnAtomic(l: Layout, sb: Super, d: Disk, t: Txn, homes: seq<nat>, k: nat, ks: seq<nat>)
    requires IsTxn(sb, t) && Synced(t.before) && Synced(t.after) && Fits(sb, t.after)
    requires Holds(sb, d, t.before) && HeadIs(l, d, []) && LogsTo(l, sb, t.logged, homes)
    requires k <= if homes == [] then 0 else 2 * |homes| + 2
    ensures sb.Laid()
    ensures var r := Rebooted(l, sb, d, t.before, t.after, t.logged, homes, k, ks);
            var fs, own := if k <= |homes| then t.before else t.after, if k <= |homes| then t.ownBefore else t.ownAfter;
            && Shaped(sb, fs)
            && sb.dataStart <= sb.size <= |r|
            && Inv(sb, Mounted(sb, r), own)
            && forall j: nat :: j < sb.ninodes ==> SameFile(sb, fs, Mounted(sb, r), j)
  {
    hide Rebooted;
    hide Holds;
    hide Inv;
    hide Mounted;
    var r := Rebooted(l, sb, d, t.before, t.after, t.logged, homes, k, ks);
    var fs, own := if k <= |homes| then t.before else t.after, if k <= |homes| then t.ownBefore else t.ownAfter;
    InvShaped(sb, fs, own);
    MountedFiles(sb, r, fs, own);
  }

  // ---------- group commit ----------

  /** Operations that one commit makes durable together: each starts where the last one ended. */
  ghost predicate IsGroup(sb: Super, ts: seq<Txn>) {
    && |ts| > 0
    && (forall t :: 0 <= t < |ts| ==> IsTxn(sb, ts[t]))
    && (forall t :: 0 < t < |ts| ==> ts[t].before == ts[t - 1].after && ts[t].ownBefore == ts[t - 1].ownAfter)
  }

  /** What log_write has recorded for all of them. */
  ghost function GroupLog(ts: seq<Txn>): set<int> {
    if ts == [] then {} else GroupLog(ts[..|ts| - 1]) + ts[|ts| - 1].logged
  }

  /** The group as one step. */
  ghost function Grouped(ts: seq<Txn>): Txn
    requires |ts| > 0
  {
    var last := ts[|ts| - 1];
    Txn(ts[0].before, ts[0].ownBefore, last.after, last.ownAfter, GroupLog(ts), last.done)
  }

  /** What two operations changed between them is in what either logged. */
  lemma TrackedTwice(sb: Super, fs: Fs, fs1: Fs, fs2: Fs, logged1: set<int>, logged2: set<int>)
    requires Tracked(sb, fs, fs1, logged1) && Tracked(sb, fs1, fs2, logged2)
    ensures Tracked(sb, fs, fs2, logged1 + logged2)
  {
    hide Super.Laid;
    hide Super.BBLOCK;
    hide Super.IBLOCK;
  }

  lemma {:induction false} GroupIsTxn(sb: Super, ts: seq<Txn>)
    requires IsGroup(sb, ts)
    ensures IsTxn(sb, Grouped(ts))
  {
    hide Inv;
    hide Tracked;
    var n := |ts| - 1;
    assert IsTxn(sb, ts[n]);
    if n == 0 {
      assert GroupLog(ts[..n]) == {};
      assert GroupLog(ts) == ts[0].logged;
    } else {
      GroupIsTxn(sb, ts[..n]);
      assert ts[n].before == ts[n - 1].after;
      TrackedTwice(sb, ts[0].before, ts[n].before, ts[n].after, GroupLog(ts[..n]), ts[n].logged);
    }
  }

  /** Crash atomicity of files: whatever prefix of the writes of a group's commit the crash let
      through, and however often recovery crashed, the mounted file system is consistent and
      each file is what it was before the group, or each is what it was after it. */
  lemma FilesAtomic(l: Layout, sb: Super, d: Disk, ts: seq<Txn>, homes: seq<nat>, k: nat, ks: seq<nat>)
    requires IsGroup(sb, ts) && Synced(ts[0].before) && Synced(ts[|ts| - 1].after) && Fits(sb, ts[|ts| - 1].after)
    requires Holds(sb, d, ts[0].before) && HeadIs(l, d, []) && LogsTo(l, sb, GroupLog(ts), homes)
    requires k <= if homes == [] then 0 else 2 * |homes| + 2
    ensures IsTxn(sb, Grouped(ts)) && sb.Laid()
    ensures var t := Grouped(ts);
            var r := Rebooted(l, sb, d, t.before, t.after, t.logged, homes, k, ks);
            var fs, own := if k <= |homes| then t.before else t.after, if k <= |homes| then t.ownBefore else t.ownAfter;
            && Shaped(sb, fs)
            && sb.dataStart <= sb.size <= |r|
            && Inv(sb, Mounted(sb, r), own)
            && forall j: nat :: j < sb.ninodes ==> SameFile(sb, fs, Mounted(sb, r), j)
  {
    hide Rebooted;
    hide Holds;
    hide Inv;
    hide Mounted;
    hide GroupLog;
    hide Tracked;
    GroupIsTxn(sb, ts);
    TxnAtomic(l, sb, d, Grouped(ts), homes, k, ks);
  }

  // ---------- filewrite ----------

  lemma ProgressSynced(sb: Super, fs: Fs, fs': Fs, i: nat, off: nat, src: seq<int>, n: nat)
    requires Progress(sb, fs, fs', i, off, src, n) && Synced(fs)
    ensures Synced(fs')
  {
    hide Content;
    hide Overwritten;
    hide Addr;
    hide ByteAt;
    if fs' != fs {
      forall j: nat | j < sb.ninodes ensures fs'.inodes[j] == fs'.dinodes[j] {
        assert j != i ==> SameFile(sb, fs, fs', j);
      }
    }
  }

  /** How much of the write was done before transaction `n`. */
  ghost function DoneBefore(txns: seq<Txn>, n: nat): nat
    requires n <= |txns|
  {
    if n == 0 then 0 else txns[n - 1].done
  }

  lemma TxnBounds(sb: Super, fs: Fs, fs': Fs, i: nat, off: nat, src: seq<int>, txns: seq<Txn>, n: nat)
    requires WriteTxns(sb, fs, fs', i, off, src, txns) && n < |txns| && Synced(fs)
    ensures IsTxn(sb, txns[n]) && Synced(txns[n].before) && Synced(txns[n].after)
    ensures Progress(sb, fs, txns[n].before, i, off, src, DoneBefore(txns, n))
    ensures Progress(sb, fs, txns[n].after, i, off, src, txns[n].done)
  {
    hide IsTxn;
    hide Wrote;
    ProgressSynced(sb, fs, txns[n].after, i, off, src, txns[n].done);
    assert txns[n].before == StateAt(fs, txns, n);
    if n > 0 {
      ProgressSynced(sb, fs, txns[n - 1].after, i, off, src, txns[n - 1].done);
    }
  }

  /** A crash in any transaction of a filewrite leaves the file overwritten with a first part of
      the data: as much as the transactions before this one wrote, or this one too. */
  lemma FilewriteAtomic(l: Layout, sb: Super, d: Disk, fs: Fs, fs': Fs, i: nat, off: nat, src: seq<int>, txns: seq<Txn>, n: nat,
                        homes: seq<nat>, k: nat, ks: seq<nat>)
    requires WriteTxns(sb, fs, fs', i, off, src, txns) && n < |txns| && Synced(fs) && i < sb.ninodes
    requires Shaped(sb, fs) && NoHoles(sb, fs, i) && off <= fs.inodes[i].size
    requires Holds(sb, d, txns[n].before) && Fits(sb, txns[n].after)
    requires HeadIs(l, d, []) && LogsTo(l, sb, txns[n].logged, homes)
    requires k <= if homes == [] then 0 else 2 * |homes| + 2
    ensures IsTxn(sb, txns[n]) && sb.Laid()
    ensures var r := Rebooted(l, sb, d, txns[n].before, txns[n].after, txns[n].logged, homes, k, ks);
            var done := if k <= |homes| then DoneBefore(txns, n) else txns[n].done;
            && done <= |src| && sb.dataStart <= sb.size <= |r| && Shaped(sb, Mounted(sb, r))
            && Mounted(sb, r).inodes[i].size <= MAXFILE * BSIZE
            && Content(sb, Mounted(sb, r), i) == Overwritten(Content(sb, fs, i), off, src[..done])
  {
    hide Rebooted;
    hide Mounted;
    hide Inv;
    hide Tracked;
    hide Wrote;
    hide NoHoles;
    TxnBounds(sb, fs, fs', i, off, src, txns, n);
    var t := txns[n];
    TxnAtomic(l, sb, d, t, homes, k, ks);
    var r := Rebooted(l, sb, d, t.before, t.after, t.logged, homes, k, ks);
    var done := if k <= |homes| then DoneBefore(txns, n) else t.done;
    InvShaped(sb, Mounted(sb, r), if k <= |homes| then t.ownBefore else t.ownAfter);
    FileContent(sb, fs, if k <= |homes| then t.before else t.after, Mounted(sb, r), i, off, src, done);
  }

  lemma FileContent(sb: Super, fs: Fs, fs1: Fs, m: Fs, i: nat, off: nat, src: seq<int>, n: nat)
    requires Progress(sb, fs, fs1, i, off, src, n) && Shaped(sb, fs) && Shaped(sb, fs1) && Shaped(sb, m) && i < sb.ninodes
    requires NoHoles(sb, fs, i) && off <= fs.inodes[i].size && SameFile(sb, fs1, m, i)
    ensures m.inodes[i].size <= MAXFILE * BSIZE
    ensures Content(sb, m, i) == Overwritten(Content(sb, fs, i), off, src[..n])
  {
    hide Addr;
    hide ByteAt;
    assert src[..0] == [];
    assert fs1 == fs ==> Overwritten(Content(sb, fs, i), off, []) == Content(sb, fs, i);
    forall j | 0 <= j < m.inodes[i].size ensures Content(sb, m, i)[j] == Content(sb, fs1, i)[j] {
    }
  }
}

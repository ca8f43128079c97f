/**
  The on-disk redo log (kernel/log.c): the block writes that commit() and
  recover_from_log() issue, and what a crash after any prefix of them leaves.

  A transaction is a list `homes` of home block numbers together with the new
  contents `vals`.  Its log occupies block `start` (the header) and the blocks
  after it.
 */
module LogRecovery {
  import opened Param
  import opened Disk

  /** Where the log lives: header at `start`, `size` blocks in all. */
  datatype Layout = Layout(start: nat, size: nat) {
    predicate Contains(b: nat) {
      start <= b < start + size
    }
  }

  // ---------- the header block: word 0 is n, words 1..n are block numbers ----------

  predicate ValidHead(b: Block) {
    0 <= b[0] <= LOGSIZE && forall i :: 1 <= i <= b[0] ==> b[i] >= 0
  }

  function GetHead(b: Block): seq<nat>
    requires ValidHead(b)
  {
    seq(b[0], i requires 0 <= i < b[0] => b[1 + i])
  }

  /** write_head overwrites n and the first n entries; later words keep their old contents. */
  function PutHead(b: Block, homes: seq<nat>): Block
    requires |homes| <= LOGSIZE
  {
    var words: seq<int> := [|homes|] + seq(|homes|, i requires 0 <= i < |homes| => homes[i]);
    words + b[1 + |homes|..]
  }

  lemma HeadRoundTrip(b: Block, homes: seq<nat>)
    requires |homes| <= LOGSIZE
    ensures ValidHead(PutHead(b, homes))
    ensures GetHead(PutHead(b, homes)) == homes
  {
    var h := PutHead(b, homes);
    assert forall i :: 0 <= i < |homes| ==> h[1 + i] == homes[i];
    assert forall i :: 1 <= i <= h[0] ==> h[i] == homes[i - 1];
  }

  // ---------- transactions and their writes ----------

  ghost predicate ValidTxn(l: Layout, d: Disk, homes: seq<nat>, vals: seq<Block>) {
    && l.start + l.size <= |d|
    && |homes| == |vals| <= LOGSIZE
    && |homes| < l.size
    && (forall i :: 0 <= i < |homes| ==> homes[i] < |d| && !l.Contains(homes[i]))
    && (forall i, j :: 0 <= i < j < |homes| ==> homes[i] != homes[j])
  }

  /** The writes of write_log. */
  ghost function LogWrites(l: Layout, vals: seq<Block>): seq<Write> {
    seq(|vals|, i requires 0 <= i < |vals| => Write(l.start + 1 + i, vals[i]))
  }

  /** The writes of install_trans. */
  ghost function InstallWrites(homes: seq<nat>, vals: seq<Block>): seq<Write>
    requires |homes| == |vals|
  {
    seq(|homes|, i requires 0 <= i < |homes| => Write(homes[i], vals[i]))
  }

  /** Everything commit() writes, in order; `head` is the header block before it starts. */
  ghost function CommitWrites(l: Layout, head: Block, homes: seq<nat>, vals: seq<Block>): seq<Write>
    requires |homes| == |vals| <= LOGSIZE
  {
    if homes == [] then []
    else
      LogWrites(l, vals) + [Write(l.start, PutHead(head, homes))]
      + InstallWrites(homes, vals) + [Write(l.start, PutHead(PutHead(head, homes), []))]
  }

  ghost predicate Recoverable(l: Layout, d: Disk) {
    && l.start < |d|
    && l.size > 0
    && ValidHead(d[l.start])
    && ValidTxn(l, d, GetHead(d[l.start]), LoggedVals(l, d))
  }

  /** The log blocks the header on disk speaks of. */
  ghost function LoggedVals(l: Layout, d: Disk): seq<Block>
    requires l.start < |d| && ValidHead(d[l.start])
  {
    seq(|GetHead(d[l.start])|, i requires 0 <= i < |GetHead(d[l.start])| =>
      if l.start + 1 + i < |d| then d[l.start + 1 + i] else d[l.start])
  }

  /** Everything recover_from_log() writes when booted on disk `d`. */
  ghost function RecoveryWrites(l: Layout, d: Disk): (ws: seq<Write>)
    requires Recoverable(l, d)
    ensures InRange(d, ws)
  {
    InstallWrites(GetHead(d[l.start]), LoggedVals(l, d)) + [Write(l.start, PutHead(d[l.start], []))]
  }

  /** The disk after a recovery that crashed once `k` of its writes were done
      (all of them when `k` is large enough). */
  ghost function RecoverPrefix(l: Layout, d: Disk, k: nat): (r: Disk)
    requires Recoverable(l, d)
    ensures |r| == |d|
  {
    var ws := RecoveryWrites(l, d);
    Apply(d, if k < |ws| then ws[..k] else ws)
  }

  ghost function Recover(l: Layout, d: Disk): Disk
    requires Recoverable(l, d)
  {
    Apply(d, RecoveryWrites(l, d))
  }

  // ---------- the three kinds of disk a crash can leave ----------

  /** Outside the log area `d` holds `base`, with `vals` at the first `k` homes. */
  ghost predicate HomesInstalled(l: Layout, base: Disk, homes: seq<nat>, vals: seq<Block>, d: Disk) {
    && |d| == |base|
    && |homes| == |vals|
    && (forall i :: 0 <= i < |homes| ==> homes[i] < |d| && d[homes[i]] == vals[i])
    && (forall b :: 0 <= b < |d| && !l.Contains(b) && b !in homes ==> d[b] == base[b])
  }

  ghost predicate HomesOld(l: Layout, base: Disk, d: Disk) {
    && |d| == |base|
    && forall b :: 0 <= b < |d| && !l.Contains(b) ==> d[b] == base[b]
  }

  ghost predicate HeadIs(l: Layout, d: Disk, homes: seq<nat>) {
    && l.start < |d|
    && ValidHead(d[l.start])
    && GetHead(d[l.start]) == homes
  }

  /** Every home block still has its old contents and the header is empty. */
  ghost predicate Uncommitted(l: Layout, base: Disk, d: Disk) {
    HomesOld(l, base, d) && HeadIs(l, d, [])
  }

  /** The header names the transaction, the log holds it, homes are part old, part new. */
  ghost predicate Committed(l: Layout, base: Disk, homes: seq<nat>, vals: seq<Block>, d: Disk) {
    && |d| == |base|
    && |homes| == |vals|
    && HeadIs(l, d, homes)
    && l.start + |homes| < |d|
    && (forall i :: 0 <= i < |homes| ==> d[l.start + 1 + i] == vals[i])
    && (forall i :: 0 <= i < |homes| ==> homes[i] < |d|)
    && (forall i :: 0 <= i < |homes| ==> d[homes[i]] == base[homes[i]] || d[homes[i]] == vals[i])
    && (forall b :: 0 <= b < |d| && !l.Contains(b) && b !in homes ==> d[b] == base[b])
  }

  /** Every home block has its new contents and the header is empty. */
  ghost predicate Installed(l: Layout, base: Disk, homes: seq<nat>, vals: seq<Block>, d: Disk) {
    HomesInstalled(l, base, homes, vals, d) && HeadIs(l, d, [])
  }

  /** Installing one home block keeps the disk Committed. */
  lemma InstallOne(l: Layout, base: Disk, homes: seq<nat>, vals: seq<Block>, d: Disk, j: nat)
    requires ValidTxn(l, base, homes, vals) && Committed(l, base, homes, vals, d)
    requires j < |homes|
    ensures var e := d[homes[j] := vals[j]];
            && Committed(l, base, homes, vals, e)
            && e[l.start] == d[l.start]
            && forall i :: 0 <= i < j ==> e[homes[i]] == d[homes[i]]
  {
    var e := d[homes[j] := vals[j]];
    assert l.Contains(l.start);
  }

  /** Clearing the header after every install finishes the transaction. */
  lemma ClearHead(l: Layout, base: Disk, homes: seq<nat>, vals: seq<Block>, d: Disk)
    requires ValidTxn(l, base, homes, vals) && Committed(l, base, homes, vals, d)
    requires forall i :: 0 <= i < |homes| ==> d[homes[i]] == vals[i]
    ensures Installed(l, base, homes, vals, d[l.start := PutHead(d[l.start], [])])
  {
    HeadRoundTrip(d[l.start], []);
    assert l.Contains(l.start);
  }

  /** The committing header write. */
  lemma SetHead(l: Layout, base: Disk, homes: seq<nat>, vals: seq<Block>, d: Disk)
    requires ValidTxn(l, base, homes, vals) && Uncommitted(l, base, d)
    requires forall i :: 0 <= i < |homes| ==> d[l.start + 1 + i] == vals[i]
    ensures Committed(l, base, homes, vals, d[l.start := PutHead(d[l.start], homes)])
  {
    HeadRoundTrip(d[l.start], homes);
    assert l.Contains(l.start);
  }

  // ---------- commit, one write at a time ----------

  /** The same writes, described position by position. */
  ghost predicate AreCommitWrites(l: Layout, head: Block, homes: seq<nat>, vals: seq<Block>, ws: seq<Write>) {
    var n := |homes|;
    && 0 < n == |vals| <= LOGSIZE
    && |ws| == 2 * n + 2
    && (forall i :: 0 <= i < n ==> ws[i] == Write(l.start + 1 + i, vals[i]))
    && ws[n] == Write(l.start, PutHead(head, homes))
    && (forall i :: n + 1 <= i < n + 1 + n ==> ws[i] == Write(homes[i - (n + 1)], vals[i - (n + 1)]))
    && ws[2 * n + 1] == Write(l.start, PutHead(PutHead(head, homes), []))
  }

  lemma CommitWritesAt(l: Layout, head: Block, homes: seq<nat>, vals: seq<Block>)
    requires |homes| == |vals| <= LOGSIZE && homes != []
    ensures AreCommitWrites(l, head, homes, vals, CommitWrites(l, head, homes, vals))
  {
  }

  lemma CommitWritesInRange(l: Layout, base: Disk, head: Block, homes: seq<nat>, vals: seq<Block>)
    requires ValidTxn(l, base, homes, vals)
    ensures InRange(base, CommitWrites(l, head, homes, vals))
  {
    if homes != [] {
      CommitWritesAt(l, head, homes, vals);
    }
  }

  /** While the log is being filled nothing but the log area changes. */
  lemma {:induction false} FillPhase(l: Layout, homes: seq<nat>, vals: seq<Block>, ds: seq<Disk>, ws: seq<Write>, k: nat)
    requires Steps(ds, ws) && k <= |homes| <= |ws|
    requires ValidTxn(l, ds[0], homes, vals) && HeadIs(l, ds[0], [])
    requires forall i :: 0 <= i < |homes| ==> ws[i] == Write(l.start + 1 + i, vals[i])
    ensures Uncommitted(l, ds[0], ds[k]) && ds[k][l.start] == ds[0][l.start]
    ensures forall i :: 0 <= i < k ==> ds[k][l.start + 1 + i] == vals[i]
  {
    if k > 0 {
      FillPhase(l, homes, vals, ds, ws, k - 1);
      assert l.Contains(l.start + k);
      assert ds[k] == ds[k - 1][l.start + k := vals[k - 1]];
    }
  }

  /** `ws` begins with the installs of the transaction and ends by clearing `head`. */
  ghost predicate AreInstallWrites(l: Layout, head: Block, homes: seq<nat>, vals: seq<Block>, ws: seq<Write>) {
    && |homes| == |vals|
    && |ws| == |homes| + 1
    && (forall i :: 0 <= i < |homes| ==> ws[i] == Write(homes[i], vals[i]))
    && ws[|homes|] == Write(l.start, PutHead(head, []))
  }

  lemma {:induction false} InstallPhase(l: Layout, base: Disk, homes: seq<nat>, vals: seq<Block>,
                                        ds: seq<Disk>, ws: seq<Write>, k: nat)
    requires ValidTxn(l, base, homes, vals)
    requires Steps(ds, ws) && k <= |homes|
    requires Committed(l, base, homes, vals, ds[0])
    requires AreInstallWrites(l, ds[0][l.start], homes, vals, ws)
    ensures Committed(l, base, homes, vals, ds[k])
    ensures ds[k][l.start] == ds[0][l.start]
    ensures forall i :: 0 <= i < k ==> ds[k][homes[i]] == vals[i]
  {
    if k > 0 {
      InstallPhase(l, base, homes, vals, ds, ws, k - 1);
      InstallOne(l, base, homes, vals, ds[k - 1], k - 1);
      assert ws[k - 1] == Write(homes[k - 1], vals[k - 1]);
    }
  }

  /** install_trans and the header clear: Committed until the very last write. */
  lemma InstallThenClear(l: Layout, base: Disk, homes: seq<nat>, vals: seq<Block>,
                         ds: seq<Disk>, ws: seq<Write>, k: nat)
    requires ValidTxn(l, base, homes, vals)
    requires Steps(ds, ws) && k <= |ws|
    requires Committed(l, base, homes, vals, ds[0])
    requires AreInstallWrites(l, ds[0][l.start], homes, vals, ws)
    ensures k < |ws| ==> Committed(l, base, homes, vals, ds[k])
    ensures k == |ws| ==> Installed(l, base, homes, vals, ds[k])
  {
    if k < |ws| {
      InstallPhase(l, base, homes, vals, ds, ws, k);
    } else {
      var n := |homes|;
      InstallPhase(l, base, homes, vals, ds, ws, n);
      ClearHead(l, base, homes, vals, ds[n]);
      assert ds[k] == ds[n][l.start := PutHead(ds[n][l.start], [])];
    }
  }

  /** The header write commits, and the writes after it are installs. */
  lemma HeadPhase(l: Layout, homes: seq<nat>, vals: seq<Block>, ds: seq<Disk>, ws: seq<Write>)
    requires Steps(ds, ws)
    requires ValidTxn(l, ds[0], homes, vals) && HeadIs(l, ds[0], [])
    requires AreCommitWrites(l, ds[0][l.start], homes, vals, ws)
    ensures Committed(l, ds[0], homes, vals, ds[|homes| + 1])
    ensures AreInstallWrites(l, ds[|homes| + 1][l.start], homes, vals, ws[|homes| + 1..])
  {
    var n := |homes|;
    FillPhase(l, homes, vals, ds, ws, n);
    SetHead(l, ds[0], homes, vals, ds[n]);
    assert ds[n + 1] == ds[n][l.start := PutHead(ds[n][l.start], homes)];
  }

  /** A crash after `k` writes of commit(): the header write (write number |homes|) decides. */
  lemma CommitPrefix(l: Layout, homes: seq<nat>, vals: seq<Block>, ds: seq<Disk>, ws: seq<Write>, k: nat)
    requires Steps(ds, ws) && k <= |ws|
    requires ValidTxn(l, ds[0], homes, vals) && HeadIs(l, ds[0], [])
    requires AreCommitWrites(l, ds[0][l.start], homes, vals, ws)
    ensures k <= |homes| ==> Uncommitted(l, ds[0], ds[k])
    ensures |homes| < k < |ws| ==> Committed(l, ds[0], homes, vals, ds[k])
    ensures k == |ws| ==> Installed(l, ds[0], homes, vals, ds[k])
  {
    var n := |homes|;
    if k <= n {
      FillPhase(l, homes, vals, ds, ws, k);
    } else {
      HeadPhase(l, homes, vals, ds, ws);
      var ds', ws' := ds[n + 1..], ws[n + 1..];
      assert Steps(ds', ws');
      InstallThenClear(l, ds[0], homes, vals, ds', ws', k - n - 1);
      assert ds[k] == ds'[k - n - 1];
    }
  }

  /** What the disk holds after `k` writes of commit(), block by block. */
  ghost predicate CommitDisk(l: Layout, base: Disk, homes: seq<nat>, vals: seq<Block>, d: Disk, k: nat)
    requires ValidTxn(l, base, homes, vals)
  {
    var n := |homes|;
    && |d| == |base|
    && d[l.start] == (if k <= n then base[l.start] else if k <= 2 * n + 1 then PutHead(base[l.start], homes)
                      else PutHead(PutHead(base[l.start], homes), []))
    && (forall i :: 0 <= i < n && i < k <= 2 * n + 1 ==> d[l.start + 1 + i] == vals[i])
    && (forall i :: 0 <= i < n && i + n + 1 < k ==> d[homes[i]] == vals[i])
    && (forall b :: 0 <= b < |d| && !l.Contains(b) && b !in homes ==> d[b] == base[b])
  }

  lemma CommitDiskIs(l: Layout, homes: seq<nat>, vals: seq<Block>, ds: seq<Disk>, ws: seq<Write>, k: nat)
    requires Steps(ds, ws) && k <= |ws|
    requires ValidTxn(l, ds[0], homes, vals) && HeadIs(l, ds[0], [])
    requires AreCommitWrites(l, ds[0][l.start], homes, vals, ws)
    ensures CommitDisk(l, ds[0], homes, vals, ds[k], k)
  {
    var n := |homes|;
    FillPhase(l, homes, vals, ds, ws, if k < n then k else n);
    if k > n {
      HeadPhase(l, homes, vals, ds, ws);
      assert ds[n + 1] == ds[n][l.start := PutHead(ds[n][l.start], homes)];
      var ds', ws' := ds[n + 1..], ws[n + 1..];
      assert Steps(ds', ws');
      InstallPhase(l, ds[0], homes, vals, ds', ws', if k <= 2 * n + 1 then k - n - 1 else n);
      if k == 2 * n + 2 {
        ClearHead(l, ds[0], homes, vals, ds'[n]);
        assert ds[k] == ds[k - 1][l.start := PutHead(ds[k - 1][l.start], [])];
      } else {
        assert ds'[k - n - 1] == ds[k];
      }
    }
  }

  // ---------- recovery, one write at a time ----------

  /** A disk in any of the three states can be recovered. */
  lemma CrashedIsRecoverable(l: Layout, base: Disk, homes: seq<nat>, vals: seq<Block>, d: Disk)
    requires ValidTxn(l, base, homes, vals)
    requires Uncommitted(l, base, d) || Committed(l, base, homes, vals, d) || Installed(l, base, homes, vals, d)
    ensures Recoverable(l, d)
    ensures Committed(l, base, homes, vals, d) ==> LoggedVals(l, d) == vals || homes == []
  {
    if Committed(l, base, homes, vals, d) {
      assert |LoggedVals(l, d)| == |vals|;
      assert forall i :: 0 <= i < |vals| ==> LoggedVals(l, d)[i] == vals[i];
    }
  }

  /** Recovery of a disk whose header is empty only clears the header again. */
  lemma RecoverEmpty(l: Layout, d: Disk, k: nat)
    requires Recoverable(l, d) && HeadIs(l, d, [])
    ensures var r := RecoverPrefix(l, d, k);
            HeadIs(l, r, []) && forall b :: 0 <= b < |d| && b != l.start ==> r[b] == d[b]
  {
    var ws := RecoveryWrites(l, d);
    var w := Write(l.start, PutHead(d[l.start], []));
    assert ws == [] + [w];
    ApplyAppend(d, [], w);
    HeadRoundTrip(d[l.start], []);
    assert ws[..0] == [];
  }

  lemma RecoveryWritesAt(l: Layout, d: Disk, homes: seq<nat>, vals: seq<Block>)
    requires Recoverable(l, d) && homes == GetHead(d[l.start]) && vals == LoggedVals(l, d)
    ensures AreInstallWrites(l, d[l.start], homes, vals, RecoveryWrites(l, d))
  {
  }

  /** A recovery crashing anywhere keeps a Committed disk Committed, and a complete
      one finishes it. */
  lemma RecoverCommitted(l: Layout, base: Disk, homes: seq<nat>, vals: seq<Block>, d: Disk, k: nat)
    requires ValidTxn(l, base, homes, vals) && homes != []
    requires Recoverable(l, d) && Committed(l, base, homes, vals, d)
    ensures var r := RecoverPrefix(l, d, k);
            if k <= |homes| then Committed(l, base, homes, vals, r) else Installed(l, base, homes, vals, r)
  {
    var ws := RecoveryWrites(l, d);
    CrashedIsRecoverable(l, base, homes, vals, d);
    RecoveryWritesAt(l, d, homes, vals);
    PrefixesStep(d, ws);
    InstallThenClear(l, base, homes, vals, Prefixes(d, ws), ws, if k < |ws| then k else |ws|);
    assert ws[..|ws|] == ws;
  }

  // ---------- any number of crashing recoveries, then a complete one ----------

  /** Every boot in a run of recoveries crashing after ks[0], ks[1], ... writes finds
      a log it can recover from. */
  ghost predicate BootsRecoverable(l: Layout, d: Disk, ks: seq<nat>)
    decreases |ks|
  {
    && Recoverable(l, d)
    && (ks != [] ==> BootsRecoverable(l, RecoverPrefix(l, d, ks[0]), ks[1..]))
  }

  /** The disk after recoveries that crash after ks[0], ks[1], ... of their writes. */
  ghost function AfterCrashes(l: Layout, d: Disk, ks: seq<nat>): Disk
    requires BootsRecoverable(l, d, ks)
    decreases |ks|
  {
    if ks == [] then d else AfterCrashes(l, RecoverPrefix(l, d, ks[0]), ks[1..])
  }

  lemma {:induction false} CrashesKeepOld(l: Layout, base: Disk, homes: seq<nat>, vals: seq<Block>, d: Disk, ks: seq<nat>)
    requires ValidTxn(l, base, homes, vals) && Uncommitted(l, base, d)
    ensures BootsRecoverable(l, d, ks) && Uncommitted(l, base, AfterCrashes(l, d, ks))
    ensures Recoverable(l, AfterCrashes(l, d, ks))
    decreases |ks|
  {
    CrashedIsRecoverable(l, base, homes, vals, d);
    if ks != [] {
      RecoverEmpty(l, d, ks[0]);
      CrashesKeepOld(l, base, homes, vals, RecoverPrefix(l, d, ks[0]), ks[1..]);
    }
  }

  lemma {:induction false} CrashesKeepNew(l: Layout, base: Disk, homes: seq<nat>, vals: seq<Block>, d: Disk, ks: seq<nat>)
    requires ValidTxn(l, base, homes, vals) && homes != []
    requires Committed(l, base, homes, vals, d) || Installed(l, base, homes, vals, d)
    ensures BootsRecoverable(l, d, ks)
    ensures var r := AfterCrashes(l, d, ks);
            Recoverable(l, r) && (Committed(l, base, homes, vals, r) || Installed(l, base, homes, vals, r))
    decreases |ks|
  {
    CrashedIsRecoverable(l, base, homes, vals, d);
    if ks != [] {
      if Committed(l, base, homes, vals, d) {
        RecoverCommitted(l, base, homes, vals, d, ks[0]);
      } else {
        RecoverEmpty(l, d, ks[0]);
      }
      CrashesKeepNew(l, base, homes, vals, RecoverPrefix(l, d, ks[0]), ks[1..]);
    }
  }

  lemma RecoverIsWholePrefix(l: Layout, d: Disk, k: nat)
    requires Recoverable(l, d) && k > |GetHead(d[l.start])|
    ensures Recover(l, d) == RecoverPrefix(l, d, k)
  {
  }

  lemma FinishOld(l: Layout, base: Disk, homes: seq<nat>, vals: seq<Block>, d: Disk, ks: seq<nat>)
    requires ValidTxn(l, base, homes, vals) && Uncommitted(l, base, d)
    ensures BootsRecoverable(l, d, ks) && Recoverable(l, AfterCrashes(l, d, ks))
    ensures Uncommitted(l, base, Recover(l, AfterCrashes(l, d, ks)))
  {
    CrashesKeepOld(l, base, homes, vals, d, ks);
    var e := AfterCrashes(l, d, ks);
    RecoverIsWholePrefix(l, e, 1);
    RecoverEmpty(l, e, 1);
  }

  lemma FinishNew(l: Layout, base: Disk, homes: seq<nat>, vals: seq<Block>, d: Disk, ks: seq<nat>)
    requires ValidTxn(l, base, homes, vals) && homes != []
    requires Committed(l, base, homes, vals, d) || Installed(l, base, homes, vals, d)
    ensures BootsRecoverable(l, d, ks) && Recoverable(l, AfterCrashes(l, d, ks))
    ensures Installed(l, base, homes, vals, Recover(l, AfterCrashes(l, d, ks)))
  {
    CrashesKeepNew(l, base, homes, vals, d, ks);
    var e := AfterCrashes(l, d, ks);
    if Committed(l, base, homes, vals, e) {
      RecoverIsWholePrefix(l, e, |homes| + 1);
      RecoverCommitted(l, base, homes, vals, e, |homes| + 1);
    } else {
      RecoverIsWholePrefix(l, e, 1);
      RecoverEmpty(l, e, 1);
    }
  }

  /** The disk when commit() crashes after `k` of its writes. */
  ghost function Crashed(l: Layout, base: Disk, homes: seq<nat>, vals: seq<Block>, k: nat): (d: Disk)
    requires ValidTxn(l, base, homes, vals) && HeadIs(l, base, [])
    requires k <= |CommitWrites(l, base[l.start], homes, vals)|
    ensures |d| == |base|
  {
    CommitWritesInRange(l, base, base[l.start], homes, vals);
    Apply(base, CommitWrites(l, base[l.start], homes, vals)[..k])
  }

  lemma CrashedKind(l: Layout, base: Disk, homes: seq<nat>, vals: seq<Block>, k: nat)
    requires ValidTxn(l, base, homes, vals) && HeadIs(l, base, [])
    requires k <= |CommitWrites(l, base[l.start], homes, vals)|
    ensures var d := Crashed(l, base, homes, vals, k);
            && (k <= |homes| ==> Uncommitted(l, base, d))
            && (k > |homes| ==> homes != [] && (Committed(l, base, homes, vals, d) || Installed(l, base, homes, vals, d)))
  {
    var ws := CommitWrites(l, base[l.start], homes, vals);
    CommitWritesInRange(l, base, base[l.start], homes, vals);
    PrefixesStep(base, ws);
    if homes != [] {
      CommitWritesAt(l, base[l.start], homes, vals);
      CommitPrefix(l, homes, vals, Prefixes(base, ws), ws, k);
    }
  }

  lemma CrashedIs(l: Layout, base: Disk, homes: seq<nat>, vals: seq<Block>, k: nat)
    requires ValidTxn(l, base, homes, vals) && HeadIs(l, base, [])
    requires k <= |CommitWrites(l, base[l.start], homes, vals)|
    ensures CommitDisk(l, base, homes, vals, Crashed(l, base, homes, vals, k), k)
  {
    var ws := CommitWrites(l, base[l.start], homes, vals);
    CommitWritesInRange(l, base, base[l.start], homes, vals);
    PrefixesStep(base, ws);
    if homes != [] {
      CommitWritesAt(l, base[l.start], homes, vals);
      CommitDiskIs(l, homes, vals, Prefixes(base, ws), ws, k);
    }
  }

  /** The next write of commit() takes the disk one step on. */
  lemma CrashedNext(l: Layout, base: Disk, homes: seq<nat>, vals: seq<Block>, k: nat)
    requires ValidTxn(l, base, homes, vals) && HeadIs(l, base, [])
    requires k < |CommitWrites(l, base[l.start], homes, vals)|
    ensures var w := CommitWrites(l, base[l.start], homes, vals)[k];
            w.blockno < |base| && Crashed(l, base, homes, vals, k + 1) == Crashed(l, base, homes, vals, k)[w.blockno := w.data]
  {
    var ws := CommitWrites(l, base[l.start], homes, vals);
    CommitWritesInRange(l, base, base[l.start], homes, vals);
    assert ws[..k + 1] == ws[..k] + [ws[k]];
    ApplyAppend(base, ws[..k], ws[k]);
  }

  /** Crash atomicity.  commit() of any transaction crashes after any `k` of its writes;
      any number of recoveries crash after ks[0], ks[1], ... writes; one recovery
      completes.  The home blocks are then all new if the committing header write
      (write number |homes|) was among the `k`, and all old otherwise; no other block
      outside the log changed, and the header is empty. */
  lemma CrashAtomicity(l: Layout, base: Disk, homes: seq<nat>, vals: seq<Block>, k: nat, ks: seq<nat>)
    requires ValidTxn(l, base, homes, vals) && HeadIs(l, base, [])
    requires k <= |CommitWrites(l, base[l.start], homes, vals)|
    ensures var d := Crashed(l, base, homes, vals, k);
            && BootsRecoverable(l, d, ks)
            && Recoverable(l, AfterCrashes(l, d, ks))
            && var r := Recover(l, AfterCrashes(l, d, ks));
            && HeadIs(l, r, [])
            && (if k <= |homes| then HomesOld(l, base, r) else HomesInstalled(l, base, homes, vals, r))
  {
    var d := Crashed(l, base, homes, vals, k);
    CrashedKind(l, base, homes, vals, k);
    if k <= |homes| {
      FinishOld(l, base, homes, vals, d, ks);
    } else {
      FinishNew(l, base, homes, vals, d, ks);
    }
  }

  /** A complete recovery leaves an empty log. */
  lemma RecoverEmpties(l: Layout, d: Disk)
    requires Recoverable(l, d)
    ensures Recoverable(l, Recover(l, d)) && HeadIs(l, Recover(l, d), [])
  {
    var homes, vals := GetHead(d[l.start]), LoggedVals(l, d);
    assert Committed(l, d, homes, vals, d);
    if homes == [] {
      RecoverIsWholePrefix(l, d, 1);
      RecoverEmpty(l, d, 1);
    } else {
      RecoverIsWholePrefix(l, d, |homes| + 1);
      RecoverCommitted(l, d, homes, vals, d, |homes| + 1);
    }
    hide Recover;
    hide RecoverPrefix;
    HeadIsRecoverable(l, d, Recover(l, d));
  }

  lemma HeadIsRecoverable(l: Layout, d: Disk, r: Disk)
    requires Recoverable(l, d) && |r| == |d| && HeadIs(l, r, [])
    ensures Recoverable(l, r)
  {
  }

  /** Recovering twice is recovering once. */
  lemma RecoverIdempotent(l: Layout, d: Disk)
    requires Recoverable(l, d)
    ensures Recoverable(l, Recover(l, d))
    ensures forall b :: 0 <= b < |d| && b != l.start ==> Recover(l, Recover(l, d))[b] == Recover(l, d)[b]
  {
    RecoverEmpties(l, d);
    var r := Recover(l, d);
    RecoverIsWholePrefix(l, r, 1);
    RecoverEmpty(l, r, 1);
  }
}

/**
  Group commit (kernel/log.c): begin_op, log_write, end_op and commit as the steps of
  a protocol between any number of processes.  A run is any sequence of steps each of
  which is enabled when it is taken.
 */
module LogProtocol {

  import opened Param

  /** What a process is doing: outside any operation, inside one that has added `used`
      blocks to the log so far, or running commit(). */
  datatype Op = Idle | Active(used: nat) | Committing

  datatype State = State(lh: seq<nat>, outstanding: int, committing: bool, ops: seq<Op>)

  datatype Step =
    | BeginOp(p: nat)
    | LogWrite(p: nat, b: nat)
    | EndOp(p: nat)
    | Commit(p: nat)

  function Init(nproc: nat): State {
    State([], 0, false, seq(nproc, _ => Idle))
  }

  /** The test under which begin_op lets an operation in rather than putting it to sleep. */
  predicate Admits(s: State) {
    !s.committing && |s.lh| + (s.outstanding + 1) * MAXOPBLOCKS <= LOGSIZE
  }

  /** A process may take this step now.  Operations keep to their budget: they add at
      most MAXOPBLOCKS blocks that were not in the log. */
  predicate Enabled(s: State, t: Step) {
    t.p < |s.ops| &&
    match t
    case BeginOp(p) => s.ops[p].Idle? && Admits(s)
    case LogWrite(p, b) => s.ops[p].Active? && (b in s.lh || s.ops[p].used < MAXOPBLOCKS)
    case EndOp(p) => s.ops[p].Active?
    case Commit(p) => s.ops[p].Committing?
  }

  /** The step ends in one of the panics of log.c; `size` is log.size. */
  predicate Panics(s: State, t: Step, size: nat) {
    match t
    case LogWrite(p, b) => |s.lh| >= LOGSIZE || |s.lh| >= size - 1 || s.outstanding < 1
    case EndOp(p) => s.committing
    case _ => false
  }

  function Do(s: State, t: Step): State
    requires Enabled(s, t)
  {
    match t
    case BeginOp(p) => s.(outstanding := s.outstanding + 1, ops := s.ops[p := Active(0)])
    case LogWrite(p, b) =>
      if b in s.lh then s
      else s.(lh := s.lh + [b], ops := s.ops[p := Active(s.ops[p].used + 1)])
    case EndOp(p) =>
      if s.outstanding - 1 == 0
      then s.(outstanding := 0, committing := true, ops := s.ops[p := Committing])
      else s.(outstanding := s.outstanding - 1, ops := s.ops[p := Idle])
    case Commit(p) => s.(lh := [], committing := false, ops := s.ops[p := Idle])
  }

  // ---------- runs ----------

  /** Every step of the run is enabled when it is taken. */
  ghost predicate IsRun(nproc: nat, steps: seq<Step>)
    decreases |steps|, 0
  {
    steps == [] ||
    var n := |steps| - 1;
    IsRun(nproc, steps[..n]) && Enabled(After(nproc, steps[..n]), steps[n])
  }

  ghost function After(nproc: nat, steps: seq<Step>): State
    requires IsRun(nproc, steps)
    decreases |steps|, 1
  {
    if steps == [] then Init(nproc)
    else
      var n := |steps| - 1;
      Do(After(nproc, steps[..n]), steps[n])
  }

  // ---------- reservations ----------

  /** Log blocks process `o` may still add. */
  function Unused(o: Op): int {
    if o.Active? then MAXOPBLOCKS - o.used else 0
  }

  ghost function Reserved(ops: seq<Op>): int {
    if ops == [] then 0 else Reserved(ops[..|ops| - 1]) + Unused(ops[|ops| - 1])
  }

  ghost function Actives(ops: seq<Op>): nat {
    if ops == [] then 0 else Actives(ops[..|ops| - 1]) + if ops[|ops| - 1].Active? then 1 else 0
  }

  ghost predicate WithinBudget(ops: seq<Op>) {
    forall i :: 0 <= i < |ops| && ops[i].Active? ==> ops[i].used <= MAXOPBLOCKS
  }

  lemma {:induction false} UpdateOne(ops: seq<Op>, p: nat, o: Op)
    requires p < |ops|
    ensures Reserved(ops[p := o]) == Reserved(ops) - Unused(ops[p]) + Unused(o)
    ensures Actives(ops[p := o]) == Actives(ops) - (if ops[p].Active? then 1 else 0) + (if o.Active? then 1 else 0)
    decreases |ops|
  {
    var n := |ops| - 1;
    if p == n {
      assert ops[p := o][..n] == ops[..n];
    } else {
      UpdateOne(ops[..n], p, o);
      assert ops[p := o][..n] == ops[..n][p := o];
    }
  }

  lemma {:induction false} ReservedBounds(ops: seq<Op>)
    requires WithinBudget(ops)
    ensures 0 <= Reserved(ops) <= Actives(ops) * MAXOPBLOCKS
  {
    if ops != [] { ReservedBounds(ops[..|ops| - 1]); }
  }

  lemma {:induction false} ActiveCounts(ops: seq<Op>, p: nat)
    requires p < |ops| && ops[p].Active?
    ensures Actives(ops) >= 1
    decreases |ops|
  {
    if p < |ops| - 1 { ActiveCounts(ops[..|ops| - 1], p); }
  }

  lemma {:induction false} ReservedAtLeast(ops: seq<Op>, p: nat)
    requires p < |ops| && WithinBudget(ops)
    ensures Reserved(ops) >= Unused(ops[p])
    decreases |ops|
  {
    var n := |ops| - 1;
    ReservedBounds(ops[..n]);
    if p < n { ReservedAtLeast(ops[..n], p); }
  }

  lemma {:induction false} NoneActive(ops: seq<Op>)
    requires forall i :: 0 <= i < |ops| ==> ops[i] == Idle
    ensures Reserved(ops) == 0 && Actives(ops) == 0
  {
    if ops != [] { NoneActive(ops[..|ops| - 1]); }
  }

  // ---------- the invariant ----------

  /** The blocks in the log plus every unused reservation fit; log entries are distinct;
      a commit runs alone. */
  ghost predicate Inv(s: State) {
    && s.outstanding == Actives(s.ops)
    && WithinBudget(s.ops)
    && |s.lh| + Reserved(s.ops) <= LOGSIZE
    && (forall i, j :: 0 <= i < j < |s.lh| ==> s.lh[i] != s.lh[j])
    && (s.committing ==> s.outstanding == 0)
    && (s.committing <==> exists i :: 0 <= i < |s.ops| && s.ops[i].Committing?)
    && (forall i, j :: 0 <= i < j < |s.ops| ==> !(s.ops[i].Committing? && s.ops[j].Committing?))
  }

  lemma StepKeepsInv(s: State, t: Step)
    requires Inv(s) && Enabled(s, t)
    ensures Inv(Do(s, t))
  {
    var p, s' := t.p, Do(s, t);
    UpdateOne(s.ops, p, s'.ops[p]);
    assert s'.ops == s.ops[p := s'.ops[p]];
    match t
    case BeginOp(_) => ReservedBounds(s.ops);
    case LogWrite(_, b) => ActiveCounts(s.ops, p);
    case EndOp(_) =>
      ActiveCounts(s.ops, p);
      ReservedAtLeast(s.ops, p);
      if s'.committing { assert s'.ops[p].Committing?; }
    case Commit(_) => ReservedBounds(s.ops);
  }

  /** Over every run: the log plus all unused reservations never exceed LOGSIZE, log
      entries stay distinct, and commit runs only while no operation is outstanding. */
  lemma {:induction false} RunKeepsInv(nproc: nat, steps: seq<Step>)
    requires IsRun(nproc, steps)
    ensures Inv(After(nproc, steps))
  {
    if steps == [] {
      NoneActive(Init(nproc).ops);
    } else {
      var n := |steps| - 1;
      RunKeepsInv(nproc, steps[..n]);
      StepKeepsInv(After(nproc, steps[..n]), steps[n]);
    }
  }

  /** Which panics a run can reach.  end_op never panics.  log_write of a block that is
      new to the log panics exactly when the log area is too small for what is already
      there; with log.size > LOGSIZE it never does.  log_write of a block already in the
      log panics, although it needs no room, exactly when the log is full. */
  lemma PanicsReached(nproc: nat, steps: seq<Step>, t: Step, size: nat)
    requires IsRun(nproc, steps) && Enabled(After(nproc, steps), t)
    ensures t.EndOp? ==> !Panics(After(nproc, steps), t, size)
    ensures var s := After(nproc, steps);
            t.LogWrite? && t.b !in s.lh ==> (Panics(s, t, size) <==> |s.lh| >= size - 1)
    ensures t.LogWrite? && t.b !in After(nproc, steps).lh && size > LOGSIZE ==> !Panics(After(nproc, steps), t, size)
    ensures var s := After(nproc, steps);
            t.LogWrite? && t.b in s.lh ==> (Panics(s, t, size) <==> |s.lh| == LOGSIZE || |s.lh| >= size - 1)
  {
    var s := After(nproc, steps);
    RunKeepsInv(nproc, steps);
    if t.LogWrite? || t.EndOp? {
      ActiveCounts(s.ops, t.p);
      ReservedAtLeast(s.ops, t.p);
      ReservedBounds(s.ops);
    }
  }

  // ---------- the log can fill up ----------

  /** Three operations are in, and together have logged blocks base..base+k-1. */
  ghost function Filling(base: nat, k: nat): State
    requires k <= LOGSIZE
  {
    State(seq(k, i => base + i), 3, false,
          [Active(if k < 10 then k else 10),
           Active(if k < 10 then 0 else if k < 20 then k - 10 else 10),
           Active(if k < 20 then 0 else k - 20)])
  }

  lemma {:induction false} FillingReached(base: nat, k: nat) returns (steps: seq<Step>)
    requires k <= LOGSIZE
    ensures IsRun(3, steps) && After(3, steps) == Filling(base, k)
  {
    if k == 0 {
      var a, b, c := BeginOp(0), BeginOp(1), BeginOp(2);
      RunOne(3, [], a);
      RunOne(3, [a], b);
      RunOne(3, [a, b], c);
      assert [] + [a] == [a] && [a] + [b] == [a, b] && [a, b] + [c] == [a, b, c];
      return [a, b, c];
    } else {
      var before := FillingReached(base, k - 1);
      var t := LogWrite(if k <= 10 then 0 else if k <= 20 then 1 else 2, base + k - 1);
      RunOne(3, before, t);
      assert Filling(base, k - 1).lh + [base + k - 1] == Filling(base, k).lh;
      return before + [t];
    }
  }

  lemma RunOne(nproc: nat, steps: seq<Step>, t: Step)
    requires IsRun(nproc, steps) && Enabled(After(nproc, steps), t)
    ensures IsRun(nproc, steps + [t])
    ensures After(nproc, steps + [t]) == Do(After(nproc, steps), t)
  {
    assert (steps + [t])[..|steps|] == steps;
  }

  /** log.size > LOGSIZE is needed: with any smaller log area (mkfs lays out LOGSIZE
      blocks) three operations within their budgets can reach the panic. */
  lemma SmallLogPanics(size: nat) returns (steps: seq<Step>, t: Step)
    requires 0 < size <= LOGSIZE
    ensures IsRun(3, steps) && Enabled(After(3, steps), t)
    ensures t.LogWrite? && t.b !in After(3, steps).lh
    ensures Panics(After(3, steps), t, size)
  {
    var k := size - 1;
    steps := FillingReached(0, k);
    t := LogWrite(if k < 10 then 0 else if k < 20 then 1 else 2, k);
  }

  /** However large the log area, re-logging a block can panic once the log is full. */
  lemma AbsorptionPanics(size: nat) returns (steps: seq<Step>, t: Step)
    ensures IsRun(3, steps) && Enabled(After(3, steps), t)
    ensures t.LogWrite? && t.b in After(3, steps).lh
    ensures Panics(After(3, steps), t, size)
  {
    steps := FillingReached(0, LOGSIZE);
    t := LogWrite(0, 0);
    assert Filling(0, LOGSIZE).lh[0] == 0;
  }
}

/**
  Sleep-locks (kernel/sleeplock.c) over sleep, wakeup and kill (kernel/proc.c), as
  interleaved steps of any number of processes.  A step is what happens between two points
  where another process can see a difference; spinlocks are guards.
 */
module SleepLock {
  import opened Util

  /** Where a process is in acquiresleep or releasesleep. */
  datatype Pc =
    | Idle
    | Testing       // acquiresleep holds lk->lk and looks at lk->locked
    | Sleeping0     // sleep() is about to acquire p->lock
    | Sleeping1     // ... about to release lk->lk
    | Sleeping2     // ... about to set p->chan and p->state
    | Sleeping3     // ... about to sched(), p->state is SLEEPING
    | Off           // off the CPU
    | Waking        // sched() has returned, holding p->lock
    | Retaking      // about to acquire lk->lk again
    | Locking       // lk->locked is set, lk->lk about to be released
    | Holding       // acquiresleep has returned
    | Unlocking     // releasesleep holds lk->lk
    | Scan(i: nat)  // wakeup() is about to look at process i
    | Peek(i: nat)  // ... and holds its p->lock
    | Leaving       // wakeup() is done, lk->lk about to be released

  /** p->state, as far as sleep and wakeup see it. */
  datatype Run = Running | Asleep | Runnable

  /** lk->lk's and each p->lock's holder, lk->locked, lk->pid, and each process: where it is,
      p->state, and whether p->chan is the lock. */
  datatype State = State(spin: Option<nat>, plock: seq<Option<nat>>, locked: bool, pid: Option<nat>,
                         pc: seq<Pc>, run: seq<Run>, chan: seq<bool>)

  datatype Event =
    | Go(p: nat)        // process p makes its next step
    | Schedule(p: nat)  // the scheduler acquires p->lock and switches to p
    | Kill(p: nat)      // some other process kills p

  ghost predicate Shaped(s: State) {
    |s.plock| == |s.pc| == |s.run| == |s.chan|
  }

  ghost predicate Enabled(s: State, e: Event)
    requires Shaped(s)
  {
    && e.p < |s.pc|
    && match e
       case Go(p) =>
         match s.pc[p] {
           case Idle | Retaking | Holding => s.spin == None
           case Sleeping0 => s.plock[p] == None
           case Off => false
           case Scan(i) => i < |s.pc| && i != p ==> s.plock[i] == None
           case _ => true
         }
       case Schedule(p) => s.pc[p] == Off && s.run[p] == Runnable && s.plock[p] == None
       case Kill(p) => s.plock[p] == None
  }

  function At(s: State, p: nat, pc: Pc): State
    requires p < |s.pc|
  {
    s.(pc := s.pc[p := pc])
  }

  function Do(s: State, e: Event): State
    requires |s.plock| == |s.pc| == |s.run| == |s.chan| && e.p < |s.pc|
  {
    match e
    case Go(p) =>
      (match s.pc[p] {
         case Idle => At(s.(spin := Some(p)), p, Testing)
         case Testing => if s.locked then At(s, p, Sleeping0) else At(s.(locked := true, pid := Some(p)), p, Locking)
         case Sleeping0 => At(s.(plock := s.plock[p := Some(p)]), p, Sleeping1)
         case Sleeping1 => At(s.(spin := None), p, Sleeping2)
         case Sleeping2 => At(s.(chan := s.chan[p := true], run := s.run[p := Asleep]), p, Sleeping3)
         case Sleeping3 => At(s.(plock := s.plock[p := None]), p, Off)
         case Off => s
         case Waking => At(s.(chan := s.chan[p := false], plock := s.plock[p := None]), p, Retaking)
         case Retaking => At(s.(spin := Some(p)), p, Testing)
         case Locking => At(s.(spin := None), p, Holding)
         case Holding => At(s.(spin := Some(p)), p, Unlocking)
         case Unlocking => At(s.(locked := false, pid := None), p, Scan(0))
         case Scan(i) =>
           if i >= |s.pc| then At(s, p, Leaving)
           else if i == p then At(s, p, Scan(i + 1))
           else At(s.(plock := s.plock[i := Some(p)]), p, Peek(i))
         case Peek(i) =>
           if i < |s.pc| then
             At(s.(run := if s.run[i] == Asleep && s.chan[i] then s.run[i := Runnable] else s.run, plock := s.plock[i := None]), p, Scan(i + 1))
           else s
         case Leaving => At(s.(spin := None), p, Idle)
       })
    case Schedule(p) => At(s.(plock := s.plock[p := Some(p)], run := s.run[p := Running]), p, Waking)
    case Kill(p) => if s.run[p] == Asleep then s.(run := s.run[p := Runnable]) else s
  }

  // ---------- the invariant ----------

  /** The program points that hold lk->lk. */
  predicate HasSpin(pc: Pc) {
    pc.Testing? || pc.Sleeping0? || pc.Sleeping1? || pc.Locking? || pc.Unlocking? || pc.Scan? || pc.Peek? || pc.Leaving?
  }

  /** The program points that hold the process's own p->lock. */
  predicate HasOwnLock(pc: Pc) {
    pc.Sleeping1? || pc.Sleeping2? || pc.Sleeping3? || pc.Waking?
  }

  /** The program points between lk->locked = 1 and lk->locked = 0. */
  predicate Owns(pc: Pc) {
    pc.Locking? || pc.Holding? || pc.Unlocking?
  }

  /** SLEEPING on the lock, or between sleep's release(lk) and its sched(). */
  predicate InSleep(s: State, p: nat)
    requires p < |s.pc| == |s.run|
  {
    s.pc[p].Sleeping2? || s.pc[p].Sleeping3? || (s.pc[p].Off? && s.run[p].Asleep?)
  }

  /** wakeup() will still look at process `p`. */
  predicate Scanning(pc: Pc, p: nat) {
    (pc.Scan? || pc.Peek?) && pc.i <= p
  }

  ghost predicate ProcOk(s: State, p: nat)
    requires Shaped(s) && p < |s.pc|
  {
    var pc := s.pc[p];
    && (HasSpin(pc) <==> s.spin == Some(p))
    && (Owns(pc) <==> s.locked && s.pid == Some(p))
    && (HasOwnLock(pc) ==> s.plock[p] == Some(p))
    && (s.plock[p].Some? ==> s.plock[p].value < |s.pc| && if s.plock[p].value == p then HasOwnLock(pc) else s.pc[s.plock[p].value] == Peek(p))
    && (pc.Peek? ==> pc.i < |s.pc| && pc.i != p && s.plock[pc.i] == Some(p))
    && (pc.Scan? ==> pc.i <= |s.pc|)
    && (pc.Scan? || pc.Peek? || pc.Leaving? ==> !s.locked)
    && (pc.Sleeping0? || pc.Sleeping1? ==> s.locked)
    && (s.run[p].Asleep? ==> s.chan[p] && (pc.Sleeping3? || pc.Off?))
    && (pc.Sleeping3? ==> s.run[p].Asleep?)
    && (pc.Off? ==> !s.run[p].Running?)
    && (InSleep(s, p) ==> s.locked || (s.spin.Some? && s.spin.value < |s.pc| && Scanning(s.pc[s.spin.value], p)))
  }

  ghost predicate Inv(s: State) {
    && Shaped(s)
    && (s.locked <==> s.pid.Some?)
    && (s.pid.Some? ==> s.pid.value < |s.pc|)
    && (s.spin.Some? ==> s.spin.value < |s.pc|)
    && forall p: nat :: p < |s.pc| ==> ProcOk(s, p)
  }

  ghost predicate Initial(s: State) {
    && Shaped(s) && s.spin == None && !s.locked && s.pid == None
    && forall p :: 0 <= p < |s.pc| ==> s.plock[p] == None && s.pc[p] == Idle && s.run[p] == Running && !s.chan[p]
  }

  /** What a step's proof needs to know of the other processes. */
  lemma Neighbours(s: State, e: Event, p: nat)
    requires Inv(s) && e.p < |s.pc| && p < |s.pc|
    ensures ProcOk(s, p) && ProcOk(s, e.p)
    ensures s.spin.Some? ==> s.spin.value < |s.pc| && ProcOk(s, s.spin.value)
    ensures s.pid.Some? ==> s.pid.value < |s.pc| && ProcOk(s, s.pid.value)
  {
    hide ProcOk;
  }

  /** Taking lk->lk. */
  lemma EnterKeeps(s: State, e: Event, p: nat)
    requires Inv(s) && Enabled(s, e) && p < |s.pc|
    requires e.Go? && (s.pc[e.p].Idle? || s.pc[e.p].Retaking? || s.pc[e.p].Holding?)
    ensures ProcOk(Do(s, e), p)
  {
    Neighbours(s, e, p);
  }

  /** Finding the lock free or taken, and returning with it. */
  lemma TestKeeps(s: State, e: Event, p: nat)
    requires Inv(s) && Enabled(s, e) && p < |s.pc|
    requires e.Go? && (s.pc[e.p].Testing? || s.pc[e.p].Locking?)
    ensures ProcOk(Do(s, e), p)
  {
    Neighbours(s, e, p);
  }

  /** Giving the lock up, and returning from releasesleep. */
  lemma UnlockKeeps(s: State, e: Event, p: nat)
    requires Inv(s) && Enabled(s, e) && p < |s.pc|
    requires e.Go? && (s.pc[e.p].Unlocking? || s.pc[e.p].Leaving?)
    ensures ProcOk(Do(s, e), p)
  {
    Neighbours(s, e, p);
  }

  /** Going to sleep. */
  lemma SleepKeeps(s: State, e: Event, p: nat)
    requires Inv(s) && Enabled(s, e) && p < |s.pc|
    requires e.Go? && (s.pc[e.p].Sleeping0? || s.pc[e.p].Sleeping1? || s.pc[e.p].Sleeping2?)
    ensures ProcOk(Do(s, e), p)
  {
    Neighbours(s, e, p);
  }

  /** Leaving the CPU, and returning from sched. */
  lemma SwitchKeeps(s: State, e: Event, p: nat)
    requires Inv(s) && Enabled(s, e) && p < |s.pc|
    requires e.Go? && (s.pc[e.p].Sleeping3? || s.pc[e.p].Waking?)
    ensures ProcOk(Do(s, e), p)
  {
    Neighbours(s, e, p);
    hide Inv;
    if p == e.p {
    } else if s.pc[e.p].Waking? {
    }
  }

  /** wakeup moves on to the next process. */
  lemma ScanKeeps(s: State, e: Event, p: nat)
    requires Inv(s) && Enabled(s, e) && p < |s.pc|
    requires e.Go? && s.pc[e.p].Scan?
    ensures ProcOk(Do(s, e), p)
  {
    Neighbours(s, e, p);
  }

  /** wakeup looks at a process. */
  lemma PeekKeeps(s: State, e: Event, p: nat)
    requires Inv(s) && Enabled(s, e) && p < |s.pc|
    requires e.Go? && s.pc[e.p].Peek?
    ensures ProcOk(Do(s, e), p)
  {
    Neighbours(s, e, p);
  }

  /** The scheduler and kill. */
  lemma OtherKeeps(s: State, e: Event, p: nat)
    requires Inv(s) && Enabled(s, e) && p < |s.pc|
    requires !e.Go?
    ensures ProcOk(Do(s, e), p)
  {
    Neighbours(s, e, p);
  }

  lemma StepKeepsInv(s: State, e: Event)
    requires Inv(s) && Enabled(s, e)
    ensures Inv(Do(s, e))
  {
    var s' := Do(s, e);
    assert ProcOk(s, e.p);
    hide ProcOk;
    forall p: nat | p < |s.pc| ensures ProcOk(s', p) {
      match e {
        case Schedule(_) => OtherKeeps(s, e, p);
        case Kill(_) => OtherKeeps(s, e, p);
        case Go(q) =>
          match s.pc[q] {
            case Idle | Retaking | Holding => EnterKeeps(s, e, p);
            case Testing | Locking => TestKeeps(s, e, p);
            case Unlocking | Leaving => UnlockKeeps(s, e, p);
            case Sleeping0 | Sleeping1 | Sleeping2 => SleepKeeps(s, e, p);
            case Sleeping3 | Waking => SwitchKeeps(s, e, p);
            case Scan(_) => ScanKeeps(s, e, p);
            case Peek(_) => PeekKeeps(s, e, p);
            case Off =>
          }
      }
    }
  }

  // ---------- every run ----------

  ghost predicate IsRun(ss: seq<State>, es: seq<Event>) {
    && |ss| == |es| + 1
    && Initial(ss[0])
    && forall k :: 0 <= k < |es| ==> Shaped(ss[k]) && Enabled(ss[k], es[k]) && ss[k + 1] == Do(ss[k], es[k])
  }

  lemma {:induction false} RunKeepsInv(ss: seq<State>, es: seq<Event>, k: nat)
    requires IsRun(ss, es) && k <= |es|
    ensures Inv(ss[k])
  {
    if k > 0 {
      RunKeepsInv(ss, es, k - 1);
      hide Inv;
      hide Do;
      hide Enabled;
      StepKeepsInv(ss[k - 1], es[k - 1]);
    }
  }

  /** At most one process is between lk->locked = 1 and lk->locked = 0. */
  lemma MutualExclusion(ss: seq<State>, es: seq<Event>, k: nat, p: nat, q: nat)
    requires IsRun(ss, es) && k <= |es| && p < |ss[k].pc| && q < |ss[k].pc|
    requires Owns(ss[k].pc[p]) && Owns(ss[k].pc[q])
    ensures p == q
  {
    RunKeepsInv(ss, es, k);
    assert ProcOk(ss[k], p) && ProcOk(ss[k], q);
  }

  /** No lost wakeup: while nobody holds lk->lk and the lock is free, no process is asleep on
      it or on its way from sleep's release(lk) to sched. */
  lemma NoLostWakeup(ss: seq<State>, es: seq<Event>, k: nat, p: nat)
    requires IsRun(ss, es) && k <= |es| && p < |ss[k].pc| == |ss[k].run|
    requires ss[k].spin == None && !ss[k].locked
    ensures !InSleep(ss[k], p)
  {
    RunKeepsInv(ss, es, k);
    assert ProcOk(ss[k], p);
  }

  /** What holdingsleep computes is whether the caller owns the lock. */
  lemma HoldingSleepTells(ss: seq<State>, es: seq<Event>, k: nat, p: nat)
    requires IsRun(ss, es) && k <= |es| && p < |ss[k].pc|
    ensures ss[k].locked && ss[k].pid == Some(p) <==> Owns(ss[k].pc[p])
  {
    RunKeepsInv(ss, es, k);
    assert ProcOk(ss[k], p);
  }

  /** A step that is not a kill and not the start of a new acquiresleep. */
  ghost predicate Progress(s: State, e: Event)
    requires Shaped(s)
  {
    Enabled(s, e) && !e.Kill? && s.pc[e.p] != Idle
  }

  /** No deadlock: as long as some process is inside, some process inside can go on. */
  lemma SomebodyCanGo(ss: seq<State>, es: seq<Event>, k: nat, p: nat) returns (e: Event)
    requires IsRun(ss, es) && k <= |es| && p < |ss[k].pc| && ss[k].pc[p] != Idle
    ensures Shaped(ss[k]) && Progress(ss[k], e)
  {
    RunKeepsInv(ss, es, k);
    hide IsRun;
    var s := ss[k];
    if s.spin.Some? {
      e := SpinHolderGoes(s, s.spin.value);
    } else if s.pc[p].Off? && s.run[p].Asleep? {
      assert ProcOk(s, p) && ProcOk(s, s.pid.value);
      e := Go(s.pid.value);
    } else if s.pc[p].Off? {
      assert ProcOk(s, p);
      assert s.plock[p].Some? ==> ProcOk(s, s.plock[p].value);
      e := Schedule(p);
    } else {
      assert ProcOk(s, p);
      e := Go(p);
    }
  }

  lemma SpinHolderGoes(s: State, q: nat) returns (e: Event)
    requires Inv(s) && q < |s.pc| && s.spin == Some(q)
    ensures Progress(s, e)
  {
    assert ProcOk(s, q);
    if s.pc[q].Scan? && s.pc[q].i < |s.pc| && s.pc[q].i != q && s.plock[s.pc[q].i].Some? {
      var i := s.pc[q].i;
      assert ProcOk(s, i) && ProcOk(s, s.plock[i].value);
      e := Go(i);
    } else {
      assert s.plock[q].Some? ==> ProcOk(s, s.plock[q].value);
      e := Go(q);
    }
  }
}

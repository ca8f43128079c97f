/**
  fork, exit and wait (kernel/proc.c) as interleaved steps of the processes of a table of
  any size.  wait_lock and each p->lock are guards; a step is what happens between two
  points where another process can see a difference.
 */
module ExitWait {
  import opened Util

  datatype St = Unused | Used | Sleeping | Runnable | Running | Zombie

  /** Where a process is. */
  datatype Pc =
    | Unborn                   // its slot is free, or a fork is filling it
    | New                      // made by fork, not scheduled yet
    | Forkret                  // first scheduled, about to release its p->lock
    | User
    | Fork1(np: nat)           // allocproc has returned np with np->lock held
    | Fork2(np: nat)           // ... about to acquire wait_lock
    | Fork3(np: nat)           // ... about to set np->parent
    | Fork4(np: nat)           // ... about to release wait_lock
    | Fork5(np: nat)           // ... about to make np RUNNABLE
    | Reparent(i: nat)         // exit's reparent is about to look at slot i
    | RewakeInit(i: nat)       // ... has given slot i to init, about to wake init
    | WakeParent               // exit is about to wake its parent
    | LockSelf                 // ... about to acquire its own p->lock
    | Dying                    // ... about to become a ZOMBIE
    | Unlock                   // ... about to release wait_lock
    | LastSched                // ... about to switch away for good
    | Dead                     // off the CPU for good
    | Scan(i: nat, kids: bool) // wait is about to look at slot i
    | Look(i: nat, kids: bool) // ... and holds that child's p->lock
    | WaitOut                  // wait is about to release wait_lock and return
    | Sleep0                   // wait's sleep is about to acquire p->lock
    | Sleep1                   // ... about to release wait_lock
    | Sleep2                   // ... about to set p->chan and p->state
    | Sleep3                   // ... about to sched()
    | Off                      // off the CPU in wait's sleep
    | Waking                   // sched() has returned, holding p->lock
    | Retake                   // about to acquire wait_lock again

  /** Whether a timer interrupt has taken the CPU from a process, between two of its steps. */
  datatype Away =
    | Here
    | Preempted                // yield has made it RUNNABLE and switched away
    | Resuming                 // yield's sched() has returned, holding p->lock

  const INIT: nat := 0

  /** A slot of the process table: the holder of p->lock, p->state, p->parent, where the
      process is, whether it is preempted there, who is filling the slot, and how often its
      processes exited and were reaped. */
  datatype Proc = Proc(lock: Option<nat>, st: St, parent: Option<nat>, pc: Pc, away: Away, maker: nat, exits: nat, reaps: nat)

  /** The holder of wait_lock, and the table. */
  datatype State = State(wl: Option<nat>, procs: seq<Proc>)

  datatype Event =
    | Fork(p: nat, np: nat)        // allocproc finds slot np
    | Exit(p: nat)
    | Wait(p: nat)
    | Go(p: nat, choice: bool)     // p's next step; choice: an allocation or copyout fails, or p was killed
    | Schedule(p: nat)             // the scheduler acquires p->lock and switches to p
    | Kill(p: nat)                 // some other process kills p
    | Yield(p: nat)                // a timer interrupt: p gives up the CPU

  predicate Shaped(s: State) {
    INIT < |s.procs|
  }

  /** In exit. */
  predicate IsExit(pc: Pc) {
    pc.Reparent? || pc.RewakeInit? || pc.WakeParent? || pc.LockSelf? || pc.Dying? || pc.Unlock? || pc.LastSched?
  }

  predicate IsFork(pc: Pc) {
    pc.Fork1? || pc.Fork2? || pc.Fork3? || pc.Fork4? || pc.Fork5?
  }

  /** Where interrupts are on: the process holds no spin-lock. */
  predicate Preemptible(pc: Pc) {
    pc.User? || pc.Fork2? || pc.Fork5? || pc.Retake?
  }

  /** When each step can happen: the locks it takes are free. */
  predicate Enabled(s: State, e: Event)
    requires Shaped(s)
  {
    && e.p < |s.procs|
    && var p := e.p;
    match e
    case Fork(_, np) => s.procs[p].pc == User && s.procs[p].away == Here && np < |s.procs| && s.procs[np].lock == None && s.procs[np].st == Unused
    case Exit(_) => s.procs[p].pc == User && s.procs[p].away == Here && p != INIT && s.wl == None
    case Wait(_) => s.procs[p].pc == User && s.procs[p].away == Here && s.wl == None
    case Schedule(_) => s.procs[p].st == Runnable && s.procs[p].lock == None
    case Kill(_) => s.procs[p].lock == None
    case Yield(_) => Preemptible(s.procs[p].pc) && s.procs[p].away == Here && s.procs[p].lock == None
    case Go(_, _) =>
      s.procs[p].away != Preempted &&
      (s.procs[p].away == Here ==>
      match s.procs[p].pc {
        case Unborn | New | User | Dead | Off => false
        case Fork2(_) => s.wl == None
        case Fork5(np) => np < |s.procs| && s.procs[np].lock == None
        case RewakeInit(_) => s.procs[INIT].lock == None
        case WakeParent => s.procs[p].parent.Some? && s.procs[p].parent.value < |s.procs| && s.procs[s.procs[p].parent.value].lock == None
        case LockSelf | Sleep0 => s.procs[p].lock == None
        case Scan(i, _) => i < |s.procs| && s.procs[i].parent == Some(p) ==> s.procs[i].lock == None
        case Retake => s.wl == None
        case _ => true
      })
  }

  function Set(s: State, p: nat, proc: Proc): State
    requires p < |s.procs|
  {
    s.(procs := s.procs[p := proc])
  }

  function At(s: State, p: nat, pc: Pc): State
    requires p < |s.procs|
  {
    Set(s, p, s.procs[p].(pc := pc))
  }

  /** wakeup(q), for the address of process q: only q itself ever sleeps on it. */
  function Wakeup(s: State, q: nat): State
    requires q < |s.procs|
  {
    if s.procs[q].st == Sleeping then Set(s, q, s.procs[q].(st := Runnable)) else s
  }

  /** freeproc, then release of the slot's p->lock. */
  function Freed(proc: Proc): Proc {
    proc.(st := Unused, parent := None, lock := None, pc := Unborn)
  }

  function Do(s: State, e: Event): State
    requires Shaped(s) && Enabled(s, e)
  {
    var p := e.p;
    match e
    case Fork(_, np) => At(Set(s, np, s.procs[np].(lock := Some(p), st := Used, maker := p)), p, Fork1(np))
    case Exit(_) => At(s, p, Reparent(0)).(wl := Some(p))
    case Wait(_) => At(s, p, Scan(0, false)).(wl := Some(p))
    case Schedule(_) => Set(s, p, Scheduled(s.procs[p], p))
    case Kill(_) => Wakeup(s, p)
    case Yield(_) => Set(s, p, s.procs[p].(st := Runnable, away := Preempted))
    case Go(_, choice) => if s.procs[p].away == Here then Next(s, p, choice) else Set(s, p, s.procs[p].(lock := None, away := Here))
  }

  /** The scheduler has switched to the process, whose sched() returns holding p->lock. */
  function Scheduled(proc: Proc, p: nat): Proc {
    if proc.away == Preempted then proc.(lock := Some(p), st := Running, away := Resuming)
    else proc.(lock := Some(p), st := Running, pc := if proc.pc == New then Forkret else Waking)
  }

  function Next(s: State, p: nat, choice: bool): State
    requires Shaped(s) && p < |s.procs|
  {
    var n, me := |s.procs|, s.procs[p];
    match me.pc
    case Forkret => Set(s, p, me.(lock := None, pc := User))
    case Fork1(np) =>
      if np >= n then s
      else if choice then At(Set(s, np, Freed(s.procs[np])), p, User)
      else At(Set(s, np, s.procs[np].(lock := None)), p, Fork2(np))
    case Fork2(np) => At(s, p, Fork3(np)).(wl := Some(p))
    case Fork3(np) => if np >= n then s else At(Set(s, np, s.procs[np].(parent := Some(p))), p, Fork4(np))
    case Fork4(np) => At(s, p, Fork5(np)).(wl := None)
    case Fork5(np) => if np >= n then s else At(Set(s, np, s.procs[np].(st := Runnable, pc := New)), p, User)
    case Reparent(i) =>
      if i >= n then At(s, p, WakeParent)
      else if s.procs[i].parent == Some(p) then At(Set(s, i, s.procs[i].(parent := Some(INIT))), p, RewakeInit(i))
      else At(s, p, Reparent(i + 1))
    case RewakeInit(i) => At(Wakeup(s, INIT), p, Reparent(i + 1))
    case WakeParent =>
      if me.parent.Some? && me.parent.value < n then At(Wakeup(s, me.parent.value), p, LockSelf) else s
    case LockSelf => Set(s, p, me.(lock := Some(p), pc := Dying))
    case Dying => Set(s, p, me.(st := Zombie, exits := me.exits + 1, pc := Unlock))
    case Unlock => At(s, p, LastSched).(wl := None)
    case LastSched => Set(s, p, me.(lock := None, pc := Dead))
    case Scan(i, kids) =>
      if i < n then
        if s.procs[i].parent == Some(p) then At(Set(s, i, s.procs[i].(lock := Some(p))), p, Look(i, kids))
        else At(s, p, Scan(i + 1, kids))
      else if !kids || choice then At(s, p, WaitOut)
      else At(s, p, Sleep0)
    case Look(i, kids) =>
      if i >= n then s
      else if s.procs[i].st != Zombie then At(Set(s, i, s.procs[i].(lock := None)), p, Scan(i + 1, true))
      else if choice then At(Set(s, i, s.procs[i].(lock := None)), p, WaitOut)
      else At(Set(s, i, Freed(s.procs[i].(reaps := s.procs[i].reaps + 1))), p, WaitOut)
    case WaitOut => At(s, p, User).(wl := None)
    case Sleep0 => Set(s, p, me.(lock := Some(p), pc := Sleep1))
    case Sleep1 => At(s, p, Sleep2).(wl := None)
    case Sleep2 => Set(s, p, me.(st := Sleeping, pc := Sleep3))
    case Sleep3 => Set(s, p, me.(lock := None, pc := Off))
    case Waking => Set(s, p, me.(lock := None, pc := Retake))
    case Retake => At(s, p, Scan(0, false)).(wl := Some(p))
    case _ => s
  }

  // ---------- the invariant ----------

  /** The program points that hold wait_lock. */
  predicate HasWaitLock(pc: Pc) {
    || pc.Fork3? || pc.Fork4? || pc.Reparent? || pc.RewakeInit? || pc.WakeParent? || pc.LockSelf? || pc.Dying? || pc.Unlock?
    || pc.Scan? || pc.Look? || pc.WaitOut? || pc.Sleep0? || pc.Sleep1?
  }

  /** The program points that hold the process's own p->lock. */
  predicate HasOwnLock(pc: Pc) {
    pc.Sleep1? || pc.Sleep2? || pc.Sleep3? || pc.Waking? || pc.Forkret? || pc.Dying? || pc.Unlock? || pc.LastSched?
  }

  /** Asleep in wait, or between sleep's release of wait_lock and its sched. */
  predicate InWait(s: State, p: nat)
    requires p < |s.procs| 
  {
    s.procs[p].pc.Sleep2? || s.procs[p].pc.Sleep3? || (s.procs[p].pc.Off? && s.procs[p].st.Sleeping?)
  }

  /** exit() has given its children away. */
  predicate Childless(pc: Pc) {
    pc.WakeParent? || Exited(pc)
  }

  /** exit() has woken its parent. */
  predicate Exited(pc: Pc) {
    pc.LockSelf? || pc.Dying? || pc.Unlock? || pc.LastSched? || pc.Dead?
  }

  /** The places of a process that is not exiting. */
  predicate Stays(pc: Pc) {
    !pc.Unborn? && !pc.Reparent? && !pc.RewakeInit? && !Childless(pc)
  }

  predicate HoldsOwnLock(proc: Proc) {
    HasOwnLock(proc.pc) || proc.away == Resuming
  }

  /** The state a process has at each place. */
  predicate StateFits(proc: Proc) {
    if proc.away == Here then PlaceFits(proc.st, proc.pc)
    else Preemptible(proc.pc) && proc.st == if proc.away == Preempted then Runnable else Running
  }

  predicate PlaceFits(st: St, pc: Pc) {
    match st
    case Unused | Used => pc.Unborn?
    case Sleeping => pc.Sleep3? || pc.Off?
    case Runnable => pc.New? || pc.Off?
    case Zombie => pc.Unlock? || pc.LastSched? || pc.Dead?
    case Running => !pc.Unborn? && !pc.New? && !pc.Off? && !pc.Sleep3? && !pc.Unlock? && !pc.LastSched? && !pc.Dead?
  }

  /** A process that is filling slot np: np is its alone, and is not running yet. */
  ghost predicate ForkOk(s: State, p: nat)
    requires Shaped(s) && p < |s.procs|
  {
    IsFork(s.procs[p].pc) ==>
      && var np := s.procs[p].pc.np;
      && np < |s.procs| && np != p && np != INIT && s.procs[np].st == Used && s.procs[np].maker == p
      && (s.procs[np].parent == if s.procs[p].pc.Fork4? || s.procs[p].pc.Fork5? then Some(p) else None)
      && (s.procs[p].pc.Fork1? ==> s.procs[np].lock == Some(p))
  }

  ghost predicate LocksOk(s: State, p: nat)
    requires Shaped(s) && p < |s.procs|
  {
    var pc := s.procs[p].pc;
    && (HasWaitLock(pc) <==> s.wl == Some(p))
    && (HoldsOwnLock(s.procs[p]) ==> s.procs[p].lock == Some(p))
    && (s.procs[p].lock.Some? ==>
          && s.procs[p].lock.value < |s.procs|
          && var q := s.procs[p].lock.value;
          if q == p then HoldsOwnLock(s.procs[p]) else s.procs[q].pc == Fork1(p) || (s.procs[q].pc.Look? && s.procs[q].pc.i == p))
    && (pc.Look? ==> pc.i < |s.procs| && pc.i != p && s.procs[pc.i].lock == Some(p) && s.procs[pc.i].parent == Some(p))
  }

  /** exit has given a child to init and is about to wake init. */
  predicate Rewaking(s: State) {
    s.wl.Some? && s.wl.value < |s.procs| && s.procs[s.wl.value].pc.RewakeInit?
  }

  /** What holds between a process and its parent. */
  ghost predicate ParentOk(s: State, c: nat)
    requires Shaped(s) && c < |s.procs|
  {
    match s.procs[c].parent
    case None => c == INIT || s.procs[c].pc.Unborn?
    case Some(r) =>
      && c != INIT && r < |s.procs| && r != c && s.procs[r].st != Unused && s.procs[r].st != Used && s.procs[r].st != Zombie && !Childless(s.procs[r].pc)
      && (s.procs[r].pc.Reparent? ==> s.procs[r].pc.i <= c)
      && (s.procs[r].pc.RewakeInit? ==> s.procs[r].pc.i < c)
      && (s.procs[c].pc.Unborn? ==> s.procs[c].st == Used && s.procs[c].maker == r && (s.procs[r].pc == Fork4(c) || s.procs[r].pc == Fork5(c)))
      && (Exited(s.procs[c].pc) ==>
            && (InWait(s, r) ==> r == INIT && Rewaking(s))
            && ((s.procs[r].pc.Scan? || s.procs[r].pc.Look?) ==> s.procs[r].pc.i <= c)
            && !s.procs[r].pc.Sleep0? && !s.procs[r].pc.Sleep1?)
  }

  ghost predicate ProcOk(s: State, p: nat)
    requires Shaped(s) && p < |s.procs|
  {
    && StateFits(s.procs[p])
    && LocksOk(s, p)
    && ForkOk(s, p)
    && ParentOk(s, p)
    && (s.procs[p].st == Unused ==> s.procs[p].parent == None)
    && s.procs[p].exits == s.procs[p].reaps + (if s.procs[p].st == Zombie then 1 else 0)
  }

  ghost predicate Inv(s: State) {
    && Shaped(s)
    && (s.wl.Some? ==> s.wl.value < |s.procs|)
    && Stays(s.procs[INIT].pc)
    && forall p: nat :: p < |s.procs| ==> ProcOk(s, p)
  }

  // ---------- a step changes the slot of its process and at most one more ----------

  /** The other slot that a step of e.p changes, or e.p. */
  function Other(s: State, e: Event): nat
    requires Shaped(s) && Enabled(s, e)
  {
    var p := e.p;
    match e
    case Fork(_, np) => np
    case Go(_, _) =>
      if s.procs[p].away != Here then p else
      (match s.procs[p].pc
       case Fork1(np) => np
       case Fork3(np) => np
       case Fork5(np) => np
       case Reparent(i) => if i < |s.procs| && s.procs[i].parent == Some(p) then i else p
       case RewakeInit(_) => INIT
       case WakeParent => s.procs[p].parent.value
       case Scan(i, _) => if i < |s.procs| && s.procs[i].parent == Some(p) then i else p
       case Look(i, _) => i
       case _ => p)
    case _ => p
  }

  /** What every step does to locks it does not hold and slots it does not own: nothing. */
  ghost predicate Polite(s: State, s': State, p: nat, q: nat)
    requires Shaped(s) && p < |s.procs|
  {
    && q < |s.procs| == |s'.procs|
    && (forall c :: 0 <= c < |s.procs| && c != p && c != q ==> s'.procs[c] == s.procs[c])
    && (s'.wl == s.wl || (s.wl == None && s'.wl == Some(p)) || (s.wl == Some(p) && s'.wl == None))
    && var me, me', ot, ot' := s.procs[p], s'.procs[p], s.procs[q], s'.procs[q];
    && !me.pc.Unborn? && me'.parent == me.parent
    && (me'.lock == me.lock || me.lock == None || me.lock == Some(p))
    && (me.pc.Fork1? && me'.pc != me.pc ==> q == me.pc.np)
    && (me.pc.Look? && me'.pc != me.pc ==> q == me.pc.i)
    && (ot'.lock == ot.lock || ot.lock == None || ot.lock == Some(p))
    && (ot'.parent == ot.parent || s.wl == Some(p))
    && (ot.st == Used ==> ot.maker == p)
    && (q != p ==> ot'.away == ot.away)
    && (q != p ==> ot'.pc == ot.pc || ot.pc.Unborn? || ot.pc.Dead?)
    && (q != p ==> ot'.st == ot.st || (ot.st == Sleeping && ot'.st == Runnable) || ot.pc.Unborn? || ot.pc.Dead?)
    && (Rewaking(s) ==> Rewaking(s') || !InWait(s', INIT))
    && (p == INIT && Stays(me.pc) ==> Stays(me'.pc))
  }

  /** A process whose slot is not touched keeps its part of the invariant. */
  lemma BystanderLocks(s: State, s': State, p: nat, q: nat, c: nat)
    requires Inv(s) && p < |s.procs| && Polite(s, s', p, q) && c < |s.procs| && c != p && c != q
    ensures LocksOk(s', c)
  {
    assert ProcOk(s, c) && ProcOk(s, p) && ProcOk(s, q);
    hide ParentOk;
    hide ForkOk;
  }

  lemma BystanderFork(s: State, s': State, p: nat, q: nat, c: nat)
    requires Inv(s) && p < |s.procs| && Polite(s, s', p, q) && c < |s.procs| && c != p && c != q
    ensures ForkOk(s', c)
  {
    assert ProcOk(s, c) && ProcOk(s, p) && ProcOk(s, q);
    hide ParentOk;
  }

  lemma BystanderParent(s: State, s': State, p: nat, q: nat, c: nat)
    requires Inv(s) && p < |s.procs| && Polite(s, s', p, q) && c < |s.procs| && c != p && c != q
    requires s.procs[c].parent != Some(p)
    ensures ParentOk(s', c)
  {
    assert ProcOk(s, c) && ProcOk(s, q);
    hide LocksOk;
    hide ForkOk;
  }

  lemma InitStays(s: State)
    requires Inv(s)
    ensures Stays(s.procs[INIT].pc) && ProcOk(s, INIT)
  {
  }

  lemma OkAt(s: State, c: nat)
    requires Inv(s) && c < |s.procs|
    ensures ProcOk(s, c)
  {
  }

  lemma Near(s: State, e: Event)
    requires Inv(s) && Enabled(s, e)
    ensures (s.wl.Some? ==> s.wl.value < |s.procs|) && ProcOk(s, e.p)
    ensures Other(s, e) < |s.procs| && ProcOk(s, Other(s, e))
  {
    assert ProcOk(s, e.p);
  }

  // ---------- the slot of the process that makes the step ----------

  lemma ForkBeginsPolitely(s: State, e: Event)
    requires Inv(s) && Enabled(s, e)
    requires e.Fork?
    ensures Polite(s, Do(s, e), e.p, Other(s, e))
  {
    hide Inv;
    Near(s, e);
    InitStays(s);
    hide ParentOk;
  }

  lemma ForkBegins(s: State, e: Event)
    requires Inv(s) && Enabled(s, e)
    requires e.Fork?
    ensures Polite(s, Do(s, e), e.p, Other(s, e)) && ProcOk(Do(s, e), e.p)
  {
    hide Inv;
    Near(s, e);
    InitStays(s);
    ForkBeginsPolitely(s, e);
    hide Polite;
  }

  lemma ForkFailsPolitely(s: State, e: Event)
    requires Inv(s) && Enabled(s, e)
    requires e.Go? && s.procs[e.p].away == Here && s.procs[e.p].pc.Fork1? && e.choice
    ensures Polite(s, Do(s, e), e.p, Other(s, e))
  {
    hide Inv;
    Near(s, e);
    hide ParentOk;
  }

  lemma ForkFails(s: State, e: Event)
    requires Inv(s) && Enabled(s, e)
    requires e.Go? && s.procs[e.p].away == Here && s.procs[e.p].pc.Fork1? && e.choice
    ensures Polite(s, Do(s, e), e.p, Other(s, e)) && ProcOk(Do(s, e), e.p)
  {
    hide Inv;
    Near(s, e);
    ForkFailsPolitely(s, e);
    hide Polite;
  }

  lemma ForkAllocatesPolitely(s: State, e: Event)
    requires Inv(s) && Enabled(s, e)
    requires e.Go? && s.procs[e.p].away == Here && s.procs[e.p].pc.Fork1? && !e.choice
    ensures Polite(s, Do(s, e), e.p, Other(s, e))
  {
    hide Inv;
    Near(s, e);
    hide ParentOk;
  }

  lemma ForkAllocates(s: State, e: Event)
    requires Inv(s) && Enabled(s, e)
    requires e.Go? && s.procs[e.p].away == Here && s.procs[e.p].pc.Fork1? && !e.choice
    ensures Polite(s, Do(s, e), e.p, Other(s, e)) && ProcOk(Do(s, e), e.p)
  {
    hide Inv;
    Near(s, e);
    ForkAllocatesPolitely(s, e);
    hide Polite;
  }

  lemma ForkLocks(s: State, e: Event)
    requires Inv(s) && Enabled(s, e)
    requires e.Go? && s.procs[e.p].away == Here && s.procs[e.p].pc.Fork2?
    ensures Polite(s, Do(s, e), e.p, Other(s, e)) && ProcOk(Do(s, e), e.p)
  {
    hide Inv;
    Near(s, e);
  }

  lemma ForkPublishes(s: State, e: Event)
    requires Inv(s) && Enabled(s, e)
    requires e.Go? && s.procs[e.p].away == Here && s.procs[e.p].pc.Fork3?
    ensures Polite(s, Do(s, e), e.p, Other(s, e)) && ProcOk(Do(s, e), e.p)
  {
    hide Inv;
    Near(s, e);
  }

  lemma ForkUnlocks(s: State, e: Event)
    requires Inv(s) && Enabled(s, e)
    requires e.Go? && s.procs[e.p].away == Here && s.procs[e.p].pc.Fork4?
    ensures Polite(s, Do(s, e), e.p, Other(s, e)) && ProcOk(Do(s, e), e.p)
  {
    hide Inv;
    Near(s, e);
  }

  lemma ForkEndsPolitely(s: State, e: Event)
    requires Inv(s) && Enabled(s, e)
    requires e.Go? && s.procs[e.p].away == Here && s.procs[e.p].pc.Fork5?
    ensures Polite(s, Do(s, e), e.p, Other(s, e))
  {
    hide Inv;
    Near(s, e);
    hide ParentOk;
  }

  lemma ForkEnds(s: State, e: Event)
    requires Inv(s) && Enabled(s, e)
    requires e.Go? && s.procs[e.p].away == Here && s.procs[e.p].pc.Fork5?
    ensures Polite(s, Do(s, e), e.p, Other(s, e)) && ProcOk(Do(s, e), e.p)
  {
    hide Inv;
    Near(s, e);
    ForkEndsPolitely(s, e);
    hide Polite;
  }

  lemma ExitBegins(s: State, e: Event)
    requires Inv(s) && Enabled(s, e)
    requires e.Exit?
    ensures Polite(s, Do(s, e), e.p, Other(s, e)) && ProcOk(Do(s, e), e.p)
  {
    hide Inv;
    Near(s, e);
  }

  lemma WaitBegins(s: State, e: Event)
    requires Inv(s) && Enabled(s, e)
    requires e.Wait? || (e.Go? && s.procs[e.p].away == Here && s.procs[e.p].pc.Retake?)
    ensures Polite(s, Do(s, e), e.p, Other(s, e)) && ProcOk(Do(s, e), e.p)
  {
    hide Inv;
    Near(s, e);
  }

  lemma ReparentsChild(s: State, e: Event)
    requires Inv(s) && Enabled(s, e)
    requires e.Go? && s.procs[e.p].away == Here && s.procs[e.p].pc.Reparent? && s.procs[e.p].pc.i < |s.procs| && s.procs[s.procs[e.p].pc.i].parent == Some(e.p)
    ensures Polite(s, Do(s, e), e.p, Other(s, e)) && ProcOk(Do(s, e), e.p)
  {
    hide Inv;
    Near(s, e);
  }

  lemma ReparentsOther(s: State, e: Event)
    requires Inv(s) && Enabled(s, e)
    requires e.Go? && s.procs[e.p].away == Here && s.procs[e.p].pc.Reparent? && (s.procs[e.p].pc.i < |s.procs| ==> s.procs[s.procs[e.p].pc.i].parent != Some(e.p))
    ensures Polite(s, Do(s, e), e.p, Other(s, e)) && ProcOk(Do(s, e), e.p)
  {
    hide Inv;
    Near(s, e);
  }

  lemma RewakesInit(s: State, e: Event)
    requires Inv(s) && Enabled(s, e)
    requires e.Go? && s.procs[e.p].away == Here && s.procs[e.p].pc.RewakeInit?
    ensures Polite(s, Do(s, e), e.p, Other(s, e)) && ProcOk(Do(s, e), e.p)
  {
    hide Inv;
    Near(s, e);
    InitStays(s);
  }

  lemma WakesParent(s: State, e: Event)
    requires Inv(s) && Enabled(s, e)
    requires e.Go? && s.procs[e.p].away == Here && s.procs[e.p].pc.WakeParent?
    ensures Polite(s, Do(s, e), e.p, Other(s, e)) && ProcOk(Do(s, e), e.p)
  {
    hide Inv;
    Near(s, e);
  }

  lemma Dies(s: State, e: Event)
    requires Inv(s) && Enabled(s, e)
    requires e.Go? && s.procs[e.p].away == Here && (s.procs[e.p].pc.LockSelf? || s.procs[e.p].pc.Dying?)
    ensures Polite(s, Do(s, e), e.p, Other(s, e)) && ProcOk(Do(s, e), e.p)
  {
    hide Inv;
    Near(s, e);
  }

  lemma ExitUnlocks(s: State, e: Event)
    requires Inv(s) && Enabled(s, e)
    requires e.Go? && s.procs[e.p].away == Here && s.procs[e.p].pc.Unlock?
    ensures Polite(s, Do(s, e), e.p, Other(s, e)) && ProcOk(Do(s, e), e.p)
  {
    hide Inv;
    Near(s, e);
  }

  lemma Leaves(s: State, e: Event)
    requires Inv(s) && Enabled(s, e)
    requires e.Go? && s.procs[e.p].away == Here && s.procs[e.p].pc.LastSched?
    ensures Polite(s, Do(s, e), e.p, Other(s, e)) && ProcOk(Do(s, e), e.p)
  {
    hide Inv;
    Near(s, e);
  }

  lemma ScansChild(s: State, e: Event)
    requires Inv(s) && Enabled(s, e)
    requires e.Go? && s.procs[e.p].away == Here && s.procs[e.p].pc.Scan? && s.procs[e.p].pc.i < |s.procs| && s.procs[s.procs[e.p].pc.i].parent == Some(e.p)
    ensures Polite(s, Do(s, e), e.p, Other(s, e)) && ProcOk(Do(s, e), e.p)
  {
    hide Inv;
    Near(s, e);
  }

  lemma ScansOther(s: State, e: Event)
    requires Inv(s) && Enabled(s, e)
    requires e.Go? && s.procs[e.p].away == Here && s.procs[e.p].pc.Scan? && s.procs[e.p].pc.i < |s.procs| && s.procs[s.procs[e.p].pc.i].parent != Some(e.p)
    ensures Polite(s, Do(s, e), e.p, Other(s, e)) && ProcOk(Do(s, e), e.p)
  {
    hide Inv;
    Near(s, e);
  }

  lemma ScansEnd(s: State, e: Event)
    requires Inv(s) && Enabled(s, e)
    requires e.Go? && s.procs[e.p].away == Here && s.procs[e.p].pc.Scan? && s.procs[e.p].pc.i >= |s.procs|
    ensures Polite(s, Do(s, e), e.p, Other(s, e)) && ProcOk(Do(s, e), e.p)
  {
    hide Inv;
    Near(s, e);
  }

  lemma Looks(s: State, e: Event)
    requires Inv(s) && Enabled(s, e)
    requires e.Go? && s.procs[e.p].away == Here && s.procs[e.p].pc.Look? && Other(s, e) < |s.procs| && s.procs[Other(s, e)].st != Zombie
    ensures Polite(s, Do(s, e), e.p, Other(s, e)) && ProcOk(Do(s, e), e.p)
  {
    hide Inv;
    Near(s, e);
  }

  lemma CopyFails(s: State, e: Event)
    requires Inv(s) && Enabled(s, e)
    requires e.Go? && s.procs[e.p].away == Here && s.procs[e.p].pc.Look? && Other(s, e) < |s.procs| && e.choice && s.procs[Other(s, e)].st == Zombie
    ensures Polite(s, Do(s, e), e.p, Other(s, e)) && ProcOk(Do(s, e), e.p)
  {
    hide Inv;
    Near(s, e);
  }

  lemma Reaps(s: State, e: Event)
    requires Inv(s) && Enabled(s, e)
    requires e.Go? && s.procs[e.p].away == Here && s.procs[e.p].pc.Look? && Other(s, e) < |s.procs| && !e.choice && s.procs[Other(s, e)].st == Zombie
    ensures Polite(s, Do(s, e), e.p, Other(s, e)) && ProcOk(Do(s, e), e.p)
  {
    hide Inv;
    Near(s, e);
  }

  lemma WaitReturns(s: State, e: Event)
    requires Inv(s) && Enabled(s, e)
    requires e.Go? && s.procs[e.p].away == Here && s.procs[e.p].pc.WaitOut?
    ensures Polite(s, Do(s, e), e.p, Other(s, e)) && ProcOk(Do(s, e), e.p)
  {
    hide Inv;
    Near(s, e);
  }

  lemma SleepLocks(s: State, e: Event)
    requires Inv(s) && Enabled(s, e)
    requires e.Go? && s.procs[e.p].away == Here && s.procs[e.p].pc.Sleep0?
    ensures Polite(s, Do(s, e), e.p, Other(s, e)) && ProcOk(Do(s, e), e.p)
  {
    hide Inv;
    Near(s, e);
  }

  lemma SleepUnlocks(s: State, e: Event)
    requires Inv(s) && Enabled(s, e)
    requires e.Go? && s.procs[e.p].away == Here && s.procs[e.p].pc.Sleep1?
    ensures Polite(s, Do(s, e), e.p, Other(s, e)) && ProcOk(Do(s, e), e.p)
  {
    hide Inv;
    Near(s, e);
  }

  lemma FallsAsleep(s: State, e: Event)
    requires Inv(s) && Enabled(s, e)
    requires e.Go? && s.procs[e.p].away == Here && s.procs[e.p].pc.Sleep2?
    ensures Polite(s, Do(s, e), e.p, Other(s, e)) && ProcOk(Do(s, e), e.p)
  {
    hide Inv;
    Near(s, e);
  }

  lemma SwitchesAway(s: State, e: Event)
    requires Inv(s) && Enabled(s, e)
    requires e.Go? && s.procs[e.p].away == Here && s.procs[e.p].pc.Sleep3?
    ensures Polite(s, Do(s, e), e.p, Other(s, e)) && ProcOk(Do(s, e), e.p)
  {
    hide Inv;
    Near(s, e);
  }

  lemma Awakes(s: State, e: Event)
    requires Inv(s) && Enabled(s, e)
    requires e.Go? && s.procs[e.p].away == Here && s.procs[e.p].pc.Waking?
    ensures Polite(s, Do(s, e), e.p, Other(s, e)) && ProcOk(Do(s, e), e.p)
  {
    hide Inv;
    Near(s, e);
  }

  lemma Starts(s: State, e: Event)
    requires Inv(s) && Enabled(s, e)
    requires e.Go? && s.procs[e.p].away == Here && s.procs[e.p].pc.Forkret?
    ensures Polite(s, Do(s, e), e.p, Other(s, e)) && ProcOk(Do(s, e), e.p)
  {
    hide Inv;
    Near(s, e);
  }

  lemma IsScheduled(s: State, e: Event)
    requires Inv(s) && Enabled(s, e)
    requires e.Schedule? && !s.procs[e.p].pc.Unborn?
    ensures Polite(s, Do(s, e), e.p, Other(s, e)) && ProcOk(Do(s, e), e.p)
  {
    hide Inv;
    Near(s, e);
  }

  lemma IsKilled(s: State, e: Event)
    requires Inv(s) && Enabled(s, e)
    requires e.Kill? && !s.procs[e.p].pc.Unborn?
    ensures Polite(s, Do(s, e), e.p, Other(s, e)) && ProcOk(Do(s, e), e.p)
  {
    hide Inv;
    Near(s, e);
  }

  lemma IsPreempted(s: State, e: Event)
    requires Inv(s) && Enabled(s, e)
    requires e.Yield? || (e.Go? && s.procs[e.p].away != Here)
    ensures Polite(s, Do(s, e), e.p, Other(s, e)) && ProcOk(Do(s, e), e.p)
  {
    hide Inv;
    Near(s, e);
  }

  // ---------- the other slot it changes ----------

  lemma ChildAllocated(s: State, e: Event)
    requires Inv(s) && Enabled(s, e) && Other(s, e) != e.p
    requires e.Fork? || (e.Go? && s.procs[e.p].away == Here && s.procs[e.p].pc.Fork1?)
    ensures Other(s, e) < |s.procs| && ProcOk(Do(s, e), Other(s, e))
  {
    hide Inv;
    Near(s, e);
  }

  lemma ChildPublished(s: State, e: Event)
    requires Inv(s) && Enabled(s, e) && Other(s, e) != e.p
    requires e.Go? && s.procs[e.p].away == Here && s.procs[e.p].pc.Fork3?
    ensures Other(s, e) < |s.procs| && ProcOk(Do(s, e), Other(s, e))
  {
    hide Inv;
    Near(s, e);
  }

  lemma ChildMadeRunnable(s: State, e: Event)
    requires Inv(s) && Enabled(s, e) && Other(s, e) != e.p
    requires e.Go? && s.procs[e.p].away == Here && s.procs[e.p].pc.Fork5?
    ensures Other(s, e) < |s.procs| && ProcOk(Do(s, e), Other(s, e))
  {
    hide Inv;
    Near(s, e);
  }

  lemma ChildReparented(s: State, e: Event)
    requires Inv(s) && Enabled(s, e) && Other(s, e) != e.p
    requires e.Go? && s.procs[e.p].away == Here && s.procs[e.p].pc.Reparent?
    ensures Other(s, e) < |s.procs| && ProcOk(Do(s, e), Other(s, e))
  {
    hide Inv;
    Near(s, e);
    InitStays(s);
  }

  lemma ParentWoken(s: State, e: Event)
    requires Inv(s) && Enabled(s, e) && Other(s, e) != e.p
    requires e.Go? && s.procs[e.p].away == Here && (s.procs[e.p].pc.RewakeInit? || s.procs[e.p].pc.WakeParent?)
    ensures Other(s, e) < |s.procs| && ProcOk(Do(s, e), Other(s, e))
  {
    hide Inv;
    Near(s, e);
    InitStays(s);
  }

  lemma ChildLocked(s: State, e: Event)
    requires Inv(s) && Enabled(s, e) && Other(s, e) != e.p
    requires e.Go? && s.procs[e.p].away == Here && s.procs[e.p].pc.Scan?
    ensures Other(s, e) < |s.procs| && ProcOk(Do(s, e), Other(s, e))
  {
    hide Inv;
    Near(s, e);
  }

  lemma ChildReaped(s: State, e: Event)
    requires Inv(s) && Enabled(s, e) && Other(s, e) != e.p
    requires e.Go? && s.procs[e.p].away == Here && s.procs[e.p].pc.Look?
    ensures Other(s, e) < |s.procs| && ProcOk(Do(s, e), Other(s, e))
  {
    hide Inv;
    Near(s, e);
  }

  // ---------- the children of the process that makes the step ----------

  /** Places where a process owes its children nothing. */
  predicate Carefree(pc: Pc) {
    pc.Forkret? || pc.User? || IsFork(pc) || pc.WaitOut? || pc.Off? || pc.Waking? || pc.Retake?
  }

  lemma ChildOfCarefree(s: State, s': State, p: nat, q: nat, c: nat)
    requires Inv(s) && p < |s.procs| && Polite(s, s', p, q) && ProcOk(s', p) && Carefree(s'.procs[p].pc)
    requires s'.procs[p].st != Sleeping
    requires c < |s.procs| && c != p && c != q && s.procs[c].parent == Some(p)
    requires s.procs[p].pc.Fork4? || s.procs[p].pc.Fork5? ==> q == s.procs[p].pc.np || s'.procs[p].pc == Fork5(s.procs[p].pc.np)
    ensures ParentOk(s', c)
  {
    hide Inv;
    OkAt(s, c);
  }

  lemma ChildOfExiting(s: State, e: Event, c: nat)
    requires Inv(s) && Enabled(s, e) && c < |s.procs| && c != e.p && c != Other(s, e) && s.procs[c].parent == Some(e.p)
    requires e.Exit? || (e.Go? && s.procs[e.p].away == Here && IsExit(s.procs[e.p].pc))
    ensures |Do(s, e).procs| == |s.procs| && ParentOk(Do(s, e), c)
  {
    hide Inv;
    Near(s, e);
    OkAt(s, c);
  }

  lemma ChildOfWaiting(s: State, e: Event, c: nat)
    requires Inv(s) && Enabled(s, e) && c < |s.procs| && c != e.p && c != Other(s, e) && s.procs[c].parent == Some(e.p)
    requires e.Wait? || (e.Go? && s.procs[e.p].away == Here && s.procs[e.p].pc.Retake?)
    ensures |Do(s, e).procs| == |s.procs| && ParentOk(Do(s, e), c)
  {
    hide Inv;
    Near(s, e);
    OkAt(s, c);
  }

  lemma ChildOfScanning(s: State, e: Event, c: nat)
    requires Inv(s) && Enabled(s, e) && c < |s.procs| && c != e.p && c != Other(s, e) && s.procs[c].parent == Some(e.p)
    requires e.Go? && s.procs[e.p].away == Here && s.procs[e.p].pc.Scan?
    ensures |Do(s, e).procs| == |s.procs| && ParentOk(Do(s, e), c)
  {
    hide Inv;
    Near(s, e);
    OkAt(s, c);
  }

  lemma ChildOfLooking(s: State, e: Event, c: nat)
    requires Inv(s) && Enabled(s, e) && c < |s.procs| && c != e.p && c != Other(s, e) && s.procs[c].parent == Some(e.p)
    requires e.Go? && s.procs[e.p].away == Here && s.procs[e.p].pc.Look?
    ensures |Do(s, e).procs| == |s.procs| && ParentOk(Do(s, e), c)
  {
    hide Inv;
    Near(s, e);
    OkAt(s, c);
  }

  lemma ChildOfSleeping(s: State, e: Event, c: nat)
    requires Inv(s) && Enabled(s, e) && c < |s.procs| && c != e.p && c != Other(s, e) && s.procs[c].parent == Some(e.p)
    requires e.Go? && s.procs[e.p].away == Here && (s.procs[e.p].pc.Sleep0? || s.procs[e.p].pc.Sleep1? || s.procs[e.p].pc.Sleep2? || s.procs[e.p].pc.Sleep3?)
    ensures |Do(s, e).procs| == |s.procs| && ParentOk(Do(s, e), c)
  {
    hide Inv;
    Near(s, e);
    OkAt(s, c);
  }

  lemma ChildOfIdle(s: State, e: Event, c: nat)
    requires Inv(s) && Enabled(s, e) && c < |s.procs| && c != e.p && s.procs[c].parent == Some(e.p)
    requires e.Schedule? || e.Kill? || e.Yield? || (e.Go? && s.procs[e.p].away != Here)
    ensures |Do(s, e).procs| == |s.procs| && ParentOk(Do(s, e), c)
  {
    hide Inv;
    Near(s, e);
    OkAt(s, c);
  }

  // ---------- every step ----------

  lemma SelfKept(s: State, e: Event)
    requires Inv(s) && Enabled(s, e) && !s.procs[e.p].pc.Unborn?
    ensures Polite(s, Do(s, e), e.p, Other(s, e)) && ProcOk(Do(s, e), e.p)
  {
    Near(s, e);
    hide Polite;
    hide ProcOk;
    match e {
      case Fork(_, _) => ForkBegins(s, e);
      case Exit(_) => ExitBegins(s, e);
      case Wait(_) => WaitBegins(s, e);
      case Schedule(_) => IsScheduled(s, e);
      case Kill(_) => IsKilled(s, e);
      case Yield(_) => IsPreempted(s, e);
      case Go(p, choice) =>
        if s.procs[p].away != Here {
          IsPreempted(s, e);
          return;
        }
        match s.procs[p].pc {
          case Fork1(_) => if choice { ForkFails(s, e); } else { ForkAllocates(s, e); }
          case Fork2(_) => ForkLocks(s, e);
          case Fork3(_) => ForkPublishes(s, e);
          case Fork4(_) => ForkUnlocks(s, e);
          case Fork5(_) => ForkEnds(s, e);
          case Retake => WaitBegins(s, e);
          case Reparent(i) => if i < |s.procs| && s.procs[i].parent == Some(p) { ReparentsChild(s, e); } else { ReparentsOther(s, e); }
          case RewakeInit(_) => RewakesInit(s, e);
          case WakeParent => WakesParent(s, e);
          case LockSelf | Dying => Dies(s, e);
          case Unlock => ExitUnlocks(s, e);
          case LastSched => Leaves(s, e);
          case Scan(i, _) => if i >= |s.procs| { ScansEnd(s, e); } else if s.procs[i].parent == Some(p) { ScansChild(s, e); } else { ScansOther(s, e); }
          case Look(i, _) => if s.procs[i].st != Zombie { Looks(s, e); } else if choice { CopyFails(s, e); } else { Reaps(s, e); }
          case WaitOut => WaitReturns(s, e);
          case Sleep0 => SleepLocks(s, e);
          case Sleep1 => SleepUnlocks(s, e);
          case Sleep2 => FallsAsleep(s, e);
          case Sleep3 => SwitchesAway(s, e);
          case Waking => Awakes(s, e);
          case Forkret => Starts(s, e);
        }
    }
  }

  lemma OtherKept(s: State, e: Event)
    requires Inv(s) && Enabled(s, e) && Other(s, e) != e.p
    ensures Other(s, e) < |s.procs| && ProcOk(Do(s, e), Other(s, e))
  {
    hide ProcOk;
    match e {
      case Fork(_, _) => ChildAllocated(s, e);
      case Go(p, _) =>
        match s.procs[p].pc {
          case Fork1(_) => ChildAllocated(s, e);
          case Fork3(_) => ChildPublished(s, e);
          case Fork5(_) => ChildMadeRunnable(s, e);
          case Reparent(_) => ChildReparented(s, e);
          case RewakeInit(_) | WakeParent => ParentWoken(s, e);
          case Scan(_, _) => ChildLocked(s, e);
          case Look(_, _) => ChildReaped(s, e);
        }
    }
  }

  lemma ChildKept(s: State, e: Event, c: nat)
    requires Inv(s) && Enabled(s, e) && c < |s.procs| && c != e.p && c != Other(s, e) && s.procs[c].parent == Some(e.p)
    requires Polite(s, Do(s, e), e.p, Other(s, e)) && ProcOk(Do(s, e), e.p)
    ensures ParentOk(Do(s, e), c)
  {
    hide ParentOk;
    hide ProcOk;
    hide Polite;
    match e {
      case Exit(_) => ChildOfExiting(s, e, c);
      case Wait(_) => ChildOfWaiting(s, e, c);
      case Schedule(_) | Kill(_) | Yield(_) => ChildOfIdle(s, e, c);
      case Fork(_, _) =>
        CarefreeAfter(s, e);
        ChildOfCarefree(s, Do(s, e), e.p, Other(s, e), c);
      case Go(p, choice) =>
        if s.procs[p].away != Here {
          ChildOfIdle(s, e, c);
          return;
        }
        match s.procs[p].pc {
          case Reparent(_) | RewakeInit(_) | WakeParent | LockSelf | Dying | Unlock | LastSched => ChildOfExiting(s, e, c);
          case Retake => ChildOfWaiting(s, e, c);
          case Scan(_, _) => ChildOfScanning(s, e, c);
          case Look(_, _) => ChildOfLooking(s, e, c);
          case Sleep0 | Sleep1 | Sleep2 | Sleep3 => ChildOfSleeping(s, e, c);
          case Forkret | Fork1(_) | Fork2(_) | Fork3(_) | Fork4(_) | Fork5(_) | WaitOut | Waking =>
            CarefreeAfter(s, e);
            ChildOfCarefree(s, Do(s, e), p, Other(s, e), c);
        }
    }
  }

  lemma CarefreeAfter(s: State, e: Event)
    requires Inv(s) && Enabled(s, e)
    requires e.Fork? || (e.Go? && s.procs[e.p].away == Here &&
                         (s.procs[e.p].pc.Forkret? || IsFork(s.procs[e.p].pc) || s.procs[e.p].pc.WaitOut? || s.procs[e.p].pc.Waking?))
    ensures e.p < |Do(s, e).procs| && Carefree(Do(s, e).procs[e.p].pc) && Do(s, e).procs[e.p].st != Sleeping
    ensures s.procs[e.p].pc.Fork4? || s.procs[e.p].pc.Fork5? ==> Other(s, e) == s.procs[e.p].pc.np || Do(s, e).procs[e.p].pc == Fork5(s.procs[e.p].pc.np)
  {
    Near(s, e);
    hide ParentOk;
  }

  lemma StepKeepsInv(s: State, e: Event)
    requires Inv(s) && Enabled(s, e)
    ensures Inv(Do(s, e))
  {
    if s.procs[e.p].pc.Unborn? {
      assert ProcOk(s, e.p);
      assert Do(s, e) == s;
    } else {
      SelfKept(s, e);
      InitKept(s, Do(s, e), e.p, Other(s, e));
      hide Do;
      hide Other;
      hide Enabled;
      hide ProcOk;
      forall c: nat | c < |s.procs| ensures ProcOk(Do(s, e), c) {
        ProcKept(s, e, c);
      }
    }
  }

  lemma ProcKept(s: State, e: Event, c: nat)
    requires Inv(s) && Enabled(s, e) && c < |s.procs| && Polite(s, Do(s, e), e.p, Other(s, e)) && ProcOk(Do(s, e), e.p)
    ensures ProcOk(Do(s, e), c)
  {
    assert e.p < |s.procs|;
    hide Do;
    hide Other;
    hide Enabled;
    if c != e.p && c == Other(s, e) {
      OtherKept(s, e);
    } else if c != e.p {
      assert ProcOk(s, c);
      if s.procs[c].parent == Some(e.p) {
        ChildKept(s, e, c);
      } else {
        BystanderParent(s, Do(s, e), e.p, Other(s, e), c);
      }
      BystanderLocks(s, Do(s, e), e.p, Other(s, e), c);
      BystanderFork(s, Do(s, e), e.p, Other(s, e), c);
      hide LocksOk;
      hide ForkOk;
      hide ParentOk;
    }
  }

  /** init never exits. */
  lemma InitKept(s: State, s': State, p: nat, q: nat)
    requires Inv(s) && p < |s.procs| && Polite(s, s', p, q)
    ensures Stays(s'.procs[INIT].pc)
  {
    hide ProcOk;
  }

  // ---------- every run ----------

  /** After boot: init runs, every other slot is free. */
  ghost predicate Initial(s: State) {
    && Shaped(s) && s.wl == None
    && s.procs[INIT] == Proc(None, Running, None, User, Here, 0, 0, 0)
    && forall p :: 0 < p < |s.procs| ==> s.procs[p] == Proc(None, Unused, None, Unborn, Here, 0, 0, 0)
  }

  ghost predicate IsRun(ss: seq<State>, es: seq<Event>) {
    && |ss| == |es| + 1
    && Initial(ss[0])
    && forall k :: 0 <= k < |es| ==> Shaped(ss[k]) && Enabled(ss[k], es[k]) && ss[k + 1] == Do(ss[k], es[k])
  }

  lemma {:induction false} RunKeepsInv(ss: seq<State>, es: seq<Event>, k: nat)
    requires IsRun(ss, es) && k <= |es|
    ensures Inv(ss[k])
  {
    if k == 0 {
      assert forall p: nat :: p < |ss[0].procs| ==> ProcOk(ss[0], p);
    } else {
      hide Inv;
      hide Do;
      hide Enabled;
      RunKeepsInv(ss, es, k - 1);
      StepKeepsInv(ss[k - 1], es[k - 1]);
    }
  }

  /** No process ever has a ZOMBIE or UNUSED parent, wait_lock free or not. */
  lemma ParentsAlive(ss: seq<State>, es: seq<Event>, k: nat, c: nat)
    requires IsRun(ss, es) && k <= |es| && c < |ss[k].procs| && ss[k].procs[c].parent.Some?
    ensures var r := ss[k].procs[c].parent.value;
            r < |ss[k].procs| && ss[k].procs[r].st != Zombie && ss[k].procs[r].st != Unused
  {
    RunKeepsInv(ss, es, k);
    assert ProcOk(ss[k], c);
  }

  /** No lost wakeup: while wait_lock is free, no process asleep in wait has a ZOMBIE child. */
  lemma SleepersHaveNoZombie(ss: seq<State>, es: seq<Event>, k: nat, c: nat)
    requires IsRun(ss, es) && k <= |es| && c < |ss[k].procs|
    requires ss[k].wl == None && ss[k].procs[c].st == Zombie && ss[k].procs[c].parent.Some?
    ensures ss[k].procs[c].parent.value < |ss[k].procs| && !InWait(ss[k], ss[k].procs[c].parent.value)
  {
    RunKeepsInv(ss, es, k);
    assert ProcOk(ss[k], c);
  }

  /** wait frees a slot only when its process is off the CPU for good, and every reaping is of
      a further exit. */
  lemma ReapedOnceAndOffCpu(ss: seq<State>, es: seq<Event>, k: nat, i: nat)
    requires IsRun(ss, es) && k < |es| && i < |ss[k].procs| == |ss[k + 1].procs|
    requires ss[k + 1].procs[i].reaps != ss[k].procs[i].reaps
    ensures ss[k].procs[i].pc == Dead && ss[k].procs[i].st == Zombie
    ensures ss[k + 1].procs[i].reaps == ss[k].procs[i].reaps + 1 == ss[k].procs[i].exits == ss[k + 1].procs[i].exits
  {
    RunKeepsInv(ss, es, k);
    assert ss[k + 1] == Do(ss[k], es[k]);
    hide IsRun;
    OnlyWaitReaps(ss[k], es[k], i);
    assert ProcOk(ss[k], i) && ProcOk(ss[k], es[k].p);
    hide ParentOk;
    hide ForkOk;
    hide Do;
  }

  lemma OnlyWaitReaps(s: State, e: Event, i: nat)
    requires Shaped(s) && Enabled(s, e) && i < |s.procs| == |Do(s, e).procs| && Do(s, e).procs[i].reaps != s.procs[i].reaps
    ensures e.Go? && s.procs[e.p].pc.Look? && s.procs[e.p].pc.i == i && s.procs[i].st == Zombie
    ensures Do(s, e).procs[i].reaps == s.procs[i].reaps + 1 && Do(s, e).procs[i].exits == s.procs[i].exits
  {
  }

  /** A slot that fork gives up on was never scheduled. */
  lemma FailedForkNeverRan(ss: seq<State>, es: seq<Event>, k: nat)
    requires IsRun(ss, es) && k < |es| && es[k].Go? && es[k].choice
    requires es[k].p < |ss[k].procs| && ss[k].procs[es[k].p].pc.Fork1?
    ensures var np := ss[k].procs[es[k].p].pc.np;
            np < |ss[k].procs| && ss[k].procs[np].pc == Unborn && ss[k].procs[np].parent == None
  {
    RunKeepsInv(ss, es, k);
    Near(ss[k], es[k]);
  }

  // ---------- no deadlock ----------

  /** Ready to run, or in the kernel and not asleep. */
  predicate Busy(proc: Proc) {
    proc.st == Runnable || proc.away != Here || !(proc.pc.Unborn? || proc.pc.New? || proc.pc.User? || proc.pc.Dead? || proc.pc.Off?)
  }

  ghost predicate HoldsLock(s: State, q: nat) {
    s.wl == Some(q) || exists j: nat :: j < |s.procs| && s.procs[j].lock == Some(q)
  }

  /** The holder of a p->lock waits for nobody. */
  lemma LockHolderGoes(s: State, q: nat)
    requires Inv(s) && q < |s.procs| && s.procs[q].lock.Some?
    ensures var x := s.procs[q].lock.value; x < |s.procs| && Enabled(s, Go(x, false)) && HoldsLock(s, x)
  {
    OkAt(s, q);
    var x := s.procs[q].lock.value;
    OkAt(s, x);
    hide ParentOk;
    hide ForkOk;
  }

  /** The p->lock that a process at this place is about to acquire, or its own place in the table. */
  function Wants(s: State, p: nat): nat
    requires p < |s.procs|
  {
    match s.procs[p].pc
    case Fork5(np) => np
    case RewakeInit(_) => INIT
    case WakeParent => if s.procs[p].parent.Some? then s.procs[p].parent.value else p
    case Scan(i, _) => i
    case _ => p
  }

  /** A process can go on unless it waits for wait_lock or for a p->lock that is taken. */
  lemma GoesOrWaits(s: State, p: nat)
    requires Inv(s) && p < |s.procs| && Busy(s.procs[p]) && s.procs[p].st != Runnable
    ensures Enabled(s, Go(p, false)) || (s.wl.Some? && s.wl != Some(p)) || (Wants(s, p) < |s.procs| && s.procs[Wants(s, p)].lock.Some?)
  {
    OkAt(s, p);
  }

  /** The holder of wait_lock can go on, or waits for a p->lock whose holder can. */
  lemma WaitLockHolderGoes(s: State) returns (e: Event)
    requires Inv(s) && s.wl.Some?
    ensures e.Go? && Enabled(s, e) && HoldsLock(s, e.p)
  {
    var w := s.wl.value;
    OkAt(s, w);
    GoesOrWaits(s, w);
    if Enabled(s, Go(w, false)) {
      e := Go(w, false);
    } else {
      LockHolderGoes(s, Wants(s, w));
      e := Go(s.procs[Wants(s, w)].lock.value, false);
    }
  }

  /** No deadlock, in any state of any run: a process that is ready to run, or in the kernel and not
      asleep, can be scheduled or go on, or there is a process that holds a lock and can go on. */
  lemma SomebodyCanGo(ss: seq<State>, es: seq<Event>, k: nat, p: nat) returns (e: Event)
    requires IsRun(ss, es) && k <= |es| && p < |ss[k].procs| && Busy(ss[k].procs[p])
    ensures Shaped(ss[k]) && Enabled(ss[k], e)
    ensures e == Schedule(p) || (e.Go? && (e.p == p || HoldsLock(ss[k], e.p)))
  {
    RunKeepsInv(ss, es, k);
    var s := ss[k];
    OkAt(s, p);
    if s.procs[p].st == Runnable {
      if s.procs[p].lock == None {
        e := Schedule(p);
      } else {
        LockHolderGoes(s, p);
        e := Go(s.procs[p].lock.value, false);
      }
    } else {
      GoesOrWaits(s, p);
      if Enabled(s, Go(p, false)) {
        e := Go(p, false);
      } else if s.wl.Some? {
        e := WaitLockHolderGoes(s);
      } else {
        LockHolderGoes(s, Wants(s, p));
        e := Go(s.procs[Wants(s, p)].lock.value, false);
      }
    }
  }
}

/**
  The process table as an object (kernel/proc.c) and its runs: whatever sequence of
  allocproc, growproc, fork, freeproc and user stores is made, the free pages and the pages
  of all processes are together what they were, and each process's memory is changed by
  its own calls alone.
 */
module ProcessTable {
  import opened Util
  import opened Param
  import opened Riscv
  import opened PageAlloc
  import opened PageTree
  import opened VirtualMemory
  import opened UserMemory
  import opened AddressSpace
  import opened Processes

  datatype Proc = Unused | Used(trapframe: nat, pt: PageTable, sz: nat)

  ghost function HoldingOf(p: Proc): Holding
    reads if p.Used? then {p.pt} else {}
  {
    if p.Unused? then Nothing else Holding(p.trapframe, p.pt.tree, p.sz)
  }

  /** Each process's own memory, None for an unused slot. */
  type View = seq<Option<Memory>>

  ghost function ViewOf(mem: map<nat, Page>, hs: seq<Holding>): (v: View)
    ensures |v| == |hs|
  {
    seq(|hs|, i requires 0 <= i < |hs| => Contents(mem, hs[i]))
  }

  lemma ViewChanged(mem: map<nat, Page>, hs: seq<Holding>, i: nat, mem': map<nat, Page>, h: Holding)
    requires i < |hs| && forall j: nat :: j < |hs| && j != i ==> Contents(mem', hs[j]) == Contents(mem, hs[j])
    ensures ViewOf(mem', hs[i := h]) == ViewOf(mem, hs)[i := Contents(mem', h)]
  {
    hide Contents;
  }

  lemma Overwritten<T>(v: seq<T>, i: nat, a: T, b: T)
    requires i < |v|
    ensures v[i := a][i := b] == v[i := b] && v[i := v[i]] == v
  {
  }

  /** The space of `pt` is apart from that of another process. */
  lemma TableApart(end: nat, mem: map<nat, Page>, free: set<nat>, trampoline: nat, hs: seq<Holding>, i: nat, j: nat)
    requires TableOk(end, mem, free, trampoline, hs) && i < |hs| && j < |hs| && i != j && hs[i].Holding? && hs[j].Holding?
    ensures Apart(end, mem, free, hs[i].tree, Pages(hs[i].sz), hs[j].tree)
  {
    hide WfTree;
    hide Entry;
    hide Tables;
    hide PagesOf;
    hide PrivatePages;
    hide TopIs;
    assert HoldingOk(end, mem, free, trampoline, hs[i]) && HoldingOk(end, mem, free, trampoline, hs[j]);
    assert if i < j then Held(mem, hs[i]) !! Held(mem, hs[j]) else Held(mem, hs[j]) !! Held(mem, hs[i]);
    SpaceWf(end, mem, free, hs[i].tree, hs[i].sz);
    SpaceWf(end, mem, free, hs[j].tree, hs[j].sz);
  }

  /** OneChanged, with what it does to the view. */
  lemma Moved(end: nat, mem: map<nat, Page>, free: set<nat>, trampoline: nat, hs: seq<Holding>, i: nat,
              mem': map<nat, Page>, free': set<nat>, h: Holding)
    requires TableOk(end, mem, free, trampoline, hs) && i < |hs|
    requires Framed(end, mem, free, mem', free', Held(mem, hs[i]))
    requires HoldingOk(end, mem', free', trampoline, h) && free' + Held(mem', h) == free + Held(mem, hs[i])
    ensures TableOk(end, mem', free', trampoline, hs[i := h])
    ensures free' + AllHeld(mem', hs[i := h]) == free + AllHeld(mem, hs)
    ensures ViewOf(mem', hs[i := h]) == ViewOf(mem, hs)[i := Contents(mem', h)]
  {
    hide *;
    OneChanged(end, mem, free, trampoline, hs, i, mem', free', h);
    ViewChanged(mem, hs, i, mem', h);
  }

  /** A free slot stays free, and only free pages have changed. */
  lemma Unmoved(end: nat, mem: map<nat, Page>, free: set<nat>, trampoline: nat, hs: seq<Holding>, i: nat,
                mem': map<nat, Page>, free': set<nat>)
    requires TableOk(end, mem, free, trampoline, hs) && i < |hs| && hs[i] == Nothing
    requires Framed(end, mem, free, mem', free', {}) && free' == free
    ensures TableOk(end, mem', free', trampoline, hs)
    ensures free' + AllHeld(mem', hs) == free + AllHeld(mem, hs) && ViewOf(mem', hs) == ViewOf(mem, hs)
  {
    hide AllHeld;
    hide TableOk;
    hide Framed;
    Moved(end, mem, free, trampoline, hs, i, mem', free', Nothing);
    assert hs[i := Nothing] == hs;
    Overwritten(ViewOf(mem, hs), i, None, None);
  }

  lemma AllocUndone(end: nat, mem: map<nat, Page>, free: set<nat>, tf: nat, mem1: map<nat, Page>, mem2: map<nat, Page>,
                    mem3: map<nat, Page>)
    requires tf in free && tf in mem1 && mem1 == mem[tf := mem1[tf]] && tf in mem3 && mem3 == mem2[tf := mem3[tf]]
    requires (forall p: nat :: IsPage(end, p) ==> p in mem) && Untouched(end, mem1, free - {tf}, mem2, free - {tf})
    ensures Framed(end, mem, free, mem3, free - {tf} + {tf}, {}) && free - {tf} + {tf} == free
  {
  }

  lemma TableAt(end: nat, mem: map<nat, Page>, free: set<nat>, trampoline: nat, hs: seq<Holding>, i: nat)
    requires TableOk(end, mem, free, trampoline, hs) && i < |hs|
    ensures HoldingOk(end, mem, free, trampoline, hs[i])
    ensures hs[i].Holding? ==> WfTree(mem, hs[i].tree)
    ensures |ViewOf(mem, hs)| == |hs| && ViewOf(mem, hs)[i] == Contents(mem, hs[i])
  {
  }

  lemma NoUserPages(mem: map<nat, Page>, t: Tree)
    requires WfTree(mem, t)
    ensures Footprint(mem, t, 0) == Tables(t)
  {
    assert Pages(0) == 0;
  }

  lemma TooFar(end: nat, mem: map<nat, Page>, free: set<nat>, trampoline: nat, h: Holding, va: nat)
    requires h.Holding? && HoldingOk(end, mem, free, trampoline, h) && va >= MAXVA
    ensures !Writable(Contents(mem, h).value, va)
  {
  }

  /** `h` is what `p` holds. */
  ghost predicate Linked(m: PhysMem, p: Proc, h: Holding)
    reads if p.Used? then {p.pt} else {}
  {
    && h == HoldingOf(p)
    && (p.Used? ==> p.pt.m == m && p.pt.root == p.pt.tree.root)
  }

  ghost predicate Distinct(procs: seq<Proc>) {
    forall i: nat, j: nat :: i < j < |procs| && procs[i].Used? && procs[j].Used? ==> procs[i].pt != procs[j].pt
  }

  lemma OwnTable(procs: seq<Proc>, i: nat)
    requires Distinct(procs) && i < |procs| && procs[i].Used?
    ensures forall k: nat :: k < |procs| && k != i && procs[k].Used? ==> procs[k].pt != procs[i].pt
  {
  }

  lemma DistinctKept(procs: seq<Proc>, i: nat, p: Proc)
    requires Distinct(procs) && i < |procs|
    requires p.Used? && procs[i].Used? ==> p.pt == procs[i].pt
    requires p.Used? && procs[i].Unused? ==> forall j: nat :: j < |procs| && procs[j].Used? ==> procs[j].pt != p.pt
    ensures Distinct(procs[i := p])
  {
  }

  // ---------- each process as if it had a memory of its own ----------

  datatype Call = Alloc | Grow(i: nat, n: int) | Fork(i: nat) | Free(i: nat) | Store(i: nat, va: nat, w: int)

  /** What growproc by `n` makes of a memory. */
  ghost function GrownBy(before: Memory, n: int): Memory {
    var sz := if before.sz + n >= 0 then before.sz + n else before.sz;
    Memory(Resized(before.pages, Pages(sz)), sz)
  }

  /** The arguments are an int and an aligned address. */
  predicate Proper(c: Call) {
    (c.Grow? ==> -0x8000_0000 <= c.n < 0x8000_0000) && (c.Store? ==> c.va % 8 == 0)
  }

  /** What a call that returned `r` does.  Calls by processes that are not there do nothing. */
  ghost function After(v: View, c: Call, r: int): (v': View)
    ensures |v'| == |v|
  {
    if c.Alloc? then
      (if 0 <= r < |v| then v[r := Some(Memory([], 0))] else v)
    else if !Proper(c) || c.i >= |v| || v[c.i].None? then v
    else
      match c
      case Grow(i, n) => if r == 0 then v[i := Some(GrownBy(v[i].value, n))] else v
      case Fork(i) => if 0 <= r < |v| then v[r := v[i]] else v
      case Free(i) => v[i := None]
      case Store(i, va, w) => v[i := Some(Stored(v[i].value, va, w))]
  }

  ghost function AfterAll(v: View, calls: seq<Call>, rs: seq<int>): (v': View)
    requires |rs| == |calls|
    ensures |v'| == |v|
  {
    var n := |calls| - 1;
    if n < 0 then v else After(AfterAll(v, calls[..n], rs[..n]), calls[n], rs[n])
  }

  /** The call is made by process `i` on its own memory, or creates it. */
  predicate Concerns(c: Call, r: int, i: nat) {
    if c.Alloc? || c.Fork? then r == i else c.i == i
  }

  /** Nothing that other processes do, whatever the run, shows in the memory of process `i`. */
  lemma {:induction false} Isolated(v: View, calls: seq<Call>, rs: seq<int>, i: nat)
    requires |rs| == |calls| && i < |v|
    requires forall k: nat :: k < |calls| ==> !Concerns(calls[k], rs[k], i)
    ensures AfterAll(v, calls, rs)[i] == v[i]
  {
    var n := |calls| - 1;
    if n >= 0 {
      Isolated(v, calls[..n], rs[..n], i);
      assert !Concerns(calls[n], rs[n], i);
    }
  }

  lemma NoneHeld(end: nat, mem: map<nat, Page>, free: set<nat>, trampoline: nat, hs: seq<Holding>)
    requires TableOk(end, mem, free, trampoline, hs) && forall i: nat :: i < |hs| ==> ViewOf(mem, hs)[i] == None
    ensures AllHeld(mem, hs) == {}
  {
    hide WfTree;
    forall i: nat | i < |hs| ensures Held(mem, hs[i]) == {} {
      assert HoldingOk(end, mem, free, trampoline, hs[i]) && ViewOf(mem, hs)[i] == None;
    }
  }

  class ProcTable {
    const m: PhysMem
    const trampoline: nat
    var procs: seq<Proc>

    /** What each process holds. */
    ghost var hs: seq<Holding>

    ghost function PageTables(): set<PageTable>
      reads this
    {
      set i: nat | i < |procs| && procs[i].Used? :: procs[i].pt
    }

    ghost predicate Valid()
      reads this, m, PageTables()
    {
      && m.Valid()
      && |procs| == |hs| == NPROC
      && (forall i: nat :: i < NPROC ==> Linked(m, procs[i], hs[i]))
      && Distinct(procs)
      && TableOk(m.end, m.mem, m.free, trampoline, hs)
    }

    /** Every page of memory the table and the allocator have between them. */
    ghost function Everything(): set<nat>
      reads this, m
    {
      m.free + AllHeld(m.mem, hs)
    }

    ghost function Memories(): View
      reads this, m
    {
      ViewOf(m.mem, hs)
    }

    /** procinit. */
    constructor (m: PhysMem, trampoline: nat)
      requires m.Valid()
      ensures Valid() && this.m == m && this.trampoline == trampoline
      ensures PageTables() == {} && Everything() == m.free && Memories() == seq(NPROC, _ => None)
    {
      this.m := m;
      this.trampoline := trampoline;
      procs := seq(NPROC, _ => Unused);
      hs := seq(NPROC, _ => Nothing);
    }

    /** Slot `i` becomes `p`, which holds `h`. */
    method Put(i: nat, p: Proc, ghost h: Holding)
      requires |procs| == |hs| == NPROC && i < NPROC && Distinct(procs[i := p])
      requires Linked(m, p, h) && forall k: nat :: k < NPROC && k != i ==> Linked(m, procs[k], hs[k])
      requires m.Valid() && TableOk(m.end, m.mem, m.free, trampoline, hs[i := h])
      modifies this
      ensures Valid() && procs == old(procs)[i := p] && hs == old(hs)[i := h]
      ensures PageTables() <= old(PageTables()) + if p.Used? then {p.pt} else {}
    {
      hide PhysMem.Valid;
      hide TableOk;
      procs := procs[i := p];
      hs := hs[i := h];
    }

    /** allocproc: the first unused slot, with a trapframe and an empty address space; or -1,
        and then nothing has been taken. */
    method Allocproc() returns (r: int)
      requires Valid()
      modifies this, m
      ensures Valid() && fresh(PageTables() - old(PageTables())) && Everything() == old(Everything())
      ensures r < 0 ==> r == -1 && Memories() == old(Memories()) && m.free == old(m.free) && procs == old(procs)
      ensures r >= 0 ==>
                && r < NPROC && old(procs)[r].Unused? && (forall i: nat :: i < r ==> old(procs)[i].Used?)
                && Memories() == old(Memories())[r := Some(Memory([], 0))]
                && procs[r].Used? && procs == old(procs)[r := procs[r]] && fresh(procs[r].pt) && procs[r].sz == 0
                && m.free + Held(m.mem, hs[r]) == old(m.free)
    {
      hide ValidLists;
      hide InLists;
      hide TableOk;
      hide AllHeld;
      hide ViewOf;
      hide WfTree;
      hide Entry;
      hide Tables;
      hide IsSpace;
      hide Framed;
      hide PA2PTE;
      hide Distinct;
      var i := 0;
      while i < NPROC && procs[i].Used?
        invariant 0 <= i <= NPROC && forall j: nat :: j < i ==> procs[j].Used?
      {
        i := i + 1;
      }
      if i == NPROC {
        return -1;
      }
      ghost var end, mem0, free0 := m.end, m.mem, m.free;
      var tf := KallocHere(m);
      if tf == 0 {
        return -1;
      }
      ghost var mem1 := m.mem;
      var pt := ProcPagetable(m, trampoline, tf);
      if pt == null {
        ghost var mem2 := m.mem;
        m.Kfree(tf);
        AllocUndone(end, mem0, free0, tf, mem1, mem2, m.mem);
        Unmoved(end, mem0, free0, trampoline, hs, i, m.mem, m.free);
        return -1;
      }
      NewHolding(end, mem0, free0, trampoline, tf, mem1[tf], m.mem, m.free, pt.tree);
      Moved(end, mem0, free0, trampoline, hs, i, m.mem, m.free, Holding(tf, pt.tree, 0));
      DistinctKept(procs, i, Used(tf, pt, 0));
      Put(i, Used(tf, pt, 0), Holding(tf, pt.tree, 0));
      r := i;
    }

    /** freeproc of a process: all it held goes back, exactly once. */
    method Freeproc(i: nat)
      requires Valid() && i < NPROC && procs[i].Used?
      modifies this, m, PageTables()
      ensures Valid() && PageTables() <= old(PageTables()) && Everything() == old(Everything())
      ensures procs == old(procs)[i := Unused] && Memories() == old(Memories())[i := None]
      ensures m.free == old(m.free) + Held(old(m.mem), old(hs)[i]) && old(m.free) !! Held(old(m.mem), old(hs)[i])
    {
      hide ValidLists;
      hide InLists;
      hide TableOk;
      hide AllHeld;
      hide ViewOf;
      hide WfTree;
      hide Entry;
      hide Tables;
      hide PagesOf;
      hide IsSpace;
      hide Framed;
      hide PA2PTE;
      hide Distinct;
      ghost var end, mem0, free0, h := m.end, m.mem, m.free, hs[i];
      TableAt(end, mem0, free0, trampoline, hs, i);
      HeldTaken(end, mem0, free0, trampoline, h);
      var p := procs[i];
      OwnTable(procs, i);
      m.Kfree(p.trapframe);
      ghost var mem1 := m.mem;
      TrapframeFreed(end, mem0, free0, trampoline, h, mem1[p.trapframe]);
      SpaceWf(end, mem1, m.free, h.tree, h.sz);
      ProcFreepagetable(p.pt, p.sz);
      HoldingFreed(end, mem0, free0, h, mem1, m.mem, m.free);
      Moved(end, mem0, free0, trampoline, hs, i, m.mem, m.free, Nothing);
      DistinctKept(procs, i, Unused);
      Put(i, Unused, Nothing);
    }

    /** growproc of process `i` by any int: 0, and the memory resized; or -1, unchanged. */
    method Growproc(i: nat, n: int) returns (r: int)
      requires Valid() && i < NPROC && procs[i].Used? && -0x8000_0000 <= n < 0x8000_0000
      modifies this, m, PageTables()
      ensures Valid() && PageTables() <= old(PageTables()) && Everything() == old(Everything())
      ensures r == 0 || (r == -1 && n > 0)
      ensures Memories() == After(old(Memories()), Call.Grow(i, n), r)
    {
      hide ValidLists;
      hide InLists;
      hide TableOk;
      hide AllHeld;
      hide ViewOf;
      hide WfTree;
      hide Entry;
      hide Tables;
      hide PagesOf;
      hide IsSpace;
      hide Framed;
      hide PA2PTE;
      hide Distinct;
      ghost var end, mem0, free0, h := m.end, m.mem, m.free, hs[i];
      TableAt(end, mem0, free0, trampoline, hs, i);
      var p := procs[i];
      OwnTable(procs, i);
      var sz';
      r, sz' := AddressSpace.Growproc(p.pt, p.sz, n);
      ResizedSame(Image(mem0, h.tree, Pages(h.sz)));
      ChangedHolding(end, mem0, free0, trampoline, h, m.mem, m.free, p.pt.tree, sz', Footprint(mem0, h.tree, h.sz));
      ghost var h' := Holding(p.trapframe, p.pt.tree, sz');
      Moved(end, mem0, free0, trampoline, hs, i, m.mem, m.free, h');
      DistinctKept(procs, i, Used(p.trapframe, p.pt, sz'));
      Put(i, Used(p.trapframe, p.pt, sz'), h');
    }

    /** fork of process `i`: a new process with a copy of its memory; or -1, and then whatever
        was taken on the way has been given back. */
    method Fork(i: nat) returns (r: int)
      requires Valid() && i < NPROC && procs[i].Used?
      modifies this, m, PageTables()
      ensures Valid() && fresh(PageTables() - old(PageTables())) && Everything() == old(Everything())
      ensures r < 0 ==> r == -1 && Memories() == old(Memories()) && m.free == old(m.free) && procs == old(procs)
      ensures r >= 0 ==>
                && r < NPROC && old(procs)[r].Unused? && (forall i: nat :: i < r ==> old(procs)[i].Used?)
                && Memories() == old(Memories())[r := old(Memories())[i]]
    {
      hide ValidLists;
      hide InLists;
      hide TableOk;
      hide AllHeld;
      hide ViewOf;
      hide WfTree;
      hide Entry;
      hide Tables;
      hide PagesOf;
      hide IsSpace;
      hide Framed;
      hide PA2PTE;
      hide Distinct;
      hide Apart;
      ghost var view0, procs0 := Memories(), procs;
      r := Allocproc();
      if r < 0 {
        return;
      }
      TableAt(m.end, old(m.mem), old(m.free), trampoline, old(hs), r);
      ghost var view1, procs1 := Memories(), procs;
      var ok := CopyInto(i, r);
      Overwritten(view0, r, view1[r], Memories()[r]);
      if !ok {
        Overwritten(view0, r, Memories()[r], None);
        Overwritten(procs0, r, procs1[r], procs[r]);
        Overwritten(procs0, r, procs[r], Unused);
        Freeproc(r);
        return -1;
      }
    }

    /** fork's uvmcopy from process `i` into the newly allocated process `j`. */
    method CopyInto(i: nat, j: nat) returns (ok: bool)
      requires Valid() && i < NPROC && j < NPROC && i != j && procs[i].Used? && procs[j].Used? && procs[j].sz == 0
      modifies this, m, PageTables()
      ensures Valid() && PageTables() <= old(PageTables()) && Everything() == old(Everything())
      ensures procs[j].Used? && procs == old(procs)[j := procs[j]]
      ensures m.free + Held(m.mem, hs[j]) == old(m.free + Held(m.mem, hs[j]))
      ensures Memories() == old(Memories())[j := if ok then old(Memories())[i] else Memories()[j]]
    {
      hide ValidLists;
      hide InLists;
      hide TableOk;
      hide AllHeld;
      hide ViewOf;
      hide WfTree;
      hide Entry;
      hide Tables;
      hide PagesOf;
      hide IsSpace;
      hide Framed;
      hide PA2PTE;
      hide Distinct;
      hide Apart;
      hide Image;
      ghost var end, mem0, free0, h := m.end, m.mem, m.free, hs[j];
      TableAt(end, mem0, free0, trampoline, hs, i);
      TableAt(end, mem0, free0, trampoline, hs, j);
      TableApart(end, mem0, free0, trampoline, hs, i, j);
      NoUserPages(mem0, h.tree);
      var p, np := procs[i], procs[j];
      OwnTable(procs, i);
      OwnTable(procs, j);
      ok := ForkMemory(p.pt, np.pt, p.sz);
      var sz := if ok then p.sz else 0;
      ghost var h' := Holding(np.trapframe, np.pt.tree, sz);
      ChangedHolding(end, mem0, free0, trampoline, h, m.mem, m.free, np.pt.tree, sz, Tables(h.tree));
      Moved(end, mem0, free0, trampoline, hs, j, m.mem, m.free, h');
      DistinctKept(procs, j, Used(np.trapframe, np.pt, sz));
      Put(j, Used(np.trapframe, np.pt, sz), h');
    }

    /** A store by the code of process `i`, through the page table, of the word at `va`: 0, or
        -1 for a page fault. */
    method Store(i: nat, va: nat, w: int) returns (r: int)
      requires Valid() && i < NPROC && procs[i].Used? && va % 8 == 0
      modifies this, m
      ensures Valid() && procs == old(procs) && Everything() == old(Everything()) && m.free == old(m.free)
      ensures r == if old(Memories())[i].Some? && Writable(old(Memories())[i].value, va) then 0 else -1
      ensures Memories() == After(old(Memories()), Call.Store(i, va, w), r)
    {
      hide ValidLists;
      hide InLists;
      hide TableOk;
      hide AllHeld;
      hide ViewOf;
      hide WfTree;
      hide Entry;
      hide Tables;
      hide PagesOf;
      hide IsSpace;
      hide Framed;
      hide PA2PTE;
      hide Distinct;
      hide HardwareWalk;
      hide UserWritable;
      ghost var end, mem0, free0, h := m.end, m.mem, m.free, hs[i];
      TableAt(end, mem0, free0, trampoline, hs, i);
      Overwritten(Memories(), i, None, None);
      if va >= MAXVA {
        TooFar(end, mem0, free0, trampoline, h, va);
        return -1;
      }
      StoreAllowed(end, mem0, free0, trampoline, h, va);
      var e := HardwareWalk(m.mem, procs[i].pt.root, 2, va);
      if e == 0 || !UserWritable(FlagsOf(e)) {
        return -1;
      }
      StoreDone(end, mem0, free0, trampoline, h, va, w);
      m.Store(PhysPage(e), va % PGSIZE / 8, w);
      Moved(end, mem0, free0, trampoline, hs, i, m.mem, m.free, h);
      assert hs[i := h] == hs;
      r := 0;
    }

    /** One call, which fails with -1 and does nothing when its process does not exist. */
    method Do(c: Call) returns (r: int)
      requires Valid()
      modifies this, m, PageTables()
      ensures Valid() && fresh(PageTables() - old(PageTables())) && Everything() == old(Everything())
      ensures Memories() == After(old(Memories()), c, r)
    {
      hide ValidLists;
      hide InLists;
      hide TableOk;
      hide AllHeld;
      hide ViewOf;
      hide Distinct;
      hide GrownBy;
      hide Stored;
      if c.Alloc? {
        r := Allocproc();
        return;
      }
      r := -1;
      if c.i < NPROC {
        TableAt(m.end, m.mem, m.free, trampoline, hs, c.i);
        if Proper(c) && procs[c.i].Used? {
          match c {
            case Grow(i, n) => r := Growproc(i, n);
            case Fork(i) => r := Fork(i);
            case Free(i) => Freeproc(i); r := 0;
            case Store(i, va, w) => r := Store(i, va, w);
          }
        }
      }
    }

    /** Any run: no page is lost, made or shared, and the memories are those of a machine where
        each process has its own.  Once every process is gone, all pages are free again. */
    method Run(calls: seq<Call>) returns (rs: seq<int>)
      requires Valid()
      modifies this, m, PageTables()
      ensures Valid() && fresh(PageTables() - old(PageTables())) && Everything() == old(Everything())
      ensures |rs| == |calls| && Memories() == AfterAll(old(Memories()), calls, rs)
      ensures (forall i: nat :: i < NPROC ==> Memories()[i] == None) ==> m.free == old(Everything())
    {
      hide After;
      hide ValidLists;
      hide InLists;
      hide TableOk;
      hide AllHeld;
      hide ViewOf;
      hide Distinct;
      rs := [];
      while |rs| < |calls|
        invariant |rs| <= |calls| && Valid() && fresh(PageTables() - old(PageTables()))
        invariant Everything() == old(Everything()) && Memories() == AfterAll(old(Memories()), calls[..|rs|], rs)
      {
        var k := |rs|;
        assert calls[..k + 1][..k] == calls[..k];
        var r := Do(calls[k]);
        assert (rs + [r])[..k] == rs;
        rs := rs + [r];
      }
      assert calls[..|calls|] == calls;
      if forall i: nat :: i < NPROC ==> Memories()[i] == None {
        NoneHeld(m.end, m.mem, m.free, trampoline, hs);
      }
    }
  }
}

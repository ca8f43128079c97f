/**
  The process table's memory (kernel/proc.c): allocproc, fork, growproc and freeproc, and
  the stores of user code through the hardware's page walk.  Over any run every page of
  memory is either free or held by exactly one process, and each process sees a memory of
  its own.
 */
module Processes {
  import opened Util
  import opened Riscv
  import opened PageAlloc
  import opened PageTree
  import opened VirtualMemory
  import opened UserMemory
  import opened AddressSpace

  // ---------- what a process holds ----------

  /** What a process needs of its page table: the trapframe page, the tree and the size. */
  datatype Holding = Nothing | Holding(trapframe: nat, tree: Tree, sz: nat)

  /** The user's view: the bytes and permissions of each page, and the size. */
  datatype Memory = Memory(pages: seq<UserPage>, sz: nat)

  /** The pages of a process: its trapframe, its tables and its user pages. */
  ghost function Held(mem: map<nat, Page>, h: Holding): set<nat> {
    if h.Nothing? || !WfTree(mem, h.tree) then {} else {h.trapframe} + Footprint(mem, h.tree, h.sz)
  }

  ghost function Contents(mem: map<nat, Page>, h: Holding): Option<Memory> {
    if h.Nothing? || !WfTree(mem, h.tree) then None else Some(Memory(Image(mem, h.tree, Pages(h.sz)), h.sz))
  }

  /** A space whose top pages are the trampoline, and the process's own trapframe, neither
      of them for the user. */
  ghost predicate TopIs(mem: map<nat, Page>, t: Tree, trampoline: nat, trapframe: nat) {
    && WfTree(mem, t)
    && Entry(mem, t, TRAMPOLINE_VPN) == PA2PTE(trampoline) + PTE_R + PTE_X + PTE_V
    && Entry(mem, t, TRAPFRAME_VPN) == PA2PTE(trapframe) + PTE_R + PTE_W + PTE_V
  }

  ghost predicate HoldingOk(end: nat, mem: map<nat, Page>, free: set<nat>, trampoline: nat, h: Holding) {
    h.Nothing? ||
    (&& IsSpace(end, mem, free, h.tree, h.sz)
     && Owned(end, free, Tables(h.tree))
     && IsPage(end, h.trapframe)
     && h.trapframe !in free
     && h.trapframe !in Footprint(mem, h.tree, h.sz)
     && TopIs(mem, h.tree, trampoline, h.trapframe))
  }

  /** No page is held twice, or held and free. */
  ghost predicate TableOk(end: nat, mem: map<nat, Page>, free: set<nat>, trampoline: nat, hs: seq<Holding>) {
    && (forall i: nat :: i < |hs| ==> HoldingOk(end, mem, free, trampoline, hs[i]))
    && (forall i: nat, j: nat :: i < j < |hs| ==> Held(mem, hs[i]) !! Held(mem, hs[j]))
  }

  ghost function AllHeld(mem: map<nat, Page>, hs: seq<Holding>): set<nat> {
    set i: nat, p | i < |hs| && p in Held(mem, hs[i]) :: p
  }

  lemma HeldTaken(end: nat, mem: map<nat, Page>, free: set<nat>, trampoline: nat, h: Holding)
    requires HoldingOk(end, mem, free, trampoline, h)
    ensures free !! Held(mem, h)
    ensures forall p :: p in Held(mem, h) ==> IsPage(end, p)
  {
    hide WfTree;
    hide Entry;
    hide Tables;
    hide PhysPage;
  }

  /** What happens to pages a process does not hold does not matter to it. */
  lemma HoldingKept(end: nat, mem: map<nat, Page>, free: set<nat>, trampoline: nat, h: Holding,
                    mem': map<nat, Page>, free': set<nat>, own: set<nat>)
    requires HoldingOk(end, mem, free, trampoline, h) && Held(mem, h) !! own
    requires Framed(end, mem, free, mem', free', own)
    ensures HoldingOk(end, mem', free', trampoline, h)
    ensures Held(mem', h) == Held(mem, h) && Contents(mem', h) == Contents(mem, h)
  {
    hide WfTree;
    hide Entry;
    hide Tables;
    hide PhysPage;
    hide IsSpace;
    hide Image;
    hide PagesOf;
    if h.Holding? {
      SpaceWf(end, mem, free, h.tree, h.sz);
      SpaceFrame(end, mem, free, h.tree, h.sz, mem', free', own);
    }
  }

  lemma SpaceWf(end: nat, mem: map<nat, Page>, free: set<nat>, t: Tree, sz: nat)
    requires IsSpace(end, mem, free, t, sz)
    ensures WfTree(mem, t)
  {
  }

  lemma SpaceFrame(end: nat, mem: map<nat, Page>, free: set<nat>, t: Tree, sz: nat, mem': map<nat, Page>, free': set<nat>, own: set<nat>)
    requires IsSpace(end, mem, free, t, sz) && Owned(end, free, Tables(t)) && Footprint(mem, t, sz) !! own
    requires Framed(end, mem, free, mem', free', own)
    ensures IsSpace(end, mem', free', t, sz) && Owned(end, free', Tables(t)) && SameTop(mem, t, mem', t)
    ensures Image(mem', t, Pages(sz)) == Image(mem, t, Pages(sz)) && PagesOf(mem', t, 0, Pages(sz)) == PagesOf(mem, t, 0, Pages(sz))
  {
    hide PhysPage;
    forall p | p in Tables(t) ensures p in mem && p in mem' && mem'[p] == mem[p] && p !in free' {
    }
    TreeFrame(mem, mem', t);
    hide WfTree;
    hide Entry;
    hide Tables;
    var n := Pages(sz);
    forall v: nat | v < n ensures var p := PhysPage(Entry(mem, t, v)); p !in own && p !in free' && IsPage(end, p) {
      assert PhysPage(Entry(mem, t, v)) in PagesOf(mem, t, 0, n);
    }
    forall v: nat ensures Entry(mem', t, v) == Entry(mem, t, v) {
    }
    ImageKept(end, mem, free, t, mem', free', t, n, own);
  }

  /** One process's pages, or the free ones, have changed: the others keep theirs, and no
      page is lost or made. */
  lemma OneChanged(end: nat, mem: map<nat, Page>, free: set<nat>, trampoline: nat, hs: seq<Holding>, i: nat,
                   mem': map<nat, Page>, free': set<nat>, h: Holding)
    requires TableOk(end, mem, free, trampoline, hs) && i < |hs|
    requires Framed(end, mem, free, mem', free', Held(mem, hs[i]))
    requires HoldingOk(end, mem', free', trampoline, h) && free' + Held(mem', h) == free + Held(mem, hs[i])
    ensures TableOk(end, mem', free', trampoline, hs[i := h])
    ensures free' + AllHeld(mem', hs[i := h]) == free + AllHeld(mem, hs)
    ensures forall j: nat :: j < |hs| && j != i ==> Contents(mem', hs[j]) == Contents(mem, hs[j])
  {
    hide HoldingOk;
    hide Held;
    hide Contents;
    hide Framed;
    var hs' := hs[i := h];
    HeldTaken(end, mem', free', trampoline, h);
    forall j: nat | j < |hs| && j != i
      ensures HoldingOk(end, mem', free', trampoline, hs[j])
      ensures Held(mem', hs[j]) == Held(mem, hs[j]) && Contents(mem', hs[j]) == Contents(mem, hs[j])
      ensures Held(mem, hs[j]) !! Held(mem, hs[i]) && Held(mem, hs[j]) !! free
    {
      assert HoldingOk(end, mem, free, trampoline, hs[j]);
      assert if j < i then Held(mem, hs[j]) !! Held(mem, hs[i]) else Held(mem, hs[i]) !! Held(mem, hs[j]);
      HeldTaken(end, mem, free, trampoline, hs[j]);
      HoldingKept(end, mem, free, trampoline, hs[j], mem', free', Held(mem, hs[i]));
    }
    forall j: nat, k: nat | j < k < |hs'| ensures Held(mem', hs'[j]) !! Held(mem', hs'[k]) {
      assert j != i && k != i ==> Held(mem, hs[j]) !! Held(mem, hs[k]);
    }
    Balance(mem, free, hs, i, mem', free', h);
  }

  lemma Balance(mem: map<nat, Page>, free: set<nat>, hs: seq<Holding>, i: nat, mem': map<nat, Page>, free': set<nat>, h: Holding)
    requires i < |hs| && free' + Held(mem', h) == free + Held(mem, hs[i])
    requires forall j: nat :: j < |hs| && j != i ==> Held(mem', hs[j]) == Held(mem, hs[j])
    ensures free' + AllHeld(mem', hs[i := h]) == free + AllHeld(mem, hs)
  {
    hide Held;
    var hs' := hs[i := h];
    forall p ensures p in free' + AllHeld(mem', hs') <==> p in free + AllHeld(mem, hs) {
      assert p in free' + Held(mem', hs'[i]) <==> p in free + Held(mem, hs[i]);
      if p in AllHeld(mem, hs) {
        var j: nat :| j < |hs| && p in Held(mem, hs[j]);
        assert j != i ==> p in Held(mem', hs'[j]);
      }
      if p in AllHeld(mem', hs') {
        var j: nat :| j < |hs'| && p in Held(mem', hs'[j]);
        assert j != i ==> p in Held(mem, hs[j]);
      }
    }
  }

  // ---------- what each operation does to the pages of one process ----------

  /** A page off the free list and a new page table make a process with no user memory. */
  lemma NewHolding(end: nat, mem: map<nat, Page>, free: set<nat>, trampoline: nat, tf: nat, page: Page,
                   mem': map<nat, Page>, free': set<nat>, t: Tree)
    requires tf in free && IsPage(end, tf) && forall p: nat :: IsPage(end, p) ==> p in mem
    requires Untouched(end, mem[tf := page], free - {tf}, mem', free') && free' + Tables(t) == free - {tf}
    requires IsSpace(end, mem', free', t, 0) && Owned(end, free', Tables(t)) && TopIs(mem', t, trampoline, tf)
    ensures var h := Holding(tf, t, 0);
            && HoldingOk(end, mem', free', trampoline, h)
            && free' + Held(mem', h) == free
            && Contents(mem', h) == Some(Memory([], 0))
            && Framed(end, mem, free, mem', free', {})
  {
    hide WfTree;
    hide Entry;
    hide Tables;
    hide PhysPage;
    assert Pages(0) == 0;
    assert PagesOf(mem', t, 0, 0) == {};
    assert Image(mem', t, 0) == [];
  }

  /** The space of one process has become another of the same pages and free pages. */
  lemma ChangedHolding(end: nat, mem: map<nat, Page>, free: set<nat>, trampoline: nat, h: Holding,
                       mem': map<nat, Page>, free': set<nat>, t': Tree, sz': nat, own: set<nat>)
    requires h.Holding? && HoldingOk(end, mem, free, trampoline, h)
    requires IsSpace(end, mem', free', t', sz') && Owned(end, free', Tables(t')) && SameTop(mem, h.tree, mem', t')
    requires free' + Footprint(mem', t', sz') == free + Footprint(mem, h.tree, h.sz)
    requires Framed(end, mem, free, mem', free', own) && own <= Footprint(mem, h.tree, h.sz)
    ensures HoldingOk(end, mem', free', trampoline, Holding(h.trapframe, t', sz'))
    ensures free' + Held(mem', Holding(h.trapframe, t', sz')) == free + Held(mem, h)
    ensures Framed(end, mem, free, mem', free', Held(mem, h))
  {
    hide WfTree;
    hide Entry;
    hide Tables;
    hide PagesOf;
    hide PrivatePages;
    var f, f' := Footprint(mem, h.tree, h.sz), Footprint(mem', t', sz');
    assert h.trapframe !in free + f;
    hide Footprint;
    assert free' + ({h.trapframe} + f') == {h.trapframe} + (free' + f') == free + ({h.trapframe} + f);
  }

  /** The trapframe page has been freed: the space is still there. */
  lemma TrapframeFreed(end: nat, mem: map<nat, Page>, free: set<nat>, trampoline: nat, h: Holding, page: Page)
    requires h.Holding? && HoldingOk(end, mem, free, trampoline, h) && forall p: nat :: IsPage(end, p) ==> p in mem
    ensures var mem', free' := mem[h.trapframe := page], free + {h.trapframe};
            && IsSpace(end, mem', free', h.tree, h.sz)
            && Owned(end, free', Tables(h.tree))
            && Footprint(mem', h.tree, h.sz) == Footprint(mem, h.tree, h.sz)
            && Framed(end, mem, free, mem', free', {h.trapframe})
  {
    hide WfTree;
    hide Entry;
    hide Tables;
    hide PagesOf;
    hide IsSpace;
    var mem', free' := mem[h.trapframe := page], free + {h.trapframe};
    SpaceFrame(end, mem, free, h.tree, h.sz, mem', free', {h.trapframe});
  }

  lemma HoldingFreed(end: nat, mem: map<nat, Page>, free: set<nat>, h: Holding, mem1: map<nat, Page>, mem2: map<nat, Page>, free2: set<nat>)
    requires h.Holding? && WfTree(mem, h.tree)
    requires Framed(end, mem, free, mem1, free + {h.trapframe}, {h.trapframe})
    requires Framed(end, mem1, free + {h.trapframe}, mem2, free2, Footprint(mem, h.tree, h.sz))
    requires free2 == free + {h.trapframe} + Footprint(mem, h.tree, h.sz)
    ensures Framed(end, mem, free, mem2, free2, Held(mem, h))
    ensures free2 + Held(mem2, Nothing) == free + Held(mem, h)
  {
    hide WfTree;
    hide Footprint;
  }

  // ---------- stores by user code ----------

  /** Whether a store at `va` goes through rather than causing a page fault. */
  predicate Writable(m: Memory, va: nat) {
    va / PGSIZE < |m.pages| && UserWritable(m.pages[va / PGSIZE].flags)
  }

  /** What a store of `w` at `va` makes of a memory. */
  function Stored(m: Memory, va: nat, w: int): Memory {
    var v, k := va / PGSIZE, va % PGSIZE / 8;
    if Writable(m, va) && k < |m.pages[v].contents| then
      m.(pages := m.pages[v := m.pages[v].(contents := m.pages[v].contents[k := w])])
    else m
  }

  lemma TopFlags(pa: nat, flags: nat)
    requires flags < 16
    ensures FlagsOf(PA2PTE(pa) + flags) == flags && !UserWritable(flags)
  {
    EntryBits(pa / PGSIZE, flags);
  }

  /** The hardware lets a store through exactly where the user's view says so. */
  lemma StoreAllowed(end: nat, mem: map<nat, Page>, free: set<nat>, trampoline: nat, h: Holding, va: nat)
    requires h.Holding? && HoldingOk(end, mem, free, trampoline, h) && va < MAXVA
    ensures var e := HardwareWalk(mem, h.tree.root, 2, va);
            && e == Entry(mem, h.tree, va / PGSIZE)
            && (e != 0 && UserWritable(FlagsOf(e)) <==> Writable(Contents(mem, h).value, va))
  {
    hide WfTree;
    hide Entry;
    hide Tables;
    hide PA2PTE;
    hide FlagsOf;
    hide UserWritable;
    hide HardwareWalk;
    TreeRefinesFlatMap(mem, h.tree, va);
    TopFlags(h.trapframe, PTE_R + PTE_W + PTE_V);
    TopFlags(trampoline, PTE_R + PTE_X + PTE_V);
    assert Entry(mem, h.tree, va / PGSIZE) != 0 <==>
           va / PGSIZE < Pages(h.sz) || va / PGSIZE == TRAPFRAME_VPN || va / PGSIZE == TRAMPOLINE_VPN;
  }

  /** Writing the physical page behind virtual page `v` changes that page of the image only. */
  lemma PageWritten(end: nat, mem: map<nat, Page>, free: set<nat>, t: Tree, n: nat, v: nat, contents: Page)
    requires PrivatePages(end, mem, free, t, 0, n) && v < n
    requires forall p: nat :: IsPage(end, p) ==> p in mem
    ensures var p := PhysPage(Entry(mem, t, v));
            && p in PagesOf(mem, t, 0, n)
            && var mem' := mem[p := contents];
               && SameMap(mem, t, mem', t)
               && PrivatePages(end, mem', free, t, 0, n)
               && PagesOf(mem', t, 0, n) == PagesOf(mem, t, 0, n)
               && Image(mem', t, n) == Image(mem, t, n)[v := UserPage(contents, FlagsOf(Entry(mem, t, v)))]
  {
    hide PhysPage;
    hide FlagsOf;
    var p := PhysPage(Entry(mem, t, v));
    var mem': map<nat, Page> := mem[p := contents];
    TreeFrame(mem, mem', t);
    hide WfTree;
    hide Entry;
    hide Tables;
    assert forall u: nat :: Entry(mem', t, u) == Entry(mem, t, u);
    forall u: nat | u < n ensures u != v <==> PhysPage(Entry(mem, t, u)) != p {
    }
  }

  /** A store changes the one word of the one process. */
  lemma StoreDone(end: nat, mem: map<nat, Page>, free: set<nat>, trampoline: nat, h: Holding, va: nat, w: int)
    requires h.Holding? && HoldingOk(end, mem, free, trampoline, h)
    requires Writable(Contents(mem, h).value, va)
    requires forall p: nat :: IsPage(end, p) ==> p in mem && |mem[p]| == PGWORDS
    ensures var p := PhysPage(Entry(mem, h.tree, va / PGSIZE));
            && IsPage(end, p) && p !in free && p in mem && va % PGSIZE / 8 < |mem[p]|
            && var mem' := mem[p := mem[p][va % PGSIZE / 8 := w]];
               && HoldingOk(end, mem', free, trampoline, h)
               && Held(mem', h) == Held(mem, h)
               && Framed(end, mem, free, mem', free, Held(mem, h))
               && Contents(mem', h) == Some(Stored(Contents(mem, h).value, va, w))
  {
    hide WfTree;
    hide Entry;
    hide Tables;
    hide PagesOf;
    hide PhysPage;
    hide FlagsOf;
    hide UserWritable;
    hide PA2PTE;
    var v, k, t, n := va / PGSIZE, va % PGSIZE / 8, h.tree, Pages(h.sz);
    var p := PhysPage(Entry(mem, t, v));
    assert IsPage(end, p) && p !in free;
    var mem': map<nat, Page> := mem[p := mem[p][k := w]];
    PageWritten(end, mem, free, t, n, v, mem[p][k := w]);
    assert Image(mem, t, n)[v] == UserPage(mem[p], FlagsOf(Entry(mem, t, v)));
    hide Image;
    hide PrivatePages;
    assert forall u: nat :: Entry(mem', t, u) == Entry(mem, t, u);
  }
}

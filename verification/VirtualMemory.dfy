/**
  Page tables over the page allocator (kernel/vm.c): walk, mappages and uvmunmap, with
  kalloc free to fail anywhere.
 */
module VirtualMemory {
  import opened Util
  import opened Param
  import opened Riscv
  import opened PageAlloc
  import opened PageTree

  /** The address of a page-table entry: a table page and an index. */
  datatype PteRef = PteRef(page: nat, index: nat)

  /** Pages that were allocated and are not in `own` are still allocated and unchanged. */
  ghost predicate Framed(end: nat, mem: map<nat, Page>, free: set<nat>,
                         mem': map<nat, Page>, free': set<nat>, own: set<nat>) {
    forall p: nat :: IsPage(end, p) && p !in free && p !in own ==>
      p !in free' && p in mem && p in mem' && mem'[p] == mem[p]
  }

  /** New tables came from the free pages, and nothing else left or joined them. */
  ghost predicate Grown(free: set<nat>, tables: set<nat>, free': set<nat>, tables': set<nat>) {
    tables <= tables' <= tables + free && free' == free - tables'
  }

  ghost predicate Owned(end: nat, free: set<nat>, pages: set<nat>) {
    forall p :: p in pages ==> IsPage(end, p) && p !in free
  }

  /** The tree may have got new tables, from free pages, and may hold other entries; no
      page that belongs to someone else changed. */
  ghost predicate Evolves(end: nat, mem: map<nat, Page>, free: set<nat>, t: Tree,
                          mem': map<nat, Page>, free': set<nat>, t': Tree) {
    && t'.root == t.root
    && Grown(free, Tables(t), free', Tables(t'))
    && Framed(end, mem, free, mem', free', Tables(t))
    && (forall l :: l in t.leaf ==> l in t'.leaf && t'.leaf[l] == t.leaf[l])
  }

  /** What walk may do: evolve without changing any translation. */
  ghost predicate Extends(end: nat, mem: map<nat, Page>, free: set<nat>, t: Tree,
                          mem': map<nat, Page>, free': set<nat>, t': Tree) {
    SameMap(mem, t, mem', t') && Evolves(end, mem, free, t, mem', free', t')
  }

  lemma ExtendsRefl(end: nat, mem: map<nat, Page>, free: set<nat>, t: Tree)
    requires WfTree(mem, t) && Owned(end, free, Tables(t))
    requires forall p: nat :: IsPage(end, p) ==> p in mem
    ensures Extends(end, mem, free, t, mem, free, t)
  {
    hide Tables;
    hide WfTree;
    hide Entry;
  }

  lemma EvolvesTrans(end: nat, mem: map<nat, Page>, free: set<nat>, t: Tree, mem1: map<nat, Page>, free1: set<nat>, t1: Tree,
                     mem2: map<nat, Page>, free2: set<nat>, t2: Tree)
    requires Evolves(end, mem, free, t, mem1, free1, t1) && Evolves(end, mem1, free1, t1, mem2, free2, t2)
    ensures Evolves(end, mem, free, t, mem2, free2, t2)
  {
    hide Tables;
  }

  lemma ExtendsTrans(end: nat, mem: map<nat, Page>, free: set<nat>, t: Tree, mem1: map<nat, Page>, free1: set<nat>, t1: Tree,
                     mem2: map<nat, Page>, free2: set<nat>, t2: Tree)
    requires Extends(end, mem, free, t, mem1, free1, t1) && Extends(end, mem1, free1, t1, mem2, free2, t2)
    ensures Extends(end, mem, free, t, mem2, free2, t2)
  {
    hide WfTree;
    hide Entry;
    hide Evolves;
    EvolvesTrans(end, mem, free, t, mem1, free1, t1, mem2, free2, t2);
    assert forall vpn :: Entry(mem2, t2, vpn) == Entry(mem1, t1, vpn);
  }

  /** Storing into one of the tree's own tables. */
  lemma StoreEvolves(end: nat, mem: map<nat, Page>, free: set<nat>, t: Tree, p: nat, contents: Page)
    requires p in Tables(t) && Owned(end, free, Tables(t))
    requires forall q: nat :: IsPage(end, q) ==> q in mem
    ensures Evolves(end, mem, free, t, mem[p := contents], free, t)
  {
    hide Tables;
  }

  /** Beside the pages lo..lo+k-1, which now map consecutive physical pages from `pa` with
      permissions `perm`, the map is the same. */
  ghost predicate RangeMapped(mem: map<nat, Page>, t: Tree, mem': map<nat, Page>, t': Tree,
                              lo: nat, k: nat, pa: nat, perm: nat) {
    && WfTree(mem, t)
    && WfTree(mem', t')
    && forall vpn: nat :: Entry(mem', t', vpn) ==
         if lo <= vpn < lo + k then PA2PTE(pa + (vpn - lo) * PGSIZE) + WithV(perm) else Entry(mem, t, vpn)
  }

  lemma RangeMappedStep(mem: map<nat, Page>, t: Tree, mem1: map<nat, Page>, t1: Tree, mem2: map<nat, Page>, t2: Tree,
                        mem3: map<nat, Page>, lo: nat, k: nat, pa: nat, perm: nat)
    requires RangeMapped(mem, t, mem1, t1, lo, k, pa, perm) && SameMap(mem1, t1, mem2, t2)
    requires WfTree(mem3, t2)
    requires forall vpn: nat ::
               Entry(mem3, t2, vpn) ==
               if vpn == lo + k then PA2PTE(pa + k * PGSIZE) + WithV(perm) else Entry(mem2, t2, vpn)
    ensures RangeMapped(mem, t, mem3, t2, lo, k + 1, pa, perm)
  {
    hide WfTree;
    hide Entry;
    hide PA2PTE;
    hide WithV;
    forall vpn: nat
      ensures Entry(mem3, t2, vpn) ==
              if lo <= vpn < lo + k + 1 then PA2PTE(pa + (vpn - lo) * PGSIZE) + WithV(perm) else Entry(mem, t, vpn)
    {
      assert Entry(mem2, t2, vpn) == Entry(mem1, t1, vpn);
    }
  }

  lemma RangeStart(end: nat, mem: map<nat, Page>, free: set<nat>, t: Tree, lo: nat, pa: nat, perm: nat)
    requires WfTree(mem, t) && Owned(end, free, Tables(t))
    requires forall p: nat :: IsPage(end, p) ==> p in mem
    ensures Evolves(end, mem, free, t, mem, free, t) && RangeMapped(mem, t, mem, t, lo, 0, pa, perm)
  {
    ExtendsRefl(end, mem, free, t);
  }

  lemma RangeSame(mem: map<nat, Page>, t: Tree, mem1: map<nat, Page>, t1: Tree, mem2: map<nat, Page>, t2: Tree,
                  lo: nat, k: nat, pa: nat, perm: nat)
    requires RangeMapped(mem, t, mem1, t1, lo, k, pa, perm) && SameMap(mem1, t1, mem2, t2)
    ensures RangeMapped(mem, t, mem2, t2, lo, k, pa, perm)
  {
    hide WfTree;
    hide Entry;
    hide PA2PTE;
    forall vpn: nat
      ensures Entry(mem2, t2, vpn) ==
              if lo <= vpn < lo + k then PA2PTE(pa + (vpn - lo) * PGSIZE) + WithV(perm) else Entry(mem, t, vpn)
    {
      assert Entry(mem2, t2, vpn) == Entry(mem1, t1, vpn);
    }
  }

  lemma NotInRange(mem: map<nat, Page>, t: Tree, mem': map<nat, Page>, t': Tree,
                   lo: nat, k: nat, pa: nat, perm: nat, vpn: nat)
    requires RangeMapped(mem, t, mem', t', lo, k, pa, perm) && !(lo <= vpn < lo + k)
    ensures WfTree(mem, t) && WfTree(mem', t') && Entry(mem', t', vpn) == Entry(mem, t, vpn)
  {
  }

  /** Where the entry of a page sits, once its level-0 table exists. */
  lemma EntryAt(mem: map<nat, Page>, t: Tree, vpn: nat)
    requires WfTree(mem, t) && vpn / 512 in t.leaf
    ensures t.leaf[vpn / 512] in mem && |mem[t.leaf[vpn / 512]]| == 512 && t.leaf[vpn / 512] in Tables(t)
    ensures Entry(mem, t, vpn) == mem[t.leaf[vpn / 512]][vpn % 512]
    ensures Entry(mem, t, vpn) == 0 || IsLeafEntry(Entry(mem, t, vpn))
  {
    assert WfLeaf(mem, t, vpn / 512);
    assert t.leaf[vpn / 512] in t.leaf.Values;
  }

  /** What mappages stores is an entry for a page. */
  lemma MappedIsLeaf(pa: nat, perm: nat)
    requires perm < 1024 && HasRWX(perm)
    ensures IsLeafEntry(PA2PTE(pa) + WithV(perm))
    ensures PTE_FLAGS(PA2PTE(pa) + WithV(perm)) == WithV(perm)
    ensures pa % PGSIZE == 0 ==> PTE2PA(PA2PTE(pa) + WithV(perm)) == pa
  {
    EntryBits(pa / PGSIZE, WithV(perm));
    assert WithV(perm) / 2 == perm / 2;
  }

  lemma NewTableExtends(end: nat, mem: map<nat, Page>, free: set<nat>, t: Tree, mem': map<nat, Page>, t': Tree,
                        q: nat, page: nat, contents: Page)
    requires SameMap(mem, t, mem', t') && t'.root == t.root && Tables(t') == Tables(t) + {q}
    requires forall l :: l in t.leaf ==> l in t'.leaf && t'.leaf[l] == t.leaf[l]
    requires Owned(end, free, Tables(t)) && q in free && IsPage(end, q) && page in Tables(t)
    requires forall p: nat :: IsPage(end, p) ==> p in mem
    requires mem' == mem[q := ZeroPage][page := contents]
    ensures Extends(end, mem, free, t, mem', free - {q}, t') && Owned(end, free - {q}, Tables(t'))
  {
    hide Tables;
    hide WfTree;
    hide Entry;
    hide SameMap;
  }

  /** walk's variable `pagetable` at the start of the turn for `level`. */
  ghost predicate AtLevel(t: Tree, va: nat, level: nat, page: nat) {
    if level == 2 then page == t.root
    else if level == 1 then PX(2, va) in t.mid && page == t.mid[PX(2, va)]
    else Slot(PX(2, va), PX(1, va)) in t.leaf && page == t.leaf[Slot(PX(2, va), PX(1, va))]
  }

  /** Following a valid entry goes down one level; an invalid one means a missing table. */
  lemma Descend(mem: map<nat, Page>, t: Tree, va: nat, level: nat, page: nat)
    requires WfTree(mem, t) && 1 <= level <= 2 && AtLevel(t, va, level, page)
    ensures page in mem && |mem[page]| == 512 && page in Tables(t)
    ensures var e := mem[page][PX(level, va)];
            && e >= 0
            && (IsValid(e) ==> AtLevel(t, va, level - 1, PTE2PA(e)))
            && (!IsValid(e) ==> if level == 2 then PX(2, va) !in t.mid else Slot(PX(2, va), PX(1, va)) !in t.leaf)
            && (!IsValid(e) ==> Slot(PX(2, va), PX(1, va)) !in t.leaf)
  {
    hide PX;
    hide Slot;
    hide Pointer;
    hide IsValid;
    hide PTE2PA;
    var i, l := PX(2, va), Slot(PX(2, va), PX(1, va));
    SlotSplits(PX(2, va), PX(1, va));
    assert l in t.leaf ==> WfLeaf(mem, t, l);
    assert !IsValid(0) by { ZeroInvalid(); }
    if level == 2 {
      if i in t.mid {
        assert t.mid[i] in Tables(t);
        PointerEntry(t.mid[i]);
      }
    } else {
      assert WfMid(mem, t, i);
      assert page in t.mid.Values;
      if l in t.leaf {
        assert t.leaf[l] in Tables(t);
        PointerEntry(t.leaf[l]);
      }
    }
  }

  lemma ZeroInvalid()
    ensures !IsValid(0)
  {
  }

  /** kalloc on whichever hart the process happens to be running. */
  method KallocHere(m: PhysMem) returns (pa: nat)
    requires m.Valid()
    modifies m
    ensures m.Valid()
    ensures pa == 0 ==> m.mem == old(m.mem) && m.free == old(m.free)
    ensures pa != 0 ==> IsPage(m.end, pa) && pa in old(m.free) && m.free == old(m.free) - {pa}
    ensures pa != 0 ==> m.mem == old(m.mem)[pa := m.mem[pa]]
  {
    var hart: nat :| hart < NCPU;
    pa := m.Kalloc(hart);
  }

  /** kalloc, and memset of the page to 0 when there is one. */
  method KallocZeroed(m: PhysMem) returns (pa: nat)
    requires m.Valid()
    modifies m
    ensures m.Valid()
    ensures pa == 0 ==> m.mem == old(m.mem) && m.free == old(m.free)
    ensures pa != 0 ==> IsPage(m.end, pa) && pa in old(m.free) && m.free == old(m.free) - {pa}
    ensures pa != 0 ==> m.mem == old(m.mem)[pa := ZeroPage]
  {
    pa := KallocHere(m);
    if pa != 0 {
      m.Fill(pa, 0);
    }
  }

  /** The physical page an entry maps. */
  function PhysPage(e: int): nat {
    if e < 0 then 0 else PTE2PA(e)
  }

  /** The physical pages behind virtual pages lo..lo+n-1. */
  ghost function PagesOf(mem: map<nat, Page>, t: Tree, lo: nat, n: nat): set<nat>
    requires WfTree(mem, t)
  {
    set v: nat | lo <= v < lo + n :: PhysPage(Entry(mem, t, v))
  }

  /** Virtual pages lo..lo+n-1 map allocated pages that nothing else of this tree uses. */
  ghost predicate PrivatePages(end: nat, mem: map<nat, Page>, free: set<nat>, t: Tree, lo: nat, n: nat) {
    && WfTree(mem, t)
    && (forall v: nat :: lo <= v < lo + n ==>
          var p := PhysPage(Entry(mem, t, v));
          Entry(mem, t, v) != 0 && IsPage(end, p) && p !in free && p !in Tables(t))
    && (forall v: nat, w: nat :: lo <= v < w < lo + n ==> PhysPage(Entry(mem, t, v)) != PhysPage(Entry(mem, t, w)))
  }

  /** No page of lo..lo+n-1 is unmapped. */
  ghost predicate Mapped(mem: map<nat, Page>, t: Tree, lo: nat, n: nat)
    requires WfTree(mem, t)
  {
    forall v: nat :: lo <= v < lo + n ==> Entry(mem, t, v) != 0
  }

  /** Those of the virtual pages lo..lo+n-1 that are mapped map allocated pages that nothing
      else of this tree uses. */
  ghost predicate PrivateIfMapped(end: nat, mem: map<nat, Page>, free: set<nat>, t: Tree, lo: nat, n: nat) {
    && WfTree(mem, t)
    && (forall v: nat :: lo <= v < lo + n && Entry(mem, t, v) != 0 ==>
          var p := PhysPage(Entry(mem, t, v));
          IsPage(end, p) && p !in free && p !in Tables(t))
    && (forall v: nat, w: nat :: lo <= v < w < lo + n && Entry(mem, t, v) != 0 && Entry(mem, t, w) != 0 ==>
          PhysPage(Entry(mem, t, v)) != PhysPage(Entry(mem, t, w)))
  }

  lemma PrivateIsMapped(end: nat, mem: map<nat, Page>, free: set<nat>, t: Tree, lo: nat, n: nat)
    ensures PrivatePages(end, mem, free, t, lo, n) <==>
            WfTree(mem, t) && Mapped(mem, t, lo, n) && PrivateIfMapped(end, mem, free, t, lo, n)
  {
    hide WfTree;
    hide Entry;
    hide Tables;
    hide PhysPage;
    if WfTree(mem, t) && Mapped(mem, t, lo, n) && PrivateIfMapped(end, mem, free, t, lo, n) {
      forall v: nat, w: nat | lo <= v < w < lo + n ensures PhysPage(Entry(mem, t, v)) != PhysPage(Entry(mem, t, w)) {
        assert Entry(mem, t, v) != 0 && Entry(mem, t, w) != 0;
      }
    }
  }

  lemma PrivateSoFar(end: nat, mem: map<nat, Page>, free: set<nat>, t: Tree, lo: nat, n: nat, k: nat)
    requires PrivateIfMapped(end, mem, free, t, lo, n) && k <= n && Mapped(mem, t, lo, k)
    ensures PrivatePages(end, mem, free, t, lo, k)
  {
    hide WfTree;
    hide Entry;
    hide Tables;
    hide PhysPage;
    PrivateIsMapped(end, mem, free, t, lo, k);
  }

  lemma MappedStep(mem: map<nat, Page>, t: Tree, lo: nat, k: nat)
    requires WfTree(mem, t) && Mapped(mem, t, lo, k)
    ensures Mapped(mem, t, lo, k + 1) <==> Entry(mem, t, lo + k) != 0
  {
    hide WfTree;
    hide Entry;
  }

  lemma NotMapped(mem: map<nat, Page>, t: Tree, lo: nat, n: nat, k: nat)
    requires WfTree(mem, t) && k < n && Entry(mem, t, lo + k) == 0
    ensures !Mapped(mem, t, lo, n)
  {
  }

  ghost predicate RangeUnmapped(mem: map<nat, Page>, mem': map<nat, Page>, t: Tree, lo: nat, k: nat) {
    && WfTree(mem, t)
    && WfTree(mem', t)
    && forall vpn: nat :: Entry(mem', t, vpn) == if lo <= vpn < lo + k then 0 else Entry(mem, t, vpn)
  }

  lemma UnmapStart(end: nat, mem: map<nat, Page>, free: set<nat>, t: Tree, lo: nat)
    requires WfTree(mem, t) && Owned(end, free, Tables(t))
    requires forall p: nat :: IsPage(end, p) ==> p in mem
    ensures RangeUnmapped(mem, mem, t, lo, 0) && PagesOf(mem, t, lo, 0) == {} && Mapped(mem, t, lo, 0)
    ensures Framed(end, mem, free, mem, free, Tables(t) + {})
  {
  }

  lemma StillMapped(mem: map<nat, Page>, mem': map<nat, Page>, t: Tree, lo: nat, k: nat, vpn: nat)
    requires RangeUnmapped(mem, mem', t, lo, k) && WfTree(mem, t) && vpn >= lo + k
    ensures WfTree(mem', t) && Entry(mem', t, vpn) == Entry(mem, t, vpn)
  {
  }

  lemma NoTableNoEntry(mem: map<nat, Page>, t: Tree, vpn: nat)
    requires WfTree(mem, t)
    ensures vpn / 512 !in t.leaf ==> Entry(mem, t, vpn) == 0
  {
  }

  lemma LeafEntryFacts(e: int)
    requires e == 0 || IsLeafEntry(e)
    ensures e != 0 ==> IsValid(e) && e >= 0 && PTE_FLAGS(e) != PTE_V && PhysPage(e) == PTE2PA(e)
  {
  }

  lemma PageNotFreed(end: nat, mem: map<nat, Page>, free: set<nat>, t: Tree, lo: nat, n: nat, k: nat)
    requires PrivatePages(end, mem, free, t, lo, n) && k < n
    ensures WfTree(mem, t)
    ensures var p := PhysPage(Entry(mem, t, lo + k));
            IsPage(end, p) && p !in free + PagesOf(mem, t, lo, k) && p !in Tables(t)
  {
    hide WfTree;
    hide Entry;
    hide Tables;
    hide PhysPage;
  }

  lemma PagesOfStep(mem: map<nat, Page>, t: Tree, lo: nat, k: nat)
    requires WfTree(mem, t)
    ensures PagesOf(mem, t, lo, k + 1) == PagesOf(mem, t, lo, k) + {PhysPage(Entry(mem, t, lo + k))}
  {
    hide WfTree;
    hide Entry;
    hide PhysPage;
    forall p ensures p in PagesOf(mem, t, lo, k + 1) <==> p in PagesOf(mem, t, lo, k) || p == PhysPage(Entry(mem, t, lo + k)) {
      if p in PagesOf(mem, t, lo, k + 1) {
        var v: nat :| lo <= v < lo + (k + 1) && p == PhysPage(Entry(mem, t, v));
      }
    }
  }

  /** One more page unmapped, its physical page perhaps freed. */
  lemma UnmapStep(end: nat, mem: map<nat, Page>, free: set<nat>, mem1: map<nat, Page>,
                  mem2: map<nat, Page>, free2: set<nat>, t: Tree, lo: nat, k: nat, gone: set<nat>, freed: set<nat>)
    requires RangeUnmapped(mem, mem1, t, lo, k) && RangeUnmapped(mem1, mem2, t, lo + k, 1)
    requires Owned(end, free, Tables(t)) && free2 == free + (gone + freed)
    requires Framed(end, mem, free, mem1, free + gone, Tables(t) + gone)
    requires forall p :: p in mem1 && p !in freed && p !in Tables(t) ==> p in mem2 && mem2[p] == mem1[p]
    ensures RangeUnmapped(mem, mem2, t, lo, k + 1)
    ensures Framed(end, mem, free, mem2, free2, Tables(t) + (gone + freed))
  {
    hide WfTree;
    hide Entry;
    hide Tables;
    forall vpn: nat ensures Entry(mem2, t, vpn) == if lo <= vpn < lo + k + 1 then 0 else Entry(mem, t, vpn) {
      assert Entry(mem2, t, vpn) == if lo + k <= vpn < lo + k + 1 then 0 else Entry(mem1, t, vpn);
    }
  }

  class PageTable {
    const m: PhysMem
    const root: nat

    /** The shape of the tree below `root`. */
    ghost var tree: Tree

    ghost predicate Valid()
      reads this, m
    {
      && m.Valid()
      && tree.root == root
      && WfTree(m.mem, tree)
      && Owned(m.end, m.free, Tables(tree))
    }

    /** The entry for virtual page `vpn`, 0 when unmapped. */
    ghost function Map(vpn: nat): int
      requires Valid()
      reads this, m
    {
      Entry(m.mem, tree, vpn)
    }

    /** A page table in a page the caller has allocated and zeroed. */
    constructor (m: PhysMem, page: nat)
      requires m.Valid() && IsPage(m.end, page) && page !in m.free && m.mem[page] == ZeroPage
      ensures Valid() && this.m == m && root == page && Tables(tree) == {page}
      ensures forall vpn: nat :: Map(vpn) == 0
    {
      this.m := m;
      root := page;
      tree := Tree(page, map[], map[]);
    }

    /** One turn of walk's loop that has to allocate: a fresh zeroed table, linked in. */
    method NewTable(page: nat, index: nat, ghost level: nat, ghost va: nat) returns (q: nat)
      requires Valid() && va < MAXVA && 1 <= level <= 2 && index == PX(level, va)
      requires if level == 2 then page == root && index !in tree.mid
               else PX(2, va) in tree.mid && page == tree.mid[PX(2, va)] && Slot(PX(2, va), index) !in tree.leaf
      modifies m, this`tree
      ensures Valid()
      ensures Extends(m.end, old(m.mem), old(m.free), old(tree), m.mem, m.free, tree)
      ensures q == 0 ==> tree == old(tree)
      ensures q != 0 && level == 2 ==> tree == old(tree).(mid := old(tree).mid[index := q])
      ensures q != 0 && level == 1 ==> tree == old(tree).(leaf := old(tree).leaf[Slot(PX(2, va), index) := q])
    {
      hide ValidLists;
      hide InLists;
      hide WfTree;
      hide Entry;
      hide Pointer;
      hide PX;
      hide Slot;
      hide Extends;
      assert page in Tables(tree);
      ExtendsRefl(m.end, m.mem, m.free, tree);
      q := KallocZeroed(m);
      if q == 0 {
        return;
      }
      ghost var mem0: map<nat, Page> := old(m.mem);
      m.Store(page, index, Pointer(q));
      ghost var tree0 := tree;
      if level == 2 {
        AddMid(mem0, tree, index, q);
        tree := tree.(mid := tree.mid[index := q]);
      } else {
        AddLeaf(mem0, tree, PX(2, va), index, q);
        tree := tree.(leaf := tree.leaf[Slot(PX(2, va), index) := q]);
      }
      NewTableExtends(m.end, mem0, old(m.free), tree0, m.mem, tree, q, page, mem0[page][index := Pointer(q)]);
    }

    /** walk: where the entry for `va` lives; None when a table is missing and may not,
        or cannot, be allocated.  The translation of no page changes. */
    method Walk(va: nat, alloc: bool) returns (pte: Option<PteRef>)
      requires Valid() && va < MAXVA
      modifies m, this`tree
      ensures Valid()
      ensures Extends(m.end, old(m.mem), old(m.free), old(tree), m.mem, m.free, tree)
      ensures !alloc ==> m.mem == old(m.mem) && m.free == old(m.free) && tree == old(tree)
      ensures pte.None? && !alloc ==> va / PGSIZE / 512 !in tree.leaf
      ensures pte.Some? ==> va / PGSIZE / 512 in tree.leaf
      ensures pte.Some? ==> pte.value == PteRef(tree.leaf[va / PGSIZE / 512], va / PGSIZE % 512)
    {
      hide ValidLists;
      hide InLists;
      hide WfTree;
      hide Entry;
      hide PX;
      hide Slot;
      hide Tables;
      hide IsValid;
      hide PTE2PA;
      hide Extends;
      IndicesDetermineVpn(va);
      ExtendsRefl(m.end, m.mem, m.free, tree);
      var page, level := root, 2;
      while level > 0
        invariant 0 <= level <= 2 && Valid() && AtLevel(tree, va, level, page)
        invariant Extends(m.end, old(m.mem), old(m.free), old(tree), m.mem, m.free, tree)
        invariant !alloc ==> m.mem == old(m.mem) && m.free == old(m.free) && tree == old(tree)
      {
        Descend(m.mem, tree, va, level, page);
        var e := m.mem[page][PX(level, va)];
        if IsValid(e) {
          page := PTE2PA(e);
        } else {
          if !alloc {
            return None;
          }
          ghost var mem1, free1, tree1 := m.mem, m.free, tree;
          var q := NewTable(page, PX(level, va), level, va);
          ExtendsTrans(m.end, old(m.mem), old(m.free), old(tree), mem1, free1, tree1, m.mem, m.free, tree);
          if q == 0 {
            return None;
          }
          page := q;
        }
        level := level - 1;
      }
      return Some(PteRef(page, PX(0, va)));
    }

    /** mappages: true on success; false when a table could not be allocated, with only the
        first `done` pages mapped.  panic("mappages: remap") cannot happen when the range
        is unmapped. */
    method Mappages(va: nat, size: nat, pa: nat, perm: nat) returns (ok: bool, ghost done: nat)
      requires Valid() && size > 0 && va + size <= MAXVA
      requires perm < 1024 && HasRWX(perm)
      requires forall vpn: nat :: va / PGSIZE <= vpn <= (va + size - 1) / PGSIZE ==> Map(vpn) == 0
      modifies m, this`tree
      ensures Valid()
      ensures Evolves(m.end, old(m.mem), old(m.free), old(tree), m.mem, m.free, tree)
      ensures RangeMapped(old(m.mem), old(tree), m.mem, tree, va / PGSIZE, done, pa, perm)
      ensures var n := (va + size - 1) / PGSIZE - va / PGSIZE + 1;
              if ok then done == n else done < n
    {
      hide ValidLists;
      hide InLists;
      hide WfTree;
      hide Entry;
      hide Tables;
      hide IsValid;
      hide Evolves;
      hide RangeMapped;
      hide PA2PTE;
      hide WithV;
      hide IsLeafEntry;
      hide HasRWX;
      var a, last, p := PGROUNDDOWN(va), PGROUNDDOWN(va + size - 1), pa;
      done := 0;
      RangeStart(m.end, m.mem, m.free, tree, va / PGSIZE, pa, perm);
      while true
        invariant Valid() && a == (va / PGSIZE + done) * PGSIZE && a <= last && p == pa + done * PGSIZE
        invariant Evolves(m.end, old(m.mem), old(m.free), old(tree), m.mem, m.free, tree)
        invariant RangeMapped(old(m.mem), old(tree), m.mem, tree, va / PGSIZE, done, pa, perm)
        decreases last - a
      {
        ghost var vpn, mem1, free1, tree1 := va / PGSIZE + done, m.mem, m.free, tree;
        var pte := Walk(a, true);
        ghost var mem2, free2 := m.mem, m.free;
        EvolvesTrans(m.end, old(m.mem), old(m.free), old(tree), mem1, free1, tree1, mem2, free2, tree);
        if pte.None? {
          RangeSame(old(m.mem), old(tree), mem1, tree1, mem2, tree, va / PGSIZE, done, pa, perm);
          return false, done;
        }
        EntryAt(mem2, tree, vpn);
        NotInRange(old(m.mem), old(tree), mem1, tree1, va / PGSIZE, done, pa, perm, vpn);
        ZeroInvalid();
        assert old(Map(vpn)) == 0;
        if IsValid(m.mem[pte.value.page][pte.value.index]) {
          assert false;
        }
        MappedIsLeaf(p, perm);
        SetEntry(mem2, tree, vpn / 512, vpn % 512, PA2PTE(p) + WithV(perm));
        m.Store(pte.value.page, pte.value.index, PA2PTE(p) + WithV(perm));
        StoreEvolves(m.end, mem2, free2, tree, pte.value.page, m.mem[pte.value.page]);
        EvolvesTrans(m.end, old(m.mem), old(m.free), old(tree), mem2, free2, tree, m.mem, m.free, tree);
        RangeMappedStep(old(m.mem), old(tree), mem1, tree1, mem2, tree, m.mem, va / PGSIZE, done, pa, perm);
        done := done + 1;
        if a == last {
          return true, done;
        }
        a := a + PGSIZE;
        p := p + PGSIZE;
      }
    }

    /** uvmunmap of `npages` pages from `va`, which frees the pages they map when `doFree` is
        set.  It panics exactly when one of them is unmapped; kfree never does. */
    method Uvmunmap(va: nat, npages: nat, doFree: bool) returns (panicked: bool)
      requires Valid() && va % PGSIZE == 0 && va + npages * PGSIZE <= MAXVA
      requires doFree ==> PrivateIfMapped(m.end, m.mem, m.free, tree, va / PGSIZE, npages)
      modifies m, this`tree
      ensures Valid() && tree == old(tree)
      ensures panicked <==> !Mapped(old(m.mem), tree, va / PGSIZE, npages)
      ensures !panicked ==> RangeUnmapped(old(m.mem), m.mem, tree, va / PGSIZE, npages)
      ensures !panicked ==>
                var gone := if doFree then PagesOf(old(m.mem), tree, va / PGSIZE, npages) else {};
                && m.free == old(m.free) + gone
                && Framed(m.end, old(m.mem), old(m.free), m.mem, m.free, Tables(tree) + gone)
    {
      hide ValidLists;
      hide InLists;
      hide WfTree;
      hide Entry;
      hide Tables;
      hide RangeUnmapped;
      hide Framed;
      hide PagesOf;
      hide PrivatePages;
      hide PrivateIfMapped;
      hide Mapped;
      ghost var lo, k: nat, gone: set<nat> := va / PGSIZE, 0, {};
      UnmapStart(m.end, m.mem, m.free, tree, lo);
      var a := va;
      while a < va + npages * PGSIZE
        invariant k <= npages && a == va + k * PGSIZE
        invariant Valid() && tree == old(tree)
        invariant Mapped(old(m.mem), tree, lo, k)
        invariant RangeUnmapped(old(m.mem), m.mem, tree, lo, k)
        invariant gone == if doFree then PagesOf(old(m.mem), tree, lo, k) else {}
        invariant m.free == old(m.free) + gone
        invariant Framed(m.end, old(m.mem), old(m.free), m.mem, m.free, Tables(tree) + gone)
      {
        ghost var mem1 := m.mem;
        StillMapped(old(m.mem), m.mem, tree, lo, k, lo + k);
        MappedStep(old(m.mem), tree, lo, k);
        if doFree && Entry(old(m.mem), tree, lo + k) != 0 {
          PrivateSoFar(m.end, old(m.mem), old(m.free), tree, lo, npages, k + 1);
          PageNotFreed(m.end, old(m.mem), old(m.free), tree, lo, k + 1, k);
          PagesOfStep(old(m.mem), tree, lo, k);
        }
        ghost var freed;
        panicked, freed := UnmapOne(a, doFree);
        if panicked {
          NotMapped(old(m.mem), tree, lo, npages, k);
          return;
        }
        UnmapStep(m.end, old(m.mem), old(m.free), mem1, m.mem, m.free, tree, lo, k, gone, freed);
        gone := gone + freed;
        k := k + 1;
        a := a + PGSIZE;
      }
      panicked := false;
    }

    /** uvmunmap's turn for the page at `a`. */
    method UnmapOne(a: nat, doFree: bool) returns (panicked: bool, ghost freed: set<nat>)
      requires Valid() && a < MAXVA
      requires var p := PhysPage(Map(a / PGSIZE));
               doFree && Map(a / PGSIZE) != 0 ==> IsPage(m.end, p) && p !in m.free && p !in Tables(tree)
      modifies m, this`tree
      ensures Valid() && tree == old(tree)
      ensures panicked <==> old(Map(a / PGSIZE)) == 0
      ensures !panicked ==>
                && freed == (if doFree then {PhysPage(old(Map(a / PGSIZE)))} else {})
                && m.free == old(m.free) + freed
                && RangeUnmapped(old(m.mem), m.mem, tree, a / PGSIZE, 1)
                && forall p :: p in old(m.mem) && p !in freed && p !in Tables(tree) ==> p in m.mem && m.mem[p] == old(m.mem)[p]
    {
      hide ValidLists;
      hide InLists;
      hide WfTree;
      hide Entry;
      hide Tables;
      hide IsValid;
      hide Evolves;
      hide PTE2PA;
      hide PTE_FLAGS;
      freed := {};
      ghost var vpn, mem1 := a / PGSIZE, m.mem;
      NoTableNoEntry(m.mem, tree, vpn);
      var pte := Walk(a, false);
      if pte.None? {
        return true, {};
      }
      EntryAt(m.mem, tree, vpn);
      var e := m.mem[pte.value.page][pte.value.index];
      LeafEntryFacts(e);
      ZeroInvalid();
      if !IsValid(e) || PTE_FLAGS(e) == PTE_V {
        return true, {};
      }
      freed := if doFree then {PTE2PA(e)} else {};
      if doFree {
        m.Kfree(PTE2PA(e));
        TreeFrame(mem1, m.mem, tree);
        EntryAt(m.mem, tree, vpn);
      }
      SetEntry(m.mem, tree, vpn / 512, vpn % 512, 0);
      m.Store(pte.value.page, pte.value.index, 0);
      panicked := false;
    }
  }
}

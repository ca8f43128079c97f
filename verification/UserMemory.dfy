/**
  Growing, shrinking, copying and freeing user memory (kernel/vm.c, kernel/proc.c):
  what the tree, the user pages and the free pages become, including the roll-back
  when kalloc fails half way.
 */
module UserMemory {
  import opened Riscv
  import opened PageAlloc
  import opened PageTree
  import opened VirtualMemory

  /** The tree got new tables and the caller took the pages `data`, all from the free
      pages; no page that belongs to someone else changed. */
  ghost predicate Grew(end: nat, mem: map<nat, Page>, free: set<nat>, t: Tree,
                       mem': map<nat, Page>, free': set<nat>, t': Tree, data: set<nat>) {
    && t'.root == t.root
    && Tables(t) <= Tables(t') <= Tables(t) + free
    && data <= free
    && data !! Tables(t')
    && free' == free - Tables(t') - data
    && Framed(end, mem, free, mem', free', Tables(t))
    && (forall l :: l in t.leaf ==> l in t'.leaf && t'.leaf[l] == t.leaf[l])
  }

  lemma GrewNothing(end: nat, mem: map<nat, Page>, free: set<nat>, t: Tree)
    requires Owned(end, free, Tables(t))
    requires forall p: nat :: IsPage(end, p) ==> p in mem
    ensures Grew(end, mem, free, t, mem, free, t, {})
  {
    hide Tables;
  }

  lemma GrewAlloc(end: nat, mem: map<nat, Page>, free: set<nat>, t: Tree, mem1: map<nat, Page>, free1: set<nat>, t1: Tree,
                  data: set<nat>, pa: nat, contents: Page)
    requires Grew(end, mem, free, t, mem1, free1, t1, data) && pa in free1
    ensures Grew(end, mem, free, t, mem1[pa := contents], free1 - {pa}, t1, data + {pa})
  {
    hide Tables;
  }

  lemma GrewTables(end: nat, mem: map<nat, Page>, free: set<nat>, t: Tree, mem1: map<nat, Page>, free1: set<nat>, t1: Tree,
                   mem2: map<nat, Page>, free2: set<nat>, t2: Tree, data: set<nat>)
    requires Grew(end, mem, free, t, mem1, free1, t1, data) && Evolves(end, mem1, free1, t1, mem2, free2, t2)
    ensures Grew(end, mem, free, t, mem2, free2, t2, data)
  {
    hide Tables;
  }

  lemma GrewFree(end: nat, mem: map<nat, Page>, free: set<nat>, t: Tree, mem1: map<nat, Page>, free1: set<nat>, t1: Tree,
                 mem2: map<nat, Page>, data: set<nat>, freed: set<nat>)
    requires Grew(end, mem, free, t, mem1, free1, t1, data) && freed <= data
    requires forall p :: p in freed ==> IsPage(end, p)
    requires Framed(end, mem1, free1, mem2, free1 + freed, Tables(t1) + freed)
    ensures Grew(end, mem, free, t, mem2, free1 + freed, t1, data - freed)
  {
    hide Tables;
  }

  lemma GrewIsEvolves(end: nat, mem: map<nat, Page>, free: set<nat>, t: Tree, mem1: map<nat, Page>, free1: set<nat>, t1: Tree)
    requires Grew(end, mem, free, t, mem1, free1, t1, {})
    ensures Evolves(end, mem, free, t, mem1, free1, t1)
  {
    hide Tables;
  }

  /** Whole pages needed for `sz` bytes. */
  function Pages(sz: nat): nat {
    PGROUNDUP(sz) / PGSIZE
  }

  /** Pages uvmdealloc has to give back. */
  function Excess(oldsz: nat, newsz: nat): nat {
    if newsz < oldsz && Pages(newsz) < Pages(oldsz) then Pages(oldsz) - Pages(newsz) else 0
  }

  /** uvmdealloc.  It panics exactly when a page between the two sizes is unmapped. */
  method Uvmdealloc(pt: PageTable, oldsz: nat, newsz: nat) returns (r: nat, panicked: bool)
    requires pt.Valid() && PGROUNDUP(oldsz) <= MAXVA
    requires PrivateIfMapped(pt.m.end, pt.m.mem, pt.m.free, pt.tree, Pages(newsz), Excess(oldsz, newsz))
    modifies pt.m, pt`tree
    ensures pt.Valid() && pt.tree == old(pt.tree)
    ensures panicked <==> !Mapped(old(pt.m.mem), pt.tree, Pages(newsz), Excess(oldsz, newsz))
    ensures !panicked ==>
              var gone := PagesOf(old(pt.m.mem), pt.tree, Pages(newsz), Excess(oldsz, newsz));
              && r == (if newsz < oldsz then newsz else oldsz)
              && RangeUnmapped(old(pt.m.mem), pt.m.mem, pt.tree, Pages(newsz), Excess(oldsz, newsz))
              && pt.m.free == old(pt.m.free) + gone
              && Framed(pt.m.end, old(pt.m.mem), old(pt.m.free), pt.m.mem, pt.m.free, Tables(pt.tree) + gone)
  {
    hide ValidLists;
    hide InLists;
    hide WfTree;
    hide Entry;
    hide Tables;
    hide Framed;
    hide RangeUnmapped;
    hide PagesOf;
    hide Mapped;
    hide PrivateIfMapped;
    UnmapStart(pt.m.end, pt.m.mem, pt.m.free, pt.tree, Pages(newsz));
    if newsz >= oldsz {
      return oldsz, false;
    }
    panicked := false;
    if PGROUNDUP(newsz) < PGROUNDUP(oldsz) {
      var npages := (PGROUNDUP(oldsz) - PGROUNDUP(newsz)) / PGSIZE;
      panicked := pt.Uvmunmap(PGROUNDUP(newsz), npages, true);
    }
    r := newsz;
  }

  /** A user page: its bytes and the permission bits it is mapped with. */
  datatype UserPage = UserPage(contents: Page, flags: nat)

  function FlagsOf(e: int): nat {
    if e < 0 then 0 else PTE_FLAGS(e)
  }

  /** Virtual pages lo, lo+1, ... are new and private and hold `pages`; the rest of the map
      is as it was. */
  ghost predicate Added(end: nat, mem: map<nat, Page>, t: Tree, mem': map<nat, Page>, free': set<nat>, t': Tree,
                        lo: nat, pages: seq<UserPage>) {
    && WfTree(mem, t)
    && PrivatePages(end, mem', free', t', lo, |pages|)
    && (forall v: nat :: !(lo <= v < lo + |pages|) ==> Entry(mem', t', v) == Entry(mem, t, v))
    && (forall v: nat :: lo <= v < lo + |pages| ==> HoldsPage(mem', Entry(mem', t', v), pages[v - lo]))
  }

  ghost predicate HoldsPage(mem: map<nat, Page>, e: int, page: UserPage) {
    PhysPage(e) in mem && page == UserPage(mem[PhysPage(e)], FlagsOf(e))
  }

  lemma AddedNothing(end: nat, mem: map<nat, Page>, free: set<nat>, t: Tree, lo: nat)
    requires WfTree(mem, t)
    ensures Added(end, mem, t, mem, free, t, lo, []) && PagesOf(mem, t, lo, 0) == {}
  {
  }

  /** One more page: `pa` came off the free list, got `contents`, and mappages put it at
      the next virtual page. */
  lemma AddedOne(end: nat, mem0: map<nat, Page>, t0: Tree, mem: map<nat, Page>, free: set<nat>, t: Tree,
                 pa: nat, contents: Page, mem2: map<nat, Page>, free2: set<nat>, t2: Tree,
                 lo: nat, pages: seq<UserPage>, perm: nat)
    requires Added(end, mem0, t0, mem, free, t, lo, pages) && perm < 1024 && HasRWX(perm)
    requires pa in free && IsPage(end, pa) && SameMap(mem, t, mem[pa := contents], t)
    requires Evolves(end, mem[pa := contents], free - {pa}, t, mem2, free2, t2)
    requires RangeMapped(mem[pa := contents], t, mem2, t2, lo + |pages|, 1, pa, perm) && Owned(end, free, Tables(t))
    ensures Added(end, mem0, t0, mem2, free2, t2, lo, pages + [UserPage(contents, WithV(perm))])
    ensures PagesOf(mem2, t2, lo, |pages| + 1) == PagesOf(mem, t, lo, |pages|) + {pa}
  {
    hide WfTree;
    hide Entry;
    hide Tables;
    hide PA2PTE;
    hide PTE2PA;
    hide PTE_FLAGS;
    hide HasRWX;
    hide WithV;
    var mem1: map<nat, Page> := mem[pa := contents];
    var k := |pages|;
    MappedIsLeaf(pa, perm);
    var e := PA2PTE(pa) + WithV(perm);
    assert Entry(mem2, t2, lo + k) == e && PhysPage(e) == pa;
    forall v: nat ensures v != lo + k ==> Entry(mem2, t2, v) == Entry(mem, t, v) {
      assert Entry(mem1, t, v) == Entry(mem, t, v);
    }
    forall v: nat | lo <= v < lo + k ensures HoldsPage(mem2, Entry(mem2, t2, v), pages[v - lo]) {
      assert HoldsPage(mem, Entry(mem, t, v), pages[v - lo]);
      assert mem1[PhysPage(Entry(mem, t, v))] == mem[PhysPage(Entry(mem, t, v))];
    }
    PagesOfStep(mem2, t2, lo, k);
    assert PagesOf(mem2, t2, lo, k) == PagesOf(mem, t, lo, k);
  }

  /** mappages failed before mapping anything and `pa` went back to the allocator. */
  lemma AddedFailed(end: nat, mem0: map<nat, Page>, t0: Tree, mem: map<nat, Page>, free: set<nat>, t: Tree,
                    pa: nat, contents: Page, mem2: map<nat, Page>, free2: set<nat>, t2: Tree, mem3: map<nat, Page>,
                    lo: nat, pages: seq<UserPage>, perm: nat)
    requires Added(end, mem0, t0, mem, free, t, lo, pages)
    requires pa in free && SameMap(mem, t, mem[pa := contents], t)
    requires Evolves(end, mem[pa := contents], free - {pa}, t, mem2, free2, t2)
    requires RangeMapped(mem[pa := contents], t, mem2, t2, lo + |pages|, 0, pa, perm)
    requires SameMap(mem2, t2, mem3, t2) && pa in mem3 && mem3 == mem2[pa := mem3[pa]]
    ensures Added(end, mem0, t0, mem3, free2 + {pa}, t2, lo, pages)
    ensures PagesOf(mem3, t2, lo, |pages|) == PagesOf(mem, t, lo, |pages|)
  {
    hide WfTree;
    hide Entry;
    hide Tables;
    hide PA2PTE;
    hide PTE2PA;
    hide PTE_FLAGS;
    hide WithV;
    var mem1: map<nat, Page> := mem[pa := contents];
    forall v: nat ensures Entry(mem3, t2, v) == Entry(mem, t, v) {
      assert Entry(mem3, t2, v) == Entry(mem2, t2, v) && Entry(mem1, t, v) == Entry(mem, t, v);
    }
    forall v: nat | lo <= v < lo + |pages| ensures HoldsPage(mem3, Entry(mem3, t2, v), pages[v - lo]) {
      assert HoldsPage(mem, Entry(mem, t, v), pages[v - lo]);
      assert mem1[PhysPage(Entry(mem, t, v))] == mem[PhysPage(Entry(mem, t, v))];
    }
    assert PagesOf(mem3, t2, lo, |pages|) == PagesOf(mem, t, lo, |pages|);
  }

  /** kalloc, fill the page, and map it at the next virtual page after `pages`: one turn of
      uvmalloc's loop and of uvmcopy's.  On failure nothing but new tables remains. */
  method AddPage(pt: PageTable, va: nat, contents: Page, perm: nat, ghost mem0: map<nat, Page>, ghost free0: set<nat>,
                 ghost t0: Tree, ghost lo: nat, ghost n: nat, ghost pages: seq<UserPage>) returns (ok: bool)
    requires pt.Valid() && |pages| == n && va == (lo + n) * PGSIZE && va + PGSIZE <= MAXVA
    requires perm < 1024 && HasRWX(perm) && |contents| == PGWORDS
    requires Added(pt.m.end, mem0, t0, pt.m.mem, pt.m.free, pt.tree, lo, pages) && pt.Map(lo + n) == 0
    requires Grew(pt.m.end, mem0, free0, t0, pt.m.mem, pt.m.free, pt.tree, PagesOf(pt.m.mem, pt.tree, lo, n))
    modifies pt.m, pt`tree
    ensures pt.Valid()
    ensures var pages' := if ok then pages + [UserPage(contents, WithV(perm))] else pages;
            && Added(pt.m.end, mem0, t0, pt.m.mem, pt.m.free, pt.tree, lo, pages')
            && Grew(pt.m.end, mem0, free0, t0, pt.m.mem, pt.m.free, pt.tree, PagesOf(pt.m.mem, pt.tree, lo, |pages'|))
  {
    hide ValidLists;
    hide InLists;
    hide WfTree;
    hide Entry;
    hide Tables;
    hide HasRWX;
    hide WithV;
    hide Added;
    hide Grew;
    hide Evolves;
    hide RangeMapped;
    hide PagesOf;
    ghost var memA, freeA, tA, data := pt.m.mem, pt.m.free, pt.tree, PagesOf(pt.m.mem, pt.tree, lo, n);
    var mem := KallocWith(pt.m, contents);
    if mem == 0 {
      return false;
    }
    TreeFrame(memA, pt.m.mem, pt.tree);
    ghost var memB := pt.m.mem;
    GrewAlloc(pt.m.end, mem0, free0, t0, memA, freeA, tA, data, mem, contents);
    ghost var done;
    ok, done := pt.Mappages(va, PGSIZE, mem, perm);
    GrewTables(pt.m.end, mem0, free0, t0, memB, freeA - {mem}, tA, pt.m.mem, pt.m.free, pt.tree, data + {mem});
    if ok {
      AddedOne(pt.m.end, mem0, t0, memA, freeA, tA, mem, contents, pt.m.mem, pt.m.free, pt.tree, lo, pages, perm);
    } else {
      ghost var memC, freeC := pt.m.mem, pt.m.free;
      StillTaken(pt.m.end, memB, freeA - {mem}, tA, memC, freeC, pt.tree, mem);
      pt.m.Kfree(mem);
      TreeFrame(memC, pt.m.mem, pt.tree);
      AddedFailed(pt.m.end, mem0, t0, memA, freeA, tA, mem, contents, memC, freeC, pt.tree, pt.m.mem, lo, pages, perm);
      FreedOne(pt.m.end, memC, freeC, pt.m.mem, pt.tree, mem);
      GrewFree(pt.m.end, mem0, free0, t0, memC, freeC, pt.tree, pt.m.mem, data + {mem}, {mem});
      DataNotFree(pt.m.end, mem0, free0, t0, memA, freeA, tA, data, mem);
    }
  }

  lemma StillTaken(end: nat, mem: map<nat, Page>, free: set<nat>, t: Tree, mem': map<nat, Page>, free': set<nat>, t': Tree, pa: nat)
    requires Evolves(end, mem, free, t, mem', free', t') && pa !in free && pa !in Tables(t)
    ensures pa !in free' && pa !in Tables(t')
  {
    hide Tables;
  }

  lemma FreedOne(end: nat, mem: map<nat, Page>, free: set<nat>, mem': map<nat, Page>, t: Tree, pa: nat)
    requires forall p: nat :: IsPage(end, p) ==> p in mem
    requires pa in mem' && mem' == mem[pa := mem'[pa]]
    ensures Framed(end, mem, free, mem', free + {pa}, Tables(t) + {pa})
  {
    hide Tables;
  }

  lemma DataNotFree(end: nat, mem: map<nat, Page>, free: set<nat>, t: Tree, mem1: map<nat, Page>, free1: set<nat>, t1: Tree,
                    data: set<nat>, pa: nat)
    requires Grew(end, mem, free, t, mem1, free1, t1, data) && pa in free1
    ensures data + {pa} - {pa} == data
  {
  }

  method KallocWith(m: PhysMem, contents: Page) returns (pa: nat)
    requires m.Valid() && |contents| == PGWORDS
    modifies m
    ensures m.Valid()
    ensures pa == 0 ==> m.mem == old(m.mem) && m.free == old(m.free)
    ensures pa != 0 ==> IsPage(m.end, pa) && pa in old(m.free) && m.free == old(m.free) - {pa}
    ensures pa != 0 ==> m.mem == old(m.mem)[pa := contents]
  {
    pa := KallocHere(m);
    if pa != 0 {
      m.StorePage(pa, contents);
    }
  }

  /** Taking the added pages away again, and giving them back, leaves only new tables. */
  lemma RollBack(end: nat, mem0: map<nat, Page>, free0: set<nat>, t0: Tree, mem1: map<nat, Page>, free1: set<nat>, t1: Tree,
                 mem2: map<nat, Page>, lo: nat, pages: seq<UserPage>)
    requires Added(end, mem0, t0, mem1, free1, t1, lo, pages)
    requires Grew(end, mem0, free0, t0, mem1, free1, t1, PagesOf(mem1, t1, lo, |pages|))
    requires WfTree(mem0, t0) && forall v: nat :: lo <= v < lo + |pages| ==> Entry(mem0, t0, v) == 0
    requires RangeUnmapped(mem1, mem2, t1, lo, |pages|)
    requires var gone := PagesOf(mem1, t1, lo, |pages|);
             Framed(end, mem1, free1, mem2, free1 + gone, Tables(t1) + gone)
    ensures Extends(end, mem0, free0, t0, mem2, free1 + PagesOf(mem1, t1, lo, |pages|), t1)
  {
    hide WfTree;
    hide Entry;
    hide Tables;
    var gone := PagesOf(mem1, t1, lo, |pages|);
    forall v: nat ensures Entry(mem2, t1, v) == Entry(mem0, t0, v) {
      assert Entry(mem2, t1, v) == if lo <= v < lo + |pages| then 0 else Entry(mem1, t1, v);
    }
    GrewFree(end, mem0, free0, t0, mem1, free1, t1, mem2, gone, gone);
    assert gone - gone == {};
    GrewIsEvolves(end, mem0, free0, t0, mem2, free1 + gone, t1);
  }

  predicate IsXperm(xperm: nat) {
    xperm == 0 || xperm == PTE_W || xperm == PTE_X || xperm == PTE_W + PTE_X
  }

  /** Zeroed pages with permissions R, U and `xperm`. */
  ghost function ZeroPages(n: nat, xperm: nat): seq<UserPage> {
    seq(n, _ => UserPage(ZeroPage, WithV(PTE_R + PTE_U + xperm)))
  }

  lemma ZeroPagesFacts(n: nat, xperm: nat)
    ensures |ZeroPages(n, xperm)| == n && ZeroPages(0, xperm) == []
    ensures ZeroPages(n, xperm) + [UserPage(ZeroPage, WithV(PTE_R + PTE_U + xperm))] == ZeroPages(n + 1, xperm)
  {
  }

  /** uvmalloc.  Success adds exactly the zeroed pages between the two sizes; failure
      returns 0 with the map, the user pages and everyone else's pages as before, new
      tables being all that is kept. */
  method Uvmalloc(pt: PageTable, oldsz: nat, newsz: nat, xperm: nat) returns (r: nat, ghost ok: bool)
    requires pt.Valid() && PGROUNDUP(newsz) <= MAXVA && IsXperm(xperm)
    requires forall v: nat :: Pages(oldsz) <= v < Pages(newsz) ==> pt.Map(v) == 0
    modifies pt.m, pt`tree
    ensures pt.Valid()
    ensures r == if !ok then 0 else if newsz < oldsz then oldsz else newsz
    ensures ok ==> var n := if Pages(oldsz) < Pages(newsz) then Pages(newsz) - Pages(oldsz) else 0;
            && Added(pt.m.end, old(pt.m.mem), old(pt.tree), pt.m.mem, pt.m.free, pt.tree, Pages(oldsz), ZeroPages(n, xperm))
            && Grew(pt.m.end, old(pt.m.mem), old(pt.m.free), old(pt.tree), pt.m.mem, pt.m.free, pt.tree,
                    PagesOf(pt.m.mem, pt.tree, Pages(oldsz), n))
    ensures !ok ==> Extends(pt.m.end, old(pt.m.mem), old(pt.m.free), old(pt.tree), pt.m.mem, pt.m.free, pt.tree)
  {
    hide ValidLists;
    hide InLists;
    hide WfTree;
    hide Entry;
    hide Tables;
    hide WithV;
    hide Added;
    hide Grew;
    hide Extends;
    hide PagesOf;
    hide RangeUnmapped;
    hide PrivatePages;
    hide PrivateIfMapped;
    hide Mapped;
    hide Framed;
    hide ZeroPages;
    ghost var mem0, free0, t0, lo, k: nat := pt.m.mem, pt.m.free, pt.tree, Pages(oldsz), 0;
    AddedNothing(pt.m.end, mem0, free0, t0, lo);
    GrewNothing(pt.m.end, mem0, free0, t0);
    ZeroPagesFacts(0, xperm);
    forall v: nat | lo <= v < Pages(newsz) ensures Entry(mem0, t0, v) == 0 {
      assert pt.Map(v) == 0;
    }
    if newsz < oldsz {
      return oldsz, true;
    }
    var oldsz' := PGROUNDUP(oldsz);
    var a := oldsz';
    while a < newsz
      invariant pt.Valid() && a == oldsz' + k * PGSIZE == (lo + k) * PGSIZE
      invariant k == 0 || lo + k <= Pages(newsz)
      invariant Added(pt.m.end, mem0, t0, pt.m.mem, pt.m.free, pt.tree, lo, ZeroPages(k, xperm))
      invariant Grew(pt.m.end, mem0, free0, t0, pt.m.mem, pt.m.free, pt.tree, PagesOf(pt.m.mem, pt.tree, lo, k))
      decreases newsz - a
    {
      BelowPages(newsz, lo + k);
      ZeroPagesFacts(k, xperm);
      AddedElsewhere(pt.m.end, mem0, t0, pt.m.mem, pt.m.free, pt.tree, lo, ZeroPages(k, xperm), lo + k);
      PermHasRWX(xperm);
      var added := AddPage(pt, a, ZeroPage, PTE_R + PTE_U + xperm, mem0, free0, t0, lo, k, ZeroPages(k, xperm));
      if !added {
        ghost var mem1, free1 := pt.m.mem, pt.m.free;
        AddedPrivate(pt.m.end, mem0, t0, mem1, free1, pt.tree, lo, ZeroPages(k, xperm));
        PrivateIsMapped(pt.m.end, mem1, free1, pt.tree, lo, k);
        var _, panicked := Uvmdealloc(pt, a, oldsz');
        RollBack(pt.m.end, mem0, free0, t0, mem1, free1, pt.tree, pt.m.mem, lo, ZeroPages(k, xperm));
        return 0, false;
      }
      k := k + 1;
      a := a + PGSIZE;
    }
    return newsz, true;
  }

  lemma BelowPages(sz: nat, vpn: nat)
    requires vpn * PGSIZE < sz
    ensures vpn < Pages(sz)
  {
  }

  lemma PermHasRWX(xperm: nat)
    requires IsXperm(xperm)
    ensures HasRWX(PTE_R + PTE_U + xperm) && PTE_R + PTE_U + xperm < 1024
  {
  }

  lemma AddedElsewhere(end: nat, mem: map<nat, Page>, t: Tree, mem': map<nat, Page>, free': set<nat>, t': Tree,
                       lo: nat, pages: seq<UserPage>, v: nat)
    requires Added(end, mem, t, mem', free', t', lo, pages) && !(lo <= v < lo + |pages|)
    ensures WfTree(mem, t) && WfTree(mem', t') && Entry(mem', t', v) == Entry(mem, t, v)
  {
  }

  lemma AddedPrivate(end: nat, mem: map<nat, Page>, t: Tree, mem': map<nat, Page>, free': set<nat>, t': Tree,
                     lo: nat, pages: seq<UserPage>)
    requires Added(end, mem, t, mem', free', t', lo, pages)
    ensures PrivatePages(end, mem', free', t', lo, |pages|)
  {
  }

  /** The bytes and permissions of virtual pages 0..n-1. */
  ghost function Image(mem: map<nat, Page>, t: Tree, n: nat): (pages: seq<UserPage>)
    requires WfTree(mem, t)
    ensures |pages| == n
  {
    seq(n, v requires 0 <= v < n =>
      var e := Entry(mem, t, v);
      UserPage(if PhysPage(e) in mem then mem[PhysPage(e)] else [], FlagsOf(e)))
  }

  lemma ImageStep(mem: map<nat, Page>, t: Tree, k: nat)
    requires WfTree(mem, t)
    requires PhysPage(Entry(mem, t, k)) in mem
    ensures Image(mem, t, 0) == []
    ensures var e := Entry(mem, t, k);
            Image(mem, t, k) + [UserPage(mem[PhysPage(e)], FlagsOf(e))] == Image(mem, t, k + 1)
  {
  }

  /** What another address space must not share with the one that grows. */
  ghost predicate Apart(end: nat, mem: map<nat, Page>, free: set<nat>, other: Tree, n: nat, t: Tree) {
    && PrivatePages(end, mem, free, other, 0, n)
    && Owned(end, free, Tables(other))
    && Tables(other) !! Tables(t)
    && PagesOf(mem, other, 0, n) !! Tables(t)
  }

  /** Growing one address space leaves another one's map and bytes alone. */
  lemma OtherKept(end: nat, mem: map<nat, Page>, free: set<nat>, other: Tree, n: nat, t: Tree,
                  mem': map<nat, Page>, free': set<nat>, t': Tree, data: set<nat>)
    requires Apart(end, mem, free, other, n, t) && Grew(end, mem, free, t, mem', free', t', data)
    ensures SameMap(mem, other, mem', other) && Apart(end, mem', free', other, n, t')
    ensures Image(mem', other, n) == Image(mem, other, n)
  {
    forall p | p in Tables(other) ensures p in mem' && p in mem && mem'[p] == mem[p] && p !in free' && p !in Tables(t') {
    }
    TreeFrame(mem, mem', other);
    hide WfTree;
    hide Entry;
    hide Tables;
    hide PhysPage;
    forall v: nat | v < n
      ensures var p := PhysPage(Entry(mem, other, v));
              p in mem && p in mem' && mem'[p] == mem[p] && p !in free' && p !in Tables(t')
    {
      assert PhysPage(Entry(mem, other, v)) in PagesOf(mem, other, 0, n);
    }
    assert forall v: nat :: Entry(mem', other, v) == Entry(mem, other, v);
    assert PagesOf(mem', other, 0, n) == PagesOf(mem, other, 0, n);
  }

  lemma ParentPage(end: nat, mem: map<nat, Page>, free: set<nat>, t: Tree, n: nat, v: nat)
    requires PrivatePages(end, mem, free, t, 0, n) && v < n
    requires forall p: nat :: IsPage(end, p) ==> p in mem
    ensures v / 512 in t.leaf && WfTree(mem, t)
    ensures var e := Entry(mem, t, v);
            && IsLeafEntry(e) && PhysPage(e) == PTE2PA(e) && PTE2PA(e) in mem
            && FlagsOf(e) == PTE_FLAGS(e) == WithV(PTE_FLAGS(e)) && PTE_FLAGS(e) < 1024 && HasRWX(PTE_FLAGS(e))
  {
    assert Entry(mem, t, v) != 0;
    EntryAt(mem, t, v);
    LeafFlags(Entry(mem, t, v));
  }

  lemma LeafFlags(e: int)
    requires IsLeafEntry(e)
    ensures WithV(PTE_FLAGS(e)) == PTE_FLAGS(e) && HasRWX(PTE_FLAGS(e))
  {
    EntryBits(e / 1024, e % 1024);
  }

  lemma ApartPrivate(end: nat, mem: map<nat, Page>, free: set<nat>, other: Tree, n: nat, t: Tree)
    requires Apart(end, mem, free, other, n, t)
    ensures PrivatePages(end, mem, free, other, 0, n)
  {
  }

  lemma ApartOwned(end: nat, mem: map<nat, Page>, free: set<nat>, other: Tree, n: nat, t: Tree)
    requires Apart(end, mem, free, other, n, t)
    ensures Owned(end, free, Tables(other)) && WfTree(mem, other)
  {
  }

  lemma ExtendsGrew(end: nat, mem: map<nat, Page>, free: set<nat>, t: Tree, mem': map<nat, Page>, free': set<nat>, t': Tree)
    requires Extends(end, mem, free, t, mem', free', t')
    ensures Grew(end, mem, free, t, mem', free', t', {})
  {
    hide Tables;
    hide SameMap;
  }

  /** Equal images have equal pages. */
  lemma ImagePage(mem: map<nat, Page>, mem': map<nat, Page>, t: Tree, n: nat, k: nat)
    requires SameMap(mem, t, mem', t) && Image(mem', t, n) == Image(mem, t, n) && k < n
    requires PhysPage(Entry(mem', t, k)) in mem' && |mem'[PhysPage(Entry(mem', t, k))]| > 0
    ensures Entry(mem', t, k) == Entry(mem, t, k)
    ensures PhysPage(Entry(mem, t, k)) in mem && mem'[PhysPage(Entry(mem, t, k))] == mem[PhysPage(Entry(mem, t, k))]
  {
    hide WfTree;
    hide Entry;
    hide PhysPage;
    hide FlagsOf;
    assert Image(mem', t, n)[k] == Image(mem, t, n)[k];
  }

  lemma AllPages(sz: nat, k: nat)
    requires k * PGSIZE >= sz && (k == 0 || k <= Pages(sz))
    ensures k == Pages(sz)
  {
  }

  /** uvmcopy.  Success gives the child the parent's pages, byte for byte and with the same
      permissions, in pages of its own; failure gives every page back but new tables. */
  method Uvmcopy(parent: PageTable, child: PageTable, sz: nat) returns (ok: bool)
    requires parent.Valid() && child.Valid() && parent.m == child.m && parent != child
    requires PGROUNDUP(sz) <= MAXVA
    requires Apart(parent.m.end, parent.m.mem, parent.m.free, parent.tree, Pages(sz), child.tree)
    requires forall v: nat :: v < Pages(sz) ==> child.Map(v) == 0
    modifies child.m, child`tree, parent`tree
    ensures parent.Valid() && child.Valid() && parent.tree == old(parent.tree)
    ensures SameMap(old(child.m.mem), parent.tree, child.m.mem, parent.tree)
    ensures Image(child.m.mem, parent.tree, Pages(sz)) == Image(old(child.m.mem), parent.tree, Pages(sz))
    ensures ok ==>
              && Added(child.m.end, old(child.m.mem), old(child.tree), child.m.mem, child.m.free, child.tree, 0,
                       Image(child.m.mem, parent.tree, Pages(sz)))
              && Grew(child.m.end, old(child.m.mem), old(child.m.free), old(child.tree), child.m.mem, child.m.free, child.tree,
                      PagesOf(child.m.mem, child.tree, 0, Pages(sz)))
    ensures !ok ==>
              Extends(child.m.end, old(child.m.mem), old(child.m.free), old(child.tree), child.m.mem, child.m.free, child.tree)
  {
    hide ValidLists;
    hide InLists;
    hide WfTree;
    hide Entry;
    hide Tables;
    hide WithV;
    hide Added;
    hide Grew;
    hide Extends;
    hide PagesOf;
    hide RangeUnmapped;
    hide PrivatePages;
    hide PrivateIfMapped;
    hide Mapped;
    hide Framed;
    hide Apart;
    hide Image;
    hide HasRWX;
    hide IsValid;
    hide PTE2PA;
    hide PTE_FLAGS;
    ghost var m0, free0, t0, tp, n := child.m.mem, child.m.free, child.tree, parent.tree, Pages(sz);
    ghost var k: nat := 0;
    ApartPrivate(child.m.end, m0, free0, tp, n, t0);
    AddedNothing(child.m.end, m0, free0, t0, 0);
    GrewNothing(child.m.end, m0, free0, t0);
    forall v: nat | v < n ensures Entry(m0, t0, v) == 0 {
      assert child.Map(v) == 0;
    }
    var i := 0;
    if n > 0 { ParentPage(child.m.end, m0, free0, tp, n, 0); ImageStep(m0, tp, 0); }
    assert Image(m0, tp, 0) == [];
    while i < sz
      invariant i == k * PGSIZE && (k == 0 || k <= n)
      invariant parent.Valid() && child.Valid() && parent.tree == tp
      invariant Added(child.m.end, m0, t0, child.m.mem, child.m.free, child.tree, 0, Image(m0, tp, k))
      invariant Grew(child.m.end, m0, free0, t0, child.m.mem, child.m.free, child.tree, PagesOf(child.m.mem, child.tree, 0, k))
      invariant SameMap(m0, tp, child.m.mem, tp) && Apart(child.m.end, child.m.mem, child.m.free, tp, n, child.tree)
      invariant Image(child.m.mem, tp, n) == Image(m0, tp, n)
      decreases sz - i
    {
      BelowPages(sz, k);
      ghost var mem1, free1, t1 := child.m.mem, child.m.free, child.tree;
      ApartPrivate(child.m.end, mem1, free1, tp, n, t1);
      ParentPage(child.m.end, mem1, free1, tp, n, k);
      var pte := parent.Walk(i, false);
      EntryAt(child.m.mem, tp, k);
      var e := child.m.mem[pte.value.page][pte.value.index];
      LeafEntryFacts(e);
      if !IsValid(e) {
        assert false;
      }
      AddedElsewhere(child.m.end, m0, t0, mem1, free1, t1, 0, Image(m0, tp, k), k);
      ImagePage(m0, mem1, tp, n, k);
      ImageStep(m0, tp, k);
      ok := AddPage(child, i, child.m.mem[PTE2PA(e)], PTE_FLAGS(e), m0, free0, t0, 0, k, Image(m0, tp, k));
      OtherKept(child.m.end, m0, free0, tp, n, t0, child.m.mem, child.m.free, child.tree,
                PagesOf(child.m.mem, child.tree, 0, if ok then k + 1 else k));
      if !ok {
        ghost var mem2, free2 := child.m.mem, child.m.free;
        AddedPrivate(child.m.end, m0, t0, mem2, free2, child.tree, 0, Image(m0, tp, k));
        PrivateIsMapped(child.m.end, mem2, free2, child.tree, 0, k);
        var panicked := child.Uvmunmap(0, i / PGSIZE, true);
        RollBack(child.m.end, m0, free0, t0, mem2, free2, child.tree, child.m.mem, 0, Image(m0, tp, k));
        ExtendsGrew(child.m.end, m0, free0, t0, child.m.mem, child.m.free, child.tree);
        OtherKept(child.m.end, m0, free0, tp, n, t0, child.m.mem, child.m.free, child.tree, {});
        ApartOwned(child.m.end, child.m.mem, child.m.free, tp, n, child.tree);
        return false;
      }
      ApartOwned(child.m.end, child.m.mem, child.m.free, tp, n, child.tree);
      k := k + 1;
      i := i + PGSIZE;
    }
    ok := true;
    AllPages(sz, k);
  }
}

/**
  User address spaces (kernel/proc.c, kernel/vm.c): from proc_pagetable through any
  run of growproc and fork to proc_freepagetable.
 */
module AddressSpace {
  import opened Riscv
  import opened PageAlloc
  import opened PageTree
  import opened VirtualMemory
  import opened UserMemory
  import opened FreeWalk

  // ---------- a tree without mappings can be freed ----------

  /** The tables at and below the level-1 table for root index `i`. */
  ghost function MidSet(t: Tree, i: nat): set<nat>
    requires i in t.mid
  {
    {t.mid[i]} + set l | l in t.leaf && l / 512 == i :: t.leaf[l]
  }

  lemma {:induction false} KidsWithin(mem: map<nat, Page>, page: nat, level: nat, n: nat, s: set<nat>)
    requires level > 0
    requires forall i: nat :: i < n ==> KidPages(mem, page, level, i) <= s
    ensures Kids(mem, page, level, n) <= s
  {
    if n > 0 {
      KidsWithin(mem, page, level, n - 1, s);
      assert KidPages(mem, page, level, n - 1) <= s;
    }
  }

  ghost predicate NoMappings(mem: map<nat, Page>, t: Tree) {
    WfTree(mem, t) && forall vpn: nat :: Entry(mem, t, vpn) == 0
  }

  lemma LeafFreeable(mem: map<nat, Page>, t: Tree, l: nat)
    requires NoMappings(mem, t) && l in t.leaf
    ensures Freeable(mem, t.leaf[l], 0) && SubPages(mem, t.leaf[l], 0) == {t.leaf[l]}
  {
    assert WfLeaf(mem, t, l);
    forall k | 0 <= k < 512 ensures mem[t.leaf[l]][k] == 0 {
      SlotSplits(l, k);
      assert Entry(mem, t, Slot(l, k)) == 0;
    }
  }

  lemma MidKids(mem: map<nat, Page>, t: Tree, i: nat, j: nat)
    requires NoMappings(mem, t) && i in t.mid && j < 512
    ensures KidPages(mem, t.mid[i], 1, j) == if Slot(i, j) in t.leaf then {t.leaf[Slot(i, j)]} else {}
    ensures HasKid(mem, t.mid[i], j) <==> Slot(i, j) in t.leaf
    ensures HasKid(mem, t.mid[i], j) ==> Freeable(mem, Kid(mem, t.mid[i], j), 0)
  {
    hide Slot;
    assert WfMid(mem, t, i);
    if Slot(i, j) in t.leaf {
      assert t.leaf[Slot(i, j)] in Tables(t);
      PointerEntry(t.leaf[Slot(i, j)]);
      LeafFreeable(mem, t, Slot(i, j));
    }
  }

  lemma MidFreeable(mem: map<nat, Page>, t: Tree, i: nat)
    requires NoMappings(mem, t) && i in t.mid
    ensures Freeable(mem, t.mid[i], 1) && SubPages(mem, t.mid[i], 1) == MidSet(t, i)
  {
    hide Slot;
    hide Freeable;
    hide KidPages;
    hide Kids;
    var page := t.mid[i];
    assert WfMid(mem, t, i);
    forall j: nat | j < 512
      ensures page !in KidPages(mem, page, 1, j) && KidPages(mem, page, 1, j) <= MidSet(t, i)
      ensures HasKid(mem, page, j) ==> Freeable(mem, Kid(mem, page, j), 0)
      ensures mem[page][j] == 0 || IsPointer(mem[page][j])
    {
      MidKids(mem, t, i, j);
      SlotSplits(i, j);
      if Slot(i, j) in t.leaf {
        assert t.leaf[Slot(i, j)] in t.leaf.Values && t.mid[i] in t.mid.Values;
        assert t.leaf[Slot(i, j)] in Tables(t);
        PointerEntry(t.leaf[Slot(i, j)]);
      }
    }
    forall j: nat, k: nat | j < k < 512 ensures KidPages(mem, page, 1, j) !! KidPages(mem, page, 1, k) {
      MidKids(mem, t, i, j);
      MidKids(mem, t, i, k);
      SlotSplits(i, j);
      SlotSplits(i, k);
    }
    FreeableIs(mem, page, 1);
    KidsWithin(mem, page, 1, 512, MidSet(t, i));
    forall l | l in t.leaf && l / 512 == i ensures t.leaf[l] in Kids(mem, page, 1, 512) {
      SlotOf(l);
      MidKids(mem, t, i, l % 512);
      KidWithin(mem, page, 1, 512, l % 512);
    }
  }

  lemma SlotOf(l: nat)
    ensures Slot(l / 512, l % 512) == l
  {
  }

  /** Freeable, from its parts. */
  lemma FreeableIs(mem: map<nat, Page>, page: nat, level: nat)
    requires page in mem && |mem[page]| == 512 && level > 0
    requires forall i :: 0 <= i < 512 ==> mem[page][i] == 0 || IsPointer(mem[page][i])
    requires forall i :: 0 <= i < 512 && HasKid(mem, page, i) ==> Freeable(mem, Kid(mem, page, i), level - 1)
    requires forall i: nat :: i < 512 ==> page !in KidPages(mem, page, level, i)
    requires forall i: nat, j: nat :: i < j < 512 ==> KidPages(mem, page, level, i) !! KidPages(mem, page, level, j)
    ensures Freeable(mem, page, level)
  {
  }

  lemma RootKids(mem: map<nat, Page>, t: Tree, i: nat)
    requires NoMappings(mem, t) && i < 512
    ensures KidPages(mem, t.root, 2, i) == if i in t.mid then MidSet(t, i) else {}
    ensures HasKid(mem, t.root, i) ==> i in t.mid && Freeable(mem, Kid(mem, t.root, i), 1)
    ensures mem[t.root][i] == 0 || IsPointer(mem[t.root][i])
  {
    if i in t.mid {
      assert t.mid[i] in Tables(t);
      PointerEntry(t.mid[i]);
      MidFreeable(mem, t, i);
    }
  }

  lemma MidSetsApart(mem: map<nat, Page>, t: Tree, i: nat, j: nat)
    requires WfTree(mem, t) && i in t.mid && j in t.mid && i != j
    ensures MidSet(t, i) !! MidSet(t, j) && t.root !in MidSet(t, i)
  {
    assert t.mid[i] in t.mid.Values && t.mid[j] in t.mid.Values;
    assert forall l :: l in t.leaf ==> t.leaf[l] in t.leaf.Values;
  }

  /** Once nothing is mapped, freewalk can free the tree, and frees exactly its tables. */
  lemma EmptyTreeFreeable(mem: map<nat, Page>, t: Tree)
    requires NoMappings(mem, t)
    ensures Freeable(mem, t.root, 2) && SubPages(mem, t.root, 2) == Tables(t)
  {
    hide Freeable;
    hide KidPages;
    hide Kids;
    hide Entry;
    forall i: nat | i < 512
      ensures t.root !in KidPages(mem, t.root, 2, i) && KidPages(mem, t.root, 2, i) <= Tables(t)
      ensures HasKid(mem, t.root, i) ==> Freeable(mem, Kid(mem, t.root, i), 1)
      ensures mem[t.root][i] == 0 || IsPointer(mem[t.root][i])
    {
      RootKids(mem, t, i);
      assert forall l :: l in t.leaf ==> t.leaf[l] in t.leaf.Values;
    }
    forall i: nat, j: nat | i < j < 512 ensures KidPages(mem, t.root, 2, i) !! KidPages(mem, t.root, 2, j) {
      RootKids(mem, t, i);
      RootKids(mem, t, j);
      if i in t.mid && j in t.mid {
        MidSetsApart(mem, t, i, j);
      }
    }
    FreeableIs(mem, t.root, 2);
    KidsWithin(mem, t.root, 2, 512, Tables(t));
    forall i | i in t.mid ensures MidSet(t, i) <= Kids(mem, t.root, 2, 512) {
      assert WfMid(mem, t, i);
      RootKids(mem, t, i);
      KidWithin(mem, t.root, 2, 512, i);
    }
    AllTables(mem, t, Kids(mem, t.root, 2, 512));
  }

  lemma AllTables(mem: map<nat, Page>, t: Tree, s: set<nat>)
    requires WfTree(mem, t) && forall i :: i in t.mid ==> MidSet(t, i) <= s
    ensures t.mid.Values <= s && t.leaf.Values <= s
  {
    forall p | p in t.mid.Values ensures p in s {
      var i :| i in t.mid && t.mid[i] == p;
      assert p in MidSet(t, i);
    }
    forall p | p in t.leaf.Values ensures p in s {
      var l :| l in t.leaf && t.leaf[l] == p;
      assert WfLeaf(mem, t, l);
      assert p in MidSet(t, l / 512);
    }
  }

  // ---------- address spaces ----------

  const TRAMPOLINE_VPN: nat := TRAMPOLINE / PGSIZE
  const TRAPFRAME_VPN: nat := TRAPFRAME / PGSIZE

  /** The mapped pages are exactly those of [0, PGROUNDUP(sz)), privately owned, and the
      trapframe and trampoline pages at the top. */
  ghost predicate IsSpace(end: nat, mem: map<nat, Page>, free: set<nat>, t: Tree, sz: nat) {
    && Pages(sz) <= TRAPFRAME_VPN
    && PrivatePages(end, mem, free, t, 0, Pages(sz))
    && forall vpn: nat :: Entry(mem, t, vpn) != 0 <==> vpn < Pages(sz) || vpn == TRAPFRAME_VPN || vpn == TRAMPOLINE_VPN
  }

  /** The trapframe and the trampoline page are mapped as before. */
  ghost predicate SameTop(mem: map<nat, Page>, t: Tree, mem': map<nat, Page>, t': Tree) {
    && WfTree(mem, t)
    && WfTree(mem', t')
    && Entry(mem', t', TRAPFRAME_VPN) == Entry(mem, t, TRAPFRAME_VPN)
    && Entry(mem', t', TRAMPOLINE_VPN) == Entry(mem, t, TRAMPOLINE_VPN)
  }

  ghost predicate Space(pt: PageTable, sz: nat)
    reads pt, pt.m
  {
    pt.Valid() && IsSpace(pt.m.end, pt.m.mem, pt.m.free, pt.tree, sz)
  }

  lemma SpaceUnmapped(end: nat, mem: map<nat, Page>, free: set<nat>, t: Tree, sz: nat, n: nat)
    requires IsSpace(end, mem, free, t, sz) && n <= TRAPFRAME_VPN
    ensures WfTree(mem, t) && forall vpn: nat :: Pages(sz) <= vpn < n ==> Entry(mem, t, vpn) == 0
  {
  }

  lemma PrivatePart(end: nat, mem: map<nat, Page>, free: set<nat>, t: Tree, n: nat, lo: nat, k: nat)
    requires PrivatePages(end, mem, free, t, 0, n) && lo + k <= n
    ensures PrivatePages(end, mem, free, t, lo, k)
  {
    hide WfTree;
    hide Entry;
    hide Tables;
  }

  /** Shrinking: the pages lo.. of the space were unmapped and freed. */
  lemma SpaceShrinks(end: nat, mem: map<nat, Page>, free: set<nat>, t: Tree, sz: nat, mem': map<nat, Page>, free': set<nat>, sz': nat)
    requires IsSpace(end, mem, free, t, sz) && Pages(sz') <= Pages(sz)
    requires RangeUnmapped(mem, mem', t, Pages(sz'), Pages(sz) - Pages(sz'))
    requires free' == free + PagesOf(mem, t, Pages(sz'), Pages(sz) - Pages(sz'))
    ensures IsSpace(end, mem', free', t, sz') && SameTop(mem, t, mem', t)
  {
    hide WfTree;
    hide Entry;
    hide Tables;
    hide PhysPage;
    forall v: nat ensures Entry(mem', t, v) == if Pages(sz') <= v < Pages(sz) then 0 else Entry(mem, t, v) {
    }
    forall v: nat | v < Pages(sz') ensures PhysPage(Entry(mem, t, v)) !in free' {
      assert PhysPage(Entry(mem, t, v)) !in PagesOf(mem, t, Pages(sz'), Pages(sz) - Pages(sz'));
    }
  }

  /** Growing: pages were added right after the end of the space. */
  lemma SpaceGrows(end: nat, mem: map<nat, Page>, free: set<nat>, t: Tree, sz: nat,
                   mem': map<nat, Page>, free': set<nat>, t': Tree, sz': nat, pages: seq<UserPage>)
    requires IsSpace(end, mem, free, t, sz) && Pages(sz') == Pages(sz) + |pages| && Pages(sz') <= TRAPFRAME_VPN
    requires Added(end, mem, t, mem', free', t', Pages(sz), pages)
    requires Grew(end, mem, free, t, mem', free', t', PagesOf(mem', t', Pages(sz), |pages|))
    ensures IsSpace(end, mem', free', t', sz') && SameTop(mem, t, mem', t')
  {
    hide WfTree;
    hide Entry;
    hide Tables;
    hide PhysPage;
    var n := Pages(sz);
    forall v: nat | v < n
      ensures Entry(mem', t', v) == Entry(mem, t, v)
      ensures PhysPage(Entry(mem, t, v)) !in free' && PhysPage(Entry(mem, t, v)) !in Tables(t')
    {
      assert PhysPage(Entry(mem, t, v)) !in free && PhysPage(Entry(mem, t, v)) !in Tables(t);
    }
    forall v: nat, w: nat | v < n <= w < n + |pages| ensures PhysPage(Entry(mem', t', v)) != PhysPage(Entry(mem', t', w)) {
      assert PhysPage(Entry(mem', t', w)) in PagesOf(mem', t', n, |pages|);
    }
  }

  lemma SpaceKept(end: nat, mem: map<nat, Page>, free: set<nat>, t: Tree, sz: nat, mem': map<nat, Page>, free': set<nat>, t': Tree)
    requires IsSpace(end, mem, free, t, sz) && Extends(end, mem, free, t, mem', free', t')
    ensures IsSpace(end, mem', free', t', sz) && SameTop(mem, t, mem', t')
  {
    hide WfTree;
    hide Entry;
    hide Tables;
    hide PhysPage;
    forall v: nat ensures Entry(mem', t', v) == Entry(mem, t, v) {
    }
  }

  // ---------- physical memory bounds every space ----------

  lemma {:induction false} InjectionBound(f: nat -> nat, n: nat, b: nat)
    requires forall v: nat :: v < n ==> f(v) < b
    requires forall v: nat, w: nat :: v < w < n ==> f(v) != f(w)
    ensures n <= b
    decreases b
  {
    if n > 0 {
      var last := n - 1;
      // move whatever maps to b - 1 into the place of the last argument
      var g := (v: nat) => if f(v) == b - 1 then f(last) else f(v);
      assert f(last) < b;
      forall v: nat | v < last ensures g(v) < b - 1 {
        assert f(v) != f(last);
      }
      forall v: nat, w: nat | v < w < last ensures g(v) != g(w) {
        assert f(v) != f(w) && f(v) != f(last) && f(w) != f(last);
      }
      InjectionBound(g, last, b - 1);
    }
  }

  /** There are not enough physical pages for a space to come near TRAPFRAME. */
  lemma SpaceBounded(end: nat, mem: map<nat, Page>, free: set<nat>, t: Tree, n: nat)
    requires PrivatePages(end, mem, free, t, 0, n)
    ensures n <= PHYSTOP / PGSIZE
  {
    hide WfTree;
    hide Entry;
    hide Tables;
    hide PhysPage;
    var f := (v: nat) => PhysPage(Entry(mem, t, v)) / PGSIZE;
    forall v: nat | v < n ensures f(v) < PHYSTOP / PGSIZE {
      assert IsPage(end, PhysPage(Entry(mem, t, v)));
    }
    forall v: nat, w: nat | v < w < n ensures f(v) != f(w) {
      assert PhysPage(Entry(mem, t, v)) != PhysPage(Entry(mem, t, w));
      assert IsPage(end, PhysPage(Entry(mem, t, v))) && IsPage(end, PhysPage(Entry(mem, t, w)));
    }
    InjectionBound(f, n, PHYSTOP / PGSIZE);
  }

  /** The pages an address space is made of: its tables and its user pages. */
  ghost function Footprint(mem: map<nat, Page>, t: Tree, sz: nat): set<nat>
    requires WfTree(mem, t)
  {
    Tables(t) + PagesOf(mem, t, 0, Pages(sz))
  }

  lemma FramedSelf(end: nat, mem: map<nat, Page>, free: set<nat>, t: Tree, sz: nat)
    requires WfTree(mem, t) && forall p: nat :: IsPage(end, p) ==> p in mem
    ensures Framed(end, mem, free, mem, free, Footprint(mem, t, sz))
  {
  }

  lemma FramedGrowth(end: nat, mem: map<nat, Page>, free: set<nat>, t: Tree, sz: nat,
                     mem': map<nat, Page>, free': set<nat>, t': Tree, data: set<nat>)
    requires WfTree(mem, t) && Grew(end, mem, free, t, mem', free', t', data)
    ensures Framed(end, mem, free, mem', free', Footprint(mem, t, sz))
  {
    hide Tables;
    hide WfTree;
  }

  lemma FramedShrink(end: nat, mem: map<nat, Page>, free: set<nat>, t: Tree, sz: nat,
                     mem': map<nat, Page>, free': set<nat>, lo: nat, k: nat)
    requires WfTree(mem, t) && (k > 0 ==> lo + k <= Pages(sz))
    requires Framed(end, mem, free, mem', free', Tables(t) + PagesOf(mem, t, lo, k))
    ensures Framed(end, mem, free, mem', free', Footprint(mem, t, sz))
  {
    hide Tables;
    hide WfTree;
    hide Entry;
    hide PhysPage;
    assert PagesOf(mem, t, lo, k) <= PagesOf(mem, t, 0, Pages(sz));
  }

  /** uvmdealloc on a space, whatever sizes it is given: its comment allows an `oldsz` above
      the actual size, but uvmunmap panics as soon as that reaches an unmapped page. */
  lemma DeallocPanics(end: nat, mem: map<nat, Page>, free: set<nat>, t: Tree, sz: nat, oldsz: nat, newsz: nat)
    requires IsSpace(end, mem, free, t, sz) && Pages(oldsz) <= TRAPFRAME_VPN
    ensures PrivateIfMapped(end, mem, free, t, Pages(newsz), Excess(oldsz, newsz))
    ensures !Mapped(mem, t, Pages(newsz), Excess(oldsz, newsz)) <==>
            newsz < oldsz && Pages(newsz) < Pages(oldsz) && Pages(sz) < Pages(oldsz)
  {
    hide WfTree;
    hide Entry;
    hide Tables;
    hide PhysPage;
    var lo, k := Pages(newsz), Excess(oldsz, newsz);
    assert k > 0 ==> lo + k == Pages(oldsz);
    if k > 0 && Pages(sz) < Pages(oldsz) {
      assert Entry(mem, t, lo + k - 1) == 0;
    }
  }

  // ---------- what becomes of the pages and of their contents ----------

  /** Virtual pages 0..n-1 of a space resized to n' pages: cut off, or filled up with zeros. */
  ghost function Resized(pages: seq<UserPage>, n: nat): seq<UserPage> {
    if n <= |pages| then pages[..n] else pages + ZeroPages(n - |pages|, PTE_W)
  }

  lemma ResizedSame(pages: seq<UserPage>)
    ensures Resized(pages, |pages|) == pages
  {
  }

  /** Pages 0..n-1 map what they did, and their contents have not changed. */
  lemma ImageKept(end: nat, mem: map<nat, Page>, free: set<nat>, t: Tree, mem': map<nat, Page>, free': set<nat>, t': Tree,
                  n: nat, own: set<nat>)
    requires PrivatePages(end, mem, free, t, 0, n) && WfTree(mem', t')
    requires forall v: nat :: v < n ==> Entry(mem', t', v) == Entry(mem, t, v)
    requires Framed(end, mem, free, mem', free', own)
    requires forall v: nat :: v < n ==> PhysPage(Entry(mem, t, v)) !in own
    ensures Image(mem', t', n) == Image(mem, t, n) && PagesOf(mem', t', 0, n) == PagesOf(mem, t, 0, n)
  {
    hide WfTree;
    hide Entry;
    hide Tables;
    hide PhysPage;
    hide FlagsOf;
    forall v: nat | v < n
      ensures PhysPage(Entry(mem, t, v)) in mem && PhysPage(Entry(mem, t, v)) in mem'
      ensures mem'[PhysPage(Entry(mem, t, v))] == mem[PhysPage(Entry(mem, t, v))]
    {
      assert IsPage(end, PhysPage(Entry(mem, t, v)));
    }
  }

  lemma PagesOfSplit(mem: map<nat, Page>, t: Tree, n: nat, k: nat)
    requires WfTree(mem, t)
    ensures PagesOf(mem, t, 0, n + k) == PagesOf(mem, t, 0, n) + PagesOf(mem, t, n, k)
  {
    hide WfTree;
    hide Entry;
    hide PhysPage;
  }

  lemma ImageSplit(mem: map<nat, Page>, t: Tree, n: nat, k: nat)
    requires WfTree(mem, t)
    ensures Image(mem, t, n + k)[..n] == Image(mem, t, n)
  {
    hide WfTree;
    hide Entry;
    hide PhysPage;
    hide FlagsOf;
  }

  /** Growing takes as many pages off the free ones as it adds to the space, and leaves the
      pages that were there alone. */
  lemma GrowthConserves(end: nat, mem: map<nat, Page>, free: set<nat>, t: Tree, n: nat,
                        mem': map<nat, Page>, free': set<nat>, t': Tree, pages: seq<UserPage>)
    requires PrivatePages(end, mem, free, t, 0, n) && Added(end, mem, t, mem', free', t', n, pages)
    requires WfTree(mem', t') && Grew(end, mem, free, t, mem', free', t', PagesOf(mem', t', n, |pages|))
    ensures free' + (Tables(t') + PagesOf(mem', t', 0, n + |pages|)) == free + (Tables(t) + PagesOf(mem, t, 0, n))
    ensures Image(mem', t', n + |pages|) == Image(mem, t, n) + pages
  {
    hide WfTree;
    hide Entry;
    hide Tables;
    hide PhysPage;
    hide FlagsOf;
    ImageKept(end, mem, free, t, mem', free', t', n, Tables(t));
    PagesOfSplit(mem', t', n, |pages|);
    SetsBalance(free, Tables(t), free', Tables(t'), PagesOf(mem', t', n, |pages|), PagesOf(mem, t, 0, n));
    ImageSplit(mem', t', n, |pages|);
    forall v | n <= v < n + |pages| ensures Image(mem', t', n + |pages|)[v] == (Image(mem, t, n) + pages)[v] {
      assert HoldsPage(mem', Entry(mem', t', v), pages[v - n]);
    }
    forall v | 0 <= v < n ensures Image(mem', t', n + |pages|)[v] == (Image(mem, t, n) + pages)[v] {
      assert Image(mem', t', n + |pages|)[..n][v] == Image(mem, t, n)[v];
    }
  }

  lemma SetsBalance(free: set<nat>, tables: set<nat>, free': set<nat>, tables': set<nat>, data: set<nat>, user: set<nat>)
    requires tables <= tables' <= tables + free && data <= free && free' == free - tables' - data
    ensures free' + (tables' + (user + data)) == free + (tables + user)
  {
  }

  /** Shrinking gives back exactly the pages it takes from the space. */
  lemma ShrinkConserves(end: nat, mem: map<nat, Page>, free: set<nat>, t: Tree, n: nat,
                        mem': map<nat, Page>, free': set<nat>, lo: nat, k: nat)
    requires PrivatePages(end, mem, free, t, 0, n) && (k > 0 ==> lo + k == n)
    requires RangeUnmapped(mem, mem', t, lo, k) && free' == free + PagesOf(mem, t, lo, k)
    requires Framed(end, mem, free, mem', free', Tables(t) + PagesOf(mem, t, lo, k))
    ensures var n' := if k > 0 then lo else n;
            && WfTree(mem', t)
            && free' + (Tables(t) + PagesOf(mem', t, 0, n')) == free + (Tables(t) + PagesOf(mem, t, 0, n))
            && Image(mem', t, n') == Image(mem, t, n)[..n']
  {
    hide WfTree;
    hide Entry;
    hide Tables;
    hide PhysPage;
    hide FlagsOf;
    var n' := if k > 0 then lo else n;
    PagesOfSplit(mem, t, n', n - n');
    ImageSplit(mem, t, n', n - n');
    assert k == 0 ==> PagesOf(mem, t, lo, k) == {} == PagesOf(mem, t, n', n - n');
    forall v: nat | v < n'
      ensures PhysPage(Entry(mem, t, v)) !in Tables(t) + PagesOf(mem, t, lo, k) && Entry(mem', t, v) == Entry(mem, t, v)
    {
    }
    PrivatePart(end, mem, free, t, n, 0, n');
    ImageKept(end, mem, free, t, mem', free', t, n', Tables(t) + PagesOf(mem, t, lo, k));
  }

  lemma ExtendsKeeps(end: nat, mem: map<nat, Page>, free: set<nat>, t: Tree, n: nat, mem': map<nat, Page>, free': set<nat>, t': Tree)
    requires PrivatePages(end, mem, free, t, 0, n) && Extends(end, mem, free, t, mem', free', t')
    ensures WfTree(mem', t') && Image(mem', t', n) == Image(mem, t, n)
    ensures free' + (Tables(t') + PagesOf(mem', t', 0, n)) == free + (Tables(t) + PagesOf(mem, t, 0, n))
  {
    hide WfTree;
    hide Entry;
    hide Tables;
    hide PhysPage;
    ImageKept(end, mem, free, t, mem', free', t', n, Tables(t));
    EvolvesConserves(end, mem, free, t, mem', free', t');
  }

  // ---------- the operations ----------

  /** growproc for any int `n`, sizes being uint64: the new size, and -1 when memory ran
      out.  Shrinking by more than there is wraps around and changes nothing.  In every case
      the free pages and the pages of the space are together what they were. */
  method Growproc(pt: PageTable, sz: nat, n: int) returns (r: int, sz': nat)
    requires Space(pt, sz) && -0x8000_0000 <= n < 0x8000_0000
    modifies pt.m, pt`tree
    ensures Space(pt, sz') && SameTop(old(pt.m.mem), old(pt.tree), pt.m.mem, pt.tree)
    ensures r == 0 || r == -1
    ensures r == -1 ==> n > 0 && sz' == sz
    ensures r == -1 ==> Extends(pt.m.end, old(pt.m.mem), old(pt.m.free), old(pt.tree), pt.m.mem, pt.m.free, pt.tree)
    ensures r == 0 ==> sz' == if sz + n >= 0 then sz + n else sz
    ensures pt.m.free + Footprint(pt.m.mem, pt.tree, sz') == old(pt.m.free) + Footprint(old(pt.m.mem), old(pt.tree), sz)
    ensures Image(pt.m.mem, pt.tree, Pages(sz')) == Resized(Image(old(pt.m.mem), old(pt.tree), Pages(sz)), Pages(sz'))
    ensures Framed(pt.m.end, old(pt.m.mem), old(pt.m.free), pt.m.mem, pt.m.free, Footprint(old(pt.m.mem), old(pt.tree), sz))
  {
    hide ValidLists;
    hide InLists;
    hide WfTree;
    hide Entry;
    hide Tables;
    hide Added;
    hide Grew;
    hide Extends;
    hide PagesOf;
    hide RangeUnmapped;
    hide PrivatePages;
    hide PrivateIfMapped;
    hide Mapped;
    hide Framed;
    hide Image;
    hide ZeroPages;
    ghost var mem0, free0, t0 := pt.m.mem, pt.m.free, pt.tree;
    SpaceBounded(pt.m.end, mem0, free0, t0, Pages(sz));
    FramedSelf(pt.m.end, mem0, free0, t0, sz);
    ResizedSame(Image(mem0, t0, Pages(sz)));
    if n > 0 {
      r, sz' := Grow(pt, sz, n);
    } else if n < 0 {
      sz' := Shrink(pt, sz, n);
      r := 0;
    } else {
      r, sz' := 0, sz;
    }
  }

  method Grow(pt: PageTable, sz: nat, n: int) returns (r: int, sz': nat)
    requires Space(pt, sz) && Pages(sz) <= PHYSTOP / PGSIZE && 0 < n < 0x8000_0000
    modifies pt.m, pt`tree
    ensures Space(pt, sz') && SameTop(old(pt.m.mem), old(pt.tree), pt.m.mem, pt.tree)
    ensures (r == 0 && sz' == sz + n) || (r == -1 && sz' == sz)
    ensures r == -1 ==> Extends(pt.m.end, old(pt.m.mem), old(pt.m.free), old(pt.tree), pt.m.mem, pt.m.free, pt.tree)
    ensures pt.m.free + Footprint(pt.m.mem, pt.tree, sz') == old(pt.m.free) + Footprint(old(pt.m.mem), old(pt.tree), sz)
    ensures Image(pt.m.mem, pt.tree, Pages(sz')) == Resized(Image(old(pt.m.mem), old(pt.tree), Pages(sz)), Pages(sz'))
    ensures Framed(pt.m.end, old(pt.m.mem), old(pt.m.free), pt.m.mem, pt.m.free, Footprint(old(pt.m.mem), old(pt.tree), sz))
  {
    hide ValidLists;
    hide InLists;
    hide WfTree;
    hide Entry;
    hide Tables;
    hide Added;
    hide Grew;
    hide Extends;
    hide PagesOf;
    hide PrivatePages;
    hide Framed;
    hide Image;
    hide ZeroPages;
    ghost var end, mem0, free0, t0, k := pt.m.end, pt.m.mem, pt.m.free, pt.tree, Pages(sz);
    ResizedSame(Image(mem0, t0, k));
    var newsz := (sz + n) % TWO64;
    assert newsz == sz + n && PGROUNDUP(newsz) <= TRAPFRAME;
    SpaceUnmapped(end, mem0, free0, t0, sz, Pages(newsz));
    ghost var ok;
    sz', ok := Uvmalloc(pt, sz, newsz, PTE_W);
    if sz' == 0 {
      ExtendsGrew(end, mem0, free0, t0, pt.m.mem, pt.m.free, pt.tree);
      FramedGrowth(end, mem0, free0, t0, sz, pt.m.mem, pt.m.free, pt.tree, {});
      SpaceKept(end, mem0, free0, t0, sz, pt.m.mem, pt.m.free, pt.tree);
      ExtendsKeeps(end, mem0, free0, t0, k, pt.m.mem, pt.m.free, pt.tree);
      return -1, sz;
    }
    ghost var added := Pages(newsz) - k;
    ZeroPagesFacts(added, PTE_W);
    FramedGrowth(end, mem0, free0, t0, sz, pt.m.mem, pt.m.free, pt.tree, PagesOf(pt.m.mem, pt.tree, k, added));
    SpaceGrows(end, mem0, free0, t0, sz, pt.m.mem, pt.m.free, pt.tree, newsz, ZeroPages(added, PTE_W));
    GrowthConserves(end, mem0, free0, t0, k, pt.m.mem, pt.m.free, pt.tree, ZeroPages(added, PTE_W));
    ResizedUp(Image(mem0, t0, k), added);
    r := 0;
  }

  lemma ResizedUp(pages: seq<UserPage>, k: nat)
    ensures Resized(pages, |pages| + k) == pages + ZeroPages(k, PTE_W)
  {
    if k == 0 {
      assert pages[..|pages|] == pages == pages + ZeroPages(0, PTE_W);
    }
  }

  method Shrink(pt: PageTable, sz: nat, n: int) returns (sz': nat)
    requires Space(pt, sz) && Pages(sz) <= PHYSTOP / PGSIZE && -0x8000_0000 <= n < 0
    modifies pt.m, pt`tree
    ensures Space(pt, sz') && SameTop(old(pt.m.mem), old(pt.tree), pt.m.mem, pt.tree)
    ensures sz' == if sz + n >= 0 then sz + n else sz
    ensures pt.m.free + Footprint(pt.m.mem, pt.tree, sz') == old(pt.m.free) + Footprint(old(pt.m.mem), old(pt.tree), sz)
    ensures Image(pt.m.mem, pt.tree, Pages(sz')) == Resized(Image(old(pt.m.mem), old(pt.tree), Pages(sz)), Pages(sz'))
    ensures Framed(pt.m.end, old(pt.m.mem), old(pt.m.free), pt.m.mem, pt.m.free, Footprint(old(pt.m.mem), old(pt.tree), sz))
  {
    hide ValidLists;
    hide InLists;
    hide WfTree;
    hide Entry;
    hide Tables;
    hide PagesOf;
    hide RangeUnmapped;
    hide PrivatePages;
    hide PrivateIfMapped;
    hide Mapped;
    hide Framed;
    hide Image;
    hide ZeroPages;
    ghost var end, mem0, free0, t0 := pt.m.end, pt.m.mem, pt.m.free, pt.tree;
    var newsz := (sz + n) % TWO64;
    assert newsz == if sz + n >= 0 then sz + n else sz + n + TWO64;
    ghost var lo, k := Pages(newsz), Excess(sz, newsz);
    PrivatePart(end, mem0, free0, t0, Pages(sz), if newsz < sz then lo else 0, k);
    PrivateNone(end, mem0, free0, t0, lo, k, if newsz < sz then lo else 0);
    PrivateIsMapped(end, mem0, free0, t0, lo, k);
    var panicked;
    sz', panicked := Uvmdealloc(pt, sz, newsz);
    FramedShrink(end, mem0, free0, t0, sz, pt.m.mem, pt.m.free, lo, k);
    ShrinkConserves(end, mem0, free0, t0, Pages(sz), pt.m.mem, pt.m.free, lo, k);
    if newsz < sz {
      SpaceShrinks(end, mem0, free0, t0, sz, pt.m.mem, pt.m.free, newsz);
    } else {
      SpaceSame(end, mem0, free0, t0, sz, pt.m.mem, pt.m.free, lo);
    }
  }

  lemma PrivateNone(end: nat, mem: map<nat, Page>, free: set<nat>, t: Tree, lo: nat, k: nat, lo': nat)
    requires PrivatePages(end, mem, free, t, lo', k) && (k > 0 ==> lo == lo')
    ensures PrivatePages(end, mem, free, t, lo, k)
  {
  }

  lemma SpaceSame(end: nat, mem: map<nat, Page>, free: set<nat>, t: Tree, sz: nat, mem': map<nat, Page>, free': set<nat>, lo: nat)
    requires IsSpace(end, mem, free, t, sz) && RangeUnmapped(mem, mem', t, lo, 0)
    requires free' == free + PagesOf(mem, t, lo, 0)
    ensures IsSpace(end, mem', free', t, sz) && SameTop(mem, t, mem', t)
  {
    hide WfTree;
    hide Entry;
    hide Tables;
    hide PhysPage;
    forall v: nat ensures Entry(mem', t, v) == Entry(mem, t, v) {
    }
    assert PagesOf(mem, t, lo, 0) == {};
  }

  /** uvmfree of a tree that maps exactly the private pages 0..Pages(sz)-1. */
  method Uvmfree(pt: PageTable, sz: nat)
    requires pt.Valid() && PGROUNDUP(sz) <= MAXVA
    requires PrivatePages(pt.m.end, pt.m.mem, pt.m.free, pt.tree, 0, Pages(sz))
    requires forall vpn: nat :: vpn >= Pages(sz) ==> pt.Map(vpn) == 0
    modifies pt.m, pt`tree
    ensures pt.m.Valid()
    ensures pt.m.free == old(pt.m.free) + Footprint(old(pt.m.mem), old(pt.tree), sz)
    ensures Framed(pt.m.end, old(pt.m.mem), old(pt.m.free), pt.m.mem, pt.m.free, Footprint(old(pt.m.mem), old(pt.tree), sz))
  {
    hide ValidLists;
    hide InLists;
    hide WfTree;
    hide Entry;
    hide Tables;
    hide PagesOf;
    hide RangeUnmapped;
    hide PrivatePages;
    hide PrivateIfMapped;
    hide Mapped;
    hide Framed;
    hide Freeable;
    hide SubPages;
    ghost var mem0, free0, t := pt.m.mem, pt.m.free, pt.tree;
    PrivateIsMapped(pt.m.end, mem0, free0, t, 0, Pages(sz));
    forall vpn: nat | vpn >= Pages(sz) ensures Entry(mem0, t, vpn) == 0 {
      assert pt.Map(vpn) == 0;
    }
    UnmapStart(pt.m.end, mem0, free0, t, 0);
    if sz > 0 {
      var panicked := pt.Uvmunmap(0, PGROUNDUP(sz) / PGSIZE, true);
    }
    ghost var mem1, free1 := pt.m.mem, pt.m.free;
    NothingLeft(mem0, mem1, t, Pages(sz));
    EmptyTreeFreeable(mem1, t);
    Freewalk(pt.m, pt.root, 2);
    FramedBoth(pt.m.end, mem0, free0, mem1, free1, pt.m.mem, pt.m.free, t, Pages(sz));
  }

  lemma NothingLeft(mem: map<nat, Page>, mem': map<nat, Page>, t: Tree, n: nat)
    requires RangeUnmapped(mem, mem', t, 0, n) && WfTree(mem, t)
    requires forall vpn: nat :: vpn >= n ==> Entry(mem, t, vpn) == 0
    ensures NoMappings(mem', t)
  {
    hide WfTree;
    hide Entry;
    forall vpn: nat ensures Entry(mem', t, vpn) == 0 {
    }
  }

  lemma FramedBoth(end: nat, mem: map<nat, Page>, free: set<nat>, mem1: map<nat, Page>, free1: set<nat>,
                   mem2: map<nat, Page>, free2: set<nat>, t: Tree, n: nat)
    requires WfTree(mem, t) && free1 == free + PagesOf(mem, t, 0, n)
    requires Framed(end, mem, free, mem1, free1, Tables(t) + PagesOf(mem, t, 0, n))
    requires Framed(end, mem1, free1, mem2, free2, Tables(t))
    ensures Framed(end, mem, free, mem2, free2, Tables(t) + PagesOf(mem, t, 0, n))
  {
    hide Tables;
    hide WfTree;
    hide PagesOf;
  }

  /** proc_freepagetable: every table page and every user page of the space goes back to
      the allocator, each exactly once, and nothing else changes. */
  method ProcFreepagetable(pt: PageTable, sz: nat)
    requires Space(pt, sz)
    modifies pt.m, pt`tree
    ensures pt.m.Valid()
    ensures pt.m.free == old(pt.m.free) + Footprint(old(pt.m.mem), old(pt.tree), sz)
    ensures old(pt.m.free) !! Footprint(old(pt.m.mem), old(pt.tree), sz)
    ensures Tables(old(pt.tree)) !! PagesOf(old(pt.m.mem), old(pt.tree), 0, Pages(sz))
    ensures Framed(pt.m.end, old(pt.m.mem), old(pt.m.free), pt.m.mem, pt.m.free, Footprint(old(pt.m.mem), old(pt.tree), sz))
  {
    hide ValidLists;
    hide InLists;
    hide WfTree;
    hide Entry;
    hide Tables;
    hide PagesOf;
    hide RangeUnmapped;
    hide PrivatePages;
    hide PrivateIfMapped;
    hide Mapped;
    hide Framed;
    ghost var mem0, free0, t := pt.m.mem, pt.m.free, pt.tree;
    FootprintTaken(pt.m.end, mem0, free0, t, sz);
    SpaceTop(pt.m.end, mem0, free0, t, sz);
    var panicked := pt.Uvmunmap(TRAMPOLINE, 1, false);
    ghost var mem1 := pt.m.mem;
    TopGone(pt.m.end, mem0, mem1, free0, t, sz, TRAMPOLINE_VPN, TRAPFRAME_VPN);
    panicked := pt.Uvmunmap(TRAPFRAME, 1, false);
    ghost var mem2 := pt.m.mem;
    TopGone(pt.m.end, mem1, mem2, free0, t, sz, TRAPFRAME_VPN, TRAPFRAME_VPN);
    BothGone(mem0, mem1, mem2, pt.m.end, free0, t, sz);
    assert free0 + {} == free0;
    Uvmfree(pt, sz);
    FramedThrice(pt.m.end, mem0, free0, mem1, mem2, pt.m.mem, pt.m.free, t, sz);
  }

  /** The tables and the user pages are disjoint from each other and from the free pages. */
  lemma FootprintTaken(end: nat, mem: map<nat, Page>, free: set<nat>, t: Tree, sz: nat)
    requires PrivatePages(end, mem, free, t, 0, Pages(sz)) && Owned(end, free, Tables(t))
    ensures WfTree(mem, t)
    ensures free !! Footprint(mem, t, sz)
    ensures Tables(t) !! PagesOf(mem, t, 0, Pages(sz))
  {
    hide WfTree;
    hide Entry;
    hide Tables;
    hide PhysPage;
  }

  lemma SpaceTop(end: nat, mem: map<nat, Page>, free: set<nat>, t: Tree, sz: nat)
    requires IsSpace(end, mem, free, t, sz)
    ensures WfTree(mem, t) && Mapped(mem, t, TRAMPOLINE_VPN, 1) && Mapped(mem, t, TRAPFRAME_VPN, 1)
  {
  }

  /** Unmapping one of the two top pages keeps the user pages and the other top page. */
  lemma TopGone(end: nat, mem: map<nat, Page>, mem': map<nat, Page>, free: set<nat>, t: Tree, sz: nat, gone: nat, other: nat)
    requires PrivatePages(end, mem, free, t, 0, Pages(sz)) && Pages(sz) <= gone
    requires RangeUnmapped(mem, mem', t, gone, 1)
    ensures PrivatePages(end, mem', free, t, 0, Pages(sz)) && WfTree(mem, t)
    ensures other != gone && Mapped(mem, t, other, 1) ==> Mapped(mem', t, other, 1)
    ensures PagesOf(mem', t, 0, Pages(sz)) == PagesOf(mem, t, 0, Pages(sz))
  {
    hide WfTree;
    hide Entry;
    hide Tables;
    hide PhysPage;
    forall v: nat ensures Entry(mem', t, v) == if gone <= v < gone + 1 then 0 else Entry(mem, t, v) {
    }
    assert PagesOf(mem', t, 0, Pages(sz)) == PagesOf(mem, t, 0, Pages(sz));
  }

  lemma BothGone(mem: map<nat, Page>, mem1: map<nat, Page>, mem2: map<nat, Page>, end: nat, free: set<nat>, t: Tree, sz: nat)
    requires IsSpace(end, mem, free, t, sz)
    requires RangeUnmapped(mem, mem1, t, TRAMPOLINE_VPN, 1) && RangeUnmapped(mem1, mem2, t, TRAPFRAME_VPN, 1)
    ensures WfTree(mem2, t) && forall vpn: nat :: vpn >= Pages(sz) ==> Entry(mem2, t, vpn) == 0
  {
    hide WfTree;
    hide Entry;
    forall vpn: nat | vpn >= Pages(sz) ensures Entry(mem2, t, vpn) == 0 {
      assert Entry(mem2, t, vpn) == if vpn == TRAPFRAME_VPN then 0 else Entry(mem1, t, vpn);
      assert Entry(mem1, t, vpn) == if vpn == TRAMPOLINE_VPN then 0 else Entry(mem, t, vpn);
    }
  }

  lemma FramedThrice(end: nat, mem: map<nat, Page>, free: set<nat>, mem1: map<nat, Page>, mem2: map<nat, Page>,
                     mem3: map<nat, Page>, free3: set<nat>, t: Tree, sz: nat)
    requires WfTree(mem, t) && WfTree(mem2, t) && PagesOf(mem2, t, 0, Pages(sz)) == PagesOf(mem, t, 0, Pages(sz))
    requires Framed(end, mem, free, mem1, free, Tables(t) + {}) && Framed(end, mem1, free, mem2, free, Tables(t) + {})
    requires Framed(end, mem2, free, mem3, free3, Footprint(mem2, t, sz))
    ensures Framed(end, mem, free, mem3, free3, Footprint(mem, t, sz))
  {
    hide WfTree;
    hide PagesOf;
    hide Tables;
  }

  /** New tables are paid for by free pages, one for one. */
  lemma EvolvesConserves(end: nat, mem: map<nat, Page>, free: set<nat>, t: Tree, mem': map<nat, Page>, free': set<nat>, t': Tree)
    requires Evolves(end, mem, free, t, mem', free', t')
    ensures free' + Tables(t') == free + Tables(t)
  {
    hide Tables;
  }

  /** Nothing but pages that were free has changed since `mem`, `free`. */
  ghost predicate Untouched(end: nat, mem: map<nat, Page>, free: set<nat>, mem': map<nat, Page>, free': set<nat>) {
    Framed(end, mem, free, mem', free', {})
  }

  lemma UntouchedTrans(end: nat, mem: map<nat, Page>, free: set<nat>, mem1: map<nat, Page>, free1: set<nat>,
                       mem2: map<nat, Page>, free2: set<nat>, own: set<nat>)
    requires Untouched(end, mem, free, mem1, free1) && Framed(end, mem1, free1, mem2, free2, own) && own <= free
    ensures Untouched(end, mem, free, mem2, free2)
  {
  }

  /** uvmcreate. */
  method Uvmcreate(m: PhysMem) returns (pt: PageTable?)
    requires m.Valid()
    modifies m
    ensures m.Valid() && Untouched(m.end, old(m.mem), old(m.free), m.mem, m.free)
    ensures pt == null ==> m.free == old(m.free)
    ensures pt != null ==> fresh(pt) && pt.m == m && pt.Valid() && m.free + Tables(pt.tree) == old(m.free)
    ensures pt != null ==> forall vpn: nat :: pt.Map(vpn) == 0
  {
    hide ValidLists;
    hide InLists;
    hide WfTree;
    hide Entry;
    var page := KallocZeroed(m);
    if page == 0 {
      return null;
    }
    pt := new PageTable(m, page);
  }

  /** proc_pagetable: a space of size 0.  When memory runs out on the way it gives back
      every page it took. */
  method ProcPagetable(m: PhysMem, trampoline: nat, trapframe: nat) returns (pt: PageTable?)
    requires m.Valid()
    modifies m
    ensures m.Valid() && Untouched(m.end, old(m.mem), old(m.free), m.mem, m.free)
    ensures pt == null ==> m.free == old(m.free)
    ensures pt != null ==> fresh(pt) && pt.m == m && Space(pt, 0) && m.free + Tables(pt.tree) == old(m.free)
    ensures pt != null ==> pt.Map(TRAMPOLINE_VPN) == PA2PTE(trampoline) + PTE_R + PTE_X + PTE_V
    ensures pt != null ==> pt.Map(TRAPFRAME_VPN) == PA2PTE(trapframe) + PTE_R + PTE_W + PTE_V
  {
    hide ValidLists;
    hide InLists;
    hide WfTree;
    hide Entry;
    hide Tables;
    hide Evolves;
    hide RangeMapped;
    hide RangeUnmapped;
    hide Framed;
    hide PagesOf;
    hide PA2PTE;
    hide PrivatePages;
    ghost var mem0, free0 := m.mem, m.free;
    pt := Uvmcreate(m);
    if pt == null {
      return;
    }
    ghost var mem1, free1, t1 := m.mem, m.free, pt.tree;
    forall vpn: nat ensures Entry(mem1, t1, vpn) == 0 {
      assert pt.Map(vpn) == 0;
    }
    var ok, done := pt.Mappages(TRAMPOLINE, PGSIZE, trampoline, PTE_R + PTE_X);
    ghost var mem2, free2, t2 := m.mem, m.free, pt.tree;
    EvolvesConserves(m.end, mem1, free1, t1, mem2, free2, t2);
    EvolvesUntouched(m.end, mem0, free0, mem1, free1, t1, mem2, free2, t2);
    AfterMapping(mem1, t1, mem2, t2, TRAMPOLINE_VPN, done, trampoline, PTE_R + PTE_X);
    if !ok {
      GiveBack(pt, mem0, free0);
      return null;
    }
    ok, done := pt.Mappages(TRAPFRAME, PGSIZE, trapframe, PTE_R + PTE_W);
    ghost var mem3, free3, t3 := m.mem, m.free, pt.tree;
    EvolvesConserves(m.end, mem2, free2, t2, mem3, free3, t3);
    EvolvesUntouched(m.end, mem0, free0, mem2, free2, t2, mem3, free3, t3);
    AfterMapping(mem2, t2, mem3, t3, TRAPFRAME_VPN, done, trapframe, PTE_R + PTE_W);
    if !ok {
      var panicked := pt.Uvmunmap(TRAMPOLINE, 1, false);
      UnmapUntouched(m.end, mem0, free0, mem3, free3, m.mem, t3);
      OnlyTrampoline(mem3, m.mem, t3);
      GiveBack(pt, mem0, free0);
      return null;
    }
    NewSpace(m.end, mem1, t1, mem2, t2, mem3, free3, t3, trampoline, trapframe);
  }

  /** uvmfree(pagetable, 0) on a tree without mappings whose tables were all free before. */
  method GiveBack(pt: PageTable, ghost mem0: map<nat, Page>, ghost free0: set<nat>)
    requires pt.Valid() && pt.m.free + Tables(pt.tree) == free0
    requires Untouched(pt.m.end, mem0, free0, pt.m.mem, pt.m.free)
    requires forall vpn: nat :: pt.Map(vpn) == 0
    modifies pt.m, pt`tree
    ensures pt.m.Valid() && pt.m.free == free0
    ensures Untouched(pt.m.end, mem0, free0, pt.m.mem, pt.m.free)
  {
    hide ValidLists;
    hide InLists;
    hide WfTree;
    hide Entry;
    hide Tables;
    hide Framed;
    hide PagesOf;
    ghost var mem1, free1, t := pt.m.mem, pt.m.free, pt.tree;
    assert Pages(0) == 0;
    UnmapStart(pt.m.end, mem1, free1, t, 0);
    Uvmfree(pt, 0);
    UntouchedTrans(pt.m.end, mem0, free0, mem1, free1, pt.m.mem, pt.m.free, Footprint(mem1, t, 0));
  }

  lemma EvolvesUntouched(end: nat, mem0: map<nat, Page>, free0: set<nat>, mem: map<nat, Page>, free: set<nat>, t: Tree,
                         mem': map<nat, Page>, free': set<nat>, t': Tree)
    requires Untouched(end, mem0, free0, mem, free) && Evolves(end, mem, free, t, mem', free', t')
    requires free + Tables(t) == free0
    ensures Untouched(end, mem0, free0, mem', free')
  {
    hide Tables;
    UntouchedTrans(end, mem0, free0, mem, free, mem', free', Tables(t));
  }

  lemma UnmapUntouched(end: nat, mem0: map<nat, Page>, free0: set<nat>, mem: map<nat, Page>, free: set<nat>,
                       mem': map<nat, Page>, t: Tree)
    requires Untouched(end, mem0, free0, mem, free) && free + Tables(t) == free0
    requires Framed(end, mem, free, mem', free + {}, Tables(t) + {})
    ensures Untouched(end, mem0, free0, mem', free + {})
  {
    hide Tables;
    UntouchedTrans(end, mem0, free0, mem, free, mem', free + {}, Tables(t) + {});
  }

  /** What a one-page mappages leaves, whether or not it succeeded. */
  lemma AfterMapping(mem: map<nat, Page>, t: Tree, mem': map<nat, Page>, t': Tree, vpn: nat, done: nat, pa: nat, perm: nat)
    requires RangeMapped(mem, t, mem', t', vpn, done, pa, perm) && done <= 1
    ensures WfTree(mem, t) && WfTree(mem', t')
    ensures forall v: nat :: Entry(mem', t', v) == if v == vpn && done == 1 then PA2PTE(pa) + WithV(perm) else Entry(mem, t, v)
  {
    hide WfTree;
    hide Entry;
    hide PA2PTE;
    hide WithV;
    forall v: nat ensures Entry(mem', t', v) == if v == vpn && done == 1 then PA2PTE(pa) + WithV(perm) else Entry(mem, t, v) {
    }
  }

  lemma OnlyTrampoline(mem: map<nat, Page>, mem': map<nat, Page>, t: Tree)
    requires RangeUnmapped(mem, mem', t, TRAMPOLINE_VPN, 1) && WfTree(mem, t)
    requires forall v: nat :: v != TRAMPOLINE_VPN ==> Entry(mem, t, v) == 0
    ensures WfTree(mem', t) && forall v: nat :: Entry(mem', t, v) == 0
  {
    hide WfTree;
    hide Entry;
    forall v: nat ensures Entry(mem', t, v) == 0 {
    }
  }

  lemma NewSpace(end: nat, mem1: map<nat, Page>, t1: Tree, mem2: map<nat, Page>, t2: Tree, mem3: map<nat, Page>, free3: set<nat>,
                 t3: Tree, trampoline: nat, trapframe: nat)
    requires WfTree(mem1, t1) && WfTree(mem2, t2) && WfTree(mem3, t3)
    requires forall v: nat :: Entry(mem1, t1, v) == 0
    requires forall v: nat ::
               Entry(mem2, t2, v) == if v == TRAMPOLINE_VPN then PA2PTE(trampoline) + WithV(PTE_R + PTE_X) else Entry(mem1, t1, v)
    requires forall v: nat ::
               Entry(mem3, t3, v) == if v == TRAPFRAME_VPN then PA2PTE(trapframe) + WithV(PTE_R + PTE_W) else Entry(mem2, t2, v)
    ensures IsSpace(end, mem3, free3, t3, 0)
    ensures Entry(mem3, t3, TRAMPOLINE_VPN) == PA2PTE(trampoline) + PTE_R + PTE_X + PTE_V
    ensures Entry(mem3, t3, TRAPFRAME_VPN) == PA2PTE(trapframe) + PTE_R + PTE_W + PTE_V
  {
    hide WfTree;
    hide Entry;
    hide Tables;
    hide PA2PTE;
    assert Pages(0) == 0;
    forall v: nat ensures Entry(mem3, t3, v) != 0 <==> v == TRAPFRAME_VPN || v == TRAMPOLINE_VPN {
      assert Entry(mem2, t2, v) != 0 <==> v == TRAMPOLINE_VPN;
    }
  }

  /** fork's uvmcopy: the child, so far a space of size 0, gets a copy of every page of the
      parent, or nothing when memory runs out.  Either way the free pages and the child's
      are together what they were, and no page of anyone else has changed. */
  method ForkMemory(parent: PageTable, child: PageTable, sz: nat) returns (ok: bool)
    requires Space(parent, sz) && Space(child, 0) && parent.m == child.m && parent != child
    requires Apart(parent.m.end, parent.m.mem, parent.m.free, parent.tree, Pages(sz), child.tree)
    modifies child.m, child`tree, parent`tree
    ensures Space(parent, sz) && Space(child, if ok then sz else 0) && parent.tree == old(parent.tree)
    ensures SameTop(old(child.m.mem), old(child.tree), child.m.mem, child.tree)
    ensures Image(child.m.mem, parent.tree, Pages(sz)) == Image(old(child.m.mem), parent.tree, Pages(sz))
    ensures ok ==> Image(child.m.mem, child.tree, Pages(sz)) == Image(child.m.mem, parent.tree, Pages(sz))
    ensures Apart(child.m.end, child.m.mem, child.m.free, parent.tree, Pages(sz), child.tree)
    ensures child.m.free + Footprint(child.m.mem, child.tree, if ok then sz else 0) ==
            old(child.m.free) + Footprint(old(child.m.mem), old(child.tree), 0)
    ensures Framed(child.m.end, old(child.m.mem), old(child.m.free), child.m.mem, child.m.free, Tables(old(child.tree)))
  {
    hide ValidLists;
    hide InLists;
    hide WfTree;
    hide Entry;
    hide Tables;
    hide Added;
    hide Grew;
    hide Extends;
    hide PagesOf;
    hide PrivatePages;
    hide Framed;
    hide Apart;
    hide Image;
    hide SameMap;
    ghost var end, mem0, free0, t0, tp, n := child.m.end, child.m.mem, child.m.free, child.tree, parent.tree, Pages(sz);
    assert Pages(0) == 0;
    SpaceUnmapped(end, mem0, free0, t0, 0, n);
    ok := Uvmcopy(parent, child, sz);
    ghost var mem1, free1, t1 := child.m.mem, child.m.free, child.tree;
    if ok {
      SpaceGrows(end, mem0, free0, t0, 0, mem1, free1, t1, sz, Image(mem1, tp, n));
      CopiedImage(end, mem0, t0, mem1, free1, t1, tp, n);
      OtherKept(end, mem0, free0, tp, n, t0, mem1, free1, t1, PagesOf(mem1, t1, 0, n));
      GrewFramed(end, mem0, free0, t0, mem1, free1, t1, PagesOf(mem1, t1, 0, n));
      GrowthConserves(end, mem0, free0, t0, 0, mem1, free1, t1, Image(mem1, tp, n));
    } else {
      ExtendsGrew(end, mem0, free0, t0, mem1, free1, t1);
      OtherKept(end, mem0, free0, tp, n, t0, mem1, free1, t1, {});
      GrewFramed(end, mem0, free0, t0, mem1, free1, t1, {});
      SpaceKept(end, mem0, free0, t0, 0, mem1, free1, t1);
      ExtendsKeeps(end, mem0, free0, t0, 0, mem1, free1, t1);
    }
    SpaceElsewhere(end, mem0, free0, tp, sz, mem1, free1, t1);
  }

  lemma GrewFramed(end: nat, mem: map<nat, Page>, free: set<nat>, t: Tree, mem': map<nat, Page>, free': set<nat>, t': Tree, data: set<nat>)
    requires Grew(end, mem, free, t, mem', free', t', data)
    ensures Framed(end, mem, free, mem', free', Tables(t))
  {
  }

  lemma CopiedImage(end: nat, mem: map<nat, Page>, t: Tree, mem': map<nat, Page>, free': set<nat>, t': Tree, tp: Tree, n: nat)
    requires WfTree(mem', tp) && WfTree(mem', t') && Added(end, mem, t, mem', free', t', 0, Image(mem', tp, n))
    ensures Image(mem', t', n) == Image(mem', tp, n)
  {
    hide WfTree;
    hide Entry;
    hide PhysPage;
    hide FlagsOf;
    hide PrivatePages;
    forall v | 0 <= v < n ensures Image(mem', t', n)[v] == Image(mem', tp, n)[v] {
      assert HoldsPage(mem', Entry(mem', t', v), Image(mem', tp, n)[v - 0]);
    }
  }

  /** A space that something else's growth kept apart from is still a space. */
  lemma SpaceElsewhere(end: nat, mem: map<nat, Page>, free: set<nat>, tp: Tree, sz: nat, mem': map<nat, Page>, free': set<nat>, t': Tree)
    requires IsSpace(end, mem, free, tp, sz) && SameMap(mem, tp, mem', tp)
    requires Apart(end, mem', free', tp, Pages(sz), t')
    ensures WfTree(mem', tp) && IsSpace(end, mem', free', tp, sz) && Owned(end, free', Tables(tp))
  {
    hide WfTree;
    hide Entry;
    hide Tables;
    forall v: nat ensures Entry(mem', tp, v) == Entry(mem, tp, v) {
    }
  }
}

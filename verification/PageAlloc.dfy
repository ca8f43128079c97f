/**
  The physical page allocator (kernel/kalloc.c): one free list per hart over that
  hart's own megabyte, and a shared list over the rest of memory.  The lists are
  threaded through word 0 of the free pages themselves.
 */
module PageAlloc {
  import opened Param
  import opened Riscv

  /** Contents of one page: 512 64-bit words. */
  type Page = seq<int>

  const PGWORDS: nat := PGSIZE / 8

  const PER_HART_ALLOC_SIZE: nat := 1024 * 1024

  /** sizeof(struct free_list): a 24-byte spinlock and a pointer. */
  const SIZEOF_FREE_LIST: nat := 32

  /** Index of the shared list; lists 0..NCPU-1 belong to the harts. */
  const SHARED: nat := NCPU

  /** First page after the array of per-hart list heads, which starts at `end`. */
  function PoolStart(end: nat): (r: nat)
    ensures r > end && r % PGSIZE == 0
  {
    PGROUNDUP(end + NCPU * SIZEOF_FREE_LIST)
  }

  /** First page after the harts' own regions. */
  function SharedStart(end: nat): nat {
    PoolStart(end) + NCPU * PER_HART_ALLOC_SIZE
  }

  predicate IsPage(end: nat, p: int) {
    PoolStart(end) <= p < PHYSTOP && p % PGSIZE == 0
  }

  /** The list a page belongs on. */
  function Home(end: nat, p: int): (r: nat)
    ensures r <= SHARED
  {
    if PoolStart(end) <= p < SharedStart(end) then (p - PoolStart(end)) / PER_HART_ALLOC_SIZE else SHARED
  }

  /** pkfree computes the hart number in uint64 arithmetic, where a page below the pool
      wraps around to an enormous one. */
  function HartOf(end: nat, p: nat): nat {
    (p + TWO64 - PoolStart(end)) % TWO64 / PER_HART_ALLOC_SIZE
  }

  lemma HartOfIsHome(end: nat, p: nat)
    requires p < PHYSTOP && PoolStart(end) < PHYSTOP
    ensures HartOf(end, p) < NCPU <==> Home(end, p) < NCPU
    ensures HartOf(end, p) < NCPU ==> HartOf(end, p) == Home(end, p)
  {
    if p < PoolStart(end) {
      assert (p + TWO64 - PoolStart(end)) % TWO64 == p + TWO64 - PoolStart(end);
    } else {
      assert (p + TWO64 - PoolStart(end)) % TWO64 == p - PoolStart(end);
    }
  }

  /** Page `j` of hart `i`'s region has that hart as its home. */
  lemma PageOfHart(end: nat, i: nat, j: nat)
    requires i < NCPU && j < PER_HART_ALLOC_SIZE / PGSIZE && SharedStart(end) <= PHYSTOP
    ensures var p := PoolStart(end) + i * PER_HART_ALLOC_SIZE + j * PGSIZE;
            IsPage(end, p) && Home(end, p) == i
  {
  }

  // ---------- one free list, top of the stack last ----------

  function Top(s: seq<nat>): nat {
    if s == [] then 0 else s[|s| - 1]
  }

  /** `head` and the words in memory link the pages of `s` from the last to the first. */
  ghost predicate Chained(mem: map<nat, Page>, head: nat, s: seq<nat>) {
    && head == Top(s)
    && forall k :: 0 <= k < |s| ==> s[k] in mem && |mem[s[k]]| == PGWORDS && mem[s[k]][0] == Top(s[..k])
  }

  /** The list is acyclic, and holds only pages whose home it is. */
  ghost predicate ValidStack(end: nat, i: nat, s: seq<nat>) {
    && (forall k :: 0 <= k < |s| ==> IsPage(end, s[k]) && Home(end, s[k]) == i)
    && (forall j, k :: 0 <= j < k < |s| ==> s[j] != s[k])
  }

  ghost predicate ValidLists(end: nat, mem: map<nat, Page>, heads: seq<nat>, stacks: seq<seq<nat>>) {
    && |heads| == |stacks| == NCPU + 1
    && forall i :: 0 <= i <= NCPU ==> Chained(mem, heads[i], stacks[i]) && ValidStack(end, i, stacks[i])
  }

  ghost predicate InLists(end: nat, stacks: seq<seq<nat>>, p: nat) {
    Home(end, p) < |stacks| && p in stacks[Home(end, p)]
  }

  lemma PushOne(end: nat, mem: map<nat, Page>, head: nat, s: seq<nat>, i: nat, p: nat, page: Page)
    requires Chained(mem, head, s) && ValidStack(end, i, s)
    requires IsPage(end, p) && Home(end, p) == i && p !in s
    requires |page| == PGWORDS && page[0] == head
    ensures Chained(mem[p := page], p, s + [p]) && ValidStack(end, i, s + [p])
  {
    var t := s + [p];
    assert forall k :: 0 <= k < |s| ==> t[..k] == s[..k];
    assert t[..|s|] == s;
  }

  /** Pushing a page onto its home list. */
  lemma PushKeeps(end: nat, mem: map<nat, Page>, heads: seq<nat>, stacks: seq<seq<nat>>, p: nat, page: Page)
    requires ValidLists(end, mem, heads, stacks)
    requires IsPage(end, p) && !InLists(end, stacks, p)
    requires |page| == PGWORDS && page[0] == heads[Home(end, p)]
    ensures var i := Home(end, p);
            ValidLists(end, mem[p := page], heads[i := p], stacks[i := stacks[i] + [p]])
  {
    hide IsPage;
    hide Home;
    var i := Home(end, p);
    PushOne(end, mem, heads[i], stacks[i], i, p, page);
    forall j | 0 <= j <= NCPU && j != i
      ensures Chained(mem[p := page], heads[j], stacks[j])
    {
      assert forall k :: 0 <= k < |stacks[j]| ==> stacks[j][k] != p;
    }
  }

  /** Popping list `i`. */
  lemma PopKeeps(end: nat, mem: map<nat, Page>, heads: seq<nat>, stacks: seq<seq<nat>>, i: nat)
    requires ValidLists(end, mem, heads, stacks) && i <= NCPU && stacks[i] != []
    ensures var s := stacks[i];
            && heads[i] == Top(s)
            && heads[i] in mem
            && |mem[heads[i]]| == PGWORDS
            && mem[heads[i]][0] >= 0
            && ValidLists(end, mem, heads[i := mem[heads[i]][0]], stacks[i := s[..|s| - 1]])
            && !InLists(end, stacks[i := s[..|s| - 1]], heads[i])
  {
    hide IsPage;
    hide Home;
    PopOne(end, mem, heads[i], stacks[i], i);
  }

  lemma PopOne(end: nat, mem: map<nat, Page>, head: nat, s: seq<nat>, i: nat)
    requires Chained(mem, head, s) && ValidStack(end, i, s) && s != []
    ensures head == Top(s) && head in mem && |mem[head]| == PGWORDS && mem[head][0] >= 0 && Home(end, head) == i
    ensures Chained(mem, mem[head][0], s[..|s| - 1]) && ValidStack(end, i, s[..|s| - 1]) && head !in s[..|s| - 1]
  {
    hide IsPage;
    hide Home;
    var t := s[..|s| - 1];
    assert forall k :: 0 <= k < |t| ==> t[..k] == s[..k];
  }

  /** Popping takes exactly one page off the lists. */
  lemma OnlyTop(end: nat, stacks: seq<seq<nat>>, i: nat)
    requires |stacks| == NCPU + 1 && i <= NCPU && stacks[i] != [] && ValidStack(end, i, stacks[i])
    ensures var s := stacks[i];
            forall p: nat :: InLists(end, stacks[i := s[..|s| - 1]], p) <==> InLists(end, stacks, p) && p != Top(s)
  {
    var s := stacks[i];
    var t := s[..|s| - 1];
    assert s == t + [Top(s)];
    forall p: nat ensures InLists(end, stacks[i := t], p) <==> InLists(end, stacks, p) && p != Top(s) {
      if Home(end, p) == i {
        assert p in s <==> p in t || p == Top(s);
      } else {
        assert p != Top(s);
      }
    }
  }

  /** Storing into a page that is on no list disturbs none. */
  lemma StoreKeeps(end: nat, mem: map<nat, Page>, heads: seq<nat>, stacks: seq<seq<nat>>, p: nat, page: Page)
    requires ValidLists(end, mem, heads, stacks) && !InLists(end, stacks, p)
    ensures ValidLists(end, mem[p := page], heads, stacks)
  {
    forall j | 0 <= j <= NCPU
      ensures Chained(mem[p := page], heads[j], stacks[j])
    {
      assert forall k :: 0 <= k < |stacks[j]| ==> stacks[j][k] != p;
    }
  }

  /** The first page of list `i` was taken off, or the list was empty. */
  ghost predicate Popped(end: nat, i: nat, stacks: seq<seq<nat>>, free: set<nat>,
                         stacks': seq<seq<nat>>, free': set<nat>, pa: nat) {
    && i < |stacks|
    && (pa == 0 <==> stacks[i] == [])
    && (pa == 0 ==> stacks' == stacks && free' == free)
    && (pa != 0 ==>
          && IsPage(end, pa) && pa in free && Home(end, pa) == i
          && pa == Top(stacks[i])
          && stacks' == stacks[i := stacks[i][..|stacks[i]| - 1]]
          && free' == free - {pa})
  }

  /** Page `pa` now heads its home list. */
  ghost predicate Pushed(end: nat, pa: nat, mem: map<nat, Page>, stacks: seq<seq<nat>>, free: set<nat>,
                         mem': map<nat, Page>, stacks': seq<seq<nat>>, free': set<nat>) {
    && Home(end, pa) < |stacks|
    && stacks' == stacks[Home(end, pa) := stacks[Home(end, pa)] + [pa]]
    && free' == free + {pa}
    && pa in mem'
    && mem' == mem[pa := mem'[pa]]
  }

  /** Exactly the pages below `p` are free. */
  ghost predicate FreeBelow(end: nat, free: set<nat>, p: nat) {
    forall q: nat :: q in free <==> IsPage(end, q) && q < p
  }

  lemma NoneFreed(end: nat)
    ensures FreeBelow(end, {}, PoolStart(end))
  {
  }

  lemma SamePage(p: nat, q: nat)
    requires p % PGSIZE == 0 && q % PGSIZE == 0 && p <= q < p + PGSIZE
    ensures q == p
  {
  }

  lemma NextFreed(end: nat, free: set<nat>, p: nat)
    requires FreeBelow(end, free, p)
    ensures p !in free
    ensures IsPage(end, p) ==> FreeBelow(end, free + {p}, p + PGSIZE)
  {
    forall q: nat | IsPage(end, p) && IsPage(end, q) && p <= q < p + PGSIZE ensures q == p {
      SamePage(p, q);
    }
    hide IsPage;
  }

  lemma AllFreed(end: nat, free: set<nat>, p: nat)
    requires FreeBelow(end, free, p) && p % PGSIZE == 0 && p + PGSIZE > PHYSTOP
    ensures forall q: nat :: q in free <==> IsPage(end, q)
  {
    forall q: nat | IsPage(end, q) ensures q < p {
      if p <= q {
        SamePage(p, q);
      }
    }
    hide IsPage;
  }

  /** Physical memory and its free lists. */
  class PhysMem {
    const end: nat
    var mem: map<nat, Page>

    /** per_hart_free_list[0..NCPU].freelist and, last, kmem.freelist. */
    var heads: seq<nat>

    /** The pages on each list, top last. */
    ghost var stacks: seq<seq<nat>>

    /** Every page on some list. */
    ghost var free: set<nat>

    ghost predicate Valid()
      reads this
    {
      && PoolStart(end) > 0
      && PoolStart(end) < PHYSTOP
      && ValidLists(end, mem, heads, stacks)
      && (forall p: nat :: p in free <==> IsPage(end, p) && InLists(end, stacks, p))
      && (forall p: nat :: IsPage(end, p) ==> p in mem)
      && (forall p :: p in mem ==> |mem[p]| == PGWORDS)
    }

    /** kinit: afterwards every page is on exactly its home list. */
    constructor (end: nat, mem: map<nat, Page>)
      requires SharedStart(end) <= PHYSTOP
      requires forall p: nat :: IsPage(end, p) ==> p in mem
      requires forall p :: p in mem ==> |mem[p]| == PGWORDS
      ensures Valid() && this.end == end
      ensures forall p: nat :: p in free <==> IsPage(end, p)
    {
      this.end := end;
      this.mem := mem;
      heads := seq(NCPU + 1, _ => 0);
      stacks := seq(NCPU + 1, _ => []);
      free := {};
      new;
      var s := PerHartAllocInit();
      Freerange(s, PHYSTOP);
    }

    /** per_hart_alloc_init: hand each hart the pages of its own megabyte. */
    method PerHartAllocInit() returns (s: nat)
      requires Valid() && free == {} && SharedStart(end) <= PHYSTOP
      modifies this
      ensures Valid() && s == SharedStart(end) && FreeBelow(end, free, s)
    {
      hide ValidLists;
      hide InLists;
      hide FreeBelow;
      NoneFreed(end);
      s := PGROUNDUP(end + NCPU * SIZEOF_FREE_LIST);
      for i := 0 to NCPU
        invariant Valid() && s == PoolStart(end) + i * PER_HART_ALLOC_SIZE && FreeBelow(end, free, s)
      {
        for j := 0 to PER_HART_ALLOC_SIZE / PGSIZE
          invariant Valid() && s == PoolStart(end) + i * PER_HART_ALLOC_SIZE + j * PGSIZE && FreeBelow(end, free, s)
        {
          PageOfHart(end, i, j);
          NextFreed(end, free, s);
          Push(i, s);
          s := s + PGSIZE;
        }
        assert s <= PHYSTOP;
      }
    }

    method Freerange(start: nat, stop: nat)
      requires Valid() && start == SharedStart(end) && stop == PHYSTOP
      requires FreeBelow(end, free, start)
      modifies this
      ensures Valid()
      ensures forall p: nat :: p in free <==> IsPage(end, p)
    {
      hide ValidLists;
      hide InLists;
      hide Home;
      hide FreeBelow;
      var p := PGROUNDUP(start);
      assert p == start;
      while p + PGSIZE <= stop
        invariant Valid() && p >= start && p % PGSIZE == 0 && FreeBelow(end, free, p)
      {
        NextFreed(end, free, p);
        Kfree(p);
        p := p + PGSIZE;
      }
      AllFreed(end, free, p);
    }

    /** kalloc on hart `hart`: its own list first, then the shared one. */
    method Kalloc(hart: nat) returns (pa: nat)
      requires Valid() && hart < NCPU
      modifies this
      ensures Valid()
      ensures pa == 0 <==> old(stacks)[hart] == [] && old(stacks)[SHARED] == []
      ensures pa == 0 ==> mem == old(mem) && free == old(free) && stacks == old(stacks)
      ensures pa != 0 ==>
                && IsPage(end, pa) && pa in old(free)
                && free == old(free) - {pa}
                && (Home(end, pa) == hart || (Home(end, pa) == SHARED && old(stacks)[hart] == []))
                && mem == old(mem)[pa := mem[pa]]
    {
      pa := Pkalloc(hart);
      if pa == 0 {
        pa := Pop(SHARED);
      }
      if pa != 0 {
        Fill(pa, 0x0505_0505_0505_0505);
      }
    }

    method Pkalloc(hart: nat) returns (pa: nat)
      requires Valid() && hart < NCPU
      modifies this`heads, this`stacks, this`free
      ensures Valid() && Popped(end, hart, old(stacks), old(free), stacks, free, pa)
    {
      pa := Pop(hart);
    }

    /** Take the first page off list `i`, if there is one. */
    method Pop(i: nat) returns (pa: nat)
      requires Valid() && i <= SHARED
      modifies this`heads, this`stacks, this`free
      ensures Valid() && Popped(end, i, old(stacks), old(free), stacks, free, pa)
    {
      pa := heads[i];
      assert Chained(mem, heads[i], stacks[i]) && ValidStack(end, i, stacks[i]);
      if pa != 0 {
        PopKeeps(end, mem, heads, stacks, i);
        OnlyTop(end, stacks, i);
        heads := heads[i := mem[pa][0]];
        stacks := stacks[i := stacks[i][..|stacks[i]| - 1]];
        free := free - {pa};
      }
    }

    /** kfree of a page on no list.  Its three-way test and panic cannot fire. */
    method Kfree(pa: nat)
      requires Valid() && IsPage(end, pa) && pa !in free
      modifies this
      ensures Valid()
      ensures free == old(free) + {pa}
      ensures mem == old(mem)[pa := mem[pa]]
      ensures stacks == old(stacks)[Home(end, pa) := old(stacks)[Home(end, pa)] + [pa]]
    {
      hide ValidLists;
      hide InLists;
      hide Home;
      if pa % PGSIZE != 0 || pa < end || pa >= PHYSTOP {
        assert false;
      }
      Fill(pa, 0x0101_0101_0101_0101);
      var taken := Pkfree(pa);
      if taken {
        return;
      }
      Push(SHARED, pa);
    }

    /** pkfree: a page of some hart's region goes back to that hart. */
    method Pkfree(pa: nat) returns (taken: bool)
      requires Valid() && IsPage(end, pa) && pa !in free
      modifies this
      ensures Valid()
      ensures taken <==> Home(end, pa) < NCPU
      ensures !taken ==> mem == old(mem) && stacks == old(stacks) && free == old(free)
      ensures taken ==> Pushed(end, pa, old(mem), old(stacks), old(free), mem, stacks, free)
    {
      var id := HartOf(end, pa);
      HartOfIsHome(end, pa);
      if id >= NCPU {
        return false;
      }
      Push(id, pa);
      return true;
    }

    method Push(i: nat, pa: nat)
      requires Valid() && IsPage(end, pa) && pa !in free && i == Home(end, pa)
      modifies this
      ensures Valid() && Pushed(end, pa, old(mem), old(stacks), old(free), mem, stacks, free)
    {
      PushKeeps(end, mem, heads, stacks, pa, mem[pa][0 := heads[i]]);
      mem := mem[pa := mem[pa][0 := heads[i]]];
      heads := heads[i := pa];
      stacks := stacks[i := stacks[i] + [pa]];
      free := free + {pa};
    }

    /** memset of a whole page that is on no list. */
    method Fill(pa: nat, w: int)
      requires Valid() && IsPage(end, pa) && pa !in free
      modifies this`mem
      ensures Valid()
      ensures mem == old(mem)[pa := seq(PGWORDS, _ => w)]
    {
      StoreKeeps(end, mem, heads, stacks, pa, seq(PGWORDS, _ => w));
      mem := mem[pa := seq(PGWORDS, _ => w)];
    }

    /** memmove of a whole page into a page that is on no list. */
    method StorePage(pa: nat, contents: Page)
      requires Valid() && IsPage(end, pa) && pa !in free && |contents| == PGWORDS
      modifies this`mem
      ensures Valid()
      ensures mem == old(mem)[pa := contents]
    {
      StoreKeeps(end, mem, heads, stacks, pa, contents);
      mem := mem[pa := contents];
    }

    /** Store one word into a page that is on no list. */
    method Store(pa: nat, i: nat, w: int)
      requires Valid() && IsPage(end, pa) && pa !in free && i < PGWORDS
      modifies this`mem
      ensures Valid()
      ensures mem == old(mem)[pa := old(mem)[pa][i := w]]
    {
      StoreKeeps(end, mem, heads, stacks, pa, mem[pa][i := w]);
      mem := mem[pa := mem[pa][i := w]];
    }
  }
}

/**
  freewalk (kernel/vm.c): freeing every table page of a tree without mappings.  The
  pages it frees are described from the bytes in memory, independently of how the
  tree was built.
 */
module FreeWalk {
  import opened PageAlloc
  import opened PageTree
  import opened VirtualMemory

  /** Entry `i` of a table page is valid, so the table has a child there. */
  ghost predicate HasKid(mem: map<nat, Page>, page: nat, i: int) {
    page in mem && 0 <= i < |mem[page]| && mem[page][i] > 0
  }

  ghost function Kid(mem: map<nat, Page>, page: nat, i: int): nat
    requires HasKid(mem, page, i)
  {
    PTE2PA(mem[page][i])
  }

  /** The table pages at and below `page`. */
  ghost function SubPages(mem: map<nat, Page>, page: nat, level: nat): set<nat>
    decreases level, 1
  {
    {page} + if level == 0 then {} else Kids(mem, page, level, 512)
  }

  /** The table pages below the first `n` entries of `page`. */
  ghost function Kids(mem: map<nat, Page>, page: nat, level: nat, n: nat): set<nat>
    requires level > 0
    decreases level, 0, n
  {
    if n == 0 then {}
    else Kids(mem, page, level, n - 1) + KidPages(mem, page, level, n - 1)
  }

  ghost function KidPages(mem: map<nat, Page>, page: nat, level: nat, i: nat): set<nat>
    requires level > 0
    decreases level, 0, 0
  {
    if HasKid(mem, page, i) then SubPages(mem, Kid(mem, page, i), level - 1) else {}
  }

  /** The bytes at and below `page` are a tree of tables without a single mapping: what
      freewalk can free without reaching panic("freewalk: leaf") or freeing a page twice. */
  ghost predicate Freeable(mem: map<nat, Page>, page: nat, level: nat)
    decreases level
  {
    && page in mem && |mem[page]| == 512
    && (forall i :: 0 <= i < 512 ==> mem[page][i] == 0 || (level > 0 && IsPointer(mem[page][i])))
    && (level > 0 ==>
          && (forall i :: 0 <= i < 512 && HasKid(mem, page, i) ==> Freeable(mem, Kid(mem, page, i), level - 1))
          && (forall i: nat :: i < 512 ==> page !in KidPages(mem, page, level, i))
          && (forall i: nat, j: nat :: i < j < 512 ==> KidPages(mem, page, level, i) !! KidPages(mem, page, level, j)))
  }

  ghost predicate IsPointer(e: int) {
    e > 0 && IsValid(e) && !HasRWX(e)
  }

  lemma {:induction false} KidWithin(mem: map<nat, Page>, page: nat, level: nat, n: nat, i: nat)
    requires level > 0 && i < n
    ensures KidPages(mem, page, level, i) <= Kids(mem, page, level, n)
  {
    if i < n - 1 {
      KidWithin(mem, page, level, n - 1, i);
    }
  }

  /** Pages that avoid every child avoid them all. */
  lemma {:induction false} KidsAvoid(mem: map<nat, Page>, page: nat, level: nat, n: nat, ps: set<nat>)
    requires level > 0
    requires forall i: nat :: i < n ==> ps !! KidPages(mem, page, level, i)
    ensures ps !! Kids(mem, page, level, n)
  {
    if n > 0 {
      KidsAvoid(mem, page, level, n - 1, ps);
      assert ps !! KidPages(mem, page, level, n - 1);
    }
  }

  /** Memory that agrees on the pages of a subtree has the same subtree. */
  lemma {:induction false} SubFrame(mem: map<nat, Page>, mem': map<nat, Page>, page: nat, level: nat)
    requires Freeable(mem, page, level)
    requires forall p :: p in SubPages(mem, page, level) && p in mem ==> p in mem' && mem'[p] == mem[p]
    ensures Freeable(mem', page, level) && SubPages(mem', page, level) == SubPages(mem, page, level)
    decreases level
  {
    assert page in SubPages(mem, page, level);
    assert mem'[page] == mem[page];
    if level > 0 {
      forall i: nat | i < 512
        ensures KidPages(mem', page, level, i) == KidPages(mem, page, level, i)
        ensures HasKid(mem', page, i) ==> Freeable(mem', Kid(mem', page, i), level - 1)
      {
        assert HasKid(mem', page, i) == HasKid(mem, page, i);
        if HasKid(mem, page, i) {
          KidWithin(mem, page, level, 512, i);
          SubFrame(mem, mem', Kid(mem, page, i), level - 1);
        }
      }
      KidsSame(mem, mem', page, level, 512);
    }
  }

  lemma {:induction false} KidsSame(mem: map<nat, Page>, mem': map<nat, Page>, page: nat, level: nat, n: nat)
    requires level > 0
    requires forall i: nat :: i < n ==> KidPages(mem', page, level, i) == KidPages(mem, page, level, i)
    ensures Kids(mem', page, level, n) == Kids(mem, page, level, n)
  {
    if n > 0 {
      KidsSame(mem, mem', page, level, n - 1);
    }
  }

  /** When freewalk gets to entry `i`, the child there is still intact and its pages are
      still allocated. */
  lemma KidReady(end: nat, mem: map<nat, Page>, free: set<nat>, page: nat, level: nat, i: nat, mem': map<nat, Page>)
    requires Freeable(mem, page, level) && Owned(end, free, SubPages(mem, page, level))
    requires level > 0 && i < 512 && HasKid(mem, page, i)
    requires forall p: nat :: IsPage(end, p) && p !in free + Kids(mem, page, level, i) && p != page ==>
               p in mem && p in mem' && mem'[p] == mem[p]
    ensures var kid := Kid(mem, page, i);
            && Freeable(mem', kid, level - 1)
            && SubPages(mem', kid, level - 1) == KidPages(mem, page, level, i)
            && Owned(end, free + Kids(mem, page, level, i), KidPages(mem, page, level, i))
            && page !in KidPages(mem, page, level, i)
  {
    var ps := KidPages(mem, page, level, i);
    KidWithin(mem, page, level, 512, i);
    forall j: nat | j < i ensures ps !! KidPages(mem, page, level, j) {
      assert KidPages(mem, page, level, j) !! ps;
    }
    KidsAvoid(mem, page, level, i, ps);
    SubFrame(mem, mem', Kid(mem, page, i), level - 1);
  }

  lemma EntryKind(mem: map<nat, Page>, page: nat, level: nat, i: nat)
    requires Freeable(mem, page, level) && i < 512
    ensures var e := mem[page][i];
            && (IsValid(e) <==> HasKid(mem, page, i))
            && (IsValid(e) ==> level > 0 && !HasRWX(e) && e > 0)
  {
  }

  /** The page itself is not among the pages below it. */
  lemma PageNotBelow(mem: map<nat, Page>, page: nat, level: nat, n: nat)
    requires Freeable(mem, page, level) && n <= 512
    ensures page !in Done(mem, page, level, n)
  {
    if level > 0 {
      forall i: nat | i < n ensures {page} !! KidPages(mem, page, level, i) {
        assert page !in KidPages(mem, page, level, i);
      }
      KidsAvoid(mem, page, level, n, {page});
    }
  }

  /** freewalk: every table page at and below `page` goes back to the allocator, once, and
      no other page changes. */
  method Freewalk(m: PhysMem, page: nat, ghost level: nat)
    requires m.Valid() && Freeable(m.mem, page, level)
    requires Owned(m.end, m.free, SubPages(m.mem, page, level))
    modifies m
    ensures m.Valid()
    ensures m.free == old(m.free) + SubPages(old(m.mem), page, level)
    ensures Framed(m.end, old(m.mem), old(m.free), m.mem, m.free, SubPages(old(m.mem), page, level))
    decreases level
  {
    hide ValidLists;
    hide InLists;
    hide Freeable;
    hide SubPages;
    hide Kids;
    hide KidPages;
    hide IsValid;
    hide HasRWX;
    hide Framed;
    hide Owned;
    ghost var mem0, free0 := m.mem, m.free;
    PageOwned(m.end, mem0, free0, page, level);
    for i := 0 to 512
      invariant m.Valid() && page !in m.free
      invariant m.free == free0 + Done(mem0, page, level, i)
      invariant forall j :: i <= j < 512 ==> m.mem[page][j] == mem0[page][j]
      invariant forall p: nat :: IsPage(m.end, p) && p !in m.free && p != page ==> p in mem0 && m.mem[p] == mem0[p]
    {
      ghost var mem1, free1 := m.mem, m.free;
      var pte := m.mem[page][i];
      EntryKind(mem0, page, level, i);
      PageNotBelow(mem0, page, level, i + 1);
      DoneStep(mem0, page, level, i);
      if IsValid(pte) && !HasRWX(pte) {
        KidReady(m.end, mem0, free0, page, level, i, m.mem);
        Freewalk(m, PTE2PA(pte), level - 1);
        UnframedPages(m.end, mem1, free1, m.mem, m.free, KidPages(mem0, page, level, i), page);
        m.Store(page, i, 0);
      } else if IsValid(pte) {
        assert false;
      }
    }
    m.Kfree(page);
    WholeTable(m.end, mem0, free0, m.mem, m.free, page, level);
  }

  lemma PageOwned(end: nat, mem: map<nat, Page>, free: set<nat>, page: nat, level: nat)
    requires Freeable(mem, page, level) && Owned(end, free, SubPages(mem, page, level))
    ensures IsPage(end, page) && page !in free && page in mem && |mem[page]| == 512 && Done(mem, page, level, 0) == {}
  {
    assert page in SubPages(mem, page, level);
  }

  lemma DoneStep(mem: map<nat, Page>, page: nat, level: nat, i: nat)
    ensures Done(mem, page, level, i + 1) ==
            Done(mem, page, level, i) + if level > 0 then KidPages(mem, page, level, i) else {}
    ensures level > 0 && !HasKid(mem, page, i) ==> KidPages(mem, page, level, i) == {}
  {
  }

  lemma UnframedPages(end: nat, mem: map<nat, Page>, free: set<nat>, mem': map<nat, Page>, free': set<nat>, own: set<nat>, page: nat)
    requires Framed(end, mem, free, mem', free', own) && free' == free + own
    requires IsPage(end, page) && page !in free && page !in own
    ensures page in mem' && page in mem && mem'[page] == mem[page]
    ensures forall p: nat :: IsPage(end, p) && p !in free' ==> p in mem && p in mem' && mem'[p] == mem[p]
  {
  }

  lemma WholeTable(end: nat, mem: map<nat, Page>, free: set<nat>, mem': map<nat, Page>, free': set<nat>, page: nat, level: nat)
    requires free' == free + Done(mem, page, level, 512) + {page}
    requires forall p: nat :: IsPage(end, p) && p !in free' ==> p in mem && p in mem' && mem'[p] == mem[p]
    ensures free' == free + SubPages(mem, page, level)
    ensures Framed(end, mem, free, mem', free', SubPages(mem, page, level))
  {
  }

  /** The pages freewalk has freed when it gets to entry `i`. */
  ghost function Done(mem: map<nat, Page>, page: nat, level: nat, i: nat): set<nat> {
    if level == 0 then {} else Kids(mem, page, level, i)
  }
}

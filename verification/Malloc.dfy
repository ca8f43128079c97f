/**
  malloc, free and morecore (user/umalloc.c) on headers in memory, proved against the Arena.
  What sbrk answers is a parameter: a fresh region above everything it gave before, or failure.
 */
module Malloc {
  import opened Util
  import opened Arena

  /** The blocks in S are intact: they own the units they did, and nothing was written into
      them. */
  ghost predicate Intact(a: Arena, a': Arena, S: set<nat>) {
    && (forall b :: b in S && b in a.blocks ==> b in a'.blocks && a'.blocks[b] == a.blocks[b])
    && (forall u :: u in a.owner && a.owner[u] in S ==> UnitIntact(a, a', u))
  }

  ghost predicate UnitIntact(a: Arena, a': Arena, u: nat)
    requires u in a.owner
  {
    && u in a'.owner && a'.owner[u] == a.owner[u]
    && (u in a.mem <==> u in a'.mem) && (u in a.mem ==> a'.mem[u] == a.mem[u])
  }

  /** A block's first unit is its own. */
  lemma OwnFirst(a: Arena, b: nat)
    requires Loose(a) && b in a.blocks
    ensures b in a.owner && a.owner[b] == b
  {
    assert OwnsAll(a.blocks, a.owner, b);
  }

  lemma BaseUnowned(a: Arena)
    requires Loose(a)
    ensures BASE !in a.owner
  {
    assert BASE in a.owner ==> UnitOk(a.blocks, a.owner, BASE);
  }

  // ---------- free ----------

  /** What free of block `b` behind ring[i] makes of the arena: link it in, then join it with
      the block above and the block below if they touch. */
  ghost function Freed(a: Arena, i: nat, b: nat): Arena
    requires Tight(a) && b in a.live && Between(a.ring, i, b)
  {
    InsertKeeps(a, i, b);
    var a1 := Insert(a, i, b);
    var a2 := if Touch(a1, i + 1) then JoinKeeps(a1, i + 1); Join(a1, i + 1) else a1;
    if i > 0 && Touch(a2, i) then FreeBlock(a2, i + 1); Join(a2, i) else a2
  }

  /** The arena once block `b` is linked in. */
  lemma LinkedIn(a: Arena, i: nat, b: nat)
    requires Tight(a) && b in a.live && Between(a.ring, i, b)
    ensures a.ring[i] in a.mem && b in a.mem && Loose(Insert(a, i, b))
    ensures var a1 := Insert(a, i, b);
            && |a1.ring| == |a.ring| + 1 && a1.ring[i] == a.ring[i] && a1.ring[i + 1] == b
            && (i + 1 < |a.ring| ==> a1.ring[i + 2] == a.ring[i + 1])
            && forall k: nat :: Touch(a1, k) ==> k == i || k == i + 1
  {
    InsertKeeps(a, i, b);
    InsertAt(a.ring, i, b);
    var a1 := Insert(a, i, b);
    hide Loose;
    hide Inserted;
    forall k: nat | Touch(a1, k) ensures k == i || k == i + 1 {
      InsertTouch(a, i, b, k);
    }
  }

  /** Joining upwards leaves at most the block below touching. */
  lemma JoinedUp(a1: Arena, i: nat)
    requires Loose(a1) && Touch(a1, i + 1) && forall k: nat :: Touch(a1, k) ==> k == i || k == i + 1
    ensures a1.ring[i + 2] in a1.mem
    ensures var a2 := Join(a1, i + 1);
            && Loose(a2) && i + 1 < |a2.ring| && a2.ring[i] == a1.ring[i] && a2.ring[i + 1] == a1.ring[i + 1]
            && forall k: nat :: Touch(a2, k) ==> k == i
  {
    JoinKeeps(a1, i + 1);
    RemoveAt(a1.ring, i + 2);
    var a2 := Join(a1, i + 1);
    hide Loose;
    hide Removed;
    forall k: nat | Touch(a2, k) ensures k == i {
      JoinTouch(a1, i + 1, k);
    }
  }

  /** After linking in and joining upwards, only the block below may still touch. */
  lemma FreedAbove(a: Arena, i: nat, b: nat)
    requires Tight(a) && b in a.live && Between(a.ring, i, b)
    ensures a.ring[i] in a.mem && b in a.mem && Loose(Insert(a, i, b))
    ensures var a1 := Insert(a, i, b);
            && (Touch(a1, i + 1) ==> a1.ring[i + 2] in a1.mem)
            && var a2 := if Touch(a1, i + 1) then Join(a1, i + 1) else a1;
            && Loose(a2) && i + 1 < |a2.ring| && a2.ring[i] == a.ring[i] && a2.ring[i + 1] == b
            && forall k: nat :: Touch(a2, k) ==> k == i
  {
    LinkedIn(a, i, b);
    var a1 := Insert(a, i, b);
    hide Loose;
    hide Insert;
    hide Join;
    if Touch(a1, i + 1) {
      JoinedUp(a1, i);
    }
  }

  lemma FreedTight(a: Arena, i: nat, b: nat)
    requires Tight(a) && b in a.live && Between(a.ring, i, b)
    ensures Tight(Freed(a, i, b)) && i < |Freed(a, i, b).ring| && Freed(a, i, b).ring[i] == a.ring[i]
  {
    FreedAbove(a, i, b);
    var a1 := Insert(a, i, b);
    var a2 := if Touch(a1, i + 1) then Join(a1, i + 1) else a1;
    if i > 0 && Touch(a2, i) {
      JoinKeeps(a2, i);
      RemoveAt(a2.ring, i + 1);
      forall k: nat ensures !Touch(Join(a2, i), k) {
        if Touch(Join(a2, i), k) {
          JoinTouch(a2, i, k);
        }
      }
    } else {
      FirstAlone(a2);
    }
  }

  /** Nothing touches `base`. */
  lemma FirstAlone(a: Arena)
    requires Loose(a)
    ensures !Touch(a, 0)
  {
    assert |a.ring| > 1 ==> FreeAt(a, 1);
  }

  /** Inserting writes only into the block freed and into one in the ring. */
  lemma InsertIntact(a: Arena, i: nat, b: nat, S: set<nat>)
    requires Loose(a) && b in a.live && Between(a.ring, i, b) && a.ring[i] in a.mem && b in a.mem && S <= a.live - {b}
    ensures Intact(a, Insert(a, i, b), S)
  {
    RingNotOwned(a, i, S);
    OwnFirst(a, b);
  }

  /** A unit of a block in use is not the header of a free block. */
  lemma RingNotOwned(a: Arena, i: nat, S: set<nat>)
    requires Loose(a) && i < |a.ring| && S <= a.live
    ensures a.ring[i] in a.owner ==> a.owner[a.ring[i]] !in S
  {
    if i == 0 {
      BaseUnowned(a);
    } else {
      FreeBlock(a, i);
      OwnFirst(a, a.ring[i]);
    }
  }

  lemma JoinIntact(a: Arena, j: nat, S: set<nat>)
    requires Loose(a) && 0 < j && Touch(a, j) && a.ring[j + 1] in a.mem && S <= a.live
    ensures Intact(a, Join(a, j), S) && Join(a, j).live == a.live && Join(a, j).owner.Keys == a.owner.Keys
  {
    RingNotOwned(a, j, S);
    FreeBlock(a, j);
    FreeBlock(a, j + 1);
  }

  lemma IntactTwice(a: Arena, a1: Arena, a2: Arena, S: set<nat>)
    requires Intact(a, a1, S) && Intact(a1, a2, S)
    ensures Intact(a, a2, S)
  {
    forall u | u in a.owner && a.owner[u] in S ensures UnitIntact(a, a2, u) {
      assert UnitIntact(a, a1, u) && UnitIntact(a1, a2, u);
    }
  }

  /** free takes the block out of use and touches no other block in use; no unit is lost. */
  lemma FreedRest(a: Arena, i: nat, b: nat)
    requires Tight(a) && b in a.live && Between(a.ring, i, b)
    ensures var a' := Freed(a, i, b);
            a'.live == a.live - {b} && a'.owner.Keys == a.owner.Keys && Intact(a, a', a.live - {b})
  {
    FreedAbove(a, i, b);
    var S := a.live - {b};
    var a1 := Insert(a, i, b);
    InsertIntact(a, i, b, S);
    var a2 := if Touch(a1, i + 1) then Join(a1, i + 1) else a1;
    hide Intact;
    hide Loose;
    if Touch(a1, i + 1) {
      JoinIntact(a1, i + 1, S);
      IntactTwice(a, a1, a2, S);
    }
    if i > 0 && Touch(a2, i) {
      FreeBlock(a2, i + 1);
      JoinIntact(a2, i, S);
      IntactTwice(a, a2, Join(a2, i), S);
    }
  }

  /** The headers free leaves behind, as its assignments compute them. */
  lemma FreedMem(a: Arena, i: nat, b: nat)
    requires Tight(a) && b in a.live && Between(a.ring, i, b)
    ensures a.ring[i] in a.mem && b in a.mem
    ensures b + a.mem[b].size == a.mem[a.ring[i]].ptr ==> a.mem[a.ring[i]].ptr in a.mem
    ensures Freed(a, i, b).mem == Lower(Upper(a.mem, a.ring[i], b), a.ring[i], b)
  {
    hide Loose;
    hide Upper;
    hide Inserted;
    hide Removed;
    hide Renamed;
    FreedAbove(a, i, b);
    var a1, p := Insert(a, i, b), a.ring[i];
    var a2 := if Touch(a1, i + 1) then Join(a1, i + 1) else a1;
    FirstAlone(a2);
    UpperMem(a, i, b);
    var mem1 := Upper(a.mem, p, b);
    assert Touch(a2, i) <==> p + mem1[p].size == b;
  }

  lemma UpperMem(a: Arena, i: nat, b: nat)
    requires Tight(a) && b in a.live && Between(a.ring, i, b) && a.ring[i] in a.mem && b in a.mem && Loose(Insert(a, i, b))
    ensures b + a.mem[b].size == a.mem[a.ring[i]].ptr ==> a.mem[a.ring[i]].ptr in a.mem
    ensures var a1, p := Insert(a, i, b), a.ring[i];
            && (Touch(a1, i + 1) ==> a1.ring[i + 2] in a1.mem)
            && var a2 := if Touch(a1, i + 1) then Join(a1, i + 1) else a1;
            && var mem1 := Upper(a.mem, p, b);
            && a2.mem == mem1[p := Hdr(b, a.mem[p].size)] && p in mem1 && mem1[p] == a.mem[p]
  {
    LinkedIn(a, i, b);
    var a1, p := Insert(a, i, b), a.ring[i];
    assert LinkOk(a.mem, a.ring, i);
    if Touch(a1, i + 1) {
      FreeBlock(a1, i + 2);
    }
    hide Loose;
    hide Inserted;
    hide Removed;
    var mem1 := Upper(a.mem, p, b);
    Overwritten(a.mem, b, p, Hdr(a.mem[p].ptr, a.mem[b].size), Hdr(b, a.mem[p].size), mem1[b]);
  }

  lemma Overwritten(m: map<nat, Hdr>, b: nat, p: nat, x: Hdr, y: Hdr, z: Hdr)
    requires b != p
    ensures m[b := x][p := y][b := z] == m[b := z][p := y]
  {
  }

  /** bp's header once free has dealt with the block above. */
  function Upper(mem: map<nat, Hdr>, p: nat, b: nat): map<nat, Hdr>
    requires p in mem && b in mem && (b + mem[b].size == mem[p].ptr ==> mem[p].ptr in mem)
  {
    var nx := mem[p].ptr;
    mem[b := if b + mem[b].size == nx then Hdr(mem[nx].ptr, mem[b].size + mem[nx].size) else Hdr(nx, mem[b].size)]
  }

  /** ... and with the block below. */
  function Lower(mem: map<nat, Hdr>, p: nat, b: nat): map<nat, Hdr>
    requires p in mem && b in mem
  {
    mem[p := if p + mem[p].size == b then Hdr(mem[b].ptr, mem[p].size + mem[b].size) else Hdr(b, mem[p].size)]
  }

  /** Some block in the ring has at least `n` units. */
  ghost predicate Fits(a: Arena, n: nat) {
    exists j: nat :: BigAt(a, j, n)
  }

  ghost predicate BigAt(a: Arena, j: nat, n: nat) {
    0 < j < |a.ring| && a.ring[j] in a.mem && a.mem[a.ring[j]].size >= n
  }

  /** Whatever it was joined with, a freed block is there to be found. */
  lemma FreedFits(a: Arena, i: nat, b: nat)
    requires Tight(a) && b in a.live && Between(a.ring, i, b)
    ensures b in a.mem && Fits(Freed(a, i, b), a.mem[b].size)
  {
    FreedAbove(a, i, b);
    FreedTight(a, i, b);
    LinkedIn(a, i, b);
    var a1 := Insert(a, i, b);
    var a2 := if Touch(a1, i + 1) then Join(a1, i + 1) else a1;
    FreeBlock(a2, i + 1);
    hide Loose;
    assert a2.mem[b].size >= a.mem[b].size;
    if i > 0 && Touch(a2, i) {
      assert BigAt(Join(a2, i), i, a.mem[b].size);
    } else {
      assert BigAt(a2, i + 1, a.mem[b].size);
    }
  }

  lemma TakeAllIntact(a: Arena, j: nat)
    requires Loose(a) && 0 < j < |a.ring| && a.ring[j] in a.mem && a.ring[j - 1] in a.mem
    ensures Intact(a, TakeAll(a, j), a.live)
  {
    RingNotOwned(a, j - 1, a.live);
  }

  lemma TakeTailIntact(a: Arena, j: nat, n: nat)
    requires Loose(a) && 0 < j < |a.ring| && a.ring[j] in a.mem && 0 < n < a.mem[a.ring[j]].size
    ensures Intact(a, TakeTail(a, j, n), a.live) && TakeTail(a, j, n).owner.Keys == a.owner.Keys
    ensures a.ring[j] + (a.mem[a.ring[j]].size - n) !in a.blocks
  {
    FreeBlock(a, j);
    var p := a.ring[j];
    SplitInside(a.blocks, a.owner, p, p + (a.mem[p].size - n));
    var a' := TakeTail(a, j, n);
    forall u | u in a.owner && a.owner[u] in a.live ensures UnitIntact(a, a', u) {
      TailUnit(a, j, n, u);
    }
    hide Loose;
    hide UnitIntact;
  }

  lemma TailUnit(a: Arena, j: nat, n: nat, u: nat)
    requires Loose(a) && 0 < j < |a.ring| && a.ring[j] in a.mem && 0 < n < a.mem[a.ring[j]].size
    requires u in a.owner && a.owner[u] in a.live
    ensures UnitIntact(a, TakeTail(a, j, n), u)
  {
    FreeBlock(a, j);
    RingNotOwned(a, j, a.live);
    assert OwnsAll(a.blocks, a.owner, a.ring[j]);
    hide Partition;
    hide RingOk;
    hide AllAccounted;
  }

  lemma GrowIntact(a: Arena, start: nat, n: nat)
    requires Loose(a) && start !in a.blocks && forall u :: u in a.owner ==> u < start
    ensures Intact(a, Grow(a, start, n), a.live)
  {
  }

  // ---------- finding a place ----------

  /** How far index `k` is behind index `i` on a ring of `n`. */
  function Behind(k: nat, i: nat, n: nat): nat
    requires k < n && i < n
  {
    if k <= i then i - k else i + n - k
  }

  lemma {:induction false} PlaceExists(ring: seq<nat>, b: nat) returns (i: nat)
    requires |ring| > 0 && Sorted(ring) && ring[0] < b && b !in ring
    ensures Between(ring, i, b)
  {
    i := 0;
    while i + 1 < |ring| && ring[i + 1] < b
      invariant i < |ring| && ring[i] < b
    {
      i := i + 1;
    }
  }

  /** free's test at ring[k] succeeds exactly at the place of `b`. */
  lemma StopsAtPlace(mem: map<nat, Hdr>, ring: seq<nat>, b: nat, i: nat, k: nat)
    requires |ring| > 0 && Sorted(ring) && Linked(mem, ring) && ring[0] < b && Between(ring, i, b) && k < |ring| && ring[k] in mem
    ensures var p, next := ring[k], mem[ring[k]].ptr;
            (b > p && b < next) || (p >= next && (b > p || b < next)) <==> k == i
  {
    assert LinkOk(mem, ring, k);
  }

  // ---------- the allocator ----------

  const SIZEOF_HEADER: nat := 16

  /** The units malloc needs for `nbytes` bytes and a header. */
  function Units(nbytes: nat): nat {
    (nbytes + SIZEOF_HEADER - 1) / SIZEOF_HEADER + 1
  }

  /** Step `t` of a walk round a ring of `n` that starts after index `f`. */
  function Walk(f: nat, t: nat, n: nat): nat
    requires f < n && t <= n
  {
    if f + t < n then f + t else f + t - n
  }

  /** An arena nothing has been allocated in. */
  ghost predicate Fresh(a: Arena) {
    a.ring == [] && a.live == {} && a.blocks == map[] && a.owner == map[]
  }

  class Heap {
    var mem: map<nat, Hdr>

    /** 0 until the first malloc. */
    var freep: nat

    /** One above the last unit sbrk gave. */
    var brk: nat

    ghost var a: Arena

    ghost predicate Valid()
      reads this
    {
      && a.mem == mem && brk > BASE && (forall u :: u in a.owner ==> u < brk)
      && if freep == 0 then Fresh(a) else Tight(a) && freep in a.ring
    }

    constructor (start: nat)
      requires start > BASE
      ensures Valid() && freep == 0 && brk == start
    {
      mem := map[];
      freep := 0;
      brk := start;
      a := Arena(map[], [], {}, map[], map[]);
    }

    /** free's search for the free block below `b`. */
    method FindPlace(b: nat) returns (p: nat, ghost i: nat)
      requires Valid() && freep != 0 && b in a.live
      ensures Between(a.ring, i, b) && p == a.ring[i]
    {
      NotInUse(a, b);
      i := PlaceExists(a.ring, b);
      ghost var k :| 0 <= k < |a.ring| && a.ring[k] == freep;
      hide Partition;
      hide FreeOk;
      hide AllAccounted;
      p := freep;
      assert LinkOk(a.mem, a.ring, k);
      StopsAtPlace(mem, a.ring, b, i, k);
      while !(b > p && b < mem[p].ptr)
        invariant 0 <= k < |a.ring| && p == a.ring[k] && p in mem
        invariant (b > p && b < mem[p].ptr) || (p >= mem[p].ptr && (b > p || b < mem[p].ptr)) <==> k == i
        decreases Behind(k, i, |a.ring|)
      {
        if p >= mem[p].ptr && (b > p || b < mem[p].ptr) {
          break;
        }
        assert LinkOk(a.mem, a.ring, k);
        k := Succ(k, |a.ring|);
        p := mem[p].ptr;
        assert LinkOk(a.mem, a.ring, k);
        StopsAtPlace(mem, a.ring, b, i, k);
      }
    }

    /** free of the block whose header is `b`: it leaves the blocks in use, is joined with
        every free block it touches, and nothing else in use is written to. */
    method Free(b: nat)
      requires Valid() && freep != 0 && b in a.live
      modifies this`mem, this`freep, this`a
      ensures Valid() && freep != 0
      ensures a.live == old(a).live - {b} && a.owner.Keys == old(a).owner.Keys && Intact(old(a), a, a.live)
      ensures old(a).mem == old(mem) && b in old(mem) && Fits(a, old(mem)[b].size)
    {
      ghost var i;
      var p;
      p, i := FindPlace(b);
      FreedTight(a, i, b);
      FreedRest(a, i, b);
      FreedMem(a, i, b);
      FreedFits(a, i, b);
      hide Tight;
      hide Intact;
      hide Fits;
      hide Upper;
      hide Lower;
      hide Between;
      Relink(p, b);
      a := Freed(a, i, b);
      hide Freed;
    }

    /** free's assignments, for block `b` and the free block `p` below it. */
    method Relink(p: nat, b: nat)
      requires p in mem && b in mem && (b + mem[b].size == mem[p].ptr ==> mem[p].ptr in mem)
      modifies this`mem, this`freep
      ensures mem == Lower(Upper(old(mem), p, b), p, b) && freep == p
    {
      var next := mem[p].ptr;
      if b + mem[b].size == next {
        mem := mem[b := Hdr(mem[next].ptr, mem[b].size + mem[next].size)];
      } else {
        mem := mem[b := Hdr(next, mem[b].size)];
      }
      if p + mem[p].size == b {
        mem := mem[p := Hdr(mem[b].ptr, mem[p].size + mem[b].size)];
      } else {
        mem := mem[p := Hdr(b, mem[p].size)];
      }
      freep := p;
    }

    /** morecore, when sbrk answers `grant`. */
    method Morecore(nunits: nat, grant: Option<nat>) returns (ok: bool)
      requires Valid() && freep != 0 && nunits > 0 && (grant.Some? ==> grant.value >= brk)
      modifies this
      ensures Valid() && freep != 0 && ok == grant.Some? && a.live == old(a).live && Intact(old(a), a, a.live)
      ensures !ok ==> a == old(a) && brk == old(brk)
      ensures ok ==>
                && brk == grant.value + Core(nunits) && Fits(a, nunits)
                && forall u :: u in a.owner <==> u in old(a).owner || grant.value <= u < brk
    {
      if grant == None {
        IntactSelf(a);
        return false;
      }
      var nu := if nunits < 4096 then 4096 else nunits;
      var start := grant.value;
      hide Tight;
      hide Intact;
      hide Fits;
      ghost var a0 := a;
      AddCore(start, nu);
      ghost var a1 := a;
      Free(start);
      FitsLess(a, nu, nunits);
      assert a.live == a0.live;
      SameKeys(a1.owner, a.owner);
      IntactTwice(a0, a1, a, a.live);
      ok := true;
    }

    /** The units sbrk has granted, as one block in use. */
    method AddCore(start: nat, nu: nat)
      requires Valid() && freep != 0 && start >= brk && nu > 0
      modifies this`mem, this`a, this`brk
      ensures Valid() && brk == start + nu && start !in old(a).live && a.live == old(a).live + {start}
      ensures start in mem && mem[start].size == nu && Intact(old(a), a, old(a).live)
      ensures forall u :: u in a.owner <==> u in old(a).owner || start <= u < brk
    {
      GrowKeeps(a, start, nu);
      GrowIntact(a, start, nu);
      NotLive(a, start);
      hide Tight;
      hide Intact;
      hide Extended;
      mem := mem[start := Hdr(if start in mem then mem[start].ptr else 0, nu)];
      a := Grow(a, start, nu);
      brk := start + nu;
    }

    /** One round of malloc's search, from the block after freep to freep itself. */
    method Search(nunits: nat) returns (found: bool, prevp: nat, p: nat, ghost j: nat)
      requires Valid() && freep != 0 && nunits > 0
      ensures found <==> Fits(a, nunits)
      ensures found ==> BigAt(a, j, nunits) && p == a.ring[j] && prevp == a.ring[j - 1]
    {
      ghost var n := |a.ring|;
      ghost var f: nat :| f < n && a.ring[f] == freep;
      ghost var t := 1;
      prevp := freep;
      assert LinkOk(a.mem, a.ring, f);
      p := mem[prevp].ptr;
      j := Walk(f, 1, n);
      found := false;
      hide Partition;
      hide FreeOk;
      hide AllAccounted;
      while true
        invariant 1 <= t <= n && j == Walk(f, t, n) && p == a.ring[j] && prevp == a.ring[Walk(f, t - 1, n)]
        invariant forall m: nat :: 1 <= m < t ==> TooSmall(a, Walk(f, m, n), nunits)
        decreases n - t
      {
        assert LinkOk(a.mem, a.ring, j);
        if mem[p].size >= nunits {
          assert j > 0 && BigAt(a, j, nunits);
          return true, prevp, p, j;
        }
        if p == freep {
          AllTooSmall(a, f, t, nunits);
          return false, prevp, p, j;
        }
        prevp := p;
        p := mem[p].ptr;
        t := t + 1;
        j := Walk(f, t, n);
      }
    }

    /** malloc hands out the whole block `p`; `prevp` is the block before it. */
    method TakeWhole(prevp: nat, p: nat, ghost j: nat)
      requires Valid() && freep != 0 && 0 < j < |a.ring| && p == a.ring[j] && prevp == a.ring[j - 1]
      modifies this`mem, this`freep, this`a
      ensures Valid() && freep == prevp && freep != 0
      ensures a.live == old(a).live + {p} && p !in old(a).live && p in old(a).blocks && a.blocks == old(a).blocks
      ensures a.owner == old(a).owner && Intact(old(a), a, old(a).live)
    {
      FreeBlock(a, j);
      PrevNotNull(a, j);
      TakeAllKeeps(a, j);
      TakeAllTight(a, j);
      TakeAllIntact(a, j);
      RemoveAt(a.ring, j);
      hide Tight;
      hide Intact;
      mem := mem[prevp := Hdr(mem[p].ptr, mem[prevp].size)];
      a := TakeAll(a, j);
      hide Removed;
      assert a.ring[j - 1] == prevp;
      freep := prevp;
    }

    /** malloc hands out the last `nunits` units of block `p`. */
    method TakeEnd(prevp: nat, p: nat, nunits: nat, ghost j: nat) returns (b: nat)
      requires Valid() && freep != 0 && 0 < j < |a.ring| && p == a.ring[j] && prevp == a.ring[j - 1]
      requires p in mem && 0 < nunits < mem[p].size
      modifies this`mem, this`freep, this`a
      ensures Valid() && freep == prevp && freep != 0
      ensures a.live == old(a).live + {b} && b !in old(a).live && b in a.blocks && a.blocks[b] == nunits
      ensures a.owner.Keys == old(a).owner.Keys && Intact(old(a), a, old(a).live)
    {
      hide Tight;
      hide Intact;
      hide TailMem;
      PrevNotNull(a, j);
      SplitOff(a, j, nunits, p + (mem[p].size - nunits));
      b := CutTail(p, nunits);
      a := TakeTail(a, j, nunits);
      hide TakeTail;
      freep := prevp;
    }

    /** malloc's assignments when it splits block `p`. */
    method CutTail(p: nat, nunits: nat) returns (t: nat)
      requires p in mem && 0 < nunits < mem[p].size
      modifies this`mem
      ensures mem == TailMem(old(mem), p, nunits) && t == p + (old(mem)[p].size - nunits)
    {
      mem := mem[p := mem[p].(size := mem[p].size - nunits)];
      t := p + mem[p].size;
      mem := mem[t := Hdr(if t in mem then mem[t].ptr else 0, nunits)];
    }

    /** malloc has found block `p`, large enough. */
    method Take(prevp: nat, p: nat, nunits: nat, ghost j: nat) returns (b: nat)
      requires Valid() && freep != 0 && 0 < j < |a.ring| && p == a.ring[j] && prevp == a.ring[j - 1]
      requires p in mem && 0 < nunits <= mem[p].size
      modifies this`mem, this`freep, this`a
      ensures Valid() && freep != 0
      ensures a.live == old(a).live + {b} && b !in old(a).live && b in a.blocks && a.blocks[b] == nunits
      ensures a.owner.Keys == old(a).owner.Keys && Intact(old(a), a, old(a).live)
    {
      hide Tight;
      hide Intact;
      b := p;
      TightFree(a, j);
      if mem[p].size == nunits {
        TakeWhole(prevp, p, j);
      } else {
        b := TakeEnd(prevp, p, nunits, j);
      }
    }

    /** malloc, when sbrk would answer `grant`: a block of exactly the units asked for, none of
        them in use before.  The heap grows, once, only if no free block was large enough,
        and malloc fails only if it then cannot grow. */
    method Malloc(nbytes: nat, grant: Option<nat>) returns (r: Option<nat>, ghost grew: bool)
      requires Valid() && (grant.Some? ==> grant.value >= brk)
      modifies this
      ensures Valid() && freep != 0 && Intact(old(a), a, old(a).live)
      ensures r == None <==> grant == None && !Fits(old(a), Units(nbytes))
      ensures r == None ==> a.live == old(a).live && a.owner == old(a).owner
      ensures r.Some? ==>
                r.value !in old(a).live && a.live == old(a).live + {r.value} && r.value in a.blocks && a.blocks[r.value] == Units(nbytes)
      ensures grew <==> grant.Some? && !Fits(old(a), Units(nbytes))
      ensures !grew ==> brk == old(brk) && forall u :: u in a.owner <==> u in old(a).owner
      ensures grew ==>
                && brk == grant.value + Core(Units(nbytes))
                && forall u :: u in a.owner <==> u in old(a).owner || grant.value <= u < brk
    {
      var nunits := Units(nbytes);
      assert nunits > 0;
      hide Units;
      hide Core;
      grew := false;
      FreshLive(a);
      if freep == 0 {
        SetUp();
      }
      ghost var a0, S := a, a.live;
      IntactSelf(a);
      hide Tight;
      hide Intact;
      hide Fresh;
      hide Fits;
      var found, prevp, p;
      ghost var j;
      found, prevp, p, j := Search(nunits);
      if !found {
        var ok := Morecore(nunits, grant);
        if !ok {
          return None, false;
        }
        grew := true;
        found, prevp, p, j := Search(nunits);
      }
      ghost var a1 := a;
      var b := Take(prevp, p, nunits, j);
      IntactTwice(a0, a1, a, S);
      if old(freep) == 0 {
        IntactTwice(old(a), a0, a, {});
      }
      r := Some(b);
    }

    /** malloc's first call: a ring of `base` alone. */
    method SetUp()
      requires Valid() && freep == 0
      modifies this`mem, this`freep, this`a
      ensures Valid() && freep != 0 && a.live == {} && a.owner == map[] && a.ring == [BASE]
      ensures Intact(old(a), a, {}) && forall n: nat :: !Fits(a, n) && !Fits(old(a), n)
    {
      mem := mem[BASE := Hdr(BASE, 0)];
      freep := BASE;
      a := Arena(mem, [BASE], {}, map[], map[]);
      assert LinkOk(a.mem, a.ring, 0);
    }
  }

  ghost predicate TooSmall(a: Arena, k: nat, n: nat) {
    k < |a.ring| && a.ring[k] in a.mem && a.mem[a.ring[k]].size < n
  }

  /** A walk that has come back to where it started has seen the whole ring. */
  lemma AllTooSmall(a: Arena, f: nat, t: nat, n: nat)
    requires Tight(a) && f < |a.ring| && 1 <= t <= |a.ring| && a.ring[Walk(f, t, |a.ring|)] == a.ring[f]
    requires forall m: nat :: 1 <= m < t ==> TooSmall(a, Walk(f, m, |a.ring|), n)
    requires TooSmall(a, f, n)
    ensures !Fits(a, n)
  {
    forall k: nat | k < |a.ring| ensures !BigAt(a, k, n) {
      var m := if k > f then k - f else k + |a.ring| - f;
      assert Walk(f, m, |a.ring|) == k;
      assert k != f ==> TooSmall(a, Walk(f, m, |a.ring|), n);
    }
  }

  /** Splitting off the last `n` units of a free block: they are the block `t`, nothing else in
      use changes. */
  lemma SplitOff(a: Arena, j: nat, n: nat, t: nat)
    requires Tight(a) && 0 < j < |a.ring| && a.ring[j] in a.mem && 0 < n < a.mem[a.ring[j]].size
    requires t == a.ring[j] + (a.mem[a.ring[j]].size - n)
    ensures t !in a.live
    ensures var a' := TakeTail(a, j, n);
            && Tight(a') && Intact(a, a', a.live) && a'.owner.Keys == a.owner.Keys
            && a'.live == a.live + {t} && t in a'.blocks && a'.blocks[t] == n && a'.ring == a.ring && a'.mem == TailMem(a.mem, a.ring[j], n)
  {
    TakeTailKeeps(a, j, n);
    TakeTailTight(a, j, n);
    TakeTailIntact(a, j, n);
    NotLive(a, t);
    hide Loose;
    hide Intact;
    hide Recut;
    hide TailMem;
  }

  lemma TightFree(a: Arena, j: nat)
    requires Tight(a) && 0 < j < |a.ring|
    ensures a.ring[j] in a.blocks && a.ring[j] !in a.live && a.ring[j] in a.mem && a.mem[a.ring[j]].size == a.blocks[a.ring[j]]
  {
    FreeBlock(a, j);
  }

  lemma FreshLive(a: Arena)
    ensures Fresh(a) ==> a.live == {} && a.owner == map[]
  {
  }

  lemma SameKeys(m: map<nat, nat>, m': map<nat, nat>)
    requires m'.Keys == m.Keys
    ensures forall u :: u in m' <==> u in m
  {
    assert forall u :: u in m' <==> u in m'.Keys;
  }

  lemma NotLive(a: Arena, t: nat)
    requires Tight(a) && t !in a.blocks
    ensures t !in a.live
  {
  }

  lemma PrevNotNull(a: Arena, j: nat)
    requires Tight(a) && 0 < j < |a.ring|
    ensures a.ring[j - 1] >= BASE
  {
    assert j > 1 ==> FreeAt(a, j - 1);
  }

  /** The units morecore asks sbrk for. */
  function Core(nunits: nat): nat {
    if nunits < 4096 then 4096 else nunits
  }

  lemma NotInUse(a: Arena, b: nat)
    requires Tight(a) && b in a.live
    ensures b !in a.ring && b > BASE && a.ring[0] < b
  {
    forall k: nat | k < |a.ring| ensures a.ring[k] != b {
      assert k > 0 ==> FreeAt(a, k);
    }
  }

  lemma IntactSelf(a: Arena)
    ensures Intact(a, a, a.live)
  {
  }

  lemma FitsLess(a: Arena, n: nat, m: nat)
    requires Fits(a, n) && m <= n
    ensures Fits(a, m)
  {
    var j: nat :| BigAt(a, j, n);
    assert BigAt(a, j, m);
  }
}

/**
  The heap of the K&R allocator (user/umalloc.c) as a value: headers in memory, the ring of
  free blocks, the blocks in use, and which block each unit belongs to.  Addresses and
  sizes are in units of one header.
 */
module Arena {

  /** union header. */
  datatype Hdr = Hdr(ptr: nat, size: nat)

  /** The address of the static header `base`; the heap lies above it. */
  const BASE: nat := 1

  /** Headers, the free blocks from `base` on in address order, the blocks malloc has handed
      out, the size of every block, and the block that owns each unit sbrk gave. */
  datatype Arena = Arena(mem: map<nat, Hdr>, ring: seq<nat>, live: set<nat>, blocks: map<nat, nat>, owner: map<nat, nat>)

  /** The blocks partition the units: each unit is in exactly the block that owns it. */
  ghost predicate Partition(blocks: map<nat, nat>, owner: map<nat, nat>) {
    && (forall b :: b in blocks ==> b > BASE && blocks[b] > 0)
    && (forall b :: b in blocks ==> OwnsAll(blocks, owner, b))
    && (forall u :: u in owner ==> UnitOk(blocks, owner, u))
  }

  ghost predicate UnitOk(blocks: map<nat, nat>, owner: map<nat, nat>, u: nat)
    requires u in owner
  {
    owner[u] in blocks && owner[u] <= u < owner[u] + blocks[owner[u]]
  }

  ghost predicate OwnsAll(blocks: map<nat, nat>, owner: map<nat, nat>, b: nat)
    requires b in blocks
  {
    forall u: nat :: b <= u < b + blocks[b] ==> u in owner && owner[u] == b
  }

  function Succ(i: nat, n: nat): nat {
    if i + 1 == n then 0 else i + 1
  }

  ghost predicate Sorted(ring: seq<nat>) {
    forall i, j :: 0 <= i < j < |ring| ==> ring[i] < ring[j]
  }

  ghost predicate LinkOk(mem: map<nat, Hdr>, ring: seq<nat>, i: nat)
    requires i < |ring|
  {
    ring[i] in mem && mem[ring[i]].ptr == ring[Succ(i, |ring|)]
  }

  /** The links go round the ring in order. */
  ghost predicate Linked(mem: map<nat, Hdr>, ring: seq<nat>) {
    forall i: nat :: i < |ring| ==> LinkOk(mem, ring, i)
  }

  ghost predicate RingOk(a: Arena) {
    |a.ring| > 0 && a.ring[0] == BASE && Sorted(a.ring) && Linked(a.mem, a.ring)
  }

  /** Headers tell the size of their block. */
  ghost predicate SizesOk(a: Arena) {
    && BASE in a.mem && a.mem[BASE].size == 0
    && forall b :: b in a.blocks ==> b in a.mem && a.mem[b].size == a.blocks[b]
  }

  ghost predicate FreeOk(a: Arena) {
    forall i: nat :: 0 < i < |a.ring| ==> FreeAt(a, i)
  }

  ghost predicate AllAccounted(a: Arena) {
    && (forall b :: b in a.blocks ==> Accounted(a, b))
    && (forall b :: b in a.live ==> b in a.blocks)
  }

  /** Everything but that no two free blocks touch. */
  ghost predicate Loose(a: Arena) {
    RingOk(a) && Partition(a.blocks, a.owner) && SizesOk(a) && FreeOk(a) && AllAccounted(a)
  }

  ghost predicate FreeAt(a: Arena, i: nat)
    requires i < |a.ring|
  {
    a.ring[i] in a.blocks && a.ring[i] !in a.live
  }

  /** No block is lost: it is in use or in the ring. */
  ghost predicate Accounted(a: Arena, b: nat) {
    b in a.live || exists i :: 0 <= i < |a.ring| && a.ring[i] == b
  }

  /** Free blocks i and i+1 of the ring are adjacent in memory. */
  ghost predicate Touch(a: Arena, i: nat) {
    i + 1 < |a.ring| && a.ring[i] in a.mem && a.ring[i] + a.mem[a.ring[i]].size == a.ring[i + 1]
  }

  ghost predicate Tight(a: Arena) {
    Loose(a) && forall i: nat :: !Touch(a, i)
  }

  /** Blocks do not overlap. */
  lemma Apart(a: Arena, b: nat, c: nat)
    requires Loose(a) && b in a.blocks && c in a.blocks && b < c
    ensures b + a.blocks[b] <= c
  {
    assert OwnsAll(a.blocks, a.owner, b) && OwnsAll(a.blocks, a.owner, c);
    assert c in a.owner && a.owner[c] == c;
  }

  // ---------- putting a block into the ring ----------

  /** free links block `b` in after ring[i]. */
  ghost function Insert(a: Arena, i: nat, b: nat): Arena
    requires i < |a.ring| && a.ring[i] in a.mem && b in a.mem
  {
    var p := a.ring[i];
    a.(ring := Inserted(a.ring, i, b),
       mem := a.mem[b := Hdr(a.mem[p].ptr, a.mem[b].size)][p := Hdr(b, a.mem[p].size)],
       live := a.live - {b})
  }

  /** The place of `b` in the ring. */
  ghost predicate Between(ring: seq<nat>, i: nat, b: nat) {
    i < |ring| && ring[i] < b && (i + 1 < |ring| ==> b < ring[i + 1])
  }

  lemma InsertKeeps(a: Arena, i: nat, b: nat)
    requires Loose(a) && b in a.live && Between(a.ring, i, b)
    ensures a.ring[i] in a.mem && b in a.mem && Loose(Insert(a, i, b))
  {
    assert LinkOk(a.mem, a.ring, i);
    InsertSorted(a.ring, i, b);
    InsertLinked(a.mem, a.ring, i, b);
    InsertAt(a.ring, i, b);
    assert RingOk(Insert(a, i, b));
    InsertFree(a, i, b);
    InsertAccounted(a, i, b);
    hide RingOk;
    hide Partition;
    hide FreeOk;
    hide AllAccounted;
  }

  lemma InsertFree(a: Arena, i: nat, b: nat)
    requires FreeOk(a) && b in a.blocks && i < |a.ring| && a.ring[i] in a.mem && b in a.mem
    ensures FreeOk(Insert(a, i, b))
  {
    InsertAt(a.ring, i, b);
    var a' := Insert(a, i, b);
    forall k: nat | 0 < k < |a'.ring| ensures FreeAt(a', k) {
      assert k != i + 1 ==> FreeAt(a, if k <= i then k else k - 1);
    }
  }

  lemma InsertAccounted(a: Arena, i: nat, b: nat)
    requires AllAccounted(a) && i < |a.ring| && a.ring[i] in a.mem && b in a.mem
    ensures AllAccounted(Insert(a, i, b))
  {
    InsertAt(a.ring, i, b);
    var a' := Insert(a, i, b);
    forall c | c in a.blocks ensures Accounted(a', c) {
      assert Accounted(a, c);
      if k :| 0 <= k < |a.ring| && a.ring[k] == c {
        assert a'.ring[if k <= i then k else k + 1] == c;
      } else {
        assert a'.ring[i + 1] == b;
      }
    }
  }

  ghost function Inserted(ring: seq<nat>, i: nat, b: nat): seq<nat>
    requires i < |ring|
  {
    ring[..i + 1] + [b] + ring[i + 1..]
  }

  /** The ring after an insertion, position by position. */
  lemma InsertAt(ring: seq<nat>, i: nat, b: nat)
    requires i < |ring|
    ensures |Inserted(ring, i, b)| == |ring| + 1
    ensures forall k: nat :: k <= i ==> Inserted(ring, i, b)[k] == ring[k]
    ensures Inserted(ring, i, b)[i + 1] == b
    ensures forall k: nat :: i + 1 < k <= |ring| ==> Inserted(ring, i, b)[k] == ring[k - 1]
  {
  }

  lemma InsertSorted(ring: seq<nat>, i: nat, b: nat)
    requires Sorted(ring) && Between(ring, i, b)
    ensures Sorted(Inserted(ring, i, b))
  {
    InsertAt(ring, i, b);
    hide Inserted;
  }

  lemma InsertLinked(mem: map<nat, Hdr>, ring: seq<nat>, i: nat, b: nat)
    requires Sorted(ring) && Linked(mem, ring) && b in mem && Between(ring, i, b) && ring[i] in mem
    ensures Linked(mem[b := Hdr(mem[ring[i]].ptr, mem[b].size)][ring[i] := Hdr(b, mem[ring[i]].size)], Inserted(ring, i, b))
  {
    InsertAt(ring, i, b);
    InsertSorted(ring, i, b);
    var mem', r := mem[b := Hdr(mem[ring[i]].ptr, mem[b].size)][ring[i] := Hdr(b, mem[ring[i]].size)], Inserted(ring, i, b);
    hide Inserted;
    assert LinkOk(mem, ring, i);
    forall k: nat | k < |r| ensures LinkOk(mem', r, k) {
      if k < i {
        assert LinkOk(mem, ring, k);
        assert r[k] < r[i] < r[i + 1];
      } else if k > i + 1 {
        assert LinkOk(mem, ring, k - 1);
        assert r[i] < r[i + 1] < r[k];
      }
    }
  }

  /** Inserting can make the new block touch its neighbours, nothing else. */
  lemma InsertTouch(a: Arena, i: nat, b: nat, k: nat)
    requires Tight(a) && b in a.live && Between(a.ring, i, b) && a.ring[i] in a.mem && b in a.mem
    requires Touch(Insert(a, i, b), k)
    ensures k == i || k == i + 1
  {
    InsertAt(a.ring, i, b);
    hide Inserted;
    hide Partition;
    hide Accounted;
    hide FreeAt;
    assert !Touch(a, k) && (k > 0 ==> !Touch(a, k - 1));
    assert k < |a.ring| ==> LinkOk(a.mem, a.ring, k);
    assert 0 < k <= |a.ring| ==> LinkOk(a.mem, a.ring, k - 1);
  }

  // ---------- taking a block out of the ring ----------

  ghost function Removed(ring: seq<nat>, j: nat): seq<nat>
    requires j < |ring|
  {
    ring[..j] + ring[j + 1..]
  }

  lemma RemoveAt(ring: seq<nat>, j: nat)
    requires j < |ring|
    ensures |Removed(ring, j)| == |ring| - 1
    ensures forall k: nat :: k < j ==> Removed(ring, j)[k] == ring[k]
    ensures forall k: nat :: j <= k < |ring| - 1 ==> Removed(ring, j)[k] == ring[k + 1]
  {
  }

  lemma RemoveSorted(ring: seq<nat>, j: nat)
    requires Sorted(ring) && j < |ring|
    ensures Sorted(Removed(ring, j))
  {
    RemoveAt(ring, j);
    hide Removed;
  }

  /** The block before takes over the link of the block removed, whatever becomes of its size. */
  lemma RemoveLinked(mem: map<nat, Hdr>, ring: seq<nat>, j: nat, size: nat)
    requires Sorted(ring) && Linked(mem, ring) && 0 < j < |ring|
    ensures ring[j] in mem && Linked(mem[ring[j - 1] := Hdr(mem[ring[j]].ptr, size)], Removed(ring, j))
  {
    RemoveAt(ring, j);
    assert LinkOk(mem, ring, j);
    var mem', r := mem[ring[j - 1] := Hdr(mem[ring[j]].ptr, size)], Removed(ring, j);
    hide Removed;
    forall k: nat | k < |r| ensures LinkOk(mem', r, k) {
      if k != j - 1 {
        assert LinkOk(mem, ring, if k < j then k else k + 1);
        assert r[k] != ring[j - 1];
      }
    }
  }

  // ---------- joining two free blocks ----------

  ghost function Join(a: Arena, j: nat): Arena
    requires j + 1 < |a.ring| && a.ring[j] in a.mem && a.ring[j + 1] in a.mem
  {
    var p, q := a.ring[j], a.ring[j + 1];
    var size := a.mem[p].size + a.mem[q].size;
    a.(mem := a.mem[p := Hdr(a.mem[q].ptr, size)], ring := Removed(a.ring, j + 1),
       blocks := (a.blocks - {q})[p := size], owner := Renamed(a.owner, q, p))
  }

  /** The units of block `q` now belong to `p`. */
  ghost function Renamed(owner: map<nat, nat>, q: nat, p: nat): map<nat, nat> {
    map u | u in owner :: if owner[u] == q then p else owner[u]
  }

  lemma JoinPartition(blocks: map<nat, nat>, owner: map<nat, nat>, p: nat, q: nat, size: nat)
    requires Partition(blocks, owner) && p in blocks && q in blocks && p + blocks[p] == q && size == blocks[p] + blocks[q]
    ensures Partition((blocks - {q})[p := size], Renamed(owner, q, p))
  {
    var blocks', owner' := (blocks - {q})[p := size], Renamed(owner, q, p);
    assert OwnsAll(blocks, owner, p) && OwnsAll(blocks, owner, q);
    forall b | b in blocks' ensures OwnsAll(blocks', owner', b) {
      assert OwnsAll(blocks, owner, b);
    }
    forall u | u in owner' ensures UnitOk(blocks', owner', u) {
      assert UnitOk(blocks, owner, u);
    }
  }

  lemma JoinKeeps(a: Arena, j: nat)
    requires Loose(a) && 0 < j && Touch(a, j)
    ensures a.ring[j + 1] in a.mem && Loose(Join(a, j))
  {
    FreeBlock(a, j);
    FreeBlock(a, j + 1);
    JoinRing(a, j);
    hide RingOk;
    hide Partition;
    hide SizesOk;
    hide FreeOk;
    hide AllAccounted;
    var p, q := a.ring[j], a.ring[j + 1];
    var size := a.mem[p].size + a.mem[q].size;
    JoinPartition(a.blocks, a.owner, p, q, size);
    assert Join(a, j).blocks == (a.blocks - {q})[p := size] && Join(a, j).owner == Renamed(a.owner, q, p);
    hide Join;
    JoinFree(a, j);
    JoinAccounted(a, j);
  }

  lemma JoinRing(a: Arena, j: nat)
    requires RingOk(a) && SizesOk(a) && 0 < j && Touch(a, j) && a.ring[j + 1] in a.mem
    requires a.ring[j] in a.blocks && a.ring[j + 1] in a.blocks
    ensures RingOk(Join(a, j)) && SizesOk(Join(a, j))
  {
    RemoveSorted(a.ring, j + 1);
    RemoveLinked(a.mem, a.ring, j + 1, a.mem[a.ring[j]].size + a.mem[a.ring[j + 1]].size);
    RemoveAt(a.ring, j + 1);
    RingDistinct(a.ring, 0, j);
    hide Linked;
    hide Sorted;
    hide Removed;
    hide Renamed;
  }

  lemma JoinFree(a: Arena, j: nat)
    requires FreeOk(a) && RingOk(a) && 0 < j && Touch(a, j) && a.ring[j + 1] in a.mem
    ensures FreeOk(Join(a, j))
  {
    RemoveAt(a.ring, j + 1);
    var a' := Join(a, j);
    hide Removed;
    hide Renamed;
    forall k: nat | 0 < k < |a'.ring| ensures FreeAt(a', k) {
      assert FreeAt(a, if k <= j then k else k + 1);
      RingDistinct(a.ring, if k <= j then k else k + 1, j + 1);
    }
  }

  lemma JoinAccounted(a: Arena, j: nat)
    requires AllAccounted(a) && FreeOk(a) && 0 < j && Touch(a, j) && a.ring[j + 1] in a.mem
    ensures AllAccounted(Join(a, j))
  {
    RemoveAt(a.ring, j + 1);
    var a' := Join(a, j);
    hide Removed;
    hide Renamed;
    assert FreeAt(a, j) && FreeAt(a, j + 1);
    forall c | c in a'.blocks ensures Accounted(a', c) {
      assert Accounted(a, c);
      if k :| 0 <= k < |a.ring| && a.ring[k] == c {
        assert a'.ring[if k <= j then k else k - 1] == c;
      }
    }
  }

  lemma RingDistinct(ring: seq<nat>, j: nat, k: nat)
    requires Sorted(ring) && j < |ring| && k < |ring| && j != k
    ensures ring[j] != ring[k]
  {
  }

  /** Joining makes no two blocks touch that did not. */
  lemma JoinTouch(a: Arena, j: nat, k: nat)
    requires Loose(a) && 0 < j && Touch(a, j) && a.ring[j + 1] in a.mem && Touch(Join(a, j), k)
    ensures Touch(a, if k < j then k else k + 1)
  {
    RemoveAt(a.ring, j + 1);
    hide Removed;
    hide Partition;
    hide Accounted;
    hide FreeAt;
    assert k < |a.ring| ==> LinkOk(a.mem, a.ring, k);
    assert k + 1 < |a.ring| ==> LinkOk(a.mem, a.ring, k + 1);
    assert k < |a.ring| && k != j ==> a.ring[k] != a.ring[j];
  }

  // ---------- malloc takes a whole block ----------

  ghost function TakeAll(a: Arena, j: nat): Arena
    requires 0 < j < |a.ring| && a.ring[j] in a.mem && a.ring[j - 1] in a.mem
  {
    var prev, p := a.ring[j - 1], a.ring[j];
    a.(mem := a.mem[prev := Hdr(a.mem[p].ptr, a.mem[prev].size)], ring := Removed(a.ring, j), live := a.live + {p})
  }

  lemma TakeAllKeeps(a: Arena, j: nat)
    requires Loose(a) && 0 < j < |a.ring|
    ensures a.ring[j] in a.mem && a.ring[j - 1] in a.mem && Loose(TakeAll(a, j))
  {
    assert LinkOk(a.mem, a.ring, j) && LinkOk(a.mem, a.ring, j - 1) && FreeAt(a, j);
    RemoveSorted(a.ring, j);
    RemoveLinked(a.mem, a.ring, j, a.mem[a.ring[j - 1]].size);
    RemoveAt(a.ring, j);
    assert RingOk(TakeAll(a, j));
    TakeAllFree(a, j);
    TakeAllAccounted(a, j);
    hide RingOk;
    hide Partition;
    hide FreeOk;
    hide AllAccounted;
    hide Removed;
  }

  lemma TakeAllFree(a: Arena, j: nat)
    requires FreeOk(a) && Sorted(a.ring) && 0 < j < |a.ring| && a.ring[j] in a.mem && a.ring[j - 1] in a.mem
    ensures FreeOk(TakeAll(a, j))
  {
    RemoveAt(a.ring, j);
    var a' := TakeAll(a, j);
    forall k: nat | 0 < k < |a'.ring| ensures FreeAt(a', k) {
      assert FreeAt(a, if k < j then k else k + 1);
      RingDistinct(a.ring, if k < j then k else k + 1, j);
    }
  }

  lemma TakeAllAccounted(a: Arena, j: nat)
    requires AllAccounted(a) && FreeOk(a) && 0 < j < |a.ring| && a.ring[j] in a.mem && a.ring[j - 1] in a.mem
    ensures AllAccounted(TakeAll(a, j))
  {
    RemoveAt(a.ring, j);
    assert FreeAt(a, j);
    var a' := TakeAll(a, j);
    forall c | c in a'.blocks ensures Accounted(a', c) {
      assert Accounted(a, c);
      if k :| 0 <= k < |a.ring| && a.ring[k] == c {
        assert k != j ==> a'.ring[if k < j then k else k - 1] == c;
      }
    }
  }

  lemma TakeAllTight(a: Arena, j: nat)
    requires Tight(a) && 0 < j < |a.ring| && a.ring[j] in a.mem && a.ring[j - 1] in a.mem && Loose(TakeAll(a, j))
    ensures Tight(TakeAll(a, j))
  {
    RemoveAt(a.ring, j);
    var a' := TakeAll(a, j);
    forall k: nat ensures !Touch(a', k) {
      assert !Touch(a, if k < j then k else k + 1);
      if k == j - 1 && j > 1 {
        assert FreeAt(a, j - 1) && FreeAt(a, j);
        Apart(a, a.ring[j - 1], a.ring[j]);
      }
      hide Removed;
      hide Partition;
      hide Accounted;
      hide FreeAt;
      assert k < |a.ring| ==> LinkOk(a.mem, a.ring, k);
      assert k + 1 < |a.ring| ==> LinkOk(a.mem, a.ring, k + 1);
      assert k < |a.ring| && k != j - 1 ==> a.ring[k] != a.ring[j - 1];
    }
  }

  // ---------- malloc takes the tail of a block ----------

  /** Block `p` loses its last `n` units, which get a header of their own. */
  function TailMem(mem: map<nat, Hdr>, p: nat, n: nat): map<nat, Hdr>
    requires p in mem && n < mem[p].size
  {
    var rest := mem[p].size - n;
    var t := p + rest;
    mem[p := mem[p].(size := rest)][t := Hdr(if t in mem then mem[t].ptr else 0, n)]
  }

  ghost function TakeTail(a: Arena, j: nat, n: nat): Arena
    requires 0 < j < |a.ring| && a.ring[j] in a.mem && n < a.mem[a.ring[j]].size
  {
    var p := a.ring[j];
    var rest := a.mem[p].size - n;
    var t := p + rest;
    a.(mem := TailMem(a.mem, p, n), live := a.live + {t},
       blocks := a.blocks[p := rest][t := n], owner := Recut(a.owner, t, n))
  }

  /** The units from `t` to t+n-1 now belong to block `t`. */
  ghost function Recut(owner: map<nat, nat>, t: nat, n: nat): map<nat, nat> {
    map u | u in owner :: if t <= u < t + n then t else owner[u]
  }

  lemma SplitPartition(blocks: map<nat, nat>, owner: map<nat, nat>, p: nat, rest: nat, t: nat, n: nat)
    requires Partition(blocks, owner) && p in blocks && 0 < n && 0 < rest && rest + n == blocks[p] && t == p + rest
    ensures t !in blocks && Partition(blocks[p := rest][t := n], Recut(owner, t, n))
  {
    hide OwnsAll;
    hide UnitOk;
    SplitInside(blocks, owner, p, t);
    var blocks', owner' := blocks[p := rest][t := n], Recut(owner, t, n);
    forall b | b in blocks' ensures OwnsAll(blocks', owner', b) {
      SplitOwns(blocks, owner, p, rest, t, n, b);
    }
    forall u | u in owner' ensures UnitOk(blocks', owner', u) {
      SplitUnit(blocks, owner, p, rest, t, n, u);
    }
  }

  lemma SplitUnit(blocks: map<nat, nat>, owner: map<nat, nat>, p: nat, rest: nat, t: nat, n: nat, u: nat)
    requires Partition(blocks, owner) && p in blocks && 0 < n && 0 < rest && rest + n == blocks[p] && t == p + rest && t !in blocks
    requires u in Recut(owner, t, n)
    ensures UnitOk(blocks[p := rest][t := n], Recut(owner, t, n), u)
  {
    hide OwnsAll;
    assert UnitOk(blocks, owner, u);
  }

  /** No block begins inside another. */
  lemma SplitInside(blocks: map<nat, nat>, owner: map<nat, nat>, p: nat, t: nat)
    requires Partition(blocks, owner) && p in blocks && p < t < p + blocks[p]
    ensures t !in blocks
  {
    assert OwnsAll(blocks, owner, p);
    assert t in owner && owner[t] == p;
    assert t in blocks ==> OwnsAll(blocks, owner, t);
  }

  lemma SplitOwns(blocks: map<nat, nat>, owner: map<nat, nat>, p: nat, rest: nat, t: nat, n: nat, b: nat)
    requires Partition(blocks, owner) && p in blocks && 0 < n && 0 < rest && rest + n == blocks[p] && t == p + rest && t !in blocks
    requires b in blocks || b == t
    ensures OwnsAll(blocks[p := rest][t := n], Recut(owner, t, n), b)
  {
    assert OwnsAll(blocks, owner, p);
    assert b in blocks ==> OwnsAll(blocks, owner, b);
  }

  /** Changing sizes, or headers outside the ring, breaks no link. */
  lemma LinksKept(mem: map<nat, Hdr>, mem': map<nat, Hdr>, ring: seq<nat>)
    requires Linked(mem, ring)
    requires forall k: nat :: k < |ring| && ring[k] in mem ==> ring[k] in mem' && mem'[ring[k]].ptr == mem[ring[k]].ptr
    ensures Linked(mem', ring)
  {
    forall k: nat | k < |ring| ensures LinkOk(mem', ring, k) {
      assert LinkOk(mem, ring, k);
    }
  }

  /** A block starting at `t` is not in the ring. */
  lemma NotInRing(a: Arena, t: nat)
    requires Loose(a) && t !in a.blocks && t != BASE
    ensures forall k: nat :: k < |a.ring| ==> a.ring[k] != t
  {
    forall k: nat | k < |a.ring| ensures a.ring[k] != t {
      assert k > 0 ==> FreeAt(a, k);
    }
  }

  lemma TakeTailKeeps(a: Arena, j: nat, n: nat)
    requires Loose(a) && 0 < j < |a.ring| && a.ring[j] in a.mem && 0 < n < a.mem[a.ring[j]].size
    ensures Loose(TakeTail(a, j, n))
  {
    FreeBlock(a, j);
    var p := a.ring[j];
    var rest := a.mem[p].size - n;
    var t := p + rest;
    var a' := TakeTail(a, j, n);
    hide RingOk;
    hide Partition;
    hide SizesOk;
    hide FreeOk;
    hide AllAccounted;
    SplitPartition(a.blocks, a.owner, p, rest, t, n);
    assert a'.blocks == a.blocks[p := rest][t := n] && a'.owner == Recut(a.owner, t, n);
    hide TakeTail;
    NotInRing(a, t);
    TakeTailRing(a, j, n);
    TakeTailFree(a, j, n);
  }

  /** What is known of a block in the ring. */
  lemma FreeBlock(a: Arena, j: nat)
    requires Loose(a) && 0 < j < |a.ring|
    ensures a.ring[j] in a.blocks && a.ring[j] > BASE && a.ring[j] !in a.live
    ensures a.ring[j] in a.mem && a.mem[a.ring[j]].size == a.blocks[a.ring[j]]
  {
    assert FreeAt(a, j);
  }

  lemma TakeTailRing(a: Arena, j: nat, n: nat)
    requires RingOk(a) && SizesOk(a) && 0 < j < |a.ring| && a.ring[j] in a.mem && 0 < n < a.mem[a.ring[j]].size
    requires forall k: nat :: k < |a.ring| ==> a.ring[k] != a.ring[j] + a.mem[a.ring[j]].size - n
    ensures RingOk(TakeTail(a, j, n)) && SizesOk(TakeTail(a, j, n))
  {
    hide Recut;
    LinksKept(a.mem, TakeTail(a, j, n).mem, a.ring);
    hide Linked;
    assert a.ring[0] < a.ring[j];
  }

  lemma TakeTailFree(a: Arena, j: nat, n: nat)
    requires FreeOk(a) && AllAccounted(a) && 0 < j < |a.ring| && a.ring[j] in a.mem && 0 < n < a.mem[a.ring[j]].size
    requires forall k: nat :: k < |a.ring| ==> a.ring[k] != a.ring[j] + a.mem[a.ring[j]].size - n
    ensures FreeOk(TakeTail(a, j, n)) && AllAccounted(TakeTail(a, j, n))
  {
    var a' := TakeTail(a, j, n);
    hide Recut;
    forall k: nat | 0 < k < |a'.ring| ensures FreeAt(a', k) {
      assert FreeAt(a, k);
    }
    assert FreeAt(a, j);
    forall c | c in a'.blocks ensures Accounted(a', c) {
      assert c in a.blocks ==> Accounted(a, c);
    }
  }

  lemma TakeTailTight(a: Arena, j: nat, n: nat)
    requires Tight(a) && 0 < j < |a.ring| && a.ring[j] in a.mem && 0 < n < a.mem[a.ring[j]].size && Loose(TakeTail(a, j, n))
    ensures Tight(TakeTail(a, j, n))
  {
    var a', p := TakeTail(a, j, n), a.ring[j];
    assert FreeAt(a, j);
    SplitInside(a.blocks, a.owner, p, p + a.mem[p].size - n);
    NotInRing(a, p + a.mem[p].size - n);
    forall k: nat ensures !Touch(a', k) {
      assert !Touch(a, k);
      assert k < |a.ring| ==> LinkOk(a.mem, a.ring, k);
      if k == j && j + 1 < |a.ring| {
        assert FreeAt(a, j + 1);
        Apart(a, p, a.ring[j + 1]);
      }
      hide Partition;
      hide Accounted;
      hide FreeAt;
    }
  }

  // ---------- morecore ----------

  /** sbrk has given the units from `start` on; morecore makes them a block in use. */
  ghost function Grow(a: Arena, start: nat, n: nat): Arena {
    a.(mem := a.mem[start := Hdr(if start in a.mem then a.mem[start].ptr else 0, n)], live := a.live + {start},
       blocks := a.blocks[start := n], owner := Extended(a.owner, start, n))
  }

  /** The units from `start` on are new and belong to block `start`. */
  ghost function Extended(owner: map<nat, nat>, start: nat, n: nat): (r: map<nat, nat>)
    ensures forall u :: u in r <==> u in owner || start <= u < start + n
    ensures forall u :: u in r ==> r[u] == if start <= u < start + n then start else owner[u]
    decreases n
  {
    if n == 0 then owner else Extended(owner, start, n - 1)[start + n - 1 := start]
  }

  lemma GrowPartition(blocks: map<nat, nat>, owner: map<nat, nat>, start: nat, n: nat)
    requires Partition(blocks, owner) && n > 0 && start > BASE && forall u :: u in owner ==> u < start
    ensures start !in blocks && Partition(blocks[start := n], Extended(owner, start, n))
  {
    var blocks', owner' := blocks[start := n], Extended(owner, start, n);
    assert start in blocks ==> OwnsAll(blocks, owner, start);
    assert start !in owner;
    forall b | b in blocks' ensures OwnsAll(blocks', owner', b) {
      assert b != start ==> OwnsAll(blocks, owner, b);
      forall u: nat | b <= u < b + blocks'[b] ensures u in owner' && owner'[u] == b {
        assert b != start ==> u in owner && owner[u] == b;
      }
    }
    forall u | u in owner' ensures UnitOk(blocks', owner', u) {
      assert u in owner ==> UnitOk(blocks, owner, u);
    }
  }

  lemma GrowKeeps(a: Arena, start: nat, n: nat)
    requires Tight(a) && n > 0 && start > BASE && forall u :: u in a.owner ==> u < start
    ensures Tight(Grow(a, start, n)) && start !in a.blocks
  {
    var a' := Grow(a, start, n);
    GrowPartition(a.blocks, a.owner, start, n);
    NotInRing(a, start);
    LinksKept(a.mem, a'.mem, a.ring);
    hide Partition;
    forall k: nat | 0 < k < |a'.ring| ensures FreeAt(a', k) {
      assert FreeAt(a, k);
    }
    forall c | c in a'.blocks ensures Accounted(a', c) {
      assert c != start ==> Accounted(a, c);
    }
    forall k: nat ensures !Touch(a', k) {
      assert !Touch(a, k);
      assert k < |a.ring| ==> LinkOk(a.mem, a.ring, k);
    }
  }
}

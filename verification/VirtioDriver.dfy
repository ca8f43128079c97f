/**
  The driver's code (kernel/virtio_disk.c): the descriptor allocator, virtio_disk_rw on
  either side of its wait, and the interrupt handler, each proved to make exactly the steps
  of Virtqueue.
 */
module VirtioDriver {
  import opened Util
  import opened Virtqueue

  ghost function FreeSet(q: Queue): set<nat> {
    set i: nat | i < |q.free| && q.free[i]
  }

  /** Freed descriptors are wiped, so one allocated and freed again is as it was. */
  ghost predicate FreeIsBlank(q: Queue) {
    Shaped(q) && forall i :: 0 <= i < NUM && q.free[i] ==> q.desc[i] == NODESC
  }

  function Allocated(q: Queue, i: nat): Queue
    requires i < |q.free|
  {
    q.(free := q.free[i := false])
  }

  function Released(q: Queue, i: nat): Queue
    requires i < |q.free| == |q.desc|
  {
    q.(desc := q.desc[i := NODESC], free := q.free[i := true])
  }

  /** The links lead from `i` over `mid` to `tail` and end there. */
  ghost predicate Linked(q: Queue, i: nat, mid: nat, tail: nat)
    requires Shaped(q)
  {
    && i < NUM && mid < NUM && tail < NUM && i != mid && i != tail && mid != tail
    && q.desc[i].hasNext && q.desc[i].next == mid
    && q.desc[mid].hasNext && q.desc[mid].next == tail
    && !q.desc[tail].hasNext
  }

  class Driver {
    var q: Queue
    ghost var h: History

    ghost predicate Valid()
      reads this
    {
      Inv(q, h)
    }

    /** virtio_disk_init, for `nbuf` buffers on a disk that holds `store`. */
    constructor (nbuf: nat, store: seq<Block>)
      ensures Valid() && Initial(State(q, h)) && |q.busy| == nbuf && q.store == store
    {
      h := History(map[], map[], map[], [], 0, [], 0);
      var free: seq<bool> := [];
      var i := 0;
      while i < NUM
        invariant i <= NUM && |free| == i && forall k :: 0 <= k < i ==> free[k]
      {
        free := free + [true];
        i := i + 1;
      }
      q := Queue(free, seq(NUM, _ => NODESC), seq(NUM, _ => Req(false, 0)), seq(NUM, _ => Info(None, 0)),
                 seq(NUM, _ => 0), 0, seq(NUM, _ => 0), 0, 0, seq(nbuf, _ => false), seq(nbuf, _ => []), 0, {}, store);
      new;
      InitialInv(State(q, h));
    }

    /** alloc_desc: the lowest free descriptor, or -1. */
    method AllocDesc() returns (r: int)
      requires Shaped(q)
      modifies this`q
      ensures r == -1 ==> q == old(q) && FreeSet(q) == {}
      ensures r != -1 ==> 0 <= r < NUM && old(q).free[r] && (forall k :: 0 <= k < r ==> !old(q).free[k]) && q == Allocated(old(q), r)
    {
      var i := 0;
      while i < NUM
        invariant i <= NUM && q == old(q) && forall k :: 0 <= k < i ==> !q.free[k]
      {
        if q.free[i] {
          q := q.(free := q.free[i := false]);
          return i;
        }
        i := i + 1;
      }
      return -1;
    }

    /** free_desc; its two panics need an index out of range or a descriptor already free. */
    method FreeDesc(i: nat)
      requires Shaped(q) && i < NUM && !q.free[i]
      modifies this`q
      ensures q == Released(old(q), i)
    {
      q := q.(desc := q.desc[i := NODESC]);
      q := q.(free := q.free[i := true]);
    }

    /** free_chain from `i` along the links: exactly the three descriptors of the chain. */
    method FreeChain(i: nat, ghost mid: nat, ghost tail: nat)
      requires Shaped(q) && Linked(q, i, mid, tail) && !q.free[i] && !q.free[mid] && !q.free[tail]
      modifies this`q
      ensures q == Released(Released(Released(old(q), i), mid), tail)
    {
      var at, more := i, true;
      ghost var done := 0;
      while more
        invariant Shaped(q) && 0 <= done <= 3 && (more <==> done < 3)
        invariant done == 0 ==> at == i && q == old(q)
        invariant done == 1 ==> at == mid && q == Released(old(q), i)
        invariant done == 2 ==> at == tail && q == Released(Released(old(q), i), mid)
        invariant done == 3 ==> q == Released(Released(Released(old(q), i), mid), tail)
        decreases 3 - done
      {
        var flag, nxt := q.desc[at].hasNext, q.desc[at].next;
        FreeDesc(at);
        if flag {
          at := nxt;
        } else {
          more := false;
        }
        done := done + 1;
      }
    }

    /** alloc3_desc: three descriptors, or none at all when fewer are free. */
    method Alloc3Desc() returns (ok: bool, idx: seq<nat>)
      requires FreeIsBlank(q)
      modifies this`q
      ensures ok <==> |FreeSet(old(q))| >= 3
      ensures !ok ==> q == old(q)
      ensures ok ==>
                && |idx| == 3 && (forall k :: 0 <= k < 3 ==> idx[k] < NUM && old(q).free[idx[k]])
                && idx[0] != idx[1] && idx[0] != idx[2] && idx[1] != idx[2]
                && q == Allocated(Allocated(Allocated(old(q), idx[0]), idx[1]), idx[2])
    {
      idx := [];
      hide Taken3;
      TakenNone(q);
      while |idx| < 3
        invariant |idx| <= 3 && Shaped(q) && Taken3(old(q), q, idx)
        decreases 3 - |idx|
      {
        ghost var before := q;
        var d := AllocDesc();
        if d < 0 {
          TakenCount(old(q), q, idx);
          GiveBack(old(q), idx);
          return false, idx;
        }
        TakenMore(old(q), before, q, idx, d);
        idx := idx + [d];
      }
      TakenCount(old(q), q, idx);
      TakenThree(old(q), q, idx);
      ok := true;
    }

    /** alloc3_desc undoes what it took. */
    method GiveBack(ghost q0: Queue, idx: seq<nat>)
      requires Shaped(q) && Taken3(q0, q, idx)
      modifies this`q
      ensures q == q0
    {
      hide Taken3;
      assert idx[0..] == idx;
      var j := 0;
      while j < |idx|
        invariant 0 <= j <= |idx| && Shaped(q) && Taken3(q0, q, idx[j..])
      {
        TakenLess(q0, q, idx[j..]);
        FreeDesc(idx[j]);
        assert idx[j..][1..] == idx[j + 1..];
        j := j + 1;
      }
      TakenAll(q0, q, idx[j..]);
    }

    /** virtio_disk_rw until it waits: with fewer than three free descriptors it sleeps and
        nothing has changed; else the request is in the avail ring. */
    method Request(b: nat, block: nat, write: bool) returns (ok: bool, idx: seq<nat>)
      requires Valid() && b < |q.busy| && block < |q.store| && forall i :: 0 <= i < NUM ==> q.info[i].b != Some(b)
      modifies this
      ensures Valid()
      ensures ok <==> |FreeSet(old(q))| >= 3
      ensures !ok ==> q == old(q) && h == old(h)
      ensures ok ==>
                && |idx| == 3
                && var e := RwSubmit(b, block, write, idx[0], idx[1], idx[2]);
                Enabled(State(old(q), old(h)), e) && State(q, h) == Do(State(old(q), old(h)), e)
    {
      BlankWhenFree(q, h);
      hide Inv;
      ok, idx := Alloc3Desc();
      if !ok {
        return;
      }
      var i0, i1, i2 := idx[0], idx[1], idx[2];
      StepKeepsInv(State(old(q), h), RwSubmit(b, block, write, i0, i1, i2));
      SubmitAllocated(old(q), q, b, block, write, i0, i1, i2);
      hide Submit;
      hide Allocated;
      Format(b, block, write, i0, i1, i2);
      h := SubmitHistory(h, b, block, write, i0, i1, i2);
    }

    /** Format the three descriptors and publish the head; the index goes last. */
    method Format(b: nat, block: nat, write: bool, i0: nat, i1: nat, i2: nat)
      requires Shaped(q) && b < |q.busy| && i0 < NUM && i1 < NUM && i2 < NUM && i0 != i1 && i0 != i2 && i1 != i2
      requires !q.free[i0] && !q.free[i1] && !q.free[i2]
      modifies this`q
      ensures q == Submit(old(q), b, block, write, i0, i1, i2)
    {
      q := q.(ops := q.ops[i0 := Req(write, block * 2)]);
      var desc := q.desc[i0 := Desc(Header(i0), 16, true, false, i1)];
      desc := desc[i1 := Desc(Data(b), 1024, true, !write, i2)];
      q := q.(desc := desc[i2 := Desc(Status(i0), 1, false, true, 0)]);
      q := q.(busy := q.busy[b := true], info := q.info[i0 := Info(Some(b), 0xff)]);
      q := q.(avail := q.avail[q.availIdx % NUM := i0]);
      q := q.(availIdx := (q.availIdx + 1) % WRAP);
      assert q.free == q.free[i0 := false][i1 := false][i2 := false];
    }

    /** The rest of virtio_disk_rw, once b->disk is 0. */
    method Conclude(head: nat)
      requires CanFinish(q, h, head)
      modifies this
      ensures Valid() && State(q, h) == Do(State(old(q), old(h)), RwFinish(head))
    {
      FinishFrees(q, h, head);
      StepKeepsInv(State(q, h), RwFinish(head));
      hide Inv;
      ghost var c := h.chains[head];
      q := q.(info := q.info[head := q.info[head].(b := None)]);
      FreeChain(head, c.mid, c.tail);
      h := FinishHistory(h, head);
    }

    /** virtio_disk_intr: every completed request is seen, unless one failed. */
    method Intr() returns (panicked: bool)
      requires Valid()
      modifies this
      ensures Valid() && q == old(q).(busy := q.busy, seenIdx := q.seenIdx) && OnlySeen(old(h), h)
      ensures !panicked ==> q.usedIdx == q.seenIdx && forall x :: !InPhase(h.chains, x, Done)
      ensures panicked <==> exists k :: old(h).seen <= k < |h.completions| && Failed(q, h.completions[k])
    {
      hide Inv;
      hide OnlySeen;
      OnlySeenRefl(h);
      while q.seenIdx != q.usedIdx
        invariant Valid() && q == old(q).(busy := q.busy, seenIdx := q.seenIdx)
        invariant OnlySeen(old(h), h) && old(h).seen <= h.seen && h.completions == old(h).completions
        invariant forall k :: old(h).seen <= k < h.seen && k < |h.completions| ==> !Failed(q, h.completions[k])
        decreases |h.completions| - h.seen
      {
        InterruptFinds(q, h);
        InterruptKeeps(q, h);
        InvShaped(q, h);
        var id := q.used[q.seenIdx % NUM];
        if q.info[id].status != 0 {
          assert Failed(q, h.completions[h.seen]);
          return true;
        }
        OnlySeenStep(old(h), h);
        q := q.(busy := q.busy[q.info[id].b.value := false]);
        q := q.(seenIdx := (q.seenIdx + 1) % WRAP);
        h := InterruptHistory(h);
      }
      AllSeen(q, h);
      return false;
    }
  }

  /** The device reported an error for the request at `head`. */
  ghost predicate Failed(q: Queue, head: nat) {
    head < |q.info| && q.info[head].status != 0
  }

  /** Nothing happened but that completed requests were seen. */
  ghost predicate OnlySeen(h: History, h': History) {
    && h' == h.(chains := h'.chains, seen := h'.seen)
    && h'.chains.Keys == h.chains.Keys
    && forall x :: x in h.chains ==>
         h'.chains[x] == h.chains[x] || (h.chains[x].phase == Done && h'.chains[x] == h.chains[x].(phase := Seen))
  }

  lemma SubmitAllocated(q0: Queue, q: Queue, b: nat, block: nat, write: bool, i0: nat, i1: nat, i2: nat)
    requires Shaped(q0) && b < |q0.busy| && i0 < NUM && i1 < NUM && i2 < NUM
    requires q == Allocated(Allocated(Allocated(q0, i0), i1), i2)
    ensures Shaped(q) && Submit(q, b, block, write, i0, i1, i2) == Submit(q0, b, block, write, i0, i1, i2)
    ensures !q.free[i0] && !q.free[i1] && !q.free[i2] && |q.busy| == |q0.busy|
  {
    assert q.free[i0 := false][i1 := false][i2 := false] == q0.free[i0 := false][i1 := false][i2 := false];
  }

  lemma OnlySeenRefl(h: History)
    ensures OnlySeen(h, h)
  {
  }

  lemma OnlySeenStep(h0: History, h: History)
    requires OnlySeen(h0, h) && h.seen < |h.completions| && InPhase(h.chains, h.completions[h.seen], Done)
    ensures OnlySeen(h0, InterruptHistory(h))
  {
  }

  lemma InvShaped(q: Queue, h: History)
    requires Inv(q, h)
    ensures Shaped(q)
  {
  }

  lemma AllSeen(q: Queue, h: History)
    requires Inv(q, h) && q.usedIdx == q.seenIdx
    ensures h.seen == |h.completions| && forall x :: !InPhase(h.chains, x, Done)
  {
    IndicesTell(q, h);
  }

  lemma BlankWhenFree(q: Queue, h: History)
    requires Inv(q, h)
    ensures FreeIsBlank(q)
  {
    forall i | 0 <= i < NUM && q.free[i] ensures q.desc[i] == NODESC {
      assert DescOk(q, h, i);
    }
  }

  /** `q` is `q0` with the distinct free descriptors `idx` taken. */
  ghost predicate Taken3(q0: Queue, q: Queue, idx: seq<nat>) {
    && FreeIsBlank(q0) && Shaped(q)
    && (forall k :: 0 <= k < |idx| ==> idx[k] < NUM && q0.free[idx[k]])
    && (forall j, k :: 0 <= j < k < |idx| ==> idx[j] != idx[k])
    && (forall i: nat :: i < NUM ==> q.free[i] == (q0.free[i] && i !in idx))
    && q == q0.(free := q.free)
  }

  lemma TakenNone(q: Queue)
    requires FreeIsBlank(q)
    ensures Taken3(q, q, [])
  {
  }

  lemma TakenMore(q0: Queue, q: Queue, q': Queue, idx: seq<nat>, d: nat)
    requires Taken3(q0, q, idx) && d < NUM && q.free[d] && q' == Allocated(q, d)
    ensures Taken3(q0, q', idx + [d])
  {
  }

  lemma TakenLess(q0: Queue, q: Queue, idx: seq<nat>)
    requires Taken3(q0, q, idx) && idx != []
    ensures idx[0] < NUM && !q.free[idx[0]] && Taken3(q0, Released(q, idx[0]), idx[1..])
  {
    assert idx == [idx[0]] + idx[1..];
    assert Released(q, idx[0]).desc == q.desc;
  }

  lemma TakenAll(q0: Queue, q: Queue, idx: seq<nat>)
    requires Taken3(q0, q, idx) && idx == []
    ensures q == q0
  {
    assert q.free == q0.free;
  }

  lemma TakenThree(q0: Queue, q: Queue, idx: seq<nat>)
    requires Taken3(q0, q, idx) && |idx| == 3
    ensures forall k :: 0 <= k < 3 ==> idx[k] < NUM && q0.free[idx[k]]
    ensures idx[0] != idx[1] && idx[0] != idx[2] && idx[1] != idx[2]
    ensures q == Allocated(Allocated(Allocated(q0, idx[0]), idx[1]), idx[2])
  {
    assert idx == [idx[0], idx[1], idx[2]];
    assert q.free == q0.free[idx[0] := false][idx[1] := false][idx[2] := false];
  }

  lemma {:induction false} TakenCount(q0: Queue, q: Queue, idx: seq<nat>)
    requires Taken3(q0, q, idx)
    ensures |FreeSet(q0)| == |FreeSet(q)| + |idx|
    decreases |idx|
  {
    if idx == [] {
      assert FreeSet(q0) == FreeSet(q);
    } else {
      var n := |idx| - 1;
      var q1 := q.(free := q.free[idx[n] := true]);
      assert idx == idx[..n] + [idx[n]];
      assert Taken3(q0, q1, idx[..n]);
      TakenCount(q0, q1, idx[..n]);
      assert FreeSet(q1) == FreeSet(q) + {idx[n]};
    }
  }
}

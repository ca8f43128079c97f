/**
  What a call of virtio_disk_rw does, over whole runs of the driver, the device and the
  interrupt handler: a read returns what the last completed write of the block submitted.
 */
module VirtioRuns {
  import opened Virtqueue

  /** The device has carried the request out. */
  predicate Over(c: Chain) {
    c.phase == Done || c.phase == Seen
  }

  /** The step leaves the request behind `head` as it is; only its own completion changes the
      data of its buffer, or that it is over. */
  ghost predicate ChainKept(s: State, e: Event, s': State, head: nat)
    requires head in s.h.chains && head in s'.h.chains
  {
    var c, c', q, q' := s.h.chains[head], s'.h.chains[head], s.q, s'.q;
    && c.buf < |q.data| && c.block < |q.store| && |q'.data| == |q.data| && |q'.store| == |q.store|
    && c'.(phase := c.phase) == c
    && if e.DeviceCompletes? && e.head == head
       then && !Over(c) && Over(c')
            && (if c.write then q'.data == q.data && q'.store == q.store[c.block := q.data[c.buf]]
                else q'.data == q.data[c.buf := q.store[c.block]] && q'.store == q.store)
       else q'.data[c.buf] == q.data[c.buf] && (Over(c) <==> Over(c'))
  }

  lemma StepKeepsChain(s: State, e: Event, head: nat)
    requires Inv(s.q, s.h) && Enabled(s, e) && head in s.h.chains && head in Do(s, e).h.chains
    ensures ChainKept(s, e, Do(s, e), head)
  {
    if e.DeviceCompletes? {
      CompletesOwn(s, e, head);
    } else {
      QuietKeepsChain(s, e, head);
    }
    hide Inv;
    hide ChainKept;
  }

  /** Steps that move no data but that of a buffer not in use. */
  lemma QuietKeepsChain(s: State, e: Event, head: nat)
    requires Inv(s.q, s.h) && Enabled(s, e) && !e.DeviceCompletes? && head in s.h.chains && head in Do(s, e).h.chains
    ensures ChainKept(s, e, Do(s, e), head)
  {
    ChainBlock(s.q, s.h, head);
    BufferRecorded(s.q, s.h, head);
    QuietData(s, e, head);
    QuietPhase(s, e, head);
    hide Inv;
    hide Do;
    hide Enabled;
  }

  lemma QuietData(s: State, e: Event, head: nat)
    requires Inv(s.q, s.h) && Enabled(s, e) && !e.DeviceCompletes? && head in s.h.chains && s.h.chains[head].buf < |s.q.data|
    ensures var q' := Do(s, e).q; q'.store == s.q.store && |q'.data| == |s.q.data| && q'.data[s.h.chains[head].buf] == s.q.data[s.h.chains[head].buf]
  {
    BufferRecorded(s.q, s.h, head);
    if e.Fill? {
      NotInUse(s.q, s.h, e.b);
    }
    hide ChainOk;
    hide DescOk;
    hide BufOk;
    hide RingOk;
  }

  ghost predicate SamePhase(s: State, s': State, head: nat)
    requires head in s.h.chains && head in s'.h.chains
  {
    var c, c' := s.h.chains[head], s'.h.chains[head];
    c'.(phase := c.phase) == c && (Over(c) <==> Over(c'))
  }

  lemma QuietPhase(s: State, e: Event, head: nat)
    requires Inv(s.q, s.h) && Enabled(s, e) && !e.DeviceCompletes? && head in s.h.chains && head in Do(s, e).h.chains
    ensures SamePhase(s, Do(s, e), head)
  {
    hide Inv;
    if e.DeviceTakes? || e.InterruptTurn? {
      MovesPhase(s, e, head);
      hide SamePhase;
    } else if e.RwSubmit? {
      FreeUnowned(s.q, s.h, e.i0);
    }
  }

  lemma MovesPhase(s: State, e: Event, head: nat)
    requires Inv(s.q, s.h) && Enabled(s, e) && (e.DeviceTakes? || e.InterruptTurn?) && head in s.h.chains
    ensures head in Do(s, e).h.chains && SamePhase(s, Do(s, e), head)
  {
    hide Inv;
    if e.DeviceTakes? {
      TakeKeeps(s.q, s.h);
      TakesPosted(s.q, s.h);
    } else {
      InterruptFinds(s.q, s.h);
      InterruptKeeps(s.q, s.h);
    }
  }

  lemma CompletesOwn(s: State, e: Event, head: nat)
    requires Inv(s.q, s.h) && e.DeviceCompletes? && Enabled(s, e) && head in s.h.chains
    ensures head in Do(s, e).h.chains && ChainKept(s, e, Do(s, e), head)
  {
    var q, h := s.q, s.h;
    ChainBlock(q, h, head);
    BufferRecorded(q, h, head);
    DeviceSees(q, h, e.head, e.status);
    BufferRecorded(q, h, e.head);
    assert InPhase(h.chains, e.head, Taken);
    assert Do(s, e) == State(Complete(q, e.head, e.status), CompleteHistory(h, e.head));
    hide Inv;
    hide Do;
    hide Readable;
    hide Complete;
  }

  lemma ChainBlock(q: Queue, h: History, x: nat)
    requires Inv(q, h) && x in h.chains
    ensures h.chains[x].block < |q.store|
  {
    assert ChainOk(q, h, x);
  }

  lemma BufferRecorded(q: Queue, h: History, x: nat)
    requires Inv(q, h) && x in h.chains
    ensures h.chains[x].buf < |q.data| && h.chains[x].buf in h.who && h.who[h.chains[x].buf] == x
  {
    assert ChainOk(q, h, x);
  }

  lemma TakesPosted(q: Queue, h: History)
    requires Inv(q, h) && h.taken < |h.submits|
    ensures InPhase(h.chains, h.submits[h.taken], Posted)
  {
  }

  /** Event i of a run made the request that chain `head` of state k is, and event j, if the
      request is over, carried it out: a write put the data the buffer had at i into the block,
      a read gave the buffer what the block held at j. */
  ghost predicate Served(ss: seq<State>, es: seq<Event>, k: nat, head: nat, i: nat, j: nat)
    requires |ss| == |es| + 1 && k <= |es| && head in ss[k].h.chains
  {
    var c := ss[k].h.chains[head];
    && i < k && es[i] == RwSubmit(c.buf, c.block, c.write, head, c.mid, c.tail)
    && (forall m :: i < m <= k ==> head in ss[m].h.chains)
    && c.buf < |ss[i].q.data| && c.buf < |ss[k].q.data|
    && (!Over(c) || c.write ==> ss[k].q.data[c.buf] == ss[i].q.data[c.buf])
    && (Over(c) ==>
          && i < j < k && es[j].DeviceCompletes? && es[j].head == head && c.block < |ss[j].q.store|
          && (if c.write then ss[j + 1].q.store == ss[j].q.store[c.block := ss[i].q.data[c.buf]]
              else ss[j + 1].q.store == ss[j].q.store && ss[k].q.data[c.buf] == ss[j].q.store[c.block]))
  }

  lemma {:induction false} EveryChainServed(ss: seq<State>, es: seq<Event>, k: nat, head: nat) returns (i: nat, j: nat)
    requires IsRun(ss, es) && k <= |es| && head in ss[k].h.chains
    ensures Served(ss, es, k, head, i, j)
  {
    if k == 0 {
      assert false;
    } else {
      RunKeepsInv(ss, es, k - 1);
      assert Next(ss[k - 1], es[k - 1], ss[k]);
      hide IsRun;
      hide Do;
      hide Enabled;
      hide Inv;
      if head in ss[k - 1].h.chains {
        i, j := EveryChainServed(ss, es, k - 1, head);
        StepKeepsChain(ss[k - 1], es[k - 1], head);
        if es[k - 1].DeviceCompletes? && es[k - 1].head == head {
          assert Served(ss, es, k - 1, head, i, 0);
          j := k - 1;
        }
        hide Served;
        hide ChainKept;
        ServedStep(ss, es, k - 1, head, i, j);
      } else {
        i, j := k - 1, 0;
        JustSubmitted(ss[k - 1], es[k - 1], head);
      }
    }
  }

  lemma ServedStep(ss: seq<State>, es: seq<Event>, k: nat, head: nat, i: nat, j: nat)
    requires |ss| == |es| + 1 && k < |es| && head in ss[k].h.chains && head in ss[k + 1].h.chains
    requires ChainKept(ss[k], es[k], ss[k + 1], head)
    requires if es[k].DeviceCompletes? && es[k].head == head then j == k && Served(ss, es, k, head, i, 0)
             else Served(ss, es, k, head, i, j)
    ensures Served(ss, es, k + 1, head, i, j)
  {
  }

  lemma JustSubmitted(s: State, e: Event, head: nat)
    requires Inv(s.q, s.h) && Enabled(s, e) && head !in s.h.chains && head in Do(s, e).h.chains
    ensures var c := Do(s, e).h.chains[head];
            && e == RwSubmit(c.buf, c.block, c.write, head, c.mid, c.tail) && !Over(c)
            && c.buf < |s.q.data| && Do(s, e).q.data == s.q.data
  {
    hide ChainOk;
    hide DescOk;
    hide BufOk;
    hide RingOk;
    match e
    case RwSubmit(b, block, w, i0, i1, i2) =>
    case DeviceTakes => TakeKeeps(s.q, s.h);
    case DeviceCompletes(x, status) => CompleteKeeps(s.q, s.h, x, status);
    case InterruptTurn => InterruptKeeps(s.q, s.h);
    case RwFinish(x) =>
    case Fill(b, d) =>
  }

  /** When a call of virtio_disk_rw returns, in any run, the device has carried its request out
      once in between: see Served. */
  lemma CallServed(ss: seq<State>, es: seq<Event>, k: nat, head: nat) returns (i: nat, j: nat)
    requires IsRun(ss, es) && k < |es| && es[k] == RwFinish(head)
    ensures head in ss[k].h.chains && Over(ss[k].h.chains[head]) && Served(ss, es, k, head, i, j)
  {
    RunKeepsInv(ss, es, k);
    assert Next(ss[k], es[k], ss[k + 1]);
    FinishFrees(ss[k].q, ss[k].h, head);
    i, j := EveryChainServed(ss, es, k, head);
  }

  /** Event e carries out a write of the block. */
  ghost predicate Writes(s: State, e: Event, block: nat) {
    e.DeviceCompletes? && e.head in s.h.chains && s.h.chains[e.head].write && s.h.chains[e.head].block == block
  }

  /** A block changes only when a write of it is carried out. */
  lemma StoreKept(s: State, e: Event, block: nat)
    requires Inv(s.q, s.h) && Enabled(s, e) && block < |s.q.store|
    ensures |Do(s, e).q.store| == |s.q.store|
    ensures !Writes(s, e, block) ==> Do(s, e).q.store[block] == s.q.store[block]
  {
    hide RingOk;
    hide ChainOk;
    hide DescOk;
    hide BufOk;
    match e
    case DeviceCompletes(x, status) =>
      DeviceSees(s.q, s.h, x, status);
      hide Readable;
    case DeviceTakes => TakeKeeps(s.q, s.h);
    case InterruptTurn => InterruptFinds(s.q, s.h);
    case _ =>
  }

  /** In any state of any run a block holds what it held at first, if no write of it was carried
      out, and otherwise the data that the last one carried out was submitted with. */
  lemma {:induction false} BlockHolds(ss: seq<State>, es: seq<Event>, k: nat, block: nat) returns (w: int, i: nat)
    requires IsRun(ss, es) && k <= |es| && block < |ss[0].q.store|
    ensures -1 <= w < k && |ss[k].q.store| == |ss[0].q.store|
    ensures forall m :: w < m < k ==> !Writes(ss[m], es[m], block)
    ensures w == -1 ==> ss[k].q.store[block] == ss[0].q.store[block]
    ensures w >= 0 ==> Writes(ss[w], es[w], block) && Carries(ss, es, w, i) && es[i].block == block
    ensures w >= 0 ==> ss[k].q.store[block] == ss[i].q.data[es[i].b]
  {
    if k == 0 {
      w, i := -1, 0;
    } else {
      w, i := BlockHolds(ss, es, k - 1, block);
      RunKeepsInv(ss, es, k - 1);
      assert Next(ss[k - 1], es[k - 1], ss[k]);
      StoreKept(ss[k - 1], es[k - 1], block);
      if Writes(ss[k - 1], es[k - 1], block) {
        w := k - 1;
        i := WrittenData(ss, es, k - 1, block);
      }
    }
  }

  /** Event w carries out the write that event i submitted. */
  ghost predicate Carries(ss: seq<State>, es: seq<Event>, w: nat, i: nat)
    requires |ss| == |es| + 1
  {
    && i < w < |es| && es[w].DeviceCompletes? && es[i].RwSubmit? && es[i].write
    && es[i].i0 == es[w].head && es[i].b < |ss[i].q.data|
    && forall m :: i < m <= w ==> es[w].head in ss[m].h.chains
  }

  lemma WrittenData(ss: seq<State>, es: seq<Event>, w: nat, block: nat) returns (i: nat)
    requires IsRun(ss, es) && w < |es| && Writes(ss[w], es[w], block) && block < |ss[w].q.store|
    ensures Carries(ss, es, w, i) && es[i].block == block
    ensures block < |ss[w + 1].q.store| && ss[w + 1].q.store[block] == ss[i].q.data[es[i].b]
  {
    RunKeepsInv(ss, es, w);
    assert Next(ss[w], es[w], ss[w + 1]);
    var head := es[w].head;
    var j;
    i, j := EveryChainServed(ss, es, w, head);
    hide IsRun;
    hide RingOk;
    assert InPhase(ss[w].h.chains, head, Taken);
    CompleteKeeps(ss[w].q, ss[w].h, head, es[w].status);
    StepKeepsChain(ss[w], es[w], head);
  }

  /** A call of virtio_disk_rw that reads returns, in any run, what the block held at first or
      what the last write of it carried out before the read was submitted with. */
  lemma ReadReturnsLastWrite(ss: seq<State>, es: seq<Event>, k: nat, head: nat) returns (j: nat, w: int, i: nat)
    requires IsRun(ss, es) && k < |es| && es[k] == RwFinish(head)
    requires head in ss[k].h.chains && !ss[k].h.chains[head].write
    ensures j < k && es[j].DeviceCompletes? && es[j].head == head
    ensures var c := ss[k].h.chains[head];
            && -1 <= w < j && (forall m :: w < m < j ==> !Writes(ss[m], es[m], c.block))
            && c.block < |ss[0].q.store| && c.buf < |ss[k].q.data|
            && (w == -1 ==> ss[k].q.data[c.buf] == ss[0].q.store[c.block])
            && (w >= 0 ==> Writes(ss[w], es[w], c.block) && Carries(ss, es, w, i)
                           && es[i].block == c.block && ss[k].q.data[c.buf] == ss[i].q.data[es[i].b])
  {
    var i0;
    i0, j := CallServed(ss, es, k, head);
    var block := ss[k].h.chains[head].block;
    SameSize(ss, es, j);
    w, i := BlockHolds(ss, es, j, block);
  }

  /** The number of blocks never changes. */
  lemma {:induction false} SameSize(ss: seq<State>, es: seq<Event>, k: nat)
    requires IsRun(ss, es) && k <= |es|
    ensures |ss[k].q.store| == |ss[0].q.store|
  {
    if k > 0 {
      SameSize(ss, es, k - 1);
      RunKeepsInv(ss, es, k - 1);
      assert Next(ss[k - 1], es[k - 1], ss[k]);
      var s, e := ss[k - 1], es[k - 1];
      if e.DeviceCompletes? {
        DeviceSees(s.q, s.h, e.head, e.status);
      }
    }
  }
}

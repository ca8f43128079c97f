/**
  The virtio disk driver (kernel/virtio_disk.c): descriptors, the avail and used rings and
  their 16-bit indices, shared between the driver, the device and the interrupt handler.
  The device's side follows sections 2.6 and 5.2 of VIRTIO 1.1.
 */
module Virtqueue {
  import opened Util

  const NUM: nat := 8
  const WRAP: nat := 0x1_0000

  type Block = seq<int>

  /** What a descriptor's address points at. */
  datatype Target = Nowhere | Header(op: nat) | Data(buf: nat) | Status(op: nat)

  /** hasNext and devWrites are VRING_DESC_F_NEXT and VRING_DESC_F_WRITE. */
  datatype Desc = Desc(addr: Target, len: nat, hasNext: bool, devWrites: bool, next: nat)

  const NODESC: Desc := Desc(Nowhere, 0, false, false, 0)

  /** struct virtio_blk_req. */
  datatype Req = Req(write: bool, sector: nat)

  datatype Info = Info(b: Option<nat>, status: nat)

  /** The memory the driver and the device share, the driver's own fields, b->disk and the
      data of each buffer, and the device: where it is in the avail ring, the chains it is
      working on, and its blocks. */
  datatype Queue = Queue(
    free: seq<bool>, desc: seq<Desc>, ops: seq<Req>, info: seq<Info>,
    avail: seq<nat>, availIdx: nat, used: seq<nat>, usedIdx: nat, seenIdx: nat,
    busy: seq<bool>, data: seq<Block>,
    devIdx: nat, working: set<nat>, store: seq<Block>)

  /** Where a request is: in the avail ring, with the device, in the used ring, or seen by the
      interrupt handler. */
  datatype Phase = Posted | Taken | Done | Seen

  /** A request and the descriptors after its head. */
  datatype Chain = Chain(mid: nat, tail: nat, buf: nat, block: nat, write: bool, phase: Phase)

  /** What has happened so far: the chains in use by head, the head each descriptor in use
      belongs to, the head of each buffer in use, and all heads ever put into each ring with
      how many the other side has consumed. */
  datatype History = History(
    chains: map<nat, Chain>, own: map<nat, nat>, who: map<nat, nat>,
    submits: seq<nat>, taken: nat, completions: seq<nat>, seen: nat)

  // ---------- the invariant ----------

  ghost predicate Shaped(q: Queue) {
    && |q.free| == |q.desc| == |q.ops| == |q.info| == |q.avail| == |q.used| == NUM
    && |q.busy| == |q.data|
  }

  /** The three descriptors of a request as virtio_disk_rw formats them. */
  ghost predicate Formatted(q: Queue, head: nat, c: Chain)
    requires Shaped(q)
  {
    && head < NUM && c.mid < NUM && c.tail < NUM && head != c.mid && head != c.tail && c.mid != c.tail
    && q.desc[head] == Desc(Header(head), 16, true, false, c.mid)
    && q.desc[c.mid] == Desc(Data(c.buf), 1024, true, !c.write, c.tail)
    && q.desc[c.tail] == Desc(Status(head), 1, false, true, 0)
    && q.ops[head] == Req(c.write, 2 * c.block)
    && q.info[head].b == Some(c.buf)
    && c.buf < |q.busy| && c.block < |q.store|
  }

  ghost predicate ChainOk(q: Queue, h: History, head: nat)
    requires Shaped(q) && head in h.chains
  {
    var c := h.chains[head];
    && Formatted(q, head, c)
    && head in h.own && c.mid in h.own && c.tail in h.own
    && h.own[head] == h.own[c.mid] == h.own[c.tail] == head
    && c.buf in h.who && h.who[c.buf] == head
  }

  /** A descriptor is free and blank, or belongs to one chain. */
  ghost predicate DescOk(q: Queue, h: History, i: nat)
    requires Shaped(q) && i < NUM
  {
    if q.free[i] then i !in h.own && q.desc[i] == NODESC
    else
      && i in h.own && h.own[i] in h.chains
      && (i == h.own[i] || i == h.chains[h.own[i]].mid || i == h.chains[h.own[i]].tail)
  }

  /** b->disk is 1 exactly while a request for the buffer is not yet seen. */
  ghost predicate BufOk(q: Queue, h: History, b: nat)
    requires Shaped(q) && b < |q.busy|
  {
    && (b in h.who ==> h.who[b] in h.chains && h.chains[h.who[b]].buf == b)
    && (q.busy[b] <==> b in h.who && h.chains[h.who[b]].phase != Seen)
  }

  type Chains = map<nat, Chain>

  /** Only chain `x` differs. */
  ghost predicate Elsewhere(chains: Chains, chains': Chains, x: nat) {
    forall y :: y != x ==> (y in chains <==> y in chains') && (y in chains ==> chains'[y] == chains[y])
  }

  ghost predicate InPhase(chains: Chains, x: nat, p: Phase) {
    x in chains && chains[x].phase == p
  }

  /** `ring` still holds the entries from..|all|-1, which are the distinct heads in phase `p`. */
  ghost predicate RingOk(chains: Chains, ring: seq<nat>, all: seq<nat>, from: nat, p: Phase)
    requires |ring| == NUM
  {
    && from <= |all|
    && (forall k :: from <= k < |all| ==> InPhase(chains, all[k], p) && ring[k % NUM] == all[k])
    && (forall j, k :: from <= j < k < |all| ==> all[j] != all[k])
    && (forall x :: InPhase(chains, x, p) ==> x in all[from..])
  }

  /** A chain that enters the phase is added to a ring with room for it. */
  lemma RingPush(chains: Chains, chains': Chains, ring: seq<nat>, all: seq<nat>, from: nat, p: Phase, x: nat)
    requires |ring| == NUM && RingOk(chains, ring, all, from, p) && |all| < from + NUM
    requires Elsewhere(chains, chains', x) && !InPhase(chains, x, p) && InPhase(chains', x, p)
    ensures RingOk(chains', ring[|all| % NUM := x], all + [x], from, p)
  {
    var all', ring' := all + [x], ring[|all| % NUM := x];
    assert all'[from..] == all[from..] + [x];
    forall k | from <= k < |all'| ensures InPhase(chains', all'[k], p) && ring'[k % NUM] == all'[k] {
      if k < |all| {
        SlotsDiffer(k, |all|);
        assert InPhase(chains, all[k], p);
      }
    }
    forall y | InPhase(chains', y, p) ensures y in all'[from..] {
      assert y != x ==> InPhase(chains, y, p);
    }
  }

  lemma SlotsDiffer(j: nat, k: nat)
    requires j < k < j + NUM
    ensures j % NUM != k % NUM
  {
  }

  /** The chain at the front leaves the phase. */
  lemma RingPop(chains: Chains, chains': Chains, ring: seq<nat>, all: seq<nat>, from: nat, p: Phase)
    requires |ring| == NUM && RingOk(chains, ring, all, from, p) && from < |all|
    requires Elsewhere(chains, chains', all[from]) && !InPhase(chains', all[from], p)
    ensures RingOk(chains', ring, all, from + 1, p)
  {
    forall k | from + 1 <= k < |all| ensures InPhase(chains', all[k], p) {
      assert InPhase(chains, all[k], p);
    }
    forall y | InPhase(chains', y, p) ensures y in all[from + 1..] {
      assert InPhase(chains, y, p);
      assert all[from..] == [all[from]] + all[from + 1..];
    }
  }

  /** A chain that is not in the phase, before or after, does not concern the ring. */
  lemma RingKeeps(chains: Chains, chains': Chains, ring: seq<nat>, all: seq<nat>, from: nat, p: Phase, x: nat)
    requires |ring| == NUM && RingOk(chains, ring, all, from, p)
    requires Elsewhere(chains, chains', x) && !InPhase(chains, x, p) && !InPhase(chains', x, p)
    ensures RingOk(chains', ring, all, from, p)
  {
    forall k | from <= k < |all| ensures InPhase(chains', all[k], p) {
      assert InPhase(chains, all[k], p);
    }
    forall y | InPhase(chains', y, p) ensures y in all[from..] {
      assert InPhase(chains, y, p);
    }
  }

  /** The part of the invariant about the rings, their indices and the device. */
  ghost predicate RingsOk(q: Queue, h: History)
    requires Shaped(q)
  {
    && RingOk(h.chains, q.avail, h.submits, h.taken, Posted)
    && RingOk(h.chains, q.used, h.completions, h.seen, Done)
    && (forall x: nat :: x in q.working <==> InPhase(h.chains, x, Taken))
    && q.availIdx == |h.submits| % WRAP && q.devIdx == h.taken % WRAP
    && q.usedIdx == |h.completions| % WRAP && q.seenIdx == h.seen % WRAP
  }

  ghost predicate Inv(q: Queue, h: History) {
    && Shaped(q)
    && (forall head :: head in h.chains ==> ChainOk(q, h, head))
    && (forall i: nat :: i < NUM ==> DescOk(q, h, i))
    && (forall b: nat :: b < |q.busy| ==> BufOk(q, h, b))
    && RingsOk(q, h)
  }

  // ---------- at most two requests at a time ----------

  /** Three chains would need nine descriptors. */
  lemma AtMostTwo(q: Queue, h: History, a: nat, b: nat, c: nat)
    requires Inv(q, h) && a in h.chains && b in h.chains && c in h.chains
    ensures a == b || a == c || b == c
  {
    if a != b && a != c && b != c {
      assert ChainOk(q, h, a) && ChainOk(q, h, b) && ChainOk(q, h, c);
      var s := [a, h.chains[a].mid, h.chains[a].tail, b, h.chains[b].mid, h.chains[b].tail, c, h.chains[c].mid, h.chains[c].tail];
      Pigeonhole(s, NUM);
    }
  }

  /** So neither ring ever holds more than two entries nobody consumed. */
  lemma RingShort(q: Queue, h: History)
    requires Inv(q, h)
    ensures h.taken <= |h.submits| <= h.taken + 2 && h.seen <= |h.completions| <= h.seen + 2
  {
    if |h.submits| > h.taken + 2 {
      AtMostTwo(q, h, h.submits[h.taken], h.submits[h.taken + 1], h.submits[h.taken + 2]);
    }
    if |h.completions| > h.seen + 2 {
      AtMostTwo(q, h, h.completions[h.seen], h.completions[h.seen + 1], h.completions[h.seen + 2]);
    }
  }

  /** Comparing the 16-bit indices tells exactly whether anything is left to consume, across
      any number of wrap-arounds. */
  lemma IndicesTell(q: Queue, h: History)
    requires Inv(q, h)
    ensures q.availIdx != q.devIdx <==> h.taken < |h.submits|
    ensures q.usedIdx != q.seenIdx <==> h.seen < |h.completions|
    ensures q.availIdx % NUM == |h.submits| % NUM && q.devIdx % NUM == h.taken % NUM
    ensures q.usedIdx % NUM == |h.completions| % NUM && q.seenIdx % NUM == h.seen % NUM
  {
    RingShort(q, h);
    WrapKeepsSlot(|h.submits|);
    WrapKeepsSlot(h.taken);
    WrapKeepsSlot(|h.completions|);
    WrapKeepsSlot(h.seen);
  }

  lemma WrapKeepsSlot(n: nat)
    ensures n % WRAP % NUM == n % NUM
  {
    var a, b := n / WRAP, n % WRAP;
    assert n == NUM * (8192 * a + b / NUM) + b % NUM;
  }

  // ---------- the steps ----------

  function Inc(idx: nat): nat {
    (idx + 1) % WRAP
  }

  lemma IncIs(n: nat)
    ensures Inc(n % WRAP) == (n + 1) % WRAP
  {
    var a, b := n / WRAP, n % WRAP;
    assert n + 1 == if b + 1 == WRAP then WRAP * (a + 1) else WRAP * a + (b + 1);
  }

  /** virtio_disk_rw up to the queue notification, with free descriptors i0, i1, i2. */
  function Submit(q: Queue, b: nat, block: nat, write: bool, i0: nat, i1: nat, i2: nat): Queue
    requires |q.free| == |q.desc| == |q.ops| == |q.info| == |q.avail| == NUM && b < |q.busy|
    requires i0 < NUM && i1 < NUM && i2 < NUM
  {
    q.(free := q.free[i0 := false][i1 := false][i2 := false],
       ops := q.ops[i0 := Req(write, 2 * block)],
       desc := q.desc[i0 := Desc(Header(i0), 16, true, false, i1)]
                     [i1 := Desc(Data(b), 1024, true, !write, i2)]
                     [i2 := Desc(Status(i0), 1, false, true, 0)],
       info := q.info[i0 := Info(Some(b), 0xff)],
       busy := q.busy[b := true],
       avail := q.avail[q.availIdx % NUM := i0],
       availIdx := Inc(q.availIdx))
  }

  ghost function SubmitHistory(h: History, b: nat, block: nat, write: bool, i0: nat, i1: nat, i2: nat): History {
    h.(chains := h.chains[i0 := Chain(i1, i2, b, block, write, Posted)],
       own := h.own[i0 := i0][i1 := i0][i2 := i0], who := h.who[b := i0],
       submits := h.submits + [i0])
  }

  /** The device takes the next entry of the avail ring. */
  function Take(q: Queue): Queue
    requires |q.avail| == NUM
  {
    q.(devIdx := Inc(q.devIdx), working := q.working + {q.avail[q.devIdx % NUM]})
  }

  ghost function SetPhase(h: History, head: nat, p: Phase): map<nat, Chain>
    requires head in h.chains
  {
    h.chains[head := h.chains[head].(phase := p)]
  }

  ghost function TakeHistory(h: History): History
    requires h.taken < |h.submits| && h.submits[h.taken] in h.chains
  {
    h.(chains := SetPhase(h, h.submits[h.taken], Taken), taken := h.taken + 1)
  }

  /** The device can follow the chain from `head`: header, data, status, each link in range
      and each buffer of the kind it should be. */
  predicate Readable(q: Queue, head: nat) {
    && |q.desc| == |q.ops| == |q.info| == NUM && head < NUM
    && var d0 := q.desc[head];
    && d0.hasNext && d0.next < NUM && d0.addr.Header? && d0.addr.op < NUM
    && var d1 := q.desc[d0.next];
    && d1.hasNext && d1.next < NUM && d1.addr.Data? && d1.addr.buf < |q.data|
    && d1.devWrites == !q.ops[d0.addr.op].write && q.ops[d0.addr.op].sector / 2 < |q.store|
    && var d2 := q.desc[d1.next];
    && !d2.hasNext && d2.addr.Status? && d2.addr.op < NUM && d2.devWrites
  }

  /** The device carries out the request it finds in the chain, writes the status byte and
      adds the head to the used ring. */
  function Complete(q: Queue, head: nat, status: nat): Queue
    requires Readable(q, head) && |q.used| == NUM
  {
    var d0 := q.desc[head];
    var d1 := q.desc[d0.next];
    var req := q.ops[d0.addr.op];
    var buf, block, st := d1.addr.buf, req.sector / 2, q.desc[d1.next].addr.op;
    q.(data := if req.write then q.data else q.data[buf := q.store[block]],
       store := if req.write then q.store[block := q.data[buf]] else q.store,
       info := q.info[st := q.info[st].(status := status)],
       used := q.used[q.usedIdx % NUM := head], usedIdx := Inc(q.usedIdx), working := q.working - {head})
  }

  ghost function CompleteHistory(h: History, head: nat): History
    requires head in h.chains
  {
    h.(chains := SetPhase(h, head, Done), completions := h.completions + [head])
  }

  /** One turn of virtio_disk_intr. */
  function Interrupt(q: Queue): Queue
    requires |q.used| == |q.info| == NUM
  {
    var id := q.used[q.seenIdx % NUM];
    if id < NUM && q.info[id].b.Some? && q.info[id].b.value < |q.busy|
    then q.(busy := q.busy[q.info[id].b.value := false], seenIdx := Inc(q.seenIdx))
    else q
  }

  ghost function InterruptHistory(h: History): History
    requires h.seen < |h.completions| && h.completions[h.seen] in h.chains
  {
    h.(chains := SetPhase(h, h.completions[h.seen], Seen), seen := h.seen + 1)
  }

  /** The end of virtio_disk_rw: forget the buffer and free the chain's descriptors. */
  function Finish(q: Queue, i0: nat, i1: nat, i2: nat): Queue
    requires |q.free| == |q.desc| == |q.info| == NUM && i0 < NUM && i1 < NUM && i2 < NUM
  {
    q.(info := q.info[i0 := q.info[i0].(b := None)],
       free := q.free[i0 := true][i1 := true][i2 := true],
       desc := q.desc[i0 := NODESC][i1 := NODESC][i2 := NODESC])
  }

  ghost function FinishHistory(h: History, head: nat): History
    requires head in h.chains
  {
    var c := h.chains[head];
    h.(chains := h.chains - {head}, own := h.own - {head, c.mid, c.tail}, who := h.who - {c.buf})
  }

  // ---------- each step keeps the invariant ----------

  ghost predicate CanSubmit(q: Queue, h: History, b: nat, block: nat, i0: nat, i1: nat, i2: nat) {
    && Inv(q, h) && b < |q.busy| && b !in h.who && block < |q.store|
    && i0 < NUM && i1 < NUM && i2 < NUM && i0 != i1 && i0 != i2 && i1 != i2
    && q.free[i0] && q.free[i1] && q.free[i2]
  }

  lemma SubmitKeeps(q: Queue, h: History, b: nat, block: nat, write: bool, i0: nat, i1: nat, i2: nat)
    requires CanSubmit(q, h, b, block, i0, i1, i2)
    ensures Inv(Submit(q, b, block, write, i0, i1, i2), SubmitHistory(h, b, block, write, i0, i1, i2))
  {
    var q', h' := Submit(q, b, block, write, i0, i1, i2), SubmitHistory(h, b, block, write, i0, i1, i2);
    FreeUnowned(q, h, i0);
    FreeUnowned(q, h, i1);
    FreeUnowned(q, h, i2);
    SubmitRings(q, h, b, block, write, i0, i1, i2);
    forall x | x in h'.chains ensures ChainOk(q', h', x) {
      SubmitChain(q, h, b, block, write, i0, i1, i2, x);
    }
    forall i: nat | i < NUM ensures DescOk(q', h', i) {
      SubmitDesc(q, h, b, block, write, i0, i1, i2, i);
    }
    forall c: nat | c < |q'.busy| ensures BufOk(q', h', c) {
      SubmitBuf(q, h, b, block, write, i0, i1, i2, c);
    }
    IncIs(|h.submits|);
    hide Inc;
    hide ChainOk;
    hide DescOk;
    hide BufOk;
    hide RingOk;
  }

  lemma FreeUnowned(q: Queue, h: History, i: nat)
    requires Inv(q, h) && i < NUM && q.free[i]
    ensures i !in h.own && i !in h.chains
  {
    assert DescOk(q, h, i);
    assert i in h.chains ==> ChainOk(q, h, i);
  }

  lemma SubmitRings(q: Queue, h: History, b: nat, block: nat, write: bool, i0: nat, i1: nat, i2: nat)
    requires CanSubmit(q, h, b, block, i0, i1, i2) && i0 !in h.chains
    ensures var q', h' := Submit(q, b, block, write, i0, i1, i2), SubmitHistory(h, b, block, write, i0, i1, i2);
            && RingOk(h'.chains, q'.avail, h'.submits, h'.taken, Posted)
            && RingOk(h'.chains, q'.used, h'.completions, h'.seen, Done)
            && (forall x: nat :: x in q'.working <==> InPhase(h'.chains, x, Taken))
  {
    hide Inc;
    hide ChainOk;
    hide DescOk;
    hide BufOk;
    var h' := SubmitHistory(h, b, block, write, i0, i1, i2);
    RingShort(q, h);
    IndicesTell(q, h);
    RingPush(h.chains, h'.chains, q.avail, h.submits, h.taken, Posted, i0);
    RingKeeps(h.chains, h'.chains, q.used, h.completions, h.seen, Done, i0);
    hide RingOk;
    forall x: nat ensures x in q.working <==> InPhase(h'.chains, x, Taken) {
      assert x in q.working <==> InPhase(h.chains, x, Taken);
    }
  }

  lemma SubmitChain(q: Queue, h: History, b: nat, block: nat, write: bool, i0: nat, i1: nat, i2: nat, x: nat)
    requires CanSubmit(q, h, b, block, i0, i1, i2) && i0 !in h.own && i1 !in h.own && i2 !in h.own
    requires x in h.chains || x == i0
    ensures ChainOk(Submit(q, b, block, write, i0, i1, i2), SubmitHistory(h, b, block, write, i0, i1, i2), x)
  {
    assert x in h.chains ==> ChainOk(q, h, x);
    hide RingOk;
    hide DescOk;
    hide BufOk;
  }

  lemma SubmitDesc(q: Queue, h: History, b: nat, block: nat, write: bool, i0: nat, i1: nat, i2: nat, i: nat)
    requires CanSubmit(q, h, b, block, i0, i1, i2) && i < NUM && i0 !in h.chains
    ensures DescOk(Submit(q, b, block, write, i0, i1, i2), SubmitHistory(h, b, block, write, i0, i1, i2), i)
  {
    assert DescOk(q, h, i);
    hide RingOk;
    hide ChainOk;
    hide BufOk;
  }

  lemma SubmitBuf(q: Queue, h: History, b: nat, block: nat, write: bool, i0: nat, i1: nat, i2: nat, c: nat)
    requires CanSubmit(q, h, b, block, i0, i1, i2) && c < |q.busy| && i0 !in h.chains
    ensures BufOk(Submit(q, b, block, write, i0, i1, i2), SubmitHistory(h, b, block, write, i0, i1, i2), c)
  {
    assert BufOk(q, h, c);
    hide RingOk;
    hide ChainOk;
    hide DescOk;
  }

  /** The memory a chain's request lives in is unchanged. */
  ghost predicate SameMemory(q: Queue, q': Queue) {
    && Shaped(q) && Shaped(q')
    && q'.free == q.free && q'.desc == q.desc && q'.ops == q.ops
    && |q'.busy| == |q.busy| && |q'.store| == |q.store|
    && forall i :: 0 <= i < NUM ==> q'.info[i].b == q.info[i].b
  }

  /** A step that only moves chain `x` to phase `p`, clearing its buffer's flag when that is
      Seen. */
  ghost predicate Moves(q: Queue, h: History, q': Queue, h': History, x: nat, p: Phase) {
    && SameMemory(q, q') && x in h.chains && h.chains[x].phase != Seen && h.chains[x].buf < |q.busy|
    && h'.chains == SetPhase(h, x, p) && h'.own == h.own && h'.who == h.who
    && q'.busy == if p == Seen then q.busy[h.chains[x].buf := false] else q.busy
  }

  lemma MovesKeeps(q: Queue, h: History, q': Queue, h': History, x: nat, p: Phase)
    requires Inv(q, h) && Moves(q, h, q', h', x, p)
    ensures forall y :: y in h'.chains ==> ChainOk(q', h', y)
    ensures forall i: nat :: i < NUM ==> DescOk(q', h', i)
    ensures forall b: nat :: b < |q'.busy| ==> BufOk(q', h', b)
  {
    hide RingOk;
    hide ChainOk;
    hide DescOk;
    hide BufOk;
    forall y | y in h'.chains ensures ChainOk(q', h', y) {
      MovesChain(q, h, q', h', x, p, y);
    }
    forall i: nat | i < NUM ensures DescOk(q', h', i) {
      MovesDesc(q, h, q', h', x, p, i);
    }
    forall b: nat | b < |q'.busy| ensures BufOk(q', h', b) {
      MovesBuf(q, h, q', h', x, p, b);
    }
  }

  lemma MovesChain(q: Queue, h: History, q': Queue, h': History, x: nat, p: Phase, y: nat)
    requires Inv(q, h) && Moves(q, h, q', h', x, p) && y in h'.chains
    ensures ChainOk(q', h', y)
  {
    hide RingOk;
    hide DescOk;
    hide BufOk;
    assert ChainOk(q, h, y);
  }

  lemma MovesDesc(q: Queue, h: History, q': Queue, h': History, x: nat, p: Phase, i: nat)
    requires Inv(q, h) && Moves(q, h, q', h', x, p) && i < NUM
    ensures DescOk(q', h', i)
  {
    hide RingOk;
    hide ChainOk;
    hide BufOk;
    assert DescOk(q, h, i);
  }

  lemma MovesBuf(q: Queue, h: History, q': Queue, h': History, x: nat, p: Phase, b: nat)
    requires Inv(q, h) && Moves(q, h, q', h', x, p) && b < |q'.busy|
    ensures BufOk(q', h', b)
  {
    hide RingOk;
    hide DescOk;
    assert ChainOk(q, h, x) && BufOk(q, h, b);
  }

  lemma MovesInv(q: Queue, h: History, q': Queue, h': History, x: nat, p: Phase)
    requires Inv(q, h) && Moves(q, h, q', h', x, p) && RingsOk(q', h')
    ensures Inv(q', h')
  {
    hide ChainOk;
    hide DescOk;
    hide BufOk;
    hide RingOk;
    MovesKeeps(q, h, q', h', x, p);
  }

  lemma TakeKeeps(q: Queue, h: History)
    requires Inv(q, h) && q.availIdx != q.devIdx
    ensures h.taken < |h.submits| && h.submits[h.taken] in h.chains
    ensures Inv(Take(q), TakeHistory(h))
  {
    IndicesTell(q, h);
    var x := h.submits[h.taken];
    assert InPhase(h.chains, x, Posted);
    ChainBuf(q, h, x);
    IncIs(h.taken);
    hide Inc;
    hide ChainOk;
    hide DescOk;
    hide BufOk;
    var q', h' := Take(q), TakeHistory(h);
    RingPop(h.chains, h'.chains, q.avail, h.submits, h.taken, Posted);
    RingKeeps(h.chains, h'.chains, q.used, h.completions, h.seen, Done, x);
    hide RingOk;
    assert q'.working == q.working + {x};
    MovesInv(q, h, q', h', x, Taken);
  }

  lemma ChainBuf(q: Queue, h: History, x: nat)
    requires Inv(q, h) && x in h.chains
    ensures h.chains[x].buf < |q.busy|
  {
    assert ChainOk(q, h, x);
  }

  /** What the device finds behind a head it is working on is the request as submitted. */
  lemma DeviceSees(q: Queue, h: History, head: nat, status: nat)
    requires Inv(q, h) && head in q.working
    ensures head in h.chains && Readable(q, head) && h.chains[head].buf < |q.data| && h.chains[head].block < |q.store|
    ensures var c, q' := h.chains[head], Complete(q, head, status);
            if c.write then q'.store == q.store[c.block := q.data[c.buf]] && q'.data == q.data
            else q'.data == q.data[c.buf := q.store[c.block]] && q'.store == q.store
  {
    assert InPhase(h.chains, head, Taken);
    assert ChainOk(q, h, head);
  }

  lemma CompleteKeeps(q: Queue, h: History, head: nat, status: nat)
    requires Inv(q, h) && head in q.working
    ensures head in h.chains && Readable(q, head)
    ensures Inv(Complete(q, head, status), CompleteHistory(h, head))
  {
    hide ChainOk;
    hide DescOk;
    hide BufOk;
    hide Readable;
    DeviceSees(q, h, head, status);
    assert InPhase(h.chains, head, Taken);
    IncIs(|h.completions|);
    hide Inc;
    IndicesTell(q, h);
    RingShort(q, h);
    var q', h' := Complete(q, head, status), CompleteHistory(h, head);
    RingPush(h.chains, h'.chains, q.used, h.completions, h.seen, Done, head);
    RingKeeps(h.chains, h'.chains, q.avail, h.submits, h.taken, Posted, head);
    hide RingOk;
    MovesInv(q, h, q', h', head, Done);
  }

  /** The interrupt handler finds a request the device completed, with its buffer still
      recorded, and clears the flag of that buffer only. */
  lemma InterruptFinds(q: Queue, h: History)
    requires Inv(q, h) && q.usedIdx != q.seenIdx
    ensures h.seen < |h.completions| && q.used[q.seenIdx % NUM] == h.completions[h.seen]
    ensures var head := q.used[q.seenIdx % NUM];
            && InPhase(h.chains, head, Done) && head < NUM && q.info[head].b == Some(h.chains[head].buf)
            && h.chains[head].buf < |q.busy| && q.busy[h.chains[head].buf]
            && Interrupt(q) == q.(busy := q.busy[h.chains[head].buf := false], seenIdx := Inc(q.seenIdx))
  {
    IndicesTell(q, h);
    var head := h.completions[h.seen];
    assert InPhase(h.chains, head, Done) && ChainOk(q, h, head);
    assert BufOk(q, h, h.chains[head].buf);
  }

  lemma InterruptKeeps(q: Queue, h: History)
    requires Inv(q, h) && q.usedIdx != q.seenIdx
    ensures h.seen < |h.completions| && h.completions[h.seen] in h.chains
    ensures Inv(Interrupt(q), InterruptHistory(h))
  {
    hide ChainOk;
    hide DescOk;
    hide BufOk;
    InterruptFinds(q, h);
    IncIs(h.seen);
    hide Inc;
    hide Interrupt;
    var x, q', h' := h.completions[h.seen], Interrupt(q), InterruptHistory(h);
    RingPop(h.chains, h'.chains, q.used, h.completions, h.seen, Done);
    RingKeeps(h.chains, h'.chains, q.avail, h.submits, h.taken, Posted, x);
    hide RingOk;
    MovesInv(q, h, q', h', x, Seen);
  }

  /** The wait in virtio_disk_rw for chain `head` is over. */
  ghost predicate CanFinish(q: Queue, h: History, head: nat) {
    Inv(q, h) && head in h.chains && h.chains[head].buf < |q.busy| && !q.busy[h.chains[head].buf]
  }

  /** free_chain then frees three descriptors, none of them free already. */
  lemma FinishFrees(q: Queue, h: History, head: nat)
    requires CanFinish(q, h, head)
    ensures InPhase(h.chains, head, Seen) && Formatted(q, head, h.chains[head])
    ensures !q.free[head] && !q.free[h.chains[head].mid] && !q.free[h.chains[head].tail]
  {
    var c := h.chains[head];
    assert ChainOk(q, h, head) && BufOk(q, h, c.buf);
    assert DescOk(q, h, head) && DescOk(q, h, c.mid) && DescOk(q, h, c.tail);
  }

  lemma FinishKeeps(q: Queue, h: History, head: nat)
    requires CanFinish(q, h, head)
    ensures Formatted(q, head, h.chains[head])
    ensures Inv(Finish(q, head, h.chains[head].mid, h.chains[head].tail), FinishHistory(h, head))
  {
    hide ChainOk;
    hide DescOk;
    hide BufOk;
    hide RingOk;
    FinishFrees(q, h, head);
    var c := h.chains[head];
    var q', h' := Finish(q, head, c.mid, c.tail), FinishHistory(h, head);
    hide Formatted;
    forall x | x in h'.chains ensures ChainOk(q', h', x) {
      FinishChain(q, h, head, x);
    }
    forall i: nat | i < NUM ensures DescOk(q', h', i) {
      FinishDesc(q, h, head, i);
    }
    forall b: nat | b < |q'.busy| ensures BufOk(q', h', b) {
      FinishBuf(q, h, head, b);
    }
    RingKeeps(h.chains, h'.chains, q.avail, h.submits, h.taken, Posted, head);
    RingKeeps(h.chains, h'.chains, q.used, h.completions, h.seen, Done, head);
  }

  lemma FinishChain(q: Queue, h: History, head: nat, x: nat)
    requires CanFinish(q, h, head) && Formatted(q, head, h.chains[head]) && x in h.chains && x != head
    ensures ChainOk(Finish(q, head, h.chains[head].mid, h.chains[head].tail), FinishHistory(h, head), x)
  {
    assert ChainOk(q, h, x) && ChainOk(q, h, head);
    hide RingOk;
    hide DescOk;
    hide BufOk;
  }

  lemma FinishDesc(q: Queue, h: History, head: nat, i: nat)
    requires CanFinish(q, h, head) && Formatted(q, head, h.chains[head]) && i < NUM
    ensures DescOk(Finish(q, head, h.chains[head].mid, h.chains[head].tail), FinishHistory(h, head), i)
  {
    assert DescOk(q, h, i) && ChainOk(q, h, head);
    hide RingOk;
    hide BufOk;
  }

  lemma FinishBuf(q: Queue, h: History, head: nat, b: nat)
    requires CanFinish(q, h, head) && Formatted(q, head, h.chains[head]) && b < |q.busy|
    ensures BufOk(Finish(q, head, h.chains[head].mid, h.chains[head].tail), FinishHistory(h, head), b)
  {
    assert BufOk(q, h, b) && ChainOk(q, h, head);
    hide RingOk;
    hide DescOk;
  }

  // ---------- every run ----------

  datatype Event =
    | RwSubmit(b: nat, block: nat, write: bool, i0: nat, i1: nat, i2: nat)
    | DeviceTakes
    | DeviceCompletes(head: nat, status: nat)
    | InterruptTurn
    | RwFinish(head: nat)
    | Fill(b: nat, d: Block)

  datatype State = State(q: Queue, h: History)

  /** When each party may make its step.  The caller of virtio_disk_rw holds the buffer, so
      no request for it is recorded; a call that waits knows its own head and buffer.  Fill is
      the holder of a buffer changing its data, which nobody does inside virtio_disk_rw. */
  ghost predicate Enabled(s: State, e: Event)
    requires Shaped(s.q)
  {
    match e
    case RwSubmit(b, block, _, i0, i1, i2) =>
      && b < |s.q.busy| && block < |s.q.store| && Unused(s.q, b)
      && i0 < NUM && i1 < NUM && i2 < NUM && i0 != i1 && i0 != i2 && i1 != i2
      && s.q.free[i0] && s.q.free[i1] && s.q.free[i2]
    case DeviceTakes => s.q.availIdx != s.q.devIdx
    case DeviceCompletes(head, _) => head in s.q.working
    case InterruptTurn => s.q.usedIdx != s.q.seenIdx
    case RwFinish(head) => head in s.h.chains && s.h.chains[head].buf < |s.q.busy| && !s.q.busy[s.h.chains[head].buf]
    case Fill(b, _) => b < |s.q.busy| && Unused(s.q, b)
  }

  /** No call of virtio_disk_rw is under way for the buffer. */
  ghost predicate Unused(q: Queue, b: nat)
    requires Shaped(q)
  {
    forall i :: 0 <= i < NUM ==> q.info[i].b != Some(b)
  }

  ghost function Do(s: State, e: Event): State
    requires Inv(s.q, s.h) && Enabled(s, e)
  {
    match e
    case RwSubmit(b, block, w, i0, i1, i2) => State(Submit(s.q, b, block, w, i0, i1, i2), SubmitHistory(s.h, b, block, w, i0, i1, i2))
    case DeviceTakes => TakeKeeps(s.q, s.h); State(Take(s.q), TakeHistory(s.h))
    case DeviceCompletes(head, status) => CompleteKeeps(s.q, s.h, head, status); State(Complete(s.q, head, status), CompleteHistory(s.h, head))
    case InterruptTurn => InterruptKeeps(s.q, s.h); State(Interrupt(s.q), InterruptHistory(s.h))
    case RwFinish(head) =>
      FinishKeeps(s.q, s.h, head);
      State(Finish(s.q, head, s.h.chains[head].mid, s.h.chains[head].tail), FinishHistory(s.h, head))
    case Fill(b, d) => s.(q := s.q.(data := s.q.data[b := d]))
  }

  lemma StepKeepsInv(s: State, e: Event)
    requires Inv(s.q, s.h) && Enabled(s, e)
    ensures Inv(Do(s, e).q, Do(s, e).h)
  {
    match e
    case RwSubmit(b, block, w, i0, i1, i2) =>
      NotInUse(s.q, s.h, b);
      SubmitKeeps(s.q, s.h, b, block, w, i0, i1, i2);
    case DeviceTakes => TakeKeeps(s.q, s.h);
    case DeviceCompletes(head, status) => CompleteKeeps(s.q, s.h, head, status);
    case InterruptTurn => InterruptKeeps(s.q, s.h);
    case RwFinish(head) => FinishKeeps(s.q, s.h, head);
    case Fill(b, d) => FillKeeps(s.q, s.h, b, d);
  }

  lemma FillKeeps(q: Queue, h: History, b: nat, d: Block)
    requires Inv(q, h) && b < |q.data|
    ensures Inv(q.(data := q.data[b := d]), h)
  {
    hide RingOk;
    var q' := q.(data := q.data[b := d]);
    forall x | x in h.chains ensures ChainOk(q', h, x) {
      assert ChainOk(q, h, x);
    }
    forall i: nat | i < NUM ensures DescOk(q', h, i) {
      assert DescOk(q, h, i);
    }
    forall c: nat | c < |q.busy| ensures BufOk(q', h, c) {
      assert BufOk(q, h, c);
    }
  }

  /** A buffer no info entry names is in no chain. */
  lemma NotInUse(q: Queue, h: History, b: nat)
    requires Inv(q, h) && b < |q.busy| && Unused(q, b)
    ensures b !in h.who
  {
    assert BufOk(q, h, b);
    assert b in h.who ==> ChainOk(q, h, h.who[b]);
  }

  /** virtio_disk_init: everything free, both rings empty. */
  ghost predicate Initial(s: State) {
    && Shaped(s.q)
    && (forall i :: 0 <= i < NUM ==> s.q.free[i] && s.q.desc[i] == NODESC)
    && (forall b :: 0 <= b < |s.q.busy| ==> !s.q.busy[b])
    && s.q.availIdx == s.q.usedIdx == s.q.seenIdx == s.q.devIdx == 0 && s.q.working == {}
    && s.h == History(map[], map[], map[], [], 0, [], 0)
  }

  ghost predicate IsRun(ss: seq<State>, es: seq<Event>) {
    && |ss| == |es| + 1
    && Initial(ss[0])
    && forall k :: 0 <= k < |es| ==> Next(ss[k], es[k], ss[k + 1])
  }

  /** `e` may take `s` to `s'`; where the rings made no sense the device could do anything. */
  ghost predicate Next(s: State, e: Event, s': State) {
    Inv(s.q, s.h) ==> Enabled(s, e) && s' == Do(s, e)
  }

  /** Every state of every run keeps the invariant. */
  lemma {:induction false} RunKeepsInv(ss: seq<State>, es: seq<Event>, k: nat)
    requires IsRun(ss, es) && k <= |es|
    ensures Inv(ss[k].q, ss[k].h)
  {
    if k == 0 {
      InitialInv(ss[0]);
    } else {
      RunKeepsInv(ss, es, k - 1);
      assert Next(ss[k - 1], es[k - 1], ss[k]);
      StepKeepsInv(ss[k - 1], es[k - 1]);
    }
  }

  lemma InitialInv(s: State)
    requires Initial(s)
    ensures Inv(s.q, s.h)
  {
  }

  /** Conservation, in any state of any run: a descriptor is free exactly when it is in no
      chain, and it is in at most one. */
  lemma Conservation(ss: seq<State>, es: seq<Event>, k: nat, i: nat)
    requires IsRun(ss, es) && k <= |es| && i < NUM
    ensures Shaped(ss[k].q)
    ensures ss[k].q.free[i] <==> forall x :: x in ss[k].h.chains ==> !InChain(ss[k].h, x, i)
    ensures forall x, y :: x in ss[k].h.chains && y in ss[k].h.chains && InChain(ss[k].h, x, i) && InChain(ss[k].h, y, i) ==> x == y
  {
    RunKeepsInv(ss, es, k);
    var q, h := ss[k].q, ss[k].h;
    hide IsRun;
    hide RingOk;
    assert DescOk(q, h, i);
    forall x | x in h.chains && InChain(h, x, i) ensures i in h.own && h.own[i] == x {
      assert ChainOk(q, h, x);
    }
    if i in h.own {
      assert InChain(h, h.own[i], i);
    }
  }

  ghost predicate InChain(h: History, head: nat, i: nat)
    requires head in h.chains
  {
    i == head || i == h.chains[head].mid || i == h.chains[head].tail
  }

  /** A buffer's flag clears in a run only by an interrupt turn for its own request, which the
      device had completed. */
  lemma ClearedByOwnCompletion(ss: seq<State>, es: seq<Event>, k: nat, b: nat)
    requires IsRun(ss, es) && k < |es|
    requires b < |ss[k].q.busy| && b < |ss[k + 1].q.busy| && ss[k].q.busy[b] && !ss[k + 1].q.busy[b]
    ensures es[k] == InterruptTurn && Shaped(ss[k].q) && ss[k].h.seen < |ss[k].h.completions|
    ensures var head := ss[k].h.completions[ss[k].h.seen];
            && InPhase(ss[k].h.chains, head, Done) && ss[k].h.chains[head].buf == b
            && ss[k].q.used[ss[k].q.seenIdx % NUM] == head
  {
    RunKeepsInv(ss, es, k);
    var q, h := ss[k].q, ss[k].h;
    assert Next(ss[k], es[k], ss[k + 1]);
    hide IsRun;
    hide RingOk;
    hide ChainOk;
    hide DescOk;
    hide BufOk;
    if es[k] == InterruptTurn {
      InterruptFinds(q, h);
    }
  }
}

/** Disk blocks, whole disks, and sequences of atomic one-block writes. */
module Disk {

  const BSIZE: nat := 1024

  /** 32-bit words in one block (BSIZE / sizeof(uint)). */
  const WORDS: nat := BSIZE / 4

  type Block = b: seq<int> | |b| == WORDS witness seq(WORDS, _ => 0)

  type Disk = seq<Block>

  /** One block write; the disk performs it entirely or not at all. */
  datatype Write = Write(blockno: nat, data: Block)

  ghost predicate InRange(d: Disk, ws: seq<Write>) {
    forall i :: 0 <= i < |ws| ==> ws[i].blockno < |d|
  }

  /** The disk after the writes `ws`, performed in order. */
  ghost function Apply(d: Disk, ws: seq<Write>): (r: Disk)
    requires InRange(d, ws)
    ensures |r| == |d|
  {
    if ws == [] then d
    else Apply(d, ws[..|ws| - 1])[ws[|ws| - 1].blockno := ws[|ws| - 1].data]
  }

  lemma {:induction false} ApplyAppend(d: Disk, ws: seq<Write>, w: Write)
    requires InRange(d, ws) && w.blockno < |d|
    ensures InRange(d, ws + [w])
    ensures Apply(d, ws + [w]) == Apply(d, ws)[w.blockno := w.data]
  {
    assert (ws + [w])[..|ws + [w]| - 1] == ws;
  }

  /** Writes performed in two batches are the writes performed in one. */
  lemma {:induction false} ApplyConcat(d: Disk, a: seq<Write>, b: seq<Write>)
    requires InRange(d, a) && InRange(d, b)
    ensures InRange(d, a + b)
    ensures Apply(d, a + b) == Apply(Apply(d, a), b)
    decreases |b|
  {
    if b == [] {
      assert a + b == a;
    } else {
      var b' := b[..|b| - 1];
      ApplyConcat(d, a, b');
      assert a + b == (a + b') + [b[|b| - 1]];
      ApplyAppend(d, a + b', b[|b| - 1]);
    }
  }

  /** `ds` are the disks before, between and after the writes `ws`. */
  ghost predicate Steps(ds: seq<Disk>, ws: seq<Write>) {
    && |ds| == |ws| + 1
    && forall i :: 0 <= i < |ws| ==> ws[i].blockno < |ds[i]| && ds[i + 1] == ds[i][ws[i].blockno := ws[i].data]
  }

  /** The disk after every prefix of `ws`. */
  ghost function Prefixes(d: Disk, ws: seq<Write>): (ds: seq<Disk>)
    requires InRange(d, ws)
    ensures |ds| == |ws| + 1
    ensures forall k :: 0 <= k <= |ws| ==> ds[k] == Apply(d, ws[..k])
  {
    seq(|ws| + 1, k requires 0 <= k <= |ws| => Apply(d, ws[..k]))
  }

  lemma PrefixesStep(d: Disk, ws: seq<Write>)
    requires InRange(d, ws)
    ensures Steps(Prefixes(d, ws), ws) && Prefixes(d, ws)[0] == d
  {
    var ds: seq<Disk> := Prefixes(d, ws);
    forall i | 0 <= i < |ws|
      ensures ws[i].blockno < |ds[i]| && ds[i + 1] == ds[i][ws[i].blockno := ws[i].data]
    {
      assert ws[..i + 1] == ws[..i] + [ws[i]];
      ApplyAppend(d, ws[..i], ws[i]);
    }
  }
}

/**
  Sv39 page-table trees (kernel/vm.c, kernel/riscv.h; section 4.4 of the RISC-V
  Privileged Architecture) as values: how a tree laid out in physical memory
  stands for a flat map from virtual page numbers to page-table entries.
 */
module PageTree {
  import opened Riscv
  import opened PageAlloc

  // ---------- entries ----------

  /** Permission bits as numbers. */
  const PTE_V: nat := 1
  const PTE_R: nat := 2
  const PTE_W: nat := 4
  const PTE_X: nat := 8
  const PTE_U: nat := 16

  function PA2PTE(pa: nat): nat {
    pa / 4096 * 1024
  }

  function PTE2PA(pte: nat): nat {
    pte / 1024 * 4096
  }

  function PTE_FLAGS(pte: nat): nat {
    pte % 1024
  }

  predicate IsValid(pte: int) {
    pte % 2 == 1
  }

  /** One of R, W, X is set: the entry maps a page rather than a lower table. */
  predicate HasRWX(pte: int) {
    pte / 2 % 8 != 0
  }

  /** U and W are set among the flags: user code may store to the page. */
  predicate UserWritable(flags: nat) {
    flags / 16 % 2 == 1 && flags / 4 % 2 == 1
  }

  /** An entry that walk's callers may find in the lowest level. */
  predicate IsLeafEntry(pte: int) {
    pte >= 0 && IsValid(pte) && HasRWX(pte)
  }

  /** PA2PTE(p) | PTE_V: an entry for a lower table. */
  function Pointer(p: nat): nat {
    PA2PTE(p) + PTE_V
  }

  /** perm | PTE_V. */
  function WithV(perm: nat): nat {
    if perm % 2 == 1 then perm else perm + 1
  }

  /** The fields of an entry put together from a page number and flags. */
  lemma EntryBits(ppn: nat, flags: nat)
    requires flags < 1024
    ensures var e := ppn * 1024 + flags;
            e / 1024 == ppn && e % 1024 == flags && e % 2 == flags % 2 && e / 2 % 8 == flags / 2 % 8
  {
    var e, half := ppn * 1024 + flags, flags / 2;
    assert e == 2 * (512 * ppn + half) + flags % 2;
    assert e / 2 == 512 * ppn + half == 8 * (64 * ppn + half / 8) + half % 8;
  }

  /** PTE2PA undoes PA2PTE on page addresses whatever the flags, and the flags survive. */
  lemma EntryRoundTrip(pa: nat, flags: nat)
    requires pa % PGSIZE == 0 && flags < 1024
    ensures PTE2PA(PA2PTE(pa) + flags) == pa
    ensures PTE_FLAGS(PA2PTE(pa) + flags) == flags
  {
  }

  // ---------- virtual addresses ----------

  /** PX(level, va): nine bits of the virtual page number. */
  function PX(level: nat, va: nat): (r: nat)
    requires level <= 2
    ensures r < 512
  {
    if level == 0 then va / 4096 % 512
    else if level == 1 then va / 4096 / 512 % 512
    else va / 4096 / 512 / 512 % 512
  }

  /** The two upper indices combined. */
  function Slot(i: nat, j: nat): nat {
    i * 512 + j
  }

  lemma SlotSplits(i: nat, j: nat)
    requires j < 512
    ensures Slot(i, j) / 512 == i && Slot(i, j) % 512 == j
  {
  }

  /** The three indices determine the page: PX is injective on pages below MAXVA. */
  lemma IndicesDetermineVpn(va: nat)
    requires va < MAXVA
    ensures PX(2, va) < 256
    ensures va / PGSIZE / 512 == Slot(PX(2, va), PX(1, va)) && va / PGSIZE % 512 == PX(0, va)
    ensures va / PGSIZE == Slot(Slot(PX(2, va), PX(1, va)), PX(0, va))
  {
    var vpn := va / PGSIZE;
    assert vpn < 0x400_0000;
    SplitVpn(vpn);
  }

  lemma SplitVpn(vpn: nat)
    requires vpn < 0x400_0000
    ensures vpn / 512 / 512 % 512 == vpn / 512 / 512 < 256
    ensures vpn / 512 == Slot(vpn / 512 / 512, vpn / 512 % 512)
    ensures vpn == Slot(vpn / 512, vpn % 512)
  {
    var hi := vpn / 512;
    assert hi < 0x2_0000;
  }

  // ---------- trees ----------

  /** The table pages of a tree: level-1 tables by root index, level-0 tables by the two
      upper indices combined. */
  datatype Tree = Tree(root: nat, mid: map<nat, nat>, leaf: map<nat, nat>)

  ghost function Tables(t: Tree): set<nat> {
    {t.root} + t.mid.Values + t.leaf.Values
  }

  ghost predicate WfRoot(mem: map<nat, Page>, t: Tree) {
    && t.root in mem && |mem[t.root]| == 512
    && forall i :: 0 <= i < 512 ==> mem[t.root][i] == if i in t.mid then Pointer(t.mid[i]) else 0
  }

  ghost predicate WfMid(mem: map<nat, Page>, t: Tree, i: nat)
    requires i in t.mid
  {
    && i < 512
    && t.mid[i] in mem && |mem[t.mid[i]]| == 512
    && forall j :: 0 <= j < 512 ==> mem[t.mid[i]][j] == if Slot(i, j) in t.leaf then Pointer(t.leaf[Slot(i, j)]) else 0
  }

  ghost predicate WfLeaf(mem: map<nat, Page>, t: Tree, l: nat)
    requires l in t.leaf
  {
    && l / 512 in t.mid
    && t.leaf[l] in mem && |mem[t.leaf[l]]| == 512
    && forall k :: 0 <= k < 512 ==> mem[t.leaf[l]][k] == 0 || IsLeafEntry(mem[t.leaf[l]][k])
  }

  /** No page serves as two tables. */
  ghost predicate Separate(t: Tree) {
    && t.root !in t.mid.Values
    && t.root !in t.leaf.Values
    && t.mid.Values !! t.leaf.Values
    && (forall i, j :: i in t.mid && j in t.mid && i != j ==> t.mid[i] != t.mid[j])
    && (forall i, j :: i in t.leaf && j in t.leaf && i != j ==> t.leaf[i] != t.leaf[j])
  }

  ghost predicate WfTree(mem: map<nat, Page>, t: Tree) {
    && WfRoot(mem, t)
    && (forall i :: i in t.mid ==> WfMid(mem, t, i))
    && (forall l :: l in t.leaf ==> WfLeaf(mem, t, l))
    && (forall p :: p in Tables(t) ==> p % PGSIZE == 0)
    && Separate(t)
  }

  /** The entry the tree holds for virtual page `vpn`; 0 when there is none. */
  ghost function Entry(mem: map<nat, Page>, t: Tree, vpn: nat): int
    requires WfTree(mem, t)
  {
    if vpn / 512 in t.leaf then assert WfLeaf(mem, t, vpn / 512); mem[t.leaf[vpn / 512]][vpn % 512] else 0
  }

  // ---------- what the hardware sees ----------

  /** The Sv39 translation process on the bytes in memory: 0 is a page fault. */
  function HardwareWalk(mem: map<nat, Page>, table: nat, level: nat, va: nat): int
    requires level <= 2
    decreases level
  {
    if table !in mem || |mem[table]| != 512 then 0
    else
      var pte := mem[table][PX(level, va)];
      if pte < 0 || !IsValid(pte) then 0
      else if HasRWX(pte) then (if level == 0 then pte else 0)
      else if level == 0 then 0
      else HardwareWalk(mem, PTE2PA(pte), level - 1, va)
  }

  lemma PointerEntry(p: nat)
    requires p % PGSIZE == 0
    ensures IsValid(Pointer(p)) && !HasRWX(Pointer(p)) && PTE2PA(Pointer(p)) == p
  {
    EntryBits(p / PGSIZE, PTE_V);
  }

  /** The tree in memory refines the flat map: the hardware finds exactly Entry. */
  lemma TreeRefinesFlatMap(mem: map<nat, Page>, t: Tree, va: nat)
    requires WfTree(mem, t) && va < MAXVA
    ensures HardwareWalk(mem, t.root, 2, va) == Entry(mem, t, va / PGSIZE)
  {
    IndicesDetermineVpn(va);
    hide Slot;
    hide PX;
    hide Pointer;
    hide PTE2PA;
    hide IsValid;
    hide HasRWX;
    var i, j := PX(2, va), PX(1, va);
    var l := Slot(i, j);
    SlotSplits(i, j);
    if i in t.mid {
      assert WfMid(mem, t, i);
      assert t.mid[i] in Tables(t);
      PointerEntry(t.mid[i]);
      assert HardwareWalk(mem, t.root, 2, va) == HardwareWalk(mem, t.mid[i], 1, va);
      if l in t.leaf {
        assert WfLeaf(mem, t, l);
        assert t.leaf[l] in Tables(t);
        PointerEntry(t.leaf[l]);
        assert HardwareWalk(mem, t.mid[i], 1, va) == HardwareWalk(mem, t.leaf[l], 0, va);
      }
    } else {
      assert l !in t.leaf;
    }
  }

  // ---------- growing and changing a tree ----------

  const ZeroPage: Page := seq(PGWORDS, _ => 0)

  /** Two memories and trees mean the same map. */
  ghost predicate SameMap(mem: map<nat, Page>, t: Tree, mem': map<nat, Page>, t': Tree) {
    WfTree(mem, t) && WfTree(mem', t') && forall vpn :: Entry(mem', t', vpn) == Entry(mem, t, vpn)
  }

  lemma TablesGrowMid(t: Tree, i: nat, q: nat)
    requires i !in t.mid && q !in Tables(t) && Separate(t)
    ensures var t' := t.(mid := t.mid[i := q]); Tables(t') == Tables(t) + {q} && Separate(t')
  {
    ValuesGrow(t.mid, i, q);
  }

  lemma TablesGrowLeaf(t: Tree, l: nat, q: nat)
    requires l !in t.leaf && q !in Tables(t) && Separate(t)
    ensures var t' := t.(leaf := t.leaf[l := q]); Tables(t') == Tables(t) + {q} && Separate(t')
  {
    ValuesGrow(t.leaf, l, q);
  }

  lemma ValuesGrow(m: map<nat, nat>, i: nat, q: nat)
    requires i !in m
    ensures m[i := q].Values == m.Values + {q}
    ensures forall a :: a in m ==> m[a] in m.Values
  {
    var m' := m[i := q];
    assert forall a :: a in m ==> m'[a] == m[a] && m'[a] in m'.Values;
    assert m'[i] == q;
  }

  /** walk links a fresh zeroed page into the root: no translation changes. */
  lemma AddMid(mem: map<nat, Page>, t: Tree, i: nat, q: nat)
    requires WfTree(mem, t) && i < 512 && i !in t.mid
    requires q % PGSIZE == 0 && q !in Tables(t)
    ensures var mem' := mem[q := ZeroPage][t.root := mem[t.root][i := Pointer(q)]];
            var t' := t.(mid := t.mid[i := q]);
            SameMap(mem, t, mem', t') && Tables(t') == Tables(t) + {q}
  {
    hide Slot;
    hide Pointer;
    hide IsLeafEntry;
    var mem' := mem[q := ZeroPage][t.root := mem[t.root][i := Pointer(q)]];
    var t' := t.(mid := t.mid[i := q]);
    TablesGrowMid(t, i, q);
    forall a | a in t'.mid ensures WfMid(mem', t', a) {
      if a != i {
        assert WfMid(mem, t, a);
        assert t.mid[a] in t.mid.Values;
      } else {
        forall j | 0 <= j < 512 ensures Slot(i, j) !in t.leaf {
          SlotSplits(i, j);
          assert Slot(i, j) in t.leaf ==> WfLeaf(mem, t, Slot(i, j));
        }
      }
    }
    forall l | l in t'.leaf ensures WfLeaf(mem', t', l) && mem'[t'.leaf[l]] == mem[t.leaf[l]] {
      assert WfLeaf(mem, t, l);
      assert t.leaf[l] in t.leaf.Values;
    }
  }

  lemma AddLeafRoot(mem: map<nat, Page>, t: Tree, i: nat, j: nat, q: nat)
    requires WfTree(mem, t) && i in t.mid && j < 512 && q !in Tables(t)
    ensures t.mid[i] in mem && |mem[t.mid[i]]| == 512
    ensures WfRoot(mem[q := ZeroPage][t.mid[i] := mem[t.mid[i]][j := Pointer(q)]], t.(leaf := t.leaf[Slot(i, j) := q]))
  {
    hide Slot;
    hide Pointer;
    hide WfLeaf;
    assert WfMid(mem, t, i);
    assert t.mid[i] in t.mid.Values;
  }

  lemma AddLeafLeaf(mem: map<nat, Page>, t: Tree, i: nat, j: nat, q: nat, l: nat)
    requires WfTree(mem, t) && i in t.mid && j < 512 && Slot(i, j) !in t.leaf && q !in Tables(t)
    requires t.mid[i] in mem && |mem[t.mid[i]]| == 512 && (l in t.leaf || l == Slot(i, j))
    ensures var mem' := mem[q := ZeroPage][t.mid[i] := mem[t.mid[i]][j := Pointer(q)]];
            var t' := t.(leaf := t.leaf[Slot(i, j) := q]);
            WfLeaf(mem', t', l) && (l != Slot(i, j) ==> mem'[t'.leaf[l]] == mem[t.leaf[l]])
  {
    hide Slot;
    hide Pointer;
    hide IsLeafEntry;
    hide WfRoot;
    hide WfMid;
    SlotSplits(i, j);
    assert t.mid[i] in t.mid.Values;
    if l in t.leaf {
      assert WfLeaf(mem, t, l);
      assert t.leaf[l] in t.leaf.Values;
    }
  }

  /** walk links a fresh zeroed page into a level-1 table: no translation changes. */
  lemma AddLeaf(mem: map<nat, Page>, t: Tree, i: nat, j: nat, q: nat)
    requires WfTree(mem, t) && i in t.mid && j < 512 && Slot(i, j) !in t.leaf
    requires q % PGSIZE == 0 && q !in Tables(t)
    ensures t.mid[i] in mem && |mem[t.mid[i]]| == 512
    ensures var mem' := mem[q := ZeroPage][t.mid[i] := mem[t.mid[i]][j := Pointer(q)]];
            var t' := t.(leaf := t.leaf[Slot(i, j) := q]);
            SameMap(mem, t, mem', t') && Tables(t') == Tables(t) + {q}
  {
    hide Slot;
    hide Pointer;
    hide IsLeafEntry;
    hide WfRoot;
    assert WfMid(mem, t, i);
    var s := Slot(i, j);
    SlotSplits(i, j);
    var mem' := mem[q := ZeroPage][t.mid[i] := mem[t.mid[i]][j := Pointer(q)]];
    var t' := t.(leaf := t.leaf[s := q]);
    TablesGrowLeaf(t, s, q);
    assert t.mid[i] in t.mid.Values;
    AddLeafRoot(mem, t, i, j, q);
    forall a | a in t'.mid ensures WfMid(mem', t', a) {
      assert WfMid(mem, t, a);
      assert t.mid[a] in t.mid.Values;
      forall k | 0 <= k < 512 ensures Slot(a, k) == s ==> a == i && k == j { SlotSplits(a, k); }
    }
    forall l | l in t'.leaf ensures WfLeaf(mem', t', l) && (l != s ==> mem'[t'.leaf[l]] == mem[t.leaf[l]]) {
      AddLeafLeaf(mem, t, i, j, q, l);
    }
  }

  /** Storing an entry in a level-0 table changes the translation of that page only. */
  lemma SetEntry(mem: map<nat, Page>, t: Tree, l: nat, k: nat, w: int)
    requires WfTree(mem, t) && l in t.leaf && k < 512 && (w == 0 || IsLeafEntry(w))
    ensures t.leaf[l] in mem && |mem[t.leaf[l]]| == 512
    ensures var mem' := mem[t.leaf[l] := mem[t.leaf[l]][k := w]];
            && WfTree(mem', t)
            && forall vpn: nat :: Entry(mem', t, vpn) == if vpn == Slot(l, k) then w else Entry(mem, t, vpn)
  {
    hide Pointer;
    hide IsLeafEntry;
    assert WfLeaf(mem, t, l);
    var mem' := mem[t.leaf[l] := mem[t.leaf[l]][k := w]];
    assert t.leaf[l] in t.leaf.Values;
    forall a | a in t.mid ensures WfMid(mem', t, a) {
      assert WfMid(mem, t, a);
      assert t.mid[a] in t.mid.Values;
    }
    forall l' | l' in t.leaf ensures WfLeaf(mem', t, l') && (l' != l ==> mem'[t.leaf[l']] == mem[t.leaf[l']]) {
      assert WfLeaf(mem, t, l');
    }
    forall vpn: nat ensures Entry(mem', t, vpn) == if vpn == Slot(l, k) then w else Entry(mem, t, vpn) {
      assert vpn == Slot(vpn / 512, vpn % 512);
      SlotSplits(l, k);
    }
  }

  /** What lies outside a tree's own tables does not matter to it. */
  lemma TreeFrame(mem: map<nat, Page>, mem': map<nat, Page>, t: Tree)
    requires WfTree(mem, t)
    requires forall p :: p in Tables(t) && p in mem ==> p in mem' && mem'[p] == mem[p]
    ensures SameMap(mem, t, mem', t)
  {
    hide Pointer;
    hide IsLeafEntry;
    hide Slot;
    forall a | a in t.mid ensures WfMid(mem', t, a) {
      assert WfMid(mem, t, a);
      assert t.mid[a] in t.mid.Values;
    }
    forall l | l in t.leaf ensures WfLeaf(mem', t, l) && mem'[t.leaf[l]] == mem[t.leaf[l]] {
      assert WfLeaf(mem, t, l);
      assert t.leaf[l] in t.leaf.Values;
    }
  }
}

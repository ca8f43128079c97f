/**
  Directories and link counts (kernel/sysfile.c, kernel/fs.c) as values: what dirlink, link,
  unlink, create and the last iput do to a namespace of inodes, and that link counts count
  the entries over every run of them.  Path lookup is not part of this model: each call is
  given the inodes its paths lead to.
 */
module Namespace {

  datatype Typ = Free | File | Device | Dir

  /** struct dirent; inum 0 marks an empty slot. */
  datatype Entry = Entry(inum: nat, name: string)

  const EMPTY: Entry := Entry(0, "")

  /** What the namespace sees of an inode. */
  datatype Node = Node(typ: Typ, nlink: int, entries: seq<Entry>)

  const FREENODE: Node := Node(Free, 0, [])

  const ROOT: nat := 1

  type Nodes = seq<Node>

  /** A slot of a directory. */
  type Ref = (nat, nat)

  predicate Linked(ns: Nodes, d: nat) {
    d < |ns| && ns[d].typ == Dir && ns[d].nlink > 0
  }

  /** Slot r.1 of the linked directory r.0 names inode `i`, and not as ".". */
  predicate IsRef(ns: Nodes, r: Ref, i: nat) {
    Linked(ns, r.0) && r.1 < |ns[r.0].entries| && ns[r.0].entries[r.1].inum == i && ns[r.0].entries[r.1].name != "."
  }

  /** The entries other than "." that name inode `i` in linked directories. */
  ghost function Refs(ns: Nodes, i: nat): set<Ref> {
    set d: nat, k: nat | d < |ns| && k < |ns[d].entries| && IsRef(ns, (d, k), i) :: (d, k)
  }

  lemma RefsAre(ns: Nodes, i: nat)
    ensures forall r :: r in Refs(ns, i) <==> IsRef(ns, r, i)
  {
    forall r | IsRef(ns, r, i) ensures r in Refs(ns, i) {
      var (d, k) := r;
      assert d < |ns| && k < |ns[d].entries| && IsRef(ns, (d, k), i);
    }
  }

  /** Sets of references that differ by known ones. */
  lemma RefsChange(ns: Nodes, ns': Nodes, i: nat, gone: set<Ref>, added: set<Ref>)
    requires forall r: Ref :: IsRef(ns', r, i) <==> (IsRef(ns, r, i) && r !in gone) || r in added
    ensures Refs(ns', i) == Refs(ns, i) - gone + added
  {
    RefsAre(ns, i);
    RefsAre(ns', i);
    hide Refs;
  }

  // ---------- the invariant ----------

  /** "." and ".." come first, and ".." names a linked directory. */
  ghost predicate DotsOk(ns: Nodes, d: nat)
    requires d < |ns|
  {
    var es := ns[d].entries;
    |es| >= 2 && es[0] == Entry(d, ".") && es[1].name == ".." && Linked(ns, es[1].inum)
  }

  /** Every entry in use names an inode in use. */
  ghost predicate NamesOk(ns: Nodes, d: nat)
    requires d < |ns|
  {
    forall k :: 0 <= k < |ns[d].entries| && ns[d].entries[k].inum != 0 ==> InUse(ns, ns[d].entries[k].inum)
  }

  predicate InUse(ns: Nodes, i: nat) {
    i < |ns| && ns[i].typ != Free
  }

  /** No two entries in use have the same name. */
  ghost predicate Distinct(es: seq<Entry>) {
    forall j, k :: 0 <= j < k < |es| && es[j].inum != 0 && es[k].inum != 0 ==> es[j].name != es[k].name
  }

  ghost predicate DirOk(ns: Nodes, d: nat)
    requires d < |ns|
  {
    DotsOk(ns, d) && NamesOk(ns, d) && Distinct(ns[d].entries)
  }

  /** A directory other than the root is named by one entry beside those called "..", and that
      entry is in the directory its own ".." names; the root is named by no such entry. */
  ghost predicate UpOk(ns: Nodes, up: map<nat, Ref>, c: nat)
    requires c < |ns| && |ns[c].entries| >= 2
  {
    var p := ns[c].entries[1].inum;
    if c == ROOT then p == ROOT && forall r: Ref :: IsRef(ns, r, c) ==> r.1 < 2
    else
      && c in up && up[c].0 == p && p != c && up[c].1 >= 2 && IsRef(ns, up[c], c)
      && forall r: Ref :: IsRef(ns, r, c) && r.1 >= 2 ==> r == up[c]
  }

  /** The link count counts the entries. */
  ghost predicate NodeOk(ns: Nodes, i: nat)
    requires i < |ns|
  {
    ns[i].nlink == |Refs(ns, i)| && (ns[i].typ == Free ==> ns[i] == FREENODE)
  }

  ghost predicate TreeOk(ns: Nodes, up: map<nat, Ref>) {
    && Linked(ns, ROOT) && ns[0].typ == Free
    && (forall d: nat :: Linked(ns, d) ==> DirOk(ns, d))
    && (forall d: nat :: Linked(ns, d) ==> UpOk(ns, up, d))
  }

  ghost predicate Inv(ns: Nodes, up: map<nat, Ref>) {
    TreeOk(ns, up) && forall i: nat :: 0 < i < |ns| ==> NodeOk(ns, i)
  }

  // ---------- entries and link counts ----------

  /** Slot `k` of a directory, existing or one past the end, becomes `e`. */
  function SetSlot(es: seq<Entry>, k: nat, e: Entry): (r: seq<Entry>)
    requires k <= |es|
    ensures |r| == (if k == |es| then k + 1 else |es|) && r[k] == e && forall j :: 0 <= j < |r| && j != k ==> r[j] == es[j]
  {
    if k == |es| then es + [e] else es[k := e]
  }

  function WithEntry(ns: Nodes, d: nat, k: nat, e: Entry): Nodes
    requires d < |ns| && k <= |ns[d].entries|
  {
    ns[d := ns[d].(entries := SetSlot(ns[d].entries, k, e))]
  }

  function AddLinks(ns: Nodes, i: nat, n: int): Nodes
    requires i < |ns|
  {
    ns[i := ns[i].(nlink := ns[i].nlink + n)]
  }

  /** Slot `k` of `d` can take an entry called `name`. */
  ghost predicate Vacant(ns: Nodes, d: nat, k: nat, name: string)
    requires d < |ns|
  {
    var es := ns[d].entries;
    && k <= |es| && (k < |es| ==> es[k].inum == 0)
    && forall j :: 0 <= j < |es| && es[j].inum != 0 ==> es[j].name != name
  }

  /** It is then not one of the first two, and the name is neither "." nor "..". */
  lemma VacantBeyondDots(ns: Nodes, d: nat, k: nat, name: string)
    requires 0 < d < |ns| && DotsOk(ns, d) && ns[0].typ == Free && Vacant(ns, d, k, name)
    ensures k >= 2 && name != "." && name != ".."
  {
    assert ns[d].entries[0].name == "." && ns[d].entries[1].name == ".." && ns[d].entries[1].inum != 0;
  }

  /** What a new entry does to the entries of its directory. */
  lemma FilledDistinct(es: seq<Entry>, k: nat, e: Entry)
    requires Distinct(es) && k <= |es| && (k < |es| ==> es[k].inum == 0)
    requires forall j :: 0 <= j < |es| && es[j].inum != 0 ==> es[j].name != e.name
    ensures Distinct(SetSlot(es, k, e))
  {
  }

  // ---------- link ----------

  /** The state after link: a new entry for inode `i`, and one link more. */
  function LinkState(ns: Nodes, i: nat, d: nat, k: nat, name: string): Nodes
    requires i < |ns| && d < |ns| && k <= |ns[d].entries|
  {
    AddLinks(WithEntry(ns, d, k, Entry(i, name)), i, 1)
  }

  ghost predicate CanLink(ns: Nodes, i: nat, d: nat, k: nat, name: string) {
    && Linked(ns, d) && 0 < i < |ns| && ns[i].typ != Dir && ns[i].typ != Free
    && Vacant(ns, d, k, name) && k >= 2 && name != "."
  }

  lemma LinkRef(ns: Nodes, i: nat, d: nat, k: nat, name: string, r: Ref, j: nat)
    requires CanLink(ns, i, d, k, name) && j != 0
    ensures IsRef(LinkState(ns, i, d, k, name), r, j) <==> IsRef(ns, r, j) || (j == i && r == (d, k))
    ensures !IsRef(ns, (d, k), j)
  {
  }

  lemma LinkDir(ns: Nodes, i: nat, d: nat, k: nat, name: string, c: nat)
    requires CanLink(ns, i, d, k, name) && Linked(ns, c) && DirOk(ns, c)
    ensures Linked(LinkState(ns, i, d, k, name), c) && DirOk(LinkState(ns, i, d, k, name), c)
  {
    var ns' := LinkState(ns, i, d, k, name);
    assert forall x: nat :: InUse(ns, x) ==> InUse(ns', x);
    assert forall x: nat :: Linked(ns, x) ==> Linked(ns', x);
    if c == d {
      FilledDistinct(ns[d].entries, k, Entry(i, name));
    }
    hide InUse;
    hide Distinct;
  }

  lemma LinkUp(ns: Nodes, up: map<nat, Ref>, i: nat, d: nat, k: nat, name: string, c: nat)
    requires CanLink(ns, i, d, k, name) && Linked(ns, c) && c != 0 && DotsOk(ns, c) && UpOk(ns, up, c)
    ensures |LinkState(ns, i, d, k, name)[c].entries| >= 2 && UpOk(LinkState(ns, i, d, k, name), up, c)
  {
    var ns' := LinkState(ns, i, d, k, name);
    forall r: Ref ensures IsRef(ns', r, c) <==> IsRef(ns, r, c) {
      LinkRef(ns, i, d, k, name, r, c);
    }
    hide IsRef;
  }

  lemma LinkNode(ns: Nodes, i: nat, d: nat, k: nat, name: string, j: nat)
    requires CanLink(ns, i, d, k, name) && 0 < j < |ns| && NodeOk(ns, j)
    ensures NodeOk(LinkState(ns, i, d, k, name), j)
  {
    var ns' := LinkState(ns, i, d, k, name);
    var added: set<Ref> := if j == i then {(d, k)} else {};
    forall r: Ref ensures IsRef(ns', r, j) <==> IsRef(ns, r, j) || r in added {
      LinkRef(ns, i, d, k, name, r, j);
    }
    LinkRef(ns, i, d, k, name, (d, k), j);
    RefsAre(ns, j);
    hide IsRef;
    RefsChange(ns, ns', j, {}, added);
    hide Refs;
    assert |Refs(ns, j) - {} + added| == |Refs(ns, j)| + |added|;
  }

  lemma LinkKeeps(ns: Nodes, up: map<nat, Ref>, i: nat, d: nat, k: nat, name: string)
    requires Inv(ns, up) && CanLink(ns, i, d, k, name)
    ensures Inv(LinkState(ns, i, d, k, name), up)
  {
    var ns' := LinkState(ns, i, d, k, name);
    hide DirOk;
    hide UpOk;
    hide NodeOk;
    forall c: nat | Linked(ns', c) ensures DirOk(ns', c) && UpOk(ns', up, c) {
      assert Linked(ns, c);
      LinkDir(ns, i, d, k, name, c);
      DirDots(ns, c);
      LinkUp(ns, up, i, d, k, name, c);
    }
    forall j: nat | 0 < j < |ns'| ensures NodeOk(ns', j) {
      LinkNode(ns, i, d, k, name, j);
    }
  }

  lemma DirDots(ns: Nodes, c: nat)
    requires c < |ns| && DirOk(ns, c)
    ensures DotsOk(ns, c) && |ns[c].entries| >= 2
  {
  }

  // ---------- create ----------

  /** The inode create makes, with "." and ".." when it is a directory in `d`. */
  function Made(i: nat, typ: Typ, d: nat): Node {
    Node(typ, 1, if typ == Dir then [Entry(i, "."), Entry(d, "..")] else [])
  }

  /** The state after create: a free inode made, entered in `d`, and for a directory one link
      more for `d`, which its ".." names. */
  function MakeState(ns: Nodes, i: nat, typ: Typ, d: nat, k: nat, name: string): Nodes
    requires i < |ns| && d < |ns| && i != d && k <= |ns[d].entries|
  {
    AddLinks(WithEntry(ns[i := Made(i, typ, d)], d, k, Entry(i, name)), d, if typ == Dir then 1 else 0)
  }

  ghost function MakeUp(up: map<nat, Ref>, i: nat, typ: Typ, d: nat, k: nat): map<nat, Ref> {
    if typ == Dir then up[i := (d, k)] else up
  }

  ghost predicate CanMake(ns: Nodes, i: nat, typ: Typ, d: nat, k: nat, name: string) {
    && Linked(ns, d) && d != 0 && 0 < i < |ns| && ns[i].typ == Free && typ != Free && i != ROOT
    && Vacant(ns, d, k, name) && k >= 2 && name != "."
  }

  lemma MakeRef(ns: Nodes, i: nat, typ: Typ, d: nat, k: nat, name: string, r: Ref, j: nat)
    requires CanMake(ns, i, typ, d, k, name) && j != 0
    ensures IsRef(MakeState(ns, i, typ, d, k, name), r, j) <==>
            IsRef(ns, r, j) || (j == i && r == (d, k)) || (typ == Dir && j == d && r == (i, 1))
    ensures !IsRef(ns, (d, k), j) && !IsRef(ns, (i, 1), j)
  {
  }

  lemma MakeDir(ns: Nodes, i: nat, typ: Typ, d: nat, k: nat, name: string, c: nat)
    requires CanMake(ns, i, typ, d, k, name) && Linked(ns, c) && DirOk(ns, c)
    ensures Linked(MakeState(ns, i, typ, d, k, name), c) && DirOk(MakeState(ns, i, typ, d, k, name), c)
  {
    var ns' := MakeState(ns, i, typ, d, k, name);
    assert forall x: nat :: InUse(ns, x) ==> InUse(ns', x);
    assert InUse(ns', i);
    assert forall x: nat :: Linked(ns, x) ==> Linked(ns', x);
    if c == d {
      FilledDistinct(ns[d].entries, k, Entry(i, name));
    }
    hide InUse;
    hide Distinct;
  }

  /** The new directory itself. */
  lemma MadeDir(ns: Nodes, up: map<nat, Ref>, i: nat, d: nat, k: nat, name: string)
    requires CanMake(ns, i, Dir, d, k, name) && (forall r: Ref :: !IsRef(ns, r, i))
    ensures var ns' := MakeState(ns, i, Dir, d, k, name);
            Linked(ns', i) && DirOk(ns', i) && UpOk(ns', MakeUp(up, i, Dir, d, k), i)
  {
    var ns' := MakeState(ns, i, Dir, d, k, name);
    assert ns'[i] == Made(i, Dir, d) && Linked(ns', d);
    forall r: Ref ensures IsRef(ns', r, i) <==> r == (d, k) {
      MakeRef(ns, i, Dir, d, k, name, r, i);
    }
    hide IsRef;
  }

  lemma MakeUpKept(ns: Nodes, up: map<nat, Ref>, i: nat, typ: Typ, d: nat, k: nat, name: string, c: nat)
    requires CanMake(ns, i, typ, d, k, name) && Linked(ns, c) && c != 0 && DotsOk(ns, c) && UpOk(ns, up, c)
    ensures var ns' := MakeState(ns, i, typ, d, k, name);
            |ns'[c].entries| >= 2 && UpOk(ns', MakeUp(up, i, typ, d, k), c)
  {
    var ns' := MakeState(ns, i, typ, d, k, name);
    forall r: Ref ensures IsRef(ns', r, c) <==> IsRef(ns, r, c) || (typ == Dir && c == d && r == (i, 1)) {
      MakeRef(ns, i, typ, d, k, name, r, c);
    }
    hide IsRef;
  }

  lemma MakeNode(ns: Nodes, i: nat, typ: Typ, d: nat, k: nat, name: string, j: nat)
    requires CanMake(ns, i, typ, d, k, name) && 0 < j < |ns| && NodeOk(ns, j)
    ensures NodeOk(MakeState(ns, i, typ, d, k, name), j)
  {
    var ns' := MakeState(ns, i, typ, d, k, name);
    var added: set<Ref> := (if j == i then {(d, k)} else {}) + (if typ == Dir && j == d then {(i, 1)} else {});
    forall r: Ref ensures IsRef(ns', r, j) <==> IsRef(ns, r, j) || r in added {
      MakeRef(ns, i, typ, d, k, name, r, j);
    }
    MakeRef(ns, i, typ, d, k, name, (d, k), j);
    RefsAre(ns, j);
    hide IsRef;
    RefsChange(ns, ns', j, {}, added);
    hide Refs;
  }

  /** Nothing names a free inode. */
  lemma FreeUnnamed(ns: Nodes, i: nat)
    requires 0 < i < |ns| && ns[i].typ == Free && NodeOk(ns, i)
    ensures forall r: Ref :: !IsRef(ns, r, i)
  {
    RefsAre(ns, i);
    assert |Refs(ns, i)| == 0;
    hide Refs;
  }

  lemma MakeKeeps(ns: Nodes, up: map<nat, Ref>, i: nat, typ: Typ, d: nat, k: nat, name: string)
    requires Inv(ns, up) && CanMake(ns, i, typ, d, k, name)
    ensures Inv(MakeState(ns, i, typ, d, k, name), MakeUp(up, i, typ, d, k))
  {
    var ns', up' := MakeState(ns, i, typ, d, k, name), MakeUp(up, i, typ, d, k);
    FreeUnnamed(ns, i);
    hide DirOk;
    hide UpOk;
    hide NodeOk;
    hide IsRef;
    forall c: nat | Linked(ns', c) ensures DirOk(ns', c) && |ns'[c].entries| >= 2 && UpOk(ns', up', c) {
      if c == i {
        MadeDir(ns, up, i, d, k, name);
        DirDots(ns', i);
      } else {
        assert Linked(ns, c);
        MakeDir(ns, i, typ, d, k, name, c);
        DirDots(ns, c);
        MakeUpKept(ns, up, i, typ, d, k, name, c);
      }
    }
    forall j: nat | 0 < j < |ns'| ensures NodeOk(ns', j) {
      MakeNode(ns, i, typ, d, k, name, j);
    }
  }

  // ---------- unlink ----------

  /** isdirempty: nothing beside "." and "..". */
  ghost predicate DirEmpty(ns: Nodes, i: nat)
    requires i < |ns|
  {
    forall k :: 2 <= k < |ns[i].entries| ==> ns[i].entries[k].inum == 0
  }

  /** The state after unlink of slot `k` of `d`: the slot empty, one link less for what it
      named, and for a directory one less for `d`, which its ".." named. */
  function UnlinkState(ns: Nodes, d: nat, k: nat): Nodes
    requires d < |ns| && k < |ns[d].entries| && ns[d].entries[k].inum < |ns|
  {
    var i := ns[d].entries[k].inum;
    AddLinks(AddLinks(WithEntry(ns, d, k, EMPTY), d, if ns[i].typ == Dir then -1 else 0), i, -1)
  }

  ghost function UnlinkUp(ns: Nodes, up: map<nat, Ref>, i: nat): map<nat, Ref>
    requires i < |ns|
  {
    if ns[i].typ == Dir then up - {i} else up
  }

  ghost predicate CanUnlink(ns: Nodes, up: map<nat, Ref>, d: nat, k: nat) {
    && Inv(ns, up) && Linked(ns, d) && 2 <= k < |ns[d].entries| && ns[d].entries[k].inum != 0
    && ns[d].entries[k].name != "." && ns[d].entries[k].inum < |ns|
    && (ns[ns[d].entries[k].inum].typ == Dir ==> DirEmpty(ns, ns[d].entries[k].inum))
  }

  /** What is known of the directory `i` in slot `k` of `d`: it is linked there alone, so it
      loses its last link, and `d` keeps others. */
  ghost predicate Detached(ns: Nodes, i: nat, d: nat, k: nat) {
    && i < |ns| && d < |ns| && i != d && i != 0 && d != 0 && i != ROOT && Linked(ns, i) && Linked(ns, d)
    && ns[i].nlink == 1 && ns[d].nlink > 1
    && DotsOk(ns, i) && ns[i].entries[1].inum == d && DirEmpty(ns, i)
    && (forall c: nat :: Linked(ns, c) && DotsOk(ns, c) ==> ns[c].entries[1].inum != i)
  }

  /** No linked directory has the empty directory `i` as its parent. */
  lemma NoChild(ns: Nodes, up: map<nat, Ref>, i: nat, c: nat)
    requires TreeOk(ns, up) && Linked(ns, i) && i != ROOT && DirEmpty(ns, i) && Linked(ns, c) && DotsOk(ns, c) && c != 0
    ensures ns[c].entries[1].inum != i
  {
    assert UpOk(ns, up, c);
  }

  /** The references to the empty directory `i`. */
  lemma OnlyRef(ns: Nodes, up: map<nat, Ref>, i: nat, d: nat, k: nat)
    requires TreeOk(ns, up) && Linked(ns, i) && i != 0 && DirEmpty(ns, i) && k >= 2 && IsRef(ns, (d, k), i)
    ensures i != ROOT && i in up && up[i] == (d, k) && Refs(ns, i) == {(d, k)}
  {
    assert DirOk(ns, i) && UpOk(ns, up, i);
    RefsAre(ns, i);
    hide Refs;
    forall r: Ref | IsRef(ns, r, i) ensures r == (d, k) {
      assert DirOk(ns, r.0);
      if r.1 < 2 {
        NoChild(ns, up, i, r.0);
      }
    }
  }

  /** A linked directory with the subdirectory `i` has at least two links. */
  lemma TwoRefs(ns: Nodes, up: map<nat, Ref>, i: nat, d: nat)
    requires TreeOk(ns, up) && Linked(ns, d) && d != 0 && i != d && IsRef(ns, (i, 1), d)
    ensures |Refs(ns, d)| >= 2
  {
    assert DirOk(ns, d) && UpOk(ns, up, d);
    RefsAre(ns, d);
    hide Refs;
    var other: Ref := if d == ROOT then (ROOT, 1) else up[d];
    assert other in Refs(ns, d) && (i, 1) in Refs(ns, d) && other != (i, 1);
    TwoMembers(Refs(ns, d), other, (i, 1));
  }

  lemma TwoMembers(rs: set<Ref>, a: Ref, b: Ref)
    requires a in rs && b in rs && a != b
    ensures |rs| >= 2
  {
    assert |rs - {a} - {b}| == |rs| - 2;
  }

  lemma UnlinkFacts(ns: Nodes, up: map<nat, Ref>, d: nat, k: nat)
    requires CanUnlink(ns, up, d, k)
    ensures var i := ns[d].entries[k].inum;
            && ns[i].typ != Free && ns[i].nlink >= 1 && d != 0 && IsRef(ns, (d, k), i)
            && (ns[i].typ == Dir ==> Detached(ns, i, d, k) && i in up && up[i] == (d, k))
  {
    var i := ns[d].entries[k].inum;
    assert DirOk(ns, d);
    assert InUse(ns, i);
    assert NodeOk(ns, i) && NodeOk(ns, d);
    RefsAre(ns, i);
    assert (d, k) in Refs(ns, i);
    assert |Refs(ns, i)| >= 1;
    if ns[i].typ == Dir {
      assert DirOk(ns, i) && UpOk(ns, up, i);
      OnlyRef(ns, up, i, d, k);
      TwoRefs(ns, up, i, d);
      forall c: nat | Linked(ns, c) && DotsOk(ns, c) ensures ns[c].entries[1].inum != i {
        NoChild(ns, up, i, c);
      }
    }
  }

  /** Unlinking slot `k` of `d`, which names `i`, with what is known of a directory there. */
  ghost predicate Unlinks(ns: Nodes, i: nat, d: nat, k: nat) {
    && Linked(ns, d) && d != 0 && i != 0 && i < |ns| && 2 <= k < |ns[d].entries| && ns[d].entries[k].inum == i
    && ns[i].typ != Free && ns[d].entries[k].name != "." && (ns[i].typ == Dir ==> Detached(ns, i, d, k))
  }

  lemma UnlinkRef(ns: Nodes, i: nat, d: nat, k: nat, r: Ref, j: nat)
    requires Unlinks(ns, i, d, k) && j != 0
    ensures IsRef(UnlinkState(ns, d, k), r, j) <==>
            IsRef(ns, r, j) && !(j == i && r == (d, k)) && !(ns[i].typ == Dir && j == d && r == (i, 1))
    ensures IsRef(ns, (d, k), i) && (ns[i].typ == Dir ==> IsRef(ns, (i, 1), d))
  {
  }

  lemma UnlinkDir(ns: Nodes, i: nat, d: nat, k: nat, c: nat)
    requires Unlinks(ns, i, d, k) && Linked(ns, c) && DirOk(ns, c) && c != i
    ensures Linked(UnlinkState(ns, d, k), c) && DirOk(UnlinkState(ns, d, k), c)
  {
    var ns' := UnlinkState(ns, d, k);
    assert forall x: nat :: InUse(ns, x) ==> InUse(ns', x);
    assert forall x: nat :: Linked(ns, x) && x != i ==> Linked(ns', x);
    assert ns[i].typ != Dir ==> !Linked(ns, i);
    hide InUse;
  }

  lemma UnlinkUpKept(ns: Nodes, up: map<nat, Ref>, i: nat, d: nat, k: nat, c: nat)
    requires Unlinks(ns, i, d, k) && Linked(ns, c) && c != i && c != 0 && DotsOk(ns, c) && UpOk(ns, up, c)
    ensures var ns' := UnlinkState(ns, d, k);
            |ns'[c].entries| >= 2 && UpOk(ns', UnlinkUp(ns, up, i), c)
  {
    var ns' := UnlinkState(ns, d, k);
    forall r: Ref ensures IsRef(ns', r, c) <==> IsRef(ns, r, c) && !(ns[i].typ == Dir && c == d && r == (i, 1)) {
      UnlinkRef(ns, i, d, k, r, c);
    }
    hide IsRef;
  }

  lemma UnlinkNode(ns: Nodes, i: nat, d: nat, k: nat, j: nat)
    requires Unlinks(ns, i, d, k) && 0 < j < |ns| && NodeOk(ns, j)
    ensures NodeOk(UnlinkState(ns, d, k), j)
  {
    var ns' := UnlinkState(ns, d, k);
    var gone: set<Ref> := (if j == i then {(d, k)} else {}) + (if ns[i].typ == Dir && j == d then {(i, 1)} else {});
    forall r: Ref ensures IsRef(ns', r, j) <==> IsRef(ns, r, j) && r !in gone {
      UnlinkRef(ns, i, d, k, r, j);
    }
    UnlinkRef(ns, i, d, k, (d, k), j);
    RefsAre(ns, j);
    hide IsRef;
    RefsChange(ns, ns', j, gone, {});
    hide Refs;
    assert gone <= Refs(ns, j);
    assert |Refs(ns, j) - gone| == |Refs(ns, j)| - |gone|;
  }

  lemma UnlinkKeeps(ns: Nodes, up: map<nat, Ref>, d: nat, k: nat)
    requires CanUnlink(ns, up, d, k)
    ensures Inv(UnlinkState(ns, d, k), UnlinkUp(ns, up, ns[d].entries[k].inum))
  {
    var i := ns[d].entries[k].inum;
    UnlinkFacts(ns, up, d, k);
    var ns', up' := UnlinkState(ns, d, k), UnlinkUp(ns, up, i);
    assert Linked(ns', ROOT) && ns'[0].typ == Free;
    hide DirOk;
    hide UpOk;
    hide NodeOk;
    hide IsRef;
    forall c: nat | Linked(ns', c) ensures DirOk(ns', c) && |ns'[c].entries| >= 2 && UpOk(ns', up', c) {
      assert Linked(ns, c) && c != i;
      UnlinkDir(ns, i, d, k, c);
      DirDots(ns, c);
      UnlinkUpKept(ns, up, i, d, k, c);
    }
    forall j: nat | 0 < j < |ns'| ensures NodeOk(ns', j) {
      UnlinkNode(ns, i, d, k, j);
    }
  }

  // ---------- iput ----------

  /** The last reference to an inode without links is dropped. */
  function PutState(ns: Nodes, i: nat): Nodes
    requires i < |ns|
  {
    if ns[i].nlink == 0 then ns[i := FREENODE] else ns
  }

  lemma PutKeeps(ns: Nodes, up: map<nat, Ref>, i: nat)
    requires Inv(ns, up) && 0 < i < |ns|
    ensures Inv(PutState(ns, i), up)
  {
    var ns' := PutState(ns, i);
    if ns[i].nlink == 0 {
      forall r: Ref, j: nat ensures IsRef(ns', r, j) <==> IsRef(ns, r, j) {
      }
      NoRefs(ns, i);
      forall c: nat | Linked(ns', c) ensures DirOk(ns', c) && UpOk(ns', up, c) {
        assert Linked(ns, c) && DirOk(ns, c) && UpOk(ns, up, c);
        PutDir(ns, i, c);
      }
      forall j: nat | 0 < j < |ns'| ensures NodeOk(ns', j) {
        assert NodeOk(ns, j);
        RefsChange(ns, ns', j, {}, {});
      }
    }
  }

  lemma NoRefs(ns: Nodes, i: nat)
    requires i < |ns| && NodeOk(ns, i) && ns[i].nlink == 0
    ensures forall r: Ref :: !IsRef(ns, r, i)
  {
    RefsAre(ns, i);
    hide Refs;
  }

  lemma PutDir(ns: Nodes, i: nat, c: nat)
    requires Linked(ns, c) && c != 0 && DirOk(ns, c) && 0 < i < |ns| && ns[i].nlink == 0 && forall r: Ref :: !IsRef(ns, r, i)
    ensures DirOk(ns[i := FREENODE], c)
  {
    var ns' := ns[i := FREENODE];
    forall k | 0 <= k < |ns[c].entries| && ns[c].entries[k].inum != 0 ensures InUse(ns', ns[c].entries[k].inum) {
      assert InUse(ns, ns[c].entries[k].inum);
      assert !IsRef(ns, (c, k), i);
      assert k > 0 ==> ns[c].entries[0].name != ns[c].entries[k].name;
    }
  }
}

/**
  The directory operations (kernel/fs.c, kernel/sysfile.c): dirlookup, dirlink and isdirempty
  as loops over the slots of a directory, and link, unlink and create with their roll-backs,
  proved to make the steps below; and the namespace over every run of them.
 */
module Directories {
  import opened Util
  import opened Namespace

  // ---------- what the loops find ----------

  /** The first slot in use that is called `name`, or the number of slots. */
  function Lookup(es: seq<Entry>, name: string): (k: nat)
    ensures k <= |es| && (k < |es| ==> es[k].inum != 0 && es[k].name == name)
    ensures forall j :: 0 <= j < k && es[j].inum != 0 ==> es[j].name != name
  {
    LookupFrom(es, name, 0)
  }

  function LookupFrom(es: seq<Entry>, name: string, from: nat): (k: nat)
    requires from <= |es|
    ensures from <= k <= |es| && (k < |es| ==> es[k].inum != 0 && es[k].name == name)
    ensures forall j :: from <= j < k && es[j].inum != 0 ==> es[j].name != name
    decreases |es| - from
  {
    if from == |es| || (es[from].inum != 0 && es[from].name == name) then from else LookupFrom(es, name, from + 1)
  }

  /** The first empty slot, or the number of slots. */
  function EmptySlot(es: seq<Entry>, from: nat): (k: nat)
    requires from <= |es|
    ensures from <= k <= |es| && (k < |es| ==> es[k].inum == 0) && forall j :: from <= j < k ==> es[j].inum != 0
    decreases |es| - from
  {
    if from == |es| || es[from].inum == 0 then from else EmptySlot(es, from + 1)
  }

  /** ialloc's choice: the lowest free inode from `from` on, or the number of inodes. */
  function FreeInode(ns: Nodes, from: nat): (i: nat)
    requires from <= |ns|
    ensures from <= i <= |ns| && (i < |ns| ==> ns[i].typ == Free) && forall j :: from <= j < i ==> ns[j].typ != Free
    decreases |ns| - from
  {
    if from == |ns| || ns[from].typ == Free then from else FreeInode(ns, from + 1)
  }

  /** dirlink puts the entry into this slot; None when it fails.  `room`: the directory can
      grow. */
  function LinkSlot(es: seq<Entry>, name: string, room: bool): Option<nat> {
    if Lookup(es, name) < |es| then None
    else if EmptySlot(es, 0) == |es| && !room then None
    else Some(EmptySlot(es, 0))
  }

  lemma LinkSlotVacant(ns: Nodes, up: map<nat, Ref>, d: nat, name: string, room: bool)
    requires Inv(ns, up) && Linked(ns, d) && LinkSlot(ns[d].entries, name, room).Some?
    ensures var k := LinkSlot(ns[d].entries, name, room).value;
            Vacant(ns, d, k, name) && k >= 2 && name != "." && name != ".." && d != 0
  {
    assert DirOk(ns, d);
    VacantBeyondDots(ns, d, EmptySlot(ns[d].entries, 0), name);
  }

  // ---------- the calls as steps ----------

  datatype State = State(ns: Nodes, up: map<nat, Ref>)

  /** One call, with the inodes its paths lead to and whether each directory it may have to
      grow can. */
  datatype Event =
    | Link(i: nat, parent: Option<nat>, name: string, room: bool)
    | Unlink(d: nat, name: string)
    | Create(d: nat, name: string, typ: Typ, roomDot: bool, roomDots: bool, room: bool)
    | Put(i: nat)

  /** Parent directories are still linked. */
  ghost predicate Enabled(ns: Nodes, e: Event) {
    match e
    case Link(i, parent, _, _) => 0 < i < |ns| && ns[i].typ != Free && (parent.Some? ==> Linked(ns, parent.value))
    case Unlink(d, _) => Linked(ns, d)
    case Create(d, _, typ, _, _, _) => Linked(ns, d) && typ != Free && 0 < |ns|
    case Put(i) => 0 < i < |ns|
  }

  /** sys_link. */
  ghost function LinkDo(s: State, i: nat, parent: Option<nat>, name: string, room: bool): State
    requires Enabled(s.ns, Link(i, parent, name, room))
  {
    if s.ns[i].typ == Dir || parent == None then s
    else
      match LinkSlot(s.ns[parent.value].entries, name, room)
      case None => s
      case Some(k) => s.(ns := LinkState(s.ns, i, parent.value, k, name))
  }

  /** sys_unlink removes slot `k` of `d`. */
  ghost predicate Removes(ns: Nodes, d: nat, name: string, k: nat)
    requires d < |ns|
  {
    && name != "." && name != ".." && k == Lookup(ns[d].entries, name) < |ns[d].entries|
    && var i := ns[d].entries[k].inum;
    i < |ns| && (ns[i].typ == Dir ==> DirEmpty(ns, i))
  }

  ghost function UnlinkDo(s: State, d: nat, name: string): State
    requires Linked(s.ns, d)
  {
    var k := Lookup(s.ns[d].entries, name);
    if Removes(s.ns, d, name, k) then State(UnlinkState(s.ns, d, k), UnlinkUp(s.ns, s.up, s.ns[d].entries[k].inum)) else s
  }

  /** create makes a new inode, entered in slot `k`. */
  ghost predicate Makes(ns: Nodes, d: nat, name: string, typ: Typ, roomDot: bool, roomDots: bool, room: bool)
    requires d < |ns|
  {
    && Lookup(ns[d].entries, name) == |ns[d].entries| && FreeInode(ns, 1) < |ns|
    && (typ == Dir ==> roomDot && roomDots) && LinkSlot(ns[d].entries, name, room).Some?
  }

  ghost function CreateDo(s: State, d: nat, name: string, typ: Typ, roomDot: bool, roomDots: bool, room: bool): State
    requires Linked(s.ns, d)
  {
    if Makes(s.ns, d, name, typ, roomDot, roomDots, room) then
      var i, k := FreeInode(s.ns, 1), LinkSlot(s.ns[d].entries, name, room).value;
      State(MakeState(s.ns, i, typ, d, k, name), MakeUp(s.up, i, typ, d, k))
    else s
  }

  ghost function Do(s: State, e: Event): State
    requires Enabled(s.ns, e)
  {
    match e
    case Link(i, parent, name, room) => LinkDo(s, i, parent, name, room)
    case Unlink(d, name) => UnlinkDo(s, d, name)
    case Create(d, name, typ, roomDot, roomDots, room) => CreateDo(s, d, name, typ, roomDot, roomDots, room)
    case Put(i) => s.(ns := PutState(s.ns, i))
  }

  lemma UnlinkStep(s: State, d: nat, name: string)
    requires Inv(s.ns, s.up) && Linked(s.ns, d) && Removes(s.ns, d, name, Lookup(s.ns[d].entries, name))
    ensures CanUnlink(s.ns, s.up, d, Lookup(s.ns[d].entries, name))
  {
    assert DirOk(s.ns, d);
    assert s.ns[d].entries[0].name == "." && s.ns[d].entries[1].name == "..";
  }

  lemma StepKeepsInv(s: State, e: Event)
    requires Inv(s.ns, s.up) && Enabled(s.ns, e)
    ensures Inv(Do(s, e).ns, Do(s, e).up)
  {
    match e
    case Link(i, parent, name, room) =>
      if s.ns[i].typ != Dir && parent.Some? && LinkSlot(s.ns[parent.value].entries, name, room).Some? {
        LinkSlotVacant(s.ns, s.up, parent.value, name, room);
        hide Inv;
        LinkKeeps(s.ns, s.up, i, parent.value, LinkSlot(s.ns[parent.value].entries, name, room).value, name);
      }
    case Unlink(d, name) =>
      hide Inv;
      if Removes(s.ns, d, name, Lookup(s.ns[d].entries, name)) {
        UnlinkStep(s, d, name);
        UnlinkKeeps(s.ns, s.up, d, Lookup(s.ns[d].entries, name));
      }
    case Create(d, name, typ, roomDot, roomDots, room) =>
      if Makes(s.ns, d, name, typ, roomDot, roomDots, room) {
        LinkSlotVacant(s.ns, s.up, d, name, room);
        hide DirOk;
        hide UpOk;
        hide NodeOk;
        MakeKeeps(s.ns, s.up, FreeInode(s.ns, 1), typ, d, LinkSlot(s.ns[d].entries, name, room).value, name);
      }
    case Put(i) =>
      hide Inv;
      PutKeeps(s.ns, s.up, i);
  }

  // ---------- every run ----------

  /** An empty root directory and free inodes. */
  ghost predicate Initial(s: State) {
    && ROOT < |s.ns| && s.up == map[]
    && s.ns[ROOT] == Node(Dir, 1, [Entry(ROOT, "."), Entry(ROOT, "..")])
    && forall i :: 0 <= i < |s.ns| && i != ROOT ==> s.ns[i] == FREENODE
  }

  lemma InitialInv(s: State)
    requires Initial(s)
    ensures Inv(s.ns, s.up)
  {
    var ns := s.ns;
    forall r: Ref, i: nat ensures IsRef(ns, r, i) <==> i == ROOT && r == (ROOT, 1) {
    }
    forall i: nat | 0 < i < |ns| ensures NodeOk(ns, i) {
      RefsAre(ns, i);
      assert Refs(ns, i) == if i == ROOT then {(ROOT, 1)} else {};
    }
  }

  ghost predicate IsRun(ss: seq<State>, es: seq<Event>) {
    && |ss| == |es| + 1
    && Initial(ss[0])
    && forall k :: 0 <= k < |es| ==> Enabled(ss[k].ns, es[k]) && ss[k + 1] == Do(ss[k], es[k])
  }

  lemma {:induction false} RunKeepsInv(ss: seq<State>, es: seq<Event>, k: nat)
    requires IsRun(ss, es) && k <= |es|
    ensures Inv(ss[k].ns, ss[k].up)
  {
    if k == 0 {
      InitialInv(ss[0]);
    } else {
      hide Inv;
      hide Do;
      RunKeepsInv(ss, es, k - 1);
      StepKeepsInv(ss[k - 1], es[k - 1]);
    }
  }

  /** In every state of every run each inode has as many links as linked directories have
      entries other than "." that name it. */
  lemma LinkCounts(ss: seq<State>, es: seq<Event>, k: nat, i: nat)
    requires IsRun(ss, es) && k <= |es| && 0 < i < |ss[k].ns|
    ensures ss[k].ns[i].nlink == |Refs(ss[k].ns, i)|
  {
    RunKeepsInv(ss, es, k);
    assert NodeOk(ss[k].ns, i);
  }

  /** In every state of every run the first two slots of a linked directory are "." and "..". */
  lemma DotsStay(ss: seq<State>, es: seq<Event>, k: nat, d: nat)
    requires IsRun(ss, es) && k <= |es| && Linked(ss[k].ns, d)
    ensures DotsOk(ss[k].ns, d)
  {
    RunKeepsInv(ss, es, k);
    assert DirOk(ss[k].ns, d);
  }

  /** A directory loses its last link in a run only by unlink, and then holds nothing but "."
      and "..". */
  lemma OnlyEmptyDirsGo(ss: seq<State>, es: seq<Event>, k: nat, i: nat)
    requires IsRun(ss, es) && k < |es| && Linked(ss[k].ns, i) && !Linked(ss[k + 1].ns, i)
    ensures es[k].Unlink? && i < |ss[k].ns| && DirEmpty(ss[k].ns, i)
  {
    RunKeepsInv(ss, es, k);
    assert ss[k + 1] == Do(ss[k], es[k]);
    hide IsRun;
    hide Inv;
    hide Do;
    StaysLinked(ss[k], es[k], i);
  }

  lemma StaysLinked(s: State, e: Event, i: nat)
    requires Inv(s.ns, s.up) && Enabled(s.ns, e) && Linked(s.ns, i)
    ensures Linked(Do(s, e).ns, i) || (e.Unlink? && DirEmpty(s.ns, i))
  {
    match e
    case Link(_, _, _, _) => hide Inv;
    case Create(_, _, _, _, _, _) => hide Inv;
    case Put(_) => hide Inv;
    case Unlink(d, name) =>
      hide Inv;
      var k := Lookup(s.ns[d].entries, name);
      if Removes(s.ns, d, name, k) {
        UnlinkStep(s, d, name);
        UnlinkFacts(s.ns, s.up, d, k);
        OthersStayLinked(s.ns, s.ns[d].entries[k].inum, d, k, i);
      }
  }

  lemma OthersStayLinked(ns: Nodes, j: nat, d: nat, k: nat, i: nat)
    requires d < |ns| && j < |ns| && k < |ns[d].entries| && ns[d].entries[k].inum == j && Linked(ns, i)
    requires ns[j].typ == Dir ==> ns[d].nlink > 1
    ensures i != j ==> Linked(UnlinkState(ns, d, k), i)
  {
  }

  // ---------- the code ----------

  /** What create returns. */
  ghost function Created(ns: Nodes, d: nat, name: string, typ: Typ, roomDot: bool, roomDots: bool, room: bool): Option<nat>
    requires d < |ns|
  {
    var k := Lookup(ns[d].entries, name);
    if k < |ns[d].entries| then
      var i := ns[d].entries[k].inum;
      if i < |ns| && typ == File && (ns[i].typ == File || ns[i].typ == Device) then Some(i) else None
    else if Makes(ns, d, name, typ, roomDot, roomDots, room) then Some(FreeInode(ns, 1))
    else None
  }

  lemma {:induction false} LookupStep(es: seq<Entry>, name: string, from: nat, end: nat)
    requires from <= end <= |es| && forall j :: from <= j < end && es[j].inum != 0 ==> es[j].name != name
    ensures LookupFrom(es, name, from) == LookupFrom(es, name, end)
    decreases end - from
  {
    if from < end {
      LookupStep(es, name, from + 1, end);
    }
  }

  lemma {:induction false} EmptyStep(es: seq<Entry>, from: nat, end: nat)
    requires from <= end <= |es| && forall j :: from <= j < end ==> es[j].inum != 0
    ensures EmptySlot(es, from) == EmptySlot(es, end)
    decreases end - from
  {
    if from < end {
      EmptyStep(es, from + 1, end);
    }
  }

  lemma {:induction false} FreeStep(ns: Nodes, from: nat, end: nat)
    requires from <= end <= |ns| && forall j :: from <= j < end ==> ns[j].typ != Free
    ensures FreeInode(ns, from) == FreeInode(ns, end)
    decreases end - from
  {
    if from < end {
      FreeStep(ns, from + 1, end);
    }
  }

  lemma PutFrees(ns: Nodes, up: map<nat, Ref>, i: nat)
    requires Inv(ns, up) && 0 < i < |ns|
    ensures var ns' := PutState(ns, i);
            && |ns'| == |ns| && ns' == ns[i := ns'[i]]
            && (ns'[i].typ == Free <==> Refs(ns, i) == {}) && (ns'[i].typ != Free ==> ns'[i] == ns[i])
  {
    assert NodeOk(ns, i);
    hide Refs;
  }

  class FileNames {
    var ns: Nodes
    ghost var up: map<nat, Ref>

    ghost predicate Valid()
      reads this
    {
      Inv(ns, up)
    }

    constructor (ns: Nodes)
      requires Initial(State(ns, map[]))
      ensures Valid() && this.ns == ns && up == map[]
    {
      this.ns := ns;
      up := map[];
      new;
      InitialInv(State(ns, map[]));
    }

    /** dirlookup; it panics on anything but a directory. */
    method Dirlookup(d: nat, name: string) returns (k: nat)
      requires d < |ns| && ns[d].typ == Dir
      ensures k == Lookup(ns[d].entries, name)
    {
      var es := ns[d].entries;
      k := 0;
      while k < |es|
        invariant k <= |es| && forall j :: 0 <= j < k && es[j].inum != 0 ==> es[j].name != name
      {
        if es[k].inum != 0 && es[k].name == name {
          break;
        }
        k := k + 1;
      }
      LookupStep(es, name, 0, k);
    }

    /** dirlink. */
    method Dirlink(d: nat, name: string, inum: nat, room: bool) returns (ok: bool)
      requires d < |ns| && ns[d].typ == Dir
      modifies this`ns
      ensures match LinkSlot(old(ns)[d].entries, name, room) {
                case None => !ok && ns == old(ns)
                case Some(k) => ok && ns == WithEntry(old(ns), d, k, Entry(inum, name))
              }
    {
      var es := ns[d].entries;
      var found := Dirlookup(d, name);
      if found < |es| {
        return false;
      }
      var k := 0;
      while k < |es|
        invariant k <= |es| && ns == old(ns) && forall j :: 0 <= j < k ==> es[j].inum != 0
      {
        if es[k].inum == 0 {
          break;
        }
        k := k + 1;
      }
      EmptyStep(es, 0, k);
      if k == |es| && !room {
        return false;
      }
      ns := WithEntry(ns, d, k, Entry(inum, name));
      return true;
    }

    method IsDirEmpty(i: nat) returns (r: bool)
      requires i < |ns|
      ensures r <==> DirEmpty(ns, i)
    {
      var es, k := ns[i].entries, 2;
      while k < |es|
        invariant 2 <= k && forall j :: 2 <= j < k && j < |es| ==> es[j].inum == 0
      {
        if es[k].inum != 0 {
          return false;
        }
        k := k + 1;
      }
      return true;
    }

    /** ialloc: the lowest free inode above 0, marked in use; None when there is none. */
    method Ialloc(typ: Typ) returns (i: Option<nat>)
      requires |ns| > 0
      modifies this`ns
      ensures i == if FreeInode(old(ns), 1) < |old(ns)| then Some(FreeInode(old(ns), 1)) else None
      ensures ns == if i.Some? then old(ns)[i.value := Node(typ, 0, [])] else old(ns)
    {
      var inum := 1;
      while inum < |ns|
        invariant 1 <= inum <= |ns| && ns == old(ns) && forall j :: 1 <= j < inum ==> ns[j].typ != Free
      {
        if ns[inum].typ == Free {
          FreeStep(ns, 1, inum);
          ns := ns[inum := Node(typ, 0, [])];
          return Some(inum);
        }
        inum := inum + 1;
      }
      FreeStep(ns, 1, inum);
      return None;
    }

    /** The last iput of an inode: afterwards it is free if and only if no directory names it, and
        nothing else has changed. */
    method Iput(i: nat)
      requires Valid() && 0 < i < |ns|
      modifies this`ns
      ensures Valid() && State(ns, up) == Do(State(old(ns), up), Put(i))
      ensures ns == old(ns)[i := ns[i]] && (ns[i].typ == Free <==> Refs(old(ns), i) == {})
      ensures ns[i].typ != Free ==> ns[i] == old(ns)[i]
    {
      PutKeeps(ns, up, i);
      PutFrees(ns, up, i);
      hide Inv;
      hide PutState;
      Drop(i);
    }

    /** What iput does to the inode. */
    method Drop(i: nat)
      requires i < |ns|
      modifies this`ns
      ensures ns == PutState(old(ns), i)
    {
      if ns[i].nlink == 0 {
        ns := ns[i := FREENODE];
      }
    }

    /** sys_link of inode `i` as `name` in `parent`, None when that path leads nowhere; every
        failure rolls the link count back. */
    method SysLink(i: nat, parent: Option<nat>, name: string, room: bool) returns (ok: bool)
      requires Valid() && Enabled(ns, Link(i, parent, name, room))
      modifies this`ns
      ensures Valid() && State(ns, up) == Do(State(old(ns), up), Link(i, parent, name, room))
      ensures ok <==> old(ns)[i].typ != Dir && parent.Some? && LinkSlot(old(ns)[parent.value].entries, name, room).Some?
    {
      StepKeepsInv(State(ns, up), Link(i, parent, name, room));
      hide Inv;
      if ns[i].typ == Dir {
        return false;
      }
      Undone(ns, i);
      ns := AddLinks(ns, i, 1);
      if parent == None {
        ns := AddLinks(ns, i, -1);
        return false;
      }
      ok := Dirlink(parent.value, name, i, room);
      if !ok {
        ns := AddLinks(ns, i, -1);
        return;
      }
      LinkOrder(old(ns), i, parent.value, LinkSlot(old(ns)[parent.value].entries, name, room).value, name);
    }

    /** sys_unlink of `name` in `d`.  Its panic, a link count below 1, is not reached. */
    method SysUnlink(d: nat, name: string) returns (ok: bool)
      requires Valid() && Linked(ns, d)
      modifies this
      ensures Valid() && State(ns, up) == Do(State(old(ns), old(up)), Unlink(d, name))
      ensures ok <==> Removes(old(ns), d, name, Lookup(old(ns)[d].entries, name))
    {
      StepKeepsInv(State(ns, up), Unlink(d, name));
      var k := Dirlookup(d, name);
      if name == "." || name == ".." || k == |ns[d].entries| {
        return false;
      }
      var i := ns[d].entries[k].inum;
      Named(ns, up, d, k);
      hide Inv;
      if ns[i].nlink < 1 {
        assert false;
      }
      if ns[i].typ == Dir {
        var empty := IsDirEmpty(i);
        if !empty {
          return false;
        }
      }
      var less := if ns[i].typ == Dir then -1 else 0;
      ns := WithEntry(ns, d, k, EMPTY);
      ns := AddLinks(ns, d, less);
      ns := AddLinks(ns, i, -1);
      up := UnlinkUp(old(ns), up, i);
      ok := true;
    }

    /** create of `name` in `d`, with its three failures after ialloc. */
    method Create(d: nat, name: string, typ: Typ, roomDot: bool, roomDots: bool, room: bool) returns (r: Option<nat>)
      requires Valid() && Linked(ns, d) && typ != Free
      modifies this
      ensures Valid() && State(ns, up) == Do(State(old(ns), old(up)), Event.Create(d, name, typ, roomDot, roomDots, room))
      ensures r == Created(old(ns), d, name, typ, roomDot, roomDots, room)
    {
      hide Inv;
      StepKeepsInv(State(ns, up), Event.Create(d, name, typ, roomDot, roomDots, room));
      NotZero(ns, up, d);
      var k := Dirlookup(d, name);
      if k < |ns[d].entries| {
        Named(ns, up, d, k);
        var i := ns[d].entries[k].inum;
        return if typ == File && (ns[i].typ == File || ns[i].typ == Device) then Some(i) else None;
      }
      FreeIsBlank(ns, up);
      hide Inv;
      r := MakeNew(d, name, typ, roomDot, roomDots, room);
      if r.Some? {
        up := MakeUp(up, r.value, typ, d, LinkSlot(old(ns)[d].entries, name, room).value);
      }
    }

    /** create of a name that is not there yet. */
    method MakeNew(d: nat, name: string, typ: Typ, roomDot: bool, roomDots: bool, room: bool) returns (r: Option<nat>)
      requires Linked(ns, d) && typ != Free && Lookup(ns[d].entries, name) == |ns[d].entries|
      requires FreeInode(ns, 1) < |ns| ==> ns[FreeInode(ns, 1)] == FREENODE
      modifies this`ns
      ensures r == if Makes(old(ns), d, name, typ, roomDot, roomDots, room) then Some(FreeInode(old(ns), 1)) else None
      ensures r == None ==> ns == old(ns)
      ensures r.Some? ==>
                && r.value != d && LinkSlot(old(ns)[d].entries, name, room).Some?
                && ns == MakeState(old(ns), r.value, typ, d, LinkSlot(old(ns)[d].entries, name, room).value, name)
    {
      var found := Ialloc(typ);
      if found == None {
        return None;
      }
      var i := found.value;
      assert i != d;
      var ok := Fill(i, typ, d, roomDot, roomDots);
      assert ns == old(ns)[i := ns[i]] && ns[d].entries == old(ns)[d].entries;
      if ok {
        ok := Dirlink(d, name, i, room);
      }
      if !ok {
        assert ns == old(ns)[i := ns[i]];
        ns := ns[i := ns[i].(nlink := 0)];
        Drop(i);
        assert ns == old(ns);
        return None;
      }
      MakeOrder(old(ns), i, typ, d, LinkSlot(old(ns)[d].entries, name, room).value, name);
      if typ == Dir {
        ns := AddLinks(ns, d, 1);
      }
      r := Some(i);
    }

    /** create's new inode gets its link and, for a directory, its first two entries. */
    method Fill(i: nat, typ: Typ, d: nat, roomDot: bool, roomDots: bool) returns (ok: bool)
      requires 0 < i < |ns| && ns[i] == Node(typ, 0, [])
      modifies this`ns
      ensures ok <==> (typ == Dir ==> roomDot && roomDots)
      ensures |ns| == |old(ns)| && ns == old(ns)[i := ns[i]] && (ok ==> ns[i] == Made(i, typ, d))
    {
      ns := ns[i := ns[i].(nlink := 1)];
      ok := true;
      if typ == Dir {
        ok := Dirlink(i, ".", i, roomDot);
        if ok {
          ok := Dirlink(i, "..", d, roomDots);
        }
      }
    }
  }

  lemma Undone(ns: Nodes, i: nat)
    requires i < |ns|
    ensures AddLinks(AddLinks(ns, i, 1), i, -1) == ns
  {
  }

  lemma LinkOrder(ns: Nodes, i: nat, d: nat, k: nat, name: string)
    requires i < |ns| && d < |ns| && i != d && k <= |ns[d].entries|
    ensures WithEntry(AddLinks(ns, i, 1), d, k, Entry(i, name)) == LinkState(ns, i, d, k, name)
  {
  }

  lemma MakeOrder(ns: Nodes, i: nat, typ: Typ, d: nat, k: nat, name: string)
    requires i < |ns| && d < |ns| && i != d && k <= |ns[d].entries|
    ensures var ns1 := WithEntry(ns[i := Made(i, typ, d)], d, k, Entry(i, name));
            MakeState(ns, i, typ, d, k, name) == if typ == Dir then AddLinks(ns1, d, 1) else ns1
  {
  }

  /** An entry found names an inode in use, which has a link. */
  lemma Named(ns: Nodes, up: map<nat, Ref>, d: nat, k: nat)
    requires Inv(ns, up) && Linked(ns, d) && k < |ns[d].entries| && ns[d].entries[k].inum != 0
    ensures ns[d].entries[k].inum < |ns| && ns[ns[d].entries[k].inum].nlink >= 1
  {
    var i := ns[d].entries[k].inum;
    assert DirOk(ns, d);
    assert InUse(ns, i);
    assert NodeOk(ns, i);
    if ns[d].entries[k].name != "." {
      RefsAre(ns, i);
      assert (d, k) in Refs(ns, i);
      assert |Refs(ns, i)| >= 1;
    } else {
      assert k == 0;
    }
  }

  lemma NotZero(ns: Nodes, up: map<nat, Ref>, d: nat)
    requires Inv(ns, up) && Linked(ns, d)
    ensures d != 0
  {
  }

  lemma FreeIsBlank(ns: Nodes, up: map<nat, Ref>)
    requires Inv(ns, up)
    ensures |ns| > 0 && (FreeInode(ns, 1) < |ns| ==> ns[FreeInode(ns, 1)] == FREENODE)
  {
    var i := FreeInode(ns, 1);
    assert i < |ns| ==> NodeOk(ns, i);
  }
}

/**
  Directories and link counts of SFS: a directory is a sequence of slots, each
  empty or holding a name and an inode number.
 */
module SfsLinks {
  import D = SfsDisk

  const ROOT := D.ROOT

  datatype Slot = Empty | Entry(name: string, ino: nat)

  // The parts of an inode that directories are about.  A file has no slots.
  datatype Inode = Inode(dir: bool, nlinks: nat, slots: nat, parent: nat, removed: bool, entries: seq<Slot>)

  type Nodes = map<nat, Inode>

  predicate Live(nodes: Nodes, d: nat) { d in nodes && nodes[d].dir && !nodes[d].removed }

  // ------------------------------------------------------------ counting

  function Used(entries: seq<Slot>): set<nat> {
    set i | 0 <= i < |entries| && entries[i].Entry?
  }

  predicate Names(e: Slot, x: nat) { e.Entry? && e.ino == x }

  // The places where the inode has a name: directory and slot.
  function Links(nodes: Nodes, x: nat): set<(nat, nat)> {
    set d, i | d in nodes && 0 <= i < |nodes[d].entries| && Names(nodes[d].entries[i], x) :: (d, i)
  }

  // The live directories whose parent field names `d`.
  function Subdirs(nodes: Nodes, d: nat): set<nat> {
    set c | c in nodes && nodes[c].dir && !nodes[c].removed && nodes[c].parent == d
  }

  // What nlinks should be.
  function Expected(nodes: Nodes, x: nat): nat {
    |Links(nodes, x)| + if Live(nodes, x) then 1 + |Subdirs(nodes, x)| else 0
  }

  // ------------------------------------------------------------ invariant

  ghost predicate DistinctNames(entries: seq<Slot>) {
    forall i, j :: 0 <= i < j < |entries| && entries[i].Entry? && entries[j].Entry? ==>
        entries[i].name != entries[j].name
  }

  // A directory's own slots.
  ghost predicate DirOk(nodes: Nodes, d: nat)
    requires d in nodes
  {
    && nodes[d].slots == |Used(nodes[d].entries)| && DistinctNames(nodes[d].entries)
    && (forall i :: 0 <= i < |nodes[d].entries| && nodes[d].entries[i].Entry? ==> nodes[d].entries[i].ino in nodes)
    && (!nodes[d].dir || nodes[d].removed ==> Used(nodes[d].entries) == {})
    && (nodes[d].removed ==> nodes[d].dir)
  }

  // A live directory other than the root has exactly one name, in its parent.
  ghost predicate HomeOk(nodes: Nodes, c: nat)
    requires c in nodes
  {
    nodes[c].dir ==>
      if nodes[c].removed || c == ROOT then Links(nodes, c) == {}
      else exists i :: Links(nodes, c) == {(nodes[c].parent, i)}
  }

  ghost predicate CountOk(nodes: Nodes, x: nat)
    requires x in nodes
  {
    nodes[x].nlinks == Expected(nodes, x)
  }

  ghost predicate Inv(nodes: Nodes) {
    && 0 !in nodes && Live(nodes, ROOT) && nodes[ROOT].parent == ROOT
    && (forall x :: x in nodes ==> DirOk(nodes, x))
    && (forall x :: x in nodes ==> HomeOk(nodes, x))
    && (forall x :: x in nodes ==> CountOk(nodes, x))
  }

  // ------------------------------------------------------------ one slot

  function Write(entries: seq<Slot>, i: nat, e: Slot): seq<Slot>
    requires i <= |entries|
  {
    if i == |entries| then entries + [e] else entries[i := e]
  }

  // sfs_dirent_write_nolock.
  function WriteSlot(nodes: Nodes, d: nat, i: nat, e: Slot): Nodes
    requires d in nodes && i <= |nodes[d].entries|
  {
    nodes[d := nodes[d].(entries := Write(nodes[d].entries, i, e))]
  }

  lemma UsedWrite(entries: seq<Slot>, i: nat, e: Slot)
    requires i <= |entries|
    ensures Used(Write(entries, i, e)) == if e.Entry? then Used(entries) + {i} else Used(entries) - {i}
  {
    var w := Write(entries, i, e);
    forall j ensures j in Used(w) <==> j in (if e.Entry? then Used(entries) + {i} else Used(entries) - {i}) {}
  }

  lemma LinksWrite(nodes: Nodes, d: nat, i: nat, e: Slot, x: nat)
    requires d in nodes && i <= |nodes[d].entries|
    ensures Links(WriteSlot(nodes, d, i, e), x) == if Names(e, x) then Links(nodes, x) + {(d, i)}
        else Links(nodes, x) - {(d, i)}
  {
    var n' := WriteSlot(nodes, d, i, e);
    var w := Write(nodes[d].entries, i, e);
    assert forall j :: 0 <= j < |w| ==> w[j] == if j == i then e else nodes[d].entries[j];
    forall p: (nat, nat) ensures p in Links(n', x) <==>
        p in (if Names(e, x) then Links(nodes, x) + {(d, i)} else Links(nodes, x) - {(d, i)}) {
      if p.0 == d && p.0 in n' { assert n'[d].entries == w; }
    }
  }

  // Links look at slots only, subdirectories at type, liveness and parent.
  ghost predicate SameSlots(nodes: Nodes, nodes': Nodes) {
    nodes'.Keys == nodes.Keys && forall x :: x in nodes ==> nodes'[x].entries == nodes[x].entries
  }

  lemma LinksSame(nodes: Nodes, nodes': Nodes, x: nat)
    requires SameSlots(nodes, nodes')
    ensures Links(nodes', x) == Links(nodes, x)
  {
  }

  ghost predicate SameTree(nodes: Nodes, nodes': Nodes) {
    nodes'.Keys == nodes.Keys && forall x :: x in nodes ==>
      nodes'[x].dir == nodes[x].dir && nodes'[x].removed == nodes[x].removed && nodes'[x].parent == nodes[x].parent
  }

  lemma SubdirsSame(nodes: Nodes, nodes': Nodes, d: nat)
    requires SameTree(nodes, nodes')
    ensures Subdirs(nodes', d) == Subdirs(nodes, d)
  {
  }

  lemma DistinctWrite(entries: seq<Slot>, i: nat, e: Slot)
    requires DistinctNames(entries) && i <= |entries|
    requires e.Entry? ==> forall j :: 0 <= j < |entries| && j != i && entries[j].Entry? ==> entries[j].name != e.name
    ensures DistinctNames(Write(entries, i, e))
  {
    var w := Write(entries, i, e);
    assert forall j :: 0 <= j < |w| ==> w[j] == if j == i then e else entries[j];
  }

  // ------------------------------------------------------------ looking up

  // The slot of a name, or the number of slots.
  function Find(entries: seq<Slot>, name: string): (i: nat)
    ensures i <= |entries| && (i < |entries| ==> entries[i].Entry? && entries[i].name == name)
    ensures forall j :: 0 <= j < i ==> !(entries[j].Entry? && entries[j].name == name)
  {
    if entries == [] then 0
    else if entries[0].Entry? && entries[0].name == name then 0
    else 1 + Find(entries[1..], name)
  }

  // What the name stands for: an inode number, 0 when there is none.
  function Target(nodes: Nodes, d: nat, name: string): nat {
    if d !in nodes then 0
    else var i := Find(nodes[d].entries, name); if i < |nodes[d].entries| then nodes[d].entries[i].ino else 0
  }

  lemma FindIs(entries: seq<Slot>, name: string, i: nat)
    requires DistinctNames(entries) && i < |entries| && entries[i].Entry? && entries[i].name == name
    ensures Find(entries, name) == i
  {
    var j := Find(entries, name);
  }

  lemma FindNone(entries: seq<Slot>, name: string)
    requires forall j :: 0 <= j < |entries| ==> !(entries[j].Entry? && entries[j].name == name)
    ensures Find(entries, name) == |entries|
  {
    var j := Find(entries, name);
  }

  // The names of `d` after a write to one of its slots.
  lemma FindWrite(entries: seq<Slot>, i: nat, e: Slot, name: string)
    requires DistinctNames(entries) && i <= |entries| && DistinctNames(Write(entries, i, e))
    ensures var w := Write(entries, i, e); var k := Find(w, name);
      if e.Entry? && e.name == name then k == i
      else if Find(entries, name) == i then k == |w|
      else if Find(entries, name) == |entries| then k == |w|
      else k == Find(entries, name)
  {
    var w := Write(entries, i, e);
    assert forall j :: 0 <= j < |w| ==> w[j] == if j == i then e else entries[j];
    if e.Entry? && e.name == name {
      FindIs(w, name, i);
    } else {
      var k := Find(entries, name);
      if k == i || k == |entries| {
        forall j: nat | j < |w| ensures !(w[j].Entry? && w[j].name == name) {
          if j != i && entries[j].Entry? && entries[j].name == name { FindIs(entries, name, j); }
        }
        FindNone(w, name);
      } else {
        FindIs(w, name, k);
      }
    }
  }

  // ------------------------------------------------------------ small updates

  function AddLinks(nodes: Nodes, x: nat, k: int): Nodes
    requires x in nodes && nodes[x].nlinks + k >= 0
  {
    nodes[x := nodes[x].(nlinks := nodes[x].nlinks + k)]
  }

  function AddSlots(nodes: Nodes, d: nat, k: int): Nodes
    requires d in nodes && nodes[d].slots + k >= 0
  {
    nodes[d := nodes[d].(slots := nodes[d].slots + k)]
  }

  function SetParent(nodes: Nodes, x: nat, d: nat): Nodes
    requires x in nodes
  {
    nodes[x := nodes[x].(parent := d)]
  }

  function SetRemoved(nodes: Nodes, x: nat): Nodes
    requires x in nodes
  {
    nodes[x := nodes[x].(removed := true)]
  }

  // sfs_dirent_link_nolock and sfs_dirent_unlink_nolock, when the slot could
  // be written.
  function LinkEntry(nodes: Nodes, d: nat, i: nat, name: string, x: nat): (r: Nodes)
    requires d in nodes && x in nodes && i <= |nodes[d].entries|
    ensures r.Keys == nodes.Keys
  {
    AddLinks(AddSlots(WriteSlot(nodes, d, i, Entry(name, x)), d, 1), x, 1)
  }

  function UnlinkEntry(nodes: Nodes, d: nat, i: nat, x: nat): (r: Nodes)
    requires d in nodes && x in nodes && i < |nodes[d].entries| && nodes[d].slots > 0 && nodes[x].nlinks > 0
    ensures r.Keys == nodes.Keys
  {
    AddLinks(AddSlots(WriteSlot(nodes, d, i, Empty), d, -1), x, -1)
  }

  // ------------------------------------------------------------ one change at a time

  // The slot can take a new entry of that name.
  ghost predicate Room(nodes: Nodes, d: nat, i: nat, name: string) {
    && Live(nodes, d) && i <= |nodes[d].entries| && (i < |nodes[d].entries| ==> nodes[d].entries[i] == Empty)
    && Find(nodes[d].entries, name) == |nodes[d].entries|
  }

  // The slot names `x`.
  ghost predicate Placed(nodes: Nodes, d: nat, i: nat, x: nat) {
    d in nodes && i < |nodes[d].entries| && Names(nodes[d].entries[i], x)
  }

  lemma PlacedIn(nodes: Nodes, d: nat, i: nat, x: nat)
    requires Inv(nodes) && Placed(nodes, d, i, x)
    ensures (d, i) in Links(nodes, x) && x in nodes && Live(nodes, d) && nodes[d].slots > 0 && nodes[x].nlinks > 0
    ensures nodes[x].dir ==>
      !nodes[x].removed && nodes[x].parent == d && Links(nodes, x) == {(d, i)} && x != ROOT && nodes[d].nlinks > 0
  {
    assert DirOk(nodes, d) && i in Used(nodes[d].entries) && x in nodes;
    assert (d, i) in Links(nodes, x);
    assert CountOk(nodes, x) && HomeOk(nodes, x) && CountOk(nodes, d);
  }

  // What a link or an unlink does to every inode's slots, links and tree.
  lemma LinkEffect(nodes: Nodes, d: nat, i: nat, name: string, x: nat, y: nat)
    requires d in nodes && x in nodes && i <= |nodes[d].entries|
    requires (i < |nodes[d].entries| ==> nodes[d].entries[i] == Empty)
    ensures var r := LinkEntry(nodes, d, i, name, x);
      && Links(r, y) == (if y == x then Links(nodes, x) + {(d, i)} else Links(nodes, y)) && (d, i) !in Links(nodes, y)
      && Subdirs(r, y) == Subdirs(nodes, y) && SameTree(nodes, r)
  {
    hide Links, Subdirs;
    var w := WriteSlot(nodes, d, i, Entry(name, x));
    var r := LinkEntry(nodes, d, i, name, x);
    LinksWrite(nodes, d, i, Entry(name, x), y);
    LinksSame(w, r, y);
    SubdirsSame(nodes, r, y);
    LinksHas(nodes, y, d, i);
  }

  lemma LinksHas(nodes: Nodes, x: nat, d: nat, i: nat)
    ensures (d, i) in Links(nodes, x) <==> Placed(nodes, d, i, x)
  {
  }

  lemma UnlinkEffect(nodes: Nodes, d: nat, i: nat, x: nat, y: nat)
    requires Placed(nodes, d, i, x) && x in nodes && nodes[d].slots > 0 && nodes[x].nlinks > 0
    ensures var r := UnlinkEntry(nodes, d, i, x);
      && Links(r, y) == (if y == x then Links(nodes, x) - {(d, i)} else Links(nodes, y))
      && Subdirs(r, y) == Subdirs(nodes, y) && SameTree(nodes, r)
  {
    hide Links, Subdirs;
    var w := WriteSlot(nodes, d, i, Empty);
    var r := UnlinkEntry(nodes, d, i, x);
    LinksHas(nodes, y, d, i);
    LinksWrite(nodes, d, i, Empty, y);
    LinksSame(w, r, y);
    SubdirsSame(nodes, r, y);
  }

  lemma LinkDirOk(nodes: Nodes, d: nat, i: nat, name: string, x: nat, y: nat)
    requires x in nodes && Room(nodes, d, i, name) && y in nodes && DirOk(nodes, y) && DirOk(nodes, d)
    ensures DirOk(LinkEntry(nodes, d, i, name, x), y)
  {
    hide Used, DistinctNames, Write, Find;
    var r := LinkEntry(nodes, d, i, name, x);
    if y == d {
      var e := nodes[d].entries;
      var w := Write(e, i, Entry(name, x));
      UsedWrite(e, i, Entry(name, x));
      NewName(e, i, name, x);
      assert r[d].entries == w;
      NotUsed(e, i);
    }
  }

  // An entry for a name that is not there, in a slot that is free.
  lemma NewName(entries: seq<Slot>, i: nat, name: string, x: nat)
    requires DistinctNames(entries) && i <= |entries| && Find(entries, name) == |entries|
    ensures var w := Write(entries, i, Entry(name, x));
      && DistinctNames(w) && |w| == (if i == |entries| then i + 1 else |entries|)
      && forall j :: 0 <= j < |w| ==> w[j] == if j == i then Entry(name, x) else entries[j]
  {
    DistinctWrite(entries, i, Entry(name, x));
  }

  lemma NotUsed(entries: seq<Slot>, i: nat)
    requires i < |entries| ==> entries[i] == Empty
    ensures i !in Used(entries)
  {
  }

  lemma UnlinkDirOk(nodes: Nodes, d: nat, i: nat, x: nat, y: nat)
    requires Placed(nodes, d, i, x) && x in nodes && nodes[d].slots > 0 && nodes[x].nlinks > 0 && y in nodes
    requires DirOk(nodes, y)
    ensures DirOk(UnlinkEntry(nodes, d, i, x), y)
  {
    var r := UnlinkEntry(nodes, d, i, x);
    if y == d {
      UsedWrite(nodes[d].entries, i, Empty);
      DistinctWrite(nodes[d].entries, i, Empty);
      assert r[d].entries == nodes[d].entries[i := Empty];
      assert i in Used(nodes[d].entries);
    }
  }

  // ------------------------------------------------------------ files

  function NewInode(dir: bool): Inode { Inode(dir, 0, 0, 0, false, []) }

  // A new file without a name.
  lemma NewFileOk(nodes: Nodes, x: nat)
    requires Inv(nodes) && x !in nodes && x != 0
    ensures Inv(nodes[x := NewInode(false)])
  {
    hide Links, Subdirs, Used, DirOk;
    var r := nodes[x := NewInode(false)];
    forall y | y in r ensures DirOk(r, y) && HomeOk(r, y) && CountOk(r, y) {
      NewLinks(nodes, x, NewInode(false), y);
      NewSubdirs(nodes, x, y);
      NewDirOk(nodes, x, NewInode(false), y);
      if y != x { assert HomeOk(nodes, y) && CountOk(nodes, y); }
    }
  }

  lemma NewSubdirs(nodes: Nodes, x: nat, y: nat)
    requires x !in nodes
    ensures Subdirs(nodes[x := NewInode(false)], y) == Subdirs(nodes, y)
  {
  }

  lemma NewDirOk(nodes: Nodes, x: nat, n: Inode, y: nat)
    requires Inv(nodes) && x !in nodes && n.entries == [] && n.slots == 0 && !n.removed && (y == x || y in nodes)
    ensures DirOk(nodes[x := n], y)
  {
    hide HomeOk, CountOk;
    if y != x { assert DirOk(nodes, y); }
  }

  lemma NewLinks(nodes: Nodes, x: nat, n: Inode, y: nat)
    requires Inv(nodes) && x !in nodes && n.entries == []
    ensures Links(nodes[x := n], y) == Links(nodes, y) && Links(nodes, x) == {}
  {
    hide HomeOk, CountOk;
    forall p: (nat, nat) ensures p !in Links(nodes, x) {
      if p.0 in nodes { assert DirOk(nodes, p.0); }
    }
  }

  lemma LinkFileOk(nodes: Nodes, d: nat, i: nat, name: string, x: nat)
    requires Inv(nodes) && x in nodes && !nodes[x].dir && Room(nodes, d, i, name)
    ensures Inv(LinkEntry(nodes, d, i, name, x))
  {
    hide Links, Subdirs, Used, DirOk, Room;
    RoomSlot(nodes, d, i, name);
    var r := LinkEntry(nodes, d, i, name, x);
    forall y | y in r ensures DirOk(r, y) && HomeOk(r, y) && CountOk(r, y) {
      LinkEffect(nodes, d, i, name, x, y);
      LinkDirOk(nodes, d, i, name, x, y);
      assert HomeOk(nodes, y) && CountOk(nodes, y);
    }
  }

  lemma RoomSlot(nodes: Nodes, d: nat, i: nat, name: string)
    requires Room(nodes, d, i, name)
    ensures Live(nodes, d) && i <= |nodes[d].entries| && (i < |nodes[d].entries| ==> nodes[d].entries[i] == Empty)
  {
  }

  lemma UnlinkFileOk(nodes: Nodes, d: nat, i: nat, x: nat)
    requires Inv(nodes) && Placed(nodes, d, i, x) && x in nodes && !nodes[x].dir && nodes[d].slots > 0
    requires nodes[x].nlinks > 0
    ensures Inv(UnlinkEntry(nodes, d, i, x))
  {
    hide Links, Subdirs, Used, DirOk;
    var r := UnlinkEntry(nodes, d, i, x);
    PlacedIn(nodes, d, i, x);
    forall y | y in r ensures DirOk(r, y) && HomeOk(r, y) && CountOk(r, y) {
      UnlinkEffect(nodes, d, i, x, y);
      UnlinkDirOk(nodes, d, i, x, y);
      assert HomeOk(nodes, y) && CountOk(nodes, y);
    }
  }

  // An inode whose last name and last user have gone.
  lemma ForgetOk(nodes: Nodes, x: nat)
    requires Inv(nodes) && x in nodes && nodes[x].nlinks == 0
    ensures Inv(nodes - {x}) && Links(nodes, x) == {}
  {
    hide Links, Subdirs, Used, DirOk;
    var r := nodes - {x};
    assert CountOk(nodes, x) && CountOk(nodes, ROOT);
    assert Links(nodes, x) == {} && !Live(nodes, x);
    forall y | y in r ensures DirOk(r, y) && HomeOk(r, y) && CountOk(r, y) {
      assert HomeOk(nodes, y) && CountOk(nodes, y);
      ForgetParts(nodes, x, y);
    }
  }

  lemma ForgetParts(nodes: Nodes, x: nat, y: nat)
    requires x in nodes && y in nodes && y != x && DirOk(nodes, x) && DirOk(nodes, y) && Links(nodes, x) == {}
    requires !Live(nodes, x)
    ensures Links(nodes - {x}, y) == Links(nodes, y) && Subdirs(nodes - {x}, y) == Subdirs(nodes, y)
    ensures DirOk(nodes - {x}, y)
  {
    forall i: nat | i < |nodes[x].entries| ensures !nodes[x].entries[i].Entry? { assert i !in Used(nodes[x].entries); }
    forall i: nat | i < |nodes[y].entries| ensures !Names(nodes[y].entries[i], x) { assert (y, i) !in Links(nodes, x); }
    assert Links(nodes - {x}, y) == Links(nodes, y);
  }

  // ------------------------------------------------------------ directories

  // sfs_mkdir_nolock after the new inode `x` is there.
  function MkdirNodes(nodes: Nodes, d: nat, i: nat, name: string, x: nat): Nodes
    requires d in nodes && x !in nodes && i <= |nodes[d].entries|
  {
    AddLinks(AddLinks(SetParent(LinkEntry(nodes[x := NewInode(true)], d, i, name, x), x, d), x, 1), d, 1)
  }

  lemma MkdirOk(nodes: Nodes, d: nat, i: nat, name: string, x: nat)
    requires Inv(nodes) && x !in nodes && x != 0 && Room(nodes, d, i, name)
    ensures Inv(MkdirNodes(nodes, d, i, name, x))
  {
    hide Links, Subdirs, Used, DirOk, HomeOk, CountOk, Find, MkdirNodes;
    MkdirTree(nodes, d, i, name, x);
    var r := MkdirNodes(nodes, d, i, name, x);
    forall y | y in r ensures DirOk(r, y) && HomeOk(r, y) && CountOk(r, y) {
      MkdirAt(nodes, d, i, name, x, y);
    }
  }

  lemma MkdirAt(nodes: Nodes, d: nat, i: nat, name: string, x: nat, y: nat)
    requires Inv(nodes) && x !in nodes && Room(nodes, d, i, name) && (y == x || y in nodes)
    ensures var r := MkdirNodes(nodes, d, i, name, x); y in r && DirOk(r, y) && HomeOk(r, y) && CountOk(r, y)
  {
    hide Links, Subdirs, Used, DirOk, Find, MkdirNodes;
    MkdirParts(nodes, d, i, name, x, y);
    MkdirTree(nodes, d, i, name, x);
    MkdirSubdirs(nodes, d, i, name, x, y);
    if y != x { assert HomeOk(nodes, y) && CountOk(nodes, y); }
  }

  // The new inode's links, and everybody's counts.
  lemma MkdirParts(nodes: Nodes, d: nat, i: nat, name: string, x: nat, y: nat)
    requires Inv(nodes) && x !in nodes && Room(nodes, d, i, name) && (y == x || y in nodes)
    ensures var r := MkdirNodes(nodes, d, i, name, x);
      && y in r && DirOk(r, y) && Links(r, y) == (if y == x then {(d, i)} else Links(nodes, y))
      && r[y].nlinks == if y == x then 2 else if y == d then nodes[d].nlinks + 1 else nodes[y].nlinks
  {
    hide Links, Subdirs, Used, DirOk, Find, HomeOk, CountOk;
    var n0 := nodes[x := NewInode(true)];
    var n1 := LinkEntry(n0, d, i, name, x);
    var r := MkdirNodes(nodes, d, i, name, x);
    NewDirOk(nodes, x, NewInode(true), y);
    NewDirOk(nodes, x, NewInode(true), d);
    NewLinks(nodes, x, NewInode(true), y);
    LinkEffect(n0, d, i, name, x, y);
    LinkDirOk(n0, d, i, name, x, y);
    LinksSame(n1, r, y);
    DirOkSame(n1, r, y);
  }

  lemma DirOkSame(nodes: Nodes, nodes': Nodes, y: nat)
    requires y in nodes && nodes'.Keys == nodes.Keys && DirOk(nodes, y)
    requires nodes'[y] == nodes[y].(nlinks := nodes'[y].nlinks, parent := nodes'[y].parent)
    ensures DirOk(nodes', y)
  {
  }

  // The parent of a live directory is there, with links: loading it passes the
  // assertions of sfs_load_inode.
  lemma ParentThere(nodes: Nodes, c: nat)
    requires Inv(nodes) && Live(nodes, c)
    ensures var p := nodes[c].parent; Live(nodes, p) && nodes[p].nlinks > 0
  {
    hide Subdirs, Used, DirOk;
    var p := nodes[c].parent;
    assert HomeOk(nodes, c);
    if c == ROOT {
      assert CountOk(nodes, ROOT);
    } else {
      var i :| Links(nodes, c) == {(p, i)};
      assert (p, i) in Links(nodes, c);
      PlacedIn(nodes, p, i, c);
    }
  }

  lemma MkdirSubdirs(nodes: Nodes, d: nat, i: nat, name: string, x: nat, y: nat)
    requires Inv(nodes) && x !in nodes && Room(nodes, d, i, name)
    ensures Subdirs(MkdirNodes(nodes, d, i, name, x), y) == if y == d then Subdirs(nodes, d) + {x}
        else Subdirs(nodes, y)
    ensures x !in Subdirs(nodes, y) && Subdirs(nodes, x) == {}
  {
    hide HomeOk, CountOk, DirOk, Links, Used, MkdirNodes;
    forall c | Live(nodes, c) ensures nodes[c].parent in nodes { ParentThere(nodes, c); }
    MkdirTree(nodes, d, i, name, x);
  }

  lemma MkdirTree(nodes: Nodes, d: nat, i: nat, name: string, x: nat)
    requires d in nodes && x !in nodes && i <= |nodes[d].entries|
    ensures var r := MkdirNodes(nodes, d, i, name, x);
      && r.Keys == nodes.Keys + {x} && r[x].dir && !r[x].removed && r[x].parent == d
      && forall c :: c in nodes ==>
          r[c].dir == nodes[c].dir && r[c].removed == nodes[c].removed && r[c].parent == nodes[c].parent
  {
  }

  // sfs_unlink_nolock of an empty directory.
  function RmdirNodes(nodes: Nodes, d: nat, i: nat, x: nat): Nodes
    requires Placed(nodes, d, i, x) && x in nodes && x != d && nodes[d].slots > 0 && nodes[x].nlinks > 1
    requires nodes[d].nlinks > 0
  {
    AddLinks(AddLinks(SetRemoved(UnlinkEntry(nodes, d, i, x), x), x, -1), d, -1)
  }

  // A directory with no slots in use is nobody's parent, and its links are
  // its one name and its own dot.
  lemma EmptyDir(nodes: Nodes, d: nat, i: nat, x: nat)
    requires Inv(nodes) && Placed(nodes, d, i, x) && x in nodes && nodes[x].dir && nodes[x].slots == 0
    ensures Subdirs(nodes, x) == {} && Links(nodes, x) == {(d, i)} && nodes[x].nlinks == 2
    ensures Used(nodes[x].entries) == {} && x != d && x != ROOT
  {
    hide Links, Subdirs, Used;
    PlacedIn(nodes, d, i, x);
    assert DirOk(nodes, x) && CountOk(nodes, x) && HomeOk(nodes, x);
    NoSubdirs(nodes, x);
    assert x != d by { assert nodes[d].slots > 0; }
  }

  lemma NoSubdirs(nodes: Nodes, x: nat)
    requires Inv(nodes) && x in nodes && nodes[x].slots == 0 && x != ROOT
    ensures Subdirs(nodes, x) == {}
  {
    hide CountOk;
    assert DirOk(nodes, x);
    forall c ensures c !in Subdirs(nodes, x) {
      if Live(nodes, c) && c != ROOT {
        assert HomeOk(nodes, c);
        var i :| Links(nodes, c) == {(nodes[c].parent, i)};
        assert (nodes[c].parent, i) in Links(nodes, c);
        assert i in Used(nodes[nodes[c].parent].entries);
      }
    }
  }

  lemma RmdirOk(nodes: Nodes, d: nat, i: nat, x: nat)
    requires Inv(nodes) && Placed(nodes, d, i, x) && x in nodes && nodes[x].dir && nodes[x].slots == 0
    ensures x != d && nodes[d].slots > 0 && nodes[x].nlinks > 1 && nodes[d].nlinks > 0
    ensures Inv(RmdirNodes(nodes, d, i, x)) && RmdirNodes(nodes, d, i, x)[x].nlinks == 0
  {
    hide Links, Subdirs, Used, DirOk, HomeOk, CountOk, RmdirNodes;
    EmptyDir(nodes, d, i, x);
    PlacedIn(nodes, d, i, x);
    RmdirRoot(nodes, d, i, x);
    var r := RmdirNodes(nodes, d, i, x);
    forall y | y in r ensures DirOk(r, y) && HomeOk(r, y) && CountOk(r, y) { RmdirAt(nodes, d, i, x, y); }
  }

  lemma RmdirRoot(nodes: Nodes, d: nat, i: nat, x: nat)
    requires Inv(nodes) && Placed(nodes, d, i, x) && x in nodes && x != d && x != ROOT && nodes[d].slots > 0
    requires nodes[x].nlinks == 2 && nodes[d].nlinks > 0
    ensures var r := RmdirNodes(nodes, d, i, x);
      Live(r, ROOT) && r[ROOT].parent == ROOT && r.Keys == nodes.Keys && r[x].nlinks == 0
  {
    hide Links, Subdirs, Used, DirOk, HomeOk, CountOk;
  }

  lemma RmdirAt(nodes: Nodes, d: nat, i: nat, x: nat, y: nat)
    requires Inv(nodes) && Placed(nodes, d, i, x) && x in nodes && nodes[x].dir && nodes[x].slots == 0 && y in nodes
    requires x != d && nodes[d].slots > 0 && nodes[x].nlinks > 1 && nodes[d].nlinks > 0
    ensures var r := RmdirNodes(nodes, d, i, x); y in r && DirOk(r, y) && HomeOk(r, y) && CountOk(r, y)
  {
    hide Links, Subdirs, Used, DirOk, RmdirNodes;
    EmptyDir(nodes, d, i, x);
    PlacedIn(nodes, d, i, x);
    RmdirParts(nodes, d, i, x, y);
    assert HomeOk(nodes, y) && CountOk(nodes, y);
  }

  lemma RmdirParts(nodes: Nodes, d: nat, i: nat, x: nat, y: nat)
    requires Inv(nodes) && Placed(nodes, d, i, x) && Live(nodes, x) && nodes[x].parent == d
    requires Used(nodes[x].entries) == {} && y in nodes
    requires x != d && nodes[d].slots > 0 && nodes[x].nlinks > 1 && nodes[d].nlinks > 0
    ensures var r := RmdirNodes(nodes, d, i, x);
      && y in r && DirOk(r, y) && Links(r, y) == (if y == x then Links(nodes, x) - {(d, i)} else Links(nodes, y))
      && Subdirs(r, y) == Subdirs(nodes, y) - {x} && (x in Subdirs(nodes, y) <==> y == d)
      && r[y].nlinks == nodes[y].nlinks - (if y == x then 2 else if y == d then 1 else 0)
      && r[y].dir == nodes[y].dir && r[y].parent == nodes[y].parent && r[y].removed == (nodes[y].removed || y == x)
  {
    hide Links, Subdirs, Used, DirOk, HomeOk, CountOk;
    var n1 := UnlinkEntry(nodes, d, i, x);
    var r := RmdirNodes(nodes, d, i, x);
    UnlinkEffect(nodes, d, i, x, y);
    UnlinkDirOk(nodes, d, i, x, y);
    LinksSame(n1, r, y);
    RmdirDirOk(nodes, n1, r, d, x, y);
    RmdirSubdirs(n1, r, d, x, y);
  }

  lemma RmdirDirOk(nodes: Nodes, n1: Nodes, r: Nodes, d: nat, x: nat, y: nat)
    requires y in n1 && r.Keys == n1.Keys == nodes.Keys && DirOk(n1, y) && x in nodes
    requires n1[x].entries == nodes[x].entries && Used(nodes[x].entries) == {}
    requires r[y] == n1[y].(nlinks := r[y].nlinks, removed := r[y].removed)
    requires (r[y].removed != n1[y].removed ==> y == x) && n1[x].dir
    ensures DirOk(r, y)
  {
  }

  lemma RmdirSubdirs(n1: Nodes, r: Nodes, d: nat, x: nat, y: nat)
    requires Live(n1, x) && n1[x].parent == d && r.Keys == n1.Keys && r[x].removed
    requires forall c :: c in n1 ==>
      r[c].dir == n1[c].dir && r[c].parent == n1[c].parent && (c != x ==> r[c].removed == n1[c].removed)
    ensures Subdirs(r, y) == Subdirs(n1, y) - {x} && (x in Subdirs(n1, y) <==> y == d)
  {
  }

  // ------------------------------------------------------------ renaming

  // Within one directory.
  lemma RenameOk(nodes: Nodes, d: nat, i: nat, x: nat, name: string)
    requires Inv(nodes) && Placed(nodes, d, i, x) && Find(nodes[d].entries, name) == |nodes[d].entries|
    ensures Inv(WriteSlot(nodes, d, i, Entry(name, x)))
  {
    hide Links, Subdirs, Used, Find;
    PlacedIn(nodes, d, i, x);
    var r := WriteSlot(nodes, d, i, Entry(name, x));
    forall y | y in r ensures DirOk(r, y) && HomeOk(r, y) && CountOk(r, y) {
      LinksWrite(nodes, d, i, Entry(name, x), y);
      LinksHas(nodes, y, d, i);
      assert Links(r, y) == Links(nodes, y);
      SubdirsSame(nodes, r, y);
      RenameDirOk(nodes, d, i, x, name, y);
      assert HomeOk(nodes, y) && CountOk(nodes, y);
    }
  }

  lemma RenameDirOk(nodes: Nodes, d: nat, i: nat, x: nat, name: string, y: nat)
    requires Placed(nodes, d, i, x) && y in nodes && DirOk(nodes, y) && x in nodes
    requires Find(nodes[d].entries, name) == |nodes[d].entries|
    ensures DirOk(WriteSlot(nodes, d, i, Entry(name, x)), y)
  {
    var e := nodes[d].entries;
    if y == d {
      UsedWrite(e, i, Entry(name, x));
      DistinctWrite(e, i, Entry(name, x));
      assert i in Used(e);
      assert Used(e) + {i} == Used(e);
      assert forall j :: 0 <= j < |e| ==> Write(e, i, Entry(name, x))[j] == if j == i then Entry(name, x) else e[j];
    }
  }

  // A directory into another directory.
  function MoveDir(nodes: Nodes, d: nat, i: nat, e: nat, j: nat, name: string, x: nat): Nodes
    requires Placed(nodes, d, i, x) && x in nodes && e in nodes && d != e && j <= |nodes[e].entries|
    requires nodes[d].slots > 0 && nodes[x].nlinks > 0 && nodes[d].nlinks > (if d == x then 1 else 0)
  {
    var n1 := AddLinks(UnlinkEntry(nodes, d, i, x), d, -1);
    SetParent(AddLinks(LinkEntry(n1, e, j, name, x), e, 1), x, e)
  }

  // A failed link whose recovery succeeds changes nothing.
  lemma RollbackIsNothing(nodes: Nodes, d: nat, i: nat, x: nat)
    requires Placed(nodes, d, i, x) && x in nodes && nodes[d].slots > 0 && nodes[x].nlinks > 0
    ensures LinkEntry(UnlinkEntry(nodes, d, i, x), d, i, nodes[d].entries[i].name, x) == nodes
    ensures nodes[d].nlinks > (if d == x then 1 else 0) ==>
      AddLinks(LinkEntry(AddLinks(UnlinkEntry(nodes, d, i, x), d, -1), d, i, nodes[d].entries[i].name, x), d, 1) == nodes
  {
    var e := nodes[d].entries;
    assert Write(Write(e, i, Empty), i, Entry(e[i].name, x)) == e;
  }

  lemma MoveDirOk(nodes: Nodes, d: nat, i: nat, e: nat, j: nat, name: string, x: nat)
    requires Inv(nodes) && Placed(nodes, d, i, x) && x in nodes && nodes[x].dir && d != e && Room(nodes, e, j, name)
    ensures nodes[d].slots > 0 && nodes[x].nlinks > 0 && nodes[d].nlinks > (if d == x then 1 else 0)
    ensures Inv(MoveDir(nodes, d, i, e, j, name, x))
  {
    hide Links, Subdirs, Used, DirOk, HomeOk, CountOk, MoveDir, Room, Find;
    RoomSlot(nodes, e, j, name);
    PlacedIn(nodes, d, i, x);
    MoveCounts(nodes, d, i, x);
    MoveTree(nodes, d, i, e, j, name, x);
    var r := MoveDir(nodes, d, i, e, j, name, x);
    forall y | y in r ensures DirOk(r, y) && HomeOk(r, y) && CountOk(r, y) { MoveDirAt(nodes, d, i, e, j, name, x, y); }
  }

  // A directory that is its own parent has a name, a dot and itself below it.
  lemma MoveCounts(nodes: Nodes, d: nat, i: nat, x: nat)
    requires Inv(nodes) && Placed(nodes, d, i, x) && x in nodes && nodes[x].dir
    ensures nodes[d].nlinks > (if d == x then 1 else 0)
  {
    hide Links, Used, DirOk;
    PlacedIn(nodes, d, i, x);
    assert CountOk(nodes, d);
    assert x in Subdirs(nodes, d);
  }

  lemma MoveTree(nodes: Nodes, d: nat, i: nat, e: nat, j: nat, name: string, x: nat)
    requires Placed(nodes, d, i, x) && x in nodes && e in nodes && d != e && j <= |nodes[e].entries|
    requires nodes[d].slots > 0 && nodes[x].nlinks > 0 && nodes[d].nlinks > (if d == x then 1 else 0)
    ensures var r := MoveDir(nodes, d, i, e, j, name, x);
      && r.Keys == nodes.Keys && r[x].parent == e
      && forall c :: c in nodes ==>
          r[c].dir == nodes[c].dir && r[c].removed == nodes[c].removed && (c != x ==> r[c].parent == nodes[c].parent)
  {
    hide LinkEntry, UnlinkEntry;
    UnlinkTree(nodes, d, i, x);
    var n1 := AddLinks(UnlinkEntry(nodes, d, i, x), d, -1);
    LinkTree(n1, e, j, name, x);
  }

  lemma UnlinkTree(nodes: Nodes, d: nat, i: nat, x: nat)
    requires Placed(nodes, d, i, x) && x in nodes && nodes[d].slots > 0 && nodes[x].nlinks > 0
    ensures var r := UnlinkEntry(nodes, d, i, x);
      && SameTree(nodes, r) && r[d].nlinks == nodes[d].nlinks - (if d == x then 1 else 0)
      && forall c :: c in nodes && c != d ==> r[c].entries == nodes[c].entries
  {
  }

  lemma LinkTree(nodes: Nodes, e: nat, j: nat, name: string, x: nat)
    requires e in nodes && x in nodes && j <= |nodes[e].entries|
    ensures SameTree(nodes, LinkEntry(nodes, e, j, name, x))
  {
  }

  lemma MoveDirAt(nodes: Nodes, d: nat, i: nat, e: nat, j: nat, name: string, x: nat, y: nat)
    requires Inv(nodes) && Placed(nodes, d, i, x) && x in nodes && nodes[x].dir && d != e && Room(nodes, e, j, name)
    requires y in nodes
    requires nodes[d].slots > 0 && nodes[x].nlinks > 0 && nodes[d].nlinks > (if d == x then 1 else 0)
    ensures var r := MoveDir(nodes, d, i, e, j, name, x); y in r && DirOk(r, y) && HomeOk(r, y) && CountOk(r, y)
  {
    hide Links, Subdirs, Used, DirOk, MoveDir, UnlinkEntry, LinkEntry, Room, Find;
    RoomSlot(nodes, e, j, name);
    PlacedIn(nodes, d, i, x);
    MoveLinks(nodes, d, i, e, j, name, x, y);
    MoveTree(nodes, d, i, e, j, name, x);
    var r := MoveDir(nodes, d, i, e, j, name, x);
    MoveSubdirs(nodes, r, d, e, x, y);
    MoveNlinks(nodes, d, i, e, j, name, x, y);
    assert HomeOk(nodes, y) && CountOk(nodes, y);
  }

  lemma MoveNlinks(nodes: Nodes, d: nat, i: nat, e: nat, j: nat, name: string, x: nat, y: nat)
    requires Placed(nodes, d, i, x) && x in nodes && e in nodes && d != e && j <= |nodes[e].entries| && y in nodes
    requires nodes[d].slots > 0 && nodes[x].nlinks > 0 && nodes[d].nlinks > (if d == x then 1 else 0)
    ensures var r := MoveDir(nodes, d, i, e, j, name, x);
      y in r && r[y].nlinks == nodes[y].nlinks - (if y == d then 1 else 0) + (if y == e then 1 else 0)
  {
    hide Write;
  }

  lemma MoveSubdirs(nodes: Nodes, r: Nodes, d: nat, e: nat, x: nat, y: nat)
    requires Live(nodes, x) && nodes[x].parent == d && d != e && r.Keys == nodes.Keys && r[x].parent == e
    requires forall c :: c in nodes ==>
      r[c].dir == nodes[c].dir && r[c].removed == nodes[c].removed && (c != x ==> r[c].parent == nodes[c].parent)
    ensures Subdirs(r, y) == if y == d then Subdirs(nodes, d) - {x} else if y == e then Subdirs(nodes, e) + {x}
        else Subdirs(nodes, y)
    ensures x in Subdirs(nodes, d) && x !in Subdirs(nodes, e)
  {
  }

  lemma MoveLinks(nodes: Nodes, d: nat, i: nat, e: nat, j: nat, name: string, x: nat, y: nat)
    requires Inv(nodes) && Placed(nodes, d, i, x) && x in nodes && nodes[x].dir && d != e && Room(nodes, e, j, name)
    requires y in nodes
    requires nodes[d].slots > 0 && nodes[x].nlinks > 0 && nodes[d].nlinks > (if d == x then 1 else 0)
    ensures var r := MoveDir(nodes, d, i, e, j, name, x);
      && Links(r, y) == (if y == x then {(e, j)} else Links(nodes, y)) && y in r && DirOk(r, y)
  {
    hide Links, Subdirs, Used, DirOk, HomeOk, CountOk, Find, UnlinkEntry, LinkEntry;
    PlacedIn(nodes, d, i, x);
    MoveOut(nodes, d, i, x, y);
    MoveOut(nodes, d, i, x, e);
    MoveIn(AddLinks(UnlinkEntry(nodes, d, i, x), d, -1), e, j, name, x, y);
  }

  // The first half of the move: out of the old directory.
  lemma MoveOut(nodes: Nodes, d: nat, i: nat, x: nat, y: nat)
    requires Placed(nodes, d, i, x) && x in nodes && y in nodes && DirOk(nodes, y)
    requires nodes[d].slots > 0 && nodes[x].nlinks > 0 && nodes[d].nlinks > (if d == x then 1 else 0)
    ensures d in UnlinkEntry(nodes, d, i, x) && UnlinkEntry(nodes, d, i, x)[d].nlinks > 0
    ensures var r := AddLinks(UnlinkEntry(nodes, d, i, x), d, -1);
      && Links(r, y) == (if y == x then Links(nodes, x) - {(d, i)} else Links(nodes, y)) && y in r && DirOk(r, y)
      && (y != d ==> r[y].entries == nodes[y].entries && r[y].removed == nodes[y].removed && r[y].dir == nodes[y].dir)
  {
    hide Links, Subdirs, Used, DirOk;
    var n0 := UnlinkEntry(nodes, d, i, x);
    UnlinkEffect(nodes, d, i, x, y);
    UnlinkDirOk(nodes, d, i, x, y);
    LinksSame(n0, AddLinks(n0, d, -1), y);
    DirOkSame(n0, AddLinks(n0, d, -1), y);
  }

  // The second half: into the new one.
  lemma MoveIn(nodes: Nodes, e: nat, j: nat, name: string, x: nat, y: nat)
    requires x in nodes && Room(nodes, e, j, name) && y in nodes && DirOk(nodes, y) && DirOk(nodes, e)
    ensures var r := SetParent(AddLinks(LinkEntry(nodes, e, j, name, x), e, 1), x, e);
      Links(r, y) == (if y == x then Links(nodes, x) + {(e, j)} else Links(nodes, y)) && y in r && DirOk(r, y)
  {
    hide Links, Subdirs, Used, DirOk, Find;
    var n0 := LinkEntry(nodes, e, j, name, x);
    var r := SetParent(AddLinks(n0, e, 1), x, e);
    LinkEffect(nodes, e, j, name, x, y);
    LinkDirOk(nodes, e, j, name, x, y);
    LinksSame(n0, r, y);
    DirOkSame(n0, r, y);
  }
}

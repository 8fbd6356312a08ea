/**
  The directory operations of SFS: create, link, mkdir, rename and unlink.
 */
module SfsDirs {
  import opened SfsLinks
  import opened SfsPaths

  const MAX_FNAME_LEN := 255

  // `Blocked`: the call waits for ever for a lock that it holds itself.
  datatype Ret = Done | NoEnt | Exists | IsDir | NotEmpty | NoMem | TooBig | Inval | Blocked

  // What the environment gives to a call: a block for a new inode (0 if there
  // is none), memory to load an inode, room and memory to write a slot, and,
  // when a rename could not write its slot, to write the old one again.
  datatype Env = Env(ino: nat, loaded: bool, written: bool, restored: bool)

  predicate Dots(name: string) { name == "." || name == ".." }

  // `name` in `d` now stands for `x` (for nothing, if 0); every other name of
  // every directory stands for what it stood for.
  ghost predicate Rebound(nodes: Nodes, nodes': Nodes, d: nat, name: string, x: nat) {
    forall d': nat, n' :: Target(nodes', d', n') == if d' == d && n' == name then x else Target(nodes, d', n')
  }

  ghost predicate Moved(nodes: Nodes, nodes': Nodes, d: nat, name: string, e: nat, newName: string, x: nat) {
    forall d': nat, n' :: Target(nodes', d', n') ==
      if d' == e && n' == newName then x else if d' == d && n' == name then 0 else Target(nodes, d', n')
  }

  // When the operations succeed.
  predicate Proper(name: string) { |name| <= MAX_FNAME_LEN && !Dots(name) }

  predicate CanCreate(nodes: Nodes, d: nat, name: string, excl: bool, env: Env) {
    && Proper(name) && Live(nodes, d)
    && var x := Target(nodes, d, name);
       if x != 0 then !excl && env.loaded && x in nodes && !nodes[x].dir else env.ino != 0 && env.written
  }

  predicate CanLink(nodes: Nodes, d: nat, name: string, x: nat, env: Env) {
    Proper(name) && Live(nodes, d) && x in nodes && !nodes[x].dir && Target(nodes, d, name) == 0 && env.written
  }

  predicate CanMkdir(nodes: Nodes, d: nat, name: string, env: Env) {
    Proper(name) && Live(nodes, d) && Target(nodes, d, name) == 0 && env.ino != 0 && env.written
  }

  predicate CanUnlink(nodes: Nodes, d: nat, name: string, env: Env) {
    && Proper(name) && Live(nodes, d) && env.loaded && env.written
    && var x := Target(nodes, d, name); x != 0 && x in nodes && (nodes[x].dir ==>
        !nodes[x].removed && nodes[x].slots == 0)
  }

  predicate CanRename(nodes: Nodes, d: nat, name: string, e: nat, newName: string, env: Env) {
    && Proper(name) && Proper(newName) && Live(nodes, d) && Live(nodes, e)
    && ((d == e && name == newName)
        || (Target(nodes, d, name) != 0 && Target(nodes, e, newName) == 0 && env.written && (d == e || env.loaded)))
  }

  // A rename takes the old name away and can write neither the new one nor the
  // old one again.
  predicate Loses(nodes: Nodes, d: nat, name: string, e: nat, newName: string, env: Env) {
    && Proper(name) && Proper(newName) && Live(nodes, d) && Live(nodes, e) && d != e
    && Target(nodes, d, name) != 0 && Target(nodes, e, newName) == 0 && env.loaded && !env.written && !env.restored
  }

  // The inode has lost that name and the link it stood for, and nothing else.
  ghost predicate NameLost(nodes: Nodes, nodes': Nodes, d: nat, name: string) {
    var x := Target(nodes, d, name);
    && Rebound(nodes, nodes', d, name, 0)
    && x in nodes && x in nodes'
    && (x != d ==> nodes'[x] == nodes[x].(nlinks := nodes'[x].nlinks) && nodes'[x].nlinks + 1 == nodes[x].nlinks)
  }

  predicate IsDirectory(nodes: Nodes, x: nat) { x in nodes && nodes[x].dir }

  // The name stands for a directory that `e` is or is below.
  ghost predicate BelowItself(nodes: Nodes, d: nat, name: string, e: nat) {
    d != e && IsDirectory(nodes, Target(nodes, d, name)) && Under(nodes, e, Target(nodes, d, name))
  }

  lemma LinkConnected(nodes: Nodes, d: nat, i: nat, name: string, x: nat)
    requires Inv(nodes) && Connected(nodes) && d in nodes && x in nodes && i <= |nodes[d].entries|
    ensures Connected(LinkEntry(nodes, d, i, name, x))
  {
    hide Inv, Connected, LinkEntry;
    LinkTree(nodes, d, i, name, x);
    SameTreeConnected(nodes, LinkEntry(nodes, d, i, name, x));
  }

  lemma UnlinkConnected(nodes: Nodes, d: nat, i: nat, x: nat)
    requires Inv(nodes) && Connected(nodes) && Placed(nodes, d, i, x) && x in nodes && nodes[d].slots > 0
    requires nodes[x].nlinks > 0
    ensures Connected(UnlinkEntry(nodes, d, i, x))
    ensures UnlinkEntry(nodes, d, i, x)[d].nlinks > 0 ==> Connected(AddLinks(UnlinkEntry(nodes, d, i, x), d, -1))
  {
    hide Inv, Connected, UnlinkEntry;
    var r := UnlinkEntry(nodes, d, i, x);
    UnlinkTree(nodes, d, i, x);
    SameTreeConnected(nodes, r);
    if r[d].nlinks > 0 { SameTreeConnected(nodes, AddLinks(r, d, -1)); }
  }

  lemma MoveFileConnected(nodes: Nodes, d: nat, i: nat, e: nat, j: nat, name: string, x: nat)
    requires Inv(nodes) && Connected(nodes) && Placed(nodes, d, i, x) && x in nodes && nodes[d].slots > 0
    requires nodes[x].nlinks > 0
    requires e in nodes && d != e && j <= |nodes[e].entries|
    ensures Connected(UnlinkEntry(nodes, d, i, x)) && Connected(LinkEntry(UnlinkEntry(nodes, d, i, x), e, j, name, x))
  {
    hide Inv, Connected, UnlinkEntry, LinkEntry;
    var r := UnlinkEntry(nodes, d, i, x);
    UnlinkTree(nodes, d, i, x);
    SameTreeConnected(nodes, r);
    LinkTree(r, e, j, name, x);
    SameTreeConnected(nodes, LinkEntry(r, e, j, name, x));
  }

  // The same slots, apart from new inodes without any.
  ghost predicate SlotsOf(nodes: Nodes, nodes': Nodes) {
    && (forall x :: x in nodes ==> x in nodes' && nodes'[x].entries == nodes[x].entries)
    && (forall x :: x in nodes' && x !in nodes ==> nodes'[x].entries == [])
  }

  lemma SameTargets(nodes: Nodes, nodes': Nodes, d: nat, name: string)
    requires SlotsOf(nodes, nodes')
    ensures Target(nodes', d, name) == Target(nodes, d, name)
  {
  }

  lemma WriteTarget(nodes: Nodes, d: nat, i: nat, s: Slot, d': nat, n': string)
    requires d in nodes && i <= |nodes[d].entries| && DistinctNames(nodes[d].entries)
    requires DistinctNames(Write(nodes[d].entries, i, s))
    ensures Target(WriteSlot(nodes, d, i, s), d', n') ==
      if d' != d then Target(nodes, d', n')
      else if s.Entry? && s.name == n' then s.ino
      else if i < |nodes[d].entries| && nodes[d].entries[i].Entry? && nodes[d].entries[i].name == n' then 0
      else Target(nodes, d', n')
  {
    if d' == d {
      var e := nodes[d].entries;
      FindWrite(e, i, s, n');
      assert forall j :: 0 <= j < |e| && j != i ==> Write(e, i, s)[j] == e[j];
      if i < |e| && e[i].Entry? && e[i].name == n' { FindIs(e, n', i); }
    }
  }

  lemma BindOk(nodes: Nodes, nodes': Nodes, d: nat, i: nat, name: string, x: nat)
    requires Room(nodes, d, i, name) && DirOk(nodes, d) && SlotsOf(WriteSlot(nodes, d, i, Entry(name, x)), nodes')
    ensures Rebound(nodes, nodes', d, name, x)
  {
    DistinctWrite(nodes[d].entries, i, Entry(name, x));
    forall d': nat, n' ensures Target(nodes', d', n') == if d' == d && n' == name then x else Target(nodes, d', n') {
      WriteTarget(nodes, d, i, Entry(name, x), d', n');
      SameTargets(WriteSlot(nodes, d, i, Entry(name, x)), nodes', d', n');
    }
  }

  lemma UnbindOk(nodes: Nodes, nodes': Nodes, d: nat, i: nat, x: nat)
    requires Placed(nodes, d, i, x) && DirOk(nodes, d) && SlotsOf(WriteSlot(nodes, d, i, Empty), nodes')
    ensures Rebound(nodes, nodes', d, nodes[d].entries[i].name, 0)
  {
    DistinctWrite(nodes[d].entries, i, Empty);
    forall d': nat, n' ensures Target(nodes', d', n') == if d' == d && n' == nodes[d].entries[i].name then 0
        else Target(nodes, d', n') {
      WriteTarget(nodes, d, i, Empty, d', n');
      SameTargets(WriteSlot(nodes, d, i, Empty), nodes', d', n');
    }
  }

  lemma RenameTargets(nodes: Nodes, d: nat, i: nat, x: nat, name: string)
    requires Placed(nodes, d, i, x) && DirOk(nodes, d) && Find(nodes[d].entries, name) == |nodes[d].entries|
    ensures Moved(nodes, WriteSlot(nodes, d, i, Entry(name, x)), d, nodes[d].entries[i].name, d, name, x)
  {
    DistinctWrite(nodes[d].entries, i, Entry(name, x));
    forall d': nat, n' ensures Target(WriteSlot(nodes, d, i, Entry(name, x)), d', n') ==
      if d' == d && n' == name then x else if d' == d && n' == nodes[d].entries[i].name then 0 else Target(nodes, d', n')
    {
      WriteTarget(nodes, d, i, Entry(name, x), d', n');
    }
  }

  // A directory that was moved into itself is not empty.
  lemma InItself(nodes: Nodes, d: nat, i: nat)
    requires Inv(nodes) && Placed(nodes, d, i, d)
    ensures nodes[d].slots > 0
  {
    PlacedIn(nodes, d, i, d);
  }

  // The slot found for a name.
  lemma Found(nodes: Nodes, d: nat, name: string)
    requires Inv(nodes) && d in nodes
    ensures var i := Find(nodes[d].entries, name); i < |nodes[d].entries| ==>
      var x := nodes[d].entries[i].ino;
      Placed(nodes, d, i, x) && x in nodes && x == Target(nodes, d, name) && x != 0 && nodes[d].slots > 0
          && nodes[x].nlinks > 0
    ensures d != 0 && DirOk(nodes, d)
    ensures (Find(nodes[d].entries, name) == |nodes[d].entries| ==> Target(nodes, d, name) == 0)
  {
    hide HomeOk, CountOk, Links, Subdirs;
    var i := Find(nodes[d].entries, name);
    if i < |nodes[d].entries| { PlacedIn(nodes, d, i, nodes[d].entries[i].ino); }
  }

  class Tree {
    var nodes: Nodes

    // sfs_dirent_search_nolock: the slot of the name, and a slot for a new one.
    method Search(d: nat, name: string) returns (slot: nat, empty: nat)
      requires d in nodes
      ensures slot == Find(nodes[d].entries, name)
      ensures empty <= |nodes[d].entries| && (empty < |nodes[d].entries| ==> nodes[d].entries[empty] == Empty)
    {
      var nslots := |nodes[d].entries|;
      empty, slot := nslots, 0;
      while slot < nslots
        invariant slot <= nslots && empty <= nslots && (empty < nslots ==> nodes[d].entries[empty] == Empty)
        invariant forall j :: 0 <= j < slot ==> !(nodes[d].entries[j].Entry? && nodes[d].entries[j].name == name)
      {
        if nodes[d].entries[slot] == Empty {
          empty := slot;
        } else if nodes[d].entries[slot].name == name {
          return;
        }
        slot := slot + 1;
      }
      FindNone(nodes[d].entries, name);
    }

    method Create(d: nat, name: string, excl: bool, env: Env) returns (ret: Ret, ino: nat)
      requires Inv(nodes) && d in nodes && nodes[d].dir && env.ino !in nodes
      modifies this
      ensures Inv(nodes)
      ensures ret != Done ==> nodes == old(nodes)
      ensures ret == Done ==> ino != 0 && Rebound(old(nodes), nodes, d, name, ino) && ino in nodes && !nodes[ino].dir
      ensures ret == Done && Target(old(nodes), d, name) != 0 ==> !excl && nodes == old(nodes)
      ensures ret == Done && Target(old(nodes), d, name) == 0 ==> ino == env.ino && nodes[ino].nlinks == 1
      ensures ret == Done <==> CanCreate(old(nodes), d, name, excl, env)
      ensures Connected(old(nodes)) ==> Connected(nodes)
    {
      hide Inv, DirOk, Rebound, Find, LinkEntry, Target, Connected;
      ino := 0;
      if |name| > MAX_FNAME_LEN { return TooBig, 0; }
      if Dots(name) { return Exists, 0; }
      if nodes[d].removed { return NoEnt, 0; }
      var slot, empty := Search(d, name);
      Found(nodes, d, name);
      if slot < |nodes[d].entries| {
        if excl { return Exists, 0; }
        if !env.loaded { return NoMem, 0; }
        ino := nodes[d].entries[slot].ino;
        if nodes[ino].dir { return Exists, 0; }
        SameRebound(nodes, d, name);
        return Done, ino;
      }
      if env.ino == 0 || !env.written { return NoMem, 0; }
      ino := env.ino;
      CreateOk(nodes, d, empty, name, ino);
      if Connected(nodes) { NewFileConnected(nodes, d, empty, name, ino); }
      nodes := CreateNodes(nodes, d, empty, name, ino);
      ret := Done;
    }

    method Link(d: nat, name: string, x: nat, env: Env) returns (ret: Ret)
      requires Inv(nodes) && d in nodes && nodes[d].dir && x in nodes
      modifies this
      ensures Inv(nodes)
      ensures ret != Done ==> nodes == old(nodes)
      ensures ret == Done ==>
        !old(nodes)[x].dir && Target(old(nodes), d, name) == 0 && Rebound(old(nodes), nodes, d, name, x)
      ensures ret == Done ==> x in nodes && nodes[x].nlinks == old(nodes)[x].nlinks + 1
      ensures ret == Done <==> CanLink(old(nodes), d, name, x, env)
      ensures Connected(old(nodes)) ==> Connected(nodes)
      ensures ret == IsDir ==> old(nodes)[x].dir
      ensures ret == Exists ==> Dots(name) || Target(old(nodes), d, name) != 0
    {
      hide Inv, DirOk, Rebound, Find, LinkEntry, Target, Connected;
      if |name| > MAX_FNAME_LEN { return TooBig; }
      if Dots(name) { return Exists; }
      if nodes[x].dir { return IsDir; }
      if nodes[d].removed { return NoEnt; }
      var slot, empty := Search(d, name);
      Found(nodes, d, name);
      if slot < |nodes[d].entries| { return Exists; }
      if !env.written { return NoMem; }
      LinkOk(nodes, d, empty, name, x);
      if Connected(nodes) { LinkConnected(nodes, d, empty, name, x); }
      nodes := LinkEntry(nodes, d, empty, name, x);
      ret := Done;
    }

    method Mkdir(d: nat, name: string, env: Env) returns (ret: Ret)
      requires Inv(nodes) && d in nodes && nodes[d].dir && env.ino !in nodes
      modifies this
      ensures Inv(nodes)
      ensures ret != Done ==> nodes == old(nodes)
      ensures ret == Done ==> Target(old(nodes), d, name) == 0 && Rebound(old(nodes), nodes, d, name, env.ino)
      ensures ret == Done ==> Live(nodes, env.ino) && nodes[env.ino].parent == d && nodes[env.ino].slots == 0
      ensures ret == Done <==> CanMkdir(old(nodes), d, name, env)
      ensures Connected(old(nodes)) ==> Connected(nodes)
      ensures ret == Exists ==> Dots(name) || Target(old(nodes), d, name) != 0
    {
      hide Inv, DirOk, Rebound, Find, MkdirNodes, Target, Connected;
      if |name| > MAX_FNAME_LEN { return TooBig; }
      if Dots(name) { return Exists; }
      if nodes[d].removed { return NoEnt; }
      var slot, empty := Search(d, name);
      Found(nodes, d, name);
      if slot < |nodes[d].entries| { return Exists; }
      if env.ino == 0 || !env.written { return NoMem; }
      MkdirAll(nodes, d, empty, name, env.ino);
      if Connected(nodes) { MkdirConnected(nodes, d, empty, name, env.ino); }
      nodes := MkdirNodes(nodes, d, empty, name, env.ino);
      ret := Done;
    }

    method Unlink(d: nat, name: string, env: Env) returns (ret: Ret)
      requires Inv(nodes) && d in nodes && nodes[d].dir
      modifies this
      ensures Inv(nodes)
      ensures ret != Done ==> nodes == old(nodes)
      ensures ret == Done ==> Target(old(nodes), d, name) != 0 && Rebound(old(nodes), nodes, d, name, 0)
      ensures ret == Done <==> CanUnlink(old(nodes), d, name, env)
      ensures Connected(old(nodes)) ==> Connected(nodes)
      ensures ret == NotEmpty ==> var x := Target(old(nodes), d, name); x in nodes && nodes[x].dir && nodes[x].slots > 0
      ensures ret == Blocked <==> Proper(name) && Live(old(nodes), d) && env.loaded && Target(old(nodes), d, name) == d
      ensures ret == Done ==> var x := Target(old(nodes), d, name);
        x in old(nodes) && x in nodes && nodes[x].nlinks == (if old(nodes)[x].dir then 0 else old(nodes)[x].nlinks - 1)
        && (old(nodes)[x].dir ==> old(nodes)[x].slots == 0 && nodes[x].removed)
    {
      hide Inv, DirOk, Rebound, Find, UnlinkEntry, RmdirNodes, Target, Connected;
      if |name| > MAX_FNAME_LEN { return TooBig; }
      if Dots(name) { return IsDir; }
      if nodes[d].removed { return NoEnt; }
      var slot, empty := Search(d, name);
      Found(nodes, d, name);
      if slot == |nodes[d].entries| { return NoEnt; }
      if !env.loaded { return NoMem; }
      var x := nodes[d].entries[slot].ino;
      if !nodes[x].dir {
        if !env.written { return NoMem; }
        UnlinkAll(nodes, d, slot, x);
        if Connected(nodes) { UnlinkConnected(nodes, d, slot, x); }
        nodes := UnlinkEntry(nodes, d, slot, x);
      } else {
        if nodes[x].removed { return NoEnt; }
        if x == d { InItself(nodes, d, slot); return Blocked; }
        if nodes[x].slots != 0 { return NotEmpty; }
        if !env.written { return NoMem; }
        RmdirAll(nodes, d, slot, x);
        if Connected(nodes) { RmdirConnected(nodes, d, slot, x); }
        nodes := RmdirNodes(nodes, d, slot, x);
      }
      ret := Done;
    }

    // The counts survive unless a directory loses its name, and the way up from
    // every directory unless one is moved below itself.
    method Rename(d: nat, name: string, e: nat, newName: string, env: Env) returns (ret: Ret)
      requires Inv(nodes) && d in nodes && nodes[d].dir && e in nodes && nodes[e].dir
      modifies this
      ensures Inv(nodes) <==>
        !(Loses(old(nodes), d, name, e, newName, env) && IsDirectory(old(nodes), Target(old(nodes), d, name)))
      ensures Loses(old(nodes), d, name, e, newName, env) ==> ret == NoMem && NameLost(old(nodes), nodes, d, name)
      ensures ret != Done && !Loses(old(nodes), d, name, e, newName, env) ==> nodes == old(nodes)
      ensures ret == Done && !(d == e && name == newName) ==>
        Target(old(nodes), d, name) != 0 && Target(old(nodes), e, newName) == 0
      ensures ret == Done && !(d == e && name == newName) ==>
        Moved(old(nodes), nodes, d, name, e, newName, Target(old(nodes), d, name))
      ensures ret == Done && d == e && name == newName ==> nodes == old(nodes)
      ensures ret == Done <==> CanRename(old(nodes), d, name, e, newName, env)
      ensures Connected(old(nodes)) ==> (Connected(nodes) <==> !(ret == Done && BelowItself(old(nodes), d, name, e)))
      ensures ret == Exists ==> Dots(newName) || Target(old(nodes), e, newName) != 0
    {
      hide Inv, DirOk, Moved, NameLost, Find, Target, Connected, Under;
      if |name| > MAX_FNAME_LEN || |newName| > MAX_FNAME_LEN { return TooBig; }
      if Dots(name) { return Inval; }
      if Dots(newName) { return Exists; }
      if nodes[d].removed { return NoEnt; }
      if d == e {
        ret := Rename1(d, name, newName, env);
      } else {
        if nodes[e].removed { return NoEnt; }
        ret := Rename2(d, name, e, newName, env);
      }
    }

    method Rename1(d: nat, name: string, newName: string, env: Env) returns (ret: Ret)
      requires Inv(nodes) && Live(nodes, d)
      modifies this
      ensures Inv(nodes)
      ensures ret != Done || name == newName ==> nodes == old(nodes)
      ensures ret == Done && name != newName ==> Target(old(nodes), d, name) != 0 && Target(old(nodes), d, newName) == 0
      ensures ret == Done && name != newName ==>
        Moved(old(nodes), nodes, d, name, d, newName, Target(old(nodes), d, name))
      ensures ret == Exists ==> Target(old(nodes), d, newName) != 0
      ensures Connected(old(nodes)) ==> Connected(nodes)
      ensures ret == Done <==>
        name == newName || (Target(old(nodes), d, name) != 0 && Target(old(nodes), d, newName) == 0 && env.written)
    {
      hide Inv, DirOk, Moved, Find, Target, Connected;
      if name == newName { return Done; }
      var slot, _ := Search(d, name);
      Found(nodes, d, name);
      if slot == |nodes[d].entries| { return NoEnt; }
      var slot2, _ := Search(d, newName);
      Found(nodes, d, newName);
      if slot2 < |nodes[d].entries| { return Exists; }
      if !env.written { return NoMem; }
      var x := nodes[d].entries[slot].ino;
      RenameOk(nodes, d, slot, x, newName);
      RenameTargets(nodes, d, slot, x, newName);
      if Connected(nodes) { SameTreeConnected(nodes, WriteSlot(nodes, d, slot, Entry(newName, x))); }
      FindNames(nodes[d].entries, name);
      nodes := WriteSlot(nodes, d, slot, Entry(newName, x));
      ret := Done;
    }

    method Rename2(d: nat, name: string, e: nat, newName: string, env: Env) returns (ret: Ret)
      requires Inv(nodes) && Live(nodes, d) && Live(nodes, e) && d != e && Proper(name) && Proper(newName)
      modifies this
      ensures Inv(nodes) <==>
        !(Loses(old(nodes), d, name, e, newName, env) && IsDirectory(old(nodes), Target(old(nodes), d, name)))
      ensures Loses(old(nodes), d, name, e, newName, env) ==> ret == NoMem && NameLost(old(nodes), nodes, d, name)
      ensures ret != Done && !Loses(old(nodes), d, name, e, newName, env) ==> nodes == old(nodes)
      ensures ret == Done ==> Target(old(nodes), d, name) != 0 && Target(old(nodes), e, newName) == 0
      ensures ret == Done ==> Moved(old(nodes), nodes, d, name, e, newName, Target(old(nodes), d, name))
      ensures ret == Exists ==> Target(old(nodes), e, newName) != 0
      ensures ret == Done <==>
        Target(old(nodes), d, name) != 0 && Target(old(nodes), e, newName) == 0 && env.loaded && env.written
      ensures Connected(old(nodes)) ==> (Connected(nodes) <==> !(ret == Done && BelowItself(old(nodes), d, name, e)))
    {
      hide Inv, DirOk, Moved, NameLost, Find, Target, Connected, Under;
      var slot1, _ := Search(d, name);
      Found(nodes, d, name);
      if slot1 == |nodes[d].entries| { return NoEnt; }
      var found2, slot2 := Search(e, newName);
      Found(nodes, e, newName);
      if found2 < |nodes[e].entries| { return Exists; }
      if !env.loaded { return NoMem; }
      var x := nodes[d].entries[slot1].ino;
      ghost var n0 := nodes;
      FindNames(nodes[d].entries, name);
      if nodes[x].dir {
        MoveDirAll(nodes, d, slot1, e, slot2, newName, x);
        if Connected(nodes) {
          MoveDirConnected(nodes, d, slot1, e, slot2, newName, x);
          UnlinkConnected(nodes, d, slot1, x);
        }
        nodes := AddLinks(UnlinkEntry(nodes, d, slot1, x), d, -1);
        if !env.written {
          if env.restored {
            RollbackIsNothing(n0, d, slot1, x);
            nodes := AddLinks(LinkEntry(nodes, d, slot1, name, x), d, 1);
          } else {
            LostLink(n0, d, slot1, x);
          }
          return NoMem;
        }
        nodes := SetParent(AddLinks(LinkEntry(nodes, e, slot2, newName, x), e, 1), x, e);
      } else {
        MoveFileAll(nodes, d, slot1, e, slot2, newName, x);
        if Connected(nodes) { MoveFileConnected(nodes, d, slot1, e, slot2, newName, x); }
        nodes := UnlinkEntry(nodes, d, slot1, x);
        if !env.written {
          if env.restored {
            RollbackIsNothing(n0, d, slot1, x);
            nodes := LinkEntry(nodes, d, slot1, name, x);
          } else {
            LostLink(n0, d, slot1, x);
          }
          return NoMem;
        }
        nodes := LinkEntry(nodes, e, slot2, newName, x);
      }
      ret := Done;
    }

    // The last user of an inode without names has gone (sfs_reclaim).
    method Forget(x: nat)
      requires Inv(nodes) && x in nodes && nodes[x].nlinks == 0
      modifies this
      ensures Inv(nodes) && nodes == old(nodes) - {x}
      ensures forall d: nat, n :: Target(nodes, d, n) == Target(old(nodes), d, n)
      ensures Connected(old(nodes)) ==> Connected(nodes)
    {
      if Connected(nodes) { ForgetConnected(nodes, x); }
      ForgetOk(nodes, x);
      ForgetTargets(nodes, x);
      nodes := nodes - {x};
    }
  }

  // ------------------------------------------------------------ the operations on values

  function CreateNodes(nodes: Nodes, d: nat, i: nat, name: string, x: nat): Nodes
    requires d in nodes && x !in nodes && i <= |nodes[d].entries|
  {
    LinkEntry(nodes[x := NewInode(false)], d, i, name, x)
  }

  lemma SameRebound(nodes: Nodes, d: nat, name: string)
    ensures Rebound(nodes, nodes, d, name, Target(nodes, d, name))
  {
  }

  lemma CreateOk(nodes: Nodes, d: nat, i: nat, name: string, x: nat)
    requires Inv(nodes) && Room(nodes, d, i, name) && x !in nodes && x != 0
    ensures var r := CreateNodes(nodes, d, i, name, x);
      Inv(r) && Rebound(nodes, r, d, name, x) && x in r && !r[x].dir && r[x].nlinks == 1
  {
    hide Inv, Rebound, Find, DirOk;
    var n0 := nodes[x := NewInode(false)];
    InDir(nodes, d);
    NewFileOk(nodes, x);
    LinkFileOk(n0, d, i, name, x);
    BindOk(nodes, CreateNodes(nodes, d, i, name, x), d, i, name, x);
  }

  lemma InDir(nodes: Nodes, d: nat)
    requires Inv(nodes) && d in nodes
    ensures DirOk(nodes, d)
  {
  }

  lemma LinkOk(nodes: Nodes, d: nat, i: nat, name: string, x: nat)
    requires Inv(nodes) && Room(nodes, d, i, name) && x in nodes && !nodes[x].dir
    ensures var r := LinkEntry(nodes, d, i, name, x);
      Inv(r) && Rebound(nodes, r, d, name, x) && x in r && r[x].nlinks == nodes[x].nlinks + 1
  {
    hide Inv, Rebound, Find, DirOk;
    InDir(nodes, d);
    LinkFileOk(nodes, d, i, name, x);
    BindOk(nodes, LinkEntry(nodes, d, i, name, x), d, i, name, x);
  }

  lemma MkdirAll(nodes: Nodes, d: nat, i: nat, name: string, x: nat)
    requires Inv(nodes) && Room(nodes, d, i, name) && x !in nodes && x != 0
    ensures var r := MkdirNodes(nodes, d, i, name, x);
      Inv(r) && Rebound(nodes, r, d, name, x) && Live(r, x) && r[x].parent == d && r[x].slots == 0
  {
    hide Inv, Rebound, Find, DirOk;
    InDir(nodes, d);
    MkdirOk(nodes, d, i, name, x);
    BindOk(nodes, MkdirNodes(nodes, d, i, name, x), d, i, name, x);
  }

  lemma UnlinkAll(nodes: Nodes, d: nat, i: nat, x: nat)
    requires Inv(nodes) && Placed(nodes, d, i, x) && x in nodes && !nodes[x].dir && nodes[d].slots > 0
    requires nodes[x].nlinks > 0
    ensures var r := UnlinkEntry(nodes, d, i, x);
      Inv(r) && Rebound(nodes, r, d, nodes[d].entries[i].name, 0) && x in r && r[x].nlinks == nodes[x].nlinks - 1
  {
    hide Inv, Rebound, Find, DirOk;
    InDir(nodes, d);
    UnlinkFileOk(nodes, d, i, x);
    UnbindOk(nodes, UnlinkEntry(nodes, d, i, x), d, i, x);
  }

  lemma RmdirAll(nodes: Nodes, d: nat, i: nat, x: nat)
    requires Inv(nodes) && Placed(nodes, d, i, x) && x in nodes && nodes[x].dir && nodes[x].slots == 0
    ensures x != d && nodes[d].slots > 0 && nodes[x].nlinks > 1 && nodes[d].nlinks > 0
    ensures var r := RmdirNodes(nodes, d, i, x);
      Inv(r) && Rebound(nodes, r, d, nodes[d].entries[i].name, 0) && x in r && r[x].nlinks == 0 && r[x].removed
  {
    hide Inv, Rebound, Find, DirOk;
    InDir(nodes, d);
    RmdirOk(nodes, d, i, x);
    UnbindOk(nodes, RmdirNodes(nodes, d, i, x), d, i, x);
  }

  lemma FindNames(entries: seq<Slot>, name: string)
    ensures var i := Find(entries, name); i < |entries| ==> entries[i].name == name
  {
  }

  // Unbinding one name and binding another is a move.
  lemma ThenMoved(nodes: Nodes, n1: Nodes, r: Nodes, d: nat, name: string, e: nat, newName: string, x: nat)
    requires Rebound(nodes, n1, d, name, 0) && Rebound(n1, r, e, newName, x)
    ensures Moved(nodes, r, d, name, e, newName, x)
  {
    hide Target;
    forall d': nat, n' ensures Target(r, d', n') == if d' == e && n' == newName then x
        else if d' == d && n' == name then 0 else Target(nodes, d', n') {
      var _ := Target(n1, d', n');
    }
  }

  lemma MoveFileAll(nodes: Nodes, d: nat, i: nat, e: nat, j: nat, name: string, x: nat)
    requires Inv(nodes) && Placed(nodes, d, i, x) && x in nodes && !nodes[x].dir && nodes[d].slots > 0
    requires nodes[x].nlinks > 0 && Room(nodes, e, j, name) && d != e
    ensures j <= |UnlinkEntry(nodes, d, i, x)[e].entries|
    ensures var r := LinkEntry(UnlinkEntry(nodes, d, i, x), e, j, name, x);
      Inv(r) && Moved(nodes, r, d, nodes[d].entries[i].name, e, name, x)
  {
    hide Inv, Rebound, Moved, Find, DirOk;
    UnlinkAll(nodes, d, i, x);
    var n1 := UnlinkEntry(nodes, d, i, x);
    assert Room(n1, e, j, name);
    LinkOk(n1, e, j, name, x);
    ThenMoved(nodes, n1, LinkEntry(n1, e, j, name, x), d, nodes[d].entries[i].name, e, name, x);
  }

  lemma MoveDirAll(nodes: Nodes, d: nat, i: nat, e: nat, j: nat, name: string, x: nat)
    requires Inv(nodes) && Placed(nodes, d, i, x) && x in nodes && nodes[x].dir && Room(nodes, e, j, name) && d != e
    ensures nodes[d].slots > 0 && nodes[x].nlinks > 0 && nodes[d].nlinks > (if d == x then 1 else 0)
    ensures d in UnlinkEntry(nodes, d, i, x) && UnlinkEntry(nodes, d, i, x)[d].nlinks > 0
    ensures var r := MoveDir(nodes, d, i, e, j, name, x);
      Inv(r) && Moved(nodes, r, d, nodes[d].entries[i].name, e, name, x)
  {
    hide Inv, Rebound, Moved, Find, DirOk;
    MoveDirOk(nodes, d, i, e, j, name, x);
    InDir(nodes, d);
    InDir(nodes, e);
    var n1 := AddLinks(UnlinkEntry(nodes, d, i, x), d, -1);
    UnbindOk(nodes, n1, d, i, x);
    assert Room(n1, e, j, name);
    MoveOut(nodes, d, i, x, e);
    BindOk(n1, MoveDir(nodes, d, i, e, j, name, x), e, j, name, x);
    ThenMoved(nodes, n1, MoveDir(nodes, d, i, e, j, name, x), d, nodes[d].entries[i].name, e, name, x);
  }

  lemma ForgetTargets(nodes: Nodes, x: nat)
    requires Inv(nodes) && x in nodes && nodes[x].nlinks == 0
    ensures forall d: nat, n :: Target(nodes - {x}, d, n) == Target(nodes, d, n)
  {
    hide Links, Subdirs;
    assert CountOk(nodes, x) && DirOk(nodes, x);
    forall i: nat | i < |nodes[x].entries| ensures !nodes[x].entries[i].Entry? { assert i !in Used(nodes[x].entries); }
    forall n: string ensures Target(nodes, x, n) == 0 { FindNone(nodes[x].entries, n); }
  }

  // A file system as the image builder starts it: the root alone.
  lemma RootAlone()
    ensures Inv(map[ROOT := Inode(true, 2, 0, ROOT, false, [])])
    ensures Connected(map[ROOT := Inode(true, 2, 0, ROOT, false, [])])
  {
    var nodes: Nodes := map[ROOT := Inode(true, 2, 0, ROOT, false, [])];
    assert Up(nodes, ROOT, 0) == ROOT;
    assert Links(nodes, ROOT) == {} && Subdirs(nodes, ROOT) == {ROOT} && Used([]) == {};
  }

  // The state in which such a rename leaves the file system.
  function LoseName(nodes: Nodes, d: nat, i: nat, x: nat): Nodes
    requires Placed(nodes, d, i, x) && x in nodes && nodes[d].slots > 0 && nodes[x].nlinks > 0
    requires nodes[x].dir ==> UnlinkEntry(nodes, d, i, x)[d].nlinks > 0
  {
    if nodes[x].dir then AddLinks(UnlinkEntry(nodes, d, i, x), d, -1) else UnlinkEntry(nodes, d, i, x)
  }

  // The counts survive exactly if it was moving a file; a directory is left
  // alive without a name.
  lemma LostLink(nodes: Nodes, d: nat, i: nat, x: nat)
    requires Inv(nodes) && Placed(nodes, d, i, x) && x in nodes
    ensures nodes[d].slots > 0 && nodes[x].nlinks > 0 && (nodes[x].dir ==> UnlinkEntry(nodes, d, i, x)[d].nlinks > 0)
    ensures Inv(LoseName(nodes, d, i, x)) <==> !nodes[x].dir
    ensures nodes[d].entries[i].Entry? && NameLost(nodes, LoseName(nodes, d, i, x), d, nodes[d].entries[i].name)
  {
    hide Links, Subdirs, Used, DirOk, CountOk, Rebound, Find;
    PlacedIn(nodes, d, i, x);
    InDir(nodes, d);
    TargetIs(nodes, d, i, x);
    if nodes[x].dir {
      MoveCounts(nodes, d, i, x);
      MoveOut(nodes, d, i, x, x);
      var r := AddLinks(UnlinkEntry(nodes, d, i, x), d, -1);
      UnbindOk(nodes, r, d, i, x);
      assert Links(r, x) == {};
      assert !HomeOk(r, x);
    } else {
      UnlinkFileOk(nodes, d, i, x);
      UnbindOk(nodes, UnlinkEntry(nodes, d, i, x), d, i, x);
    }
  }

  lemma TargetIs(nodes: Nodes, d: nat, i: nat, x: nat)
    requires Placed(nodes, d, i, x) && DirOk(nodes, d)
    ensures Target(nodes, d, nodes[d].entries[i].name) == x
  {
    FindIs(nodes[d].entries, nodes[d].entries[i].name, i);
  }

  // ------------------------------------------------------------ parents

  // A removed directory that is still in use may outlive its parent: `b` alone
  // in `a`, both removed in turn, and nobody uses `a`.
  lemma ParentGone(nodes: Nodes, d: nat, i: nat, a: nat, j: nat, b: nat)
    requires Inv(nodes) && Placed(nodes, d, i, a) && Placed(nodes, a, j, b) && IsDirectory(nodes, a)
    requires IsDirectory(nodes, b)
    requires nodes[a].slots == 1 && nodes[b].slots == 0
    ensures a != b && a != d && b != d && RmdirReady(nodes, a, j, b) && RmdirReady(RmdirNodes(nodes, a, j, b), d, i, a)
    ensures var r := RmdirNodes(RmdirNodes(nodes, a, j, b), d, i, a) - {a};
      Inv(r) && b in r && r[b].dir && r[b].removed && r[b].parent == a && a !in r
  {
    hide Inv, DirOk, Find, Rebound;
    PlacedIn(nodes, d, i, a);
    PlacedIn(nodes, a, j, b);
    RmdirAll(nodes, a, j, b);
    var n1 := RmdirNodes(nodes, a, j, b);
    assert Placed(n1, d, i, a);
    RmdirAll(n1, d, i, a);
    var n2 := RmdirNodes(n1, d, i, a);
    ForgetOk(n2, a);
  }

  // The root with `a` in it and `b` in `a`, where `b` is below `a`: renaming /a
  // to /a/b/c cuts both off.
  lemma Nested()
    ensures var root: Nodes := map[ROOT := Inode(true, 2, 0, ROOT, false, [])];
      var n1 := MkdirNodes(root, ROOT, 0, "a", 2);
      2 in n1 && |n1[2].entries| == 0 &&
      var nodes := MkdirNodes(n1, 2, 0, "b", 3);
      && Inv(nodes) && Placed(nodes, ROOT, 0, 2) && Placed(nodes, 2, 0, 3) && IsDirectory(nodes, 2)
      && IsDirectory(nodes, 3)
      && nodes[2].slots == 1 && nodes[3].slots == 0 && Connected(nodes) && Under(nodes, 3, 2)
  {
    hide Inv, Rebound, Find, Connected;
    var root: Nodes := map[ROOT := Inode(true, 2, 0, ROOT, false, [])];
    RootAlone();
    FindNone([], "a");
    MkdirAll(root, ROOT, 0, "a", 2);
    MkdirConnected(root, ROOT, 0, "a", 2);
    var n1 := MkdirNodes(root, ROOT, 0, "a", 2);
    FindNone([], "b");
    MkdirAll(n1, 2, 0, "b", 3);
    MkdirConnected(n1, 2, 0, "b", 3);
    assert Up(MkdirNodes(n1, 2, 0, "b", 3), 3, 1) == 2;
  }

  ghost predicate RmdirReady(nodes: Nodes, d: nat, i: nat, x: nat) {
    Placed(nodes, d, i, x) && x in nodes && x != d && nodes[d].slots > 0 && nodes[x].nlinks > 1 && nodes[d].nlinks > 0
  }
}

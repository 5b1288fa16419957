/**
 sysfile.c and fs.c: create, mkdir, link and unlink on inodes and directories, one at a time.
 `refs` are the references to cached inodes. Path names are resolved before: an operation gets a
 directory that has not been unlinked, with a reference that it gives up at its end.
 */
module Links {
  import opened LinkCount

  datatype Option<T> = None | Some(value: T)
  datatype CreateResult = Made(i: nat) | Existing(i: nat) | Refused | NoInodes

  /** An inode is free exactly when nothing links to it and nothing refers to it. */
  ghost predicate Tidy(nodes: Nodes, refs: seq<nat>) {
    && |refs| == |nodes|
    && forall i :: 0 <= i < |nodes| ==> (nodes[i].kind == Free <==> nodes[i].nlink == 0 && refs[i] == 0)
  }

  predicate Matches(e: Dirent, name: string) {
    e.inum != 0 && e.name == name
  }

  /** Every entry of a live directory names an inode that is in use and has links. */
  lemma EntryInUse(nodes: Nodes, d: nat, k: nat)
    requires LinkCount.Linked(nodes) && d < |nodes| && Live(nodes[d]) && k < |nodes[d].entries|
    requires nodes[d].entries[k].inum != 0
    ensures nodes[d].entries[k].inum < |nodes| && nodes[nodes[d].entries[k].inum].kind != Free
    ensures nodes[nodes[d].entries[k].inum].nlink > 0
  {
    hide HasParents, Counts;
    assert DirShape(nodes, d);
    if k == 1 {
      assert Link(nodes, d, 1, nodes[d].entries[1].inum);
      CountHas(nodes, d, 1, nodes[d].entries[1].inum);
      Counted(nodes, nodes[d].entries[1].inum);
    } else if k >= 2 {
      ChildIs(nodes, d, k);
    }
  }

  class Tree {
    var nodes: Nodes
    var refs: seq<nat>

    ghost predicate Valid()
      reads this
    {
      LinkCount.Linked(nodes) && Tidy(nodes, refs)
    }

    /** A new file system: the root directory and unused inodes. */
    constructor (unused: nat)
      ensures Valid() && nodes == Fresh(unused)
    {
      nodes := Fresh(unused);
      refs := seq(unused + 2, _ => 0);
      new;
      hide LinkCount.Linked, Fresh;
      FreshLinked(unused);
    }

    method Iget(i: nat)
      requires Valid() && i < |nodes| && nodes[i].kind != Free
      modifies this`refs
      ensures Valid() && |old(refs)| == |nodes| && refs == old(refs)[i := old(refs)[i] + 1]
    {
      refs := refs[i := refs[i] + 1];
    }

    /** Drop a reference; the last one to an inode without links frees it. */
    method Iput(i: nat)
      requires Valid() && i < |refs| && refs[i] > 0
      modifies this
      ensures Valid() && |old(refs)| == |old(nodes)| && refs == old(refs)[i := old(refs)[i] - 1]
      ensures nodes ==
                if old(nodes)[i].nlink == 0 && old(refs)[i] == 1 then old(nodes)[i := Node(Free, 0, [])]
                else old(nodes)
    {
      hide LinkCount.Linked;
      if nodes[i].nlink == 0 && refs[i] == 1 {
        FreeKeeps(nodes, i);
        nodes := nodes[i := Node(Free, 0, [])];
      }
      refs := refs[i := refs[i] - 1];
    }

    /** The first entry called `name`; the length of the directory if there is none. */
    method Dirlookup(d: nat, name: string) returns (k: nat)
      requires d < |nodes|
      ensures k <= |nodes[d].entries| && (k < |nodes[d].entries| ==> Matches(nodes[d].entries[k], name))
      ensures k == First(nodes[d].entries, name)
    {
      k := 0;
      while k < |nodes[d].entries| && !Matches(nodes[d].entries[k], name)
        invariant k <= |nodes[d].entries| && forall j :: 0 <= j < k ==> !Matches(nodes[d].entries[j], name)
      {
        k := k + 1;
      }
      FirstIs(nodes[d].entries, name, k);
    }

    /** Enter `inum` under `name` into the first empty place; refused if the name is there already. */
    method Dirlink(d: nat, name: string, inum: nat) returns (ok: bool, k: nat)
      requires d < |nodes|
      modifies this`nodes
      ensures ok <==> forall j :: 0 <= j < |old(nodes)[d].entries| ==> !Matches(old(nodes)[d].entries[j], name)
      ensures !ok ==> nodes == old(nodes)
      ensures ok ==> CanPut(old(nodes)[d].entries, k) && (forall j :: 0 <= j < k ==> old(nodes)[d].entries[j].inum != 0)
      ensures ok ==>
                nodes == old(nodes)[d := old(nodes)[d].(entries := Put(old(nodes)[d].entries, k, Dirent(inum, name)))]
    {
      k := Dirlookup(d, name);
      if k < |nodes[d].entries| {
        return false, k;
      }
      k := 0;
      while k < |nodes[d].entries| && nodes[d].entries[k].inum != 0
        invariant k <= |nodes[d].entries| && forall j :: 0 <= j < k ==> nodes[d].entries[j].inum != 0
      {
        k := k + 1;
      }
      nodes := nodes[d := nodes[d].(entries := Put(nodes[d].entries, k, Dirent(inum, name)))];
      return true, k;
    }

    /** Is the directory empty except for its first two entries? */
    method IsDirEmpty(i: nat) returns (empty: bool)
      requires i < |nodes|
      ensures empty <==> DirEmpty(nodes[i])
    {
      var k := 2;
      while k < |nodes[i].entries|
        invariant 2 <= k && forall j :: 2 <= j < k && j < |nodes[i].entries| ==> nodes[i].entries[j].inum == 0
      {
        if nodes[i].entries[k].inum != 0 {
          return false;
        }
        k := k + 1;
      }
      return true;
    }

    /** The first free inode; 0 stands for the panic. */
    method Ialloc() returns (i: nat)
      requires |nodes| > 0
      ensures i < |nodes|
      ensures i > 0 ==> nodes[i].kind == Free && forall j :: 0 < j < i ==> nodes[j].kind != Free
      ensures i == 0 ==> forall j :: 0 < j < |nodes| ==> nodes[j].kind != Free
    {
      i := 1;
      while i < |nodes|
        invariant 1 <= i <= |nodes| && forall j :: 0 < j < i ==> nodes[j].kind != Free
      {
        if nodes[i].kind == Free {
          return;
        }
        i := i + 1;
      }
      return 0;
    }

    /** The state change of `unlink`, with references to the directory and to the inode that both are given up. */
    method Remove(dp: nat, ip: nat, k: nat)
      requires Valid() && CanUnlink(nodes, dp, k) && ip == nodes[dp].entries[k].inum && refs[dp] > 0 && refs[ip] > 0
      modifies this
      ensures Valid() && |old(refs)| == |old(nodes)| == |nodes| && dp != ip
      ensures refs == old(refs)[dp := old(refs)[dp] - 1][ip := old(refs)[ip] - 1]
      ensures old(nodes)[ip].nlink > 0 && (old(nodes)[ip].kind == Dir ==> old(nodes)[dp].nlink > 1)
      ensures var r := Unlinked(old(nodes), dp, k);
              nodes == if r[ip].nlink == 0 && old(refs)[ip] == 1 then r[ip := Node(Free, 0, [])] else r
    {
      hide LinkCount.Linked;
      UnlinkKeeps(nodes, dp, k);
      ghost var n0 := nodes;
      var n := nodes[dp].(entries := nodes[dp].entries[k := NO_ENTRY]);
      if nodes[ip].kind == Dir {
        n := n.(nlink := n.nlink - 1);
      }
      nodes := nodes[dp := n];
      refs := refs[dp := refs[dp] - 1];      // iput(dp): its link count is not 0
      nodes := nodes[ip := nodes[ip].(nlink := nodes[ip].nlink - 1)];
      assert nodes == Unlinked(n0, dp, k);
      Iput(ip);
    }

    /** One more link to file `ip`, called `name` in `dp`; `dp` is None if its path did not resolve. */
    method MakeLink(ip: nat, dp: Option<nat>, name: string) returns (ok: bool, k: nat)
      requires Valid() && ip < |nodes| && refs[ip] > 0
      requires dp.Some? ==> dp.value < |nodes| && Live(nodes[dp.value]) && refs[dp.value] > 0
      modifies this
      ensures Valid() && |old(refs)| == |old(nodes)|
      ensures ok <==>
                && old(nodes)[ip].kind != Dir && dp.Some?
                && First(old(nodes)[dp.value].entries, name) == |old(nodes)[dp.value].entries|
      ensures ok ==> CanLink(old(nodes), ip, dp.value, k, name) && nodes == Relinked(old(nodes), ip, dp.value, k, name)
      ensures !ok ==>
                nodes ==
                if old(nodes)[ip].nlink == 0 && old(refs)[ip] == 1 then old(nodes)[ip := Node(Free, 0, [])]
                else old(nodes)
      ensures var parentPut := old(nodes)[ip].kind != Dir && dp.Some?;
              var rs := if parentPut then old(refs)[dp.value := old(refs)[dp.value] - 1] else old(refs);
              refs == rs[ip := old(refs)[ip] - 1]
    {
      hide LinkCount.Linked, Relinked;
      k := 0;
      if nodes[ip].kind == Dir {
        Iput(ip);
        return false, k;
      }
      ghost var n0 := nodes;
      nodes := nodes[ip := nodes[ip].(nlink := nodes[ip].nlink + 1)];
      if dp.Some? {
        ok, k := Dirlink(dp.value, name, ip);
        refs := refs[dp.value := refs[dp.value] - 1];      // iput(dp): its link count is not 0
        if ok {
          NewName(n0, dp.value, name);
          PutPlace(n0, dp.value, k);
          NotFree(n0, old(refs), ip);
          RelinkedIs(n0, nodes, ip, dp.value, k, name);
          LinkKeepsIff(n0, ip, dp.value, k, name);
          PutParent(ip);
          return true, k;
        }
      }
      nodes := nodes[ip := nodes[ip].(nlink := nodes[ip].nlink - 1)];
      assert nodes == n0;
      Iput(ip);
      return false, k;
    }

    /** Take the link called `name` away from directory `dp`. */
    method Unlink(dp: nat, name: string) returns (ok: bool)
      requires Valid() && dp < |nodes| && Live(nodes[dp]) && refs[dp] > 0
      modifies this
      ensures Valid() && |old(refs)| == |old(nodes)| == |nodes| && refs == old(refs)[dp := old(refs)[dp] - 1]
      ensures ok <==> MayUnlink(old(nodes), dp, name)
      ensures nodes == if ok then AfterUnlink(old(nodes), old(refs), dp, name) else old(nodes)
    {
      hide LinkCount.Linked, Unlinked;
      if name == "." || name == ".." {
        PutParent(dp);
        return false;
      }
      var k := Dirlookup(dp, name);
      if k == |nodes[dp].entries| {
        PutParent(dp);
        return false;
      }
      EntryInUse(nodes, dp, k);
      OrdinaryEntry(nodes, dp, k, name);
      var ip := nodes[dp].entries[k].inum;
      Iget(ip);
      var empty := true;
      if nodes[ip].kind == Dir {
        empty := IsDirEmpty(ip);
      }
      if !empty {
        PutParent(ip);
        PutParent(dp);
        return false;
      }
      UnlinkKeeps(nodes, dp, k);
      Remove(dp, ip, k);
      assert refs == old(refs)[dp := old(refs)[dp] - 1];
      return true;
    }

    /** The first two entries of a new directory. */
    method Dots(c: nat, dp: nat)
      requires 0 < c < |nodes| && nodes[c].entries == []
      modifies this`nodes
      ensures nodes == old(nodes)[c := old(nodes)[c].(entries := [Dirent(c, "."), Dirent(dp, "..")])]
    {
      var ok, _ := Dirlink(c, ".", c);
      assert ok;
      assert nodes[c].entries == [Dirent(c, ".")];
      var ok', _ := Dirlink(c, "..", dp);
      assert ok';
      assert nodes[c].entries == [Dirent(c, "."), Dirent(dp, "..")];
    }

    /** Fill the new inode `c` and enter it into `dp`; its own reference stays, the one to `dp` is given up. */
    method Enter(dp: nat, name: string, kind: Kind, c: nat) returns (k: nat)
      requires Valid() && dp < |nodes| && Live(nodes[dp]) && refs[dp] > 0 && kind != Free
      requires 0 < c < |nodes| && nodes[c].kind == Free && First(nodes[dp].entries, name) == |nodes[dp].entries|
      modifies this
      ensures Valid() && |old(refs)| == |old(nodes)| && c != dp && refs == old(refs)[c := 1][dp := old(refs)[dp] - 1]
      ensures CanCreate(old(nodes), c, kind, dp, k, name) && nodes == Created(old(nodes), c, kind, dp, k, name)
      ensures forall j :: 0 <= j < k ==> old(nodes)[dp].entries[j].inum != 0
    {
      hide LinkCount.Linked;
      ghost var n0, r0 := nodes, refs;
      NewName(nodes, dp, name);
      refs := refs[c := 1];
      nodes := nodes[c := Node(kind, 1, [])];
      if kind == Dir {
        nodes := nodes[dp := nodes[dp].(nlink := nodes[dp].nlink + 1)];
        Dots(c, dp);
      }
      assert nodes[c] == NewNode(kind, c, dp);
      var ok;
      ok, k := Dirlink(dp, name, c);
      assert ok;
      PutPlace(n0, dp, k);
      assert nodes == Created(n0, c, kind, dp, k, name);
      CreateKeepsIff(n0, c, kind, dp, k, name);
      refs := refs[dp := refs[dp] - 1];      // iput(dp): its link count is not 0
    }

    /** Make an inode called `name` in directory `dp`, or find the file of that name. */
    method Create(dp: nat, name: string, kind: Kind) returns (r: CreateResult, ghost k: nat)
      requires Valid() && dp < |nodes| && Live(nodes[dp]) && refs[dp] > 0 && kind != Free
      modifies this
      ensures Valid() && |old(refs)| == |old(nodes)|
      ensures var es := old(nodes)[dp].entries;
              var at := First(es, name);
              && (at < |es| ==> es[at].inum < |old(nodes)|)
              && (r == NoInodes <==> at == |es| && forall i :: 0 < i < |old(nodes)| ==> old(nodes)[i].kind != Free)
              && (r.Made? <==> at == |es| && r != NoInodes)
              && (r.Existing? <==> at < |es| && kind == File && old(nodes)[es[at].inum].kind == File)
              && (r == Refused <==> at < |es| && !(kind == File && old(nodes)[es[at].inum].kind == File))
              && (r.Existing? ==> r.i == es[at].inum)
      ensures r.Made? ==> r.i < |old(nodes)| == |nodes| && forall j :: 0 < j < r.i ==> old(nodes)[j].kind != Free
      ensures r.Made? ==>
                && CanCreate(old(nodes), r.i, kind, dp, k, name) && nodes == Created(old(nodes), r.i, kind, dp, k, name)
                && refs == old(refs)[r.i := 1][dp := old(refs)[dp] - 1]
                && k < |nodes[dp].entries| && nodes[dp].entries[k] == Dirent(r.i, name)
                && nodes[r.i].kind == kind && nodes[r.i].nlink == 1
                && forall j :: 0 <= j < k ==> old(nodes)[dp].entries[j].inum != 0
      ensures !r.Made? ==> nodes == old(nodes)
      ensures r.Existing? ==>
                && 0 < r.i < |nodes| && r.i != dp
                && nodes[r.i].kind == File && refs == old(refs)[dp := old(refs)[dp] - 1][r.i := old(refs)[r.i] + 1]
      ensures r == Refused ==> refs == old(refs)[dp := old(refs)[dp] - 1]
    {
      hide LinkCount.Linked, Created;
      k := First(nodes[dp].entries, name);
      var off := Dirlookup(dp, name);
      if off < |nodes[dp].entries| {
        EntryInUse(nodes, dp, off);
        var ip := nodes[dp].entries[off].inum;
        Iget(ip);
        PutParent(dp);
        if kind == File && nodes[ip].kind == File {
          return Existing(ip), k;
        }
        PutParent(ip);
        return Refused, k;
      }
      var c := Ialloc();
      if c == 0 {
        return NoInodes, k;
      }
      k := Enter(dp, name, kind, c);
      MadeIs(old(nodes), c, kind, dp, k, name);
      return Made(c), k;
    }

    /** Dropping a reference to an inode that has links only changes the count of references. */
    method PutParent(i: nat)
      requires Valid() && i < |refs| && refs[i] > 0 && i < |nodes| && nodes[i].nlink > 0
      modifies this
      ensures Valid() && nodes == old(nodes) && refs == old(refs)[i := old(refs)[i] - 1]
    {
      Iput(i);
    }
  }

  /** Where the search for `name` stops. */
  function First(es: seq<Dirent>, name: string): (k: nat)
    ensures k <= |es| && (k < |es| ==> Matches(es[k], name))
    ensures forall j :: 0 <= j < k ==> !Matches(es[j], name)
  {
    if |es| == 0 || Matches(es[0], name) then 0 else 1 + First(es[1..], name)
  }

  lemma FirstIs(es: seq<Dirent>, name: string, k: nat)
    requires k <= |es| && (k < |es| ==> Matches(es[k], name)) && forall j :: 0 <= j < k ==> !Matches(es[j], name)
    ensures First(es, name) == k
  {
  }

  /** `name` is there, is not a dot entry, and names a file or an empty directory. */
  predicate MayUnlink(nodes: Nodes, dp: nat, name: string)
    requires dp < |nodes|
  {
    var es := nodes[dp].entries;
    var k := First(es, name);
    && name != "." && name != ".." && k < |es| && es[k].inum < |nodes|
    && (nodes[es[k].inum].kind == Dir ==> DirEmpty(nodes[es[k].inum]))
  }

  /** One link fewer; the inode is freed if that was the last link and nobody else refers to it. */
  function AfterUnlink(nodes: Nodes, refs: seq<nat>, dp: nat, name: string): (r: Nodes)
    requires dp < |nodes| == |refs| && MayUnlink(nodes, dp, name)
  {
    var k := First(nodes[dp].entries, name);
    var ip := nodes[dp].entries[k].inum;
    if dp != ip && nodes[ip].nlink > 0 && nodes[dp].nlink > 0 then
      var r := Unlinked(nodes, dp, k);
      if r[ip].nlink == 0 && refs[ip] == 0 then r[ip := Node(Free, 0, [])] else r
    else nodes
  }

  lemma OrdinaryEntry(nodes: Nodes, d: nat, k: nat, name: string)
    requires LinkCount.Linked(nodes) && d < |nodes| && nodes[d].kind == Dir && k < |nodes[d].entries|
    requires Matches(nodes[d].entries[k], name) && name != "." && name != ".."
    ensures 2 <= k
  {
    assert DirShape(nodes, d);
  }

  /** A name that a live directory does not hold is not a dot name. */
  lemma NewName(nodes: Nodes, dp: nat, name: string)
    requires LinkCount.Linked(nodes) && dp < |nodes| && nodes[dp].kind == Dir
    requires First(nodes[dp].entries, name) == |nodes[dp].entries|
    ensures name != "." && name != ".."
  {
    assert DirShape(nodes, dp);
    assert !Matches(nodes[dp].entries[0], name) && !Matches(nodes[dp].entries[1], name);
  }

  lemma PutPlace(nodes: Nodes, dp: nat, k: nat)
    requires LinkCount.Linked(nodes) && dp < |nodes| && Live(nodes[dp]) && CanPut(nodes[dp].entries, k)
    ensures 2 <= k
  {
    hide HasParents, NamedOnce, Counts;
    assert DirShape(nodes, dp);
  }

  lemma NotFree(nodes: Nodes, refs: seq<nat>, i: nat)
    requires LinkCount.Linked(nodes) && Tidy(nodes, refs) && i < |nodes| && refs[i] > 0
    ensures nodes[i].kind != Free && i != 0
  {
  }

  lemma RelinkedIs(nodes: Nodes, r: Nodes, ip: nat, dp: nat, k: nat, name: string)
    requires ip < |nodes| && dp < |nodes| && ip != dp && CanPut(nodes[dp].entries, k)
    requires var n := nodes[ip := nodes[ip].(nlink := nodes[ip].nlink + 1)];
             r == n[dp := n[dp].(entries := Put(n[dp].entries, k, Dirent(ip, name)))]
    ensures r == Relinked(nodes, ip, dp, k, name)
    ensures r[ip].nlink == nodes[ip].nlink + 1 && r[ip].kind == nodes[ip].kind
    ensures r[dp].nlink == nodes[dp].nlink && r[dp].kind == nodes[dp].kind
    ensures forall i :: 0 <= i < |nodes| && i != ip && i != dp ==> r[i] == nodes[i]
  {
  }

  lemma MadeIs(nodes: Nodes, c: nat, kind: Kind, dp: nat, k: nat, name: string)
    requires CanCreate(nodes, c, kind, dp, k, name) && c != dp
    ensures var r := Created(nodes, c, kind, dp, k, name);
            && k < |r[dp].entries| && r[dp].entries[k] == Dirent(c, name) && r[c].kind == kind && r[c].nlink == 1
  {
  }

  lemma FirstPut(es: seq<Dirent>, k: nat, e: Dirent)
    requires CanPut(es, k) && First(es, e.name) == |es| && e.inum != 0
    ensures First(Put(es, k, e), e.name) == k
  {
    var r := Put(es, k, e);
    hide Put, First;
    FirstIs(r, e.name, k);
  }

  /** What `create` or `mkdir` has made, `unlink` takes away again; the directory gets back its empty place. */
  lemma CreateThenUnlink(nodes: Nodes, refs: seq<nat>, c: nat, kind: Kind, dp: nat, k: nat, name: string)
    requires CanCreate(nodes, c, kind, dp, k, name) && Live(nodes[dp])
    requires First(nodes[dp].entries, name) == |nodes[dp].entries|
    requires |refs| == |nodes| && refs[c] == 0
    ensures MayUnlink(Created(nodes, c, kind, dp, k, name), dp, name)
    ensures AfterUnlink(Created(nodes, c, kind, dp, k, name), refs, dp, name) ==
              nodes[c := Node(Free, 0, [])][dp := nodes[dp].(entries := Put(nodes[dp].entries, k, NO_ENTRY))]
  {
    var r := Created(nodes, c, kind, dp, k, name);
    FirstPut(nodes[dp].entries, k, Dirent(c, name));
    assert Put(nodes[dp].entries, k, Dirent(c, name))[k := NO_ENTRY] == Put(nodes[dp].entries, k, NO_ENTRY);
    assert AfterUnlink(r, refs, dp, name)[dp] == nodes[dp].(entries := Put(nodes[dp].entries, k, NO_ENTRY));
  }
}

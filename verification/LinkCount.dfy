/**
 fs.c and sysfile.c: link counts. An inode's `nlink` is the number of directory entries that name
 it, in directories that are themselves still linked, not counting the "." entries.
 */
module LinkCount {

  const ROOTINO := 1

  datatype Kind = Free | Dir | File | Dev
  datatype Dirent = Dirent(inum: nat, name: string)
  datatype Node = Node(kind: Kind, nlink: nat, entries: seq<Dirent>)
  type Nodes = seq<Node>

  const NO_ENTRY := Dirent(0, "")

  /** Entry `e` counts as a link to inode `i`. */
  predicate Names(e: Dirent, i: nat) {
    e.inum == i && i != 0 && e.name != "."
  }

  function One(e: Dirent, i: nat): nat {
    if Names(e, i) then 1 else 0
  }

  function CountIn(es: seq<Dirent>, i: nat): nat {
    if |es| == 0 then 0 else CountIn(es[..|es| - 1], i) + One(es[|es| - 1], i)
  }

  /** A directory that has not been unlinked. */
  predicate Live(n: Node) {
    n.kind == Dir && n.nlink > 0
  }

  function Weight(n: Node, i: nat): nat {
    if Live(n) then CountIn(n.entries, i) else 0
  }

  /** The number of links to inode `i`. */
  function Count(nodes: Nodes, i: nat): nat {
    if |nodes| == 0 then 0 else Count(nodes[..|nodes| - 1], i) + Weight(nodes[|nodes| - 1], i)
  }

  // ----- counting -----

  lemma {:induction false} CountInUpdate(es: seq<Dirent>, k: nat, e: Dirent, i: nat)
    requires k < |es|
    ensures CountIn(es[k := e], i) + One(es[k], i) == CountIn(es, i) + One(e, i)
  {
    var n := |es| - 1;
    if k == n {
      assert es[k := e][..n] == es[..n];
    } else {
      assert es[k := e][..n] == es[..n][k := e];
      CountInUpdate(es[..n], k, e, i);
    }
  }

  lemma CountInAppend(es: seq<Dirent>, e: Dirent, i: nat)
    ensures CountIn(es + [e], i) == CountIn(es, i) + One(e, i)
  {
    assert (es + [e])[..|es|] == es;
  }

  lemma {:induction false} CountInHas(es: seq<Dirent>, k: nat, i: nat)
    requires k < |es| && Names(es[k], i)
    ensures CountIn(es, i) >= 1
  {
    if k < |es| - 1 { CountInHas(es[..|es| - 1], k, i); }
  }

  lemma {:induction false} CountInNone(es: seq<Dirent>, i: nat)
    requires forall k :: 0 <= k < |es| ==> !Names(es[k], i)
    ensures CountIn(es, i) == 0
  {
    if es != [] { CountInNone(es[..|es| - 1], i); }
  }

  lemma {:induction false} CountUpdate(nodes: Nodes, d: nat, n: Node, i: nat)
    requires d < |nodes|
    ensures Count(nodes[d := n], i) + Weight(nodes[d], i) == Count(nodes, i) + Weight(n, i)
  {
    var m := |nodes| - 1;
    if d == m {
      assert nodes[d := n][..m] == nodes[..m];
    } else {
      assert nodes[d := n][..m] == nodes[..m][d := n];
      CountUpdate(nodes[..m], d, n, i);
    }
  }

  /** Entry `k` of live directory `d` is a link to `i`. */
  ghost predicate Link(nodes: Nodes, d: int, k: int, i: nat) {
    0 <= d < |nodes| && Live(nodes[d]) && 0 <= k < |nodes[d].entries| && Names(nodes[d].entries[k], i)
  }

  lemma {:induction false} CountHas(nodes: Nodes, d: nat, k: nat, i: nat)
    requires Link(nodes, d, k, i)
    ensures Count(nodes, i) >= 1
  {
    var m := |nodes| - 1;
    if d < m {
      assert Link(nodes[..m], d, k, i);
      CountHas(nodes[..m], d, k, i);
    } else {
      CountInHas(nodes[d].entries, k, i);
    }
  }

  lemma {:induction false} CountNone(nodes: Nodes, i: nat)
    requires forall d, k :: !Link(nodes, d, k, i)
    ensures Count(nodes, i) == 0
  {
    var m := |nodes| - 1;
    if nodes != [] {
      forall d, k ensures !Link(nodes[..m], d, k, i) { assert !Link(nodes, d, k, i); }
      CountNone(nodes[..m], i);
      if Live(nodes[m]) {
        forall k | 0 <= k < |nodes[m].entries| ensures !Names(nodes[m].entries[k], i) { assert !Link(nodes, m, k, i); }
        CountInNone(nodes[m].entries, i);
      }
    }
  }

  /** Where a new entry goes: over an empty one, or at the end. */
  function Put(es: seq<Dirent>, k: nat, e: Dirent): (r: seq<Dirent>)
    requires k <= |es|
    ensures |r| == (if k < |es| then |es| else |es| + 1) && r[k] == e
    ensures forall j :: 0 <= j < |es| && j != k ==> r[j] == es[j]
  {
    if k < |es| then es[k := e] else es + [e]
  }

  predicate CanPut(es: seq<Dirent>, k: nat) {
    k <= |es| && (k < |es| ==> es[k].inum == 0)
  }

  lemma CountPut(es: seq<Dirent>, k: nat, e: Dirent, i: nat)
    requires CanPut(es, k)
    ensures CountIn(Put(es, k, e), i) == CountIn(es, i) + One(e, i)
  {
    if k < |es| { CountInUpdate(es, k, e, i); } else { CountInAppend(es, e, i); }
  }

  // ----- the invariant -----

  /** Directories begin with "." and "..", no other entry has these names, and unlinked ones are otherwise empty. */
  ghost predicate DirShape(nodes: Nodes, i: nat)
    requires i < |nodes|
  {
    var es := nodes[i].entries;
    && |es| >= 2 && es[0] == Dirent(i, ".") && es[1].name == ".." && 0 < es[1].inum < |nodes|
    && (forall k :: 2 <= k < |es| && es[k].inum != 0 ==>
          es[k].name != "." && es[k].name != ".." && es[k].inum < |nodes|)
    && (nodes[i].nlink == 0 ==> forall k :: 2 <= k < |es| ==> es[k].inum == 0)
  }

  ghost predicate Shape(nodes: Nodes) {
    && |nodes| > ROOTINO && Live(nodes[ROOTINO]) && nodes[0].kind == Free
    && (forall i :: 0 <= i < |nodes| && nodes[i].kind == Dir ==> DirShape(nodes, i))
    && (forall i :: 0 <= i < |nodes| && nodes[i].kind == Free ==> nodes[i].nlink == 0)
  }

  ghost predicate Counts(nodes: Nodes) {
    forall i :: 0 <= i < |nodes| ==> nodes[i].nlink == Count(nodes, i)
  }

  function Parent(n: Node): (p: nat) {
    if |n.entries| > 1 then n.entries[1].inum else 0
  }

  /** Entry `k` of live directory `d`, other than its dots, names `i`. */
  ghost predicate Child(nodes: Nodes, d: int, k: int, i: nat) {
    0 <= d < |nodes| && Live(nodes[d]) && 2 <= k < |nodes[d].entries| && nodes[d].entries[k].inum == i != 0
  }

  /** A directory is named once, by the directory its ".." names; the root is its own parent and not named. */
  ghost predicate NamedOnce(nodes: Nodes)
    requires Shape(nodes)
  {
    && Parent(nodes[ROOTINO]) == ROOTINO
    && (forall d, k, c: nat :: Child(nodes, d, k, c) && c < |nodes| && nodes[c].kind == Dir ==>
          c != ROOTINO && Parent(nodes[c]) == d)
    && (forall d, k, j, c: nat ::
          Child(nodes, d, k, c) && Child(nodes, d, j, c) && c < |nodes| && nodes[c].kind == Dir ==> j == k)
  }

  /** Every live directory but the root is a child of the directory its ".." names. */
  ghost predicate HasParents(nodes: Nodes) {
    forall c :: 0 <= c < |nodes| && Live(nodes[c]) && c != ROOTINO ==> exists k :: Child(nodes, Parent(nodes[c]), k, c)
  }

  ghost predicate Parents(nodes: Nodes)
    requires Shape(nodes)
  {
    NamedOnce(nodes) && HasParents(nodes)
  }

  ghost predicate Linked(nodes: Nodes) {
    Shape(nodes) && Counts(nodes) && Parents(nodes)
  }

  lemma Counted(nodes: Nodes, i: nat)
    requires Linked(nodes) && i < |nodes|
    ensures nodes[i].nlink == Count(nodes, i)
  {
  }

  // ----- create and mkdir -----

  function NewNode(kind: Kind, c: nat, dp: nat): (n: Node) {
    Node(kind, 1, if kind == Dir then [Dirent(c, "."), Dirent(dp, "..")] else [])
  }

  /** Inode `c` has been made and entered into `dp` as its entry `k`. */
  function Created(nodes: Nodes, c: nat, kind: Kind, dp: nat, k: nat, name: string): (r: Nodes)
    requires c < |nodes| && dp < |nodes| && c != dp && CanPut(nodes[dp].entries, k)
    ensures |r| == |nodes|
  {
    var n := nodes[dp];
    var nlink := n.nlink + if kind == Dir then 1 else 0;
    nodes[c := NewNode(kind, c, dp)][dp := Node(n.kind, nlink, Put(n.entries, k, Dirent(c, name)))]
  }

  ghost predicate CanCreate(nodes: Nodes, c: nat, kind: Kind, dp: nat, k: nat, name: string) {
    && 0 < c < |nodes| && nodes[c].kind == Free && kind != Free
    && dp < |nodes| && nodes[dp].kind == Dir && CanPut(nodes[dp].entries, k) && 2 <= k
    && name != "." && name != ".."
  }

  lemma CreateCount(nodes: Nodes, c: nat, kind: Kind, dp: nat, k: nat, name: string, i: nat)
    requires Linked(nodes) && CanCreate(nodes, c, kind, dp, k, name) && 0 < i
    ensures var also := if i == c then 1 else 0;
            var w := if Live(nodes[dp]) || kind == Dir then CountIn(nodes[dp].entries, i) + also else 0;
            Count(Created(nodes, c, kind, dp, k, name), i) + Weight(nodes[dp], i) ==
              Count(nodes, i) + (if kind == Dir && i == dp then 1 else 0) + w
  {
    var n1, r := nodes[c := NewNode(kind, c, dp)], Created(nodes, c, kind, dp, k, name);
    CountUpdate(nodes, c, NewNode(kind, c, dp), i);
    CountUpdate(n1, dp, r[dp], i);
    CountPut(nodes[dp].entries, k, Dirent(c, name), i);
    NewWeight(kind, c, dp, i);
    hide Count, CountIn;
  }

  lemma NewWeight(kind: Kind, c: nat, dp: nat, i: nat)
    requires 0 < i && c != dp
    ensures Weight(NewNode(kind, c, dp), i) == if kind == Dir && i == dp then 1 else 0
  {
    assert [Dirent(c, "."), Dirent(dp, "..")] == [Dirent(c, ".")] + [Dirent(dp, "..")];
    CountInAppend([Dirent(c, ".")], Dirent(dp, ".."), i);
    assert [Dirent(c, ".")] == [] + [Dirent(c, ".")];
    CountInAppend([], Dirent(c, "."), i);
  }

  lemma {:induction false} CountZero(nodes: Nodes)
    ensures Count(nodes, 0) == 0
  {
    forall d, k ensures !Link(nodes, d, k, 0) {}
    CountNone(nodes, 0);
  }

  lemma CreateShape(nodes: Nodes, c: nat, kind: Kind, dp: nat, k: nat, name: string)
    requires Shape(nodes) && CanCreate(nodes, c, kind, dp, k, name) && Live(nodes[dp])
    ensures Shape(Created(nodes, c, kind, dp, k, name))
  {
    var r := Created(nodes, c, kind, dp, k, name);
    hide Put;
    forall i | 0 <= i < |r| && r[i].kind == Dir ensures DirShape(r, i) {
      if i != c { assert DirShape(nodes, i); }
    }
  }

  /** What the children of live directories are after `create`. */
  lemma CreateChild(nodes: Nodes, c: nat, kind: Kind, dp: nat, k: nat, name: string, d: int, j: int, i: nat)
    requires Shape(nodes) && CanCreate(nodes, c, kind, dp, k, name) && Live(nodes[dp])
    ensures Child(Created(nodes, c, kind, dp, k, name), d, j, i) <==>
              Child(nodes, d, j, i) || (d == dp && j == k && i == c)
  {
    hide Put;
    assert DirShape(nodes, dp);
  }

  lemma CreateParents(nodes: Nodes, c: nat, kind: Kind, dp: nat, k: nat, name: string)
    requires Linked(nodes) && CanCreate(nodes, c, kind, dp, k, name) && Live(nodes[dp])
    requires Shape(Created(nodes, c, kind, dp, k, name))
    ensures Parents(Created(nodes, c, kind, dp, k, name))
  {
    var r := Created(nodes, c, kind, dp, k, name);
    forall d, j, i: nat ensures Child(r, d, j, i) <==> Child(nodes, d, j, i) || (d == dp && j == k && i == c) {
      CreateChild(nodes, c, kind, dp, k, name, d, j, i);
    }
    forall d, j ensures !Child(nodes, d, j, c) { NotNamed(nodes, d, j, c); }
    CreateNodes(nodes, c, kind, dp, k, name);
    ParentsPlus(nodes, r, c, dp, k);
  }

  /** `c`, which is not a directory or until now nobody's child, has become entry `k` of `dp`. */
  lemma ParentsPlus(nodes: Nodes, r: Nodes, c: nat, dp: nat, k: nat)
    requires Shape(nodes) && Parents(nodes) && Shape(r) && |r| == |nodes| && c < |nodes| && c != ROOTINO
    requires forall d, j, i: nat :: Child(r, d, j, i) <==> Child(nodes, d, j, i) || (d == dp && j == k && i == c)
    requires r[c].kind == Dir ==> Parent(r[c]) == dp && forall d, j :: !Child(nodes, d, j, c)
    requires forall i :: 0 <= i < |nodes| && i != c ==>
               && r[i].kind == nodes[i].kind && (Live(r[i]) <==> Live(nodes[i]))
               && (nodes[i].kind == Dir ==> Parent(r[i]) == Parent(nodes[i]))
    ensures Parents(r)
  {
    hide Child, DirShape, Parent;
    forall i | 0 <= i < |r| && Live(r[i]) && i != ROOTINO ensures exists j :: Child(r, Parent(r[i]), j, i) {
      if i != c {
        var j :| Child(nodes, Parent(nodes[i]), j, i);
        assert Child(r, Parent(r[i]), j, i);
      } else {
        assert Child(r, dp, k, c);
      }
    }
  }

  lemma CreateNodes(nodes: Nodes, c: nat, kind: Kind, dp: nat, k: nat, name: string)
    requires Shape(nodes) && CanCreate(nodes, c, kind, dp, k, name) && Live(nodes[dp])
    ensures var r := Created(nodes, c, kind, dp, k, name);
            && r[c].kind == kind && (kind == Dir ==> Live(r[c]) && Parent(r[c]) == dp)
            && forall i :: 0 <= i < |nodes| && i != c ==>
                 && r[i].kind == nodes[i].kind && (Live(r[i]) <==> Live(nodes[i]))
                 && (nodes[i].kind == Dir ==> Parent(r[i]) == Parent(nodes[i]))
  {
    hide Put;
    assert DirShape(nodes, dp);
  }

  /** A free inode is nobody's child. */
  lemma NotNamed(nodes: Nodes, d: int, j: int, c: nat)
    requires Linked(nodes) && c < |nodes| && nodes[c].kind == Free
    ensures !Child(nodes, d, j, c)
  {
    assert Child(nodes, d, j, c) ==> DirShape(nodes, d) && Link(nodes, d, j, c);
    if Link(nodes, d, j, c) { CountHas(nodes, d, j, c); }
  }

  /** `create` keeps the link counts right exactly if the directory has not been unlinked. */
  lemma CreateKeepsIff(nodes: Nodes, c: nat, kind: Kind, dp: nat, k: nat, name: string)
    requires Linked(nodes) && CanCreate(nodes, c, kind, dp, k, name)
    ensures Linked(Created(nodes, c, kind, dp, k, name)) <==> Live(nodes[dp])
  {
    var r := Created(nodes, c, kind, dp, k, name);
    if Live(nodes[dp]) {
      CreateShape(nodes, c, kind, dp, k, name);
      CreateParents(nodes, c, kind, dp, k, name);
      forall i | 0 <= i < |r| ensures r[i].nlink == Count(r, i) {
        CountZero(r);
        if i > 0 { CreateCount(nodes, c, kind, dp, k, name, i); }
      }
    } else {
      CreateBreaks(nodes, c, kind, dp, k, name);
    }
  }

  lemma CreateBreaks(nodes: Nodes, c: nat, kind: Kind, dp: nat, k: nat, name: string)
    requires Linked(nodes) && CanCreate(nodes, c, kind, dp, k, name) && !Live(nodes[dp])
    ensures !Counts(Created(nodes, c, kind, dp, k, name))
  {
    var r := Created(nodes, c, kind, dp, k, name);
    if kind != Dir {
      CreateCount(nodes, c, kind, dp, k, name, c);
      assert r[c].nlink != Count(r, c);
    } else {
      assert DirShape(nodes, dp);
      var p := nodes[dp].entries[1].inum;
      CreateCount(nodes, c, kind, dp, k, name, p);
      CountInHas(nodes[dp].entries, 1, p);
      assert r[p].nlink != Count(r, p);
    }
  }

  // ----- link -----

  /** Entry `k` of `dp` is one more link to `ip`. */
  function Relinked(nodes: Nodes, ip: nat, dp: nat, k: nat, name: string): (r: Nodes)
    requires ip < |nodes| && dp < |nodes| && ip != dp && CanPut(nodes[dp].entries, k)
    ensures |r| == |nodes|
  {
    var entries := Put(nodes[dp].entries, k, Dirent(ip, name));
    nodes[ip := nodes[ip].(nlink := nodes[ip].nlink + 1)][dp := nodes[dp].(entries := entries)]
  }

  ghost predicate CanLink(nodes: Nodes, ip: nat, dp: nat, k: nat, name: string) {
    && 0 < ip < |nodes| && nodes[ip].kind != Free && nodes[ip].kind != Dir
    && dp < |nodes| && nodes[dp].kind == Dir && CanPut(nodes[dp].entries, k) && 2 <= k
    && name != "." && name != ".."
  }

  lemma LinkCounts(nodes: Nodes, ip: nat, dp: nat, k: nat, name: string, i: nat)
    requires Linked(nodes) && CanLink(nodes, ip, dp, k, name) && 0 < i
    ensures Count(Relinked(nodes, ip, dp, k, name), i) == Count(nodes, i) + if Live(nodes[dp]) && i == ip then 1 else 0
  {
    var n := nodes[ip].(nlink := nodes[ip].nlink + 1);
    CountUpdate(nodes, ip, n, i);
    CountUpdate(nodes[ip := n], dp, Relinked(nodes, ip, dp, k, name)[dp], i);
    CountPut(nodes[dp].entries, k, Dirent(ip, name), i);
    hide Count, CountIn;
  }

  lemma LinkShape(nodes: Nodes, ip: nat, dp: nat, k: nat, name: string)
    requires Shape(nodes) && CanLink(nodes, ip, dp, k, name) && Live(nodes[dp])
    ensures Shape(Relinked(nodes, ip, dp, k, name))
  {
    var r := Relinked(nodes, ip, dp, k, name);
    hide Put;
    forall i | 0 <= i < |r| && r[i].kind == Dir ensures DirShape(r, i) {
      assert DirShape(nodes, i);
    }
  }

  lemma LinkChild(nodes: Nodes, ip: nat, dp: nat, k: nat, name: string, d: int, j: int, i: nat)
    requires Shape(nodes) && CanLink(nodes, ip, dp, k, name) && Live(nodes[dp])
    ensures Child(Relinked(nodes, ip, dp, k, name), d, j, i) <==>
              Child(nodes, d, j, i) || (d == dp && j == k && i == ip)
  {
    hide Put;
    assert DirShape(nodes, dp);
  }

  lemma LinkParents(nodes: Nodes, ip: nat, dp: nat, k: nat, name: string)
    requires Shape(nodes) && Parents(nodes) && CanLink(nodes, ip, dp, k, name) && Live(nodes[dp])
    requires Shape(Relinked(nodes, ip, dp, k, name))
    ensures Parents(Relinked(nodes, ip, dp, k, name))
  {
    hide HasParents, NamedOnce;
    var r := Relinked(nodes, ip, dp, k, name);
    forall d, j, i: nat ensures Child(r, d, j, i) <==> Child(nodes, d, j, i) || (d == dp && j == k && i == ip) {
      LinkChild(nodes, ip, dp, k, name, d, j, i);
    }
    assert DirShape(nodes, dp);
    hide Child;
    ParentsPlus(nodes, r, ip, dp, k);
  }

  /** `link` keeps the link counts right exactly if the directory has not been unlinked. */
  lemma LinkKeepsIff(nodes: Nodes, ip: nat, dp: nat, k: nat, name: string)
    requires Linked(nodes) && CanLink(nodes, ip, dp, k, name)
    ensures Linked(Relinked(nodes, ip, dp, k, name)) <==> Live(nodes[dp])
  {
    var r := Relinked(nodes, ip, dp, k, name);
    LinkCounts(nodes, ip, dp, k, name, ip);
    if Live(nodes[dp]) {
      LinkShape(nodes, ip, dp, k, name);
      LinkParents(nodes, ip, dp, k, name);
      forall i | 0 <= i < |r| ensures r[i].nlink == Count(r, i) {
        CountZero(r);
        if i > 0 { LinkCounts(nodes, ip, dp, k, name, i); }
      }
    } else {
      assert r[ip].nlink != Count(r, ip);
    }
  }

  // ----- unlink -----

  predicate DirEmpty(n: Node) {
    forall k :: 2 <= k < |n.entries| ==> n.entries[k].inum == 0
  }

  /** Entry `k` of `dp` is gone, and with it one link to the inode it named; a directory takes its ".." along. */
  function Unlinked(nodes: Nodes, dp: nat, k: nat): (r: Nodes)
    requires dp < |nodes| && k < |nodes[dp].entries| && nodes[dp].entries[k].inum < |nodes|
    requires dp != nodes[dp].entries[k].inum && nodes[nodes[dp].entries[k].inum].nlink > 0
    requires nodes[nodes[dp].entries[k].inum].kind == Dir ==> nodes[dp].nlink > 0
    ensures |r| == |nodes|
  {
    var n, ip := nodes[dp], nodes[dp].entries[k].inum;
    nodes[dp := Node(n.kind, n.nlink - (if nodes[ip].kind == Dir then 1 else 0), n.entries[k := NO_ENTRY])]
      [ip := nodes[ip].(nlink := nodes[ip].nlink - 1)]
  }

  /** The inode that an ordinary entry of a live directory names. */
  lemma ChildIs(nodes: Nodes, d: nat, k: nat)
    requires Linked(nodes) && d < |nodes| && Live(nodes[d]) && 2 <= k < |nodes[d].entries|
    requires nodes[d].entries[k].inum != 0
    ensures var i := nodes[d].entries[k].inum;
            i < |nodes| && nodes[i].nlink >= 1 && nodes[i].kind != Free && i != ROOTINO
    ensures Child(nodes, d, k, nodes[d].entries[k].inum)
  {
    hide HasParents;
    assert DirShape(nodes, d);
    assert Link(nodes, d, k, nodes[d].entries[k].inum);
    CountHas(nodes, d, k, nodes[d].entries[k].inum);
    assert Child(nodes, d, k, nodes[d].entries[k].inum);
    hide Count;
  }

  /** Two different links make a count of at least two. */
  lemma CountTwo(nodes: Nodes, d: nat, k: nat, e: nat, j: nat, i: nat)
    requires Link(nodes, d, k, i) && Link(nodes, e, j, i) && !(d == e && k == j)
    ensures Count(nodes, i) >= 2
  {
    var n := nodes[d].(entries := nodes[d].entries[k := NO_ENTRY]);
    CountInUpdate(nodes[d].entries, k, NO_ENTRY, i);
    CountUpdate(nodes, d, n, i);
    assert Link(nodes[d := n], e, j, i);
    CountHas(nodes[d := n], e, j, i);
  }

  /** An empty directory is named by its parent's entry only. */
  lemma EmptyOnce(nodes: Nodes, dp: nat, k: nat)
    requires Linked(nodes) && dp < |nodes| && Live(nodes[dp]) && 2 <= k < |nodes[dp].entries|
    requires nodes[dp].entries[k].inum != 0
    requires nodes[dp].entries[k].inum < |nodes| && nodes[nodes[dp].entries[k].inum].kind == Dir
    requires DirEmpty(nodes[nodes[dp].entries[k].inum])
    ensures nodes[nodes[dp].entries[k].inum].nlink == 1 && dp != nodes[dp].entries[k].inum
  {
    var ip := nodes[dp].entries[k].inum;
    ChildIs(nodes, dp, k);
    assert !Child(nodes, ip, k, ip);
    var n := nodes[dp].(entries := nodes[dp].entries[k := NO_ENTRY]);
    CountInUpdate(nodes[dp].entries, k, NO_ENTRY, ip);
    CountUpdate(nodes, dp, n, ip);
    var r := nodes[dp := n];
    forall d, j ensures !Link(r, d, j, ip) { EmptyLink(nodes, dp, k, d, j); }
    CountNone(r, ip);
    assert DirShape(nodes, dp);
    hide Count, CountIn;
  }

  lemma EmptyLink(nodes: Nodes, dp: nat, k: nat, d: int, j: int)
    requires Linked(nodes) && dp < |nodes| && Live(nodes[dp]) && 2 <= k < |nodes[dp].entries|
    requires nodes[dp].entries[k].inum != 0
    requires nodes[dp].entries[k].inum < |nodes| && nodes[nodes[dp].entries[k].inum].kind == Dir
    requires DirEmpty(nodes[nodes[dp].entries[k].inum])
    ensures Link(nodes, d, j, nodes[dp].entries[k].inum) ==> d == dp && j == k
  {
    hide HasParents;
    var ip := nodes[dp].entries[k].inum;
    ChildIs(nodes, dp, k);
    if Link(nodes, d, j, ip) {
      assert DirShape(nodes, d);
      if j == 1 {
        NoChildDir(nodes, ip, d);
      } else if j >= 2 {
        assert Child(nodes, d, j, ip);
      }
    }
  }

  /** An empty directory other than the root is nobody's parent. */
  lemma NoChildDir(nodes: Nodes, ip: nat, d: nat)
    requires Linked(nodes) && ip < |nodes| && DirEmpty(nodes[ip]) && ip != ROOTINO && d < |nodes| && Live(nodes[d])
    ensures Parent(nodes[d]) != ip
  {
    if d != ROOTINO {
      var k :| Child(nodes, Parent(nodes[d]), k, d);
      hide HasParents;
    }
  }

  /** What `unlink` asks for: an ordinary entry of a live directory that names a file or an empty directory. */
  ghost predicate CanUnlink(nodes: Nodes, dp: nat, k: nat) {
    && dp < |nodes| && Live(nodes[dp]) && 2 <= k < |nodes[dp].entries| && 0 < nodes[dp].entries[k].inum < |nodes|
    && var n := nodes[nodes[dp].entries[k].inum]; n.kind != Free && (n.kind == Dir ==> DirEmpty(n))
  }

  /** The source's check on the link count cannot fail, and the parent of a directory has a link to spare. */
  lemma UnlinkReady(nodes: Nodes, dp: nat, k: nat)
    requires Linked(nodes) && CanUnlink(nodes, dp, k)
    ensures var ip := nodes[dp].entries[k].inum;
            && dp != ip && ip != ROOTINO && nodes[ip].nlink >= 1
            && (nodes[ip].kind == Dir ==> nodes[ip].nlink == 1 && nodes[dp].nlink >= 2 && Parent(nodes[ip]) == dp)
  {
    hide HasParents, Counts;
    var ip := nodes[dp].entries[k].inum;
    ChildIs(nodes, dp, k);
    if nodes[ip].kind == Dir {
      EmptyOnce(nodes, dp, k);
      assert DirShape(nodes, ip) && Parent(nodes[ip]) == dp;
      assert Link(nodes, ip, 1, dp);
      var d, j := OtherLink(nodes, dp, ip);
      CountTwo(nodes, ip, 1, d, j, dp);
      Counted(nodes, dp);
    }
  }

  lemma OtherLink(nodes: Nodes, dp: nat, ip: nat) returns (d: nat, j: nat)
    requires Linked(nodes) && dp < |nodes| && Live(nodes[dp]) && ip < |nodes| && DirEmpty(nodes[ip]) && ip != ROOTINO
    ensures Link(nodes, d, j, dp) && d != ip
  {
    hide HasParents, NamedOnce, Counts;
    if dp == ROOTINO {
      assert DirShape(nodes, dp);
      RootLink(nodes);
      d, j := dp, 1;
    } else {
      d, j := ParentLink(nodes, dp);
    }
  }

  lemma RootLink(nodes: Nodes)
    requires Linked(nodes)
    ensures Link(nodes, ROOTINO, 1, ROOTINO)
  {
    hide HasParents;
    assert DirShape(nodes, ROOTINO);
  }

  lemma ParentLink(nodes: Nodes, c: nat) returns (d: nat, j: nat)
    requires Linked(nodes) && c < |nodes| && Live(nodes[c]) && c != ROOTINO
    ensures Link(nodes, d, j, c) && Child(nodes, d, j, c)
  {
    var k :| Child(nodes, Parent(nodes[c]), k, c);
    hide HasParents;
    d, j := Parent(nodes[c]), k;
    assert DirShape(nodes, d);
  }

  lemma EmptyWeight(nodes: Nodes, ip: nat, i: nat)
    requires Shape(nodes) && ip < |nodes| && nodes[ip].kind == Dir && DirEmpty(nodes[ip]) && 0 < i
    ensures CountIn(nodes[ip].entries, i) == if i == Parent(nodes[ip]) then 1 else 0
  {
    assert DirShape(nodes, ip);
    var es := nodes[ip].entries;
    var fs := es[1 := NO_ENTRY];
    CountInUpdate(es, 1, NO_ENTRY, i);
    CountInNone(fs, i);
  }

  lemma UnlinkCount(nodes: Nodes, dp: nat, k: nat, i: nat)
    requires Linked(nodes) && CanUnlink(nodes, dp, k) && 0 < i < |nodes|
    requires var ip := nodes[dp].entries[k].inum;
             && dp != ip && nodes[ip].nlink >= 1
             && (nodes[ip].kind == Dir ==> nodes[ip].nlink == 1 && nodes[dp].nlink >= 2 && Parent(nodes[ip]) == dp)
    ensures Unlinked(nodes, dp, k)[i].nlink == Count(Unlinked(nodes, dp, k), i)
  {
    hide Count, CountIn, Counts, Parents;
    var ip, r := nodes[dp].entries[k].inum, Unlinked(nodes, dp, k);
    var n1 := nodes[dp := r[dp]];
    assert r == n1[ip := r[ip]];
    assert DirShape(nodes, dp);
    CountUpdate(nodes, dp, r[dp], i);
    CountUpdate(n1, ip, r[ip], i);
    CountInUpdate(nodes[dp].entries, k, NO_ENTRY, i);
    if nodes[ip].kind == Dir { EmptyWeight(nodes, ip, i); }
    Counted(nodes, i);
  }

  lemma UnlinkShape(nodes: Nodes, dp: nat, k: nat)
    requires Shape(nodes) && CanUnlink(nodes, dp, k)
    requires var ip := nodes[dp].entries[k].inum;
             && dp != ip && ip != ROOTINO && nodes[ip].nlink >= 1
             && (nodes[ip].kind == Dir ==> nodes[ip].nlink == 1 && nodes[dp].nlink >= 2)
    ensures Shape(Unlinked(nodes, dp, k))
  {
    var r := Unlinked(nodes, dp, k);
    forall i | 0 <= i < |r| && r[i].kind == Dir ensures DirShape(r, i) {
      assert DirShape(nodes, i);
    }
  }

  lemma UnlinkChild(nodes: Nodes, dp: nat, k: nat, d: int, j: int, i: nat)
    requires Shape(nodes) && CanUnlink(nodes, dp, k)
    requires var ip := nodes[dp].entries[k].inum;
             && dp != ip && nodes[ip].nlink >= 1
             && (nodes[ip].kind == Dir ==> nodes[ip].nlink == 1 && nodes[dp].nlink >= 2)
    ensures Child(Unlinked(nodes, dp, k), d, j, i) <==> Child(nodes, d, j, i) && !(d == dp && j == k)
  {
  }

  lemma SameChild(nodes: Nodes, d: nat, k: nat, i: nat, j: nat)
    ensures Child(nodes, d, k, i) && Child(nodes, d, k, j) ==> i == j
  {
  }

  /** `c` is no longer entry `k` of `dp`; if it is a directory, it is no longer live. */
  lemma ParentsMinus(nodes: Nodes, r: Nodes, c: nat, dp: nat, k: nat)
    requires Shape(nodes) && Parents(nodes) && Shape(r) && |r| == |nodes| && Child(nodes, dp, k, c) && c < |nodes|
    requires forall d, j, i: nat :: Child(r, d, j, i) <==> Child(nodes, d, j, i) && !(d == dp && j == k)
    requires !Live(r[c])
    requires forall i :: 0 <= i < |nodes| ==>
               r[i].kind == nodes[i].kind && (Live(r[i]) ==> Live(nodes[i])) && Parent(r[i]) == Parent(nodes[i])
    ensures Parents(r)
  {
    hide Child, DirShape, Parent;
    forall i: nat ensures Child(nodes, dp, k, i) ==> i == c { SameChild(nodes, dp, k, i, c); }
    forall i | 0 <= i < |r| && Live(r[i]) && i != ROOTINO ensures exists j :: Child(r, Parent(r[i]), j, i) {
      var j :| Child(nodes, Parent(nodes[i]), j, i);
      assert Child(r, Parent(r[i]), j, i);
    }
  }

  lemma UnlinkParents(nodes: Nodes, dp: nat, k: nat)
    requires Linked(nodes) && CanUnlink(nodes, dp, k)
    requires var ip := nodes[dp].entries[k].inum;
             && dp != ip && nodes[ip].nlink >= 1
             && (nodes[ip].kind == Dir ==> nodes[ip].nlink == 1 && nodes[dp].nlink >= 2)
    requires Shape(Unlinked(nodes, dp, k))
    ensures Parents(Unlinked(nodes, dp, k))
  {
    hide HasParents, NamedOnce, Counts;
    var ip, r := nodes[dp].entries[k].inum, Unlinked(nodes, dp, k);
    ChildIs(nodes, dp, k);
    forall d, j, i: nat ensures Child(r, d, j, i) <==> Child(nodes, d, j, i) && !(d == dp && j == k) {
      UnlinkChild(nodes, dp, k, d, j, i);
    }
    hide Child;
    ParentsMinus(nodes, r, ip, dp, k);
  }

  /** `unlink` keeps the link counts right. */
  lemma UnlinkKeeps(nodes: Nodes, dp: nat, k: nat)
    requires Linked(nodes) && CanUnlink(nodes, dp, k)
    ensures dp != nodes[dp].entries[k].inum && nodes[nodes[dp].entries[k].inum].nlink >= 1
    ensures nodes[nodes[dp].entries[k].inum].kind == Dir ==> nodes[dp].nlink >= 2
    ensures Linked(Unlinked(nodes, dp, k))
  {
    hide HasParents, NamedOnce, DirShape;
    UnlinkReady(nodes, dp, k);
    UnlinkShape(nodes, dp, k);
    UnlinkParents(nodes, dp, k);
    var r := Unlinked(nodes, dp, k);
    forall i | 0 <= i < |r| ensures r[i].nlink == Count(r, i) {
      CountZero(r);
      if i > 0 { UnlinkCount(nodes, dp, k, i); }
    }
  }

  // ----- freeing -----

  /** Freeing an inode without links changes no count. */
  lemma FreeKeeps(nodes: Nodes, i: nat)
    requires Linked(nodes) && i < |nodes| && nodes[i].nlink == 0
    ensures Linked(nodes[i := Node(Free, 0, [])])
  {
    var r := nodes[i := Node(Free, 0, [])];
    forall j | 0 <= j < |r| ensures r[j].nlink == Count(r, j) { CountUpdate(nodes, i, r[i], j); Counted(nodes, j); }
    hide Count, CountIn, Counts;
    forall j | 0 <= j < |r| && r[j].kind == Dir ensures DirShape(r, j) { assert DirShape(nodes, j); }
    FreeParents(nodes, i);
  }

  lemma FreeParents(nodes: Nodes, i: nat)
    requires Shape(nodes) && Parents(nodes) && i < |nodes| && nodes[i].nlink == 0
    requires Shape(nodes[i := Node(Free, 0, [])])
    ensures Parents(nodes[i := Node(Free, 0, [])])
  {
    var r := nodes[i := Node(Free, 0, [])];
    forall d, k, c: nat ensures Child(r, d, k, c) <==> Child(nodes, d, k, c) {}
    hide Child, DirShape;
    forall c | 0 <= c < |r| && Live(r[c]) && c != ROOTINO ensures exists k :: Child(r, Parent(r[c]), k, c) {
      var k :| Child(nodes, Parent(nodes[c]), k, c);
      assert Child(r, Parent(r[c]), k, c);
    }
  }

  // ----- a new file system -----

  const ROOT := Node(Dir, 1, [Dirent(ROOTINO, "."), Dirent(ROOTINO, "..")])
  const UNUSED := Node(Free, 0, [])

  /** Only the root directory, and `n` unused inodes. */
  function Fresh(n: nat): (nodes: Nodes)
    ensures |nodes| == n + 2 && forall j :: 0 <= j < n + 2 ==> nodes[j] == if j == ROOTINO then ROOT else UNUSED
  {
    if n == 0 then [UNUSED, ROOT] else Fresh(n - 1) + [UNUSED]
  }

  lemma RootCount(i: nat)
    ensures CountIn(ROOT.entries, i) == if i == ROOTINO then 1 else 0
  {
    assert ROOT.entries == [Dirent(ROOTINO, ".")] + [Dirent(ROOTINO, "..")];
    CountInAppend([Dirent(ROOTINO, ".")], Dirent(ROOTINO, ".."), i);
    assert [Dirent(ROOTINO, ".")] == [] + [Dirent(ROOTINO, ".")];
    CountInAppend([], Dirent(ROOTINO, "."), i);
  }

  lemma CountAppend(nodes: Nodes, n: Node, i: nat)
    ensures Count(nodes + [n], i) == Count(nodes, i) + Weight(n, i)
  {
    assert (nodes + [n])[..|nodes|] == nodes;
  }

  lemma {:induction false} FreshCount(n: nat, i: nat)
    ensures Count(Fresh(n), i) == if i == ROOTINO then 1 else 0
  {
    hide CountIn;
    if n == 0 {
      RootCount(i);
      var none: Nodes := [];
      assert none + [UNUSED] == [UNUSED] && [UNUSED] + [ROOT] == Fresh(0);
      CountAppend(none, UNUSED, i);
      CountAppend([UNUSED], ROOT, i);
    } else {
      FreshCount(n - 1, i);
      CountAppend(Fresh(n - 1), UNUSED, i);
    }
  }

  lemma FreshLinked(n: nat)
    ensures Linked(Fresh(n))
  {
    hide Count, Fresh;
    var nodes := Fresh(n);
    forall i | 0 <= i < |nodes| ensures nodes[i].nlink == Count(nodes, i) { FreshCount(n, i); }
    assert DirShape(nodes, ROOTINO);
    forall d, k, c: nat ensures !Child(nodes, d, k, c) {}
  }

  // ----- an unlinked directory that is still in use -----

  /** After `mkdir d`, inode 2, and creating a file `f`, inode 3. */
  function Furnished(n: nat): (nodes: Nodes)
    requires n >= 3
    ensures |nodes| == n + 2
    ensures nodes[2] == Node(Dir, 1, [Dirent(2, "."), Dirent(ROOTINO, "..")])
    ensures nodes[ROOTINO] == Node(Dir, 2, ROOT.entries + [Dirent(2, "d"), Dirent(3, "f")])
    ensures nodes[3].kind == File && nodes[4].kind == Free
  {
    Created(Created(Fresh(n), 2, Dir, ROOTINO, 2, "d"), 3, File, ROOTINO, 3, "f")
  }

  lemma FurnishedLinked(n: nat)
    requires n >= 3
    ensures Linked(Furnished(n))
  {
    hide Linked, Fresh;
    FreshLinked(n);
    CreateKeepsIff(Fresh(n), 2, Dir, ROOTINO, 2, "d");
    CreateKeepsIff(Created(Fresh(n), 2, Dir, ROOTINO, 2, "d"), 3, File, ROOTINO, 3, "f");
  }

  /** And after `unlink d`, while a process sits in it. */
  function Orphaned(n: nat): (nodes: Nodes)
    requires n >= 3
    ensures |nodes| == n + 2 && nodes[3].kind == File && nodes[4].kind == Free
    ensures nodes[2] == Node(Dir, 0, [Dirent(2, "."), Dirent(ROOTINO, "..")])
  {
    Unlinked(Furnished(n), ROOTINO, 2)
  }

  lemma OrphanedLinked(n: nat)
    requires n >= 3
    ensures Linked(Orphaned(n))
  {
    hide Linked, Furnished;
    FurnishedLinked(n);
    UnlinkKeeps(Furnished(n), ROOTINO, 2);
  }

  /** A file created there has a link count that no live directory accounts for. */
  lemma OrphanedCreateBreaks(n: nat)
    requires n >= 3
    ensures Linked(Orphaned(n)) && CanCreate(Orphaned(n), 4, File, 2, 2, "g")
    ensures !Linked(Created(Orphaned(n), 4, File, 2, 2, "g"))
  {
    hide Linked, Orphaned;
    OrphanedLinked(n);
    CreateKeepsIff(Orphaned(n), 4, File, 2, 2, "g");
  }

  /** So has a file that gets another name there. */
  lemma OrphanedLinkBreaks(n: nat)
    requires n >= 3
    ensures Linked(Orphaned(n)) && CanLink(Orphaned(n), 3, 2, 2, "g")
    ensures !Linked(Relinked(Orphaned(n), 3, 2, 2, "g"))
  {
    hide Linked, Orphaned;
    OrphanedLinked(n);
    LinkKeepsIff(Orphaned(n), 3, 2, 2, "g");
  }
}

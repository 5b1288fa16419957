/**
 Who owns which block. `owner` gives, for every allocated data block, the one inode and slot
 that name it; `used` is the bitmap, bit by bit; blocks below `start` are metadata.
 */
module FsOwnership {
  import opened Machine
  import opened FsLayout

  datatype Volume = Volume(start: nat, used: seq<bool>, disk: seq<Bytes>, inodes: seq<Inode>)

  type Owner = map<nat, (nat, nat)>

  ghost predicate WellFormed(v: Volume) {
    && 1 <= v.start <= |v.used| == |v.disk| < WRAP
    && (forall b :: 0 <= b < |v.disk| ==> |v.disk[b]| == BSIZE)
    && (forall i :: 0 <= i < |v.inodes| ==> |v.inodes[i].addrs| == NDIRECT + 1)
  }

  /** Slot `s` of inode `i` exists. */
  predicate IsSlot(v: Volume, i: int, s: int) {
    0 <= i < |v.inodes| && 0 <= s < NSLOT
  }

  /** Every owned block is a data block that its owner names. */
  ghost predicate OwnedAreNamed(v: Volume, owner: Owner) {
    forall b :: b in owner ==>
      && v.start <= b < |v.used|
      && IsSlot(v, owner[b].0, owner[b].1)
      && Ref(v.disk, v.inodes[owner[b].0], owner[b].1) == b
  }

  /** Every block a slot names is owned by that slot: no block has two owners. */
  ghost predicate NamedAreOwned(v: Volume, owner: Owner) {
    forall i, s :: IsSlot(v, i, s) && Ref(v.disk, v.inodes[i], s) != 0 ==>
      Ref(v.disk, v.inodes[i], s) in owner && owner[Ref(v.disk, v.inodes[i], s)] == (i, s)
  }

  /** A bitmap bit is set exactly for metadata and owned blocks. */
  ghost predicate BitmapOk(v: Volume, owner: Owner) {
    forall b :: 0 <= b < |v.used| ==> (v.used[b] <==> b < v.start || b in owner)
  }

  ghost predicate Sound(v: Volume, owner: Owner) {
    WellFormed(v) && OwnedAreNamed(v, owner) && NamedAreOwned(v, owner) && BitmapOk(v, owner)
  }

  /** The indirect block of an inode is owned by its slot 12, so it is nobody's data block. */
  lemma IndirectIsOwned(v: Volume, owner: Owner, i: nat)
    requires Sound(v, owner) && i < |v.inodes| && v.inodes[i].addrs[NDIRECT] != 0
    ensures v.inodes[i].addrs[NDIRECT] in owner && owner[v.inodes[i].addrs[NDIRECT]] == (i, NDIRECT)
    ensures v.start <= v.inodes[i].addrs[NDIRECT] < |v.disk|
  {
    assert IsSlot(v, i, NDIRECT);
    assert Ref(v.disk, v.inodes[i], NDIRECT) == v.inodes[i].addrs[NDIRECT];
  }

  /** A write to a block that is not the inode's indirect block changes none of its slots. */
  lemma RefFrame(disk: seq<Bytes>, disk': seq<Bytes>, ip: Inode, b: nat, s: nat)
    requires b < |disk| == |disk'| && disk' == disk[b := disk'[b]]
    requires |ip.addrs| == NDIRECT + 1 && ip.addrs[NDIRECT] != b
    ensures Ref(disk', ip, s) == Ref(disk, ip, s)
  {
  }

  // ----- allocation -----

  /** The volume after `balloc` has taken block `b`. */
  function Balloced(v: Volume, b: nat): (r: Volume)
    requires b < |v.used| == |v.disk|
    ensures r.start == v.start && |r.used| == |v.used| && |r.disk| == |v.disk| && r.inodes == v.inodes
  {
    v.(used := v.used[b := true], disk := v.disk[b := Zeroes()])
  }

  function SetAddr(v: Volume, i: nat, s: nat, b: nat): (r: Volume)
    requires i < |v.inodes| && s < |v.inodes[i].addrs|
  {
    v.(inodes := v.inodes[i := v.inodes[i].(addrs := v.inodes[i].addrs[s := b])])
  }

  function SetEntry(v: Volume, i: nat, e: nat, b: nat): (r: Volume)
    requires i < |v.inodes| && |v.inodes[i].addrs| == NDIRECT + 1 && e < NINDIRECT && b < WRAP
    requires v.inodes[i].addrs[NDIRECT] < |v.disk| && |v.disk[v.inodes[i].addrs[NDIRECT]]| == BSIZE
    ensures r.start == v.start && r.used == v.used && |r.disk| == |v.disk| && r.inodes == v.inodes
  {
    var ind := v.inodes[i].addrs[NDIRECT];
    v.(disk := v.disk[ind := PutWord(v.disk[ind], e, b)])
  }

  /** `v'` names what `v` names, except that slot `s` of inode `i`, empty before, names `b`. */
  ghost predicate NamesAlso(v: Volume, v': Volume, i: nat, s: nat, b: nat) {
    && |v'.inodes| == |v.inodes| && IsSlot(v, i, s) && Ref(v.disk, v.inodes[i], s) == 0
    && forall j, t :: IsSlot(v, j, t) ==>
         Ref(v'.disk, v'.inodes[j], t) == if j == i && t == s then b else Ref(v.disk, v.inodes[j], t)
  }

  lemma NamingKeepsSound(v: Volume, v': Volume, owner: Owner, i: nat, s: nat, b: nat)
    requires Sound(v, owner) && WellFormed(v') && v'.start == v.start && NamesAlso(v, v', i, s, b)
    requires v.start <= b < |v.used| && !v.used[b] && v'.used == v.used[b := true]
    ensures b !in owner && Sound(v', owner[b := (i, s)])
  {
    var owner' := owner[b := (i, s)];
    assert b !in owner;
    forall c | c in owner' ensures v'.start <= c < |v'.used| && IsSlot(v', owner'[c].0, owner'[c].1)
      && Ref(v'.disk, v'.inodes[owner'[c].0], owner'[c].1) == c
    {
      if c != b { assert IsSlot(v, owner[c].0, owner[c].1); }
    }
  }

  lemma DirectNames(v: Volume, owner: Owner, i: nat, s: nat, b: nat)
    requires Sound(v, owner) && i < |v.inodes| && s <= NDIRECT && v.inodes[i].addrs[s] == 0
    requires v.start <= b < |v.used| && b !in owner
    ensures WellFormed(SetAddr(Balloced(v, b), i, s, b)) && NamesAlso(v, SetAddr(Balloced(v, b), i, s, b), i, s, b)
  {
    var v' := SetAddr(Balloced(v, b), i, s, b);
    forall j, t | IsSlot(v, j, t)
      ensures Ref(v'.disk, v'.inodes[j], t) == if j == i && t == s then b else Ref(v.disk, v.inodes[j], t)
    {
      if v.inodes[j].addrs[NDIRECT] != 0 {
        IndirectIsOwned(v, owner, j);
        RefFrame(v.disk, v'.disk, v.inodes[j], b, t);
      } else if t > NDIRECT {
        WordZero(t - NDIRECT - 1);
      }
    }
  }

  /** Allocating a block into a direct slot, or as the indirect block, keeps the volume sound. */
  lemma AllocDirect(v: Volume, owner: Owner, i: nat, s: nat, b: nat)
    requires Sound(v, owner) && i < |v.inodes| && s <= NDIRECT && v.inodes[i].addrs[s] == 0
    requires v.start <= b < |v.used| && !v.used[b]
    ensures b !in owner && Sound(SetAddr(Balloced(v, b), i, s, b), owner[b := (i, s)])
  {
    assert b !in owner;
    DirectNames(v, owner, i, s, b);
    hide Sound, WellFormed, NamesAlso;
    NamingKeepsSound(v, SetAddr(Balloced(v, b), i, s, b), owner, i, s, b);
  }

  lemma EntryNames(v: Volume, owner: Owner, i: nat, e: nat, b: nat)
    requires Sound(v, owner) && i < |v.inodes| && v.inodes[i].addrs[NDIRECT] != 0 && e < NINDIRECT
    requires v.inodes[i].addrs[NDIRECT] < |v.disk|
    requires Word(v.disk[v.inodes[i].addrs[NDIRECT]], e) == 0
    requires v.start <= b < |v.used| && b !in owner
    ensures |Balloced(v, b).disk[v.inodes[i].addrs[NDIRECT]]| == BSIZE
    ensures var v' := SetEntry(Balloced(v, b), i, e, b); WellFormed(v') && NamesAlso(v, v', i, NDIRECT + 1 + e, b)
  {
    var ind, v1 := v.inodes[i].addrs[NDIRECT], Balloced(v, b);
    IndirectIsOwned(v, owner, i);
    var v' := SetEntry(v1, i, e, b);
    forall j, t | IsSlot(v, j, t)
      ensures Ref(v'.disk, v'.inodes[j], t) == if j == i && t == NDIRECT + 1 + e then b else Ref(v.disk, v.inodes[j], t)
    {
      if v.inodes[j].addrs[NDIRECT] != 0 {
        IndirectIsOwned(v, owner, j);
        RefFrame(v.disk, v1.disk, v.inodes[j], b, t);
        if j != i {
          RefFrame(v1.disk, v'.disk, v.inodes[j], ind, t);
        } else if t > NDIRECT {
          WordPut(v.disk[ind], e, b, t - NDIRECT - 1);
        }
      }
    }
  }

  /** Allocating a block into an entry of the indirect block keeps the volume sound. */
  lemma AllocEntry(v: Volume, owner: Owner, i: nat, e: nat, b: nat)
    requires Sound(v, owner) && i < |v.inodes| && v.inodes[i].addrs[NDIRECT] != 0 && e < NINDIRECT
    requires v.inodes[i].addrs[NDIRECT] < |v.disk|
    requires Word(v.disk[v.inodes[i].addrs[NDIRECT]], e) == 0
    requires v.start <= b < |v.used| && !v.used[b]
    ensures b !in owner && |Balloced(v, b).disk[v.inodes[i].addrs[NDIRECT]]| == BSIZE
    ensures Sound(SetEntry(Balloced(v, b), i, e, b), owner[b := (i, NDIRECT + 1 + e)])
  {
    assert b !in owner;
    EntryNames(v, owner, i, e, b);
    hide Sound, WellFormed, NamesAlso;
    NamingKeepsSound(v, SetEntry(Balloced(v, b), i, e, b), owner, i, NDIRECT + 1 + e, b);
  }

  // ----- data -----

  /** Writing the bytes of a data block changes no slot of any inode. */
  lemma WriteKeepsRefs(v: Volume, owner: Owner, b: nat, data: Bytes, j: nat, t: nat)
    requires Sound(v, owner) && b in owner && owner[b].1 != NDIRECT && j < |v.inodes|
    ensures b < |v.disk| && Ref(v.disk[b := data], v.inodes[j], t) == Ref(v.disk, v.inodes[j], t)
  {
    if v.inodes[j].addrs[NDIRECT] != 0 {
      IndirectIsOwned(v, owner, j);
    }
    RefFrame(v.disk, v.disk[b := data], v.inodes[j], b, t);
  }

  lemma WriteKeepsSound(v: Volume, owner: Owner, b: nat, data: Bytes)
    requires Sound(v, owner) && b in owner && owner[b].1 != NDIRECT && |data| == BSIZE
    ensures b < |v.disk| && Sound(v.(disk := v.disk[b := data]), owner)
  {
    var v' := v.(disk := v.disk[b := data]);
    forall j, t | IsSlot(v, j, t) ensures Ref(v'.disk, v'.inodes[j], t) == Ref(v.disk, v.inodes[j], t) {
      WriteKeepsRefs(v, owner, b, data, j, t);
    }
    forall c | c in owner
      ensures IsSlot(v', owner[c].0, owner[c].1) && Ref(v'.disk, v'.inodes[owner[c].0], owner[c].1) == c
    {
      assert IsSlot(v, owner[c].0, owner[c].1);
    }
  }
}

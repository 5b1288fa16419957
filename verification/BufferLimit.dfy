/**
 bio.c and log.c: when "no buffers" is unreachable. A buffer is busy while somebody refers to it or
 the log has pinned it; the log pins at most so many blocks, and callers refer to at most so many
 others at a time.
 */
module BufferLimit {
  import opened BlockDisk
  import opened BufferState
  import BufferRing
  import opened Bio

  // ----- requests -----

  datatype Entry = Entry(refs: nat, pinned: bool)

  /** The busy buffers, by block. */
  type Busy = map<nat, Entry>

  datatype Event = Get(k: nat) | Drop(k: nat) | Log(k: nat) | Clean(k: nat)

  datatype Outcome = Fine(s: Busy) | NotAllowed | NoBuffers

  function Pinned(s: Busy): (ks: set<nat>) {
    set k | k in s && s[k].pinned
  }

  /** Buffers that somebody refers to and that are not pinned. */
  function InUse(s: Busy): (ks: set<nat>) {
    set k | k in s && !s[k].pinned
  }

  function Put(s: Busy, k: nat, e: Entry): (r: Busy) {
    if e.refs > 0 || e.pinned then s[k := e] else s - {k}
  }

  /** The step keeps to `logged` pinned blocks, and to `held` other buffers in use, the one asked for included. */
  ghost predicate Allowed(s: Busy, e: Event, logged: nat, held: nat) {
    match e
    case Get(k) => k in s || |InUse(s)| < held
    case Drop(k) => k in s && s[k].refs > 0
    case Log(k) => k in s && s[k].refs > 0 && (s[k].pinned || |Pinned(s)| < logged)
    case Clean(k) => k in s && s[k].pinned && (s[k].refs == 0 || |InUse(s)| < held)
  }

  function Step(s: Busy, e: Event): (r: Outcome)
    requires e.Get? || e.k in s
  {
    match e
    case Get(k) =>
      if k in s then Fine(s[k := Entry(s[k].refs + 1, s[k].pinned)])
      else if |s| < NBUF then Fine(s[k := Entry(1, false)])
      else NoBuffers
    case Drop(k) => if s[k].refs > 0 then Fine(Put(s, k, Entry(s[k].refs - 1, s[k].pinned))) else Fine(s)
    case Log(k) => Fine(s[k := Entry(s[k].refs, true)])
    case Clean(k) => Fine(Put(s, k, Entry(s[k].refs, false)))
  }

  ghost function Exec(es: seq<Event>, logged: nat, held: nat): (r: Outcome) {
    if es == [] then Fine(map[])
    else
      var n := |es| - 1;
      match Exec(es[..n], logged, held)
      case Fine(s) => if Allowed(s, es[n], logged, held) then Step(s, es[n]) else NotAllowed
      case stop => stop
  }

  ghost predicate Within(s: Busy, logged: nat, held: nat) {
    |Pinned(s)| <= logged && |InUse(s)| <= held
  }

  lemma Parts(s: Busy)
    ensures |s| == |Pinned(s)| + |InUse(s)|
  {
    assert s.Keys == Pinned(s) + InUse(s);
    assert Pinned(s) !! InUse(s);
  }

  lemma PutParts(s: Busy, k: nat, e: Entry)
    ensures Pinned(Put(s, k, e)) == if e.pinned then Pinned(s) + {k} else Pinned(s) - {k}
    ensures InUse(Put(s, k, e)) == if e.refs > 0 && !e.pinned then InUse(s) + {k} else InUse(s) - {k}
  {
  }

  lemma Sizes(s: set<nat>, k: nat)
    ensures |s + {k}| == |s| + (if k in s then 0 else 1) && |s - {k}| <= |s|
  {
    if k in s {
      assert s + {k} == s;
    } else {
      assert s - {k} == s;
    }
  }

  lemma PutWithin(s: Busy, k: nat, e: Entry, logged: nat, held: nat)
    requires Within(s, logged, held)
    requires e.pinned ==> k in Pinned(s) || |Pinned(s)| < logged
    requires e.refs > 0 && !e.pinned ==> k in InUse(s) || |InUse(s)| < held
    ensures Within(Put(s, k, e), logged, held)
  {
    PutParts(s, k, e);
    hide Put, Pinned, InUse;
    Sizes(Pinned(s), k);
    Sizes(InUse(s), k);
  }

  lemma StepWithin(s: Busy, e: Event, logged: nat, held: nat)
    requires Within(s, logged, held) && Allowed(s, e, logged, held) && Step(s, e).Fine?
    ensures Within(Step(s, e).s, logged, held)
  {
    hide Within;
    var k := e.k;
    match e
    case Get(_) => PutWithin(s, k, if k in s then Entry(s[k].refs + 1, s[k].pinned) else Entry(1, false), logged, held);
    case Drop(_) => PutWithin(s, k, Entry(s[k].refs - 1, s[k].pinned), logged, held);
    case Log(_) => PutWithin(s, k, Entry(s[k].refs, true), logged, held);
    case Clean(_) => PutWithin(s, k, Entry(s[k].refs, false), logged, held);
  }

  lemma {:induction false} RunWithin(es: seq<Event>, logged: nat, held: nat)
    ensures Exec(es, logged, held).Fine? ==> Within(Exec(es, logged, held).s, logged, held)
  {
    if es != [] {
      var n := |es| - 1;
      RunWithin(es[..n], logged, held);
      hide Within, Allowed, Step;
      match Exec(es[..n], logged, held)
      case Fine(s) =>
        if Allowed(s, es[n], logged, held) && Step(s, es[n]).Fine? { StepWithin(s, es[n], logged, held); }
      case _ =>
    } else {
      var none: Busy := map[];
      assert Pinned(none) == {} && InUse(none) == {};
    }
  }

  /** Enough buffers for the pinned ones and those in use. */
  lemma {:induction false} EnoughBuffers(es: seq<Event>, logged: nat, held: nat)
    requires logged + held <= NBUF
    ensures Exec(es, logged, held) != NoBuffers
  {
    if es != [] {
      var n := |es| - 1;
      EnoughBuffers(es[..n], logged, held);
      RunWithin(es[..n], logged, held);
      match Exec(es[..n], logged, held)
      case Fine(s) => Parts(s);
      case _ =>
    }
  }

  // ----- and not one fewer -----

  /** `d` blocks pinned and released, and `h` more in use. */
  function Filled(d: nat, h: nat): (s: Busy)
    decreases d + h
  {
    if h > 0 then Filled(d, h - 1)[d + h - 1 := Entry(1, false)]
    else if d > 0 then Filled(d - 1, 0)[d - 1 := Entry(0, true)]
    else map[]
  }

  lemma {:induction false} FilledIs(d: nat, h: nat)
    ensures forall k :: k in Filled(d, h) <==> 0 <= k < d + h
    ensures forall k :: 0 <= k < d + h ==> Filled(d, h)[k] == if k < d then Entry(0, true) else Entry(1, false)
    decreases d + h
  {
    if h > 0 {
      FilledIs(d, h - 1);
    } else if d > 0 {
      FilledIs(d - 1, 0);
    }
  }

  lemma {:induction false} RangeSize(s: set<nat>, lo: nat, hi: nat)
    requires lo <= hi && forall k :: k in s <==> lo <= k < hi
    ensures |s| == hi - lo
    decreases hi
  {
    if lo == hi {
      assert s == {};
    } else {
      RangeSize(s - {hi - 1}, lo, hi - 1);
    }
  }

  lemma FilledSizes(d: nat, h: nat)
    ensures |Filled(d, h)| == d + h && |Pinned(Filled(d, h))| == d && |InUse(Filled(d, h))| == h
    ensures forall k :: k in Filled(d, h) <==> 0 <= k < d + h
  {
    hide Filled;
    FilledIs(d, h);
    RangeSize(Pinned(Filled(d, h)), 0, d);
    RangeSize(InUse(Filled(d, h)), d, d + h);
    Parts(Filled(d, h));
  }

  lemma AndThen(es: seq<Event>, e: Event, s: Busy, s': Busy, logged: nat, held: nat)
    requires Exec(es, logged, held) == Fine(s) && Allowed(s, e, logged, held) && Step(s, e) == Fine(s')
    ensures Exec(es + [e], logged, held) == Fine(s')
  {
    hide Allowed, Step;
    assert (es + [e])[..|es|] == es;
  }

  /** Get, log and release one more block. */
  lemma PinSteps(s: Busy, d: nat, logged: nat, held: nat)
    requires d !in s && |s| < NBUF && |Pinned(s)| < logged && |InUse(s)| < held
    ensures var s1, s2 := s[d := Entry(1, false)], s[d := Entry(1, true)];
            && Allowed(s, Get(d), logged, held) && Step(s, Get(d)) == Fine(s1)
            && Allowed(s1, Log(d), logged, held) && Step(s1, Log(d)) == Fine(s2)
            && Allowed(s2, Drop(d), logged, held) && Step(s2, Drop(d)) == Fine(s[d := Entry(0, true)])
  {
    var s1, s2 := s[d := Entry(1, false)], s[d := Entry(1, true)];
    assert Pinned(s1) == Pinned(s);
    assert s1[d := Entry(1, true)] == s2 && s2[d := Entry(0, true)] == s[d := Entry(0, true)];
  }

  lemma PinOne(es: seq<Event>, d: nat, logged: nat, held: nat) returns (fs: seq<Event>)
    requires d < NBUF && d < logged && 1 <= held && Exec(es, logged, held) == Fine(Filled(d, 0))
    ensures Exec(fs, logged, held) == Fine(Filled(d + 1, 0))
  {
    FilledSizes(d, 0);
    hide Exec, Allowed, Step, Pinned, InUse;
    var s0 := Filled(d, 0);
    var s1, s2 := s0[d := Entry(1, false)], s0[d := Entry(1, true)];
    PinSteps(s0, d, logged, held);
    AndThen(es, Get(d), s0, s1, logged, held);
    AndThen(es + [Get(d)], Log(d), s1, s2, logged, held);
    AndThen(es + [Get(d)] + [Log(d)], Drop(d), s2, Filled(d + 1, 0), logged, held);
    fs := es + [Get(d)] + [Log(d)] + [Drop(d)];
  }

  lemma {:induction false} Fills(d: nat, h: nat, logged: nat, held: nat) returns (es: seq<Event>)
    requires d + h <= NBUF && d <= logged && h < held
    ensures Exec(es, logged, held) == Fine(Filled(d, h))
    decreases d + h
  {
    if h > 0 {
      es := Fills(d, h - 1, logged, held);
      FilledSizes(d, h - 1);
      AndThen(es, Get(d + h - 1), Filled(d, h - 1), Filled(d, h), logged, held);
      es := es + [Get(d + h - 1)];
    } else if d > 0 {
      es := Fills(d - 1, 0, logged, held);
      es := PinOne(es, d - 1, logged, held);
    } else {
      es := [];
    }
  }

  lemma TooFew(logged: nat, held: nat) returns (es: seq<Event>)
    requires held >= 1 && logged + held > NBUF
    ensures Exec(es, logged, held) == NoBuffers
  {
    var d := if logged < NBUF then logged else NBUF;
    var fs := Fills(d, NBUF - d, logged, held);
    FilledSizes(d, NBUF - d);
    hide Filled, Pinned, InUse;
    var s := Filled(d, NBUF - d);
    assert Allowed(s, Get(NBUF), logged, held) && Step(s, Get(NBUF)) == NoBuffers;
    hide Allowed, Step;
    es := fs + [Get(NBUF)];
    assert es[..|fs|] == fs;
  }

  /**
   The exact bound: with at most `logged` pinned blocks and `held` other buffers in use at a time,
   "no buffers" is unreachable if and only if they fit into the cache together.
   */
  lemma BuffersSufficeIff(logged: nat, held: nat)
    requires held >= 1
    ensures (forall es :: Exec(es, logged, held) != NoBuffers) <==> logged + held <= NBUF
  {
    if logged + held <= NBUF {
      forall es ensures Exec(es, logged, held) != NoBuffers { EnoughBuffers(es, logged, held); }
    } else {
      var es := TooFew(logged, held);
    }
  }

  // ----- what the cache does -----

  ghost predicate BusyAt(bufs: seq<Buf>, c: int, k: nat) {
    0 <= c < |bufs| && !Free(bufs[c]) && bufs[c].blockno == k
  }

  ghost predicate AllListed(bufs: seq<Buf>, s: Busy) {
    forall c :: 0 <= c < |bufs| && !Free(bufs[c]) ==>
      bufs[c].dev == 1 && bufs[c].blockno in s && s[bufs[c].blockno] == Entry(bufs[c].refcnt, bufs[c].dirty)
  }

  ghost predicate AllBacked(bufs: seq<Buf>, s: Busy) {
    forall k :: k in s ==> exists c :: BusyAt(bufs, c, k)
  }

  /** The busy buffers are the entries of `s`. */
  ghost predicate Shows(bufs: seq<Buf>, s: Busy) {
    AllListed(bufs, s) && AllBacked(bufs, s)
  }

  lemma OneBuffer(bufs: seq<Buf>, s: Busy, c: nat, c': nat)
    requires Unique(bufs) && AllListed(bufs, s) && c < |bufs| && c' < |bufs|
    requires !Free(bufs[c]) && !Free(bufs[c']) && bufs[c].blockno == bufs[c'].blockno
    ensures c == c'
  {
  }

  /** The blocks whose buffers are busy, among the first `n` buffers. */
  ghost function BusyUpto(bufs: seq<Buf>, n: nat): (s: set<nat>)
    requires n <= |bufs|
  {
    if n == 0 then {} else BusyUpto(bufs, n - 1) + if Free(bufs[n - 1]) then {} else {bufs[n - 1].blockno}
  }

  lemma {:induction false} BusyIs(bufs: seq<Buf>, n: nat, k: nat)
    requires n <= |bufs|
    ensures k in BusyUpto(bufs, n) <==> exists c :: c < n && BusyAt(bufs, c, k)
  {
    if n > 0 {
      BusyIs(bufs, n - 1, k);
      assert !Free(bufs[n - 1]) ==> BusyAt(bufs, n - 1, bufs[n - 1].blockno);
    }
  }

  lemma NotBefore(bufs: seq<Buf>, s: Busy, n: nat)
    requires Unique(bufs) && AllListed(bufs, s) && n < |bufs| && !Free(bufs[n])
    ensures bufs[n].blockno !in BusyUpto(bufs, n)
  {
    hide Unique, AllListed, BusyUpto;
    BusyIs(bufs, n, bufs[n].blockno);
    forall c | 0 <= c < n && !Free(bufs[c]) ensures bufs[c].blockno != bufs[n].blockno {
      if bufs[c].blockno == bufs[n].blockno { OneBuffer(bufs, s, c, n); }
    }
  }

  lemma {:induction false} BusyCount(bufs: seq<Buf>, s: Busy, n: nat)
    requires Unique(bufs) && AllListed(bufs, s) && n <= |bufs|
    ensures |BusyUpto(bufs, n)| <= n
    ensures |BusyUpto(bufs, n)| == n <==> forall c :: 0 <= c < n ==> !Free(bufs[c])
  {
    hide Unique, AllListed;
    if n > 0 {
      BusyCount(bufs, s, n - 1);
      if !Free(bufs[n - 1]) { NotBefore(bufs, s, n - 1); }
    }
  }

  lemma BusyKeys(bufs: seq<Buf>, s: Busy)
    requires Shows(bufs, s)
    ensures BusyUpto(bufs, |bufs|) == s.Keys
  {
    hide BusyUpto;
    forall k: nat ensures k in BusyUpto(bufs, |bufs|) <==> k in s { BusyIs(bufs, |bufs|, k); }
  }

  /** `bget` finds no buffer exactly if the step does: the block is not busy and NBUF others are. */
  lemma NoBuffersIff(bufs: seq<Buf>, s: Busy, blockno: nat)
    requires |bufs| == NBUF && Unique(bufs) && Shows(bufs, s)
    ensures (forall c :: 0 <= c < NBUF ==> !Names(bufs[c], 1, blockno) && !Free(bufs[c]))
       <==> Step(s, Get(blockno)) == NoBuffers
  {
    hide Unique, BusyUpto;
    BusyCount(bufs, s, NBUF);
    BusyKeys(bufs, s);
    if forall c :: 0 <= c < NBUF ==> !Free(bufs[c]) { AllBusyNames(bufs, s, blockno); }
    hide Shows;
    assert |s| == |s.Keys|;
  }

  lemma AllBusyNames(bufs: seq<Buf>, s: Busy, blockno: nat)
    requires Shows(bufs, s) && forall c :: 0 <= c < |bufs| ==> !Free(bufs[c])
    ensures blockno in s <==> exists c :: 0 <= c < |bufs| && Names(bufs[c], 1, blockno)
  {
    if blockno in s {
      var c :| BusyAt(bufs, c, blockno);
      assert Names(bufs[c], 1, blockno);
    }
  }

  /** A change to one buffer, free or of the same block, is a change to one entry. */
  lemma ShowsChange(bufs: seq<Buf>, s: Busy, b: nat, x: Buf)
    requires b < |bufs| && Unique(bufs) && Unique(bufs[b := x]) && Shows(bufs, s) && x.dev == 1
    requires Free(bufs[b]) || Names(bufs[b], 1, x.blockno)
    ensures Shows(bufs[b := x], Put(s, x.blockno, Entry(x.refcnt, x.dirty)))
  {
    var k, bufs' := x.blockno, bufs[b := x];
    var s' := Put(s, k, Entry(x.refcnt, x.dirty));
    forall c | 0 <= c < |bufs| && c != b && !Free(bufs[c]) ensures bufs[c].blockno != k {
      Elsewhere(bufs, s, b, x, c);
    }
    hide Unique;
    forall j | j in s' ensures exists c :: BusyAt(bufs', c, j) {
      if j == k {
        assert BusyAt(bufs', b, k);
      } else {
        var c :| BusyAt(bufs, c, j);
        assert BusyAt(bufs', c, j);
      }
    }
  }

  /** No other busy buffer holds the block. */
  lemma Elsewhere(bufs: seq<Buf>, s: Busy, b: nat, x: Buf, c: nat)
    requires b < |bufs| && Unique(bufs[b := x]) && Shows(bufs, s) && x.dev == 1
    requires c < |bufs| && c != b && !Free(bufs[c])
    ensures bufs[c].blockno != x.blockno
  {
    var bufs' := bufs[b := x];
    assert bufs'[b] == x && bufs'[c] == bufs[c];
    assert Names(bufs[c], 1, bufs[c].blockno);
  }

  /** What `bget`, `brelse`, `log_write` and `bwrite` make of the buffer. */
  function After(b: Buf, e: Event): (x: Buf)
    requires e.Drop? ==> b.refcnt > 0
  {
    match e
    case Get(k) =>
      if Names(b, 1, k) then b.(refcnt := b.refcnt + 1) else Buf(1, k, false, false, 1, false, b.data)
    case Drop(_) => b.(locked := false, refcnt := b.refcnt - 1)
    case Log(_) => b.(dirty := true)
    case Clean(_) => b.(valid := true, dirty := false)
  }

  /** They choose a buffer of the block, or, to get it, one that is free. */
  ghost predicate Chosen(bufs: seq<Buf>, b: nat, e: Event) {
    && b < |bufs| && (Names(bufs[b], 1, e.k) || (e.Get? && Free(bufs[b])))
    && (!e.Get? ==> !Free(bufs[b])) && (e.Drop? ==> bufs[b].refcnt > 0)
  }

  /** A block that is to be put into a free buffer is not busy, and fewer than NBUF are. */
  lemma FreeMeans(bufs: seq<Buf>, s: Busy, b: nat, x: Buf)
    requires |bufs| == NBUF && b < NBUF && Unique(bufs) && Unique(bufs[b := x]) && Shows(bufs, s)
    requires Free(bufs[b]) && x.dev == 1
    ensures x.blockno !in s && |s| < NBUF
  {
    hide Unique, AllListed, BusyUpto;
    BusyCount(bufs, s, NBUF);
    BusyKeys(bufs, s);
    assert |s| == |s.Keys|;
    if x.blockno in s {
      var c :| BusyAt(bufs, c, x.blockno);
      Elsewhere(bufs, s, b, x, c);
    }
  }

  /** So they take the steps Get, Drop, Log and Clean. */
  lemma CacheSteps(bufs: seq<Buf>, s: Busy, b: nat, e: Event)
    requires |bufs| == NBUF && Unique(bufs) && Shows(bufs, s) && Chosen(bufs, b, e)
    requires Unique(bufs[b := After(bufs[b], e)])
    ensures (e.Get? || e.k in s) && Step(s, e).Fine? && Shows(bufs[b := After(bufs[b], e)], Step(s, e).s)
  {
    hide Unique, AllBacked;
    var x := After(bufs[b], e);
    if Free(bufs[b]) {
      FreeMeans(bufs, s, b, x);
    } else {
      assert e.k in s && s[e.k] == Entry(bufs[b].refcnt, bufs[b].dirty);
    }
    hide Shows;
    ShowsChange(bufs, s, b, x);
    assert Step(s, e) == Fine(Put(s, e.k, Entry(x.refcnt, x.dirty)));
  }

  // ----- the operations are the steps -----

  /** `bget`: the step succeeds exactly if it does. */
  method GetTracked(c: Bcache, blockno: nat, ghost s: Busy) returns (b: nat, ghost r: Outcome)
    requires c.Valid() && Shows(c.buf[..], s)
    modifies c.buf
    ensures c.Valid() && r == Step(s, Get(blockno)) && (b == HEAD <==> r == NoBuffers)
    ensures r.Fine? ==> b < NBUF && Shows(c.buf[..], r.s) && Refs(r.s, blockno) == Refs(s, blockno) + 1
    ensures b == HEAD ==> c.buf[..] == old(c.buf[..])
  {
    hide BufferRing.Linked, ByRelease, ViewKept, Shows;
    ghost var bufs := c.buf[..];
    NoBuffersIff(bufs, s, blockno);
    b := c.Bget(1, blockno);
    r := Step(s, Get(blockno));
    if b != HEAD { CacheSteps(bufs, s, b, Get(blockno)); }
  }

  /** How many references a block's buffer has. */
  function Refs(s: Busy, k: nat): (n: nat) {
    if k in s then s[k].refs else 0
  }

  /** `brelse` of a buffer somebody refers to. */
  method DropTracked(c: Bcache, b: nat, ghost s: Busy) returns (ghost s': Busy)
    requires c.Valid() && Shows(c.buf[..], s) && b < NBUF && c.buf[b].locked
    modifies c`ring, c`stamp, c`clock, c.buf, c.link
    ensures var k := old(c.buf[b]).blockno;
            && k in s && Step(s, Drop(k)) == Fine(s') && Shows(c.buf[..], s')
            && Refs(s, k) == Refs(s', k) + 1 && (k in s' <==> Refs(s', k) > 0 || s[k].pinned)
  {
    hide BufferRing.Linked, ByRelease, ViewKept, Shows, View;
    ghost var bufs, k := c.buf[..], c.buf[b].blockno;
    assert Coherent(c.disk, bufs[b]);
    BusyEntry(bufs, s, b);
    var _ := c.Brelse(b);
    UpdateUnique(bufs, b, After(bufs[b], Drop(k)));
    CacheSteps(bufs, s, b, Drop(k));
    s' := Step(s, Drop(k)).s;
  }

  /** `log_write` pins the buffer. */
  method LogTracked(c: Bcache, b: nat, ghost s: Busy) returns (ghost s': Busy)
    requires c.Valid() && Shows(c.buf[..], s) && b < NBUF && c.buf[b].locked && c.buf[b].valid
    modifies c.buf
    ensures var k := old(c.buf[b]).blockno;
            c.Valid() && k in s && Step(s, Log(k)) == Fine(s') && Shows(c.buf[..], s') && k in Pinned(s')
  {
    hide BufferRing.Linked, ByRelease, ViewKept, Shows;
    ghost var bufs, k := c.buf[..], c.buf[b].blockno;
    assert Coherent(c.disk, bufs[b]);
    BusyEntry(bufs, s, b);
    c.Pin(b);
    CacheSteps(bufs, s, b, Log(k));
    s' := Step(s, Log(k)).s;
  }

  /** `bwrite` of a block of the disk unpins it. */
  method CleanTracked(c: Bcache, b: nat, ghost s: Busy) returns (ghost s': Busy)
    requires c.Valid() && Shows(c.buf[..], s) && b < NBUF && c.buf[b].locked && c.buf[b].blockno < |c.disk|
    modifies c`disk, c.buf
    ensures var k := old(c.buf[b]).blockno;
            c.Valid() && k in s && Step(s, Clean(k)) == Fine(s') && Shows(c.buf[..], s') && k !in Pinned(s')
  {
    hide BufferRing.Linked, ByRelease, ViewKept, ViewSet, Shows;
    ghost var bufs, k := c.buf[..], c.buf[b].blockno;
    assert Coherent(c.disk, bufs[b]);
    BusyEntry(bufs, s, b);
    var _ := c.Bwrite(b);
    CacheSteps(bufs, s, b, Clean(k));
    s' := Step(s, Clean(k)).s;
  }

  lemma BusyEntry(bufs: seq<Buf>, s: Busy, b: nat)
    requires Shows(bufs, s) && b < |bufs| && bufs[b].refcnt > 0
    ensures bufs[b].dev == 1 && bufs[b].blockno in s && s[bufs[b].blockno] == Entry(bufs[b].refcnt, bufs[b].dirty)
  {
  }
}

/**
 log.c and bio.c together: one run of system calls, commits, crashes and requests to the cache. A block
 is pinned exactly while the log lists it and it has not been written home, so how many buffers others
 may use at a time follows from how full the log gets.
 */
module LogBuffers {
  import opened BlockDisk
  import opened Rings
  import opened LogFormat
  import opened LogReservation
  import G = GroupCommit
  import B = BufferLimit
  import Bio

  /** `cache` is a buffer taken or given back by a caller, `log` a step of the log. */
  datatype Act = Cache(e: B.Event) | Log(l: G.Event)

  datatype Joint = Joint(c: G.Config, s: B.Busy)

  datatype Result = Fine(j: Joint) | NotAllowed | NoBuffers | LogPanic

  /** The next disk write of a commit copies a block home. */
  predicate Installing(s: G.State) {
    s.phase.Committing? && |s.lh| < s.phase.k < 2 * |s.lh| + 1
  }

  function Home(s: G.State): (b: nat)
    requires Installing(s)
  {
    s.lh[s.phase.k - |s.lh| - 1]
  }

  /** The blocks whose buffers the next disk write of a commit or recovery goes through. */
  ghost function Uses(g: Geometry, s: G.State): (bs: set<nat>) {
    var n := |s.lh|;
    match s.phase
    case Running => {}
    case Committing(k) =>
      if k < n then {Slot(g, k), s.lh[k]} else if n < k < 2 * n + 1 then {Slot(g, k - n - 1), s.lh[k - n - 1]}
      else if n > 0 && k < 2 * n + 2 then {g.start} else {}
    case Recovering(k) => if k < n then {Slot(g, k), s.lh[k]} else if k == n then {g.start} else {}
  }

  ghost predicate Refers(s: B.Busy, b: nat) {
    b in s && s[b].refs > 0
  }

  /**
   What the code and the bound `held` allow: a caller logs a block it refers to; the log writes through
   buffers it refers to; and no more than `held` buffers outside the log are in use, one asked for or
   just written home included.
   */
  ghost predicate Allowed(g: Geometry, j: Joint, a: Act, held: nat) {
    match a
    case Cache(e) => (e.Get? || e.Drop?) && B.Allowed(j.s, e, 0, held)
    case Log(l) =>
      match l
      case LogWrite(op, b, _) => G.CanLog(g, MAXOPBLOCKS - 1, j.c.s, op, b) ==> Refers(j.s, b)
      case DiskStep =>
        && (forall b :: b in Uses(g, j.c.s) ==> Refers(j.s, b))
        && (Installing(j.c.s) ==> |B.InUse(j.s)| < held)
      case _ => true
  }

  /** What a step of the log does to the buffers. */
  ghost function Buffers(g: Geometry, j: Joint, l: G.Event): (s: B.Busy) {
    match l
    case LogWrite(op, b, _) =>
      if G.CanLog(g, MAXOPBLOCKS - 1, j.c.s, op, b) && b in j.s then B.Put(j.s, b, B.Entry(j.s[b].refs, true)) else j.s
    case DiskStep =>
      if Installing(j.c.s) && Home(j.c.s) in j.s then
        B.Put(j.s, Home(j.c.s), B.Entry(j.s[Home(j.c.s)].refs, false))
      else j.s
    case Crash => map[]
    case _ => j.s
  }

  ghost function Step(g: Geometry, j: Joint, a: Act): (r: Result)
    requires a.Cache? ==> a.e.Get? || a.e.k in j.s
  {
    match a
    case Cache(e) =>
      (match B.Step(j.s, e)
       case Fine(s) => Fine(j.(s := s))
       case _ => NoBuffers)
    case Log(l) =>
      match G.Next(g, MAXOPBLOCKS - 1, j.c, l)
      case Ok(c) => Fine(Joint(c, Buffers(g, j, l)))
      case Panic => LogPanic
  }

  /** The state after the acts, from an empty log and an empty cache. */
  ghost function Exec(g: Geometry, d: Image, held: nat, acts: seq<Act>): (r: Result) {
    if acts == [] then Fine(Joint(G.Boot(d), map[]))
    else
      var n := |acts| - 1;
      match Exec(g, d, held, acts[..n])
      case Fine(j) => if Allowed(g, j, acts[n], held) then Step(g, j, acts[n]) else NotAllowed
      case stop => stop
  }

  // ----- a block is pinned exactly if the log lists it and it is not home yet -----

  ghost function ToSet(bs: seq<nat>): (r: set<nat>) {
    set b | b in bs
  }

  /** The logged blocks that are not home yet. */
  ghost function Away(s: G.State): (bs: set<nat>) {
    match s.phase
    case Running => ToSet(s.lh)
    case Committing(k) =>
      if k <= |s.lh| + 1 then ToSet(s.lh) else if k <= 2 * |s.lh| + 1 then ToSet(s.lh[k - |s.lh| - 1..]) else {}
    case Recovering(_) => {}
  }

  lemma DropFirst(bs: seq<nat>)
    requires Distinct(bs) && |bs| > 0
    ensures ToSet(bs[1..]) == ToSet(bs) - {bs[0]}
  {
    forall b | b in bs && b != bs[0] ensures b in bs[1..] {
      var i :| 0 <= i < |bs| && bs[i] == b;
      assert bs[1..][i - 1] == b;
    }
  }

  lemma {:induction false} SetSize(bs: seq<nat>)
    ensures |ToSet(bs)| <= |bs| && (Distinct(bs) ==> |ToSet(bs)| == |bs|)
  {
    if bs != [] {
      SetSize(bs[1..]);
      assert ToSet(bs) == {bs[0]} + ToSet(bs[1..]);
      if Distinct(bs) { DropFirst(bs); }
    }
  }

  lemma InstallLeaves(s: G.State)
    requires Installing(s) && Distinct(s.lh)
    ensures Away(s.(phase := G.Committing(s.phase.k + 1))) == Away(s) - {Home(s)} && Home(s) in Away(s)
  {
    var i := s.phase.k - |s.lh| - 1;
    var rest := s.lh[i..];
    assert i == 0 ==> rest == s.lh;
    assert s.lh[i + 1..] == rest[1..] && rest[0] == Home(s);
    DropFirst(rest);
  }

  ghost predicate Matches(j: Joint) {
    B.Pinned(j.s) == Away(j.c.s)
  }

  lemma LogWriteMatches(g: Geometry, j: Joint, op: nat, b: nat, data: Block)
    requires G.Inv(g, j.c) && Matches(j) && (G.CanLog(g, MAXOPBLOCKS - 1, j.c.s, op, b) ==> Refers(j.s, b))
    requires Step(g, j, Log(G.LogWrite(op, b, data))).Fine?
    ensures Matches(Step(g, j, Log(G.LogWrite(op, b, data))).j)
  {
    var s := j.c.s;
    if G.CanLog(g, MAXOPBLOCKS - 1, s, op, b) {
      assert s.phase.Running?;
      B.PutParts(j.s, b, B.Entry(j.s[b].refs, true));
      assert ToSet(s.lh + [b]) == ToSet(s.lh) + {b};
      assert b in s.lh ==> ToSet(s.lh) + {b} == ToSet(s.lh);
    }
  }

  lemma DiskStepMatches(g: Geometry, j: Joint)
    requires G.Inv(g, j.c) && Matches(j)
    ensures Step(g, j, Log(G.DiskStep)).Fine? && Matches(Step(g, j, Log(G.DiskStep)).j)
  {
    var s := j.c.s;
    if Installing(s) {
      InstallLeaves(s);
      B.PutParts(j.s, Home(s), B.Entry(j.s[Home(s)].refs, false));
    }
  }

  lemma LogMatches(g: Geometry, j: Joint, l: G.Event, held: nat)
    requires G.Inv(g, j.c) && Matches(j) && Allowed(g, j, Log(l), held) && Step(g, j, Log(l)).Fine?
    ensures Matches(Step(g, j, Log(l)).j)
  {
    match l
    case LogWrite(op, b, data) => LogWriteMatches(g, j, op, b, data);
    case DiskStep => DiskStepMatches(g, j);
    case _ =>
  }

  lemma CacheMatches(g: Geometry, j: Joint, e: B.Event, held: nat)
    requires Matches(j) && Allowed(g, j, Cache(e), held) && Step(g, j, Cache(e)).Fine?
    ensures Matches(Step(g, j, Cache(e)).j)
  {
  }

  /** The other buffers in use stay within the bound. */
  lemma StepWithin(g: Geometry, j: Joint, a: Act, held: nat)
    requires |B.InUse(j.s)| <= held && Allowed(g, j, a, held) && Step(g, j, a).Fine?
    ensures |B.InUse(Step(g, j, a).j.s)| <= held
  {
    var many := |B.Pinned(j.s)| + 1;
    match a
    case Cache(e) => B.StepWithin(j.s, e, many, held);
    case Log(l) =>
      match l
      case LogWrite(op, b, _) =>
        if G.CanLog(g, MAXOPBLOCKS - 1, j.c.s, op, b) && b in j.s {
          B.PutWithin(j.s, b, B.Entry(j.s[b].refs, true), many, held);
        }
      case DiskStep =>
        if Installing(j.c.s) && Home(j.c.s) in j.s {
          B.PutWithin(j.s, Home(j.c.s), B.Entry(j.s[Home(j.c.s)].refs, false), many, held);
        }
      case _ =>
        var none: B.Busy := map[];
        assert B.InUse(none) == {};
  }

  // ----- runs -----

  /** The steps of the log among the acts. */
  function LogOf(acts: seq<Act>): (es: seq<G.Event>) {
    if acts == [] then []
    else
      var n := |acts| - 1;
      match acts[n]
      case Cache(_) => LogOf(acts[..n])
      case Log(l) => LogOf(acts[..n]) + [l]
  }

  /** The log of a run is a run of the log, a block is pinned exactly if it is away, and the bound is kept. */
  ghost predicate Follows(g: Geometry, d: Image, held: nat, acts: seq<Act>, j: Joint) {
    && G.Exec(g, MAXOPBLOCKS - 1, G.Boot(d), LogOf(acts)) == G.Ok(j.c)
    && G.Inv(g, j.c) && Matches(j) && |B.InUse(j.s)| <= held
  }

  lemma FollowsOne(g: Geometry, d: Image, held: nat, acts: seq<Act>, j: Joint, a: Act)
    requires Follows(g, d, held, acts, j) && Allowed(g, j, a, held) && Step(g, j, a).Fine?
    ensures Follows(g, d, held, acts + [a], Step(g, j, a).j)
  {
    StepWithin(g, j, a, held);
    assert (acts + [a])[..|acts|] == acts;
    match a
    case Cache(e) => CacheMatches(g, j, e, held);
    case Log(l) =>
      LogMatches(g, j, l, held);
      G.NextKeeps(g, MAXOPBLOCKS - 1, j.c, l);
      LogReservation.AndThen(g, MAXOPBLOCKS - 1, G.Boot(d), LogOf(acts), l);
  }

  /** In every run a block is pinned exactly if the log lists it and it is not home yet. */
  lemma {:induction false} PinnedIsLogged(g: Geometry, d: Image, held: nat, acts: seq<Act>)
    requires LogEmpty(g, d)
    ensures var r := Exec(g, d, held, acts); r.Fine? ==> Follows(g, d, held, acts, r.j)
  {
    hide Follows, Step;
    if acts == [] {
      StartFollows(g, d, held);
    } else {
      var n := |acts| - 1;
      PinnedIsLogged(g, d, held, acts[..n]);
      assert acts[..n] + [acts[n]] == acts;
      match Exec(g, d, held, acts[..n])
      case Fine(j) =>
        if Allowed(g, j, acts[n], held) && Step(g, j, acts[n]).Fine? { FollowsOne(g, d, held, acts[..n], j, acts[n]); }
      case _ =>
    }
  }

  lemma StartFollows(g: Geometry, d: Image, held: nat)
    requires LogEmpty(g, d)
    ensures Follows(g, d, held, [], Joint(G.Boot(d), map[]))
  {
    G.BootInv(g, d);
    var none: B.Busy := map[];
    assert B.InUse(none) == {} && B.Pinned(none) == {};
  }

  /** So at most 28 blocks are pinned. */
  lemma FewPinned(g: Geometry, d: Image, held: nat, acts: seq<Act>, j: Joint)
    requires LogEmpty(g, d) && Follows(g, d, held, acts, j)
    ensures |B.Pinned(j.s)| <= LOGSIZE - 2
  {
    hide G.Exec, G.Inv, B.Pinned, B.InUse, Away, LogOf;
    LogPeak(g, MAXOPBLOCKS - 1, d, LogOf(acts));
    FewAway(j.c.s);
  }

  lemma FewAway(s: G.State)
    ensures if s.phase.Recovering? then Away(s) == {} else |Away(s)| <= |s.lh|
  {
    SetSize(s.lh);
    match s.phase
    case Committing(k) => if |s.lh| + 1 < k <= 2 * |s.lh| + 1 { SetSize(s.lh[k - |s.lh| - 1..]); }
    case _ =>
  }

  lemma {:induction false} TwoSuffice(g: Geometry, d: Image, held: nat, acts: seq<Act>)
    requires LogEmpty(g, d) && g.size >= LOGSIZE && held <= 2
    ensures Exec(g, d, held, acts) != NoBuffers
  {
    if acts != [] {
      var n := |acts| - 1;
      TwoSuffice(g, d, held, acts[..n]);
      PinnedIsLogged(g, d, held, acts[..n]);
      match Exec(g, d, held, acts[..n])
      case Fine(j) =>
        FewPinned(g, d, held, acts[..n], j);
        B.Parts(j.s);
      case _ =>
    }
  }

  // ----- a third is too much -----

  lemma AndThen(g: Geometry, d: Image, held: nat, acts: seq<Act>, j: Joint, a: Act)
    requires Exec(g, d, held, acts) == Fine(j) && Allowed(g, j, a, held)
    ensures Exec(g, d, held, acts + [a]) == Step(g, j, a)
  {
    hide Step;
    assert (acts + [a])[..|acts|] == acts;
  }

  /** Nobody refers to a buffer. */
  ghost predicate Quiet(j: Joint) {
    forall b :: b in j.s ==> j.s[b] == B.Entry(0, true)
  }

  lemma QuietCount(j: Joint)
    requires Quiet(j)
    ensures B.InUse(j.s) == {} && |j.s| == |B.Pinned(j.s)|
  {
    B.Parts(j.s);
  }

  lemma GetStep(g: Geometry, j: Joint, b: nat, held: nat)
    requires Quiet(j) && held >= 1 && |j.s| < Bio.NBUF
    ensures Allowed(g, j, Cache(B.Get(b)), held)
    ensures Step(g, j, Cache(B.Get(b))) == Fine(j.(s := j.s[b := B.Entry(1, b in j.s)]))
  {
    QuietCount(j);
  }

  lemma WriteStep(g: Geometry, j: Joint, s: B.Busy, l: G.Event, pinned: bool, held: nat)
    requires l.LogWrite? && j.s == s[l.b := B.Entry(1, pinned)]
    requires G.CanLog(g, MAXOPBLOCKS - 1, j.c.s, l.op, l.b) && G.Next(g, MAXOPBLOCKS - 1, j.c, l).Ok?
    ensures Allowed(g, j, Log(l), held)
    ensures Step(g, j, Log(l)) == Fine(Joint(G.Next(g, MAXOPBLOCKS - 1, j.c, l).value, s[l.b := B.Entry(1, true)]))
  {
    hide G.Next, G.CanLog;
    assert j.s[l.b := B.Entry(1, true)] == s[l.b := B.Entry(1, true)];
  }

  lemma DropStep(g: Geometry, c: G.Config, s: B.Busy, b: nat, held: nat)
    ensures var j := Joint(c, s[b := B.Entry(1, true)]);
            && Allowed(g, j, Cache(B.Drop(b)), held)
            && Step(g, j, Cache(B.Drop(b))) == Fine(Joint(c, s[b := B.Entry(0, true)]))
  {
    assert s[b := B.Entry(1, true)][b := B.Entry(0, true)] == s[b := B.Entry(0, true)];
  }

  /** A caller gets a block, logs it and gives it back. */
  lemma ReplayWrite(g: Geometry, d: Image, held: nat, acts: seq<Act>, j: Joint, l: G.Event) returns (acts': seq<Act>)
    requires LogEmpty(g, d) && held >= 1 && Exec(g, d, held, acts) == Fine(j) && Quiet(j)
    requires l.LogWrite? && G.CanLog(g, MAXOPBLOCKS - 1, j.c.s, l.op, l.b) && G.Next(g, MAXOPBLOCKS - 1, j.c, l).Ok?
    ensures var r := Exec(g, d, held, acts');
            r.Fine? && Quiet(r.j) && r.j.c == G.Next(g, MAXOPBLOCKS - 1, j.c, l).value
  {
    hide Follows, Exec, G.Next, B.InUse, B.Pinned, G.CanLog, LogEmpty, Allowed, Step, B.Step;
    PinnedIsLogged(g, d, held, acts);
    FewPinned(g, d, held, acts, j);
    QuietCount(j);
    var b, c := l.b, G.Next(g, MAXOPBLOCKS - 1, j.c, l).value;
    var j1 := j.(s := j.s[b := B.Entry(1, b in j.s)]);
    GetStep(g, j, b, held);
    WriteStep(g, j1, j.s, l, b in j.s, held);
    DropStep(g, c, j.s, b, held);
    acts' := acts + [Cache(B.Get(b))];
    AndThen(g, d, held, acts, j, Cache(B.Get(b)));
    AndThen(g, d, held, acts', j1, Log(l));
    AndThen(g, d, held, acts' + [Log(l)], Joint(c, j.s[b := B.Entry(1, true)]), Cache(B.Drop(b)));
    acts' := acts' + [Log(l)] + [Cache(B.Drop(b))];
  }

  /** Any run of calls can be had with one buffer at a time. */
  lemma {:induction false} Replay(g: Geometry, d: Image, held: nat, es: seq<G.Event>) returns (acts: seq<Act>)
    requires LogEmpty(g, d) && g.size >= LOGSIZE && held >= 1 && Calls(es)
    ensures G.Exec(g, MAXOPBLOCKS - 1, G.Boot(d), es).Ok?
    ensures var r := Exec(g, d, held, acts);
            r.Fine? && Quiet(r.j) && r.j.c == G.Exec(g, MAXOPBLOCKS - 1, G.Boot(d), es).value
  {
    if es == [] {
      acts := [];
    } else {
      var n := |es| - 1;
      var l := es[n];
      acts := Replay(g, d, held, es[..n]);
      NoPanic(g, MAXOPBLOCKS - 1, d, es);
      var j := Exec(g, d, held, acts).j;
      if l.LogWrite? && G.CanLog(g, MAXOPBLOCKS - 1, j.c.s, l.op, l.b) {
        acts := ReplayWrite(g, d, held, acts, j, l);
      } else {
        hide Exec, G.Next;
        AndThen(g, d, held, acts, j, Log(l));
        acts := acts + [Log(l)];
      }
    }
  }

  /** Blocks of the log itself are not logged, so they can fill the rest of the cache. */
  lemma ThreeTooMany(g: Geometry, d: Image, held: nat) returns (acts: seq<Act>)
    requires LogEmpty(g, d) && g.size == LOGSIZE && |d| >= g.start + g.size + LOGSIZE && held >= 3
    ensures Exec(g, d, held, acts) == NoBuffers
  {
    hide Exec, LogEmpty, Quiet, Allowed, Step;
    var es := PeakReached(g, d);
    acts := Replay(g, d, held, es);
    var j, a := Exec(g, d, held, acts).j, g.start;
    PeakQuiet(g, d, held, acts, j);
    var s1 := j.s[a := B.Entry(1, false)];
    var s2 := s1[a + 1 := B.Entry(1, false)];
    AskFor(g, j, j.s, a, held, 0);
    AskFor(g, j, s1, a + 1, held, 1);
    AskFor(g, j, s2, a + 2, held, 2);
    assert j.(s := j.s) == j;
    AndThen(g, d, held, acts, j, Cache(B.Get(a)));
    acts := acts + [Cache(B.Get(a))];
    AndThen(g, d, held, acts, j.(s := s1), Cache(B.Get(a + 1)));
    acts := acts + [Cache(B.Get(a + 1))];
    AndThen(g, d, held, acts, j.(s := s2), Cache(B.Get(a + 2)));
    acts := acts + [Cache(B.Get(a + 2))];
  }

  /** Asking for a block that is not busy, with `n` others outside the log in use. */
  lemma AskFor(g: Geometry, j: Joint, s: B.Busy, b: nat, held: nat, n: nat)
    requires b !in s && |B.InUse(s)| == n < held
    ensures var j' := j.(s := s);
            && Allowed(g, j', Cache(B.Get(b)), held)
            && Step(g, j', Cache(B.Get(b))) ==
               if |s| < Bio.NBUF then Fine(j.(s := s[b := B.Entry(1, false)])) else NoBuffers
    ensures var s' := s[b := B.Entry(1, false)]; |s'| == |s| + 1 && |B.InUse(s')| == n + 1
  {
    assert B.InUse(s[b := B.Entry(1, false)]) == B.InUse(s) + {b};
    hide B.InUse;
  }

  lemma PeakQuiet(g: Geometry, d: Image, held: nat, acts: seq<Act>, j: Joint)
    requires LogEmpty(g, d) && Exec(g, d, held, acts) == Fine(j) && Quiet(j)
    requires j.c.s.phase.Running? && |j.c.s.lh| == LOGSIZE - 2
    ensures |j.s| == LOGSIZE - 2 && B.InUse(j.s) == {} && forall b :: InLog(g, b) ==> b !in j.s
  {
    PinnedIsLogged(g, d, held, acts);
    QuietCount(j);
    SetSize(j.c.s.lh);
    forall b | InLog(g, b) ensures b !in j.s {
      assert b !in ToSet(j.c.s.lh);
      assert b in j.s ==> b in B.Pinned(j.s);
    }
  }

  /**
   While no call adds more than 9 blocks to the log, "no buffers" is unreachable if and only if at
   most 2 buffers that are not in the log are in use at a time, the one asked for included.
   */
  lemma TwoToSpare(g: Geometry, d: Image, held: nat)
    requires LogEmpty(g, d) && g.size == LOGSIZE && |d| >= g.start + g.size + LOGSIZE
    ensures (forall acts :: Exec(g, d, held, acts) != NoBuffers) <==> held <= 2
  {
    if held <= 2 {
      forall acts ensures Exec(g, d, held, acts) != NoBuffers { TwoSuffice(g, d, held, acts); }
    } else {
      var acts := ThreeTooMany(g, d, held);
    }
  }
}

/**
 log.c under concurrency: system calls begin, log blocks and end in any interleaving, the
 commit they trigger is one disk write per step, and a crash can come between any two steps,
 including those of recovery. Every sequence of events is a run: an event that cannot happen
 in a state (a call that would sleep, a step of an idle commit) leaves the state alone.
 */
module GroupCommit {
  import opened BlockDisk
  import opened LogFormat
  import opened Rings

  datatype Phase = Running | Committing(k: nat) | Recovering(k: nat)

  /** `ops` maps each open system call to the number of blocks it has added to the log. */
  datatype State = State(disk: Image, pinned: map<nat, Block>, lh: seq<nat>, ops: map<nat, nat>, phase: Phase)

  datatype Event =
    | Begin(op: nat)
    | LogWrite(op: nat, b: nat, data: Block)
    | End(op: nat)
    | DiskStep
    | Crash

  datatype Outcome<T> = Ok(value: T) | Panic

  // ----- the kernel's transition function -----

  function Load(d: Image, a: nat): Block {
    if a < |d| then d[a] else Block([])
  }

  function Store(d: Image, a: nat, b: Block): Image {
    if a < |d| then d[a := b] else d
  }

  function ReadHeader(b: Block): seq<nat> {
    if |b.words| == WORDS && b.words[0] <= LOGSIZE then GetHeader(b) else []
  }

  function WriteHeader(b: Block, lh: seq<nat>): Block {
    if |b.words| == WORDS && |lh| <= LOGSIZE then PutHeader(b, lh) else b
  }

  /** Disk write number `k` of `commit`, computed from the current disk and cache. */
  function CommitStep(g: Geometry, s: State, k: nat): Image {
    var n := |s.lh|;
    if k < n then
      Store(s.disk, Slot(g, k), if s.lh[k] in s.pinned then s.pinned[s.lh[k]] else Load(s.disk, s.lh[k]))
    else if k == n then Store(s.disk, g.start, WriteHeader(Load(s.disk, g.start), s.lh))
    else if k < 2 * n + 1 then Store(s.disk, s.lh[k - n - 1], Load(s.disk, Slot(g, k - n - 1)))
    else Store(s.disk, g.start, WriteHeader(Load(s.disk, g.start), []))
  }

  /** Disk write number `k` of `recover_from_log`. */
  function RecoveryStep(g: Geometry, s: State, k: nat): Image {
    if k < |s.lh| then Store(s.disk, s.lh[k], Load(s.disk, Slot(g, k)))
    else Store(s.disk, g.start, WriteHeader(Load(s.disk, g.start), []))
  }

  /** The open call `op`, allowed to add at most `m` blocks, can call `log_write` on home block `b`. */
  predicate CanLog(g: Geometry, m: nat, s: State, op: nat, b: nat) {
    op in s.ops && b < |s.disk| && !InLog(g, b) && (b in s.lh || s.ops[op] < m)
  }

  predicate TooBig(g: Geometry, s: State) {
    |s.lh| >= LOGSIZE || |s.lh| >= g.size - 1
  }

  function Step(g: Geometry, m: nat, s: State, e: Event): (r: Outcome<State>) {
    match e
    case Begin(op) =>
      if !s.phase.Running? || op in s.ops || |s.lh| + (|s.ops| + 1) * MAXOPBLOCKS > LOGSIZE then Ok(s)
      else Ok(s.(ops := s.ops[op := 0]))
    case LogWrite(op, b, data) =>
      if !CanLog(g, m, s, op, b) then Ok(s)
      else if TooBig(g, s) then Panic
      else if b in s.lh then Ok(s.(pinned := s.pinned[b := data]))
      else Ok(s.(pinned := s.pinned[b := data], lh := s.lh + [b], ops := s.ops[op := s.ops[op] + 1]))
    case End(op) =>
      if op !in s.ops then Ok(s)
      else if s.phase.Committing? then Panic
      else if s.ops - {op} == map[] then Ok(s.(ops := map[], phase := Committing(0)))
      else Ok(s.(ops := s.ops - {op}))
    case DiskStep =>
      (match s.phase
       case Running => Ok(s)
       case Committing(k) =>
         if s.lh != [] && k < 2 * |s.lh| + 2 then Ok(s.(disk := CommitStep(g, s, k), phase := Committing(k + 1)))
         else Ok(s.(lh := [], pinned := map[], phase := Running))
       case Recovering(k) =>
         if k < |s.lh| + 1 then Ok(s.(disk := RecoveryStep(g, s, k), phase := Recovering(k + 1)))
         else Ok(s.(lh := [], phase := Running)))
    case Crash =>
      Ok(State(s.disk, map[], ReadHeader(Load(s.disk, g.start)), map[], Recovering(0)))
  }

  // ----- what the file system means: never read by `Step` -----

  /**
   `view` is the file system as running calls see it. `closed` lists it at every moment at
   which no call was open, that is, after each whole group of calls. `base` is the disk on
   which the current commit or recovery started.
   */
  datatype History = History(view: Image, closed: seq<Image>, base: Image)

  /** Index in `closed` of the group whose effects survive a crash now. */
  function Durable(s: State, h: History): int {
    if s.phase.Committing? && s.lh != [] && s.phase.k <= |s.lh| then |h.closed| - 2 else |h.closed| - 1
  }

  function Track(g: Geometry, m: nat, s: State, h: History, e: Event): History {
    match e
    case Begin(_) => h
    case DiskStep => h
    case LogWrite(op, b, data) =>
      if CanLog(g, m, s, op, b) then h.(view := Store(h.view, b, data)) else h
    case End(op) =>
      if op in s.ops && s.ops - {op} == map[] then h.(closed := h.closed + [h.view], base := s.disk) else h
    case Crash =>
      var i := Durable(s, h);
      if 0 <= i < |h.closed| then History(h.closed[i], h.closed[..i + 1], s.disk) else h
  }

  datatype Config = Config(s: State, h: History)

  function Boot(d: Image): Config {
    Config(State(d, map[], [], map[], Running), History(d, [d], d))
  }

  /** The configuration after the events of `es`, or the panic one of them caused. */
  function Exec(g: Geometry, m: nat, c: Config, es: seq<Event>): (r: Outcome<Config>) {
    if es == [] then Ok(c)
    else
      match Exec(g, m, c, es[..|es| - 1])
      case Panic => Panic
      case Ok(c') => Next(g, m, c', es[|es| - 1])
  }

  function Next(g: Geometry, m: nat, c: Config, e: Event): (r: Outcome<Config>) {
    match Step(g, m, c.s, e)
    case Panic => Panic
    case Ok(s) => Ok(Config(s, Track(g, m, c.s, c.h, e)))
  }

  // ----- the invariant -----

  ghost predicate Shape(g: Geometry, s: State, h: History) {
    && GeometryOk(g, |s.disk|)
    && |h.closed| >= 1
    && |h.view| == |s.disk|
    && (forall i :: 0 <= i < |h.closed| ==> |h.closed[i]| == |s.disk|)
    && (s.ops != map[] ==> s.phase.Running?)
  }

  ghost predicate RunningInv(g: Geometry, s: State, h: History) {
    && LogEmpty(g, s.disk)
    && Loggable(g, |s.disk|, s.lh) && AllPinned(s.lh, s.pinned)
    && |h.closed| >= 1
    && SameHome(g, s.disk, h.closed[|h.closed| - 1])
    && SameHome(g, h.view, Installed(s.disk, s.lh, s.pinned))
    && (s.ops == map[] ==> s.lh == [])
  }

  ghost predicate CommittingInv(g: Geometry, s: State, h: History, k: nat) {
    && Committable(g, h.base, s.lh, s.pinned)
    && k <= |CommitWrites(g, h.base, s.lh, s.pinned)|
    && s.disk == Apply(h.base, CommitWrites(g, h.base, s.lh, s.pinned)[..k])
    && |h.closed| >= 2
    && SameHome(g, h.base, h.closed[|h.closed| - 2])
    && SameHome(g, Installed(h.base, s.lh, s.pinned), h.closed[|h.closed| - 1])
    && SameHome(g, h.view, h.closed[|h.closed| - 1])
  }

  ghost predicate RecoveringInv(g: Geometry, s: State, h: History, k: nat) {
    && HeaderOk(g, h.base) && s.lh == Head(g, h.base)
    && k <= |RecoveryWrites(g, h.base)|
    && s.disk == Apply(h.base, RecoveryWrites(g, h.base)[..k])
    && |h.closed| >= 1
    && SameHome(g, Recover(g, h.base), h.closed[|h.closed| - 1])
    && SameHome(g, h.view, h.closed[|h.closed| - 1])
    && s.pinned == map[]
  }

  ghost predicate Inv(g: Geometry, c: Config) {
    && Shape(g, c.s, c.h)
    && match c.s.phase
       case Running => RunningInv(g, c.s, c.h)
       case Committing(k) => CommittingInv(g, c.s, c.h, k)
       case Recovering(k) => RecoveringInv(g, c.s, c.h, k)
  }

  /** What a crash right now would leave, once recovered: a whole prefix of the closed groups. */
  ghost predicate CrashSafe(g: Geometry, c: Config) {
    && HeaderOk(g, c.s.disk)
    && 0 <= Durable(c.s, c.h) < |c.h.closed|
    && SameHome(g, Recover(g, c.s.disk), c.h.closed[Durable(c.s, c.h)])
  }

  lemma InvIsCrashSafe(g: Geometry, c: Config)
    requires Inv(g, c)
    ensures CrashSafe(g, c)
  {
    var s, h := c.s, c.h;
    match s.phase
    case Running =>
      RecoverEmpty(g, s.disk);
      SameHomeTransitive(g, Recover(g, s.disk), s.disk, h.closed[|h.closed| - 1]);
    case Committing(k) =>
      CommitCrash(g, h.base, s.lh, s.pinned, k);
      CommittingIsCrashSafe(g, c, k);
    case Recovering(k) =>
      RecoveryCrash(g, h.base, k);
      SameHomeTransitive(g, Recover(g, s.disk), Recover(g, h.base), h.closed[|h.closed| - 1]);
  }

  lemma CommittingIsCrashSafe(g: Geometry, c: Config, k: nat)
    requires Shape(g, c.s, c.h) && c.s.phase == Committing(k) && CommittingInv(g, c.s, c.h, k)
    requires HeaderOk(g, c.s.disk)
    requires SameHome(g, Recover(g, c.s.disk),
                      if k <= |c.s.lh| then c.h.base else Installed(c.h.base, c.s.lh, c.s.pinned))
    ensures CrashSafe(g, c)
  {
    hide CommitWrites, Recover, Apply, HeaderOk;
    var s, h := c.s, c.h;
    var old_, new_ := h.closed[|h.closed| - 2], h.closed[|h.closed| - 1];
    if s.lh == [] {
      assert SameHome(g, h.base, Installed(h.base, s.lh, s.pinned));
      SameHomeTransitive(g, Recover(g, s.disk), h.base, Installed(h.base, s.lh, s.pinned));
      SameHomeTransitive(g, Recover(g, s.disk), Installed(h.base, s.lh, s.pinned), new_);
    } else if k <= |s.lh| {
      SameHomeTransitive(g, Recover(g, s.disk), h.base, old_);
    } else {
      SameHomeTransitive(g, Recover(g, s.disk), Installed(h.base, s.lh, s.pinned), new_);
    }
  }

  // ----- every step keeps the invariant -----

  lemma LogWriteKeeps(g: Geometry, m: nat, c: Config, op: nat, b: nat, data: Block)
    requires Inv(g, c)
    ensures Next(g, m, c, LogWrite(op, b, data)).Ok? ==> Inv(g, Next(g, m, c, LogWrite(op, b, data)).value)
  {
    var s, h := c.s, c.h;
    if CanLog(g, m, s, op, b) && !TooBig(g, s) {
      var c' := Next(g, m, c, LogWrite(op, b, data)).value;
      assert c'.s.phase.Running?;
      forall a | 0 <= a < |s.disk| && !InLog(g, a)
        ensures c'.h.view[a] == Installed(s.disk, c'.s.lh, c'.s.pinned)[a]
      {
        assert h.view[a] == Installed(s.disk, s.lh, s.pinned)[a];
      }
    }
  }

  lemma EndKeeps(g: Geometry, m: nat, c: Config, op: nat)
    requires Inv(g, c)
    ensures Next(g, m, c, End(op)).Ok? && Inv(g, Next(g, m, c, End(op)).value)
  {
    var s, h := c.s, c.h;
    if op in s.ops && s.ops - {op} == map[] {
      var c' := Next(g, m, c, End(op)).value;
      SameHomeSymmetric(g, h.view, Installed(s.disk, s.lh, s.pinned));
      assert c'.h.closed[|c'.h.closed| - 2] == h.closed[|h.closed| - 1];
      assert CommitWrites(g, s.disk, s.lh, s.pinned)[..0] == [];
    }
  }

  /** The write computed from the current disk and cache is the next write of the planned commit. */
  lemma CommitStepIsPlanned(g: Geometry, s: State, base: Image, k: nat)
    requires Committable(g, base, s.lh, s.pinned) && k < |CommitWrites(g, base, s.lh, s.pinned)|
    requires s.disk == Apply(base, CommitWrites(g, base, s.lh, s.pinned)[..k])
    ensures CommitStep(g, s, k) == Apply(base, CommitWrites(g, base, s.lh, s.pinned)[..k + 1])
  {
    var ws, n := CommitWrites(g, base, s.lh, s.pinned), |s.lh|;
    ApplyNext(base, ws, k);
    assert ws[k] == CommitWrite(g, base, s.lh, s.pinned, k);
    hide CommitWrites, Apply;
    if k < n {
      assert s.lh[k] in s.lh;
    } else if k == n {
      HeaderUntouched(g, base, s.lh, s.pinned);
    } else if k < 2 * n + 1 {
      SlotWritten(g, base, s.lh, s.pinned, k, k - n - 1);
    } else {
      HeaderWritten(g, base, s.lh, s.pinned, k);
    }
  }

  lemma RecoveryStepIsPlanned(g: Geometry, s: State, base: Image, k: nat)
    requires HeaderOk(g, base) && s.lh == Head(g, base) && k < |RecoveryWrites(g, base)|
    requires s.disk == Apply(base, RecoveryWrites(g, base)[..k])
    ensures RecoveryStep(g, s, k) == Apply(base, RecoveryWrites(g, base)[..k + 1])
  {
    var ws := RecoveryWrites(g, base);
    ApplyNext(base, ws, k);
    if k < |s.lh| {
      ApplyUntouched(base, ws[..k], Slot(g, k));
    } else {
      ApplyUntouched(base, ws[..k], g.start);
    }
  }

  lemma CommitKeeps(g: Geometry, m: nat, c: Config)
    requires Inv(g, c) && c.s.phase.Committing? && c.s.lh != [] && c.s.phase.k < 2 * |c.s.lh| + 2
    ensures Next(g, m, c, DiskStep).Ok? && Inv(g, Next(g, m, c, DiskStep).value)
  {
    hide Next, CommitStep, Installed, SameHome, Committable, Apply, CommitWrites;
    var s, k := c.s, c.s.phase.k;
    CommitNext(g, m, c);
    CommitStepIsPlanned(g, s, c.h.base, k);
  }

  lemma CommitNext(g: Geometry, m: nat, c: Config)
    requires Inv(g, c) && c.s.phase.Committing? && c.s.lh != [] && c.s.phase.k < 2 * |c.s.lh| + 2
    ensures var k := c.s.phase.k;
            Next(g, m, c, DiskStep) == Ok(Config(c.s.(disk := CommitStep(g, c.s, k), phase := Committing(k + 1)), c.h))
  {
    hide CommitStep, Installed, SameHome, Committable, Apply, CommitWrites, Shape;
  }

  lemma CommitFinishKeeps(g: Geometry, m: nat, c: Config)
    requires Inv(g, c) && c.s.phase.Committing? && !(c.s.lh != [] && c.s.phase.k < 2 * |c.s.lh| + 2)
    ensures Next(g, m, c, DiskStep).Ok? && Inv(g, Next(g, m, c, DiskStep).value)
  {
    var s, h, k := c.s, c.h, c.s.phase.k;
    assert CommitWrites(g, h.base, s.lh, s.pinned)[..k] == CommitWrites(g, h.base, s.lh, s.pinned);
    CommitDone(g, h.base, s.lh, s.pinned);
    hide CommitWrites, Apply, HeaderOk, Committable;
    SameHomeTransitive(g, s.disk, Installed(h.base, s.lh, s.pinned), h.closed[|h.closed| - 1]);
    IdleAgain(g, c);
  }

  lemma RecoveryKeeps(g: Geometry, m: nat, c: Config)
    requires Inv(g, c) && c.s.phase.Recovering? && c.s.phase.k < |c.s.lh| + 1
    ensures Next(g, m, c, DiskStep).Ok? && Inv(g, Next(g, m, c, DiskStep).value)
  {
    var s, k := c.s, c.s.phase.k;
    var s' := s.(disk := RecoveryStep(g, s, k), phase := Recovering(k + 1));
    assert Next(g, m, c, DiskStep) == Ok(Config(s', c.h));
    hide Next, RecoveryStep, Recover, SameHome, HeaderOk, Apply, RecoveryWrites;
    RecoveryStepIsPlanned(g, s, c.h.base, k);
  }

  lemma RecoveryFinishKeeps(g: Geometry, m: nat, c: Config)
    requires Inv(g, c) && c.s.phase.Recovering? && c.s.phase.k >= |c.s.lh| + 1
    ensures Next(g, m, c, DiskStep).Ok? && Inv(g, Next(g, m, c, DiskStep).value)
  {
    var s, h := c.s, c.h;
    assert RecoveryWrites(g, h.base)[..s.phase.k] == RecoveryWrites(g, h.base);
    RecoverInLog(g, h.base);
    hide Apply, HeaderOk, RecoveryWrites;
    IdleAgain(g, c);
  }

  /** With an empty log whose home blocks are the last closed group, the kernel can run calls again. */
  lemma IdleAgain(g: Geometry, c: Config)
    requires Shape(g, c.s, c.h) && LogEmpty(g, c.s.disk)
    requires SameHome(g, c.s.disk, c.h.closed[|c.h.closed| - 1])
    requires SameHome(g, c.h.view, c.h.closed[|c.h.closed| - 1])
    ensures RunningInv(g, c.s.(lh := [], pinned := map[], phase := Running), c.h) || c.s.ops != map[]
  {
    var last := c.h.closed[|c.h.closed| - 1];
    SameHomeSymmetric(g, c.s.disk, last);
    SameHomeTransitive(g, c.h.view, last, c.s.disk);
    assert Installed(c.s.disk, [], map[]) == c.s.disk;
  }

  lemma CrashKeeps(g: Geometry, m: nat, c: Config)
    requires Inv(g, c)
    ensures Next(g, m, c, Crash).Ok? && Inv(g, Next(g, m, c, Crash).value)
  {
    hide RunningInv, CommittingInv, Recover, Loggable, RecoveryWrites;
    InvIsCrashSafe(g, c);
    var i, d := Durable(c.s, c.h), c.s.disk;
    assert RecoveryWrites(g, d)[..0] == [];
    assert ReadHeader(Load(d, g.start)) == Head(g, d);
    assert c.h.closed[..i + 1][i] == c.h.closed[i];
  }

  lemma NextKeeps(g: Geometry, m: nat, c: Config, e: Event)
    requires Inv(g, c)
    ensures Next(g, m, c, e).Ok? ==> Inv(g, Next(g, m, c, e).value)
    ensures Next(g, m, c, e).Panic? ==> e.LogWrite? && CanLog(g, m, c.s, e.op, e.b) && TooBig(g, c.s)
  {
    match e
    case Begin(op) =>
    case LogWrite(op, b, data) => LogWriteKeeps(g, m, c, op, b, data);
    case End(op) => EndKeeps(g, m, c, op);
    case Crash => CrashKeeps(g, m, c);
    case DiskStep =>
      match c.s.phase
      case Running =>
      case Committing(k) =>
        if c.s.lh != [] && k < 2 * |c.s.lh| + 2 { CommitKeeps(g, m, c); } else { CommitFinishKeeps(g, m, c); }
      case Recovering(k) =>
        if k < |c.s.lh| + 1 { RecoveryKeeps(g, m, c); } else { RecoveryFinishKeeps(g, m, c); }
  }

  // ----- safety over whole runs -----

  lemma {:induction false} RunKeeps(g: Geometry, m: nat, c: Config, es: seq<Event>)
    requires Inv(g, c)
    ensures Exec(g, m, c, es).Ok? ==> Inv(g, Exec(g, m, c, es).value)
  {
    if es != [] {
      var n := |es| - 1;
      RunKeeps(g, m, c, es[..n]);
      if Exec(g, m, c, es[..n]).Ok? {
        NextKeeps(g, m, Exec(g, m, c, es[..n]).value, es[n]);
      }
    }
  }

  lemma BootInv(g: Geometry, d: Image)
    requires LogEmpty(g, d)
    ensures Inv(g, Boot(d))
  {
    assert Installed(d, [], map[]) == d;
  }

  /**
   Group commit safety: after any interleaving of calls, commit steps, crashes and recovery
   steps, crashing now and recovering gives the file system after some whole prefix of the
   groups; a call is open only while nothing is being committed, and then no home block on
   disk shows anything but whole groups.
   */
  lemma GroupCommitSafety(g: Geometry, m: nat, d: Image, es: seq<Event>)
    requires LogEmpty(g, d)
    ensures Exec(g, m, Boot(d), es).Ok? ==>
              var c := Exec(g, m, Boot(d), es).value;
              && CrashSafe(g, c)
              && Durable(c.s, c.h) >= |c.h.closed| - 2
              && (c.s.ops != map[] ==> c.s.phase.Running? && SameHome(g, c.s.disk, c.h.closed[|c.h.closed| - 1]))
              && Distinct(c.s.lh)
  {
    BootInv(g, d);
    RunKeeps(g, m, Boot(d), es);
    if Exec(g, m, Boot(d), es).Ok? {
      InvIsCrashSafe(g, Exec(g, m, Boot(d), es).value);
    }
  }

  /** In a run the only panic is the full log: "log.committing" is unreachable. */
  lemma OnlyTooBigPanics(g: Geometry, m: nat, d: Image, es: seq<Event>, e: Event)
    requires LogEmpty(g, d) && Exec(g, m, Boot(d), es).Ok?
    ensures Exec(g, m, Boot(d), es + [e]).Panic? ==>
              var s := Exec(g, m, Boot(d), es).value.s;
              e.LogWrite? && CanLog(g, m, s, e.op, e.b) && TooBig(g, s)
  {
    BootInv(g, d);
    RunKeeps(g, m, Boot(d), es);
    assert (es + [e])[..|es|] == es;
    NextKeeps(g, m, Exec(g, m, Boot(d), es).value, e);
  }

  lemma DurableStep(g: Geometry, m: nat, c: Config, e: Event)
    requires Inv(g, c) && Next(g, m, c, e).Ok?
    ensures var c' := Next(g, m, c, e).value;
            && 0 <= Durable(c.s, c.h) < |c.h.closed|
            && Durable(c.s, c.h) <= Durable(c'.s, c'.h) < |c'.h.closed|
            && c'.h.closed[..Durable(c.s, c.h) + 1] == c.h.closed[..Durable(c.s, c.h) + 1]
  {
    assert |c.h.closed| >= 1 && (c.s.phase.Committing? ==> |c.h.closed| >= 2);
    assert c.s.ops != map[] ==> c.s.phase.Running?;
    hide Inv;
  }

  /** Once a group is durable no later event, and no number of crashes, takes it away or changes it. */
  lemma {:induction false} DurableForever(g: Geometry, m: nat, c: Config, es: seq<Event>)
    requires Inv(g, c) && Exec(g, m, c, es).Ok?
    ensures var c' := Exec(g, m, c, es).value;
            && 0 <= Durable(c.s, c.h) <= Durable(c'.s, c'.h) < |c'.h.closed|
            && Durable(c.s, c.h) < |c.h.closed|
            && c'.h.closed[..Durable(c.s, c.h) + 1] == c.h.closed[..Durable(c.s, c.h) + 1]
  {
    hide Inv, Next, Durable;
    if es == [] {
      InvIsCrashSafe(g, c);
    } else {
      var n := |es| - 1;
      var mid := Exec(g, m, c, es[..n]).value;
      DurableForever(g, m, c, es[..n]);
      RunKeeps(g, m, c, es[..n]);
      DurableStep(g, m, mid, es[n]);
      var c', i, j := Exec(g, m, c, es).value, Durable(c.s, c.h), Durable(mid.s, mid.h);
      assert c'.h.closed[..i + 1] == c'.h.closed[..j + 1][..i + 1];
      assert mid.h.closed[..i + 1] == mid.h.closed[..j + 1][..i + 1];
    }
  }

  // ----- a commit or recovery comes to an end -----

  lemma {:induction false} ExecConcat(g: Geometry, m: nat, c: Config, es: seq<Event>, fs: seq<Event>)
    requires Exec(g, m, c, es).Ok?
    ensures Exec(g, m, c, es + fs) == Exec(g, m, Exec(g, m, c, es).value, fs)
  {
    hide Next;
    if fs == [] {
      assert es + fs == es;
    } else {
      var n := |fs| - 1;
      ExecConcat(g, m, c, es, fs[..n]);
      assert (es + fs)[..|es| + n] == es + fs[..n];
      assert (es + fs)[|es| + n] == fs[n];
    }
  }

  /** How many disk writes are left, and the step that ends it all. */
  function Left(s: State): (n: int) {
    match s.phase
    case Running => 0
    case Committing(k) => 2 * |s.lh| + 3 - k
    case Recovering(k) => |s.lh| + 2 - k
  }

  lemma LeftIs(g: Geometry, c: Config)
    requires Inv(g, c) && !c.s.phase.Running?
    ensures Left(c.s) >= 1
  {
  }

  /** Each disk step brings it nearer, and changes nothing that calls see. */
  lemma DiskStepNearer(g: Geometry, m: nat, c: Config)
    requires Inv(g, c) && !c.s.phase.Running?
    ensures var r := Next(g, m, c, DiskStep);
            && r.Ok? && r.value.h == c.h && r.value.s.ops == c.s.ops
            && (r.value.s.phase.Running? ==> r.value.s.lh == [])
            && (!r.value.s.phase.Running? ==> Left(r.value.s) == Left(c.s) - 1)
  {
    hide CommitStep, RecoveryStep;
  }

  /**
   Without another crash, disk steps alone bring any commit or recovery to an end: the log is empty, calls
   can begin, and the home blocks are those of the last group.
   */
  lemma {:induction false} Settles(g: Geometry, m: nat, c: Config) returns (es: seq<Event>)
    requires Inv(g, c) && !c.s.phase.Running?
    ensures forall i :: 0 <= i < |es| ==> es[i] == DiskStep
    ensures var r := Exec(g, m, c, es);
            && r.Ok? && r.value.s.phase.Running? && r.value.s.lh == [] && r.value.h == c.h
            && |c.h.closed| >= 1 && SameHome(g, r.value.s.disk, c.h.closed[|c.h.closed| - 1])
    decreases Left(c.s)
  {
    hide Next, Left;
    DiskStepNearer(g, m, c);
    NextKeeps(g, m, c, DiskStep);
    LeftIs(g, c);
    var c' := Next(g, m, c, DiskStep).value;
    var first := [DiskStep];
    assert first[..0] == [];
    assert Exec(g, m, c, first) == Ok(c');
    if c'.s.phase.Running? {
      es := first;
    } else {
      LeftIs(g, c');
      var more := Settles(g, m, c');
      ExecConcat(g, m, c, first, more);
      es := first + more;
    }
  }
}

/**
 pipe.c and proc.c: any number of processes reading and writing one pipe. A step is one critical
 section of the pipe's lock, or a kill. `written` and `read` are all the bytes that went in and
 came out.
 */
module PipeRuns {
  import opened Machine
  import opened Pipe

  /** Where a process is: outside, inside and able to go on, or asleep inside. */
  datatype Position =
    | Outside
    | Reading(n: nat, asleep: bool)
    | Writing(src: Bytes, from: nat, asleep: bool)

  datatype Proc = Proc(at: Position, killed: bool)

  datatype Sys = Sys(buf: Bytes, readopen: bool, writeopen: bool, procs: seq<Proc>, written: Bytes, read: Bytes)

  datatype Event =
    | EnterRead(p: nat, n: nat)
    | EnterWrite(p: nat, src: Bytes)
    | ReadStep(p: nat)
    | WriteStep(p: nat)
    | CloseRead
    | CloseWrite
    | Kill(p: nat)

  predicate AsleepReading(p: Proc) {
    p.at.Reading? && p.at.asleep
  }

  predicate AsleepWriting(p: Proc) {
    p.at.Writing? && p.at.asleep
  }

  function Woken(p: Proc): Proc {
    match p.at
    case Outside => p
    case Reading(n, _) => p.(at := Reading(n, false))
    case Writing(src, from, _) => p.(at := Writing(src, from, false))
  }

  /** `wakeup(&p->nread)`. */
  function WakeReaders(procs: seq<Proc>): (r: seq<Proc>)
    ensures |r| == |procs|
    ensures forall i :: 0 <= i < |procs| ==>
              r[i] == if procs[i].at.Reading? then Woken(procs[i]) else procs[i]
  {
    seq(|procs|, i requires 0 <= i < |procs| => if procs[i].at.Reading? then Woken(procs[i]) else procs[i])
  }

  /** `wakeup(&p->nwrite)`. */
  function WakeWriters(procs: seq<Proc>): (r: seq<Proc>)
    ensures |r| == |procs|
    ensures forall i :: 0 <= i < |procs| ==>
              r[i] == if procs[i].at.Writing? then Woken(procs[i]) else procs[i]
  {
    seq(|procs|, i requires 0 <= i < |procs| => if procs[i].at.Writing? then Woken(procs[i]) else procs[i])
  }

  predicate CanRead(s: Sys, p: nat) {
    p < |s.procs| && s.procs[p].at.Reading? && !s.procs[p].at.asleep && |s.buf| <= PIPESIZE
  }

  predicate CanWrite(s: Sys, p: nat) {
    && p < |s.procs| && s.procs[p].at.Writing? && !s.procs[p].at.asleep
    && |s.buf| <= PIPESIZE && s.procs[p].at.from <= |s.procs[p].at.src|
  }

  function AfterRead(s: Sys, p: nat): (r: Sys)
    requires CanRead(s, p)
  {
    var n, killed := s.procs[p].at.n, s.procs[p].killed;
    match ReadOutcome(s.buf, s.writeopen, killed)
    case Sleeps => s.(procs := s.procs[p := Proc(Reading(n, true), killed)])
    case Fails => s.(procs := s.procs[p := Proc(Outside, killed)])
    case Done =>
      var m := Min(n, |s.buf|);
      s.(buf := s.buf[m..], read := s.read + s.buf[..m], procs := WakeWriters(s.procs[p := Proc(Outside, killed)]))
  }

  function AfterWrite(s: Sys, p: nat): (r: Sys)
    requires CanWrite(s, p)
  {
    var w, killed := s.procs[p].at, s.procs[p].killed;
    var i := w.from + Room(s.buf, |w.src| - w.from);
    var s1 := s.(buf := s.buf + w.src[w.from..i], written := s.written + w.src[w.from..i]);
    match WriteOutcome(s.buf, |w.src| - w.from, s.readopen, killed)
    case Sleeps => s1.(procs := WakeReaders(s.procs)[p := Proc(Writing(w.src, i, true), killed)])
    case Fails => s1.(procs := s.procs[p := Proc(Outside, killed)])
    case Done => s1.(procs := WakeReaders(s.procs)[p := Proc(Outside, killed)])
  }

  /** An end is entered while it is open, and closed with nobody inside it. */
  ghost predicate Step(s: Sys, e: Event, s': Sys) {
    match e
    case EnterRead(p, n) =>
      && p < |s.procs| && s.procs[p].at == Outside && s.readopen
      && s' == s.(procs := s.procs[p := s.procs[p].(at := Reading(n, false))])
    case EnterWrite(p, src) =>
      && p < |s.procs| && s.procs[p].at == Outside && s.writeopen
      && s' == s.(procs := s.procs[p := s.procs[p].(at := Writing(src, 0, false))])
    case ReadStep(p) => CanRead(s, p) && s' == AfterRead(s, p)
    case WriteStep(p) => CanWrite(s, p) && s' == AfterWrite(s, p)
    case CloseRead =>
      && (forall i :: 0 <= i < |s.procs| ==> !s.procs[i].at.Reading?)
      && s' == s.(readopen := false, procs := WakeWriters(s.procs))
    case CloseWrite =>
      && (forall i :: 0 <= i < |s.procs| ==> !s.procs[i].at.Writing?)
      && s' == s.(writeopen := false, procs := WakeReaders(s.procs))
    case Kill(p) => p < |s.procs| && s' == s.(procs := s.procs[p := Woken(s.procs[p]).(killed := true)])
  }

  // ----- the invariant -----

  ghost predicate Sane(s: Sys) {
    && |s.buf| <= PIPESIZE && s.written == s.read + s.buf
    && (!s.readopen ==> forall i :: 0 <= i < |s.procs| ==> !s.procs[i].at.Reading?)
    && (!s.writeopen ==> forall i :: 0 <= i < |s.procs| ==> !s.procs[i].at.Writing?)
    && forall i :: 0 <= i < |s.procs| && s.procs[i].at.Writing? ==> s.procs[i].at.from <= |s.procs[i].at.src|
  }

  /** A sleeping reader has nothing to read, a sleeping writer no room, and both have a partner to wait for. */
  ghost predicate NoneForgotten(s: Sys) {
    && (forall i :: 0 <= i < |s.procs| && AsleepReading(s.procs[i]) ==> s.buf == [] && s.writeopen)
    && (forall i :: 0 <= i < |s.procs| && AsleepWriting(s.procs[i]) ==> |s.buf| == PIPESIZE && s.readopen)
  }

  /** A writer that has been killed fills the pipe in front of a sleeping reader and leaves without a wakeup. */
  ghost predicate Forgets(s: Sys, e: Event) {
    && e.WriteStep? && CanWrite(s, e.p) && s.procs[e.p].killed && s.readopen
    && s.buf == [] && |s.procs[e.p].at.src| - s.procs[e.p].at.from > PIPESIZE
    && exists i :: 0 <= i < |s.procs| && AsleepReading(s.procs[i])
  }

  lemma ReadSane(s: Sys, p: nat)
    requires Sane(s) && CanRead(s, p)
    ensures Sane(AfterRead(s, p))
  {
    var m := Min(s.procs[p].at.n, |s.buf|);
    assert s.buf == s.buf[..m] + s.buf[m..];
  }

  lemma WriteSane(s: Sys, p: nat)
    requires Sane(s) && CanWrite(s, p)
    ensures Sane(AfterWrite(s, p))
  {
    var w := s.procs[p].at;
    var part := w.src[w.from..w.from + Room(s.buf, |w.src| - w.from)];
    assert s.read + s.buf + part == s.read + (s.buf + part);
  }

  lemma SaneKept(s: Sys, e: Event, s': Sys)
    requires Sane(s) && Step(s, e, s')
    ensures Sane(s')
  {
    hide AfterRead, AfterWrite;
    match e
    case ReadStep(p) => ReadSane(s, p);
    case WriteStep(p) => WriteSane(s, p);
    case _ =>
  }

  lemma ReadKeeps(s: Sys, p: nat)
    requires Sane(s) && NoneForgotten(s) && CanRead(s, p)
    ensures NoneForgotten(AfterRead(s, p))
  {
  }

  lemma WriteKeepsIff(s: Sys, p: nat)
    requires Sane(s) && NoneForgotten(s) && CanWrite(s, p)
    ensures NoneForgotten(AfterWrite(s, p)) <==> !Forgets(s, WriteStep(p))
  {
    var s' := AfterWrite(s, p);
    if Forgets(s, WriteStep(p)) {
      var i :| 0 <= i < |s.procs| && AsleepReading(s.procs[i]);
      assert AsleepReading(s'.procs[i]);
    }
  }

  /** A step loses a wakeup exactly if it is the last step of such a writer. */
  lemma StepKeepsIff(s: Sys, e: Event, s': Sys)
    requires Sane(s) && NoneForgotten(s) && Step(s, e, s')
    ensures NoneForgotten(s') <==> !Forgets(s, e)
  {
    match e
    case ReadStep(p) => ReadKeeps(s, p);
    case WriteStep(p) => WriteKeepsIff(s, p);
    case _ =>
  }

  // ----- runs -----

  ghost predicate Initial(s: Sys) {
    && s.buf == [] && s.written == [] && s.read == [] && s.readopen && s.writeopen
    && forall i :: 0 <= i < |s.procs| ==> s.procs[i].at == Outside
  }

  ghost predicate Run(ss: seq<Sys>, es: seq<Event>) {
    |ss| == |es| + 1 && forall i :: 0 <= i < |es| ==> Step(ss[i], es[i], ss[i + 1])
  }

  /** Bytes come out in the order they went in, none lost and none twice, whatever happens. */
  lemma {:induction false} BytesInOrder(ss: seq<Sys>, es: seq<Event>)
    requires Run(ss, es) && Sane(ss[0])
    ensures Sane(ss[|es|]) && ss[|es|].read <= ss[|es|].written
  {
    if |es| > 0 {
      SaneKept(ss[0], es[0], ss[1]);
      assert Run(ss[1..], es[1..]);
      BytesInOrder(ss[1..], es[1..]);
    }
  }

  // ----- what a call has done -----

  /** Everything but the pipe's bytes and the processes is as it was, and `p` is the only one to change its place. */
  ghost predicate OnlyMoves(s: Sys, s': Sys, p: nat) {
    && s'.readopen == s.readopen && s'.writeopen == s.writeopen && |s'.procs| == |s.procs|
    && forall i :: 0 <= i < |s.procs| && i != p ==> s'.procs[i] == s.procs[i] || s'.procs[i] == Woken(s.procs[i])
  }

  /**
   A section of `pipewrite` puts bytes in until there are no more or the pipe is full. With all of them
   in, the call is over; otherwise it is over exactly if there is no reader or the process has been
   killed, and it sleeps if not. It wakes all readers, except when it fails.
   */
  lemma WriteStepIs(s: Sys, p: nat, s': Sys) returns (k: nat)
    requires Sane(s) && CanWrite(s, p) && Step(s, WriteStep(p), s')
    ensures var w := s.procs[p].at;
            && OnlyMoves(s, s', p) && s'.read == s.read
            && w.from + k <= |w.src| && s'.written == s.written + w.src[w.from..w.from + k]
            && s'.buf == s.buf + w.src[w.from..w.from + k] && |s'.buf| <= PIPESIZE
            && (w.from + k < |w.src| ==> |s'.buf| == PIPESIZE)
            && (s'.procs[p] ==
                if w.from + k == |w.src| || !s.readopen || s.procs[p].killed then s.procs[p].(at := Outside)
                else s.procs[p].(at := Writing(w.src, w.from + k, true)))
            && ((w.from + k == |w.src| || (s.readopen && !s.procs[p].killed)) ==>
                  forall i :: 0 <= i < |s.procs| ==> !AsleepReading(s'.procs[i]))
  {
    k := Room(s.buf, |s.procs[p].at.src| - s.procs[p].at.from);
  }

  /**
   A section of `piperead` sleeps or fails exactly on an empty pipe that has a writer, and fails exactly
   if the process has been killed. Otherwise it takes the oldest bytes, as many as there are up to `n`,
   wakes all writers and is over.
   */
  lemma ReadStepIs(s: Sys, p: nat, s': Sys) returns (k: nat)
    requires Sane(s) && CanRead(s, p) && Step(s, ReadStep(p), s')
    ensures var n, stuck := s.procs[p].at.n, s.buf == [] && s.writeopen;
            && OnlyMoves(s, s', p) && s'.written == s.written
            && k <= n && k <= |s.buf| && s.buf == s.buf[..k] + s'.buf && s'.read == s.read + s.buf[..k]
            && (k < n ==> s'.buf == [])
            && (s'.procs[p] ==
                if stuck && !s.procs[p].killed then s.procs[p].(at := Reading(n, true)) else s.procs[p].(at := Outside))
            && (!stuck ==> forall i :: 0 <= i < |s.procs| ==> !AsleepWriting(s'.procs[i]))
  {
    k := Min(s.procs[p].at.n, |s.buf|);
  }

  /** A killed process is not left asleep. */
  lemma KillWakes(s: Sys, p: nat, s': Sys)
    requires Step(s, Kill(p), s')
    ensures s' == s.(procs := s.procs[p := s'.procs[p]]) && s'.procs[p].killed
    ensures !AsleepReading(s'.procs[p]) && !AsleepWriting(s'.procs[p])
    ensures s'.procs[p].at == Woken(s.procs[p]).at && (s.procs[p].at == Outside ==> s'.procs[p].at == Outside)
  {
  }

  /** The bytes that a step puts into the pipe. */
  ghost function Added(s: Sys, s': Sys): (r: Bytes) {
    if |s.written| <= |s'.written| then s'.written[|s.written|..] else []
  }

  /** The bytes that process `p` put into the pipe in the course of the run. */
  ghost function PutBy(ss: seq<Sys>, es: seq<Event>, p: nat): (r: Bytes)
    requires |ss| == |es| + 1
  {
    if es == [] then []
    else
      var n := |es| - 1;
      PutBy(ss[..n + 1], es[..n], p) + if es[n] == WriteStep(p) then Added(ss[n], ss[n + 1]) else []
  }

  /** Process `p` is in one call of `pipewrite` with `src` all along, up to the last state. */
  ghost predicate InCall(ss: seq<Sys>, es: seq<Event>, p: nat, src: Bytes) {
    && |ss| == |es| + 1
    && forall i :: 0 <= i < |es| ==> p < |ss[i].procs| && ss[i].procs[p].at.Writing? && ss[i].procs[p].at.src == src
  }

  /** The call has put `src` in as far as its counter says; if it is over, all of it, unless there was no reader. */
  ghost predicate Accounted(ss: seq<Sys>, es: seq<Event>, p: nat, src: Bytes)
    requires |ss| == |es| + 1
  {
    var s, put := ss[|es|], PutBy(ss, es, p);
    && p < |s.procs|
    && match s.procs[p].at
       case Writing(src', from, _) => src' == src && from <= |src| && put == src[..from]
       case Outside => put == src || (put < src && |s.buf| == PIPESIZE && (!s.readopen || s.procs[p].killed))
       case Reading(_, _) => false
  }

  /**
   Over any run from the beginning of a call of `pipewrite`, and whatever the other processes do: what
   the process has put in is the part of `src` it has got to. A call that is over has put in all of `src`,
   or it ended at a full pipe without a reader or with the process killed.
   */
  lemma {:induction false} WriteAccounted(ss: seq<Sys>, es: seq<Event>, p: nat, src: Bytes)
    requires Run(ss, es) && Sane(ss[0]) && InCall(ss, es, p, src)
    requires p < |ss[0].procs| && ss[0].procs[p].at.Writing? && ss[0].procs[p].at.src == src
    requires ss[0].procs[p].at.from == 0
    ensures Accounted(ss, es, p, src)
  {
    if es != [] {
      var n := |es| - 1;
      assert Run(ss[..n + 1], es[..n]) && InCall(ss[..n + 1], es[..n], p, src);
      WriteAccounted(ss[..n + 1], es[..n], p, src);
      BytesInOrder(ss[..n + 1], es[..n]);
      AccountedMore(ss, es, p, src);
    }
  }

  /** What any one step means for a call that is going on. */
  lemma CallStep(s: Sys, e: Event, s': Sys, p: nat)
    requires Sane(s) && Step(s, e, s') && p < |s.procs| && s.procs[p].at.Writing?
    ensures var src, from, k := s.procs[p].at.src, s.procs[p].at.from, if e == WriteStep(p) then |Added(s, s')| else 0;
            && p < |s'.procs| && from + k <= |src| && (e == WriteStep(p) ==> Added(s, s') == src[from..from + k])
            && match s'.procs[p].at
               case Writing(src', from', _) => src' == src && from' == from + k
               case Outside => from + k == |src| || (|s'.buf| == PIPESIZE && (!s'.readopen || s'.procs[p].killed))
               case Reading(_, _) => false
  {
    hide AfterRead, AfterWrite;
    match e
    case WriteStep(q) =>
      var k := WriteStepIs(s, q, s');
      var w := s.procs[q].at;
      assert s'.written[|s.written|..] == w.src[w.from..w.from + k];
    case ReadStep(q) => var k := ReadStepIs(s, q, s');
    case _ =>
  }

  lemma AccountedMore(ss: seq<Sys>, es: seq<Event>, p: nat, src: Bytes)
    requires es != [] && |ss| == |es| + 1 && Accounted(ss[..|es|], es[..|es| - 1], p, src)
    requires Sane(ss[|es| - 1]) && Step(ss[|es| - 1], es[|es| - 1], ss[|es|])
    requires p < |ss[|es| - 1].procs| && ss[|es| - 1].procs[p].at.Writing?
    ensures Accounted(ss, es, p, src)
  {
    var n := |es| - 1;
    hide Sane, Step, Added;
    CallStep(ss[n], es[n], ss[n + 1], p);
    var from := ss[n].procs[p].at.from;
    var k := if es[n] == WriteStep(p) then |Added(ss[n], ss[n + 1])| else 0;
    assert src[..from] + src[from..from + k] == src[..from + k] && src[from..from] == [];
    assert src[..|src|] == src;
  }

  /** No writer is killed while it is inside. */
  ghost predicate WritersLive(s: Sys) {
    forall i :: 0 <= i < |s.procs| && s.procs[i].at.Writing? ==> !s.procs[i].killed
  }

  /** In runs without killed writers no wakeup is lost, so reader and writer never sleep on one pipe together. */
  lemma {:induction false} NoLostWakeups(ss: seq<Sys>, es: seq<Event>, i: nat, j: nat)
    requires Run(ss, es) && Sane(ss[0]) && NoneForgotten(ss[0])
    requires forall k :: 0 <= k < |ss| ==> WritersLive(ss[k])
    ensures NoneForgotten(ss[|es|])
    ensures i < |ss[|es|].procs| && j < |ss[|es|].procs| ==>
              !(AsleepReading(ss[|es|].procs[i]) && AsleepWriting(ss[|es|].procs[j]))
  {
    if |es| > 0 {
      SaneKept(ss[0], es[0], ss[1]);
      StepKeepsIff(ss[0], es[0], ss[1]);
      assert Run(ss[1..], es[1..]);
      NoLostWakeups(ss[1..], es[1..], i, j);
    }
  }

  /** A new pipe is where these runs begin. */
  lemma InitialHolds(s: Sys)
    requires Initial(s)
    ensures Sane(s) && NoneForgotten(s)
  {
  }

  /** A run in which a killed writer leaves a reader asleep in front of a full pipe. */
  lemma KilledWriterForgets() returns (ss: seq<Sys>, es: seq<Event>)
    ensures Run(ss, es) && Initial(ss[0]) && |es| == 5
    ensures |ss[5].procs| == 2 && AsleepReading(ss[5].procs[0]) && |ss[5].buf| == PIPESIZE
    ensures ss[5].procs[1].at == Outside
  {
    var src: Bytes := seq(PIPESIZE + 1, _ => 0);
    var out := Proc(Outside, false);
    var s0 := Sys([], true, true, [out, out], [], []);
    var s1 := s0.(procs := [Proc(Reading(1, false), false), out]);
    var s2 := s0.(procs := [Proc(Reading(1, true), false), out]);
    var s3 := s0.(procs := [Proc(Reading(1, true), false), Proc(Writing(src, 0, false), false)]);
    var s4 := s0.(procs := [Proc(Reading(1, true), false), Proc(Writing(src, 0, false), true)]);
    assert CanWrite(s4, 1);
    var s5 := AfterWrite(s4, 1);
    ss, es := [s0, s1, s2, s3, s4, s5], [EnterRead(0, 1), ReadStep(0), EnterWrite(1, src), Kill(1), WriteStep(1)];
    assert Step(s0, EnterRead(0, 1), s1);
    assert Step(s1, ReadStep(0), s2);
    assert Step(s2, EnterWrite(1, src), s3);
    assert Step(s3, Kill(1), s4);
    assert Step(s4, WriteStep(1), s5);
  }
}

/**
 On-disk format of the redo log and what recovery makes of a disk image.
 The log region is `g.size` blocks from `g.start`: one header block, then slots.
 */
module LogFormat {
  import opened BlockDisk
  import opened Rings

  const MAXOPBLOCKS := 10
  const LOGSIZE := MAXOPBLOCKS * 3

  datatype Geometry = Geometry(start: nat, size: nat)

  function Slot(g: Geometry, i: nat): nat {
    g.start + 1 + i
  }

  predicate InLog(g: Geometry, a: int) {
    g.start <= a < g.start + g.size
  }

  ghost predicate GeometryOk(g: Geometry, len: nat) {
    1 <= g.size && g.start + g.size <= len
  }

  /** `lh` can be logged: it fits, names home blocks only, and names none twice. */
  ghost predicate Loggable(g: Geometry, len: nat, lh: seq<nat>) {
    && GeometryOk(g, len)
    && |lh| <= LOGSIZE && |lh| < g.size
    && Distinct(lh)
    && forall i :: 0 <= i < |lh| ==> lh[i] < len && !InLog(g, lh[i])
  }

  /** Every logged block has its modified contents pinned in the buffer cache. */
  ghost predicate AllPinned(lh: seq<nat>, pinned: map<nat, Block>) {
    forall b :: b in lh ==> b in pinned
  }

  /** The pinned buffers once those of `lh` have been written home. */
  function Unpinned(pinned: map<nat, Block>, lh: seq<nat>): map<nat, Block> {
    pinned - (set b | b in lh)
  }

  lemma UnpinNothing(pinned: map<nat, Block>, lh: seq<nat>)
    ensures Unpinned(pinned, lh[..0]) == pinned
  {
  }

  lemma UnpinNext(pinned: map<nat, Block>, lh: seq<nat>, t: nat)
    requires t < |lh|
    ensures Unpinned(pinned, lh[..t]) - {lh[t]} == Unpinned(pinned, lh[..t + 1])
  {
    assert lh[..t + 1] == lh[..t] + [lh[t]];
  }

  /** What `write_head` makes of header block `b`: words past the list keep stale values. */
  function PutHeader(b: Block, lh: seq<nat>): (r: Block)
    requires |lh| <= LOGSIZE && |b.words| == WORDS
    ensures |r.words| == WORDS
  {
    Block([|lh|] + lh + b.words[|lh| + 1..])
  }

  /** What `read_head` finds in header block `b`. */
  function GetHeader(b: Block): (lh: seq<nat>)
    requires |b.words| == WORDS && b.words[0] <= LOGSIZE
  {
    b.words[1..b.words[0] + 1]
  }

  lemma HeaderRoundTrip(b: Block, lh: seq<nat>)
    requires |lh| <= LOGSIZE && |b.words| == WORDS
    ensures PutHeader(b, lh).words[0] == |lh|
    ensures GetHeader(PutHeader(b, lh)) == lh
  {
    assert PutHeader(b, lh).words[1..|lh| + 1] == lh;
  }

  ghost predicate HeaderOk(g: Geometry, d: Image) {
    && GeometryOk(g, |d|)
    && |d[g.start].words| == WORDS && d[g.start].words[0] <= LOGSIZE
    && Loggable(g, |d|, Head(g, d))
  }

  /** The block numbers the on-disk header lists. */
  ghost function Head(g: Geometry, d: Image): (lh: seq<nat>)
    requires GeometryOk(g, |d|) && |d[g.start].words| == WORDS && d[g.start].words[0] <= LOGSIZE
  {
    GetHeader(d[g.start])
  }

  /** The on-disk header commits nothing. */
  ghost predicate LogEmpty(g: Geometry, d: Image) {
    GeometryOk(g, |d|) && |d[g.start].words| == WORDS && d[g.start].words[0] == 0
  }

  lemma HeadOfPut(g: Geometry, d: Image, b: Block, lh: seq<nat>)
    requires Loggable(g, |d|, lh) && |b.words| == WORDS
    requires d[g.start] == PutHeader(b, lh)
    ensures HeaderOk(g, d) && Head(g, d) == lh
  {
    HeaderRoundTrip(b, lh);
  }

  // ----- the block writes of recovery -----

  ghost function Installs(g: Geometry, d: Image, lh: seq<nat>): (ws: seq<Write>)
    requires Loggable(g, |d|, lh)
    ensures |ws| == |lh|
    ensures InRange(d, ws)
  {
    seq(|lh|, i requires 0 <= i < |lh| => Write(lh[i], d[Slot(g, i)]))
  }

  /** The block writes of `recover_from_log`, in order, started on image `d`. */
  ghost function RecoveryWrites(g: Geometry, d: Image): (ws: seq<Write>)
    requires HeaderOk(g, d)
    ensures |ws| == |Head(g, d)| + 1
    ensures InRange(d, ws)
  {
    Installs(g, d, Head(g, d)) + [Write(g.start, PutHeader(d[g.start], []))]
  }

  /** The image a completed recovery leaves. */
  ghost function Recover(g: Geometry, d: Image): (r: Image)
    requires HeaderOk(g, d)
    ensures |r| == |d|
  {
    Apply(d, RecoveryWrites(g, d))
  }

  /** Two images agree on every block outside the log region. */
  ghost predicate SameHome(g: Geometry, d: Image, e: Image) {
    |d| == |e| && forall a :: 0 <= a < |d| && !InLog(g, a) ==> d[a] == e[a]
  }

  // ----- the block writes of commit -----

  /** The log on disk is empty and `lh` with cached contents `pinned` is ready to be committed. */
  ghost predicate Committable(g: Geometry, d: Image, lh: seq<nat>, pinned: map<nat, Block>) {
    Loggable(g, |d|, lh) && AllPinned(lh, pinned) && LogEmpty(g, d)
  }

  /** Write number `j` of a commit: log slots, header, home blocks, empty header. */
  ghost function CommitWrite(g: Geometry, d: Image, lh: seq<nat>, pinned: map<nat, Block>, j: nat): (w: Write)
    requires Committable(g, d, lh, pinned) && j < 2 * |lh| + 2
  {
    var n := |lh|;
    if j < n then Write(Slot(g, j), pinned[lh[j]])
    else if j == n then Write(g.start, PutHeader(d[g.start], lh))
    else if j < 2 * n + 1 then Write(lh[j - n - 1], pinned[lh[j - n - 1]])
    else Write(g.start, PutHeader(PutHeader(d[g.start], lh), []))
  }

  /** The block writes of `commit`, in order, for logged blocks `lh` with cached contents `pinned`. */
  ghost function CommitWrites(g: Geometry, d: Image, lh: seq<nat>, pinned: map<nat, Block>): (ws: seq<Write>)
    requires Committable(g, d, lh, pinned)
    ensures |ws| == if lh == [] then 0 else 2 * |lh| + 2
    ensures InRange(d, ws)
  {
    seq(if lh == [] then 0 else 2 * |lh| + 2,
        j requires 0 <= j < 2 * |lh| + 2 => CommitWrite(g, d, lh, pinned, j))
  }

  /** The image in which exactly the logged blocks have been replaced by their cached contents. */
  ghost function Installed(d: Image, lh: seq<nat>, pinned: map<nat, Block>): (r: Image)
    requires AllPinned(lh, pinned)
    ensures |r| == |d|
  {
    seq(|d|, a requires 0 <= a < |d| => if a in lh then pinned[a] else d[a])
  }

  /** After the slots are written the header block is still the old one. */
  lemma HeaderUntouched(g: Geometry, d: Image, lh: seq<nat>, pinned: map<nat, Block>)
    requires Committable(g, d, lh, pinned) && lh != []
    ensures Apply(d, CommitWrites(g, d, lh, pinned)[..|lh|])[g.start] == d[g.start]
  {
    ApplyUntouched(d, CommitWrites(g, d, lh, pinned)[..|lh|], g.start);
  }

  /** Installing from the slots just written is writing the pinned contents home. */
  lemma InstallsFromSlots(g: Geometry, d: Image, lh: seq<nat>, pinned: map<nat, Block>, e: Image)
    requires Committable(g, d, lh, pinned) && lh != []
    requires e == Apply(d, CommitWrites(g, d, lh, pinned)[..|lh| + 1])
    ensures Loggable(g, |e|, lh)
    ensures Installs(g, e, lh) == CommitWrites(g, d, lh, pinned)[|lh| + 1..2 * |lh| + 1]
  {
    var n := |lh|;
    var ws := CommitWrites(g, d, lh, pinned)[n + 1..2 * n + 1];
    forall i | 0 <= i < n ensures Installs(g, e, lh)[i] == ws[i] {
      SlotWritten(g, d, lh, pinned, n + 1, i);
      assert ws[i] == CommitWrite(g, d, lh, pinned, n + 1 + i);
    }
  }

  /** The slots and then the header: the first part of a commit. */
  lemma CommitFirstHalf(g: Geometry, d: Image, lh: seq<nat>, pinned: map<nat, Block>, e: Image)
    requires Committable(g, d, lh, pinned) && lh != []
    requires e == Apply(d, CommitWrites(g, d, lh, pinned)[..|lh|])
    ensures |e[g.start].words| == WORDS
    ensures var ws, w := CommitWrites(g, d, lh, pinned), Write(g.start, PutHeader(e[g.start], lh));
            && ws[..|lh| + 1] == ws[..|lh|] + [w]
            && e[w.no := w.data] == Apply(d, ws[..|lh| + 1])
  {
    HeaderUntouched(g, d, lh, pinned);
    ApplyNext(d, CommitWrites(g, d, lh, pinned), |lh|);
  }

  /** A commit begins by copying the pinned blocks to the log. */
  lemma CommitCopies(g: Geometry, d: Image, lh: seq<nat>, pinned: map<nat, Block>, t: nat)
    requires Committable(g, d, lh, pinned) && t < |lh|
    ensures t < |CommitWrites(g, d, lh, pinned)| && lh[t] in pinned
    ensures CommitWrites(g, d, lh, pinned)[t] == Write(Slot(g, t), pinned[lh[t]])
  {
    assert lh[t] in lh;
  }

  /** With nothing logged a commit writes nothing. */
  lemma CommitNothing(g: Geometry, d: Image, lh: seq<nat>, pinned: map<nat, Block>)
    requires Committable(g, d, lh, pinned)
    ensures lh == [] ==> CommitWrites(g, d, lh, pinned) == [] && Apply(d, []) == d && Unpinned(pinned, lh) == pinned
  {
  }

  /** The installs and then the empty header: the second part of a commit. */
  lemma CommitSecondHalf(g: Geometry, d: Image, lh: seq<nat>, pinned: map<nat, Block>, e: Image, f: Image)
    requires Committable(g, d, lh, pinned) && lh != []
    requires e == Apply(d, CommitWrites(g, d, lh, pinned)[..|lh| + 1])
    requires f == Apply(e, Installs(g, e, lh))
    ensures |f[g.start].words| == WORDS
    ensures var ws, w := CommitWrites(g, d, lh, pinned), Write(g.start, PutHeader(f[g.start], []));
            && ws == ws[..|lh| + 1] + Installs(g, e, lh) + [w]
            && f[w.no := w.data] == Apply(d, ws)
  {
    hide Apply, Committable;
    var ws, n := CommitWrites(g, d, lh, pinned), |lh|;
    InstallsFromSlots(g, d, lh, pinned, e);
    ApplyUntouched(e, Installs(g, e, lh), g.start);
    CommitFirstHalf(g, d, lh, pinned, Apply(d, ws[..n]));
    HeaderUntouched(g, d, lh, pinned);
    ApplyConcat(d, ws[..n + 1], Installs(g, e, lh));
    assert ws[..2 * n + 1] == ws[..n + 1] + Installs(g, e, lh);
    ApplyNext(d, ws, 2 * n + 1);
    assert ws[..2 * n + 2] == ws;
  }

  /** The installs and then the empty header: the whole of a recovery. */
  lemma RecoveryPhases(g: Geometry, d: Image, f: Image)
    requires HeaderOk(g, d) && f == Apply(d, Installs(g, d, Head(g, d)))
    ensures |f[g.start].words| == WORDS
    ensures var w := Write(g.start, PutHeader(f[g.start], []));
            && RecoveryWrites(g, d) == Installs(g, d, Head(g, d)) + [w]
            && f[w.no := w.data] == Recover(g, d)
  {
    ApplyUntouched(d, Installs(g, d, Head(g, d)), g.start);
    ApplyOne(d, Installs(g, d, Head(g, d)), Write(g.start, PutHeader(f[g.start], [])));
  }

  // ----- crash atomicity -----

  lemma RecoverInLog(g: Geometry, d: Image)
    requires HeaderOk(g, d)
    ensures LogEmpty(g, Recover(g, d))
    ensures forall a :: InLog(g, a) && a != g.start ==> Recover(g, d)[a] == d[a]
  {
    var ws := RecoveryWrites(g, d);
    ApplyLast(d, ws, |ws| - 1);
    forall a | InLog(g, a) && a != g.start ensures Recover(g, d)[a] == d[a] {
      ApplyUntouched(d, ws, a);
    }
  }

  /** What recovery leaves in home block `a`: its log slot if the header lists it, else itself. */
  lemma RecoverHome(g: Geometry, d: Image, a: nat)
    requires HeaderOk(g, d) && a < |d| && !InLog(g, a)
    ensures a !in Head(g, d) ==> Recover(g, d)[a] == d[a]
    ensures forall i :: 0 <= i < |Head(g, d)| && Head(g, d)[i] == a ==> Recover(g, d)[a] == d[Slot(g, i)]
  {
    var ws := RecoveryWrites(g, d);
    if a in Head(g, d) {
      forall i | 0 <= i < |Head(g, d)| && Head(g, d)[i] == a
        ensures Recover(g, d)[a] == d[Slot(g, i)]
      {
        assert ws[i] == Write(a, d[Slot(g, i)]);
        ApplyLast(d, ws, i);
      }
    } else {
      ApplyUntouched(d, ws, a);
    }
  }

  /**
   Recovery depends only on the header, the log slots it lists and the home blocks it
   does not: two images that agree there recover to the same home blocks.
   */
  lemma RecoverDependsOn(g: Geometry, d: Image, e: Image)
    requires HeaderOk(g, d) && HeaderOk(g, e) && |d| == |e|
    requires Head(g, d) == Head(g, e)
    requires forall i :: 0 <= i < |Head(g, d)| ==> d[Slot(g, i)] == e[Slot(g, i)]
    requires forall a :: 0 <= a < |d| && !InLog(g, a) && a !in Head(g, d) ==> d[a] == e[a]
    ensures SameHome(g, Recover(g, d), Recover(g, e))
  {
    forall a | 0 <= a < |d| && !InLog(g, a) ensures Recover(g, d)[a] == Recover(g, e)[a] {
      RecoverHome(g, d, a);
      RecoverHome(g, e, a);
      if a in Head(g, d) {
        var i :| 0 <= i < |Head(g, d)| && Head(g, d)[i] == a;
        assert Recover(g, d)[a] == d[Slot(g, i)];
      }
    }
  }

  /** Recovering an image whose log is empty changes no home block. */
  lemma RecoverEmpty(g: Geometry, d: Image)
    requires LogEmpty(g, d)
    ensures HeaderOk(g, d) && Head(g, d) == []
    ensures SameHome(g, Recover(g, d), d)
  {
    assert Head(g, d) == [];
    forall a | 0 <= a < |d| && !InLog(g, a) ensures Recover(g, d)[a] == d[a] {
      RecoverHome(g, d, a);
    }
  }

  /** A crash before write `j` of a recovery: recovering again gives the same home blocks. */
  lemma RecoveryCrash(g: Geometry, d: Image, j: nat)
    requires HeaderOk(g, d) && j <= |RecoveryWrites(g, d)|
    ensures var e := Apply(d, RecoveryWrites(g, d)[..j]);
            && HeaderOk(g, e)
            && SameHome(g, Recover(g, e), Recover(g, d))
            && (j == |RecoveryWrites(g, d)| ==> LogEmpty(g, e))
  {
    var ws := RecoveryWrites(g, d);
    var e := Apply(d, ws[..j]);
    if j == |ws| {
      assert ws[..j] == ws;
      RecoverInLog(g, d);
      RecoverEmpty(g, e);
    } else {
      forall a | InLog(g, a) ensures e[a] == d[a] { ApplyUntouched(d, ws[..j], a); }
      assert Head(g, e) == Head(g, d);
      forall a | 0 <= a < |d| && !InLog(g, a) && a !in Head(g, d) ensures e[a] == d[a] {
        ApplyUntouched(d, ws[..j], a);
      }
      RecoverDependsOn(g, e, d);
    }
  }

  /** Crash before the header write: every log block may have changed, nothing else has. */
  lemma CrashBeforeHeader(g: Geometry, d: Image, lh: seq<nat>, pinned: map<nat, Block>, k: nat)
    requires Committable(g, d, lh, pinned) && k <= |lh|
    requires k <= |CommitWrites(g, d, lh, pinned)|
    ensures var e := Apply(d, CommitWrites(g, d, lh, pinned)[..k]);
            LogEmpty(g, e) && SameHome(g, e, d)
  {
    var ws := CommitWrites(g, d, lh, pinned)[..k];
    ApplyUntouched(d, ws, g.start);
    forall a | 0 <= a < |d| && !InLog(g, a) ensures Apply(d, ws)[a] == d[a] {
      ApplyUntouched(d, ws, a);
    }
  }

  /** Between the two header writes the header lists the transaction ... */
  lemma HeaderWritten(g: Geometry, d: Image, lh: seq<nat>, pinned: map<nat, Block>, k: nat)
    requires Committable(g, d, lh, pinned) && lh != [] && |lh| < k <= 2 * |lh| + 1
    ensures var e := Apply(d, CommitWrites(g, d, lh, pinned)[..k]);
            HeaderOk(g, e) && Head(g, e) == lh && e[g.start] == PutHeader(d[g.start], lh)
  {
    var ws := CommitWrites(g, d, lh, pinned)[..k];
    assert ws[|lh|] == CommitWrite(g, d, lh, pinned, |lh|);
    assert forall j :: |lh| < j < k ==> ws[j].no == CommitWrite(g, d, lh, pinned, j).no;
    ApplyLast(d, ws, |lh|);
    HeadOfPut(g, Apply(d, ws), d[g.start], lh);
  }

  /** ... the slots hold its contents ... */
  lemma SlotWritten(g: Geometry, d: Image, lh: seq<nat>, pinned: map<nat, Block>, k: nat, i: nat)
    requires Committable(g, d, lh, pinned) && |lh| < k <= 2 * |lh| + 1 && i < |lh|
    ensures Apply(d, CommitWrites(g, d, lh, pinned)[..k])[Slot(g, i)] == pinned[lh[i]]
  {
    var ws := CommitWrites(g, d, lh, pinned)[..k];
    assert ws[i] == Write(Slot(g, i), pinned[lh[i]]);
    ApplyLast(d, ws, i);
  }

  /** ... and no other home block has changed. */
  lemma OthersKept(g: Geometry, d: Image, lh: seq<nat>, pinned: map<nat, Block>, k: nat, a: nat)
    requires Committable(g, d, lh, pinned)
    requires k <= |CommitWrites(g, d, lh, pinned)|
    requires a < |d| && !InLog(g, a) && a !in lh
    ensures Apply(d, CommitWrites(g, d, lh, pinned)[..k])[a] == d[a]
  {
    var ws := CommitWrites(g, d, lh, pinned)[..k];
    ApplyUntouched(d, ws, a);
  }

  /** After the last write of commit the log is empty and the home blocks are the new ones. */
  lemma CommitDone(g: Geometry, d: Image, lh: seq<nat>, pinned: map<nat, Block>)
    requires Committable(g, d, lh, pinned)
    ensures var e := Apply(d, CommitWrites(g, d, lh, pinned));
            LogEmpty(g, e) && SameHome(g, e, Installed(d, lh, pinned))
  {
    var ws := CommitWrites(g, d, lh, pinned);
    var e := Apply(d, ws);
    var n := |lh|;
    if n > 0 {
      ApplyLast(d, ws, 2 * n + 1);
      forall a | 0 <= a < |d| && !InLog(g, a) ensures e[a] == Installed(d, lh, pinned)[a] {
        if a in lh {
          var i :| 0 <= i < n && lh[i] == a;
          assert ws[n + 1 + i] == Write(a, pinned[a]);
          ApplyLast(d, ws, n + 1 + i);
        } else {
          ApplyUntouched(d, ws, a);
        }
      }
    }
  }

  /**
   All or nothing at every crash point of a commit: the home blocks recover to the old
   image while the header has not been written, and to the new one from then on.
   */
  lemma CommitCrash(g: Geometry, d: Image, lh: seq<nat>, pinned: map<nat, Block>, k: nat)
    requires Committable(g, d, lh, pinned)
    requires k <= |CommitWrites(g, d, lh, pinned)|
    ensures var e := Apply(d, CommitWrites(g, d, lh, pinned)[..k]);
            && HeaderOk(g, e)
            && SameHome(g, Recover(g, e), if k <= |lh| then d else Installed(d, lh, pinned))
  {
    var ws := CommitWrites(g, d, lh, pinned);
    var e := Apply(d, ws[..k]);
    if k <= |lh| {
      CrashBeforeHeader(g, d, lh, pinned, k);
      RecoverEmpty(g, e);
    } else if k == 2 * |lh| + 2 {
      assert ws[..k] == ws;
      CommitDone(g, d, lh, pinned);
      RecoverEmpty(g, e);
    } else {
      HeaderWritten(g, d, lh, pinned, k);
      forall a | 0 <= a < |d| && !InLog(g, a) ensures Recover(g, e)[a] == Installed(d, lh, pinned)[a] {
        RecoverHome(g, e, a);
        if a in lh {
          var i :| 0 <= i < |lh| && lh[i] == a;
          SlotWritten(g, d, lh, pinned, k, i);
        } else {
          OthersKept(g, d, lh, pinned, k, a);
        }
      }
    }
  }

  /** `chain` is a series of recoveries, each cut short by a crash, each started on what the last one left. */
  ghost predicate RecoveryChain(g: Geometry, chain: seq<Image>) {
    && |chain| > 0
    && forall i :: 0 <= i < |chain| - 1 ==> CutShort(g, chain[i], chain[i + 1])
  }

  ghost predicate CutShort(g: Geometry, d: Image, e: Image) {
    HeaderOk(g, d) && exists j :: 0 <= j <= |RecoveryWrites(g, d)| && e == Apply(d, RecoveryWrites(g, d)[..j])
  }

  lemma SameHomeSymmetric(g: Geometry, a: Image, b: Image)
    requires SameHome(g, a, b)
    ensures SameHome(g, b, a)
  {
  }

  lemma SameHomeTransitive(g: Geometry, a: Image, b: Image, c: Image)
    requires SameHome(g, a, b) && SameHome(g, b, c)
    ensures SameHome(g, a, c)
  {
  }

  lemma CutShortRecovers(g: Geometry, d: Image, e: Image)
    requires CutShort(g, d, e)
    ensures HeaderOk(g, e) && SameHome(g, Recover(g, e), Recover(g, d))
  {
    var j :| 0 <= j <= |RecoveryWrites(g, d)| && e == Apply(d, RecoveryWrites(g, d)[..j]);
    RecoveryCrash(g, d, j);
  }

  /** However often recovery is interrupted, completing it gives what the first run would have given. */
  lemma {:induction false} RecoveryRestarts(g: Geometry, chain: seq<Image>)
    requires RecoveryChain(g, chain) && HeaderOk(g, chain[0])
    ensures HeaderOk(g, chain[|chain| - 1])
    ensures SameHome(g, Recover(g, chain[|chain| - 1]), Recover(g, chain[0]))
  {
    if |chain| > 1 {
      hide Recover, CutShort, HeaderOk, SameHome;
      var n := |chain| - 1;
      RecoveryRestarts(g, chain[..n]);
      CutShortRecovers(g, chain[n - 1], chain[n]);
      SameHomeTransitive(g, Recover(g, chain[n]), Recover(g, chain[n - 1]), Recover(g, chain[0]));
    }
  }

  /**
   Crash atomicity: crash after any number `k` of the block writes of a commit, then crash
   in any number of recoveries; a completed recovery leaves every home block old, or every
   home block new, and new exactly when the header had been written.
   */
  lemma CrashAtomicity(g: Geometry, d: Image, lh: seq<nat>, pinned: map<nat, Block>, k: nat, chain: seq<Image>)
    requires Committable(g, d, lh, pinned)
    requires k <= |CommitWrites(g, d, lh, pinned)|
    requires RecoveryChain(g, chain) && chain[0] == Apply(d, CommitWrites(g, d, lh, pinned)[..k])
    ensures HeaderOk(g, chain[|chain| - 1])
    ensures var final := Recover(g, chain[|chain| - 1]);
            && LogEmpty(g, final)
            && SameHome(g, final, if k <= |lh| then d else Installed(d, lh, pinned))
  {
    CommitCrash(g, d, lh, pinned, k);
    RecoveryRestarts(g, chain);
    RecoverInLog(g, chain[|chain| - 1]);
  }
}

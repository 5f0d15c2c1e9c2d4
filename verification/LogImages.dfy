/** The redo log of log.c seen from the disk: the images that commit and recovery leave after each
    single-block write, and what a crash at any of these points recovers to. */
module LogImages {
  import opened Blocks


  /** The log occupies the blocks start .. start + size; its first block is the header. */
  predicate InLog(start: nat, size: nat, b: nat) {
    start <= b < start + size
  }

  /** A header names home blocks of the disk, no more of them than there are log blocks. */
  ghost predicate BlocksOk(d: Image, start: nat, size: nat, bs: seq<nat>) {
    && |bs| <= LOGSIZE && |bs| < size && start + size <= |d|
    && forall i :: 0 <= i < |bs| ==> bs[i] < |d| && !InLog(start, size, bs[i])
  }

  function HeadN(b: Block): nat { b[0] }

  function HeadBlocks(b: Block): (bs: seq<nat>)
    ensures |bs| == if HeadN(b) <= LOGSIZE then HeadN(b) else LOGSIZE
    ensures forall i :: 0 <= i < |bs| ==> bs[i] == b[i + 1]
  {
    seq(if HeadN(b) <= LOGSIZE then HeadN(b) else LOGSIZE, i requires 0 <= i < LOGSIZE => b[i + 1])
  }

  ghost predicate LogOk(d: Image, start: nat, size: nat) {
    && start + size <= |d| && size > 0
    && HeadN(d[start]) <= LOGSIZE
    && BlocksOk(d, start, size, HeadBlocks(d[start]))
  }

  // ---------- The images written by each phase ----------

  /** write_log after k log blocks; v is the image seen through the cache. */
  ghost function LogFirst(d: Image, v: Image, start: nat, bs: seq<nat>, k: nat): (r: Image)
    requires k <= |bs| && start + |bs| < |d| && |v| == |d| && forall i :: 0 <= i < |bs| ==> bs[i] < |d|
    ensures |r| == |d|
  {
    if k == 0 then d else LogFirst(d, v, start, bs, k - 1)[start + k := v[bs[k - 1]]]
  }

  lemma {:induction false} LogFirstIs(d: Image, v: Image, start: nat, bs: seq<nat>, k: nat)
    requires k <= |bs| && start + |bs| < |d| && |v| == |d| && forall i :: 0 <= i < |bs| ==> bs[i] < |d|
    ensures forall x :: 0 <= x < |d| ==>
      LogFirst(d, v, start, bs, k)[x] == if start < x <= start + k then v[bs[x - start - 1]] else d[x]
  {
    if k > 0 {
      LogFirstIs(d, v, start, bs, k - 1);
    }
  }

  /** The k-th turn of write_log reads its block through the cache as it was at the start. */
  lemma LogStep(d: Image, v: Image, start: nat, size: nat, bs: seq<nat>, k: nat)
    requires BlocksOk(d, start, size, bs) && |v| == |d| && k < |bs|
    ensures LogFirst(v, v, start, bs, k)[bs[k]] == v[bs[k]]
    ensures LogFirst(d, v, start, bs, k)[start + k + 1 := v[bs[k]]] == LogFirst(d, v, start, bs, k + 1)
    ensures Logs(d, v, start, bs, k + 1) == Logs(d, v, start, bs, k) + [LogFirst(d, v, start, bs, k + 1)]
  {
    LogFirstIs(v, v, start, bs, k);
    assert !InLog(start, size, bs[k]);
  }

  /** install_trans after k home blocks. */
  ghost function InstallFirst(d: Image, start: nat, bs: seq<nat>, k: nat): (r: Image)
    requires k <= |bs| && start + |bs| < |d| && forall i :: 0 <= i < |bs| ==> bs[i] < |d|
    ensures |r| == |d| && (k == 0 ==> r == d)
  {
    if k == 0 then d
    else
      var p := InstallFirst(d, start, bs, k - 1);
      p[bs[k - 1] := p[start + k]]
  }

  /** The header block after write_head has stored n and the first k block numbers. */
  function PutHead(b: Block, bs: seq<nat>, k: nat): (r: Block)
    requires k <= |bs| <= LOGSIZE && forall i :: 0 <= i < |bs| ==> bs[i] < 0x1_0000_0000
    ensures HeadN(r) == |bs|
    ensures forall i :: 0 <= i < k ==> r[i + 1] == bs[i]
  {
    if k == 0 then b[0 := |bs|] else PutHead(b, bs, k - 1)[k := bs[k - 1]]
  }

  ghost function Installed(d: Image, start: nat, size: nat): (r: Image)
    requires LogOk(d, start, size)
  {
    var bs := HeadBlocks(d[start]);
    InstallFirst(d, start, bs, |bs|)
  }

  ghost function Cleared(d: Image, start: nat): (r: Image)
    requires start < |d|
  {
    d[start := PutHead(d[start], [], 0)]
  }

  /** The image that a completed recover_from_log leaves. */
  ghost function Recovered(d: Image, start: nat, size: nat): (r: Image)
    requires LogOk(d, start, size)
  {
    Cleared(Installed(d, start, size), start)
  }

  ghost predicate SameHome(a: Image, b: Image, start: nat, size: nat) {
    |a| == |b| && forall x: nat :: x < |a| && !InLog(start, size, x) ==> a[x] == b[x]
  }

  // ---------- Recovery is idempotent ----------

  /** Installing never touches the log. */
  lemma {:induction false} InstallKeepsLog(d: Image, start: nat, size: nat, bs: seq<nat>, k: nat)
    requires BlocksOk(d, start, size, bs) && k <= |bs|
    ensures forall x :: start <= x < start + size ==> InstallFirst(d, start, bs, k)[x] == d[x]
  {
    if k > 0 {
      InstallKeepsLog(d, start, size, bs, k - 1);
    }
  }

  /** Where block x ends up: with the last log entry for it, or unchanged. */
  ghost function LastEntry(bs: seq<nat>, k: nat, x: nat): (i: int)
    requires k <= |bs|
    ensures -1 <= i < k
    ensures i >= 0 ==> bs[i] == x
    ensures forall j :: i < j < k ==> bs[j] != x
  {
    if k == 0 then -1 else if bs[k - 1] == x then k - 1 else LastEntry(bs, k - 1, x)
  }

  lemma {:induction false} InstallAt(d: Image, start: nat, size: nat, bs: seq<nat>, k: nat, x: nat)
    requires BlocksOk(d, start, size, bs) && k <= |bs| && x < |d| && !InLog(start, size, x)
    ensures InstallFirst(d, start, bs, k)[x] == var i := LastEntry(bs, k, x); if i >= 0 then d[start + i + 1] else d[x]
  {
    if k > 0 {
      InstallKeepsLog(d, start, size, bs, k - 1);
      InstallAt(d, start, size, bs, k - 1, x);
    }
  }

  /** Starting the installation again from any point of it leads to the same image. */
  lemma InstallAgain(d: Image, start: nat, size: nat, bs: seq<nat>, k: nat)
    requires BlocksOk(d, start, size, bs) && k <= |bs|
    ensures InstallFirst(InstallFirst(d, start, bs, k), start, bs, |bs|) == InstallFirst(d, start, bs, |bs|)
  {
    var p := InstallFirst(d, start, bs, k);
    var a, b := InstallFirst(p, start, bs, |bs|), InstallFirst(d, start, bs, |bs|);
    InstallKeepsLog(d, start, size, bs, k);
    InstallKeepsLog(d, start, size, bs, |bs|);
    InstallKeepsLog(p, start, size, bs, |bs|);
    forall x: nat | x < |d| ensures a[x] == b[x] {
      if !InLog(start, size, x) {
        InstallAt(d, start, size, bs, k, x);
        InstallAt(d, start, size, bs, |bs|, x);
        InstallAt(p, start, size, bs, |bs|, x);
      }
    }
  }

  /** The images that recover_from_log goes through: one per installed block, then the header. */
  ghost function RecoveryTrace(d: Image, start: nat, size: nat): (t: seq<Image>)
    requires LogOk(d, start, size)
  {
    var bs := HeadBlocks(d[start]);
    Installs(d, start, bs, |bs|) + [Recovered(d, start, size)]
  }

  ghost function Installs(d: Image, start: nat, bs: seq<nat>, k: nat): (t: seq<Image>)
    requires k <= |bs| && start + |bs| < |d| && forall i :: 0 <= i < |bs| ==> bs[i] < |d|
    ensures |t| == k
  {
    seq(k, i requires 0 <= i < k => InstallFirst(d, start, bs, i + 1))
  }

  lemma InstallStep(d: Image, start: nat, size: nat, bs: seq<nat>, k: nat)
    requires BlocksOk(d, start, size, bs) && k < |bs|
    ensures var p := InstallFirst(d, start, bs, k);
            InstallFirst(d, start, bs, k + 1) == p[bs[k] := p[start + k + 1]] && p[start + k + 1] == d[start + k + 1]
    ensures Installs(d, start, bs, k + 1) == Installs(d, start, bs, k) + [InstallFirst(d, start, bs, k + 1)]
  {
    InstallKeepsLog(d, start, size, bs, k);
  }

  /** A crash after any number of writes of the installation changes nothing about its outcome. */
  lemma PartialInstall(d: Image, start: nat, size: nat, k: nat)
    requires LogOk(d, start, size) && k <= HeadN(d[start])
    ensures var p := InstallFirst(d, start, HeadBlocks(d[start]), k);
            LogOk(p, start, size) && Recovered(p, start, size) == Recovered(d, start, size)
  {
    var bs := HeadBlocks(d[start]);
    InstallKeepsLog(d, start, size, bs, k);
    InstallAgain(d, start, size, bs, k);
  }

  lemma EmptyLog(d: Image, start: nat, size: nat)
    requires start + size <= |d| && size > 0 && HeadN(d[start]) == 0
    ensures LogOk(d, start, size) && SameHome(Recovered(d, start, size), d, start, size)
    ensures HeadN(Recovered(d, start, size)[start]) == 0
  {
  }

  /** Every image recovery goes through recovers to the same home blocks. */
  lemma RecoveryIdempotent(d: Image, start: nat, size: nat, j: nat)
    requires LogOk(d, start, size) && j < |RecoveryTrace(d, start, size)|
    ensures var p := RecoveryTrace(d, start, size)[j];
            LogOk(p, start, size)
            && SameHome(Recovered(p, start, size), Recovered(d, start, size), start, size)
  {
    var bs := HeadBlocks(d[start]);
    if j < |bs| {
      PartialInstall(d, start, size, j + 1);
    } else {
      EmptyLog(Recovered(d, start, size), start, size);
    }
  }

  /** ds lists the images after successive crashes: each recovery was cut short somewhere. */
  ghost predicate CrashRun(ds: seq<Image>, start: nat, size: nat) {
    && |ds| > 0 && LogOk(ds[0], start, size)
    && forall i {:trigger ds[i]} :: 0 < i < |ds| ==> CrashStep(ds[i - 1], ds[i], start, size)
  }

  ghost predicate CrashStep(a: Image, b: Image, start: nat, size: nat) {
    LogOk(a, start, size) && (b == a || b in RecoveryTrace(a, start, size))
  }

  lemma CrashStepKeeps(a: Image, b: Image, start: nat, size: nat)
    requires CrashStep(a, b, start, size)
    ensures LogOk(b, start, size)
            && SameHome(Recovered(b, start, size), Recovered(a, start, size), start, size)
  {
    if b != a {
      var j :| 0 <= j < |RecoveryTrace(a, start, size)| && RecoveryTrace(a, start, size)[j] == b;
      RecoveryIdempotent(a, start, size, j);
    }
  }

  /** However often recovery itself crashes, the one that completes yields the same home blocks
      as an undisturbed recovery, and an empty log. */
  lemma {:induction false} RecoverySurvivesCrashes(ds: seq<Image>, start: nat, size: nat)
    requires CrashRun(ds, start, size)
    ensures var last := ds[|ds| - 1];
            LogOk(last, start, size)
            && SameHome(Recovered(last, start, size), Recovered(ds[0], start, size), start, size)
            && HeadN(Recovered(last, start, size)[start]) == 0
  {
    if |ds| > 1 {
      var front := ds[..|ds| - 1];
      assert forall i :: 0 < i < |front| ==> front[i] == ds[i];
      RecoverySurvivesCrashes(front, start, size);
      assert ds[|ds| - 1] == ds[|front|];
      CrashStepKeeps(ds[|ds| - 2], ds[|ds| - 1], start, size);
    }
  }

  // ---------- Commit is atomic ----------

  ghost function Logs(d: Image, v: Image, start: nat, bs: seq<nat>, k: nat): (t: seq<Image>)
    requires k <= |bs| && start + |bs| < |d| && |v| == |d| && forall i :: 0 <= i < |bs| ==> bs[i] < |d|
    ensures |t| == k
  {
    seq(k, i requires 0 <= i < k => LogFirst(d, v, start, bs, i + 1))
  }

  /** The image after write_head: from this one on the transaction is committed. */
  ghost function Headed(d: Image, v: Image, start: nat, size: nat, bs: seq<nat>): (r: Image)
    requires Committable(d, v, start, size, bs)
    ensures |r| == |d|
  {
    var l := LogFirst(d, v, start, bs, |bs|);
    l[start := PutHead(l[start], bs, |bs|)]
  }

  /** What commit starts from: an empty log on disk, and a view v that differs from the disk d at
      the blocks bs only. */
  ghost predicate Committable(d: Image, v: Image, start: nat, size: nat, bs: seq<nat>) {
    && BlocksOk(d, start, size, bs) && |v| == |d| <= 0x1_0000_0000
    && HeadN(d[start]) == 0
    && (forall x: nat :: x < |d| && x !in bs && !InLog(start, size, x) ==> v[x] == d[x])
  }

  ghost function CommitTrace(d: Image, v: Image, start: nat, size: nat, bs: seq<nat>): (t: seq<Image>)
    requires Committable(d, v, start, size, bs)
  {
    var h := Headed(d, v, start, size, bs);
    Logs(d, v, start, bs, |bs|) + [h] + Installs(h, start, bs, |bs|)
    + [Cleared(InstallFirst(h, start, bs, |bs|), start)]
  }

  /** A crash after any single-block write of commit recovers to the home blocks from before the
      transaction or to those of the view it commits, according to whether the header is out. */
  lemma CommitAtomic(d: Image, v: Image, start: nat, size: nat, bs: seq<nat>, j: nat)
    requires Committable(d, v, start, size, bs) && j < |CommitTrace(d, v, start, size, bs)|
    ensures var p := CommitTrace(d, v, start, size, bs)[j];
            LogOk(p, start, size)
            && SameHome(Recovered(p, start, size), if j < |bs| then d else v, start, size)
  {
    CommitTraceAt(d, v, start, size, bs, j);
    hide *;
    var p := CommitTrace(d, v, start, size, bs)[j];
    if j < |bs| {
      LoggedRecovers(d, v, start, size, bs, j + 1);
    } else {
      var h := Headed(d, v, start, size, bs);
      HeadedRecovers(d, v, start, size, bs);
      if j <= 2 * |bs| {
        PartialInstall(h, start, size, j - |bs|);
      } else {
        EmptyLog(p, start, size);
        assert SameHome(Recovered(p, start, size), v, start, size) by { SameHomeTransitive(start, size); }
      }
    }
  }

  lemma SameHomeTransitive(start: nat, size: nat)
    ensures forall a, b, c :: SameHome(a, b, start, size) && SameHome(b, c, start, size) ==> SameHome(a, c, start, size)
  {
  }

  lemma LoggedRecovers(d: Image, v: Image, start: nat, size: nat, bs: seq<nat>, k: nat)
    requires Committable(d, v, start, size, bs) && k <= |bs|
    ensures var p := LogFirst(d, v, start, bs, k);
            LogOk(p, start, size) && SameHome(Recovered(p, start, size), d, start, size)
  {
    LogFirstIs(d, v, start, bs, k);
    EmptyLog(LogFirst(d, v, start, bs, k), start, size);
  }

  lemma CommitTraceAt(d: Image, v: Image, start: nat, size: nat, bs: seq<nat>, j: nat)
    requires Committable(d, v, start, size, bs) && j < |CommitTrace(d, v, start, size, bs)|
    ensures var p, h := CommitTrace(d, v, start, size, bs)[j], Headed(d, v, start, size, bs);
      if j < |bs| then p == LogFirst(d, v, start, bs, j + 1)
      else if j <= 2 * |bs| then p == InstallFirst(h, start, bs, j - |bs|)
      else p == Cleared(InstallFirst(h, start, bs, |bs|), start)
  {
  }

  lemma HeadedRecovers(d: Image, v: Image, start: nat, size: nat, bs: seq<nat>)
    requires Committable(d, v, start, size, bs)
    ensures var h := Headed(d, v, start, size, bs);
      && LogOk(h, start, size) && HeadN(h[start]) == |bs| && HeadBlocks(h[start]) == bs
      && SameHome(Recovered(h, start, size), v, start, size)
      && Recovered(h, start, size) == Cleared(InstallFirst(h, start, bs, |bs|), start)
      && HeadN(Recovered(h, start, size)[start]) == 0 && |Recovered(h, start, size)| == |d| >= start + size && size > 0
  {
    var h := Headed(d, v, start, size, bs);
    assert HeadBlocks(h[start]) == bs;
    LogFirstIs(d, v, start, bs, |bs|);
    forall x: nat | x < |d| && !InLog(start, size, x) ensures Recovered(h, start, size)[x] == v[x] {
      InstallAt(h, start, size, bs, |bs|, x);
    }
  }

  // ---------- A whole run ----------

  /** Every image the disk went through recovers to one of the committed states, and never to an
      earlier one than an image before it; the last image stands for the last committed state. */
  ghost predicate Explains(trace: seq<Image>, epoch: seq<nat>, commits: seq<Image>, start: nat, size: nat) {
    && |epoch| == |trace| > 0
    && (forall i :: 0 <= i < |trace| ==> RecoversTo(trace[i], epoch[i], commits, start, size))
    && (forall i, j :: 0 <= i < j < |epoch| ==> epoch[i] <= epoch[j])
    && epoch[|epoch| - 1] == |commits| - 1
  }

  ghost predicate RecoversTo(d: Image, e: nat, commits: seq<Image>, start: nat, size: nat) {
    e < |commits| && LogOk(d, start, size) && SameHome(Recovered(d, start, size), commits[e], start, size)
  }

  /** Crash atomicity of whole runs: power fails after any single-block write of any run of boots
      and commits, then again any number of times inside recovery; the next recovery that completes
      leaves exactly the home blocks of the commit point that write had reached, and an empty log.
      Commit points are only ever added, so this is all of a transaction or none of it. */
  lemma CrashAnywhere(trace: seq<Image>, epoch: seq<nat>, commits: seq<Image>, i: nat, ds: seq<Image>, start: nat, size: nat)
    requires Explains(trace, epoch, commits, start, size) && i < |trace|
    requires CrashRun(ds, start, size) && ds[0] == trace[i]
    ensures epoch[i] < |commits| && LogOk(ds[|ds| - 1], start, size)
    ensures var r := Recovered(ds[|ds| - 1], start, size);
      SameHome(r, commits[epoch[i]], start, size) && start < |r| && HeadN(r[start]) == 0
  {
    hide RecoveryTrace, HeadBlocks;
    assert RecoversTo(trace[i], epoch[i], commits, start, size);
    RecoverySurvivesCrashes(ds, start, size);
    SameHomeTransitive(start, size);
  }
}

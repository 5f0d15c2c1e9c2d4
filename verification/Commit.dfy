/** How a commit of the log (log.c) goes on, turn by turn. A turn is one call into the buffer cache;
    between two turns other processes read and release buffers. */
module Commit {
  import opened Blocks
  import opened BufferCache
  import opened LogImages
  import opened Reservation

  /** Where a process is in the body of a loop that copies a block between the log and its home, or
      (up to HaveLog, and Copied) in write_head, whose only buffer is the header. */
  datatype Spot = Begin | AwaitLog | HaveLog | AwaitHome | HaveBoth | Copied | HaveOne

  /** How far the process that commits has come: through write_log, write_head, install_trans and
      the write_head that clears the log. */
  datatype Stage =
    | Quiet
    | Starting
    | Logging(tail: nat, at: Spot)
    | Heading(at: Spot)
    | Installing(tail: nat, at: Spot)
    | Clearing(at: Spot)
    | Ending

  /** What a commit sets out to do. disk, view and trace are what was on the disk, in the cache's
      view, and in the history when it began; head is the image with the header written. Recovery at
      boot begins with such an image. */
  datatype Plan = Plan(boot: bool, disk: Image, view: Image, blocks: seq<nat>, head: Image, trace: seq<Image>)

  // ---------- How far a commit has come ----------

  /** Blocks copied so far. */
  function Count(tail: nat, at: Spot): nat { if at.Copied? || at.HaveOne? then tail + 1 else tail }

  /** The same stage, at another spot. */
  function At(stage: Stage, at: Spot): Stage {
    match stage
    case Logging(tail, _) => Logging(tail, at)
    case Heading(_) => Heading(at)
    case Installing(tail, _) => Installing(tail, at)
    case Clearing(_) => Clearing(at)
    case _ => stage
  }

  ghost predicate PlanOk(c: Plan, start: nat, size: nat) {
    && LogOk(c.head, start, size) && HeadBlocks(c.head[start]) == c.blocks && |c.head| <= 0x1_0000_0000
    && (!c.boot ==> Committable(c.disk, c.view, start, size, c.blocks) && c.blocks != []
                    && c.head == Headed(c.disk, c.view, start, size, c.blocks))
  }

  /** The images that lead up to the header, which recovery finds on the disk. */
  ghost function UpToHead(c: Plan, start: nat, size: nat): seq<Image>
    requires PlanOk(c, start, size)
  {
    if c.boot then [] else Logs(c.disk, c.view, start, c.blocks, |c.blocks|) + [c.head]
  }

  /** All the images of a commit, or of recovery. */
  ghost function AllImages(c: Plan, start: nat, size: nat): seq<Image>
    requires PlanOk(c, start, size)
  {
    if c.boot then RecoveryTrace(c.head, start, size) else CommitTrace(c.disk, c.view, start, size, c.blocks)
  }

  /** The disk, and the images it has gone through since the plan was made. */
  ghost predicate Reached(c: Plan, stage: Stage, disk: Image, trace: seq<Image>, start: nat, size: nat)
    requires PlanOk(c, start, size)
  {
    var n := |c.blocks|;
    match stage
    case Quiet => true
    case Starting => true
    case Logging(tail, at) =>
      var k := Count(tail, at);
      && !c.boot && k <= n && disk == LogFirst(c.disk, c.view, start, c.blocks, k)
      && trace == c.trace + Logs(c.disk, c.view, start, c.blocks, k)
    case Heading(at) =>
      && !c.boot
      && (at.Copied? ==> disk == c.head && trace == c.trace + UpToHead(c, start, size))
      && (!at.Copied? ==> disk == LogFirst(c.disk, c.view, start, c.blocks, n)
                          && trace == c.trace + Logs(c.disk, c.view, start, c.blocks, n))
    case Installing(tail, at) =>
      var k := Count(tail, at);
      && k <= n && disk == InstallFirst(c.head, start, c.blocks, k)
      && trace == c.trace + UpToHead(c, start, size) + Installs(c.head, start, c.blocks, k)
    case Clearing(at) =>
      && (at.Copied? ==> disk == Recovered(c.head, start, size) && trace == c.trace + AllImages(c, start, size))
      && (!at.Copied? ==> disk == InstallFirst(c.head, start, c.blocks, n)
                          && trace == c.trace + UpToHead(c, start, size) + Installs(c.head, start, c.blocks, n))
    case Ending => true
  }

  /** The last commit point is what recovery would make of the disk. */
  ghost predicate Aims(c: Plan, stage: Stage, last: Image, start: nat, size: nat)
    requires PlanOk(c, start, size)
  {
    if stage.Logging? || (stage.Heading? && !stage.at.Copied?) then SameHome(c.disk, last, start, size)
    else SameHome(Recovered(c.head, start, size), last, start, size) && (!c.boot ==> last == c.view)
  }

  /** The cache pins the blocks still to be installed, and shows throughout what is being committed. */
  ghost predicate Shows(c: Plan, stage: Stage, view: Image, dirty: set<nat>, lh: seq<nat>, start: nat, size: nat)
    requires PlanOk(c, start, size)
  {
    && (!c.boot ==> SameHome(view, c.view, start, size))
    && match stage
       case Quiet => true
       case Starting => true
       case Logging(tail, at) => lh == c.blocks && PinnedAs(lh, dirty)
       case Heading(at) => lh == c.blocks && PinnedAs(lh, dirty)
       case Installing(tail, at) =>
         lh == c.blocks && Count(tail, at) <= |lh| && if c.boot then dirty == {} else PinnedAs(lh[Count(tail, at)..], dirty)
       case Clearing(at) => lh == [] && dirty == {}
       case Ending => true
  }

  /** Outside the body of a commit: the log on disk is empty, and what is pinned is what is logged. */
  ghost predicate AtRest(disk: Image, dirty: set<nat>, lh: seq<nat>, start: nat, size: nat) {
    BlocksOk(disk, start, size, lh) && HeadN(disk[start]) == 0 && PinnedAs(lh, dirty)
  }

  predicate InBody(stage: Stage) { !stage.Quiet? && !stage.Starting? && !stage.Ending? }

  ghost predicate StageOk(c: Plan, stage: Stage, disk: Image, trace: seq<Image>, view: Image, dirty: set<nat>, lh: seq<nat>,
                          last: Image, start: nat, size: nat) {
    && start + size <= |disk| <= 0x1_0000_0000
    && match stage
       case Quiet => AtRest(disk, dirty, lh, start, size)
       case Starting => AtRest(disk, dirty, lh, start, size)
       case Ending => AtRest(disk, dirty, lh, start, size) && lh == []
       case _ =>
         && PlanOk(c, start, size) && Reached(c, stage, disk, trace, start, size) && Aims(c, stage, last, start, size)
         && Shows(c, stage, view, dirty, lh, start, size)
  }

  // ---------- What the process that commits has in hand ----------

  /** Process p holds buffer b, which is that of block bn. */
  ghost predicate Mine(bufs: seq<Buf>, b: nat, p: nat, bn: nat) {
    b < NBUF < |bufs| && p != 0 && bufs[b].holder == p && bufs[b].valid && Holds(bufs[b], ROOTDEV, bn)
  }

  ghost predicate Awaits(bufs: seq<Buf>, waiting: Waiting, b: nat, p: nat, bn: nat) {
    b < NBUF < |bufs| && p in waiting && waiting[p] == b && Holds(bufs[b], ROOTDEV, bn)
  }

  ghost predicate HandsAt(at: Spot, log: nat, home: nat, logging: bool, bufs: seq<Buf>, waiting: Waiting, p: nat,
                          lbuf: nat, dbuf: nat) {
    match at
    case Begin => p !in waiting
    case AwaitLog => Awaits(bufs, waiting, lbuf, p, log)
    case HaveLog => p !in waiting && Mine(bufs, lbuf, p, log)
    case AwaitHome => Mine(bufs, lbuf, p, log) && Awaits(bufs, waiting, dbuf, p, home)
    case HaveBoth => p !in waiting && Mine(bufs, lbuf, p, log) && Mine(bufs, dbuf, p, home)
    case Copied => p !in waiting && Mine(bufs, lbuf, p, log) && Mine(bufs, dbuf, p, home)
    case HaveOne => p !in waiting && if logging then Mine(bufs, lbuf, p, log) else Mine(bufs, dbuf, p, home)
  }

  ghost predicate HandsOk(stage: Stage, bufs: seq<Buf>, waiting: Waiting, p: nat, lbuf: nat, dbuf: nat, start: nat, lh: seq<nat>) {
    match stage
    case Quiet => true
    case Starting => p !in waiting
    case Ending => p !in waiting
    case Heading(at) => HeadHands(at, bufs, waiting, p, lbuf, start)
    case Clearing(at) => HeadHands(at, bufs, waiting, p, lbuf, start)
    case Logging(tail, at) =>
      if tail < |lh| then HandsAt(at, start + tail + 1, lh[tail], true, bufs, waiting, p, lbuf, dbuf)
      else tail == |lh| && at.Begin? && p !in waiting
    case Installing(tail, at) =>
      if tail < |lh| then HandsAt(at, start + tail + 1, lh[tail], false, bufs, waiting, p, lbuf, dbuf)
      else tail == |lh| && at.Begin? && p !in waiting
  }

  ghost predicate HeadHands(at: Spot, bufs: seq<Buf>, waiting: Waiting, p: nat, lbuf: nat, start: nat) {
    match at
    case Begin => p !in waiting
    case AwaitLog => Awaits(bufs, waiting, lbuf, p, start)
    case HaveLog => p !in waiting && Mine(bufs, lbuf, p, start)
    case Copied => p !in waiting && Mine(bufs, lbuf, p, start)
    case _ => false
  }

  /** Another process's step has left everything process p holds or waits for. */
  ghost predicate LeavesTo(p: nat, bufs: seq<Buf>, waiting: Waiting, bufs': seq<Buf>, waiting': Waiting) {
    && |bufs'| == |bufs| && (p in waiting' <==> p in waiting) && (p in waiting ==> waiting'[p] == waiting[p])
    && (forall j :: 0 <= j < NBUF < |bufs| && bufs[j].holder == p && p != 0 ==>
          bufs'[j].holder == p && bufs'[j].valid == bufs[j].valid && Holds(bufs'[j], bufs[j].dev, bufs[j].blockno))
    && (p in waiting && waiting[p] < NBUF < |bufs| ==> Holds(bufs'[waiting[p]], bufs[waiting[p]].dev, bufs[waiting[p]].blockno))
  }

  lemma HandsKept(stage: Stage, bufs: seq<Buf>, waiting: Waiting, bufs': seq<Buf>, waiting': Waiting, p: nat,
                  lbuf: nat, dbuf: nat, start: nat, lh: seq<nat>)
    requires HandsOk(stage, bufs, waiting, p, lbuf, dbuf, start, lh)
    requires stage.Quiet? || LeavesTo(p, bufs, waiting, bufs', waiting')
    ensures HandsOk(stage, bufs', waiting', p, lbuf, dbuf, start, lh)
  {
  }

  /** Outside the body of commit, nothing depends on what that process holds. */
  lemma HandsAtRest(stage: Stage, bufs: seq<Buf>, waiting: Waiting, p: nat, lbuf: nat, dbuf: nat, start: nat, lh: seq<nat>)
    requires stage.Quiet?
    ensures HandsOk(stage, bufs, waiting, p, lbuf, dbuf, start, lh)
  {
  }

  lemma GotLeaves(bufs: seq<Buf>, waiting: Waiting, ring: seq<nat>, dev: nat, bno: nat, b: nat, bufs': seq<Buf>,
                  pid: nat, p: nat)
    requires |bufs| == NBUF + 1 && Counted(bufs, waiting) && Got(bufs, ring, dev, bno, b, bufs') && pid !in waiting && pid != p
    ensures LeavesTo(p, bufs, waiting, bufs', waiting[pid := b])
  {
    if p in waiting {
      WaitedFor(bufs, waiting, p);
    }
  }

  lemma AcquiredLeaves(bufs: seq<Buf>, waiting: Waiting, b: nat, bufs': seq<Buf>, pid: nat, p: nat)
    requires |bufs'| == |bufs| == NBUF + 1 && b < NBUF && bufs[b].holder == 0 && pid in waiting && pid != p
    requires bufs' == bufs[b := bufs'[b]] && Holds(bufs'[b], bufs[b].dev, bufs[b].blockno)
    ensures LeavesTo(p, bufs, waiting, bufs', waiting - {pid})
  {
  }

  lemma ReleasedLeaves(bufs: seq<Buf>, waiting: Waiting, b: nat, bufs': seq<Buf>, pid: nat, p: nat)
    requires |bufs| == NBUF + 1 && b < NBUF && bufs[b].holder == pid && pid != p
    requires SameButLinks(bufs[b := Released(bufs[b])], bufs')
    ensures LeavesTo(p, bufs, waiting, bufs', waiting)
  {
  }

  lemma UnrefLeaves(bufs: seq<Buf>, waiting: Waiting, b: nat, bufs': seq<Buf>, p: nat)
    requires |bufs| == NBUF + 1 && b < NBUF && SameButLinks(bufs[b := Unreferenced(bufs[b])], bufs')
    ensures LeavesTo(p, bufs, waiting, bufs', waiting)
  {
  }

  // A buffer that process p holds stays its own while p fetches, takes, writes or releases another.

  lemma MineGot(bufs: seq<Buf>, waiting: Waiting, ring: seq<nat>, bno: nat, b: nat, bufs': seq<Buf>, p: nat)
    requires |bufs| == NBUF + 1 && Counted(bufs, waiting) && Got(bufs, ring, ROOTDEV, bno, b, bufs')
    ensures Awaits(bufs', waiting[p := b], b, p, bno) && forall l, x :: Mine(bufs, l, p, x) ==> Mine(bufs', l, p, x)
  {
  }

  lemma MineTaken(bufs: seq<Buf>, waiting: Waiting, disk: Image, b: nat, p: nat, bno: nat)
    requires Awaits(bufs, waiting, b, p, bno) && bufs[b].holder == 0 && bno < |disk| && p != 0
    ensures var bufs' := bufs[b := Acquired(bufs[b], p, disk)];
      Mine(bufs', b, p, bno) && forall l, x :: Mine(bufs, l, p, x) ==> Mine(bufs', l, p, x)
  {
  }

  lemma MineReleased(bufs: seq<Buf>, b: nat, bufs': seq<Buf>, p: nat)
    requires b < NBUF < |bufs| && SameButLinks(bufs[b := Released(bufs[b])], bufs')
    ensures forall l, x :: Mine(bufs, l, p, x) && l != b ==> Mine(bufs', l, p, x)
  {
  }

  /** The block that the buffer fetched or taken next is for. */
  function Next(stage: Stage, start: nat, lh: seq<nat>): nat {
    match stage
    case Logging(tail, at) => if tail < |lh| && at in {HaveLog, AwaitHome} then lh[tail] else start + tail + 1
    case Installing(tail, at) => if tail < |lh| && at in {HaveLog, AwaitHome} then lh[tail] else start + tail + 1
    case _ => start
  }

  predicate Fetching(stage: Stage, lh: seq<nat>) {
    match stage
    case Logging(tail, at) => tail < |lh| && at in {Begin, HaveLog}
    case Installing(tail, at) => tail < |lh| && at in {Begin, HaveLog}
    case Heading(at) => at.Begin?
    case Clearing(at) => at.Begin?
    case _ => false
  }

  predicate Taking(stage: Stage, lh: seq<nat>) {
    match stage
    case Logging(tail, at) => tail < |lh| && at in {AwaitLog, AwaitHome}
    case Installing(tail, at) => tail < |lh| && at in {AwaitLog, AwaitHome}
    case Heading(at) => at.AwaitLog?
    case Clearing(at) => at.AwaitLog?
    case _ => false
  }

  /** The spot after a bget, or after an acquiresleep. */
  function NextSpot(at: Spot): Spot {
    match at
    case Begin => AwaitLog
    case AwaitLog => HaveLog
    case HaveLog => AwaitHome
    case AwaitHome => HaveBoth
    case _ => at
  }

  function Onward(stage: Stage): Stage {
    match stage
    case Logging(tail, at) => Logging(tail, NextSpot(at))
    case Heading(at) => Heading(NextSpot(at))
    case Installing(tail, at) => Installing(tail, NextSpot(at))
    case Clearing(at) => Clearing(NextSpot(at))
    case _ => stage
  }

  /** Fetching or taking the second of the two buffers. */
  predicate Second(stage: Stage) {
    match stage
    case Logging(_, at) => at in {HaveLog, AwaitHome}
    case Installing(_, at) => at in {HaveLog, AwaitHome}
    case _ => false
  }

  /** The buffer being fetched or taken. */
  function Hand(stage: Stage, lbuf: nat, dbuf: nat): nat { if Second(stage) then dbuf else lbuf }

  lemma HandsFetching(stage: Stage, bufs: seq<Buf>, waiting: Waiting, p: nat, lbuf: nat, dbuf: nat, start: nat, lh: seq<nat>)
    requires HandsOk(stage, bufs, waiting, p, lbuf, dbuf, start, lh) && Fetching(stage, lh)
    ensures p !in waiting
  {
  }

  lemma HandsFetched(stage: Stage, bufs: seq<Buf>, waiting: Waiting, p: nat, lbuf: nat, dbuf: nat, start: nat, lh: seq<nat>,
                     ring: seq<nat>, b: nat, bufs': seq<Buf>)
    requires HandsOk(stage, bufs, waiting, p, lbuf, dbuf, start, lh) && Fetching(stage, lh)
    requires |bufs| == NBUF + 1 && Counted(bufs, waiting) && Got(bufs, ring, ROOTDEV, Next(stage, start, lh), b, bufs')
    ensures var stage' := Onward(stage);
      if Second(stage) then HandsOk(stage', bufs', waiting[p := b], p, lbuf, b, start, lh)
      else HandsOk(stage', bufs', waiting[p := b], p, b, dbuf, start, lh)
  {
    MineGot(bufs, waiting, ring, Next(stage, start, lh), b, bufs', p);
    hide Got, Counted, Mine, Awaits;
  }

  lemma HandsTaking(stage: Stage, bufs: seq<Buf>, waiting: Waiting, p: nat, lbuf: nat, dbuf: nat, start: nat, lh: seq<nat>)
    requires HandsOk(stage, bufs, waiting, p, lbuf, dbuf, start, lh) && Taking(stage, lh)
    ensures Awaits(bufs, waiting, Hand(stage, lbuf, dbuf), p, Next(stage, start, lh))
  {
  }

  lemma HandsTaken(stage: Stage, bufs: seq<Buf>, waiting: Waiting, p: nat, lbuf: nat, dbuf: nat, start: nat, lh: seq<nat>, disk: Image)
    requires HandsOk(stage, bufs, waiting, p, lbuf, dbuf, start, lh) && Taking(stage, lh)
    requires p != 0 && Next(stage, start, lh) < |disk|
    requires var b := Hand(stage, lbuf, dbuf); b < NBUF < |bufs| && bufs[b].holder == 0
    ensures var b := Hand(stage, lbuf, dbuf);
      HandsOk(Onward(stage), bufs[b := Acquired(bufs[b], p, disk)], waiting - {p}, p, lbuf, dbuf, start, lh)
  {
    HandsTaking(stage, bufs, waiting, p, lbuf, dbuf, start, lh);
    MineTaken(bufs, waiting, disk, Hand(stage, lbuf, dbuf), p, Next(stage, start, lh));
    hide Mine, Awaits, Acquired;
  }

  /** write_log releases the home block first, install_trans the block of the log. */
  predicate Dropping(stage: Stage, lh: seq<nat>) {
    match stage
    case Logging(tail, at) => tail < |lh| && at in {Copied, HaveOne}
    case Installing(tail, at) => tail < |lh| && at in {Copied, HaveOne}
    case Heading(at) => at.Copied?
    case Clearing(at) => at.Copied?
    case _ => false
  }

  function Dropped(stage: Stage, lbuf: nat, dbuf: nat): nat {
    match stage
    case Logging(_, at) => if at.Copied? then dbuf else lbuf
    case Installing(_, at) => if at.Copied? then lbuf else dbuf
    case _ => lbuf
  }

  function AfterDrop(stage: Stage): Stage {
    match stage
    case Logging(tail, at) => if at.Copied? then Logging(tail, HaveOne) else Logging(tail + 1, Begin)
    case Installing(tail, at) => if at.Copied? then Installing(tail, HaveOne) else Installing(tail + 1, Begin)
    case Heading(_) => Installing(0, Begin)
    case _ => Ending
  }

  lemma HandsDropping(stage: Stage, bufs: seq<Buf>, waiting: Waiting, p: nat, lbuf: nat, dbuf: nat, start: nat, lh: seq<nat>)
    requires HandsOk(stage, bufs, waiting, p, lbuf, dbuf, start, lh) && Dropping(stage, lh)
    ensures var b := Dropped(stage, lbuf, dbuf); p != 0 && b < NBUF < |bufs| && bufs[b].holder == p
  {
  }

  lemma HandsDropped(stage: Stage, bufs: seq<Buf>, waiting: Waiting, p: nat, lbuf: nat, dbuf: nat, start: nat, lh: seq<nat>,
                     bufs': seq<Buf>, size: nat)
    requires HandsOk(stage, bufs, waiting, p, lbuf, dbuf, start, lh) && Dropping(stage, lh)
    requires stage.Logging? || stage.Installing? ==> !InLog(start, size, lh[stage.tail]) && stage.tail + 1 < size
    requires var b := Dropped(stage, lbuf, dbuf); b < NBUF < |bufs| && SameButLinks(bufs[b := Released(bufs[b])], bufs')
    ensures HandsOk(AfterDrop(stage), bufs', waiting, p, lbuf, dbuf, start, lh)
  {
    MineReleased(bufs, Dropped(stage, lbuf, dbuf), bufs', p);
    assert stage.Logging? || stage.Installing? ==> InLog(start, size, start + stage.tail + 1);
  }

  /** What is to be written has been read, and the process holds the buffers. */
  predicate Writing(stage: Stage, lh: seq<nat>) {
    match stage
    case Logging(tail, at) => tail < |lh| && at.HaveBoth?
    case Installing(tail, at) => tail < |lh| && at.HaveBoth?
    case Heading(at) => at.HaveLog?
    case Clearing(at) => at.HaveLog?
    case _ => false
  }

  lemma HandsWriting(stage: Stage, bufs: seq<Buf>, waiting: Waiting, p: nat, lbuf: nat, dbuf: nat, start: nat, lh: seq<nat>)
    requires HandsOk(stage, bufs, waiting, p, lbuf, dbuf, start, lh) && Writing(stage, lh)
    ensures stage.Logging? || stage.Installing? ==>
              Mine(bufs, lbuf, p, start + stage.tail + 1) && Mine(bufs, dbuf, p, lh[stage.tail])
    ensures stage.Heading? || stage.Clearing? ==> Mine(bufs, lbuf, p, start)
  {
  }

  lemma HandsWritten(stage: Stage, bufs: seq<Buf>, waiting: Waiting, p: nat, lbuf: nat, dbuf: nat, start: nat, lh: seq<nat>,
                     b: nat, nb: Buf)
    requires HandsOk(stage, bufs, waiting, p, lbuf, dbuf, start, lh) && Writing(stage, lh) && b < NBUF < |bufs|
    requires nb == bufs[b].(data := nb.data, dirty := nb.dirty)
    ensures HandsOk(At(stage, Copied), bufs[b := nb], waiting, p, lbuf, dbuf, start, lh)
  {
    assert forall l, x :: Mine(bufs, l, p, x) ==> Mine(bufs[b := nb], l, p, x);
  }

  lemma StillInside(stage: Stage, lh: seq<nat>)
    requires InBody(stage)
    ensures InBody(Onward(stage)) && InBody(At(stage, Copied))
    ensures var a := AfterDrop(stage); !a.Quiet? && !a.Starting?
    ensures Writing(stage, lh) && stage.Heading? <==> stage == Heading(HaveLog)
    ensures stage == Heading(HaveLog) ==> !Fetching(stage, lh) && !Taking(stage, lh)
    ensures forall s: Stage {:trigger InBody(s)} :: InBody(s) ==> !s.Quiet? && !s.Starting?
  {
  }

  lemma InsideOrNot(stage: Stage)
    ensures InBody(stage) <==> !stage.Quiet? && !stage.Starting? && !stage.Ending?
  {
  }

  lemma OnwardTwice(stage: Stage, lh: seq<nat>)
    requires Fetching(stage, lh)
    ensures var next := Onward(stage); Taking(next, lh) && (Second(next) <==> Second(stage))
    ensures forall l, d {:trigger Hand(stage, l, d)} :: Hand(Onward(stage), l, d) == Hand(stage, l, d)
    ensures InBody(Onward(stage))
  {
  }

  lemma HandsBegin(stage: Stage, bufs: seq<Buf>, waiting: Waiting, p: nat, lbuf: nat, dbuf: nat, start: nat, lh: seq<nat>)
    requires stage == Installing(0, Begin) && waiting == map[]
    ensures HandsOk(stage, bufs, waiting, p, lbuf, dbuf, start, lh)
  {
  }

  lemma OnlyHeads(stage: Stage, lh: seq<nat>)
    requires Writing(stage, lh) && !stage.Logging? && !stage.Installing?
    ensures stage.Heading? || stage.Clearing?
  {
  }

  lemma HandsElse(stage: Stage, bufs: seq<Buf>, waiting: Waiting, p: nat, lbuf: nat, dbuf: nat, start: nat, lh: seq<nat>)
    requires HandsOk(stage, bufs, waiting, p, lbuf, dbuf, start, lh) && InBody(stage)
    requires !Fetching(stage, lh) && !Taking(stage, lh) && !Writing(stage, lh) && !Dropping(stage, lh)
    ensures stage == Logging(|lh|, Begin) || stage == Installing(|lh|, Begin)
  {
  }

  // ---------- A process alone ----------

  /** Only the buffers H are referenced, each once, and only process p may wait. */
  ghost predicate Alone(bufs: seq<Buf>, waiting: Waiting, p: nat, H: set<nat>) {
    && (forall j :: 0 <= j < NBUF < |bufs| ==> bufs[j].refcnt == if j in H then 1 else 0)
    && (forall q :: q in waiting ==> q == p && waiting[q] in H)
  }

  /** None of these buffers is that of block bno. */
  ghost predicate Elsewhere(bufs: seq<Buf>, H: set<nat>, bno: nat) {
    forall j :: j in H && j < NBUF < |bufs| ==> !Holds(bufs[j], ROOTDEV, bno)
  }

  lemma AloneFinds(bufs: seq<Buf>, disk: Image, waiting: Waiting, p: nat, H: set<nat>)
    requires Coherent(bufs, disk) && Alone(bufs, waiting, p, H) && Dirty(bufs) == {} && |H| < NBUF
    ensures !NoneUnused(bufs)
  {
    UnusedExists(bufs, disk, H);
  }

  lemma AloneGot(bufs: seq<Buf>, waiting: Waiting, ring: seq<nat>, bno: nat, b: nat, bufs': seq<Buf>, p: nat, H: set<nat>)
    requires |bufs| == NBUF + 1 && Alone(bufs, waiting, p, H) && p !in waiting && Got(bufs, ring, ROOTDEV, bno, b, bufs')
    requires Elsewhere(bufs, H, bno)
    ensures b !in H && Alone(bufs', waiting[p := b], p, H + {b})
  {
  }

  /** Alone, a process does not wait for a lock. */
  lemma AloneTakes(bufs: seq<Buf>, waiting: Waiting, p: nat, b: nat, H: set<nat>, bno: nat)
    requires |bufs| == NBUF + 1 && Alone(bufs, waiting, p, H) && Counted(bufs, waiting) && Awaits(bufs, waiting, b, p, bno)
    ensures bufs[b].holder == 0
  {
    assert p in Waiters(waiting, b);
  }

  lemma NobodyWaits(bufs: seq<Buf>, waiting: Waiting, p: nat)
    requires Alone(bufs, waiting, p, {})
    ensures waiting == map[]
  {
  }

  lemma AloneTaken(bufs: seq<Buf>, waiting: Waiting, p: nat, b: nat, H: set<nat>, disk: Image)
    requires |bufs| == NBUF + 1 && Alone(bufs, waiting, p, H) && b < NBUF
    ensures Alone(bufs[b := Acquired(bufs[b], p, disk)], waiting - {p}, p, H) && waiting - {p} == map[]
  {
  }

  ghost predicate SameCounts(a: seq<Buf>, b: seq<Buf>) {
    |a| == |b| && forall j :: 0 <= j < |a| ==> b[j].refcnt == a[j].refcnt
  }

  lemma AloneSame(bufs: seq<Buf>, waiting: Waiting, bufs': seq<Buf>, p: nat, H: set<nat>)
    requires Alone(bufs, waiting, p, H) && SameCounts(bufs, bufs')
    ensures Alone(bufs', waiting, p, H)
  {
  }

  lemma AloneDropped(bufs: seq<Buf>, waiting: Waiting, p: nat, b: nat, H: set<nat>, bufs': seq<Buf>)
    requires |bufs| == NBUF + 1 && Alone(bufs, map[], p, H) && b in H && b < NBUF && waiting == map[]
    requires SameButLinks(bufs[b := Unreferenced(Released(bufs[b]))], bufs')
    ensures Alone(bufs', waiting, p, H - {b})
  {
  }

  // ---------- Pinned blocks ----------

  /** The pinned blocks are those logged, each logged once. */
  ghost predicate PinnedAs(lh: seq<nat>, dirty: set<nat>) {
    && (forall i, j :: 0 <= i < j < |lh| ==> lh[i] != lh[j])
    && (forall x: nat :: x in dirty <==> x in lh)
  }

  lemma {:induction false} PinnedSize(lh: seq<nat>, dirty: set<nat>)
    requires forall x: nat :: x in dirty ==> x in lh
    ensures |dirty| <= |lh|
    decreases |lh|
  {
    if lh != [] {
      PinnedSize(lh[1..], dirty - {lh[0]});
    }
  }

  lemma PinnedTail(lh: seq<nat>, dirty: set<nat>)
    requires PinnedAs(lh, dirty)
    ensures |dirty| <= |lh| && forall x :: x in dirty ==> x in lh
    ensures lh == [] ==> dirty == {}
    ensures lh != [] ==> lh[0] in dirty && PinnedAs(lh[1..], dirty - {lh[0]})
  {
    PinnedSize(lh, dirty);
  }

  lemma PinnedPush(lh: seq<nat>, dirty: set<nat>, bn: nat)
    requires PinnedAs(lh, dirty)
    ensures PinnedAs(if bn in lh then lh else lh + [bn], dirty + {bn})
  {
  }

  /** Between commits the cache shows the disk, but for the logged blocks. */
  lemma ViewOutsideLog(bufs: seq<Buf>, disk: Image, lh: seq<nat>, start: nat, size: nat)
    requires Coherent(bufs, disk) && Agrees(bufs, disk, {}) && AtRest(disk, Dirty(bufs), lh, start, size)
    requires |disk| <= 0x1_0000_0000
    ensures Committable(disk, View(bufs, disk), start, size, lh)
  {
    forall x: nat | x < |disk| && x !in lh ensures View(bufs, disk)[x] == disk[x] {
      CleanView(bufs, disk, x);
    }
  }

  /** log_write, appended or absorbed. */
  lemma BufferPinned(c: Plan, bufs: seq<Buf>, disk: Image, trace: seq<Image>, lh: seq<nat>, writers: set<nat>, last: Image,
                     start: nat, size: nat, b: nat)
    requires Coherent(bufs, disk) && Agrees(bufs, disk, writers) && b < NBUF && bufs[b].valid
    requires StageOk(c, Quiet, disk, trace, View(bufs, disk), Dirty(bufs), lh, last, start, size)
    requires !InLog(start, size, bufs[b].blockno) && !Refuses(|lh|, size)
    ensures var bn := bufs[b].blockno;
      && StageOk(c, Quiet, disk, trace, View(bufs, disk), Dirty(bufs) + {bn}, if bn in lh then lh else lh + [bn], last, start, size)
      && Agrees(bufs[b := bufs[b].(dirty := true)], disk, writers)
  {
    UpdateAgrees(bufs, disk, writers, b, bufs[b].(dirty := true), disk);
    assert bufs[b].blockno < |disk|;
    hide View, Dirty, Agrees;
    PinnedPush(lh, Dirty(bufs), bufs[b].blockno);
  }

  // ---------- The turns ----------

  /** A turn that writes nothing, and copies nothing, leaves the stage what it was. */
  lemma SpotMoved(c: Plan, stage: Stage, stage': Stage, disk: Image, trace: seq<Image>, view: Image, dirty: set<nat>,
                  lh: seq<nat>, last: Image, start: nat, size: nat)
    requires StageOk(c, stage, disk, trace, view, dirty, lh, last, start, size) && SameStage(stage, stage')
    ensures StageOk(c, stage', disk, trace, view, dirty, lh, last, start, size)
  {
    hide PlanOk;
  }

  predicate SameStage(a: Stage, b: Stage) {
    match (a, b)
    case (Logging(i, x), Logging(j, y)) => Count(i, x) == Count(j, y)
    case (Installing(i, x), Installing(j, y)) => Count(i, x) == Count(j, y)
    case (Heading(x), Heading(y)) => x.Copied? == y.Copied?
    case (Clearing(x), Clearing(y)) => x.Copied? == y.Copied?
    case _ => a == b
  }

  lemma Parts(c: Plan, stage: Stage, disk: Image, trace: seq<Image>, view: Image, dirty: set<nat>, lh: seq<nat>,
              last: Image, start: nat, size: nat)
    requires StageOk(c, stage, disk, trace, view, dirty, lh, last, start, size)
    requires InBody(stage)
    ensures start + size <= |disk| <= 0x1_0000_0000 && PlanOk(c, start, size) && Reached(c, stage, disk, trace, start, size)
    ensures Aims(c, stage, last, start, size) && Shows(c, stage, view, dirty, lh, start, size)
  {
  }

  lemma Whole(c: Plan, stage: Stage, disk: Image, trace: seq<Image>, view: Image, dirty: set<nat>, lh: seq<nat>,
              last: Image, start: nat, size: nat)
    requires start + size <= |disk| <= 0x1_0000_0000 && PlanOk(c, start, size) && Reached(c, stage, disk, trace, start, size)
    requires Aims(c, stage, last, start, size) && Shows(c, stage, view, dirty, lh, start, size)
    requires InBody(stage)
    ensures StageOk(c, stage, disk, trace, view, dirty, lh, last, start, size)
  {
  }

  lemma HomeSame(a: Image, start: nat, size: nat)
    ensures SameHome(a, a, start, size)
  {
  }

  lemma Chain(a: Image, b: Image, c: Image, start: nat, size: nat)
    requires SameHome(a, b, start, size) && SameHome(b, c, start, size)
    ensures SameHome(a, c, start, size)
  {
  }

  /** A block of the log area is no home block. */
  lemma LogAside(view: Image, other: Image, b: nat, x: Block, start: nat, size: nat)
    requires SameHome(view, other, start, size) && b < |view| && InLog(start, size, b)
    ensures SameHome(view[b := x], other, start, size)
  {
  }

  lemma Begins(c: Plan, disk: Image, trace: seq<Image>, view: Image, dirty: set<nat>, lh: seq<nat>, last: Image,
               start: nat, size: nat)
    requires AtRest(disk, dirty, lh, start, size) && Committable(disk, view, start, size, lh) && lh != []
    requires LogOk(disk, start, size) && SameHome(Recovered(disk, start, size), last, start, size)
    requires c == Plan(false, disk, view, lh, Headed(disk, view, start, size, lh), trace)
    ensures StageOk(c, Logging(0, Begin), disk, trace, view, dirty, lh, last, start, size)
  {
    HeadedRecovers(disk, view, start, size, lh);
    EmptyLog(disk, start, size);
    assert trace + [] == trace;
  }

  lemma BootBegins(c: Plan, lh: seq<nat>, view: Image, last: Image, start: nat, size: nat)
    requires LogOk(c.head, start, size) && |c.head| <= 0x1_0000_0000 && lh == HeadBlocks(c.head[start]) == c.blocks
    requires c.boot && c.disk == c.head && c.trace == [c.head] && last == Recovered(c.head, start, size)
    ensures StageOk(c, Installing(0, Begin), c.head, c.trace, view, {}, lh, last, start, size)
  {
    assert c.trace + [] + [] == c.trace;
  }

  lemma BootExplained(d: Image, epoch: seq<nat>, commits: seq<Image>, start: nat, size: nat)
    requires LogOk(d, start, size) && epoch == [0] && commits == [Recovered(d, start, size)]
    ensures Explains([d], epoch, commits, start, size)
  {
    assert RecoversTo(d, 0, commits, start, size);
  }

  /** What the loops of write_log and install_trans rely on. */
  lemma CopyBlocks(c: Plan, stage: Stage, disk: Image, trace: seq<Image>, view: Image, dirty: set<nat>, lh: seq<nat>,
                   last: Image, start: nat, size: nat)
    requires StageOk(c, stage, disk, trace, view, dirty, lh, last, start, size)
    requires (stage.Logging? || stage.Installing?) && stage.tail < |lh|
    ensures var log, home := start + stage.tail + 1, lh[stage.tail];
      && log < |disk| && home < |disk| && log != home && log !in dirty && InLog(start, size, log) && !InLog(start, size, home)
      && stage.tail + 1 < size
  {
    var log := start + stage.tail + 1;
    assert InLog(start, size, log);
  }

  /** The block to be fetched is there. */
  lemma NextThere(c: Plan, stage: Stage, disk: Image, trace: seq<Image>, view: Image, dirty: set<nat>, lh: seq<nat>,
                  last: Image, start: nat, size: nat)
    requires StageOk(c, stage, disk, trace, view, dirty, lh, last, start, size) && (Fetching(stage, lh) || Taking(stage, lh))
    ensures Next(stage, start, lh) < |disk|
  {
    if stage.Heading? || stage.Clearing? {
      HeadBlock(c, stage, disk, trace, view, dirty, lh, last, start, size);
    } else {
      CopyBlocks(c, stage, disk, trace, view, dirty, lh, last, start, size);
    }
  }

  /** What write_head relies on. */
  lemma HeadBlock(c: Plan, stage: Stage, disk: Image, trace: seq<Image>, view: Image, dirty: set<nat>, lh: seq<nat>,
                  last: Image, start: nat, size: nat)
    requires StageOk(c, stage, disk, trace, view, dirty, lh, last, start, size)
    requires (stage.Heading? || stage.Clearing?)
    ensures start < |disk| <= 0x1_0000_0000 && InLog(start, size, start) && start !in dirty && BlocksOk(disk, start, size, lh)
  {
    Parts(c, stage, disk, trace, view, dirty, lh, last, start, size);
    assert InLog(start, size, start);
  }

  /** A block of the log is written: bwrite(to) of write_log. */
  lemma LogWritten(c: Plan, tail: nat, disk: Image, trace: seq<Image>, view: Image, dirty: set<nat>, lh: seq<nat>,
                   last: Image, start: nat, size: nat, x: Block)
    requires StageOk(c, Logging(tail, HaveBoth), disk, trace, view, dirty, lh, last, start, size)
    requires tail < |lh| && lh[tail] < |view| && start + tail + 1 < |disk| == |view| && x == view[lh[tail]]
    ensures var disk' := disk[start + tail + 1 := x];
      && StageOk(c, Logging(tail, Copied), disk', trace + [disk'], view[start + tail + 1 := x], dirty, lh, last, start, size)
      && SameHome(view[start + tail + 1 := x], view, start, size)
      && LogOk(disk', start, size) && SameHome(Recovered(disk', start, size), last, start, size)
  {
    var stage, stage', disk', log := Logging(tail, HaveBoth), Logging(tail, Copied), disk[start + tail + 1 := x], start + tail + 1;
    CopyBlocks(c, stage, disk, trace, view, dirty, lh, last, start, size);
    Parts(c, stage, disk, trace, view, dirty, lh, last, start, size);
    hide StageOk, PlanOk, Reached, Recovered, LogOk, PinnedAs;
    assert x == c.view[lh[tail]];
    LogReached(c, tail, disk, trace, lh, start, size, x);
    LogAside(view, c.view, log, x, start, size);
    LogAside(view, view, log, x, start, size);
    Chain(Recovered(disk', start, size), c.disk, last, start, size);
    Whole(c, stage', disk', trace + [disk'], view[log := x], dirty, lh, last, start, size);
  }

  lemma LogReached(c: Plan, tail: nat, disk: Image, trace: seq<Image>, lh: seq<nat>, start: nat, size: nat, x: Block)
    requires PlanOk(c, start, size) && Reached(c, Logging(tail, HaveBoth), disk, trace, start, size) && lh == c.blocks
    requires tail < |lh| && lh[tail] < |c.view| && start + tail + 1 < |disk| && x == c.view[lh[tail]]
    ensures var disk' := disk[start + tail + 1 := x];
      && Reached(c, Logging(tail, Copied), disk', trace + [disk'], start, size)
      && LogOk(disk', start, size) && SameHome(Recovered(disk', start, size), c.disk, start, size)
  {
    LogStep(c.disk, c.view, start, size, lh, tail);
    LoggedRecovers(c.disk, c.view, start, size, lh, tail + 1);
    hide LogFirst, Logs, PlanOk, Recovered, LogOk;
    var disk', l := disk[start + tail + 1 := x], Logs(c.disk, c.view, start, lh, tail);
    assert c.trace + l + [disk'] == c.trace + (l + [disk']);
  }

  lemma LogAllWritten(c: Plan, disk: Image, trace: seq<Image>, view: Image, dirty: set<nat>, lh: seq<nat>,
                      last: Image, start: nat, size: nat)
    requires StageOk(c, Logging(|lh|, Begin), disk, trace, view, dirty, lh, last, start, size)
    ensures StageOk(c, Heading(Begin), disk, trace, view, dirty, lh, last, start, size)
  {
    hide PlanOk;
  }

  /** The header is written: from here on recovery finds the new blocks. */
  lemma HeadWritten(c: Plan, disk: Image, trace: seq<Image>, view: Image, dirty: set<nat>, lh: seq<nat>,
                    last: Image, start: nat, size: nat)
    requires StageOk(c, Heading(HaveLog), disk, trace, view, dirty, lh, last, start, size)
    requires start < |disk| == |view| && BlocksOk(disk, start, size, lh)
    ensures var h := PutHead(disk[start], lh, |lh|); var disk' := disk[start := h];
      && StageOk(c, Heading(Copied), disk', trace + [disk'], view[start := h], dirty, lh, c.view, start, size)
      && SameHome(view[start := h], view, start, size)
      && LogOk(disk', start, size) && SameHome(Recovered(disk', start, size), c.view, start, size)
  {
    var stage, stage', h := Heading(HaveLog), Heading(Copied), PutHead(disk[start], lh, |lh|);
    Parts(c, stage, disk, trace, view, dirty, lh, last, start, size);
    hide StageOk, Recovered, PutHead, PinnedAs;
    var disk' := disk[start := h];
    HeadReached(c, disk, trace, lh, start, size);
    hide PlanOk, LogOk, Reached;
    LogAside(view, c.view, start, h, start, size);
    LogAside(view, view, start, h, start, size);
    Whole(c, stage', disk', trace + [disk'], view[start := h], dirty, lh, c.view, start, size);
  }

  lemma HeadReached(c: Plan, disk: Image, trace: seq<Image>, lh: seq<nat>, start: nat, size: nat)
    requires PlanOk(c, start, size) && Reached(c, Heading(HaveLog), disk, trace, start, size) && lh == c.blocks
    requires start < |disk| && BlocksOk(disk, start, size, lh) && |disk| <= 0x1_0000_0000
    ensures var disk' := disk[start := PutHead(disk[start], lh, |lh|)];
      && Reached(c, Heading(Copied), disk', trace + [disk'], start, size) && disk' == c.head
      && LogOk(disk', start, size) && SameHome(Recovered(disk', start, size), c.view, start, size)
  {
    HeadedRecovers(c.disk, c.view, start, size, lh);
    hide LogFirst, Logs, Recovered, LogOk, PutHead;
    var disk', l := disk[start := PutHead(disk[start], lh, |lh|)], Logs(c.disk, c.view, start, lh, |lh|);
    assert c.trace + l + [disk'] == c.trace + (l + [disk']);
  }

  lemma InstallStarts(c: Plan, disk: Image, trace: seq<Image>, view: Image, dirty: set<nat>, lh: seq<nat>,
                      last: Image, start: nat, size: nat)
    requires StageOk(c, Heading(Copied), disk, trace, view, dirty, lh, last, start, size)
    ensures StageOk(c, Installing(0, Begin), disk, trace, view, dirty, lh, last, start, size)
  {
    hide PlanOk;
    assert lh[0..] == lh;
    assert trace + [] == trace;
  }

  /** A home block is written: bwrite(dbuf) of install_trans. */
  lemma HomeWritten(c: Plan, tail: nat, disk: Image, trace: seq<Image>, view: Image, dirty: set<nat>, lh: seq<nat>,
                    last: Image, start: nat, size: nat)
    requires StageOk(c, Installing(tail, HaveBoth), disk, trace, view, dirty, lh, last, start, size)
    requires tail < |lh| && lh[tail] < |view| && start + tail + 1 < |disk| == |view|
    ensures var x := disk[start + tail + 1]; var disk' := disk[lh[tail] := x];
      && StageOk(c, Installing(tail, Copied), disk', trace + [disk'], view[lh[tail] := x], dirty - {lh[tail]}, lh, last, start, size)
      && (!c.boot ==> view[lh[tail] := x] == view)
      && LogOk(disk', start, size) && SameHome(Recovered(disk', start, size), last, start, size)
  {
    var stage, stage', x := Installing(tail, HaveBoth), Installing(tail, Copied), disk[start + tail + 1];
    var disk', dirty' := disk[lh[tail] := x], dirty - {lh[tail]};
    CopyBlocks(c, stage, disk, trace, view, dirty, lh, last, start, size);
    Parts(c, stage, disk, trace, view, dirty, lh, last, start, size);
    hide StageOk, PlanOk, Reached, Recovered, LogOk, Shows, PinnedAs;
    HomeReached(c, tail, disk, trace, lh, start, size);
    HomeShown(c, tail, view, dirty, lh, start, size, x);
    Whole(c, stage', disk', trace + [disk'], view[lh[tail] := x], dirty', lh, last, start, size);
  }

  lemma HomeShown(c: Plan, tail: nat, view: Image, dirty: set<nat>, lh: seq<nat>, start: nat, size: nat, x: Block)
    requires PlanOk(c, start, size) && Shows(c, Installing(tail, HaveBoth), view, dirty, lh, start, size)
    requires tail < |lh| && lh[tail] < |view| && !InLog(start, size, lh[tail])
    requires !c.boot ==> |c.view| > lh[tail] && x == c.view[lh[tail]]
    ensures Shows(c, Installing(tail, Copied), view[lh[tail] := x], dirty - {lh[tail]}, lh, start, size)
    ensures !c.boot ==> view[lh[tail] := x] == view
  {
    hide PlanOk;
    if !c.boot {
      assert view[lh[tail] := x] == view;
      PinnedTail(lh[tail..], dirty);
      assert lh[tail..][1..] == lh[tail + 1..];
    }
  }

  lemma HomeReached(c: Plan, tail: nat, disk: Image, trace: seq<Image>, lh: seq<nat>, start: nat, size: nat)
    requires PlanOk(c, start, size) && Reached(c, Installing(tail, HaveBoth), disk, trace, start, size) && lh == c.blocks
    requires tail < |lh| && lh[tail] < |disk| && start + tail + 1 < |disk|
    ensures var x := disk[start + tail + 1]; var disk' := disk[lh[tail] := x];
      && (!c.boot ==> |c.view| > lh[tail] && x == c.view[lh[tail]])
      && Reached(c, Installing(tail, Copied), disk', trace + [disk'], start, size)
      && LogOk(disk', start, size) && Recovered(disk', start, size) == Recovered(c.head, start, size)
  {
    InstallStep(c.head, start, size, lh, tail);
    hide InstallFirst, Installs, Recovered, LogOk;
    var disk', t, l := disk[lh[tail] := disk[start + tail + 1]], UpToHead(c, start, size), Installs(c.head, start, lh, tail);
    PartialHome(c, tail, start, size);
    if !c.boot {
      LoggedBlock(c, tail, start, size);
    }
    hide UpToHead, PlanOk;
    assert c.trace + t + l + [disk'] == c.trace + t + (l + [disk']);
  }

  lemma PartialHome(c: Plan, tail: nat, start: nat, size: nat)
    requires PlanOk(c, start, size) && tail < |c.blocks|
    ensures var p := InstallFirst(c.head, start, c.blocks, tail + 1);
      LogOk(p, start, size) && Recovered(p, start, size) == Recovered(c.head, start, size)
  {
    PartialInstall(c.head, start, size, tail + 1);
  }

  /** The block of the log that a commit has written. */
  lemma LoggedBlock(c: Plan, tail: nat, start: nat, size: nat)
    requires PlanOk(c, start, size) && !c.boot && tail < |c.blocks|
    ensures start + tail + 1 < |c.head| == |c.view| && c.blocks[tail] < |c.view|
    ensures c.head[start + tail + 1] == c.view[c.blocks[tail]]
  {
    LogFirstIs(c.disk, c.view, start, c.blocks, |c.blocks|);
  }

  lemma AllInstalled(c: Plan, disk: Image, trace: seq<Image>, view: Image, dirty: set<nat>, lh: seq<nat>,
                     last: Image, start: nat, size: nat)
    requires StageOk(c, Installing(|lh|, Begin), disk, trace, view, dirty, lh, last, start, size)
    ensures StageOk(c, Clearing(Begin), disk, trace, view, dirty, [], last, start, size)
  {
    hide PlanOk;
  }

  /** The log is cleared. */
  lemma HeadCleared(c: Plan, disk: Image, trace: seq<Image>, view: Image, dirty: set<nat>, last: Image, start: nat, size: nat)
    requires StageOk(c, Clearing(HaveLog), disk, trace, view, dirty, [], last, start, size)
    requires start < |disk| == |view|
    ensures var h := PutHead(disk[start], [], 0); var disk' := disk[start := h];
      && StageOk(c, Clearing(Copied), disk', trace + [disk'], view[start := h], dirty, [], last, start, size)
      && SameHome(view[start := h], view, start, size)
      && LogOk(disk', start, size) && SameHome(Recovered(disk', start, size), last, start, size)
      && HeadN(disk'[start]) == 0
  {
    var stage, stage', h := Clearing(HaveLog), Clearing(Copied), PutHead(disk[start], [], 0);
    Parts(c, stage, disk, trace, view, dirty, [], last, start, size);
    hide StageOk, Reached, Recovered, PutHead;
    var disk' := disk[start := h];
    ClearedReached(c, disk, trace, start, size);
    hide PlanOk, LogOk;
    LogAside(view, view, start, h, start, size);
    if !c.boot {
      LogAside(view, c.view, start, h, start, size);
    }
    Chain(Recovered(disk', start, size), Recovered(c.head, start, size), last, start, size);
    Whole(c, stage', disk', trace + [disk'], view[start := h], dirty, [], last, start, size);
  }

  lemma ClearedReached(c: Plan, disk: Image, trace: seq<Image>, start: nat, size: nat)
    requires PlanOk(c, start, size) && Reached(c, Clearing(HaveLog), disk, trace, start, size)
    requires start < |disk|
    ensures var disk' := disk[start := PutHead(disk[start], [], 0)];
      && Reached(c, Clearing(Copied), disk', trace + [disk'], start, size) && HeadN(disk'[start]) == 0
      && LogOk(disk', start, size) && SameHome(Recovered(disk', start, size), Recovered(c.head, start, size), start, size)
  {
    var disk' := disk[start := PutHead(disk[start], [], 0)];
    EmptyLog(disk', start, size);
    assert disk' == Recovered(c.head, start, size);
    var t, l := UpToHead(c, start, size), Installs(c.head, start, c.blocks, |c.blocks|);
    assert AllImages(c, start, size) == t + l + [disk'];
    hide Recovered, LogOk, PutHead, Installs, UpToHead, AllImages, InstallFirst;
    assert c.trace + t + l + [disk'] == c.trace + (t + l + [disk']);
  }

  /** bwrite of write_head, in either place. */
  lemma HeadStored(c: Plan, stage: Stage, disk: Image, trace: seq<Image>, view: Image, dirty: set<nat>, lh: seq<nat>,
                   last: Image, start: nat, size: nat)
    requires StageOk(c, stage, disk, trace, view, dirty, lh, last, start, size)
    requires (stage.Heading? || stage.Clearing?) && stage.at.HaveLog?
    requires start < |disk| == |view| && BlocksOk(disk, start, size, lh) && |disk| <= 0x1_0000_0000 && start !in dirty
    ensures var h := PutHead(disk[start], lh, |lh|); var disk', last' := disk[start := h], if stage.Heading? then c.view else last;
      && StageOk(c, At(stage, Copied), disk', trace + [disk'], view[start := h], dirty - {start}, lh, last', start, size)
      && LogOk(disk', start, size) && SameHome(Recovered(disk', start, size), last', start, size)
      && SameHome(view[start := h], view, start, size)
  {
    assert dirty - {start} == dirty;
    if stage.Heading? {
      HeadWritten(c, disk, trace, view, dirty, lh, last, start, size);
    } else {
      ClearsHead(c, stage, disk, trace, view, dirty, lh, last, start, size);
      HeadCleared(c, disk, trace, view, dirty, last, start, size);
    }
  }

  lemma CommitEnded(c: Plan, disk: Image, trace: seq<Image>, view: Image, dirty: set<nat>, lh: seq<nat>,
                    last: Image, start: nat, size: nat)
    requires StageOk(c, Clearing(Copied), disk, trace, view, dirty, lh, last, start, size)
    ensures StageOk(c, Ending, disk, trace, view, dirty, lh, last, start, size)
    ensures PlanOk(c, start, size) && trace == c.trace + AllImages(c, start, size)
    ensures disk == Recovered(c.head, start, size) && lh == [] && dirty == {}
    ensures !c.boot ==> last == c.view && SameHome(view, last, start, size) && SameHome(disk, last, start, size)
  {
    EmptyLog(disk, start, size);
  }

  /** A buffer has been given back. */
  lemma StageDropped(c: Plan, stage: Stage, disk: Image, trace: seq<Image>, view: Image, dirty: set<nat>, lh: seq<nat>,
                     last: Image, start: nat, size: nat)
    requires StageOk(c, stage, disk, trace, view, dirty, lh, last, start, size) && Dropping(stage, lh)
    ensures StageOk(c, AfterDrop(stage), disk, trace, view, dirty, lh, last, start, size)
  {
    hide StageOk;
    match stage
    case Heading(_) => InstallStarts(c, disk, trace, view, dirty, lh, last, start, size);
    case Clearing(_) => CommitEnded(c, disk, trace, view, dirty, lh, last, start, size);
    case _ => SpotMoved(c, stage, AfterDrop(stage), disk, trace, view, dirty, lh, last, start, size);
  }

  lemma ClearsHead(c: Plan, stage: Stage, disk: Image, trace: seq<Image>, view: Image, dirty: set<nat>, lh: seq<nat>,
                   last: Image, start: nat, size: nat)
    requires StageOk(c, stage, disk, trace, view, dirty, lh, last, start, size) && stage.Clearing?
    ensures lh == []
  {
  }

  lemma LastExplained(trace: seq<Image>, epoch: seq<nat>, commits: seq<Image>, disk: Image, start: nat, size: nat)
    requires Explains(trace, epoch, commits, start, size) && trace[|trace| - 1] == disk
    ensures |commits| > 0 && LogOk(disk, start, size) && SameHome(Recovered(disk, start, size), commits[|commits| - 1], start, size)
  {
    assert RecoversTo(trace[|trace| - 1], epoch[|trace| - 1], commits, start, size);
  }

  /** One more image, explained by the last commit point, old or new. */
  lemma ExplainsNext(trace: seq<Image>, epoch: seq<nat>, commits: seq<Image>, disk: Image, commits': seq<Image>, start: nat, size: nat)
    requires Explains(trace, epoch, commits, start, size)
    requires commits' == commits || (|commits'| == |commits| + 1 && commits'[..|commits|] == commits)
    requires |commits| > 0 && LogOk(disk, start, size) && SameHome(Recovered(disk, start, size), commits'[|commits'| - 1], start, size)
    ensures Explains(trace + [disk], epoch + [|commits'| - 1], commits', start, size)
  {
    hide Recovered, LogOk;
    assert RecoversTo(disk, |commits'| - 1, commits', start, size);
    forall i | 0 <= i < |trace| ensures RecoversTo(trace[i], epoch[i], commits', start, size) {
      assert RecoversTo(trace[i], epoch[i], commits, start, size);
      assert commits'[epoch[i]] == commits[epoch[i]];
    }
  }
}

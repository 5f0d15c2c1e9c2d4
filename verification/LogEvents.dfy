/** What may happen to the log and the buffer cache, and what each event does: the state before it
    and the state after it. Said of the fields of log, of the buffers and of the disk alone. */
module LogEvents {
  import opened Blocks
  import opened BufferCache
  import opened LogImages
  import opened Reservation
  import opened Commit

  /** What a process may do next: a call of the log or the cache, or, in commit, its next turn. */
  datatype Event =
    | Enter(pid: nat)
    | Get(pid: nat, dev: nat, blockno: nat)
    | Lock(pid: nat)
    | Change(pid: nat, b: nat, data: Block)
    | Write(pid: nat, b: nat)
    | Unlock(pid: nat, b: nat)
    | Unref(b: nat)
    | Exit(pid: nat)
    | GoOn

  /** The fields of the cache and of the log at one moment. */
  datatype Moment = Moment(buf: seq<Buf>, waiting: Waiting, disk: Image, ops: Ops, outstanding: nat, committing: bool,
                           lh: seq<nat>, stage: Stage, me: nat, lbuf: nat, dbuf: nat)

  /** A moment of a run, with the images that the disk has gone through and the states committed. */
  datatype State = State(now: Moment, trace: seq<Image>, commits: seq<Image>)

  // ---------- What can happen ----------

  /** Whether this event can happen now. Processes in a transaction keep to their side: they log what
      they change before they release it or leave, at most MAXOPBLOCKS blocks, and not the log itself. */
  predicate CanDo(s: Moment, e: Event, start: nat, size: nat)
    requires |s.buf| == NBUF + 1
  {
    match e
    case Enter(pid) => pid != 0 && pid !in s.ops && (s.stage.Quiet? || pid != s.me)
    case Get(pid, _, _) => Free(s, pid)
    case Lock(pid) => pid != 0 && pid in s.waiting && (s.stage.Quiet? || pid != s.me)
    case Change(pid, b, _) => Free(s, pid) && pid in s.ops && Has(s, pid, b)
    case Write(pid, b) =>
      && Free(s, pid) && pid in s.ops && Has(s, pid, b) && !(start <= s.buf[b].blockno < start + size)
      && (s.buf[b].blockno !in s.lh ==> s.ops[pid] < MAXOPBLOCKS)
    case Unlock(pid, b) => Free(s, pid) && b < NBUF && s.buf[b].holder == pid && Settled(s.buf[b], s.disk)
    case Unref(b) => b < NBUF && s.buf[b].leaving > 0
    case Exit(pid) =>
      Free(s, pid) && pid in s.ops && forall j :: 0 <= j < NBUF && s.buf[j].holder == pid ==> Settled(s.buf[j], s.disk)
    case GoOn => s.committing
  }

  predicate Free(s: Moment, pid: nat) { pid != 0 && pid !in s.waiting && (s.stage.Quiet? || pid != s.me) }

  predicate Has(s: Moment, pid: nat, b: nat) { b < NBUF < |s.buf| && s.buf[b].holder == pid && s.buf[b].valid }

  // ---------- What an event does ----------

  /** The event e turns s into t; ok is false if it is a panic. */
  ghost predicate Tells(s: Moment, e: Event, ok: bool, t: Moment, start: nat, size: nat) {
    match e
    case Enter(pid) =>
      var room := !s.committing && |s.lh| + (s.outstanding + 1) * 10 <= 30;
      ok && t == if room then s.(outstanding := s.outstanding + 1, ops := s.ops[pid := 0]) else s
    case Get(pid, dev, bno) =>
      Asked(s, ok, t, pid, dev, bno) && t == s.(buf := t.buf, waiting := t.waiting)
    case Lock(pid) =>
      pid in s.waiting && Locked(s, ok, t, pid, s.waiting[pid]) && t == s.(buf := t.buf, waiting := t.waiting)
    case Change(_, b, data) =>
      b < |s.buf| && ok && t == s.(buf := s.buf[b := s.buf[b].(data := data)])
    case Write(pid, b) => b < |s.buf| && Logged(s, ok, t, pid, b, s.buf[b].blockno, size)
    case Unlock(_, b) => ok && Unlocked(s, t, b) && t == s.(buf := t.buf)
    case Unref(b) => ok && Dereferenced(s, t, b) && t == s.(buf := t.buf)
    case Exit(pid) => ok && Left(s, t, pid)
    case GoOn => Turned(s, ok, t, start)
  }

  /** pid waits for a buffer of this block: the one there is, counted once more, or one that nobody
      uses, given over to the block. It is a panic if and only if there is neither. */
  ghost predicate Asked(s: Moment, ok: bool, t: Moment, pid: nat, dev: nat, bno: nat) {
    && |s.buf| == 31
    && (!ok <==> forall j :: 0 <= j < 30 ==> !IsFor(s.buf[j], dev, bno) && (s.buf[j].refcnt != 0 || s.buf[j].dirty))
    && (!ok ==> t.buf == s.buf && t.waiting == s.waiting)
    && (ok ==> pid in t.waiting && t.waiting == s.waiting[pid := t.waiting[pid]] && var b := t.waiting[pid];
          b < 30 && |t.buf| == 31 && t.buf == s.buf[b := t.buf[b]] && IsFor(t.buf[b], dev, bno) &&
          if IsFor(s.buf[b], dev, bno) then t.buf[b] == s.buf[b].(refcnt := s.buf[b].refcnt + 1)
          else (forall j :: 0 <= j < 30 ==> !IsFor(s.buf[j], dev, bno)) && s.buf[b].refcnt == 0 && !s.buf[b].dirty
               && t.buf[b] == s.buf[b].(dev := dev, blockno := bno, valid := false, refcnt := 1))
  }

  predicate IsFor(b: Buf, dev: nat, bno: nat) { b.dev == dev && b.blockno == bno }

  /** pid goes on waiting while another process holds the buffer; else it has it, with the block read
      in unless it was there. A block that is not on the disk is a panic. */
  ghost predicate Locked(s: Moment, ok: bool, t: Moment, pid: nat, b: nat) {
    b < |s.buf| && var x := s.buf[b];
    if x.holder != 0 then ok && t.buf == s.buf && t.waiting == s.waiting
    else
      && t.waiting == s.waiting - {pid}
      && (ok <==> x.valid || (x.dev == 1 && x.blockno < |s.disk|))
      && (x.valid || !ok ==> t.buf == s.buf[b := x.(holder := pid)])
      && (!x.valid && ok ==> t.buf == s.buf[b := x.(holder := pid, valid := true, data := s.disk[x.blockno])])
  }

  /** Readers of the block see the data, those of all others see what they saw. */
  ghost predicate Seen(s: Moment, t: Moment, bno: nat, data: Block) {
    bno < |s.disk| && View(t.buf, t.disk) == View(s.buf, s.disk)[bno := data]
  }

  /** The block is in the log, pinned, and counted to the process if it is new; a panic if and only
      if the log is full. */
  ghost predicate Logged(s: Moment, ok: bool, t: Moment, pid: nat, b: nat, bno: nat, size: nat)
    requires b < |s.buf|
  {
    && (ok <==> |s.lh| < 30 && |s.lh| < size - 1)
    && (!ok ==> t == s)
    && (ok ==> pid in s.ops && var s' := s.(buf := s.buf[b := s.buf[b].(dirty := true)]);
          t == if bno in s.lh then s' else s'.(lh := s.lh + [bno], ops := s.ops[pid := s.ops[pid] + 1]))
  }

  ghost predicate Unlocked(s: Moment, t: Moment, b: nat) {
    b < |s.buf| && t.buf == s.buf[b := s.buf[b].(holder := 0, leaving := s.buf[b].leaving + 1)]
  }

  /** Counted down; nothing else changes but the order of the buffers. */
  ghost predicate Dereferenced(s: Moment, t: Moment, b: nat) {
    && b < |s.buf| == |t.buf|
    && (forall j :: 0 <= j < |s.buf| ==>
          t.buf[j] == s.buf[j].(refcnt := t.buf[j].refcnt, leaving := t.buf[j].leaving, prev := t.buf[j].prev, next := t.buf[j].next))
    && (forall j :: 0 <= j < |s.buf| ==> var d := if j == b then 1 else 0;
          s.buf[j].refcnt == t.buf[j].refcnt + d && s.buf[j].leaving == t.buf[j].leaving + d)
  }

  /** The process is out; the last one out sets about the commit. */
  ghost predicate Left(s: Moment, t: Moment, pid: nat) {
    && s.outstanding >= 1 && !s.committing
    && var s' := s.(ops := s.ops - {pid}, outstanding := s.outstanding - 1);
       t == if s.outstanding == 1 then s'.(committing := true, stage := Starting, me := pid) else s'
  }

  // ---------- The turns of a commit ----------

  /** The process that commits takes its next turn. In the copying loops lbuf is for the block of the
      log and dbuf for its home: write_log copies home to log and releases the home block first,
      install_trans copies log to home and releases the block of the log first. */
  ghost predicate Turned(s: Moment, ok: bool, t: Moment, start: nat) {
    match s.stage
    case Quiet => false
    case Starting => ok && t == s.(stage := if |s.lh| > 0 then Logging(0, Begin) else Ending)
    case Ending => ok && t == s.(stage := Quiet, committing := false)
    case Logging(i, at) =>
      if i >= |s.lh| then ok && t == s.(stage := Heading(Begin))
      else (match at
        case Begin => AsksLog(s, ok, t, start + 1 + i, Logging(i, AwaitLog))
        case AwaitLog => TakesBuf(s, ok, t, s.lbuf, Logging(i, HaveLog))
        case HaveLog => AsksHome(s, ok, t, s.lh[i], Logging(i, AwaitHome))
        case AwaitHome => TakesBuf(s, ok, t, s.dbuf, Logging(i, HaveBoth))
        case HaveBoth => s.dbuf < |s.buf| && ok && Wrote(s, t, s.lbuf, start + 1 + i, s.buf[s.dbuf].data, Logging(i, Copied))
        case Copied => ok && LetsGo(s, t, s.dbuf, Logging(i, HaveOne))
        case HaveOne => ok && LetsGo(s, t, s.lbuf, Logging(i + 1, Begin)))
    case Heading(at) => HeadTurn(s, ok, t, start, Heading(AwaitLog), Heading(HaveLog), Heading(Copied), Installing(0, Begin), at)
    case Installing(i, at) =>
      if i >= |s.lh| then ok && t == s.(stage := Clearing(Begin), lh := [])
      else (match at
        case Begin => AsksLog(s, ok, t, start + 1 + i, Installing(i, AwaitLog))
        case AwaitLog => TakesBuf(s, ok, t, s.lbuf, Installing(i, HaveLog))
        case HaveLog => AsksHome(s, ok, t, s.lh[i], Installing(i, AwaitHome))
        case AwaitHome => TakesBuf(s, ok, t, s.dbuf, Installing(i, HaveBoth))
        case HaveBoth => s.lbuf < |s.buf| && ok && Wrote(s, t, s.dbuf, s.lh[i], s.buf[s.lbuf].data, Installing(i, Copied))
        case Copied => ok && LetsGo(s, t, s.lbuf, Installing(i, HaveOne))
        case HaveOne => ok && LetsGo(s, t, s.dbuf, Installing(i + 1, Begin)))
    case Clearing(at) => HeadTurn(s, ok, t, start, Clearing(AwaitLog), Clearing(HaveLog), Clearing(Copied), Ending, at)
  }

  /** The turns of write_head: read the header, store lh into it, write it, release it. */
  ghost predicate HeadTurn(s: Moment, ok: bool, t: Moment, start: nat, wait: Stage, have: Stage, copied: Stage, on: Stage, at: Spot) {
    match at
    case Begin => AsksLog(s, ok, t, start, wait)
    case AwaitLog => TakesBuf(s, ok, t, s.lbuf, have)
    case HaveLog => ok && exists h: Block :: IsHead(h, s, start) && Wrote(s, t, s.lbuf, start, h, copied)
    case Copied => ok && LetsGo(s, t, s.lbuf, on)
    case _ => false
  }

  /** The number of blocks, their numbers, and what was behind them before. */
  ghost predicate IsHead(h: Block, s: Moment, start: nat) {
    && start < |s.disk| && |s.lh| < 128 && h[0] == |s.lh|
    && (forall k :: 1 <= k <= |s.lh| ==> h[k] == s.lh[k - 1])
    && forall k :: |s.lh| < k < 128 ==> h[k] == s.disk[start][k]
  }

  /** A bget of the block by the process that commits: its lbuf from here on, or its dbuf. */
  ghost predicate AsksLog(s: Moment, ok: bool, t: Moment, bno: nat, stage: Stage) {
    && Asked(s, ok, t, s.me, 1, bno)
    && t == if ok then s.(buf := t.buf, waiting := t.waiting, stage := stage, lbuf := t.waiting[s.me]) else s
  }

  ghost predicate AsksHome(s: Moment, ok: bool, t: Moment, bno: nat, stage: Stage) {
    && Asked(s, ok, t, s.me, 1, bno)
    && t == if ok then s.(buf := t.buf, waiting := t.waiting, stage := stage, dbuf := t.waiting[s.me]) else s
  }

  /** The turn of a process that waits for buffer b: it has the buffer, or sleeps on. */
  ghost predicate TakesBuf(s: Moment, ok: bool, t: Moment, b: nat, stage: Stage) {
    b < |s.buf| && ok && Locked(s, ok, t, s.me, b) &&
    t == if s.buf[b].holder == 0 then s.(buf := t.buf, waiting := t.waiting, stage := stage) else s
  }

  /** One write: buffer b and its block get the data, and the buffer is clean. */
  ghost predicate Wrote(s: Moment, t: Moment, b: nat, bno: nat, data: Block, stage: Stage) {
    b < |s.buf| && bno < |s.disk| && IsFor(s.buf[b], 1, bno) && s.buf[b].holder == s.me &&
    t == s.(buf := s.buf[b := s.buf[b].(data := data, dirty := false)], disk := s.disk[bno := data], stage := stage)
  }

  ghost predicate LetsGo(s: Moment, t: Moment, b: nat, stage: Stage) {
    Unlocked(s, t, b) && s.buf[b].holder == s.me && t == s.(buf := t.buf, stage := stage)
  }

  // ---------- Calls of the cache, as the events see them ----------

  lemma Entered(s: Moment, pid: nat, start: nat, size: nat)
    ensures Tells(s, Enter(pid), true,
                  if !s.committing && |s.lh| + (s.outstanding + 1) * 10 <= 30 then s.(outstanding := s.outstanding + 1, ops := s.ops[pid := 0])
                  else s, start, size)
  {
  }

  lemma Leaves(s: Moment, t: Moment, pid: nat, start: nat, size: nat)
    requires s.outstanding >= 1 && !s.committing
    requires var last := s.outstanding == 1;
      t == s.(ops := s.ops - {pid}, outstanding := s.outstanding - 1, committing := last,
              stage := if last then Starting else s.stage, me := if last then pid else s.me)
    ensures Tells(s, Exit(pid), true, t, start, size)
  {
  }

  lemma GotAsked(s: Moment, t: Moment, pid: nat, dev: nat, bno: nat, ring: seq<nat>, b: nat)
    requires |s.buf| == NBUF + 1 && Got(s.buf, ring, dev, bno, b, t.buf) && t.waiting == s.waiting[pid := b]
    ensures Asked(s, true, t, pid, dev, bno)
  {
  }

  lemma NoneAsked(s: Moment, pid: nat, dev: nat, bno: nat)
    requires |s.buf| == NBUF + 1 && !Present(s.buf, dev, bno) && NoneUnused(s.buf)
    ensures Asked(s, false, s, pid, dev, bno)
  {
  }

  lemma AcquiredLocked(s: Moment, ok: bool, t: Moment, pid: nat)
    requires pid in s.waiting && var b := s.waiting[pid]; b < |s.buf| && var x := s.buf[b];
      if x.holder != 0 then ok && t.buf == s.buf && t.waiting == s.waiting
      else
        && t.waiting == s.waiting - {pid}
        && (!ok <==> !x.valid && (x.dev != ROOTDEV || x.blockno >= |s.disk|))
        && t.buf == s.buf[b := if ok then Acquired(x, pid, s.disk) else x.(holder := pid)]
    ensures Locked(s, ok, t, pid, s.waiting[pid])
  {
  }

  lemma Counts(s: Moment, t: Moment, b: nat)
    requires Counted(s.buf, s.waiting) && b < NBUF < |s.buf| && s.buf[b].leaving > 0
    requires SameButLinks(s.buf[b := Unreferenced(s.buf[b])], t.buf)
    ensures Dereferenced(s, t, b)
  {
  }

  lemma NothingRecorded(s: State, e: Event, t: State, start: nat, size: nat)
    requires !e.GoOn? && t.trace == s.trace && t.commits == s.commits
    ensures Records(s, e, t, start, size)
  {
    assert s.trace + [] == s.trace;
  }

  lemma TurnHappens(s: State, ok: bool, t: State, plan: Image, start: nat, size: nat)
    requires Turned(s.now, ok, t.now, start)
    requires t.trace == s.trace + if Writing(s.now.stage, s.now.lh) then [t.now.disk] else []
    requires t.commits == if s.now.stage == Heading(HaveLog) then s.commits + [plan] else s.commits
    requires var v, v' := View(s.now.buf, s.now.disk), View(t.now.buf, t.now.disk);
      SameHome(v', v, start, size) && (s.now.stage.Heading? ==> SameHome(v, plan, start, size))
    ensures Happens(s, GoOn, ok, t, start, size)
  {
    hide View, Turned;
  }

  lemma FetchTurned(s: Moment, t: Moment, start: nat, ring: seq<nat>, b: nat)
    requires |s.buf| == NBUF + 1 && Fetching(s.stage, s.lh) && b == Hand(s.stage, t.lbuf, t.dbuf)
    requires Got(s.buf, ring, ROOTDEV, Next(s.stage, start, s.lh), b, t.buf) && t.waiting == s.waiting[s.me := b]
    requires t == s.(buf := t.buf, waiting := t.waiting, stage := Onward(s.stage), lbuf := t.lbuf, dbuf := t.dbuf)
    requires if Second(s.stage) then t.lbuf == s.lbuf else t.dbuf == s.dbuf
    ensures Turned(s, true, t, start)
  {
    GotAsked(s, t, s.me, ROOTDEV, Next(s.stage, start, s.lh), ring, b);
    hide Got, Asked;
  }

  lemma FetchPanics(s: Moment, start: nat)
    requires |s.buf| == NBUF + 1 && Fetching(s.stage, s.lh)
    requires !Present(s.buf, ROOTDEV, Next(s.stage, start, s.lh)) && NoneUnused(s.buf)
    ensures Turned(s, false, s, start)
  {
    NoneAsked(s, s.me, ROOTDEV, Next(s.stage, start, s.lh));
    hide Asked, Present, NoneUnused;
  }

  lemma TakeTurned(s: Moment, t: Moment, start: nat)
    requires var b := Hand(s.stage, s.lbuf, s.dbuf);
      && Taking(s.stage, s.lh) && b < |s.buf| && (s.buf[b].valid || (s.buf[b].dev == 1 && s.buf[b].blockno < |s.disk|))
      && t == if s.buf[b].holder != 0 then s
              else s.(buf := s.buf[b := Acquired(s.buf[b], s.me, s.disk)], waiting := s.waiting - {s.me}, stage := Onward(s.stage))
    ensures Turned(s, true, t, start)
  {
    assert Locked(s, true, t, s.me, Hand(s.stage, s.lbuf, s.dbuf));
    hide Locked, Acquired;
  }

  lemma WriteTurned(s: Moment, t: Moment, start: nat, b: nat, bno: nat, x: Block)
    requires Writing(s.stage, s.lh) && s.lbuf < |s.buf| && b < |s.buf| && (s.stage.Logging? ==> s.dbuf < |s.buf|)
    requires match s.stage
      case Logging(i, _) => b == s.lbuf && bno == start + i + 1 && x == s.buf[s.dbuf].data
      case Installing(i, _) => b == s.dbuf && bno == s.lh[i] && x == s.buf[s.lbuf].data
      case _ => b == s.lbuf && bno == start && IsHead(x, s, start)
    requires bno < |s.disk| && IsFor(s.buf[b], 1, bno) && s.buf[b].holder == s.me
    requires t == s.(buf := s.buf[b := s.buf[b].(data := x, dirty := false)], disk := s.disk[bno := x], stage := At(s.stage, Copied))
    ensures Turned(s, true, t, start)
  {
    assert Wrote(s, t, b, bno, x, At(s.stage, Copied));
    hide Wrote, IsHead;
  }

  lemma DropTurned(s: Moment, t: Moment, start: nat)
    requires var b := Dropped(s.stage, s.lbuf, s.dbuf);
      && Dropping(s.stage, s.lh) && b < |s.buf| && s.buf[b].holder == s.me
      && t == s.(buf := s.buf[b := Released(s.buf[b])], stage := AfterDrop(s.stage))
    ensures Turned(s, true, t, start)
  {
    assert LetsGo(s, t, Dropped(s.stage, s.lbuf, s.dbuf), AfterDrop(s.stage));
    hide LetsGo, Released;
  }

  // ---------- Runs ----------

  /** The turns that write to the disk. */
  predicate WritesDisk(s: Moment, e: Event) {
    e.GoOn? &&
    match s.stage
    case Logging(i, at) => i < |s.lh| && at.HaveBoth?
    case Heading(at) => at.HaveLog?
    case Installing(i, at) => i < |s.lh| && at.HaveBoth?
    case Clearing(at) => at.HaveLog?
    case _ => false
  }

  /** A disk write adds one image to those the disk has gone through; the write of the header commits
      what readers see, and nothing else does. */
  ghost predicate Records(s: State, e: Event, t: State, start: nat, size: nat) {
    && t.trace == s.trace + (if WritesDisk(s.now, e) then [t.now.disk] else [])
    && if e.GoOn? && s.now.stage == Heading(HaveLog) then
         |t.commits| == |s.commits| + 1 && t.commits[..|s.commits|] == s.commits
         && SameHome(t.commits[|s.commits|], View(t.now.buf, t.now.disk), start, size)
       else t.commits == s.commits
  }

  /** What readers see changes by a store alone; a turn of commit may change what they see of the log. */
  ghost predicate Sights(s: Moment, e: Event, t: Moment, start: nat, size: nat) {
    match e
    case Change(_, b, data) => b < |s.buf| && Seen(s, t, s.buf[b].blockno, data)
    case GoOn => SameHome(View(t.buf, t.disk), View(s.buf, s.disk), start, size)
    case _ => View(t.buf, t.disk) == View(s.buf, s.disk)
  }

  /** An event of a run. */
  ghost predicate Happens(s: State, e: Event, ok: bool, t: State, start: nat, size: nat) {
    Tells(s.now, e, ok, t.now, start, size) && Records(s, e, t, start, size) && Sights(s.now, e, t.now, start, size)
  }

  /** An event that cannot happen is passed over. */
  ghost predicate Goes(s: State, e: Event, ok: bool, t: State, start: nat, size: nat) {
    |s.now.buf| == NBUF + 1 && if CanDo(s.now, e, start, size) then Happens(s, e, ok, t, start, size) else ok && t == s
  }

  /** The states of a run, one more than there are events; only the last event may be a panic. */
  ghost predicate IsRun(states: seq<State>, events: seq<Event>, ok: bool, start: nat, size: nat) {
    && 0 < |states| <= |events| + 1 && (ok ==> |states| == |events| + 1) && (!ok ==> |states| > 1)
    && forall i :: 0 <= i < |states| - 1 ==> Goes(states[i], events[i], ok || i < |states| - 2, states[i + 1], start, size)
  }

  lemma RunStarts(s: State, events: seq<Event>, start: nat, size: nat)
    ensures IsRun([s], events[..0], true, start, size)
    ensures events[..|events|] == events
  {
  }

  lemma RunGoesOn(states: seq<State>, events: seq<Event>, i: nat, ok: bool, t: State, start: nat, size: nat)
    requires i < |events| && IsRun(states, events[..i], true, start, size)
    requires var s := states[|states| - 1];
      && |s.now.buf| == NBUF + 1
      && if CanDo(s.now, events[i], start, size) then Happens(s, events[i], ok, t, start, size) else ok && t == s
    ensures IsRun(states + [t], events[..i + 1], ok, start, size)
  {
  }

  lemma RunEnds(states: seq<State>, events: seq<Event>, i: nat, ok: bool, start: nat, size: nat)
    requires i <= |events| && IsRun(states, events[..i], ok, start, size) && (ok ==> i == |events|)
    ensures IsRun(states, events, ok, start, size)
  {
  }

  // ---------- One process alone ----------

  /** Nobody is in a transaction, holds a buffer or waits for one, and nothing is logged. */
  predicate AllQuiet(s: Moment) {
    && s.stage.Quiet? && !s.committing && s.outstanding == 0 && s.ops == map[] && s.lh == [] && s.waiting == map[]
    && forall j :: 0 <= j < |s.buf| ==> s.buf[j].holder == 0
  }

  /** pid, alone in its transaction, has the buffer of this block. */
  predicate HasBlock(s: Moment, pid: nat, b: nat, bno: nat) {
    && s.stage.Quiet? && s.outstanding == 1 && s.ops == map[pid := 0] && s.lh == [] && s.waiting == map[]
    && Has(s, pid, b) && IsFor(s.buf[b], 1, bno)
  }

  lemma GetsBlock(s: State, s1: State, s2: State, s3: State, pid: nat, bno: nat, b: nat, start: nat, size: nat)
    requires pid != 0 && AllQuiet(s.now) && bno < |s.now.disk| && pid in s2.now.waiting && s2.now.waiting[pid] == b
    requires Goes(s, Enter(pid), true, s1, start, size) && Goes(s1, Get(pid, 1, bno), true, s2, start, size)
    requires Goes(s2, Lock(pid), true, s3, start, size)
    ensures HasBlock(s3.now, pid, b, bno) && s3.now.disk == s.now.disk
    ensures View(s3.now.buf, s3.now.disk) == View(s.now.buf, s.now.disk)
  {
    hide View;
    assert s1.now == s.now.(outstanding := 1, ops := map[pid := 0]);
    assert b < 30 && s2.now.waiting == map[pid := b] && s2.now == s1.now.(buf := s2.now.buf, waiting := map[pid := b]);
    assert IsFor(s2.now.buf[b], 1, bno) && s2.now.buf[b].holder == s1.now.buf[b].holder;
  }

  /** It stores into the block and logs it: then the log is that block, pinned and counted to the
      process, readers see the data, and the disk is as it was. */
  lemma FirstWrite(states: seq<State>, pid: nat, bno: nat, b: nat, data: Block, start: nat, size: nat)
    requires IsRun(states, [Enter(pid), Get(pid, 1, bno), Lock(pid), Change(pid, b, data), Write(pid, b)], true, start, size)
    requires pid != 0 && AllQuiet(states[0].now) && bno < |states[0].now.disk| && !(start <= bno < start + size) && size > 1
    requires pid in states[2].now.waiting && states[2].now.waiting[pid] == b
    ensures var s, t := states[0].now, states[5].now;
      && t.lh == [bno] && t.ops == map[pid := 1] && t.outstanding == 1 && t.disk == s.disk && b < |t.buf|
      && IsFor(t.buf[b], 1, bno) && t.buf[b].dirty && t.buf[b].holder == pid && t.buf[b].data == data
      && View(t.buf, t.disk) == View(s.buf, s.disk)[bno := data]
  {
    hide Goes, View;
    var events := [Enter(pid), Get(pid, 1, bno), Lock(pid), Change(pid, b, data), Write(pid, b)];
    forall i | 0 <= i < 5 ensures Goes(states[i], events[i], true, states[i + 1], start, size) {}
    GetsBlock(states[0], states[1], states[2], states[3], pid, bno, b, start, size);
    StoresBlock(states[3], states[4], states[5], pid, bno, b, data, start, size);
  }

  lemma StoresBlock(s: State, s1: State, t: State, pid: nat, bno: nat, b: nat, data: Block, start: nat, size: nat)
    requires pid != 0 && HasBlock(s.now, pid, b, bno) && !(start <= bno < start + size) && size > 1
    requires Goes(s, Change(pid, b, data), true, s1, start, size) && Goes(s1, Write(pid, b), true, t, start, size)
    ensures var x, y := s.now, t.now;
      && y.lh == [bno] && y.ops == map[pid := 1] && y.outstanding == 1 && y.disk == x.disk && b < |y.buf|
      && IsFor(y.buf[b], 1, bno) && y.buf[b].dirty && y.buf[b].holder == pid && y.buf[b].data == data
      && bno < |x.disk| && View(y.buf, y.disk) == View(x.buf, x.disk)[bno := data]
  {
    hide View;
    assert s1.now == s.now.(buf := s.now.buf[b := s.now.buf[b].(data := data)]);
  }
}

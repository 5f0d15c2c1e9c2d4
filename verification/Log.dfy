/** The write-ahead log (log.c) over the buffer cache: transactions of file system calls, group
    commit, and recovery at boot. Processes are named by their pid. Each method is a step that runs
    under one lock, so every interleaving of processes is a sequence of calls. */
module Log {
  import opened Blocks
  import opened BufferCache
  import opened LogImages
  import opened Reservation
  import opened Commit
  import opened LogEvents

  class Log {
    const cache: Cache
    const start: nat
    const size: nat
    var outstanding: nat      // how many calls are executing
    var committing: bool
    var lh: seq<nat>          // log.lh.block[0..log.lh.n)
    var stage: Stage          // how far the process that commits has come
    var me: nat               // that process
    var lbuf: nat             // its buffers
    var dbuf: nat
    var ops: Ops              // the processes in a transaction, and the blocks each has logged
    ghost var plan: Plan
    ghost var commits: seq<Image>   // the states committed so far
    ghost var epoch: seq<nat>       // for each image of cache.trace, the commit it recovers to

    ghost predicate Valid()
      reads this, cache
    {
      && Mid() && Reserved()
      && (committing <==> !stage.Quiet?)
      && (InBody(stage) ==> !plan.boot)
    }

    /** Also true at boot, when the log may still hold what the crash has left. */
    ghost predicate Mid()
      reads this, cache
    {
      && cache.Valid()
      && |commits| > 0 && Explains(cache.trace, epoch, commits, start, size)
      && StageOk(plan, stage, cache.disk, cache.trace, View(cache.buf, cache.disk), Dirty(cache.buf), lh,
                 commits[|commits| - 1], start, size)
      && HandsOk(stage, cache.buf, cache.waiting, me, lbuf, dbuf, start, lh)
      && 0 !in ops && Agrees(cache.buf, cache.disk, ops.Keys)
      && (!stage.Quiet? ==> ops == map[] && me != 0)
    }

    /** Log space: what is used and what is promised fits; nothing is logged when nothing runs. */
    ghost predicate Reserved()
      reads `ops, `outstanding, `committing, `lh
    {
      && Budgeted(ops, |lh|) && |ops| == outstanding
      && (committing ==> outstanding == 0)
      && (outstanding == 0 && !committing ==> lh == [])
    }

    /** The process that commits is inside commit(), and does nothing else meanwhile. */
    ghost predicate Outside(pid: nat)
      reads `stage, `me
    {
      pid != 0 && (stage.Quiet? || pid != me)
    }

    function Now(): Moment
      reads this, cache
    {
      Moment(cache.buf, cache.waiting, cache.disk, ops, outstanding, committing, lh, stage, me, lbuf, dbuf)
    }

    ghost function Here(): State
      reads this, cache
    {
      State(Now(), cache.trace, commits)
    }

    lemma HereIs()
      ensures Here() == State(Now(), cache.trace, commits)
      ensures Now() == Moment(cache.buf, cache.waiting, cache.disk, ops, outstanding, committing, lh, stage, me, lbuf, dbuf)
    {
    }

    // ---------- Any process at work ----------

    /** begin_op by process op: admitted, or has to sleep. */
    method BeginOp(op: nat) returns (admitted: bool)
      requires Valid() && op != 0 && op !in ops
      modifies `outstanding, `ops
      ensures Tells(old(Now()), Enter(op), true, Now(), start, size)
      ensures Valid()
      ensures admitted <==> !committing && |lh| + (old(outstanding) + 1) * MAXOPBLOCKS <= LOGSIZE
      ensures outstanding == if admitted then old(outstanding) + 1 else old(outstanding)
      ensures ops == if admitted then old(ops)[op := 0] else old(ops)
    {
      hide StageOk, HandsOk, Coherent, Ring, View, Dirty, Explains, Agrees, Tells;
      ghost var s := Now();
      Entered(s, op, start, size);
      AgreesMore(cache.buf, cache.disk, ops.Keys, ops.Keys + {op});
      assert ops[op := 0].Keys == ops.Keys + {op};
      if committing {
        return false;
      } else if |lh| + (outstanding + 1) * MAXOPBLOCKS > LOGSIZE {
        return false;
      } else {
        UnusedUpdate(ops, op, 0);
        UnusedBound(ops);
        outstanding, ops := outstanding + 1, ops[op := 0];
        return true;
      }
    }

    /** bget: from here on the process waits for the buffer. */
    method Bget(pid: nat, dev: nat, blockno: nat) returns (r: Attempt<nat>)
      requires Valid() && Outside(pid) && pid !in cache.waiting
      modifies cache
      ensures Tells(old(Now()), Get(pid, dev, blockno), r.Done?, Now(), start, size)
      ensures Valid() && !r.Wait? && cache.disk == old(cache.disk) && cache.trace == old(cache.trace)
      ensures r.Done? ==> Got(old(cache.buf), cache.ring, dev, blockno, r.value, cache.buf)
                          && cache.waiting == old(cache.waiting)[pid := r.value]
      ensures r.Panic? <==> !Present(old(cache.buf), dev, blockno) && NoneUnused(old(cache.buf))
      ensures r.Panic? ==> cache.buf == old(cache.buf) && cache.waiting == old(cache.waiting)
      ensures View(cache.buf, cache.disk) == old(View(cache.buf, cache.disk)) && Dirty(cache.buf) == old(Dirty(cache.buf))
    {
      hide StageOk, HandsOk, Coherent, Ring, View, Dirty, Explains, Agrees, Unused, Asked, Got;
      ghost var was, w := cache.buf, cache.waiting;
      ghost var s := Now();
      if !Present(was, dev, blockno) && NoneUnused(was) {
        NoneAsked(s, pid, dev, blockno);
      }
      r := cache.Bget(pid, dev, blockno);
      if r.Done? {
        if pid != me {
          GotLeaves(was, w, cache.ring, dev, blockno, r.value, cache.buf, pid, me);
        }
        GotAgrees(was, cache.disk, ops.Keys, cache.ring, dev, blockno, r.value, cache.buf);
        GotAsked(s, Now(), pid, dev, blockno, cache.ring, r.value);
        HandsKept(stage, was, w, cache.buf, cache.waiting, me, lbuf, dbuf, start, lh);
      }
    }

    /** acquiresleep, and the read if need be: the process gets the buffer, or goes on waiting. */
    method Acquire(pid: nat, b: nat) returns (r: Attempt<nat>)
      requires Valid() && Outside(pid) && pid in cache.waiting && cache.waiting[pid] == b
      modifies cache
      ensures Tells(old(Now()), Lock(pid), !r.Panic?, Now(), start, size)
      ensures Valid() && b < NBUF && cache.disk == old(cache.disk) && cache.trace == old(cache.trace)
      ensures r.Wait? <==> old(cache.buf)[b].holder != 0
      ensures r.Wait? ==> cache.buf == old(cache.buf) && cache.waiting == old(cache.waiting)
      ensures !r.Wait? ==> cache.waiting == old(cache.waiting) - {pid} && cache.buf[b].holder == pid
      ensures r.Done? ==> cache.buf == old(cache.buf)[b := Acquired(old(cache.buf)[b], pid, cache.disk)]
      ensures r.Panic? ==> cache.buf == old(cache.buf[b := cache.buf[b].(holder := pid)])
      ensures r.Panic? <==> old(cache.buf[b]).holder == 0 && !old(cache.buf[b]).valid
                            && old(cache.buf[b].dev != ROOTDEV || cache.buf[b].blockno >= |cache.disk|)
      ensures View(cache.buf, cache.disk) == old(View(cache.buf, cache.disk)) && Dirty(cache.buf) == old(Dirty(cache.buf))
    {
      hide StageOk, HandsOk, Coherent, Ring, View, Dirty, Explains, Agrees, Unused, Acquired, Locked;
      ghost var was, w, s := cache.buf, cache.waiting, Now();
      r := cache.Acquire(pid, b);
      AcquiredLocked(s, !r.Panic?, Now(), pid);
      AcquiredSame(was[b], pid, cache.disk);
      if !r.Wait? {
        AcquiredAgrees(was, cache.disk, ops.Keys, b, pid);
        if pid != me {
          AcquiredLeaves(was, w, b, cache.buf, pid, me);
        }
        HandsKept(stage, was, w, cache.buf, cache.waiting, me, lbuf, dbuf, start, lh);
      }
    }

    /** The first part of brelse, of a buffer whose changes, if any, have gone to the log. */
    method Release(pid: nat, b: nat)
      requires Valid() && Outside(pid) && b < NBUF && cache.buf[b].holder == pid && Settled(cache.buf[b], cache.disk)
      modifies cache
      ensures Tells(old(Now()), LogEvents.Unlock(pid, b), true, Now(), start, size)
      ensures Valid() && cache.disk == old(cache.disk) && cache.trace == old(cache.trace) && cache.waiting == old(cache.waiting)
      ensures cache.buf == old(cache.buf)[b := Released(old(cache.buf)[b])]
      ensures View(cache.buf, cache.disk) == old(View(cache.buf, cache.disk)) && Dirty(cache.buf) == old(Dirty(cache.buf))
    {
      hide StageOk, HandsOk, Coherent, Ring, View, Dirty, Explains, Unused;
      ghost var was, w := cache.buf, cache.waiting;
      var r := cache.Unlock(pid, b);
      ReleasedAgrees(was, cache.disk, ops.Keys, b, cache.buf);
      if pid != me {
        ReleasedLeaves(was, w, b, cache.buf, pid, me);
      }
      HandsKept(stage, was, w, cache.buf, w, me, lbuf, dbuf, start, lh);
    }

    /** The second part of brelse, by a process that has released buffer b. */
    method Unref(b: nat)
      requires Mid() && b < NBUF < |cache.buf| && cache.buf[b].leaving > 0
      modifies cache
      ensures Mid() && (old(Valid()) ==> Valid())
      ensures cache.disk == old(cache.disk) && cache.trace == old(cache.trace) && cache.waiting == old(cache.waiting)
      ensures SameButLinks(old(cache.buf)[b := Unreferenced(old(cache.buf)[b])], cache.buf)
      ensures Tells(old(Now()), LogEvents.Unref(b), true, Now(), start, size)
      ensures View(cache.buf, cache.disk) == old(View(cache.buf, cache.disk)) && Dirty(cache.buf) == old(Dirty(cache.buf))
    {
      hide StageOk, HandsOk, Coherent, View, Dirty, Explains, Agrees, Unused, Log.Reserved, Counted, Dereferenced;
      ghost var was, w, s := cache.buf, cache.waiting, Now();
      cache.Unref(b);
      Counts(s, Now(), b);
      UnrefAgrees(was, cache.disk, ops.Keys, b, cache.buf);
      UnrefLeaves(was, w, b, cache.buf, me);
      HandsKept(stage, was, w, cache.buf, w, me, lbuf, dbuf, start, lh);
    }

    /** A process in a transaction stores into a buffer it holds. */
    method Store(pid: nat, b: nat, data: Block)
      requires Valid() && pid in ops && b < NBUF && cache.buf[b].holder == pid && cache.buf[b].valid
      modifies cache
      ensures Tells(old(Now()), Change(pid, b, data), true, Now(), start, size)
      ensures Valid() && cache.disk == old(cache.disk) && cache.trace == old(cache.trace) && cache.waiting == old(cache.waiting)
      ensures cache.buf == old(cache.buf[b := cache.buf[b].(data := data)])
      ensures cache.buf[b].blockno < |cache.disk|
      ensures View(cache.buf, cache.disk) == old(View(cache.buf, cache.disk))[cache.buf[b].blockno := data]
      ensures Dirty(cache.buf) == old(Dirty(cache.buf))
    {
      assert cache.buf[b].blockno < |cache.disk|;
      hide HandsOk, Coherent, Ring, View, Dirty, Explains, Unused, AtRest;
      ghost var was := cache.buf;
      cache.SetData(pid, b, data);
      UpdateAgrees(was, cache.disk, ops.Keys, b, was[b].(data := data), cache.disk);
      assert HandsOk(stage, cache.buf, cache.waiting, me, lbuf, dbuf, start, lh) by {
        HandsAtRest(stage, cache.buf, cache.waiting, me, lbuf, dbuf, start, lh);
      }
    }

    /** log_write by process op, of a buffer it holds; a block new to the log counts against op. */
    method LogWrite(op: nat, b: nat) returns (r: Attempt<()>)
      requires Valid() && op in ops
      requires b < NBUF && cache.buf[b].holder == op && cache.buf[b].valid
      requires !InLog(start, size, cache.buf[b].blockno)
      requires cache.buf[b].blockno !in lh ==> ops[op] < MAXOPBLOCKS
      modifies `lh, `ops, cache`buf
      ensures Tells(old(Now()), LogEvents.Write(op, b), r.Done?, Now(), start, size)
      ensures Valid() && !r.Wait?
      ensures r.Panic? <==> Refuses(old(|lh|), size)
      ensures r.Panic? ==> lh == old(lh) && ops == old(ops) && cache.buf == old(cache.buf)
      ensures r.Done? ==>
        var bn := cache.buf[b].blockno;
        && lh == (if bn in old(lh) then old(lh) else old(lh) + [bn])
        && ops == (if bn in old(lh) then old(ops) else old(ops)[op := old(ops)[op] + 1])
        && cache.buf == old(cache.buf)[b := old(cache.buf)[b].(dirty := true)]
      ensures View(cache.buf, cache.disk) == old(View(cache.buf, cache.disk))
    {
      hide StageOk, HandsOk, Coherent, Ring, View, Dirty, Explains, Agrees, Counted, Log.Reserved;
      AtWork(op);
      if Refuses(|lh|, size) {
        return Panic;
      }
      BufferPinned(plan, cache.buf, cache.disk, cache.trace, lh, ops.Keys, commits[|commits| - 1], start, size, b);
      Append(op, cache.buf[b].blockno);
      cache.MarkDirty(b);
      HandsAtRest(stage, cache.buf, cache.waiting, me, lbuf, dbuf, start, lh);
      return Done(());
    }

    /** No commit is under way while a process is in a transaction. */
    lemma AtWork(op: nat)
      requires Valid() && op in ops
      ensures stage.Quiet? && !committing && outstanding >= 1
    {
    }

    /** In a log of more than LOGSIZE blocks log_write refuses no block that is new to the log, of a
        call that keeps to its share; a block that is there already it refuses when the log is full. */
    lemma Room(op: nat, blockno: nat)
      requires Valid() && op in ops && (blockno !in lh ==> ops[op] < MAXOPBLOCKS) && size > LOGSIZE
      ensures Refuses(|lh|, size) <==> blockno in lh && |lh| == LOGSIZE
    {
      hide Mid;
      UnusedSplit(ops, op);
    }

    /** The part of log_write that records the block: absorbed, or appended. */
    method Append(op: nat, blockno: nat)
      requires Reserved() && op in ops && (blockno !in lh ==> ops[op] < MAXOPBLOCKS)
      modifies `lh, `ops
      ensures Reserved() && ops.Keys == old(ops.Keys)
      ensures lh == (if blockno in old(lh) then old(lh) else old(lh) + [blockno])
      ensures ops == (if blockno in old(lh) then old(ops) else old(ops)[op := old(ops)[op] + 1])
    {
      var i := 0;
      while i < |lh| && lh[i] != blockno
        invariant 0 <= i <= |lh| && blockno !in lh[..i]
      {
        i := i + 1;
      }
      if i == |lh| {
        UnusedUpdate(ops, op, ops[op] + 1);
        assert ops[op := ops[op] + 1].Keys == ops.Keys;
        assert lh[..i] == lh;
        lh := lh + [blockno];
        ops := ops[op := ops[op] + 1];
      }
    }

    /** First part of end_op, under log.lock: the last process out commits. All it has changed it
        has logged. */
    method EndOpStart(op: nat) returns (doCommit: bool)
      requires Valid() && op in ops && op !in cache.waiting
      requires forall j :: 0 <= j < NBUF && cache.buf[j].holder == op ==> Settled(cache.buf[j], cache.disk)
      modifies `outstanding, `committing, `ops, `stage, `me
      ensures Tells(old(Now()), Exit(op), true, Now(), start, size)
      ensures Valid() && !old(committing)
      ensures doCommit <==> old(outstanding) == 1
      ensures outstanding == old(outstanding) - 1 && committing == doCommit && ops == old(ops) - {op}
      ensures old(outstanding) >= 1
      ensures stage == (if doCommit then Starting else old(stage)) && me == if doCommit then op else old(me)
    {
      hide Coherent, Ring, View, Dirty, Explains, AtRest, Agrees, Tells;
      ghost var s := Now();
      UnusedSplit(ops, op);
      AgreesLess(cache.buf, cache.disk, ops.Keys, op);
      assert (ops - {op}).Keys == ops.Keys - {op};
      outstanding, ops := outstanding - 1, ops - {op};
      doCommit := outstanding == 0;
      assert |ops| == outstanding;
      if doCommit {
        assert ops == map[];
        committing, stage, me := true, Starting, op;
      }
      Leaves(s, Now(), op, start, size);
    }

    // ---------- The process that commits: bread, by turns ----------

    /** First part of a bread: bget of the block that the stage needs next. */
    method Fetch() returns (r: Attempt<()>)
      requires Mid() && Fetching(stage, lh)
      modifies cache, `stage, `lbuf, `dbuf
      ensures Mid() && !r.Wait? && cache.disk == old(cache.disk) && cache.trace == old(cache.trace)
      ensures r.Done? ==>
        var b := Hand(old(stage), lbuf, dbuf);
        && stage == Onward(old(stage)) && cache.waiting == old(cache.waiting)[me := b]
        && Got(old(cache.buf), cache.ring, ROOTDEV, Next(old(stage), start, lh), b, cache.buf)
        && (if Second(old(stage)) then lbuf == old(lbuf) else dbuf == old(dbuf))
      ensures r.Panic? ==> stage == old(stage) && NoneUnused(old(cache.buf))
      ensures Turned(old(Now()), r.Done?, Now(), start)
      ensures View(cache.buf, cache.disk) == old(View(cache.buf, cache.disk)) && Dirty(cache.buf) == old(Dirty(cache.buf))
    {
      hide StageOk, HandsOk, Coherent, Ring, View, Dirty, Explains, Agrees, Counted, Got, Turned;
      ghost var was, w, stage0, bn := cache.buf, cache.waiting, stage, Next(stage, start, lh);
      ghost var s := Now();
      HandsFetching(stage, was, w, me, lbuf, dbuf, start, lh);
      if !Present(was, ROOTDEV, bn) && NoneUnused(was) {
        FetchPanics(s, start);
      }
      var b :- cache.Bget(me, ROOTDEV, Next(stage, start, lh));
      GotAgrees(was, cache.disk, ops.Keys, cache.ring, ROOTDEV, bn, b, cache.buf);
      HandsFetched(stage, was, w, me, lbuf, dbuf, start, lh, cache.ring, b, cache.buf);
      if Second(stage) {
        dbuf := b;
      } else {
        lbuf := b;
      }
      stage := Onward(stage);
      SpotMoved(plan, stage0, stage, cache.disk, cache.trace, View(cache.buf, cache.disk), Dirty(cache.buf), lh,
                commits[|commits| - 1], start, size);
      FetchTurned(s, Now(), start, cache.ring, b);
      return Done(());
    }

    /** The rest of that bread: the process gets the buffer, or sleeps on. */
    method Take() returns (r: Attempt<()>)
      requires Mid() && Taking(stage, lh)
      modifies cache, `stage
      ensures Mid() && !r.Panic? && cache.disk == old(cache.disk) && cache.trace == old(cache.trace)
      ensures var b := Hand(old(stage), lbuf, dbuf);
        && b < NBUF && (r.Wait? <==> old(cache.buf)[b].holder != 0)
        && (r.Done? ==> stage == Onward(old(stage)) && cache.waiting == old(cache.waiting) - {me}
                        && cache.buf == old(cache.buf)[b := Acquired(old(cache.buf)[b], me, cache.disk)])
      ensures r.Wait? ==> stage == old(stage) && cache.buf == old(cache.buf) && cache.waiting == old(cache.waiting)
      ensures Turned(old(Now()), true, Now(), start)
      ensures View(cache.buf, cache.disk) == old(View(cache.buf, cache.disk)) && Dirty(cache.buf) == old(Dirty(cache.buf))
    {
      hide StageOk, HandsOk, Coherent, Ring, View, Dirty, Explains, Agrees, Counted, Acquired, Turned;
      ghost var s := Now();
      ghost var was, w, stage0 := cache.buf, cache.waiting, stage;
      NextThere(plan, stage, cache.disk, cache.trace, View(was, cache.disk), Dirty(was), lh, commits[|commits| - 1], start, size);
      HandsTaking(stage, was, w, me, lbuf, dbuf, start, lh);
      var b := Hand(stage, lbuf, dbuf);
      if was[b].holder != 0 {
        TakeTurned(s, s, start);
      }
      var _ :- cache.Acquire(me, b);
      AcquiredAgrees(was, cache.disk, ops.Keys, b, me);
      HandsTaken(stage, was, w, me, lbuf, dbuf, start, lh, cache.disk);
      stage := Onward(stage);
      SpotMoved(plan, stage0, stage, cache.disk, cache.trace, View(cache.buf, cache.disk), Dirty(cache.buf), lh,
                commits[|commits| - 1], start, size);
      TakeTurned(s, Now(), start);
      return Done(());
    }

    // ---------- The process that commits: writing and releasing ----------

    /** Stores x into buffer b, which the process holds, and writes it through to the disk. */
    method WriteThrough(b: nat, x: Block)
      requires cache.Valid() && Agrees(cache.buf, cache.disk, {})
      requires b < NBUF && me != 0 && cache.buf[b].holder == me && cache.buf[b].valid
      modifies cache
      ensures cache.Valid() && Agrees(cache.buf, cache.disk, {}) && cache.waiting == old(cache.waiting)
      ensures var bn, buf0 := old(cache.buf[b].blockno), old(cache.buf);
        && bn < |old(cache.disk)| && cache.buf == buf0[b := buf0[b].(data := x, dirty := false)]
        && cache.disk == old(cache.disk)[bn := x] && cache.trace == old(cache.trace) + [cache.disk]
        && View(cache.buf, cache.disk) == old(View(cache.buf, cache.disk))[bn := x]
        && Dirty(cache.buf) == old(Dirty(cache.buf)) - {bn}
    {
      ghost var was, d := cache.buf, cache.disk;
      assert was[b].blockno < |d|;
      UpdateAgrees(was, d, {}, b, was[b].(data := x, dirty := false), d[was[b].blockno := x]);
      hide Coherent, Ring, View, Dirty, Agrees, Counted;
      cache.SetData(me, b, x);
      var _ := cache.Bwrite(me, b);
    }

    /** bwrite(to) of write_log: the block of the log becomes what the cache holds of its home. */
    method WriteLogBlock()
      requires Mid() && Writing(stage, lh) && stage.Logging?
      modifies cache, `stage, `epoch
      ensures Turned(old(Now()), true, Now(), start)
      ensures Mid() && stage == At(old(stage), Copied) && cache.waiting == old(cache.waiting)
      ensures var log, v := start + old(stage).tail + 1, old(View(cache.buf, cache.disk));
        && log < |v| && lh[old(stage).tail] < |v| && cache.disk == old(cache.disk)[log := v[lh[old(stage).tail]]]
        && cache.trace == old(cache.trace) + [cache.disk] && SameHome(View(cache.buf, cache.disk), v, start, size)
    {
      hide StageOk, HandsOk, Coherent, Ring, View, Look, Dirty, Explains, Agrees, Counted, Recovered, LogOk, Turned;
      ghost var s := Now();
      ghost var was, w, d, v, t := cache.buf, cache.waiting, cache.disk, View(cache.buf, cache.disk), cache.trace;
      ghost var tail, dirty, last := stage.tail, Dirty(was), commits[|commits| - 1];
      CopyBlocks(plan, stage, d, t, v, dirty, lh, last, start, size);
      HandsWriting(stage, was, w, me, lbuf, dbuf, start, lh);
      assert ops.Keys == {};
      LookCached(was, d, dbuf);
      var x := cache.buf[dbuf].data;
      WriteThrough(lbuf, x);
      LogWritten(plan, tail, d, t, v, dirty, lh, last, start, size, x);
      HandsWritten(stage, was, w, me, lbuf, dbuf, start, lh, lbuf, was[lbuf].(data := x, dirty := false));
      ExplainsNext(t, epoch, commits, cache.disk, commits, start, size);
      assert dirty - {start + tail + 1} == dirty;
      stage, epoch := At(stage, Copied), epoch + [|commits| - 1];
      WriteTurned(s, Now(), start, lbuf, start + tail + 1, x);
    }

    /** bwrite(dbuf) of install_trans: the home block becomes what the log on disk holds of it. */
    method WriteHomeBlock()
      requires Mid() && Writing(stage, lh) && stage.Installing?
      modifies cache, `stage, `epoch
      ensures Turned(old(Now()), true, Now(), start)
      ensures Mid() && stage == At(old(stage), Copied) && cache.waiting == old(cache.waiting)
      ensures var log, home, d := start + old(stage).tail + 1, lh[old(stage).tail], old(cache.disk);
        && log < |d| && home < |d| && cache.disk == d[home := d[log]] && cache.trace == old(cache.trace) + [cache.disk]
        && Dirty(cache.buf) == old(Dirty(cache.buf)) - {home}
      ensures SameCounts(old(cache.buf), cache.buf)
      ensures !plan.boot ==> View(cache.buf, cache.disk) == old(View(cache.buf, cache.disk))
    {
      hide StageOk, HandsOk, Coherent, Ring, View, Look, Dirty, Explains, Agrees, Counted, Recovered, LogOk, Turned;
      ghost var s := Now();
      ghost var was, w, d, v, t := cache.buf, cache.waiting, cache.disk, View(cache.buf, cache.disk), cache.trace;
      ghost var tail, dirty, last := stage.tail, Dirty(was), commits[|commits| - 1];
      CopyBlocks(plan, stage, d, t, v, dirty, lh, last, start, size);
      HandsWriting(stage, was, w, me, lbuf, dbuf, start, lh);
      assert ops.Keys == {};
      LookCached(was, d, lbuf);
      CleanView(was, d, start + tail + 1);
      var x := cache.buf[lbuf].data;
      WriteThrough(dbuf, x);
      HomeWritten(plan, tail, d, t, v, dirty, lh, last, start, size);
      HandsWritten(stage, was, w, me, lbuf, dbuf, start, lh, dbuf, was[dbuf].(data := x, dirty := false));
      ExplainsNext(t, epoch, commits, cache.disk, commits, start, size);
      stage, epoch := At(stage, Copied), epoch + [|commits| - 1];
      WriteTurned(s, Now(), start, dbuf, lh[tail], x);
    }

    /** The rest of write_head: the header on disk becomes the in-memory one. This is the commit
        point, or the end of the log's use. */
    method WriteHead()
      requires Mid() && Writing(stage, lh) && (stage.Heading? || stage.Clearing?)
      modifies cache, `stage, `epoch, `commits
      ensures Turned(old(Now()), true, Now(), start)
      ensures Mid() && stage == At(old(stage), Copied) && cache.waiting == old(cache.waiting)
      ensures start < |cache.disk| && |lh| <= LOGSIZE && (forall i :: 0 <= i < |lh| ==> lh[i] < 0x1_0000_0000)
      ensures cache.disk == old(cache.disk)[start := PutHead(old(cache.disk)[start], lh, |lh|)]
      ensures cache.trace == old(cache.trace) + [cache.disk] && SameCounts(old(cache.buf), cache.buf)
      ensures commits == if old(stage).Heading? then old(commits) + [plan.view] else old(commits)
      ensures SameHome(View(cache.buf, cache.disk), old(View(cache.buf, cache.disk)), start, size)
    {
      hide StageOk, HandsOk, Coherent, Ring, View, Look, Dirty, Explains, Agrees, Counted, Recovered, LogOk, PutHead, Turned;
      ghost var s := Now();
      ghost var was, w, d, v, t := cache.buf, cache.waiting, cache.disk, View(cache.buf, cache.disk), cache.trace;
      ghost var dirty, last := Dirty(was), commits[|commits| - 1];
      HeadBlock(plan, stage, d, t, v, dirty, lh, last, start, size);
      HandsWriting(stage, was, w, me, lbuf, dbuf, start, lh);
      assert ops.Keys == {};
      LookCached(was, d, lbuf);
      CleanView(was, d, start);
      var head := FillHead(cache.buf[lbuf].data);
      assert head == PutHead(d[start], lh, |lh|) && IsHead(head, s, start) && IsFor(was[lbuf], 1, start);
      hide IsHead, Mine;
      WriteThrough(lbuf, head);
      HandsWritten(stage, was, w, me, lbuf, dbuf, start, lh, lbuf, was[lbuf].(data := head, dirty := false));
      ghost var commits' := if stage.Heading? then commits + [plan.view] else commits;
      HeadStored(plan, stage, d, t, v, dirty, lh, last, start, size);
      ExplainsNext(t, epoch, commits, cache.disk, commits', start, size);
      stage, epoch, commits := At(stage, Copied), epoch + [|commits'| - 1], commits';
      WriteTurned(s, Now(), start, lbuf, start, head);
    }

    /** The stores of write_head into the buffer of the header. */
    method FillHead(was: Block) returns (head: Block)
      requires |lh| <= LOGSIZE && forall i :: 0 <= i < |lh| ==> lh[i] < 0x1_0000_0000
      ensures head == PutHead(was, lh, |lh|)
      ensures head[0] == |lh| && (forall k :: 1 <= k <= |lh| ==> head[k] == lh[k - 1]) && forall k :: |lh| < k < 128 ==> head[k] == was[k]
    {
      head := was;
      head := head[0 := |lh|];
      var i := 0;
      while i < |lh|
        invariant 0 <= i <= |lh|
        invariant head == PutHead(was, lh, i) && head[0] == |lh|
        invariant (forall k :: 1 <= k <= i ==> head[k] == lh[k - 1]) && forall k :: i < k < 128 && k > 0 ==> head[k] == was[k]
      {
        head := head[i + 1 := lh[i]];
        i := i + 1;
      }
    }

    /** The first part of brelse, of a buffer that is done with; the second comes some time later. */
    method Drop()
      requires Mid() && Dropping(stage, lh)
      modifies cache, `stage
      ensures Mid() && stage == AfterDrop(old(stage)) && cache.waiting == old(cache.waiting)
      ensures Turned(old(Now()), true, Now(), start)
      ensures cache.disk == old(cache.disk) && cache.trace == old(cache.trace)
      ensures var b := Dropped(old(stage), lbuf, dbuf);
        b < NBUF && old(cache.buf[b].holder) != 0 && cache.buf == old(cache.buf)[b := Released(old(cache.buf)[b])]
      ensures View(cache.buf, cache.disk) == old(View(cache.buf, cache.disk)) && Dirty(cache.buf) == old(Dirty(cache.buf))
    {
      hide StageOk, HandsOk, Coherent, Ring, View, Dirty, Explains, Agrees, Counted, Settled, AfterDrop, Dropped, Turned;
      ghost var s := Now();
      var b := Dropped(stage, lbuf, dbuf);
      ghost var was, w, last := cache.buf, cache.waiting, commits[|commits| - 1];
      HandsDropping(stage, was, w, me, lbuf, dbuf, start, lh);
      assert ops.Keys == {};
      AgreesAt(was, cache.disk, b);
      if stage.Logging? || stage.Installing? {
        CopyBlocks(plan, stage, cache.disk, cache.trace, View(was, cache.disk), Dirty(was), lh, last, start, size);
      }
      var r := cache.Unlock(me, b);
      ReleasedAgrees(was, cache.disk, ops.Keys, b, cache.buf);
      HandsDropped(stage, was, w, me, lbuf, dbuf, start, lh, cache.buf, size);
      StageDropped(plan, stage, cache.disk, cache.trace, View(cache.buf, cache.disk), Dirty(cache.buf), lh, last, start, size);
      stage := AfterDrop(stage);
      DropTurned(s, Now(), start);
    }

    /** A copying loop ends: on to the header, or to clearing it with log.lh.n = 0. */
    method Leave()
      requires Mid() && (stage == Logging(|lh|, Begin) || stage == Installing(|lh|, Begin))
      modifies `stage, `lh
      ensures Mid() && stage == (if old(stage).Logging? then Heading(Begin) else Clearing(Begin))
      ensures lh == if old(stage).Logging? then old(lh) else []
      ensures Turned(old(Now()), true, Now(), start)
    {
      hide StageOk, Coherent, Ring, View, Dirty, Explains, Agrees, Counted;
      ghost var d, t, v, dirty, last := cache.disk, cache.trace, View(cache.buf, cache.disk), Dirty(cache.buf), commits[|commits| - 1];
      if stage.Logging? {
        LogAllWritten(plan, d, t, v, dirty, lh, last, start, size);
        stage := Heading(Begin);
      } else {
        AllInstalled(plan, d, t, v, dirty, lh, last, start, size);
        stage, lh := Clearing(Begin), [];
      }
    }

    /** commit: nothing to do, or make the plan. */
    method Start()
      requires Valid() && stage.Starting?
      modifies `stage, `plan
      ensures Valid() && stage == if lh == [] then Ending else Logging(0, Begin)
      ensures lh != [] ==> !plan.boot && plan.disk == cache.disk && plan.view == View(cache.buf, cache.disk)
                           && plan.blocks == lh && plan.trace == cache.trace
      ensures lh == [] ==> plan == old(plan)
      ensures Turned(old(Now()), true, Now(), start)
    {
      hide Coherent, Ring, View, Dirty, Explains, Agrees, Counted, Recovered, LogOk, PlanOk, Reached, Aims, Shows;
      ghost var d, v, last := cache.disk, View(cache.buf, cache.disk), commits[|commits| - 1];
      if |lh| == 0 {
        stage := Ending;
        return;
      }
      assert ops.Keys == {};
      ViewOutsideLog(cache.buf, d, lh, start, size);
      LastExplained(cache.trace, epoch, commits, d, start, size);
      plan := Plan(false, d, v, lh, Headed(d, v, start, size, lh), cache.trace);
      Begins(plan, d, cache.trace, v, Dirty(cache.buf), lh, last, start, size);
      stage := Logging(0, Begin);
    }

    /** The rest of end_op. */
    method Finish()
      requires Valid() && stage.Ending?
      modifies `stage, `committing
      ensures Valid() && !committing && stage == Quiet && lh == []
      ensures Turned(old(Now()), true, Now(), start)
    {
      hide Coherent, Ring, View, Dirty, Explains, Agrees, Counted, AtRest;
      committing, stage := false, Quiet;
    }

    /** The three places where the process writes to the disk. */
    method Write()
      requires Mid() && Writing(stage, lh)
      modifies cache, `stage, `epoch, `commits
      ensures Mid() && stage == At(old(stage), Copied) && cache.waiting == old(cache.waiting)
      ensures Turned(old(Now()), true, Now(), start)
      ensures cache.trace == old(cache.trace) + [cache.disk]
      ensures !plan.boot ==> SameHome(View(cache.buf, cache.disk), old(View(cache.buf, cache.disk)), start, size)
      ensures commits == if old(stage).Heading? then old(commits) + [plan.view] else old(commits)
    {
      hide *;
      if stage.Logging? {
        WriteLogBlock();
      } else if stage.Installing? {
        WriteHomeBlock();
        HomeSame(View(cache.buf, cache.disk), start, size);
      } else {
        OnlyHeads(stage, lh);
        WriteHead();
      }
    }

    /** The turns that do not write: the process reads, or releases, or leaves a loop. */
    method Move() returns (r: Attempt<()>)
      requires Mid() && InBody(stage) && !Writing(stage, lh)
      modifies cache, `stage, `lbuf, `dbuf, `lh
      ensures Mid() && (lh == old(lh) || lh == []) && !stage.Quiet? && !stage.Starting?
      ensures cache.disk == old(cache.disk) && cache.trace == old(cache.trace)
      ensures !r.Done? ==> stage == old(stage)
      ensures Turned(old(Now()), !r.Panic?, Now(), start)
      ensures r.Panic? ==> NoneUnused(old(cache.buf))
      ensures View(cache.buf, cache.disk) == old(View(cache.buf, cache.disk))
    {
      StillInside(stage, lh);
      hide *;
      if Fetching(stage, lh) {
        r := Fetch();
      } else if Taking(stage, lh) {
        r := Take();
      } else if Dropping(stage, lh) {
        Drop();
        r := Done(());
      } else {
        AtLoopEnd();
        Leave();
        r := Done(());
      }
    }

    /** One turn inside commit, or inside recovery. */
    method Step() returns (r: Attempt<()>)
      requires Mid() && InBody(stage)
      modifies cache, `stage, `lbuf, `dbuf, `lh, `epoch, `commits
      ensures Mid() && (lh == old(lh) || lh == []) && !stage.Quiet? && !stage.Starting?
      ensures Turned(old(Now()), !r.Panic?, Now(), start)
      ensures !r.Done? ==> stage == old(stage) && cache.disk == old(cache.disk) && cache.trace == old(cache.trace)
      ensures r.Panic? ==> NoneUnused(old(cache.buf))
      ensures !plan.boot ==> SameHome(View(cache.buf, cache.disk), old(View(cache.buf, cache.disk)), start, size)
      ensures cache.trace == old(cache.trace) + if Writing(old(stage), old(lh)) then [cache.disk] else []
      ensures commits == if old(stage) == Heading(HaveLog) then old(commits) + [plan.view] else old(commits)
    {
      HomeSame(View(cache.buf, cache.disk), start, size);
      StillInside(stage, lh);
      hide *;
      if Writing(stage, lh) {
        Write();
        r := Done(());
      } else {
        r := Move();
      }
    }

    lemma AtLoopEnd()
      requires Mid() && InBody(stage)
      requires !Fetching(stage, lh) && !Taking(stage, lh) && !Writing(stage, lh) && !Dropping(stage, lh)
      ensures stage == Logging(|lh|, Begin) || stage == Installing(|lh|, Begin)
    {
      hide StageOk, HandsOk;
      HandsElse(stage, cache.buf, cache.waiting, me, lbuf, dbuf, start, lh);
    }

    method CommitStep() returns (r: Attempt<()>)
      requires Valid() && InBody(stage)
      modifies cache, `stage, `lbuf, `dbuf, `lh, `epoch, `commits
      ensures Valid()
      ensures Turned(old(Now()), !r.Panic?, Now(), start)
      ensures !r.Done? ==> stage == old(stage) && cache.disk == old(cache.disk) && cache.trace == old(cache.trace)
      ensures r.Panic? ==> NoneUnused(old(cache.buf))
      ensures SameHome(View(cache.buf, cache.disk), old(View(cache.buf, cache.disk)), start, size)
      ensures cache.trace == old(cache.trace) + if Writing(old(stage), old(lh)) then [cache.disk] else []
      ensures commits == if old(stage) == Heading(HaveLog) then old(commits) + [plan.view] else old(commits)
    {
      hide StageOk, HandsOk, Coherent, Ring, View, Dirty, Explains, Agrees, Counted, AtRest, SameHome, Unused, WithinBudget, Log.Mid;
      r := Step();
    }

    /** One turn of the process that commits: the rest of end_op, cut at its calls into the cache. */
    method Turn() returns (r: Attempt<()>)
      requires Valid() && committing
      modifies this, cache
      ensures Valid() && ops == old(ops) && (committing <==> !old(stage).Ending?)
      ensures !r.Done? ==> stage == old(stage) && cache.disk == old(cache.disk) && cache.trace == old(cache.trace)
      ensures r.Panic? ==> NoneUnused(old(cache.buf))
      ensures SameHome(View(cache.buf, cache.disk), old(View(cache.buf, cache.disk)), start, size)
      ensures cache.trace == old(cache.trace) + if Writing(old(stage), old(lh)) then [cache.disk] else []
      ensures Happens(old(Here()), GoOn, !r.Panic?, Here(), start, size)
      ensures commits == if old(stage) == Heading(HaveLog) then old(commits) + [old(plan).view] else old(commits)
      ensures if old(stage).Starting? && old(lh) != [] then plan.view == old(View(cache.buf, cache.disk)) else plan == old(plan)
    {
      HomeSame(View(cache.buf, cache.disk), start, size);
      InsideOrNot(stage);
      StagesOnly();
      HeadShows();
      ghost var s, p := Here(), plan.view;
      HereIs();
      hide *;
      if stage.Starting? {
        Start();
        r := Done(());
      } else if stage.Ending? {
        Finish();
        r := Done(());
      } else {
        r := CommitStep();
      }
      HereIs();
      TurnHappens(s, !r.Panic?, Here(), p, start, size);
    }

    lemma HeadShows()
      requires Valid()
      ensures stage.Heading? ==> SameHome(View(cache.buf, cache.disk), plan.view, start, size)
    {
      hide HandsOk, Coherent, Ring, View, Dirty, Explains, Agrees, Counted, AtRest, Reached, Aims;
    }

    lemma StagesOnly()
      ensures Valid() ==> (committing <==> !stage.Quiet?)
      ensures !InBody(stage) ==> !Writing(stage, lh) && !stage.Heading?
    {
    }

    // ---------- All runs ----------

    /** One event, and what it does; false if it is a panic. */
    method Happen(e: Event) returns (ok: bool)
      requires Valid() && |cache.buf| == NBUF + 1 && CanDo(Now(), e, start, size)
      modifies this, cache
      ensures Valid() && old(commits) <= commits && old(cache.trace) <= cache.trace
      ensures Happens(old(Here()), e, ok, Here(), start, size)
    {
      hide StageOk, HandsOk, Coherent, Ring, View, Dirty, Explains, Agrees, Counted, AtRest, Log.Mid, Log.Reserved, Got,
           Tells, Records, SameHome;
      ghost var s := Here();
      ok := true;
      match e {
      case Enter(pid) =>
        var _ := BeginOp(pid);
      case Get(pid, dev, blockno) =>
        var r := Bget(pid, dev, blockno);
        ok := r.Done?;
      case Lock(pid) =>
        var r := Acquire(pid, cache.waiting[pid]);
        ok := !r.Panic?;
      case Change(pid, b, data) =>
        Store(pid, b, data);
      case Write(pid, b) =>
        var r := LogWrite(pid, b);
        ok := r.Done?;
      case Unlock(pid, b) =>
        Release(pid, b);
      case Unref(b) =>
        Unref(b);
      case Exit(pid) =>
        var _ := EndOpStart(pid);
      case GoOn =>
        var r := Turn();
        return !r.Panic?;
      }
      NothingRecorded(s, e, Here(), start, size);
    }

    /** Every run: whatever processes do, in whatever order, and wherever in it a commit has come,
        the cache agrees with the disk, log space suffices, and every image the disk has gone
        through recovers to a commit point. The states that the run goes through follow from each
        other as the events tell; one that cannot happen is passed over, a panic is the end. */
    method Run(events: seq<Event>) returns (ok: bool, ghost states: seq<State>)
      requires Valid()
      modifies this, cache
      ensures Valid() && old(commits) <= commits && old(cache.trace) <= cache.trace
      ensures IsRun(states, events, ok, start, size) && states[0] == old(Here()) && states[|states| - 1] == Here()
    {
      ok := true;
      states := [Here()];
      hide *;
      RunStarts(Here(), events, start, size);
      var i := 0;
      while i < |events| && ok
        invariant 0 <= i <= |events| && Valid() && old(commits) <= commits && old(cache.trace) <= cache.trace
        invariant IsRun(states, events[..i], ok, start, size)
        invariant |states| > 0 && states[0] == old(Here()) && states[|states| - 1] == Here()
      {
        TableSize();
        HereIs();
        if CanDo(Now(), events[i], start, size) {
          ok := Happen(events[i]);
        }
        RunGoesOn(states, events, i, ok, Here(), start, size);
        states := states + [Here()];
        i := i + 1;
      }
      RunEnds(states, events, i, ok, start, size);
    }

    lemma TableSize()
      requires Valid()
      ensures |cache.buf| == NBUF + 1
    {
    }

    /** What holds of the cache in every reachable state: one buffer for each block, one reference
        for each process that holds a buffer, waits for it or is leaving it, and what is clean and not
        held equals the disk; a logged block is pinned, and outside the body of commit nothing else is. */
    lemma CacheAgrees(i: nat, j: nat)
      requires Valid() && i < NBUF && j < NBUF
      ensures |cache.buf| == NBUF + 1
      ensures var b, c := cache.buf[i], cache.buf[j];
        && (b.dev >= 1 && Holds(c, b.dev, b.blockno) ==> i == j)
        && (b.valid && !b.dirty && b.holder !in ops ==> b.blockno < |cache.disk| && b.data == cache.disk[b.blockno])
        && b.refcnt == (if b.holder != 0 then 1 else 0) + |Waiters(cache.waiting, i)| + b.leaving
      ensures !InBody(stage) ==> forall x: nat :: x in Dirty(cache.buf) <==> x in lh
    {
      hide Ring, View, Dirty, Explains, HandsOk;
    }

    /** Power fails after any disk write of any run, and again any number of times inside recovery:
        the next recovery leaves exactly the home blocks of the commit point that write had reached. */
    lemma Crash(i: nat, ds: seq<Image>)
      requires Valid() && i < |cache.trace| && CrashRun(ds, start, size) && ds[0] == cache.trace[i]
      ensures i < |epoch| && epoch[i] < |commits| && LogOk(ds[|ds| - 1], start, size)
      ensures var r := Recovered(ds[|ds| - 1], start, size);
        SameHome(r, commits[epoch[i]], start, size) && start < |r| && HeadN(r[start]) == 0
    {
      CrashAnywhere(cache.trace, epoch, commits, i, ds, start, size);
    }

    // ---------- Boot ----------

    /** initlog: recover whatever image the disk was left in, while no other process runs. */
    constructor (pid: nat, memdisk: Image, start: nat, size: nat)
      requires pid != 0 && LogOk(memdisk, start, size) && |memdisk| <= 0x1_0000_0000
      ensures Valid() && fresh(cache) && this.start == start && this.size == size
      ensures cache.trace == [memdisk] + RecoveryTrace(memdisk, start, size)
      ensures cache.disk == Recovered(memdisk, start, size) && commits == [Recovered(memdisk, start, size)]
      ensures outstanding == 0 && !committing && ops == map[] && lh == []
      ensures cache.waiting == map[] && Idle(cache.buf)
    {
      this.start, this.size := start, size;
      outstanding, committing, lh, ops := 0, false, [], map[];
      commits, epoch := [Recovered(memdisk, start, size)], [0];
      stage, me, lbuf, dbuf := Quiet, pid, 0, 0;
      plan := Plan(true, memdisk, memdisk, HeadBlocks(memdisk[start]), memdisk, [memdisk]);
      cache := new Cache(memdisk);
      new;
      RecoverFromLog();
      Open();
    }

    /** The log is ready for use. */
    method Open()
      requires Mid() && stage.Ending? && ops == map[] && outstanding == 0 && !committing
      requires Alone(cache.buf, cache.waiting, me, {})
      modifies `stage
      ensures Valid() && lh == [] && Idle(cache.buf)
    {
      hide HandsOk, Coherent, Ring, View, Dirty, Explains, Agrees, Counted, AtRest, Recovered;
      stage := Quiet;
      HandsAtRest(stage, cache.buf, cache.waiting, me, lbuf, dbuf, start, lh);
      assert ops == map[];
    }

    /** Redo what a committed transaction left in the log, then clear the log. */
    method RecoverFromLog()
      requires cache.Valid() && Alone(cache.buf, cache.waiting, me, {}) && me != 0 && ops == map[]
      requires Agrees(cache.buf, cache.disk, {}) && Dirty(cache.buf) == {}
      requires LogOk(cache.disk, start, size) && |cache.disk| <= 0x1_0000_0000
      requires plan == Plan(true, cache.disk, cache.disk, HeadBlocks(cache.disk[start]), cache.disk, [cache.disk])
      requires cache.trace == [cache.disk] && epoch == [0] && commits == [Recovered(cache.disk, start, size)]
      modifies this, cache
      ensures Mid() && stage == Ending && lh == [] && Alone(cache.buf, cache.waiting, me, {}) && cache.waiting == map[]
      ensures cache.trace == old(cache.trace) + RecoveryTrace(old(cache.disk), start, size)
      ensures cache.disk == Recovered(old(cache.disk), start, size)
      ensures commits == old(commits) && ops == map[] && outstanding == old(outstanding) && committing == old(committing) && me == old(me)
    {
      hide StageOk, HandsOk, Coherent, Ring, View, Dirty, Explains, Agrees, Counted, AtRest, Recovered, Alone, Reached, Aims, Shows, Turned, Log.Now;
      ghost var d := cache.disk;
      ReadHead();
      BootBegins(plan, lh, View(cache.buf, d), commits[0], start, size);
      BootExplained(d, epoch, commits, start, size);
      stage := Installing(0, Begin);
      HandsBegin(stage, cache.buf, cache.waiting, me, lbuf, dbuf, start, lh);
      assert ops.Keys == {};
      InstallTrans();
      ClearHead();
    }

    /** install_trans, when no other process runs. */
    method InstallTrans()
      requires Mid() && stage == Installing(0, Begin) && plan.boot && lh == plan.blocks && Dirty(cache.buf) == {}
      requires Alone(cache.buf, cache.waiting, me, {})
      modifies cache, `stage, `lbuf, `dbuf, `epoch, `lh
      ensures Mid() && stage == Clearing(Begin) && lh == [] && Alone(cache.buf, cache.waiting, me, {})
    {
      hide *;
      while stage.tail < |lh|
        invariant Mid() && stage.Installing? && stage.at.Begin? && stage.tail <= |lh|
        invariant Alone(cache.buf, cache.waiting, me, {}) && Dirty(cache.buf) == {}
        decreases |lh| - stage.tail
      {
        InstallBlock();
      }
      Leave();
    }

    /** read_head. */
    method ReadHead()
      requires cache.Valid() && Alone(cache.buf, cache.waiting, me, {}) && me != 0
      requires Agrees(cache.buf, cache.disk, {}) && Dirty(cache.buf) == {} && LogOk(cache.disk, start, size)
      modifies cache, `lh
      ensures cache.Valid() && Alone(cache.buf, cache.waiting, me, {}) && cache.waiting == map[]
      ensures Agrees(cache.buf, cache.disk, {}) && Dirty(cache.buf) == {}
      ensures cache.disk == old(cache.disk) && cache.trace == old(cache.trace)
      ensures lh == HeadBlocks(cache.disk[start])
    {
      hide Coherent, Ring, View, Look, Dirty, Agrees, Counted, Got, Alone, Acquired, Settled, Turned, Log.Now;
      ghost var buf0, d := cache.buf, cache.disk;
      NobodyWaits(buf0, cache.waiting, me);
      AloneFinds(buf0, d, cache.waiting, me, {});
      var r := cache.Bget(me, ROOTDEV, start);
      var b := r.value;
      ghost var buf1 := cache.buf;
      GotAgrees(buf0, d, {}, cache.ring, ROOTDEV, start, b, buf1);
      AloneGot(buf0, map[], cache.ring, start, b, buf1, me, {});
      MineGot(buf0, map[], cache.ring, start, b, buf1, me);
      AloneTakes(buf1, cache.waiting, me, b, {} + {b}, start);
      MineTaken(buf1, cache.waiting, d, b, me, start);
      AcquiredAgrees(buf1, d, {}, b, me);
      AloneTaken(buf1, cache.waiting, me, b, {} + {b}, d);
      r := cache.Acquire(me, b);
      ghost var buf2 := cache.buf;
      LookCached(buf2, d, b);
      CleanView(buf2, d, start);
      AgreesAt(buf2, d, b);
      var n := cache.buf[b].data[0];
      lh := [];
      while |lh| < n
        invariant |lh| <= n
        invariant lh == HeadBlocks(cache.disk[start])[..|lh|]
        modifies `lh
      {
        lh := lh + [cache.buf[b].data[|lh| + 1]];
      }
      var _ := cache.Unlock(me, b);
      ReleasedAgrees(buf2, d, {}, b, cache.buf);
      ghost var buf3 := cache.buf;
      cache.Unref(b);
      UnrefAgrees(buf3, d, {}, b, cache.buf);
      AloneDropped(buf2, map[], me, b, {} + {b}, cache.buf);
      assert {} + {b} - {b} == {};
    }

    /** A whole bread, when no other process runs. */
    method ReadAlone(ghost H: set<nat>)
      requires Mid() && Fetching(stage, lh) && Alone(cache.buf, cache.waiting, me, H) && |H| <= 1 && Dirty(cache.buf) == {}
      requires Elsewhere(cache.buf, H, Next(stage, start, lh))
      modifies cache, `stage, `lbuf, `dbuf
      ensures Mid() && stage == Onward(Onward(old(stage))) && cache.waiting == map[]
      ensures cache.disk == old(cache.disk) && cache.trace == old(cache.trace) && Dirty(cache.buf) == {}
      ensures Alone(cache.buf, cache.waiting, me, H + {Hand(old(stage), lbuf, dbuf)})
      ensures if Second(old(stage)) then lbuf == old(lbuf) && dbuf !in H else dbuf == old(dbuf) && lbuf !in H
    {
      OnwardTwice(stage, lh);
      hide *;
      FetchAlone(H);
      TakeAlone(H + {Hand(stage, lbuf, dbuf)});
    }

    method FetchAlone(ghost H: set<nat>)
      requires Mid() && Fetching(stage, lh) && Alone(cache.buf, cache.waiting, me, H) && |H| <= 1 && Dirty(cache.buf) == {}
      requires Elsewhere(cache.buf, H, Next(stage, start, lh))
      modifies cache, `stage, `lbuf, `dbuf
      ensures Mid() && stage == Onward(old(stage))
      ensures cache.disk == old(cache.disk) && cache.trace == old(cache.trace) && Dirty(cache.buf) == {}
      ensures Alone(cache.buf, cache.waiting, me, H + {Hand(old(stage), lbuf, dbuf)})
      ensures if Second(old(stage)) then lbuf == old(lbuf) && dbuf !in H else dbuf == old(dbuf) && lbuf !in H
    {
      hide StageOk, HandsOk, Coherent, Ring, View, Dirty, Explains, Agrees, Counted, Got, Alone, Next, Second, Onward, Fetching, Turned, Log.Now;
      ghost var buf0, stage0, w0 := cache.buf, stage, cache.waiting;
      HandsFetching(stage, buf0, w0, me, lbuf, dbuf, start, lh);
      AloneFinds(buf0, cache.disk, w0, me, H);
      var _ := Fetch();
      AloneGot(buf0, w0, cache.ring, Next(stage0, start, lh), Hand(stage0, lbuf, dbuf), cache.buf, me, H);
    }

    method TakeAlone(ghost H: set<nat>)
      requires Mid() && Taking(stage, lh) && Alone(cache.buf, cache.waiting, me, H) && Dirty(cache.buf) == {}
      modifies cache, `stage
      ensures Mid() && stage == Onward(old(stage)) && cache.waiting == map[]
      ensures cache.disk == old(cache.disk) && cache.trace == old(cache.trace) && Dirty(cache.buf) == {}
      ensures Alone(cache.buf, cache.waiting, me, H)
    {
      hide StageOk, HandsOk, Coherent, Ring, View, Dirty, Explains, Agrees, Counted, Alone, Acquired, Next, Second, Hand, Onward, Taking, Turned, Log.Now;
      ghost var b, buf0, w0 := Hand(stage, lbuf, dbuf), cache.buf, cache.waiting;
      HandsTaking(stage, buf0, w0, me, lbuf, dbuf, start, lh);
      AloneTakes(buf0, w0, me, b, H, Next(stage, start, lh));
      AloneTaken(buf0, w0, me, b, H, cache.disk);
      var _ := Take();
    }

    /** One turn of the loop of install_trans, when no other process runs. */
    method InstallBlock()
      requires Mid() && stage.Installing? && stage.at.Begin? && stage.tail < |lh| && plan.boot && Dirty(cache.buf) == {}
      requires Alone(cache.buf, cache.waiting, me, {})
      modifies cache, `stage, `lbuf, `dbuf, `epoch
      ensures Mid() && stage == Installing(old(stage).tail + 1, Begin)
      ensures Alone(cache.buf, cache.waiting, me, {}) && cache.waiting == map[] && Dirty(cache.buf) == {}
    {
      hide StageOk, HandsOk, Coherent, Ring, View, Dirty, Explains, Agrees, Counted, Alone, SameCounts, Turned, Log.Now;
      ReadAlone({});
      SecondBuffer();
      ReadAlone({} + {lbuf});
      ghost var buf0 := cache.buf;
      WriteHomeBlock();
      AloneSame(buf0, cache.waiting, cache.buf, me, {} + {lbuf} + {dbuf});
      DropBoth();
    }

    /** The two calls of brelse at the end of that turn. */
    method DropBoth()
      requires Mid() && stage.Installing? && stage.at.Copied? && stage.tail < |lh| && lbuf != dbuf
      requires Alone(cache.buf, cache.waiting, me, {} + {lbuf} + {dbuf}) && cache.waiting == map[]
      modifies cache, `stage
      ensures Mid() && stage == Installing(old(stage).tail + 1, Begin) && Dirty(cache.buf) == old(Dirty(cache.buf))
      ensures Alone(cache.buf, cache.waiting, me, {}) && cache.waiting == map[]
    {
      hide StageOk, HandsOk, Coherent, Ring, View, Dirty, Explains, Agrees, Counted, Alone, Turned, Log.Now;
      ghost var buf1 := cache.buf;
      Drop();
      Unref(lbuf);
      AloneDropped(buf1, map[], me, lbuf, {} + {lbuf} + {dbuf}, cache.buf);
      ghost var buf2 := cache.buf;
      Drop();
      Unref(dbuf);
      AloneDropped(buf2, map[], me, dbuf, {} + {lbuf} + {dbuf} - {lbuf}, cache.buf);
      assert {} + {lbuf} + {dbuf} - {lbuf} - {dbuf} == {};
    }

    lemma NothingPinned()
      requires Mid() && stage.Clearing?
      ensures Dirty(cache.buf) == {}
    {
    }

    /** The buffer in hand is not that of the block to be read next. */
    lemma SecondBuffer()
      requires Mid() && stage.Installing? && stage.at.HaveLog? && stage.tail < |lh|
      ensures Elsewhere(cache.buf, {} + {lbuf}, Next(stage, start, lh)) && Fetching(stage, lh)
    {
      hide StageOk;
      CopyBlocks(plan, stage, cache.disk, cache.trace, View(cache.buf, cache.disk), Dirty(cache.buf), lh,
                 commits[|commits| - 1], start, size);
    }

    /** The write_head that clears the log, when no other process runs. */
    method ClearHead()
      requires Mid() && stage == Clearing(Begin) && lh == [] && Alone(cache.buf, cache.waiting, me, {})
      modifies cache, `stage, `lbuf, `dbuf, `epoch, `commits
      ensures Mid() && stage == Ending && Alone(cache.buf, cache.waiting, me, {}) && cache.waiting == map[]
      ensures PlanOk(plan, start, size) && cache.disk == Recovered(plan.head, start, size) && commits == old(commits)
      ensures cache.trace == plan.trace + AllImages(plan, start, size)
    {
      hide StageOk, HandsOk, Coherent, Ring, View, Dirty, Explains, Agrees, Counted, Alone, PlanOk, Recovered, Turned, Log.Now;
      NothingPinned();
      ReadAlone({});
      ghost var buf0 := cache.buf;
      WriteHead();
      AloneSame(buf0, cache.waiting, cache.buf, me, {} + {lbuf});
      CommitEnded(plan, cache.disk, cache.trace, View(cache.buf, cache.disk), Dirty(cache.buf), lh, commits[|commits| - 1], start, size);
      ghost var buf1 := cache.buf;
      Drop();
      Unref(lbuf);
      AloneDropped(buf1, map[], me, lbuf, {} + {lbuf}, cache.buf);
      assert {} + {lbuf} - {lbuf} == {};
    }
  }
}

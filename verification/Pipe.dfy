/** Pipes (pipe.c): a ring of PIPESIZE bytes with free-running 32-bit counters. Each method is the
    code between two points where p->lock is free, so every interleaving of readers and writers
    is a sequence of calls. */
module Pipe {
  import opened ByteView

  const PIPESIZE := 512
  const WRAP := 0x1_0000_0000

  /** Sleep: the caller sleeps and calls again; Fail: the system call returns -1. */
  datatype WriteOutcome = Written | WriteSleep | WriteFail
  datatype ReadOutcome = Bytes(bytes: seq<byte>) | ReadSleep | ReadFail

  // ---------- 32-bit counters of unbounded counts ----------

  /** The counter of x, reduced by PIPESIZE, is x reduced by PIPESIZE: PIPESIZE divides 2^32. */
  lemma CounterIndex(x: nat)
    ensures x % WRAP % PIPESIZE == x % PIPESIZE
  {
    var q := x / WRAP;
    assert x == PIPESIZE * (0x80_0000 * q) + x % WRAP;
    ModAdd(x % WRAP, 0x80_0000 * q);
  }

  lemma {:induction false} ModAdd(r: nat, k: nat)
    ensures (PIPESIZE * k + r) % PIPESIZE == r % PIPESIZE
  {
    if k > 0 {
      ModAdd(r, k - 1);
    }
  }

  /** Two counts less than 2^32 apart have equal counters only if they are equal. */
  lemma CountersEqual(x: nat, y: nat)
    requires x <= y < x + WRAP
    ensures x % WRAP == y % WRAP <==> x == y
  {
  }

  lemma CounterAdd(x: nat, d: nat)
    ensures (x % WRAP + d) % WRAP == (x + d) % WRAP
  {
  }

  /** Positions less than PIPESIZE apart use different cells of the ring. */
  lemma CellsDiffer(i: nat, j: nat)
    requires i < j < i + PIPESIZE
    ensures i % PIPESIZE != j % PIPESIZE
  {
  }

  class Pipe {
    const data: array<byte>
    var nread: nat       // uint
    var nwrite: nat      // uint
    var readopen: bool
    var writeopen: bool
    var readers: set<nat>      // processes asleep on &p->nread
    var writers: set<nat>      // processes asleep on &p->nwrite
    ghost var stored: seq<byte>      // all bytes ever written, in order
    ghost var delivered: seq<byte>   // all bytes ever read, in order

    /** The bytes delivered are the first bytes stored; the ring holds the rest. */
    ghost predicate Fifo()
      reads this, data
    {
      && data.Length == PIPESIZE
      && |delivered| <= |stored| <= |delivered| + PIPESIZE
      && delivered == stored[..|delivered|]
      && nread == |delivered| % WRAP && nwrite == |stored| % WRAP
      && forall j :: |delivered| <= j < |stored| ==> data[j % PIPESIZE] == stored[j]
    }

    /** No lost wakeup: with p->lock free, nobody sleeps who could go on. A killed writer with
        more than PIPESIZE bytes to go, while readers sleep, breaks this; nothing else does. */
    ghost predicate AllAwake()
      reads this
    {
      && (readers != {} ==> stored == delivered && writeopen && readopen)
      && (writers != {} ==> |stored| == |delivered| + PIPESIZE && readopen && writeopen)
    }

    constructor ()
      ensures Fifo() && AllAwake() && stored == [] && delivered == [] && readopen && writeopen && fresh(data)
      ensures readers == {} && writers == {}
    {
      data := new byte[PIPESIZE];
      nread, nwrite, readopen, writeopen := 0, 0, true, true;
      readers, writers := {}, {};
      stored, delivered := [], [];
    }

    /** The length of the ring content, from the counters. */
    method Length() returns (n: nat)
      requires Fifo()
      ensures n == |stored| - |delivered| <= PIPESIZE
    {
      n := (nwrite - nread) % WRAP;
      CountersEqual(0, |stored| - |delivered|);
      DifferenceOfCounters(|delivered|, |stored|);
    }

    /** pipewrite of addr, from byte i on, until it is done, has to sleep, or fails. */
    method Write(me: nat, addr: seq<byte>, i: nat, killed: bool) returns (k: nat, r: WriteOutcome)
      requires Fifo() && i <= |addr| && me !in writers
      requires writeopen
      modifies `nwrite, `readers, `writers, `stored, data
      ensures Fifo()
      ensures old(AllAwake()) ==> (AllAwake() <==> !(old(readers) != {} && killed && |addr| - i > PIPESIZE))
      ensures i <= k <= |addr| && stored == old(stored) + addr[i..k]
      ensures r.Written? ==> k == |addr| && readers == {} && writers == old(writers)
      ensures r.WriteSleep? ==> k < |addr| && readopen && !killed && |stored| == |delivered| + PIPESIZE
                                && readers == {} && writers == old(writers) + {me}
      ensures r.WriteFail? ==> readers == old(readers) && writers == old(writers)
      ensures r.WriteFail? <==> k < |addr| && |stored| == |delivered| + PIPESIZE && (!readopen || killed)
    {
      k := i;
      while k < |addr|
        invariant i <= k <= |addr| && Fifo() && stored == old(stored) + addr[i..k]
        invariant readers == old(readers) && writers == old(writers)
      {
        CounterAdd(|delivered|, PIPESIZE);
        CountersEqual(|stored|, |delivered| + PIPESIZE);
        if nwrite == (nread + PIPESIZE) % WRAP {
          if !readopen || killed {
            return k, WriteFail;
          }
          readers := {};
          writers := writers + {me};
          return k, WriteSleep;
        }
        Put(addr[k]);
        assert addr[i..k + 1] == addr[i..k] + [addr[k]];
        k := k + 1;
      }
      readers := {};
      return k, Written;
    }

    /** p->data[p->nwrite++ % PIPESIZE] = c. */
    method Put(c: byte)
      requires Fifo() && |stored| < |delivered| + PIPESIZE
      modifies `nwrite, `stored, data
      ensures Fifo() && stored == old(stored) + [c]
    {
      CounterIndex(|stored|);
      CounterAdd(|stored|, 1);
      forall j | |delivered| <= j < |stored| ensures j % PIPESIZE != |stored| % PIPESIZE {
        CellsDiffer(j, |stored|);
      }
      data[nwrite % PIPESIZE] := c;
      nwrite := (nwrite + 1) % WRAP;
      stored := stored + [c];
    }

    /** piperead of n bytes, until it is done, has to sleep, or fails. */
    method Read(me: nat, n: int, killed: bool) returns (r: ReadOutcome)
      requires Fifo() && me !in readers
      requires readopen
      modifies `nread, `readers, `writers, `delivered
      ensures Fifo() && (old(AllAwake()) ==> AllAwake())
      ensures r.Bytes? ==> delivered == old(delivered) + r.bytes && writers == {}
                           && |r.bytes| == MinNat(n, old(|stored| - |delivered|))
      ensures r.Bytes? && n > 0 && r.bytes == [] ==> stored == delivered && !writeopen
      ensures !r.Bytes? ==> delivered == old(delivered) && stored == delivered && writeopen
      ensures !r.Bytes? <==> old(stored == delivered) && writeopen
      ensures r.ReadFail? ==> killed && readers == old(readers) && writers == old(writers)
      ensures r.ReadSleep? ==> !killed && readers == old(readers) + {me} && writers == old(writers)
    {
      CountersEqual(|delivered|, |stored|);
      if nread == nwrite && writeopen {
        if killed {
          return ReadFail;
        }
        readers := readers + {me};
        return ReadSleep;
      }
      var i, bytes := 0, [];
      while i < n
        invariant Fifo() && i == |bytes| <= (if n < 0 then 0 else n) && delivered == old(delivered) + bytes
        invariant readers == old(readers)
      {
        CountersEqual(|delivered|, |stored|);
        if nread == nwrite {
          break;
        }
        CounterIndex(|delivered|);
        CounterAdd(|delivered|, 1);
        bytes := bytes + [data[nread % PIPESIZE]];
        delivered := delivered + [stored[|delivered|]];
        nread := (nread + 1) % WRAP;
        i := i + 1;
      }
      writers := {};
      return Bytes(bytes);
    }

    /** pipeclose. A process that sleeps in piperead or pipewrite still has its end open. */
    method Close(writable: bool) returns (freed: bool)
      requires (if writable then writers == {} else readers == {})
      modifies `readopen, `writeopen, `readers, `writers
      ensures old(AllAwake()) ==> AllAwake()
      ensures freed <==> !readopen && !writeopen
      ensures readopen == (old(readopen) && writable) && writeopen == (old(writeopen) && !writable)
      ensures if writable then readers == {} else writers == {}
    {
      if writable {
        writeopen := false;
        readers := {};
      } else {
        readopen := false;
        writers := {};
      }
      freed := !readopen && !writeopen;
    }
  }

  /** The killed writer at work: a reader waits at an empty pipe, and a process that has been
      killed writes 513 bytes. It fills the pipe, gives up, and the reader sleeps on. */
  method FillAndGiveUp() returns (p: Pipe)
    ensures fresh(p) && p.Fifo() && p.readers == {1} && |p.stored| == |p.delivered| + PIPESIZE && !p.AllAwake()
  {
    p := new Pipe();
    var _ := p.Read(1, 1, false);
    var k, r := p.Write(2, seq(PIPESIZE + 1, _ => 0), 0, true);
  }

  function MinNat(a: int, b: int): int {
    if a <= 0 then 0 else if a < b then a else b
  }

  lemma DifferenceOfCounters(x: nat, y: nat)
    requires x <= y < x + WRAP
    ensures (y % WRAP - x % WRAP) % WRAP == y - x
  {
  }
}

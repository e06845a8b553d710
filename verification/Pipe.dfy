/** Pipes (pipe.c): a ring buffer with 32-bit counters that are never reset. A method runs from
    one acquisition of the pipe's lock to the next sleep or return, so any sequence of calls
    is an interleaving of readers and writers. */
module Pipe {
  import opened Common

  const PIPESIZE := 512

  /** How a stretch of pipewrite ends: all written, sleeping on a full pipe, or -1. */
  datatype WriteStatus = WriteDone | WriteSleeps | WriteFails

  datatype ReadStatus = ReadDone | ReadSleeps | ReadFails

  // ---- counters that wrap ----

  function Inc(x: uint): (r: uint) { (x + 1) % UINT_LIMIT }

  lemma IncWraps(n: nat)
    ensures Inc(n % UINT_LIMIT) == (n + 1) % UINT_LIMIT
  {
  }

  /** A wrapped counter still finds the right place: PIPESIZE divides 2^32. */
  lemma PlaceSurvivesWrap(n: nat)
    ensures n % UINT_LIMIT % PIPESIZE == n % PIPESIZE
  {
    var q := n / UINT_LIMIT;
    var r := n % UINT_LIMIT;
    assert n == PIPESIZE * (8388608 * q) + r;
    ModAdd(8388608 * q, r);
  }

  lemma ModAdd(k: nat, r: nat)
    ensures (PIPESIZE * k + r) % PIPESIZE == r % PIPESIZE
  {
  }

  /** The tests for a full and an empty pipe are right although the counters wrap. */
  lemma TestsSurviveWrap(r: nat, w: nat)
    requires r <= w <= r + PIPESIZE
    ensures w % UINT_LIMIT == (r % UINT_LIMIT + PIPESIZE) % UINT_LIMIT <==> w == r + PIPESIZE
    ensures r % UINT_LIMIT == w % UINT_LIMIT <==> r == w
  {
    var d := w - r;
    assert w % UINT_LIMIT == (r % UINT_LIMIT + d) % UINT_LIMIT;
  }

  /** Positions less than PIPESIZE apart have different places in the ring. */
  lemma PlacesDiffer(a: nat, b: nat)
    requires a < b < a + PIPESIZE
    ensures a % PIPESIZE != b % PIPESIZE
  {
    var d := b - a;
    assert b % PIPESIZE == (a % PIPESIZE + d) % PIPESIZE;
  }

  class PipeBuf {
    const data: array<byte>
    var nread: uint
    var nwrite: uint
    var readopen: bool
    var writeopen: bool
    ghost var accepted: seq<byte>   // every byte a writer has put in
    ghost var delivered: seq<byte>  // every byte a reader has taken out

    /** What has been delivered is a prefix of what was accepted, the rest is in the ring, and
        there are never more than PIPESIZE bytes in it. */
    ghost predicate Valid()
      reads this, data
    {
      && data.Length == PIPESIZE
      && delivered <= accepted && |accepted| <= |delivered| + PIPESIZE
      && nread == |delivered| % UINT_LIMIT && nwrite == |accepted| % UINT_LIMIT
      && forall k :: |delivered| <= k < |accepted| ==> data[k % PIPESIZE] == accepted[k]
    }

    constructor ()
      ensures Valid() && fresh(data) && accepted == [] && delivered == [] && readopen && writeopen
    {
      data := new byte[PIPESIZE](i => 0);
      nread, nwrite, readopen, writeopen := 0, 0, true, true;
      accepted, delivered := [], [];
    }

    /** `p->data[p->nwrite++ % PIPESIZE] = c` on a pipe that is not full. */
    method PutByte(c: byte)
      requires Valid() && |accepted| < |delivered| + PIPESIZE
      modifies this`nwrite, this`accepted, data
      ensures Valid() && accepted == old(accepted) + [c]
    {
      PlaceSurvivesWrap(|accepted|);
      IncWraps(|accepted|);
      ghost var n := |accepted|;
      data[nwrite % PIPESIZE] := c;
      nwrite := Inc(nwrite);
      accepted := accepted + [c];
      forall k | |delivered| <= k < |accepted|
        ensures data[k % PIPESIZE] == accepted[k]
      {
        if k < n { PlacesDiffer(k, n); }
      }
    }

    /** `p->data[p->nread++ % PIPESIZE]` on a pipe that is not empty. */
    method TakeByte() returns (c: byte)
      requires Valid() && |delivered| < |accepted|
      modifies this`nread, this`delivered
      ensures Valid() && c == accepted[|old(delivered)|] && delivered == old(delivered) + [c]
    {
      PlaceSurvivesWrap(|delivered|);
      IncWraps(|delivered|);
      c := data[nread % PIPESIZE];
      nread := Inc(nread);
      delivered := delivered + [c];
    }

    /** pipewrite from byte i on, up to its next sleep or return. */
    method Write(addr: seq<byte>, i: nat, killed: bool) returns (status: WriteStatus, j: nat)
      requires Valid() && i <= |addr|
      modifies this`nwrite, this`accepted, data
      ensures Valid() && i <= j <= |addr|
      ensures accepted == old(accepted) + addr[i..j]
      ensures status == WriteDone <==> j == |addr|
      ensures status != WriteDone ==> |accepted| == |delivered| + PIPESIZE
      ensures status == WriteFails ==> !readopen || killed
      ensures status == WriteSleeps ==> readopen && !killed
    {
      j := i;
      while j < |addr|
        invariant Valid() && i <= j <= |addr|
        invariant accepted == old(accepted) + addr[i..j]
      {
        TestsSurviveWrap(|delivered|, |accepted|);
        if nwrite == (nread + PIPESIZE) % UINT_LIMIT {
          status := if !readopen || killed then WriteFails else WriteSleeps;
          return;
        }
        PutByte(addr[j]);
        assert addr[i..j + 1] == addr[i..j] + [addr[j]];
        j := j + 1;
      }
      status := WriteDone;
    }

    /** piperead of up to n bytes, up to its next sleep or return. */
    method Read(n: nat, killed: bool) returns (status: ReadStatus, bytes: seq<byte>)
      requires Valid()
      modifies this`nread, this`delivered
      ensures Valid() && delivered == old(delivered) + bytes
      ensures status == ReadSleeps <==> old(delivered) == accepted && writeopen && !killed
      ensures status == ReadFails <==> old(delivered) == accepted && writeopen && killed
      ensures status != ReadDone ==> bytes == []
      ensures status == ReadDone ==>
        bytes == accepted[|old(delivered)|..][..Min(n, |accepted| - |old(delivered)|)]
    {
      bytes := [];
      TestsSurviveWrap(|delivered|, |accepted|);
      if nread == nwrite && writeopen {
        assert delivered == accepted;
        status := if killed then ReadFails else ReadSleeps;
        return;
      }
      status := ReadDone;
      ghost var start := |delivered|;
      while |bytes| < n
        invariant Valid() && |bytes| <= n && start + |bytes| == |delivered|
        invariant delivered == old(delivered) + bytes
      {
        TestsSurviveWrap(|delivered|, |accepted|);
        if nread == nwrite {
          break;
        }
        var c := TakeByte();
        bytes := bytes + [c];
      }
      assert bytes == accepted[start..][..|bytes|];
    }

    /** pipeclose; true when the pipe's page is freed. */
    method Close(writable: bool) returns (freed: bool)
      requires Valid()
      modifies this`readopen, this`writeopen
      ensures Valid() && freed == (!readopen && !writeopen)
      ensures if writable then !writeopen && readopen == old(readopen) else !readopen && writeopen == old(writeopen)
    {
      if writable {
        writeopen := false;
      } else {
        readopen := false;
      }
      freed := !readopen && !writeopen;
    }
  }

}

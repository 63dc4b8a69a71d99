/**
 Pipes of labo2/kernel/pipe.c.  Each method is one stretch of a reader or a writer under the
 pipe's lock, from an acquire or a wakeup to the next sleep or release: whatever order
 readers and writers take turns in is a sequence of such calls.
 */
module Pipes {
  const PIPESIZE: nat := 512
  const U32: nat := 0x1_0000_0000

  // How many bytes the counters say the ring holds; they wrap at 2^32.
  function Held(nread: nat, nwrite: nat): nat {
    (nwrite + U32 - nread) % U32
  }

  // n % PIPESIZE
  function Index(n: nat): (i: nat)
    ensures i < PIPESIZE
  {
    n % PIPESIZE
  }

  function Next(n: nat): (m: nat)
    ensures m < U32
  {
    (n + 1) % U32
  }

  // The `n` bytes of the ring from counter `from` on, oldest first.
  function Ring(data: seq<int>, from: nat, n: nat): (r: seq<int>)
    requires |data| == PIPESIZE
    ensures |r| == n
  {
    seq(n, k requires 0 <= k < n => data[Index(from + k)])
  }

  ghost predicate Good(data: seq<int>, nread: nat, nwrite: nat, accepted: seq<int>, consumed: seq<int>) {
    && |data| == PIPESIZE && nread < U32 && nwrite < U32 && Held(nread, nwrite) <= PIPESIZE
    && accepted == consumed + Ring(data, nread, Held(nread, nwrite))
  }

  // The tests of pipewrite and piperead.
  lemma FullAndEmpty(nread: nat, nwrite: nat)
    requires nread < U32 && nwrite < U32 && Held(nread, nwrite) <= PIPESIZE
    ensures nwrite == (nread + PIPESIZE) % U32 <==> Held(nread, nwrite) == PIPESIZE
    ensures nread == nwrite <==> Held(nread, nwrite) == 0
  {
  }

  lemma HeldNext(nread: nat, nwrite: nat)
    requires nread < U32 && nwrite < U32 && Held(nread, nwrite) <= PIPESIZE
    ensures Held(nread, nwrite) < PIPESIZE ==> Held(nread, Next(nwrite)) == Held(nread, nwrite) + 1
    ensures Held(nread, nwrite) > 0 ==> Held(Next(nread), nwrite) == Held(nread, nwrite) - 1
  {
    HeldIs(nread, nwrite);
    NextIs(nread);
    NextIs(nwrite);
    HeldIs(nread, Next(nwrite));
    HeldIs(Next(nread), nwrite);
    hide Held, Next;
  }

  lemma HeldIs(nread: nat, nwrite: nat)
    requires nread < U32 && nwrite < U32
    ensures Held(nread, nwrite) == if nwrite >= nread then nwrite - nread else nwrite + U32 - nread
  {
  }

  lemma NextIs(n: nat)
    requires n < U32
    ensures Next(n) == if n + 1 == U32 then 0 else n + 1
  {
  }

  // 2^32 is a multiple of PIPESIZE: wrapping does not move bytes.
  lemma IndexWraps(n: nat)
    ensures n >= U32 ==> Index(n - U32) == Index(n)
  {
  }

  lemma IndexOfNext(n: nat, k: nat)
    requires n < U32
    ensures Index(Next(n) + k) == Index(n + 1 + k)
  {
    IndexWraps(n + 1 + k);
  }

  lemma IndexOfWrite(nread: nat, nwrite: nat)
    requires nread < U32 && nwrite < U32
    ensures Index(nwrite) == Index(nread + Held(nread, nwrite))
  {
    IndexWraps(nread + Held(nread, nwrite));
  }

  lemma IndicesDiffer(from: nat, j: nat, k: nat)
    requires j < k < j + PIPESIZE
    ensures Index(from + j) != Index(from + k)
  {
  }

  // data[nwrite++ % PIPESIZE] = ch
  lemma Pushed(data: seq<int>, nread: nat, nwrite: nat, accepted: seq<int>, consumed: seq<int>, ch: int)
    requires Good(data, nread, nwrite, accepted, consumed) && Held(nread, nwrite) < PIPESIZE
    ensures Good(data[Index(nwrite) := ch], nread, Next(nwrite), accepted + [ch], consumed)
  {
    HeldNext(nread, nwrite);
    IndexOfWrite(nread, nwrite);
    var n, d := Held(nread, nwrite), data[Index(nwrite) := ch];
    hide Index, Held, Next;
    var r, q := Ring(data, nread, n), Ring(d, nread, n + 1);
    forall k | 0 <= k < n ensures q[k] == r[k] {
      IndicesDiffer(nread, k, n);
    }
    assert q[n] == ch;
    assert q == r + [ch];
    assert consumed + r + [ch] == consumed + q;
  }

  // ch = data[nread++ % PIPESIZE]
  lemma Popped(data: seq<int>, nread: nat, nwrite: nat, accepted: seq<int>, consumed: seq<int>)
    requires Good(data, nread, nwrite, accepted, consumed) && Held(nread, nwrite) > 0
    ensures Good(data, Next(nread), nwrite, accepted, consumed + [data[Index(nread)]])
  {
    HeldNext(nread, nwrite);
    var n, ch := Held(nread, nwrite), data[Index(nread)];
    hide Index, Held, Next;
    var r, q := Ring(data, nread, n), Ring(data, Next(nread), n - 1);
    forall k | 0 <= k < n - 1 ensures q[k] == r[k + 1] {
      IndexOfNext(nread, k);
    }
    assert r[0] == ch;
    assert r == [ch] + q;
    assert consumed + r == consumed + [ch] + q;
  }

  // How a stretch under the lock ends: asleep, or returned.
  datatype Outcome = Slept | Returned(r: int)

  class Pipe {
    const data: array<int>
    var nread: nat
    var nwrite: nat
    var readopen: bool
    var writeopen: bool
    var freed: bool
    ghost var accepted: seq<int>    // every byte ever written
    ghost var consumed: seq<int>    // every byte ever taken out

    ghost predicate Valid()
      reads this, data
    {
      data.Length == PIPESIZE && Good(data[..], nread, nwrite, accepted, consumed)
        && (freed <==> !readopen && !writeopen)
    }

    /** pipealloc */
    constructor ()
      ensures Valid() && fresh(data) && readopen && writeopen && accepted == [] && consumed == []
    {
      data := new int[PIPESIZE](i => 0);
      nread, nwrite, readopen, writeopen, freed := 0, 0, true, true, false;
      accepted, consumed := [], [];
      new;
      assert Ring(data[..], 0, 0) == [];
    }

    /** pipeclose: the page is freed when both ends are closed. */
    method Close(writable: bool)
      requires Valid() && !freed
      modifies this`readopen, this`writeopen, this`freed
      ensures Valid()
      ensures readopen == (old(readopen) && writable) && writeopen == (old(writeopen) && !writable)
      ensures freed <==> !readopen && !writeopen
    {
      hide Good;
      if writable {
        writeopen := false;
      } else {
        readopen := false;
      }
      if !readopen && !writeopen {
        freed := true;
      }
    }

    /**
     pipewrite from byte `from` of `src` on, until it sleeps or returns.  Bytes are accepted
     in order; it sleeps only when the ring is full.  `dieAt` and `faultAt` are the bytes at
     which the process is found killed and its memory not readable, if any.
     */
    method Write(src: seq<int>, from: nat, dieAt: nat, faultAt: nat) returns (out: Outcome, i: nat)
      requires Valid() && !freed && from <= |src|
      modifies this`nwrite, this`accepted, data
      ensures Valid() && from <= i <= |src| && accepted == old(accepted) + src[from..i]
      ensures out.Slept? ==> i < |src| && Held(nread, nwrite) == PIPESIZE
      ensures out.Returned? ==> out.r == -1 || out.r == i
      ensures out.Returned? && out.r == -1 ==> i < |src| && (!readopen || i == dieAt)
      ensures out.Returned? && out.r != -1 && i < |src| ==> i == faultAt
    {
      i := from;
      hide Good, Held, Index, Next, Ring;
      ghost var accepted0 := accepted;
      while i < |src|
        invariant Valid() && from <= i <= |src| && accepted == accepted0 + src[from..i]
      {
        Shape(data[..], nread, nwrite, accepted, consumed);
        FullAndEmpty(nread, nwrite);
        if !readopen || i == dieAt {
          return Returned(-1), i;
        }
        if nwrite == (nread + PIPESIZE) % U32 {
          return Slept, i;
        }
        if i == faultAt {
          break;
        }
        Pushed(data[..], nread, nwrite, accepted, consumed, src[i]);
        ghost var d := data[..][Index(nwrite) := src[i]];
        data[Index(nwrite)] := src[i];
        assert data[..] == d;
        nwrite := Next(nwrite);
        accepted := accepted + [src[i]];
        i := i + 1;
        assert src[from..i] == src[from..i - 1] + [src[i - 1]];
      }
      out := Returned(i);
    }

    /**
     piperead of up to `n` bytes, until it sleeps or returns.  Bytes come out in the order
     they went in; the one at which the reader's memory faults is lost.  When copies succeed
     it returns 0 only if all that was accepted is consumed and the write end is closed.
     */
    method Read(n: nat, killed: bool, faultAt: nat) returns (out: Outcome, dst: seq<int>)
      requires Valid() && !freed
      modifies this`nread, this`consumed
      ensures Valid() && |dst| <= n
      ensures out.Slept? ==> consumed == old(consumed) == accepted && writeopen && !killed && dst == []
      ensures out.Returned? ==> out.r == -1 || out.r == |dst|
      ensures out.Returned? && out.r == -1 ==> killed && consumed == old(consumed) == accepted && writeopen
      ensures out.Returned? && out.r != -1 ==>
        if |dst| == faultAt && |consumed| > |old(consumed)| + |dst|
        then consumed[..|consumed| - 1] == old(consumed) + dst
        else consumed == old(consumed) + dst && (|dst| < n ==> consumed == accepted)
      ensures out.Returned? && out.r == 0 && n > 0 && faultAt >= n ==> consumed == accepted && !writeopen
    {
      hide Good, Held, Index, Next, Ring;
      Shape(data[..], nread, nwrite, accepted, consumed);
      FullAndEmpty(nread, nwrite);
      dst := [];
      if nread == nwrite && writeopen {
        AllConsumed(data[..], nread, nwrite, accepted, consumed);
        if killed {
          return Returned(-1), [];
        }
        return Slept, [];
      }
      ghost var consumed0 := consumed;
      ghost var some := nread != nwrite;
      var i := 0;
      while i < n
        invariant Valid() && i <= n && |dst| == i && consumed == consumed0 + dst
        invariant i == 0 ==> some == (nread != nwrite)
      {
        Shape(data[..], nread, nwrite, accepted, consumed);
        FullAndEmpty(nread, nwrite);
        if nread == nwrite {
          AllConsumed(data[..], nread, nwrite, accepted, consumed);
          break;
        }
        var ch := data[Index(nread)];
        Popped(data[..], nread, nwrite, accepted, consumed);
        nread := Next(nread);
        consumed := consumed + [ch];
        if i == faultAt {
          assert consumed[..|consumed| - 1] == consumed0 + dst;
          break;
        }
        dst := dst + [ch];
        i := i + 1;
      }
      out := Returned(i);
    }
  }

  lemma Shape(data: seq<int>, nread: nat, nwrite: nat, accepted: seq<int>, consumed: seq<int>)
    requires Good(data, nread, nwrite, accepted, consumed)
    ensures nread < U32 && nwrite < U32 && Held(nread, nwrite) <= PIPESIZE
  {
  }

  lemma AllConsumed(data: seq<int>, nread: nat, nwrite: nat, accepted: seq<int>, consumed: seq<int>)
    requires Good(data, nread, nwrite, accepted, consumed) && nread == nwrite
    ensures consumed == accepted
  {
    assert Ring(data, nread, 0) == [];
  }

  // What is consumed is a prefix of what is accepted, and the ring holds the rest.
  lemma Fifo(data: seq<int>, nread: nat, nwrite: nat, accepted: seq<int>, consumed: seq<int>)
    requires Good(data, nread, nwrite, accepted, consumed)
    ensures consumed <= accepted && Ring(data, nread, Held(nread, nwrite)) == accepted[|consumed|..]
    ensures |accepted| - |consumed| == Held(nread, nwrite) <= PIPESIZE
  {
  }
}

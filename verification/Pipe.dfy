/** The bounded pipe (pipe.c).  Each call runs from acquire to the next sleep or
    return under the pipe's lock, so a run is a sequence of such segments by any
    number of processes. */
module Pipe {
  import opened Common

  const PIPESIZE := 512

  // ------------------------------------------------- who sleeps, who is woken

  /** What the sleep/wakeup protocol depends on: bytes buffered, open ends, and
      the processes asleep on &p->nwrite and &p->nread. */
  datatype Gate = Gate(fill: nat, readopen: bool, writeopen: bool, wsleep: set<nat>, rsleep: set<nat>)

  datatype Outcome = Returned | Failed | Sleeps

  function Min(a: nat, b: nat): nat { if a < b then a else b }

  /** pipewrite with m bytes left to store, from acquire to sleep or return. */
  function WriteOutcome(g: Gate, m: nat, killed: bool): Outcome
    requires g.fill <= PIPESIZE
  {
    if m <= PIPESIZE - g.fill then Returned else if !g.readopen || killed then Failed else Sleeps
  }

  function WriteStep(g: Gate, p: nat, m: nat, killed: bool): (r: Gate)
    requires g.fill <= PIPESIZE
  {
    var full := g.fill + Min(m, PIPESIZE - g.fill);
    match WriteOutcome(g, m, killed)
    case Returned => g.(fill := full, rsleep := {})
    case Failed => g.(fill := full)
    case Sleeps => g.(fill := full, rsleep := {}, wsleep := g.wsleep + {p})
  }

  /** piperead of at most n bytes. */
  function ReadOutcome(g: Gate, killed: bool): Outcome {
    if g.fill == 0 && g.writeopen then (if killed then Failed else Sleeps) else Returned
  }

  function ReadStep(g: Gate, p: nat, n: nat, killed: bool): (r: Gate) {
    match ReadOutcome(g, killed)
    case Returned => g.(fill := g.fill - Min(n, g.fill), wsleep := {})
    case Failed => g
    case Sleeps => g.(rsleep := g.rsleep + {p})
  }

  function CloseStep(g: Gate, writable: bool): (r: Gate) {
    if writable then g.(writeopen := false, rsleep := {}) else g.(readopen := false, wsleep := {})
  }

  /** kill (or any other wakeup) makes one sleeper runnable. */
  function KillStep(g: Gate, p: nat): (r: Gate) {
    g.(wsleep := g.wsleep - {p}, rsleep := g.rsleep - {p})
  }

  datatype Event = Write(p: nat, m: nat, killed: bool) | Read(p: nat, n: nat, killed: bool) | Close(writable: bool) |
    Kill(p: nat)

  function Step(g: Gate, e: Event): (r: Gate)
    requires g.fill <= PIPESIZE
    ensures r.fill <= PIPESIZE
  {
    match e
    case Write(p, m, killed) => WriteStep(g, p, m, killed)
    case Read(p, n, killed) => ReadStep(g, p, n, killed)
    case Close(w) => CloseStep(g, w)
    case Kill(p) => KillStep(g, p)
  }

  function Play(g: Gate, es: seq<Event>): (r: Gate)
    requires g.fill <= PIPESIZE
    ensures r.fill <= PIPESIZE
  {
    if es == [] then g else Step(Play(g, es[..|es| - 1]), es[|es| - 1])
  }

  const Fresh := Gate(0, true, true, {}, {})

  /** A sleeping writer means a full pipe whose read end is open; a sleeping
      reader means an open write end. */
  ghost predicate WritersOk(g: Gate) {
    && g.fill <= PIPESIZE
    && (g.wsleep != {} ==> g.fill == PIPESIZE && g.readopen)
    && (g.rsleep != {} ==> g.writeopen)
  }

  /** A sleeping reader means an empty pipe. */
  ghost predicate ReadersOk(g: Gate) {
    g.rsleep != {} ==> g.fill == 0
  }

  /** A write that gives up on a full pipe after storing a whole buffer. */
  predicate Abandons(g: Gate, e: Event) {
    e.Write? && e.m > PIPESIZE && (e.killed || !g.readopen)
  }

  lemma {:induction false} WritersStep(g: Gate, e: Event)
    requires WritersOk(g)
    ensures WritersOk(Step(g, e))
  {
    match e
    case Kill(p) =>
      assert g.wsleep == {} ==> g.wsleep - {p} == {};
      assert g.rsleep == {} ==> g.rsleep - {p} == {};
    case _ =>
  }

  /** In every state of every run no writer sleeps on a pipe with room or with
      nobody to drain it. */
  lemma {:induction false} WritersAlways(es: seq<Event>)
    ensures WritersOk(Play(Fresh, es))
  {
    if es != [] {
      WritersAlways(es[..|es| - 1]);
      WritersStep(Play(Fresh, es[..|es| - 1]), es[|es| - 1]);
    }
  }

  /** Exactly which segment leaves a reader asleep on a non-empty pipe: with a
      reader asleep, a write of more than PIPESIZE bytes whose process has been
      killed (or whose read end is closed).  It returns without a wakeup. */
  lemma {:induction false} ReaderStranded(g: Gate, e: Event)
    requires WritersOk(g) && ReadersOk(g)
    ensures !ReadersOk(Step(g, e)) <==> g.rsleep != {} && Abandons(g, e)
  {
    match e
    case Kill(p) =>
      assert g.rsleep == {} ==> g.rsleep - {p} == {};
    case Read(p, n, killed) =>
      assert p in g.rsleep + {p};
    case _ =>
  }

  /** In runs without such a write, readers sleep on empty pipes only. */
  lemma {:induction false} ReadersAlways(es: seq<Event>)
    requires forall i :: 0 <= i < |es| ==> !Abandons(Play(Fresh, es[..i]), es[i])
    ensures ReadersOk(Play(Fresh, es))
  {
    if es != [] {
      var front := es[..|es| - 1];
      assert forall i :: 0 <= i < |front| ==> front[..i] == es[..i];
      ReadersAlways(front);
      WritersAlways(front);
      ReaderStranded(Play(Fresh, front), es[|es| - 1]);
    }
  }

  /** The shortest run that strands a reader. */
  lemma {:induction false} StrandedRun()
    ensures var g := Play(Fresh, [Read(1, 1, false), Write(2, PIPESIZE + 1, true)]);
            g.fill == PIPESIZE && 1 in g.rsleep
  {
    var es := [Read(1, 1, false), Write(2, PIPESIZE + 1, true)];
    assert es[..1] == [Read(1, 1, false)] && es[..1][..0] == [];
    assert Play(Fresh, es[..1]) == Step(Play(Fresh, []), es[0]);
  }

  // ------------------------------------------------------------- the buffer

  lemma {:induction false} WrapIndex(k: nat)
    ensures k % U32 % PIPESIZE == k % PIPESIZE
  {
    assert k == U32 * (k / U32) + k % U32;
    assert U32 * (k / U32) == PIPESIZE * (0x80_0000 * (k / U32));
    ModAdd(k % U32, 0x80_0000 * (k / U32));
  }

  lemma {:induction false} WrapInc(k: nat)
    ensures (k % U32 + 1) % U32 == (k + 1) % U32
  {
  }

  lemma {:induction false} ModAdd(a: nat, c: nat)
    ensures (PIPESIZE * c + a) % PIPESIZE == a % PIPESIZE
  {
    if c > 0 {
      ModAdd(a, c - 1);
    }
  }

  /** The counters compare equal modulo 2^32 exactly when the pipe is full (or
      empty), although both wrap. */
  lemma {:induction false} WrapCompare(r: nat, w: nat)
    requires r <= w <= r + PIPESIZE
    ensures w % U32 == (r % U32 + PIPESIZE) % U32 <==> w == r + PIPESIZE
    ensures w % U32 == r % U32 <==> w == r
  {
  }

  /** struct pipe.  `stored` and `delivered` are every byte ever written to and
      read from the buffer, in order. */
  class PipeBuf {
    const data: array<Byte>
    var nread: nat
    var nwrite: nat
    var readopen: bool
    var writeopen: bool
    var wsleep: set<nat>
    var rsleep: set<nat>
    var freed: bool
    ghost var stored: seq<Byte>
    ghost var delivered: seq<Byte>

    /** FIFO: what was delivered followed by what is buffered is what was stored. */
    ghost predicate Valid()
      reads this, data
    {
      && data.Length == PIPESIZE
      && |delivered| <= |stored| <= |delivered| + PIPESIZE
      && delivered == stored[..|delivered|]
      && nread == |delivered| % U32 && nwrite == |stored| % U32
      && (forall j :: |delivered| <= j < |stored| ==> data[j % PIPESIZE] == stored[j])
    }

    ghost function Abs(): Gate
      requires |delivered| <= |stored|
      reads this
    {
      Gate(|stored| - |delivered|, readopen, writeopen, wsleep, rsleep)
    }

    /** pipealloc */
    constructor ()
      ensures Valid() && Abs() == Fresh && stored == [] && !freed
    {
      data := new Byte[PIPESIZE](_ => 0);
      nread, nwrite, readopen, writeopen, wsleep, rsleep, freed := 0, 0, true, true, {}, {}, false;
      stored, delivered := [], [];
    }

    /** pipewrite by process p of addr[i..], until it returns or sleeps; i' is
        where it resumes.  Exactly addr[i..i'] is appended to the stream. */
    method Pipewrite(p: nat, addr: seq<Byte>, i: nat, killed: bool) returns (o: Outcome, i': nat)
      requires Valid() && i <= |addr|
      modifies this`nwrite, this`wsleep, this`rsleep, this`stored, data
      ensures Valid() && i <= i' <= |addr|
      ensures stored == old(stored) + addr[i..i']
      ensures o == WriteOutcome(old(Abs()), |addr| - i, killed)
      ensures Abs() == WriteStep(old(Abs()), p, |addr| - i, killed)
      ensures o == Returned <==> i' == |addr|
    {
      i' := i;
      while i' < |addr|
        invariant i <= i' <= |addr| && Valid()
        invariant stored == old(stored) + addr[i..i'] && delivered == old(delivered)
        invariant wsleep == old(wsleep) && rsleep == old(rsleep)
      {
        WrapCompare(|delivered|, |stored|);
        if nwrite == (nread + PIPESIZE) % U32 {
          if !readopen || killed {
            return Failed, i';
          }
          rsleep := {};
          wsleep := wsleep + {p};
          return Sleeps, i';
        }
        Put(addr[i']);
        assert addr[i..i' + 1] == addr[i..i'] + [addr[i']];
        i' := i' + 1;
      }
      rsleep := {};
      return Returned, i';
    }

    /** One byte goes in at the write counter. */
    method Put(x: Byte)
      requires Valid() && |stored| < |delivered| + PIPESIZE
      modifies this`nwrite, this`stored, data
      ensures Valid() && stored == old(stored) + [x]
    {
      WrapIndex(|stored|);
      WrapInc(|stored|);
      Distinct(|delivered|, |stored|);
      data[nwrite % PIPESIZE] := x;
      nwrite := (nwrite + 1) % U32;
      stored := stored + [x];
    }

    /** One byte comes out at the read counter. */
    method Get() returns (x: Byte)
      requires Valid() && |delivered| < |stored|
      modifies this`nread, this`delivered
      ensures Valid() && delivered == old(delivered) + [x]
    {
      WrapIndex(|delivered|);
      WrapInc(|delivered|);
      x := data[nread % PIPESIZE];
      nread := (nread + 1) % U32;
      delivered := delivered + [x];
      assert delivered == stored[..|delivered|];
    }

    /** piperead by process p of at most n bytes, until it returns or sleeps. */
    method Piperead(p: nat, n: nat, killed: bool) returns (o: Outcome, addr: seq<Byte>)
      requires Valid()
      modifies this`nread, this`wsleep, this`rsleep, this`delivered
      ensures Valid() && o == ReadOutcome(old(Abs()), killed)
      ensures Abs() == ReadStep(old(Abs()), p, n, killed)
      ensures delivered == old(delivered) + addr
      ensures o == Returned ==> |addr| == Min(n, |stored| - |old(delivered)|)
    {
      addr := [];
      WrapCompare(|delivered|, |stored|);
      if nread == nwrite && writeopen {
        if killed {
          return Failed, [];
        }
        rsleep := rsleep + {p};
        return Sleeps, [];
      }
      var i := 0;
      while i < n
        invariant 0 <= i <= n && |addr| == i && Valid()
        invariant delivered == old(delivered) + addr
        invariant wsleep == old(wsleep) && rsleep == old(rsleep)
      {
        WrapCompare(|delivered|, |stored|);
        if nread == nwrite {
          break;
        }
        var x := Get();
        addr := addr + [x];
        i := i + 1;
      }
      wsleep := {};
      return Returned, addr;
    }

    /** pipeclose; the page is freed when both ends are closed, and then nobody
        is asleep on it. */
    method Pipeclose(writable: bool)
      requires Valid() && WritersOk(Abs())
      modifies this`readopen, this`writeopen, this`wsleep, this`rsleep, this`freed
      ensures Valid() && Abs() == CloseStep(old(Abs()), writable) && WritersOk(Abs())
      ensures freed <==> old(freed) || (!readopen && !writeopen)
      ensures !readopen && !writeopen ==> wsleep == {} && rsleep == {}
    {
      if writable {
        writeopen := false;
        rsleep := {};
      } else {
        readopen := false;
        wsleep := {};
      }
      if !readopen && !writeopen {
        freed := true;
      }
    }
  }

  /** Distinct positions less than PIPESIZE apart use distinct cells. */
  lemma {:induction false} Distinct(lo: nat, hi: nat)
    requires lo <= hi < lo + PIPESIZE
    ensures forall j :: lo <= j < hi ==> j % PIPESIZE != hi % PIPESIZE
  {
  }
}

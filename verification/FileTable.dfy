/** File-table reference counts (file.c, sysfile.c, and the descriptor loops of
    fork and exit): every count is exactly the descriptors and in-flight calls
    that own a reference, over all interleavings of any processes. */
module FileTable {
  import opened Common

  const NOFILE := 16

  /** What a file refers to, and what fileclose hands on at the last close. */
  datatype Kind = FdNone | FdPipe(pipe: nat, writable: bool) | FdInode(ip: nat)

  /** struct file.  gets counts the references to an inode or pipe end it was given,
      puts the ones it handed on to iput or pipeclose. */
  datatype File = File(ref: nat, kind: Kind, gets: nat, puts: nat)

  // ------------------------------------------------------------ file.c

  /** The entry filealloc picks. */
  predicate LowestFile(files: seq<File>, f: nat) {
    f < |files| && files[f].ref == 0 && forall g :: 0 <= g < f ==> files[g].ref > 0
  }

  function Drop(x: File): File
    requires x.ref > 0
  {
    if x.ref > 1 then x.(ref := x.ref - 1)
    else File(0, FdNone, x.gets, if x.kind == FdNone then x.puts else x.puts + 1)
  }

  function Fill(x: File, k: Kind): File { x.(kind := k, gets := x.gets + 1) }

  class Ftable {
    var files: seq<File>

    method Filealloc() returns (r: Option<nat>)
      modifies this
      ensures r.None? ==> files == old(files) && forall f :: 0 <= f < |files| ==> files[f].ref > 0
      ensures r.Some? ==>
                && LowestFile(old(files), r.value)
                && files == old(files)[r.value := old(files)[r.value].(ref := 1)]
    {
      var f := 0;
      while f < |files|
        invariant 0 <= f <= |files| && files == old(files)
        invariant forall g :: 0 <= g < f ==> files[g].ref > 0
      {
        if files[f].ref == 0 {
          files := files[f := files[f].(ref := 1)];
          return Some(f);
        }
        f := f + 1;
      }
      return None;
    }

    method Filedup(f: nat) returns (panic: bool)
      requires f < |files|
      modifies this
      ensures panic <==> old(files)[f].ref < 1
      ensures files == if panic then old(files) else old(files)[f := old(files)[f].(ref := old(files)[f].ref + 1)]
    {
      if files[f].ref < 1 {
        return true;
      }
      files := files[f := files[f].(ref := files[f].ref + 1)];
      return false;
    }

    /** fileclose; released is what the caller must now put or close. */
    method Fileclose(f: nat) returns (panic: bool, released: Kind)
      requires f < |files|
      modifies this
      ensures panic <==> old(files)[f].ref < 1
      ensures panic ==> files == old(files)
      ensures !panic ==> old(files)[f].ref > 0 && files == old(files)[f := Drop(old(files)[f])]
      ensures released == if !panic && old(files)[f].ref == 1 then old(files)[f].kind else FdNone
    {
      if files[f].ref < 1 {
        return true, FdNone;
      }
      var ref := files[f].ref - 1;
      if ref > 0 {
        files := files[f := files[f].(ref := ref)];
        return false, FdNone;
      }
      released := files[f].kind;
      var puts := files[f].puts;
      if released != FdNone {
        puts := puts + 1;
      }
      files := files[f := files[f].(ref := 0, kind := FdNone, puts := puts)];
      return false, released;
    }
  }

  /** The descriptor fdalloc picks. */
  predicate LowestFd(ofile: seq<Option<nat>>, fd: nat) {
    fd < |ofile| && ofile[fd] == None && forall j :: 0 <= j < fd ==> ofile[j].Some?
  }

  predicate Full(ofile: seq<Option<nat>>) { forall fd :: 0 <= fd < |ofile| ==> ofile[fd].Some? }

  /** fdalloc: the first free descriptor takes over the caller's reference. */
  method Fdalloc(ofile: seq<Option<nat>>, f: nat) returns (r: Option<nat>, out: seq<Option<nat>>)
    ensures r.None? ==> out == ofile && Full(ofile)
    ensures r.Some? ==> LowestFd(ofile, r.value) && out == ofile[r.value := Some(f)]
  {
    var fd := 0;
    while fd < |ofile|
      invariant 0 <= fd <= |ofile|
      invariant forall j :: 0 <= j < fd ==> ofile[j].Some?
    {
      if ofile[fd] == None {
        return Some(fd), ofile[fd := Some(f)];
      }
      fd := fd + 1;
    }
    return None, ofile;
  }

  // ---------------------------------------------------------- in-flight calls

  /** Where a process is between the steps that touch shared counts. */
  datatype Pc =
    | Dead                                    // free slot of the process table
    | Embryo(forker: nat)                     // being built by fork
    | User
    | Fresh(f: nat)                           // filealloc done, no descriptor and no contents yet
    | Unfilled(f: nat)                        // sys_open: descriptor set, contents not filled in
    | Dup(f: nat)                             // sys_dup between fdalloc and filedup
    | Hold(f: nat)                            // sys_close or sys_pipe about to fileclose f
    | Fresh2(rf: nat, wf: nat)                // pipealloc with both files, no pipe yet
    | Hold2(rf: nat, wf: nat)                 // sys_pipe with both ends and no descriptor
    | HalfPipe(fd: nat, rf: nat, wf: nat)     // sys_pipe with the read end at descriptor fd
    | ForkAt(child: nat, fd: nat)             // fork's loop
    | ForkHold(child: nat, fd: nat, f: nat)   // filedup done, child's descriptor not set
    | ExitAt(fd: nat)                         // exit's loop
    | ExitStale(fd: nat, f: nat)              // fileclose done, descriptor not cleared

  datatype Proc = Proc(ofile: seq<Option<nat>>, pc: Pc)

  datatype Sys = Sys(files: seq<File>, procs: seq<Proc>)

  function Count(ofile: seq<Option<nat>>, f: nat): nat {
    if ofile == [] then 0 else (if ofile[0] == Some(f) then 1 else 0) + Count(ofile[1..], f)
  }

  function One(b: bool): int { if b then 1 else 0 }

  /** References to f that process x accounts for: its descriptors, plus what the
      call in flight holds, minus what it has taken without counting yet or given
      back without clearing yet. */
  function Credit(x: Proc, f: nat): int {
    Count(x.ofile, f) +
    match x.pc
    case Fresh(g) => One(f == g)
    case Hold(g) => One(f == g)
    case Fresh2(rf, wf) => One(f == rf) + One(f == wf)
    case Hold2(rf, wf) => One(f == rf) + One(f == wf)
    case HalfPipe(_, _, wf) => One(f == wf)
    case ForkHold(_, _, g) => One(f == g)
    case Dup(g) => -One(f == g)
    case ExitStale(_, g) => -One(f == g)
    case _ => 0
  }

  function Sum(procs: seq<Proc>, f: nat): int {
    if procs == [] then 0 else Credit(procs[0], f) + Sum(procs[1..], f)
  }

  lemma {:induction false} CountUpdate(ofile: seq<Option<nat>>, fd: nat, x: Option<nat>, f: nat)
    requires fd < |ofile|
    ensures Count(ofile[fd := x], f) == Count(ofile, f) - One(ofile[fd] == Some(f)) + One(x == Some(f))
  {
    if fd == 0 {
      assert ofile[fd := x][1..] == ofile[1..];
    } else {
      CountUpdate(ofile[1..], fd - 1, x, f);
      assert ofile[fd := x][1..] == ofile[1..][fd - 1 := x];
    }
  }

  lemma {:induction false} CountAtLeast(ofile: seq<Option<nat>>, fd: nat, f: nat)
    requires fd < |ofile| && ofile[fd] == Some(f)
    ensures Count(ofile, f) >= 1
  {
    if fd > 0 {
      CountAtLeast(ofile[1..], fd - 1, f);
    }
  }

  lemma {:induction false} CountNone(ofile: seq<Option<nat>>, f: nat)
    ensures Count(ofile, f) == 0 <==> forall fd :: 0 <= fd < |ofile| ==> ofile[fd] != Some(f)
  {
    if ofile != [] {
      CountNone(ofile[1..], f);
      if Count(ofile, f) == 0 {
        forall fd | 0 <= fd < |ofile|
          ensures ofile[fd] != Some(f)
        {
          assert fd > 0 ==> ofile[fd] == ofile[1..][fd - 1];
        }
      }
    }
  }

  lemma {:induction false} SumUpdate(procs: seq<Proc>, p: nat, x: Proc, f: nat)
    requires p < |procs|
    ensures Sum(procs[p := x], f) == Sum(procs, f) - Credit(procs[p], f) + Credit(x, f)
  {
    if p == 0 {
      assert procs[p := x][1..] == procs[1..];
    } else {
      SumUpdate(procs[1..], p - 1, x, f);
      assert procs[p := x][1..] == procs[1..][p - 1 := x];
    }
  }

  /** With no negative credits, a sum bounds each of its terms. */
  lemma {:induction false} SumBounds(procs: seq<Proc>, p: nat, f: nat)
    requires p < |procs| && forall q :: 0 <= q < |procs| ==> Credit(procs[q], f) >= 0
    ensures 0 <= Credit(procs[p], f) <= Sum(procs, f)
  {
    SumNonNegative(procs[1..], f);
    if p > 0 {
      SumBounds(procs[1..], p - 1, f);
    }
  }

  lemma {:induction false} SumNonNegative(procs: seq<Proc>, f: nat)
    requires forall q :: 0 <= q < |procs| ==> Credit(procs[q], f) >= 0
    ensures Sum(procs, f) >= 0
  {
    if procs != [] {
      SumNonNegative(procs[1..], f);
    }
  }

  lemma {:induction false} SumTwo(procs: seq<Proc>, p: nat, q: nat, f: nat)
    requires p < q < |procs| && forall i :: 0 <= i < |procs| ==> Credit(procs[i], f) >= 0
    ensures Credit(procs[p], f) + Credit(procs[q], f) <= Sum(procs, f)
  {
    if p == 0 {
      SumBounds(procs[1..], q - 1, f);
    } else {
      SumTwo(procs[1..], p - 1, q - 1, f);
    }
  }

  // --------------------------------------------------------------- steps

  datatype Event =
    | OpenAlloc(p: nat, f: nat)            // filealloc in sys_open or pipealloc
    | OpenFd(p: nat, fd: nat)              // fdalloc in sys_open
    | OpenFail(p: nat)                     // no descriptor, or no second file: fileclose
    | OpenFill(p: nat, ip: nat)            // type and ip set
    | DupFd(p: nat, old_fd: nat, fd: nat)
    | DupRef(p: nat)
    | CloseFd(p: nat, fd: nat)
    | CloseRef(p: nat)
    | PipeAlloc(p: nat, f: nat)            // second filealloc
    | PipeFill(p: nat, pipe: nat)
    | PipeAbort(p: nat)                    // no memory for the pipe: fileclose the first file
    | PipeFd0(p: nat, fd: nat)
    | PipeFd1(p: nat, fd: nat)
    | PipeUndo(p: nat)                     // no second descriptor: first one cleared
    | PipeDrop(p: nat)                     // fileclose(rf)
    | ForkStart(p: nat, child: nat)
    | ForkDup(p: nat)
    | ForkStore(p: nat)
    | ForkSkip(p: nat)
    | ForkEnd(p: nat)
    | ExitStart(p: nat)
    | ExitClose(p: nat)
    | ExitClear(p: nat)
    | ExitSkip(p: nat)
    | ExitEnd(p: nat)

  predicate Enabled(s: Sys, e: Event) {
    e.p < |s.procs| &&
    var x := s.procs[e.p];
    match e
    case OpenAlloc(_, f) => x.pc.User? && LowestFile(s.files, f)
    case OpenFd(_, fd) => x.pc.Fresh? && LowestFd(x.ofile, fd)
    case OpenFail(_) => x.pc.Fresh? && x.pc.f < |s.files| && s.files[x.pc.f].ref > 0
    case OpenFill(_, _) => x.pc.Unfilled? && x.pc.f < |s.files|
    case DupFd(_, o, fd) => x.pc.User? && o < |x.ofile| && x.ofile[o].Some? && LowestFd(x.ofile, fd)
    case DupRef(_) => x.pc.Dup? && x.pc.f < |s.files| && s.files[x.pc.f].ref > 0
    case CloseFd(_, fd) => x.pc.User? && fd < |x.ofile| && x.ofile[fd].Some?
    case CloseRef(_) => x.pc.Hold? && x.pc.f < |s.files| && s.files[x.pc.f].ref > 0
    case PipeAlloc(_, f) => x.pc.Fresh? && LowestFile(s.files, f)
    case PipeFill(_, _) => x.pc.Fresh2? && x.pc.rf < |s.files| && x.pc.wf < |s.files|
    case PipeAbort(_) => x.pc.Fresh2? && x.pc.rf < |s.files| && s.files[x.pc.rf].ref > 0
    case PipeFd0(_, fd) => x.pc.Hold2? && LowestFd(x.ofile, fd)
    case PipeFd1(_, fd) => x.pc.HalfPipe? && LowestFd(x.ofile, fd)
    case PipeUndo(_) => x.pc.HalfPipe? && Full(x.ofile) && x.pc.fd < |x.ofile|
    case PipeDrop(_) => x.pc.Hold2? && x.pc.rf < |s.files| && s.files[x.pc.rf].ref > 0
    case ForkStart(_, c) => x.pc.User? && c < |s.procs| && s.procs[c].pc.Dead?
    case ForkDup(_) => x.pc.ForkAt? && x.pc.fd < |x.ofile| && x.ofile[x.pc.fd].Some? &&
      x.ofile[x.pc.fd].value < |s.files| && s.files[x.ofile[x.pc.fd].value].ref > 0
    case ForkStore(_) => x.pc.ForkHold? && x.pc.child < |s.procs| && x.pc.fd < |s.procs[x.pc.child].ofile|
    case ForkSkip(_) => x.pc.ForkAt? && x.pc.fd < |x.ofile| && x.ofile[x.pc.fd].None?
    case ForkEnd(_) => x.pc.ForkAt? && x.pc.fd == |x.ofile| && x.pc.child < |s.procs|
    case ExitStart(_) => x.pc.User?
    case ExitClose(_) => x.pc.ExitAt? && x.pc.fd < |x.ofile| && x.ofile[x.pc.fd].Some? &&
      x.ofile[x.pc.fd].value < |s.files| && s.files[x.ofile[x.pc.fd].value].ref > 0
    case ExitClear(_) => x.pc.ExitStale? && x.pc.fd < |x.ofile|
    case ExitSkip(_) => x.pc.ExitAt? && x.pc.fd < |x.ofile| && x.ofile[x.pc.fd].None?
    case ExitEnd(_) => x.pc.ExitAt? && x.pc.fd == |x.ofile|
  }

  /** Process p becomes x. */
  function SetProc(s: Sys, p: nat, x: Proc): Sys
    requires p < |s.procs|
  {
    s.(procs := s.procs[p := x])
  }

  /** Process p becomes x and file f becomes y. */
  function SetBoth(s: Sys, p: nat, x: Proc, f: nat, y: File): Sys
    requires p < |s.procs| && f < |s.files|
  {
    Sys(s.files[f := y], s.procs[p := x])
  }

  function More(y: File): File { y.(ref := y.ref + 1) }

  function Do(s: Sys, e: Event): Sys
    requires Enabled(s, e)
  {
    var p, x := e.p, s.procs[e.p];
    match e
    case OpenAlloc(_, f) => SetBoth(s, p, x.(pc := Fresh(f)), f, s.files[f].(ref := 1))
    case OpenFd(_, fd) => SetProc(s, p, Proc(x.ofile[fd := Some(x.pc.f)], Unfilled(x.pc.f)))
    case OpenFail(_) => SetBoth(s, p, x.(pc := User), x.pc.f, Drop(s.files[x.pc.f]))
    case OpenFill(_, ip) => SetBoth(s, p, x.(pc := User), x.pc.f, Fill(s.files[x.pc.f], FdInode(ip)))
    case DupFd(_, o, fd) => SetProc(s, p, Proc(x.ofile[fd := x.ofile[o]], Dup(x.ofile[o].value)))
    case DupRef(_) => SetBoth(s, p, x.(pc := User), x.pc.f, More(s.files[x.pc.f]))
    case CloseFd(_, fd) => SetProc(s, p, Proc(x.ofile[fd := None], Hold(x.ofile[fd].value)))
    case CloseRef(_) => SetBoth(s, p, x.(pc := User), x.pc.f, Drop(s.files[x.pc.f]))
    case PipeAlloc(_, f) => SetBoth(s, p, x.(pc := Fresh2(x.pc.f, f)), f, s.files[f].(ref := 1))
    case PipeFill(_, pipe) =>
      var files := s.files[x.pc.rf := Fill(s.files[x.pc.rf], FdPipe(pipe, false))];
      Sys(files[x.pc.wf := Fill(files[x.pc.wf], FdPipe(pipe, true))], s.procs[p := x.(pc := Hold2(x.pc.rf, x.pc.wf))])
    case PipeAbort(_) => SetBoth(s, p, x.(pc := Fresh(x.pc.wf)), x.pc.rf, Drop(s.files[x.pc.rf]))
    case PipeFd0(_, fd) => SetProc(s, p, Proc(x.ofile[fd := Some(x.pc.rf)], HalfPipe(fd, x.pc.rf, x.pc.wf)))
    case PipeFd1(_, fd) => SetProc(s, p, Proc(x.ofile[fd := Some(x.pc.wf)], User))
    case PipeUndo(_) => SetProc(s, p, Proc(x.ofile[x.pc.fd := None], Hold2(x.pc.rf, x.pc.wf)))
    case PipeDrop(_) => SetBoth(s, p, x.(pc := Hold(x.pc.wf)), x.pc.rf, Drop(s.files[x.pc.rf]))
    case ForkStart(_, c) => SetProc(SetProc(s, p, x.(pc := ForkAt(c, 0))), c, s.procs[c].(pc := Embryo(p)))
    case ForkDup(_) =>
      var f := x.ofile[x.pc.fd].value;
      SetBoth(s, p, x.(pc := ForkHold(x.pc.child, x.pc.fd, f)), f, More(s.files[f]))
    case ForkStore(_) =>
      var y := s.procs[x.pc.child];
      SetProc(SetProc(s, p, x.(pc := ForkAt(x.pc.child, x.pc.fd + 1))),
              x.pc.child, y.(ofile := y.ofile[x.pc.fd := Some(x.pc.f)]))
    case ForkSkip(_) => SetProc(s, p, x.(pc := ForkAt(x.pc.child, x.pc.fd + 1)))
    case ForkEnd(_) => SetProc(SetProc(s, p, x.(pc := User)), x.pc.child, s.procs[x.pc.child].(pc := User))
    case ExitStart(_) => SetProc(s, p, x.(pc := ExitAt(0)))
    case ExitClose(_) =>
      var f := x.ofile[x.pc.fd].value;
      SetBoth(s, p, x.(pc := ExitStale(x.pc.fd, f)), f, Drop(s.files[f]))
    case ExitClear(_) => SetProc(s, p, Proc(x.ofile[x.pc.fd := None], ExitAt(x.pc.fd + 1)))
    case ExitSkip(_) => SetProc(s, p, x.(pc := ExitAt(x.pc.fd + 1)))
    case ExitEnd(_) => SetProc(s, p, x.(pc := Dead))
  }

  /** The calls that would panic in filedup or fileclose. */
  predicate Panics(s: Sys, p: nat)
    requires p < |s.procs|
  {
    var x := s.procs[p];
    var f := match x.pc
             case Fresh(f) => Some(f)
             case Dup(f) => Some(f)
             case Hold(f) => Some(f)
             case Fresh2(rf, _) => Some(rf)
             case Hold2(rf, _) => Some(rf)
             case ForkAt(_, fd) => if fd < |x.ofile| then x.ofile[fd] else None
             case ExitAt(fd) => if fd < |x.ofile| then x.ofile[fd] else None
             case _ => None;
    f.Some? && (f.value >= |s.files| || s.files[f.value].ref < 1)
  }

  // ---------------------------------------------------------- invariant

  predicate Blank(s: Sys, f: nat) { f < |s.files| && s.files[f].kind == FdNone && s.files[f].ref == 1 }

  predicate Filled(s: Sys, f: nat) { f < |s.files| && s.files[f].kind != FdNone }

  predicate Cleared(ofile: seq<Option<nat>>, lo: nat, hi: nat) {
    forall fd :: lo <= fd < hi && fd < |ofile| ==> ofile[fd] == None
  }

  predicate PcOk(s: Sys, p: nat)
    requires p < |s.procs|
  {
    var x := s.procs[p];
    match x.pc
    case Dead => Cleared(x.ofile, 0, NOFILE)
    case Fresh(f) => Blank(s, f)
    case Unfilled(f) => Blank(s, f) && Count(x.ofile, f) >= 1
    case Fresh2(rf, wf) => rf != wf && Blank(s, rf) && Blank(s, wf)
    case Dup(f) => Filled(s, f) && Count(x.ofile, f) >= 2
    case Hold(f) => Filled(s, f)
    case Hold2(rf, wf) => rf != wf && Filled(s, rf) && Filled(s, wf)
    case HalfPipe(fd, rf, wf) => rf != wf && Filled(s, wf) && fd < |x.ofile| && x.ofile[fd] == Some(rf)
    case ForkAt(c, fd) => fd <= NOFILE && ChildOk(s, p, c, fd)
    case ForkHold(c, fd, f) => fd < NOFILE && ChildOk(s, p, c, fd) && Filled(s, f)
    case ExitAt(fd) => fd <= NOFILE && Cleared(x.ofile, 0, fd)
    case ExitStale(fd, f) => fd < |x.ofile| && Cleared(x.ofile, 0, fd) && x.ofile[fd] == Some(f)
    case _ => true
  }

  predicate ChildOk(s: Sys, p: nat, c: nat, fd: nat) {
    c < |s.procs| && s.procs[c].pc == Embryo(p) && Cleared(s.procs[c].ofile, fd, NOFILE)
  }

  /** Every descriptor names a file with contents, except inside the windows of
      sys_open and exit. */
  predicate FdOk(s: Sys, x: Proc, fd: nat)
    requires fd < |x.ofile|
  {
    x.ofile[fd].Some? ==>
      var f := x.ofile[fd].value;
      f < |s.files| && (Filled(s, f) || x.pc == Unfilled(f) || x.pc == ExitStale(fd, f))
  }

  predicate ProcOk(s: Sys, p: nat)
    requires p < |s.procs|
  {
    && |s.procs[p].ofile| == NOFILE
    && PcOk(s, p)
    && forall fd :: 0 <= fd < |s.procs[p].ofile| ==> FdOk(s, s.procs[p], fd)
  }

  /** One file: the count is what the processes account for, a file with contents
      has references, and contents were handed on exactly as often as they were
      given, but for the ones still there. */
  predicate FileOk(s: Sys, f: nat)
    requires f < |s.files|
  {
    var y := s.files[f];
    && y.ref == Sum(s.procs, f)
    && (y.kind != FdNone ==> y.ref > 0)
    && y.gets == y.puts + if y.kind != FdNone then 1 else 0
  }

  predicate Inv(s: Sys) {
    && (forall f :: 0 <= f < |s.files| ==> FileOk(s, f))
    && (forall p :: 0 <= p < |s.procs| ==> ProcOk(s, p))
  }

  lemma {:induction false} CreditNonNegative(s: Sys, p: nat, f: nat)
    requires p < |s.procs| && ProcOk(s, p)
    ensures Credit(s.procs[p], f) >= 0
  {
    var x := s.procs[p];
    if x.pc.ExitStale? {
      CountAtLeast(x.ofile, x.pc.fd, x.pc.f);
    }
  }

  lemma {:induction false} AllNonNegative(s: Sys, f: nat)
    requires Inv(s)
    ensures forall p :: 0 <= p < |s.procs| ==> Credit(s.procs[p], f) >= 0
  {
    forall p | 0 <= p < |s.procs|
      ensures Credit(s.procs[p], f) >= 0
    {
      CreditNonNegative(s, p, f);
    }
  }

  /** A process that accounts for no reference to f says nothing about f. */
  lemma {:induction false} NoClaim(s: Sys, q: nat, fd: nat, f: nat)
    requires q < |s.procs| && ProcOk(s, q) && Credit(s.procs[q], f) == 0
    requires fd < NOFILE && s.procs[q].ofile[fd] == Some(f)
    ensures s.procs[q].pc == ExitStale(fd, f)
  {
    var x := s.procs[q];
    CountAtLeast(x.ofile, fd, f);
    if x.pc.ExitStale? && x.pc.f == f && x.pc.fd != fd {
      CountUpdate(x.ofile, fd, None, f);
      CountAtLeast(x.ofile[fd := None], x.pc.fd, f);
    }
  }

  /** The children of fork are touched by their parent alone. */
  predicate SameChild(s: Sys, t: Sys, q: nat)
    requires q < |s.procs| == |t.procs|
  {
    var pc := s.procs[q].pc;
    (pc.ForkAt? || pc.ForkHold?) && pc.child < |s.procs| ==> t.procs[pc.child] == s.procs[pc.child]
  }

  /** What a step of another process may do to file f without disturbing q. */
  lemma {:induction false} OtherOk(s: Sys, t: Sys, q: nat, f: nat)
    requires q < |s.procs| == |t.procs| && f < |s.files| == |t.files|
    requires ProcOk(s, q) && t.procs[q] == s.procs[q] && SameChild(s, t, q)
    requires forall g :: 0 <= g < |s.files| && g != f ==> t.files[g] == s.files[g]
    requires Credit(s.procs[q], f) == 0 || t.files[f] == s.files[f] ||
             (s.files[f].kind != FdNone && t.files[f].kind != FdNone)
    ensures ProcOk(t, q)
  {
    var x := s.procs[q];
    forall fd | 0 <= fd < |x.ofile|
      ensures FdOk(t, x, fd)
    {
      assert FdOk(s, x, fd);
      if Credit(x, f) == 0 && x.ofile[fd] == Some(f) {
        NoClaim(s, q, fd, f);
      }
    }
    assert PcOk(t, q) by {
      if Credit(x, f) == 0 && x.pc.ExitStale? {
        CountAtLeast(x.ofile, x.pc.fd, x.pc.f);
      }
    }
  }

  /** If p accounts for every reference to f, nobody else does for any. */
  lemma {:induction false} OthersNone(s: Sys, p: nat, q: nat, f: nat)
    requires Inv(s) && f < |s.files| && p < |s.procs| && q < |s.procs| && p != q
    requires s.files[f].ref <= Credit(s.procs[p], f)
    ensures Credit(s.procs[q], f) == 0
  {
    AllNonNegative(s, f);
    assert FileOk(s, f);
    SumTwo(s.procs, if p < q then p else q, if p < q then q else p, f);
  }

  /** A reference a process accounts for is counted. */
  lemma {:induction false} Counted(s: Sys, p: nat, f: nat)
    requires Inv(s) && f < |s.files| && p < |s.procs|
    ensures Credit(s.procs[p], f) <= s.files[f].ref
  {
    AllNonNegative(s, f);
    assert FileOk(s, f);
    SumBounds(s.procs, p, f);
  }

  ghost predicate Shifts(a: Proc, b: Proc, f: nat, d: int) {
    forall g :: Credit(b, g) == Credit(a, g) + if g == f then d else 0
  }

  /** A step of p that moves one count together with what p accounts for. */
  lemma {:induction false} BothKeeps(s: Sys, p: nat, x: Proc, f: nat, y: File)
    requires Inv(s) && p < |s.procs| && f < |s.files| && !s.procs[p].pc.Embryo? && !s.procs[p].pc.Dead?
    requires Shifts(s.procs[p], x, f, y.ref - s.files[f].ref)
    requires y.kind != FdNone ==> y.ref > 0
    requires y.gets == y.puts + if y.kind != FdNone then 1 else 0
    requires s.files[f].ref <= Credit(s.procs[p], f) || (s.files[f].kind != FdNone && y.kind != FdNone)
    requires ProcOk(SetBoth(s, p, x, f, y), p)
    ensures Inv(SetBoth(s, p, x, f, y))
  {
    var t := SetBoth(s, p, x, f, y);
    forall g | 0 <= g < |t.files|
      ensures FileOk(t, g)
    {
      assert FileOk(s, g);
      SumUpdate(s.procs, p, x, g);
    }
    forall q | 0 <= q < |t.procs|
      ensures ProcOk(t, q)
    {
      if q != p {
        assert ProcOk(s, q);
        if s.files[f].ref <= Credit(s.procs[p], f) {
          OthersNone(s, p, q, f);
        }
        OtherOk(s, t, q, f);
      }
    }
  }

  /** A step of p that leaves the files alone. */
  lemma {:induction false} ProcKeeps(s: Sys, p: nat, x: Proc)
    requires Inv(s) && p < |s.procs| && !s.procs[p].pc.Embryo? && !s.procs[p].pc.Dead?
    requires forall g :: Credit(x, g) == Credit(s.procs[p], g)
    requires ProcOk(SetProc(s, p, x), p)
    ensures Inv(SetProc(s, p, x))
  {
    var t := SetProc(s, p, x);
    forall g | 0 <= g < |t.files|
      ensures FileOk(t, g)
    {
      assert FileOk(s, g);
      SumUpdate(s.procs, p, x, g);
    }
    forall q | 0 <= q < |t.procs|
      ensures ProcOk(t, q)
    {
      if q != p {
        assert ProcOk(s, q);
        forall fd | 0 <= fd < |t.procs[q].ofile|
          ensures FdOk(t, t.procs[q], fd)
        {
          assert FdOk(s, s.procs[q], fd);
        }
      }
    }
  }

  // ------------------------------------------------------- the calls, in turn

  predicate Opening(e: Event) { e.OpenAlloc? || e.OpenFail? || e.OpenFill? }

  lemma {:induction false} OpenKeeps(s: Sys, e: Event)
    requires Inv(s) && Enabled(s, e) && Opening(e)
    ensures Inv(Do(s, e))
  {
    var p, x := e.p, s.procs[e.p];
    assert ProcOk(s, p);
    var f := if e.OpenAlloc? then e.f else x.pc.f;
    assert FileOk(s, f);
    AllNonNegative(s, f);
    SumBounds(s.procs, p, f);
    var t := Do(s, e);
    forall fd | 0 <= fd < |x.ofile|
      ensures FdOk(t, t.procs[p], fd)
    {
      assert FdOk(s, x, fd);
      if x.ofile[fd] == Some(f) {
        CountAtLeast(x.ofile, fd, f);
      }
    }
    BothKeeps(s, p, t.procs[p], f, t.files[f]);
  }

  lemma {:induction false} DropKeeps(s: Sys, e: Event)
    requires Inv(s) && Enabled(s, e) && (e.CloseRef? || e.PipeDrop? || e.PipeAbort?)
    ensures Inv(Do(s, e))
  {
    var p, x := e.p, s.procs[e.p];
    assert ProcOk(s, p);
    var f := if e.CloseRef? then x.pc.f else x.pc.rf;
    assert FileOk(s, f);
    Counted(s, p, f);
    var t := Do(s, e);
    forall fd | 0 <= fd < |x.ofile|
      ensures FdOk(t, t.procs[p], fd)
    {
      assert FdOk(s, x, fd);
      if x.ofile[fd] == Some(f) {
        CountAtLeast(x.ofile, fd, f);
      }
    }
    assert ProcOk(t, p);
    BothKeeps(s, p, t.procs[p], f, t.files[f]);
  }

  lemma {:induction false} DupKeeps(s: Sys, e: Event)
    requires Inv(s) && Enabled(s, e) && (e.DupRef? || e.ForkDup?)
    ensures Inv(Do(s, e))
  {
    var p, x := e.p, s.procs[e.p];
    assert ProcOk(s, p);
    assert e.ForkDup? ==> FdOk(s, x, x.pc.fd);
    var f := if e.DupRef? then x.pc.f else x.ofile[x.pc.fd].value;
    assert FileOk(s, f);
    var t := Do(s, e);
    forall fd | 0 <= fd < |x.ofile|
      ensures FdOk(t, t.procs[p], fd)
    {
      assert FdOk(s, x, fd);
    }
    assert ProcOk(t, p);
    BothKeeps(s, p, t.procs[p], f, t.files[f]);
  }

  lemma {:induction false} PipeAllocKeeps(s: Sys, e: Event)
    requires Inv(s) && Enabled(s, e) && e.PipeAlloc?
    ensures Inv(Do(s, e))
  {
    var p, x, f := e.p, s.procs[e.p], e.f;
    assert ProcOk(s, p);
    assert FileOk(s, f);
    Counted(s, p, f);
    CreditNonNegative(s, p, f);
    var t := Do(s, e);
    forall fd | 0 <= fd < |x.ofile|
      ensures FdOk(t, t.procs[p], fd)
    {
      assert FdOk(s, x, fd);
    }
    assert ProcOk(t, p);
    BothKeeps(s, p, t.procs[p], f, t.files[f]);
  }

  lemma {:induction false} ExitCloseKeeps(s: Sys, e: Event)
    requires Inv(s) && Enabled(s, e) && e.ExitClose?
    ensures Inv(Do(s, e))
  {
    var p, x := e.p, s.procs[e.p];
    assert ProcOk(s, p);
    var fd0 := x.pc.fd;
    assert FdOk(s, x, fd0);
    var f := x.ofile[fd0].value;
    assert FileOk(s, f);
    Counted(s, p, f);
    CountAtLeast(x.ofile, fd0, f);
    var t := Do(s, e);
    forall fd | 0 <= fd < |x.ofile|
      ensures FdOk(t, t.procs[p], fd)
    {
      assert FdOk(s, x, fd);
      if x.ofile[fd] == Some(f) && fd != fd0 {
        CountUpdate(x.ofile, fd, None, f);
        CountAtLeast(x.ofile[fd := None], fd0, f);
      }
    }
    assert ProcOk(t, p);
    BothKeeps(s, p, t.procs[p], f, t.files[f]);
  }

  /** Steps that only move a reference between a descriptor and the call. */
  predicate Moving(e: Event) { e.OpenFd? || e.DupFd? || e.CloseFd? || e.PipeFd0? || e.PipeFd1? || e.PipeUndo? ||
    e.ExitClear? }

  /** p's descriptor fd becomes v, and its call moves on to pc. */
  lemma {:induction false} SlotKeeps(s: Sys, p: nat, fd0: nat, v: Option<nat>, pc: Pc)
    requires Inv(s) && p < |s.procs| && !s.procs[p].pc.Embryo? && !s.procs[p].pc.Dead? && fd0 < NOFILE
    requires |s.procs[p].ofile| == NOFILE
    requires var x := s.procs[p];
             forall g: nat :: Credit(Proc(x.ofile, pc), g) == Credit(x, g) +
               One(x.ofile[fd0] == Some(g)) - One(v == Some(g))
    requires v.Some? ==> v.value < |s.files| && (Filled(s, v.value) || pc == Unfilled(v.value))
    requires s.procs[p].pc.ExitStale? ==> s.procs[p].pc.fd == fd0
    requires !s.procs[p].pc.Unfilled?
    requires PcOk(SetProc(s, p, Proc(s.procs[p].ofile[fd0 := v], pc)), p)
    ensures Inv(SetProc(s, p, Proc(s.procs[p].ofile[fd0 := v], pc)))
  {
    var x := s.procs[p];
    var y := Proc(x.ofile[fd0 := v], pc);
    var t := SetProc(s, p, y);
    assert ProcOk(s, p);
    forall fd | 0 <= fd < |y.ofile|
      ensures FdOk(t, y, fd)
    {
      assert FdOk(s, x, fd);
    }
    assert ProcOk(t, p);
    forall g: nat
      ensures Credit(y, g) == Credit(x, g)
    {
      CountUpdate(x.ofile, fd0, v, g);
      assert Credit(Proc(x.ofile, pc), g) == Credit(x, g) + One(x.ofile[fd0] == Some(g)) - One(v == Some(g));
    }
    ProcKeeps(s, p, y);
  }

  lemma {:induction false} InstallKeeps(s: Sys, e: Event)
    requires Inv(s) && Enabled(s, e) && (e.OpenFd? || e.PipeFd0? || e.PipeFd1?)
    ensures Inv(Do(s, e))
  {
    var p, x := e.p, s.procs[e.p];
    assert ProcOk(s, p);
    var y := Do(s, e).procs[p];
    if e.OpenFd? {
      CountUpdate(x.ofile, e.fd, y.ofile[e.fd], x.pc.f);
    }
    if e.PipeFd0? || e.PipeFd1? {
      assert e.PipeFd1? ==> FdOk(s, x, x.pc.fd);
    }
    SlotKeeps(s, p, e.fd, y.ofile[e.fd], y.pc);
  }

  lemma {:induction false} DupFdKeeps(s: Sys, e: Event)
    requires Inv(s) && Enabled(s, e) && e.DupFd?
    ensures Inv(Do(s, e))
  {
    var p, x := e.p, s.procs[e.p];
    assert ProcOk(s, p);
    assert FdOk(s, x, e.old_fd);
    var f := x.ofile[e.old_fd].value;
    CountAtLeast(x.ofile, e.old_fd, f);
    CountUpdate(x.ofile, e.fd, Some(f), f);
    SlotKeeps(s, p, e.fd, Some(f), Dup(f));
  }

  lemma {:induction false} ClearKeeps(s: Sys, e: Event)
    requires Inv(s) && Enabled(s, e) && (e.CloseFd? || e.PipeUndo? || e.ExitClear?)
    ensures Inv(Do(s, e))
  {
    var p, x := e.p, s.procs[e.p];
    assert ProcOk(s, p);
    var fd := if e.CloseFd? then e.fd else x.pc.fd;
    assert FdOk(s, x, fd);
    SlotKeeps(s, p, fd, None, Do(s, e).procs[p].pc);
  }

  lemma {:induction false} MoveKeeps(s: Sys, e: Event)
    requires Inv(s) && Enabled(s, e) && Moving(e)
    ensures Inv(Do(s, e))
  {
    if e.DupFd? {
      DupFdKeeps(s, e);
    } else if e.CloseFd? || e.PipeUndo? || e.ExitClear? {
      ClearKeeps(s, e);
    } else {
      InstallKeeps(s, e);
    }
  }

  /** Steps that touch neither a descriptor nor a count. */
  lemma {:induction false} LoopKeeps(s: Sys, e: Event)
    requires Inv(s) && Enabled(s, e) && (e.ForkSkip? || e.ExitStart? || e.ExitSkip? || e.ExitEnd?)
    ensures Inv(Do(s, e))
  {
    var p, x := e.p, s.procs[e.p];
    assert ProcOk(s, p);
    var t := Do(s, e);
    forall fd | 0 <= fd < |x.ofile|
      ensures FdOk(t, t.procs[p], fd)
    {
      assert FdOk(s, x, fd);
    }
    assert ProcOk(t, p);
    ProcKeeps(s, p, t.procs[p]);
  }

  lemma {:induction false} PipeFillOthers(s: Sys, e: Event, q: nat)
    requires Inv(s) && Enabled(s, e) && e.PipeFill? && q < |s.procs| && q != e.p
    ensures ProcOk(Do(s, e), q)
  {
    var p, rf, wf := e.p, s.procs[e.p].pc.rf, s.procs[e.p].pc.wf;
    assert ProcOk(s, p) && ProcOk(s, q);
    var t := Do(s, e);
    var u := s.(files := s.files[rf := t.files[rf]]);
    OthersNone(s, p, q, rf);
    OthersNone(s, p, q, wf);
    OtherOk(s, u, q, rf);
    OtherOk(u, t, q, wf);
  }

  lemma {:induction false} PipeFillKeeps(s: Sys, e: Event)
    requires Inv(s) && Enabled(s, e) && e.PipeFill?
    ensures Inv(Do(s, e))
  {
    var p, x := e.p, s.procs[e.p];
    assert ProcOk(s, p);
    var t := Do(s, e);
    forall g | 0 <= g < |t.files|
      ensures FileOk(t, g)
    {
      assert FileOk(s, g);
      SumUpdate(s.procs, p, t.procs[p], g);
    }
    forall fd | 0 <= fd < |x.ofile|
      ensures FdOk(t, t.procs[p], fd)
    {
      assert FdOk(s, x, fd);
    }
    forall q | 0 <= q < |t.procs|
      ensures ProcOk(t, q)
    {
      if q != p {
        PipeFillOthers(s, e, q);
      }
    }
  }

  predicate Forking(e: Event) { e.ForkStart? || e.ForkStore? || e.ForkEnd? }

  lemma {:induction false} TwoUpdates(procs: seq<Proc>, p: nat, x: Proc, c: nat, y: Proc, f: nat)
    requires p < |procs| && c < |procs| && p != c
    requires Credit(x, f) + Credit(y, f) == Credit(procs[p], f) + Credit(procs[c], f)
    ensures Sum(procs[p := x][c := y], f) == Sum(procs, f)
  {
    SumUpdate(procs, p, x, f);
    SumUpdate(procs[p := x], c, y, f);
  }

  lemma {:induction false} ForkCounts(s: Sys, e: Event, f: nat)
    requires Inv(s) && Enabled(s, e) && Forking(e) && f < |s.files|
    ensures FileOk(Do(s, e), f)
  {
    var p, x := e.p, s.procs[e.p];
    assert ProcOk(s, p) && FileOk(s, f);
    var c := if e.ForkStart? then e.child else x.pc.child;
    var t := Do(s, e);
    if e.ForkStore? {
      CountUpdate(s.procs[c].ofile, x.pc.fd, Some(x.pc.f), f);
    }
    TwoUpdates(s.procs, p, t.procs[p], c, t.procs[c], f);
  }

  lemma {:induction false} ForkParties(s: Sys, e: Event)
    requires Inv(s) && Enabled(s, e) && Forking(e)
    ensures var c := if e.ForkStart? then e.child else s.procs[e.p].pc.child;
            c < |s.procs| && c != e.p && ProcOk(Do(s, e), e.p) && ProcOk(Do(s, e), c)
  {
    var p, x := e.p, s.procs[e.p];
    assert ProcOk(s, p);
    var c := if e.ForkStart? then e.child else x.pc.child;
    assert ProcOk(s, c);
    var t := Do(s, e);
    forall fd | 0 <= fd < NOFILE
      ensures FdOk(t, t.procs[p], fd) && FdOk(t, t.procs[c], fd)
    {
      assert FdOk(s, s.procs[p], fd) && FdOk(s, s.procs[c], fd);
    }
  }

  lemma {:induction false} ForkBystander(s: Sys, e: Event, q: nat)
    requires Inv(s) && Enabled(s, e) && Forking(e) && q < |s.procs| && q != e.p
    requires q != if e.ForkStart? then e.child else s.procs[e.p].pc.child
    ensures ProcOk(Do(s, e), q)
  {
    var t := Do(s, e);
    assert ProcOk(s, e.p) && ProcOk(s, q);
    assert t.procs[q] == s.procs[q] && t.files == s.files;
    forall fd | 0 <= fd < |t.procs[q].ofile|
      ensures FdOk(t, t.procs[q], fd)
    {
      assert FdOk(s, s.procs[q], fd);
    }
  }

  lemma {:induction false} ForkKeeps(s: Sys, e: Event)
    requires Inv(s) && Enabled(s, e) && Forking(e)
    ensures Inv(Do(s, e))
  {
    var t := Do(s, e);
    forall f | 0 <= f < |t.files|
      ensures FileOk(t, f)
    {
      ForkCounts(s, e, f);
    }
    ForkParties(s, e);
    forall q | 0 <= q < |t.procs|
      ensures ProcOk(t, q)
    {
      if q != e.p && q != if e.ForkStart? then e.child else s.procs[e.p].pc.child {
        ForkBystander(s, e, q);
      }
    }
  }

  lemma {:induction false} InvDo(s: Sys, e: Event)
    requires Inv(s) && Enabled(s, e)
    ensures Inv(Do(s, e))
  {
    if Opening(e) {
      OpenKeeps(s, e);
    } else if Moving(e) {
      MoveKeeps(s, e);
    } else if Forking(e) {
      ForkKeeps(s, e);
    } else {
      match e
      case CloseRef(_) => DropKeeps(s, e);
      case PipeDrop(_) => DropKeeps(s, e);
      case PipeAbort(_) => DropKeeps(s, e);
      case DupRef(_) => DupKeeps(s, e);
      case ForkDup(_) => DupKeeps(s, e);
      case PipeAlloc(_, _) => PipeAllocKeeps(s, e);
      case PipeFill(_, _) => PipeFillKeeps(s, e);
      case ExitClose(_) => ExitCloseKeeps(s, e);
      case _ => LoopKeeps(s, e);
    }
  }

  // ----------------------------------------------------------- whole runs

  /** A table of nfile unused files; process 0 runs, with no descriptors. */
  function Start(nfile: nat, nproc: nat): Sys {
    Sys(seq(nfile, _ => File(0, FdNone, 0, 0)),
        seq(nproc, i => Proc(seq(NOFILE, _ => None), if i == 0 then User else Dead)))
  }

  ghost predicate Run(nfile: nat, nproc: nat, tr: seq<Sys>) {
    && |tr| > 0
    && tr[0] == Start(nfile, nproc)
    && forall i :: 0 < i < |tr| ==> Stepped(tr, i)
  }

  ghost predicate Stepped(tr: seq<Sys>, i: nat)
    requires 0 < i < |tr|
  {
    Next(tr[i - 1], tr[i])
  }

  ghost predicate Next(s: Sys, t: Sys) { exists e :: Takes(s, e, t) }

  predicate Takes(s: Sys, e: Event, t: Sys) { Enabled(s, e) && t == Do(s, e) }

  lemma {:induction false} SumNone(procs: seq<Proc>, f: nat)
    requires forall p :: 0 <= p < |procs| ==> Credit(procs[p], f) == 0
    ensures Sum(procs, f) == 0
  {
    if procs != [] {
      SumNone(procs[1..], f);
    }
  }

  lemma {:induction false} InvStart(nfile: nat, nproc: nat)
    ensures Inv(Start(nfile, nproc))
  {
    var s := Start(nfile, nproc);
    forall f | 0 <= f < |s.files|
      ensures FileOk(s, f)
    {
      forall p | 0 <= p < |s.procs|
        ensures Credit(s.procs[p], f) == 0
      {
        CountNone(s.procs[p].ofile, f);
      }
      SumNone(s.procs, f);
    }
  }

  lemma {:induction false} InvNext(s: Sys, t: Sys)
    requires Inv(s) && Next(s, t)
    ensures Inv(t)
  {
    var e :| Takes(s, e, t);
    InvDo(s, e);
  }

  lemma {:induction false} InvRun(nfile: nat, nproc: nat, tr: seq<Sys>, i: nat)
    requires Run(nfile, nproc, tr) && i < |tr|
    ensures Inv(tr[i])
  {
    if i == 0 {
      InvStart(nfile, nproc);
    } else {
      InvRun(nfile, nproc, tr, i - 1);
      assert Stepped(tr, i);
      InvNext(tr[i - 1], tr[i]);
    }
  }

  /** Reference conservation: in every reachable state a file's count is the sum of
      what each process accounts for. */
  lemma {:induction false} RefsConserved(nfile: nat, nproc: nat, tr: seq<Sys>, i: nat, f: nat)
    requires Run(nfile, nproc, tr) && i < |tr| && f < |tr[i].files|
    ensures tr[i].files[f].ref == Sum(tr[i].procs, f)
    ensures forall p :: 0 <= p < |tr[i].procs| ==> Credit(tr[i].procs[p], f) >= 0
  {
    InvRun(nfile, nproc, tr, i);
    AllNonNegative(tr[i], f);
    assert FileOk(tr[i], f);
  }

  /** With no call in flight, the count is the number of descriptors. */
  function Descriptors(procs: seq<Proc>, f: nat): nat {
    if procs == [] then 0 else Count(procs[0].ofile, f) + Descriptors(procs[1..], f)
  }

  lemma {:induction false} QuietSum(procs: seq<Proc>, f: nat)
    requires forall p :: 0 <= p < |procs| ==> procs[p].pc.User? || procs[p].pc.Dead?
    ensures Sum(procs, f) == Descriptors(procs, f)
  {
    if procs != [] {
      QuietSum(procs[1..], f);
    }
  }

  lemma {:induction false} QuietRefs(nfile: nat, nproc: nat, tr: seq<Sys>, i: nat, f: nat)
    requires Run(nfile, nproc, tr) && i < |tr| && f < |tr[i].files|
    requires forall p :: 0 <= p < |tr[i].procs| ==> tr[i].procs[p].pc.User? || tr[i].procs[p].pc.Dead?
    ensures tr[i].files[f].ref == Descriptors(tr[i].procs, f)
  {
    RefsConserved(nfile, nproc, tr, i, f);
    QuietSum(tr[i].procs, f);
  }

  /** Neither filedup nor fileclose can panic. */
  lemma {:induction false} NeverPanics(nfile: nat, nproc: nat, tr: seq<Sys>, i: nat, p: nat)
    requires Run(nfile, nproc, tr) && i < |tr| && p < |tr[i].procs|
    ensures !Panics(tr[i], p)
  {
    InvRun(nfile, nproc, tr, i);
    var s, x := tr[i], tr[i].procs[p];
    assert ProcOk(s, p);
    match x.pc
    case Dup(f) => Counted(s, p, f);
    case Hold(f) => Counted(s, p, f);
    case Hold2(rf, _) => Counted(s, p, rf);
    case ForkAt(_, fd) => UsableFd(s, p, fd);
    case ExitAt(fd) => UsableFd(s, p, fd);
    case _ =>
  }

  lemma {:induction false} UsableFd(s: Sys, p: nat, fd: nat)
    requires Inv(s) && p < |s.procs| && !s.procs[p].pc.Unfilled? && !s.procs[p].pc.ExitStale?
    ensures fd < |s.procs[p].ofile| && s.procs[p].ofile[fd].Some? ==>
              && s.procs[p].ofile[fd].value < |s.files|
              && s.files[s.procs[p].ofile[fd].value].ref > 0
              && s.files[s.procs[p].ofile[fd].value].kind != FdNone
  {
    assert ProcOk(s, p);
    if fd < |s.procs[p].ofile| && s.procs[p].ofile[fd].Some? {
      assert FdOk(s, s.procs[p], fd);
      assert FileOk(s, s.procs[p].ofile[fd].value);
    }
  }

  /** A process outside the file calls can use every descriptor it has: the file is
      referenced and refers to an inode or a pipe. */
  lemma {:induction false} DescriptorsLive(nfile: nat, nproc: nat, tr: seq<Sys>, i: nat, p: nat, fd: nat)
    requires Run(nfile, nproc, tr) && i < |tr| && p < |tr[i].procs| && tr[i].procs[p].pc.User?
    requires fd < |tr[i].procs[p].ofile| && tr[i].procs[p].ofile[fd].Some?
    ensures var f := tr[i].procs[p].ofile[fd].value;
            f < |tr[i].files| && tr[i].files[f].ref > 0 && tr[i].files[f].kind != FdNone
  {
    InvRun(nfile, nproc, tr, i);
    assert ProcOk(tr[i], p);
    UsableFd(tr[i], p, fd);
  }

  /** What the step does to the file is what is promised of it. */
  predicate HandsOn(y: File, z: File) {
    && (z.puts == y.puts || z.puts == y.puts + 1)
    && (y.kind != FdNone ==> (z.puts == y.puts + 1 <==> z.ref == 0))
  }

  /** The event is a fileclose. */
  predicate Closes(e: Event) { e.OpenFail? || e.CloseRef? || e.PipeAbort? || e.PipeDrop? || e.ExitClose? }

  lemma {:induction false} CloseReleases(s: Sys, e: Event, f: nat)
    requires Enabled(s, e) && Closes(e) && f < |s.files| && FileOk(s, f)
    ensures |Do(s, e).files| == |s.files| && HandsOn(s.files[f], Do(s, e).files[f])
  {
  }

  lemma {:induction false} OtherReleases(s: Sys, e: Event, f: nat)
    requires Enabled(s, e) && !Closes(e) && f < |s.files| && FileOk(s, f) && ProcOk(s, e.p)
    ensures |Do(s, e).files| == |s.files| && HandsOn(s.files[f], Do(s, e).files[f])
  {
  }

  /** A step hands on what a file refers to exactly when it takes the count to zero. */
  lemma {:induction false} StepReleases(s: Sys, e: Event, f: nat)
    requires Inv(s) && Enabled(s, e) && f < |s.files|
    ensures |Do(s, e).files| == |s.files| && HandsOn(s.files[f], Do(s, e).files[f])
  {
    assert ProcOk(s, e.p) && FileOk(s, f);
    if Closes(e) {
      CloseReleases(s, e, f);
    } else {
      OtherReleases(s, e, f);
    }
  }

  /** What still names an unreferenced file. */
  lemma {:induction false} Unreferenced(s: Sys, f: nat, p: nat, fd: nat)
    requires Inv(s) && f < |s.files| && s.files[f].ref == 0
    requires p < |s.procs| && fd < |s.procs[p].ofile| && s.procs[p].ofile[fd] == Some(f)
    ensures s.procs[p].pc == ExitStale(fd, f)
  {
    assert ProcOk(s, p);
    Counted(s, p, f);
    CreditNonNegative(s, p, f);
    NoClaim(s, p, fd, f);
  }

  lemma {:induction false} NextReleases(s: Sys, t: Sys, f: nat)
    requires Inv(s) && Next(s, t) && f < |t.files|
    ensures |s.files| == |t.files| && HandsOn(s.files[f], t.files[f])
  {
    var e :| Takes(s, e, t);
    SameFiles(s, e);
    StepReleases(s, e, f);
  }

  lemma {:induction false} RunReleases(nfile: nat, nproc: nat, tr: seq<Sys>, i: nat, f: nat)
    requires Run(nfile, nproc, tr) && 0 < i < |tr| && f < |tr[i].files|
    ensures |tr[i - 1].files| == |tr[i].files| && HandsOn(tr[i - 1].files[f], tr[i].files[f])
  {
    InvRun(nfile, nproc, tr, i - 1);
    assert Stepped(tr, i);
    NextReleases(tr[i - 1], tr[i], f);
  }

  lemma {:induction false} SameFiles(s: Sys, e: Event)
    requires Enabled(s, e)
    ensures |Do(s, e).files| == |s.files|
  {
  }

  lemma {:induction false} LeftNaming(s: Sys, f: nat)
    requires Inv(s) && f < |s.files|
    ensures FileOk(s, f)
    ensures s.files[f].ref == 0 ==>
              forall p, fd | 0 <= p < |s.procs| && 0 <= fd < |s.procs[p].ofile| ::
                s.procs[p].ofile[fd] == Some(f) ==> s.procs[p].pc == ExitStale(fd, f)
  {
    if s.files[f].ref == 0 {
      forall p, fd | 0 <= p < |s.procs| && 0 <= fd < |s.procs[p].ofile| && s.procs[p].ofile[fd] == Some(f)
        ensures s.procs[p].pc == ExitStale(fd, f)
      {
        Unreferenced(s, f, p, fd);
      }
    }
  }

  /** Whatever a file is given is handed on exactly once, and in the very step that
      takes its count to zero; from then on no process accounts for it, and the only
      descriptor that may still name it is the one exit is about to clear. */
  lemma {:induction false} ReleasedOnce(nfile: nat, nproc: nat, tr: seq<Sys>, i: nat, f: nat)
    requires Run(nfile, nproc, tr) && 0 < i < |tr| && f < |tr[i].files|
    ensures |tr[i - 1].files| == |tr[i].files|
    ensures tr[i].files[f].gets == tr[i].files[f].puts + if tr[i].files[f].kind != FdNone then 1 else 0
    ensures tr[i - 1].files[f].kind != FdNone ==>
              (tr[i].files[f].puts == tr[i - 1].files[f].puts + 1 <==> tr[i].files[f].ref == 0)
    ensures tr[i].files[f].puts == tr[i - 1].files[f].puts || tr[i].files[f].puts == tr[i - 1].files[f].puts + 1
    ensures tr[i].files[f].ref == 0 ==>
              forall p, fd | 0 <= p < |tr[i].procs| && 0 <= fd < |tr[i].procs[p].ofile| ::
                tr[i].procs[p].ofile[fd] == Some(f) ==> tr[i].procs[p].pc == ExitStale(fd, f)
  {
    InvRun(nfile, nproc, tr, i);
    RunReleases(nfile, nproc, tr, i, f);
    LeftNaming(tr[i], f);
  }
}

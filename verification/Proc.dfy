/** Process lifecycle (proc.c): allocproc, fork, exit, wait, the scheduler,
    sleep, wakeup and kill.  Every step is one critical section of ptable.lock
    (or an unlocked write to the caller's own EMBRYO child), so a run is any
    interleaving of processes on any number of CPUs. */
module Proc {
  import opened Common

  const NPROC := 64
  const INIT := 0   // initproc, the first process allocated

  datatype PState = Unused | Embryo | Sleeping | Runnable | Running | Zombie
  datatype Chan = NoChan | OfProc(p: nat) | Other(c: int)
  datatype Process = Process(state: PState, pid: nat, parent: Option<nat>, chan: Chan, killed: bool)

  // ------------------------------------------------ what the table loops do

  /** wakeup1 */
  function Woken(procs: seq<Process>, chan: Chan): (r: seq<Process>)
    ensures |r| == |procs|
  {
    seq(|procs|, q requires 0 <= q < |procs| => WakeOne(procs[q], chan))
  }

  function WakeOne(x: Process, chan: Chan): Process {
    if x.state == Sleeping && x.chan == chan then x.(state := Runnable) else x
  }

  /** Some slot below n holds a zombie child of p. */
  ghost predicate ZombieBelow(procs: seq<Process>, p: nat, n: nat)
    requires n <= |procs|
  {
    exists q :: 0 <= q < n && procs[q].parent == Some(p) && procs[q].state == Zombie
  }

  /** exit by p, as one update of slot q: sleepers on the parent wake, and those
      on init if it inherits a zombie; children go to init; p becomes a zombie. */
  ghost function ExitOne(procs: seq<Process>, p: nat, q: nat): Process
    requires p < |procs| && q < |procs| && procs[p].parent.Some?
  {
    var x := procs[q];
    var woken := x.state == Sleeping &&
                 (x.chan == OfProc(procs[p].parent.value) ||
                   (x.chan == OfProc(INIT) && ZombieBelow(procs, p, |procs|)));
    var y := x.(parent := if x.parent == Some(p) then Some(INIT) else x.parent);
    if q == p then y.(state := Zombie) else if woken then y.(state := Runnable) else y
  }

  ghost function Exited(procs: seq<Process>, p: nat): (r: seq<Process>)
    requires p < |procs| && procs[p].parent.Some?
    ensures |r| == |procs|
  {
    seq(|procs|, q requires 0 <= q < |procs| => ExitOne(procs, p, q))
  }

  /** wait's reset of a zombie slot. */
  function Cleared(x: Process): Process {
    x.(state := Unused, pid := 0, parent := None, killed := false)
  }

  /** The process table and its loops. */
  class ProcTable {
    var procs: seq<Process>

    method Wakeup1(chan: Chan)
      modifies this
      ensures procs == Woken(old(procs), chan)
    {
      var q := 0;
      while q < |procs|
        invariant 0 <= q <= |procs| == |old(procs)|
        invariant forall j :: 0 <= j < q ==> procs[j] == WakeOne(old(procs)[j], chan)
        invariant forall j :: q <= j < |procs| ==> procs[j] == old(procs)[j]
      {
        if procs[q].state == Sleeping && procs[q].chan == chan {
          procs := procs[q := procs[q].(state := Runnable)];
        }
        q := q + 1;
      }
    }

    /** exit, from acquire(&ptable.lock) to sched. */
    method Exit(p: nat)
      requires p < |procs| && procs[p].state == Running && p != INIT
      requires procs[p].parent.Some? && procs[p].parent.value != p
      modifies this
      ensures procs == Exited(old(procs), p)
    {
      ghost var ps, par := procs, procs[p].parent.value;
      Wakeup1(OfProc(procs[p].parent.value));
      var q := 0;
      while q < |procs|
        invariant 0 <= q <= |procs| == |ps|
        invariant forall j :: 0 <= j < |ps| ==> procs[j] == Partly(ps, p, q, j)
      {
        if procs[q].parent == Some(p) {
          procs := procs[q := procs[q].(parent := Some(INIT))];
          if procs[q].state == Zombie {
            assert ZombieBelow(ps, p, q + 1);
            Wakeup1(OfProc(INIT));
          }
        }
        q := q + 1;
      }
      procs := procs[p := procs[p].(state := Zombie)];
    }

    /** Slot j once exit's loop has handled the slots below q. */
    static ghost function Partly(ps: seq<Process>, p: nat, q: nat, j: nat): Process
      requires p < |ps| && q <= |ps| && j < |ps| && ps[p].parent.Some?
    {
      var x := ps[j];
      var woken := x.state == Sleeping &&
                   (x.chan == OfProc(ps[p].parent.value) || (x.chan == OfProc(INIT) && ZombieBelow(ps, p, q)));
      var y := x.(parent := if j < q && x.parent == Some(p) then Some(INIT) else x.parent);
      if woken then y.(state := Runnable) else y
    }

    /** One scan of wait: the first zombie child, if any, is reset and its pid
        returned; otherwise whether there are children at all. */
    method WaitScan(p: nat) returns (child: Option<nat>, havekids: bool)
      requires p < |procs|
      modifies this
      ensures child.Some? ==>
                && child.value < |old(procs)| && IsZombieChild(old(procs), p, child.value)
                && (forall j :: 0 <= j < child.value ==> !IsZombieChild(old(procs), p, j))
                && procs == old(procs)[child.value := Cleared(old(procs)[child.value])]
      ensures child.None? ==> procs == old(procs) && forall j :: 0 <= j < |procs| ==> !IsZombieChild(procs, p, j)
      ensures child.None? ==> (havekids <==> exists j :: 0 <= j < |procs| && procs[j].parent == Some(p))
    {
      havekids := false;
      var q := 0;
      while q < |procs|
        invariant 0 <= q <= |procs| && procs == old(procs)
        invariant forall j :: 0 <= j < q ==> !IsZombieChild(procs, p, j)
        invariant havekids <==> exists j :: 0 <= j < q && procs[j].parent == Some(p)
      {
        if procs[q].parent == Some(p) {
          havekids := true;
          if procs[q].state == Zombie {
            procs := procs[q := Cleared(procs[q])];
            return Some(q), true;
          }
        }
        q := q + 1;
      }
      child := None;
    }
  }

  predicate IsZombieChild(procs: seq<Process>, p: nat, q: nat)
    requires q < |procs|
  {
    procs[q].parent == Some(p) && procs[q].state == Zombie
  }

  // ------------------------------------------------------- the whole system

  /** forking maps a process inside fork to the child it is building; exited and
      reaped record the pids that have called exit and that wait has returned. */
  datatype Sys = Sys(procs: seq<Process>, nextpid: nat, cpus: seq<Option<nat>>, forking: map<nat, nat>,
                     exited: set<nat>, reaped: seq<nat>)

  datatype Event =
    | Alloc(p: nat, k: nat)      // allocproc, called by fork, takes slot k
    | ForkFail(p: nat)           // no memory: the child goes back to UNUSED
    | SetParent(p: nat)
    | ForkDone(p: nat)
    | Exit(p: nat)
    | Reap(p: nat, q: nat)       // wait finds zombie q
    | WaitSleep(p: nat)
    | Schedule(cpu: nat, p: nat)
    | Yield(p: nat)
    | Sleep(p: nat, chan: int)
    | Wakeup(chan: int)
    | Kill(q: nat)               // q is the first slot with the pid

  predicate Runs(s: Sys, p: nat) { p < |s.procs| && s.procs[p].state == Running }

  ghost predicate Enabled(s: Sys, e: Event) {
    match e
    case Alloc(p, k) => Runs(s, p) && p !in s.forking && k < |s.procs| && s.procs[k].state == Unused
    case ForkFail(p) => Runs(s, p) && p in s.forking && s.forking[p] < |s.procs| && s.procs[s.forking[p]].parent == None
    case SetParent(p) => Runs(s, p) && p in s.forking && s.forking[p] < |s.procs|
    case ForkDone(p) => Runs(s, p) && p in s.forking && s.forking[p] < |s.procs| &&
      s.procs[s.forking[p]].parent == Some(p)
    case Exit(p) => Runs(s, p) && p != INIT && p !in s.forking && s.procs[p].parent.Some?
    case Reap(p, q) => Runs(s, p) && p !in s.forking && q < |s.procs| && IsZombieChild(s.procs, p, q)
    case WaitSleep(p) => Runs(s, p) && p !in s.forking && forall q :: 0 <= q < |s.procs| ==>
      !IsZombieChild(s.procs, p, q)
    case Schedule(c, p) => c < |s.cpus| && s.cpus[c] == None && p < |s.procs| && s.procs[p].state == Runnable
    case Yield(p) => Runs(s, p)
    case Sleep(p, c) => Runs(s, p) && p !in s.forking
    case Wakeup(c) => true
    case Kill(q) => q < |s.procs| && forall j :: 0 <= j < q ==> s.procs[j].pid != s.procs[q].pid
  }

  /** Every CPU running p goes back to its scheduler. */
  function Off(cpus: seq<Option<nat>>, p: nat): (r: seq<Option<nat>>)
    ensures |r| == |cpus|
  {
    seq(|cpus|, c requires 0 <= c < |cpus| => if cpus[c] == Some(p) then None else cpus[c])
  }

  function Put(s: Sys, p: nat, x: Process): Sys
    requires p < |s.procs|
  {
    s.(procs := s.procs[p := x])
  }

  ghost function Do(s: Sys, e: Event): (t: Sys)
    requires Enabled(s, e)
  {
    match e
    case Alloc(p, k) =>
      Put(s, k, s.procs[k].(state := Embryo, pid := s.nextpid)).(nextpid := s.nextpid + 1, forking := s.forking[p := k])
    case ForkFail(p) => Put(s, s.forking[p], s.procs[s.forking[p]].(state := Unused)).(forking := s.forking - {p})
    case SetParent(p) => Put(s, s.forking[p], s.procs[s.forking[p]].(parent := Some(p)))
    case ForkDone(p) => Put(s, s.forking[p], s.procs[s.forking[p]].(state := Runnable)).(forking := s.forking - {p})
    case Exit(p) =>
      s.(procs := Exited(s.procs, p), cpus := Off(s.cpus, p), exited := s.exited + {s.procs[p].pid})
    case Reap(p, q) => Put(s, q, Cleared(s.procs[q])).(reaped := s.reaped + [s.procs[q].pid])
    case WaitSleep(p) =>
      Put(s, p, s.procs[p].(state := Sleeping, chan := OfProc(p))).(cpus := Off(s.cpus, p))
    case Schedule(c, p) => Put(s, p, s.procs[p].(state := Running)).(cpus := s.cpus[c := Some(p)])
    case Yield(p) => Put(s, p, s.procs[p].(state := Runnable)).(cpus := Off(s.cpus, p))
    case Sleep(p, c) => Put(s, p, s.procs[p].(state := Sleeping, chan := Other(c))).(cpus := Off(s.cpus, p))
    case Wakeup(c) => s.(procs := Woken(s.procs, Other(c)))
    case Kill(q) =>
      Put(s, q, s.procs[q].(killed := true, state := if s.procs[q].state == Sleeping then Runnable
        else s.procs[q].state))
  }

  /** After userinit: init is runnable, everything else is unused. */
  ghost predicate Start(s: Sys) {
    && |s.procs| == NPROC && s.procs[INIT] == Process(Runnable, 1, None, NoChan, false) && s.nextpid == 2
    && (forall q :: 0 < q < NPROC ==> s.procs[q] == Process(Unused, 0, None, NoChan, false))
    && (forall c :: 0 <= c < |s.cpus| ==> s.cpus[c] == None)
    && s.forking == map[] && s.exited == {} && s.reaped == []
  }

  ghost predicate Run(tr: seq<Sys>) {
    && |tr| > 0 && Start(tr[0])
    && forall i :: 0 < i < |tr| ==> Next(tr[i - 1], tr[i])
  }

  ghost predicate Next(s: Sys, t: Sys) {
    exists e :: Enabled(s, e) && t == Do(s, e)
  }

  // -------------------------------------------------------------- invariant

  predicate Alive(x: Process) { x.state in {Sleeping, Runnable, Running} }

  /** Asleep in wait. */
  predicate InWait(x: Process, p: nat) { x.state == Sleeping && x.chan == OfProc(p) }

  ghost predicate ProcOk(s: Sys, q: nat)
    requires q < |s.procs|
  {
    LineageOk(s, q) && PidOk(s, q)
  }

  ghost predicate PidOk(s: Sys, q: nat)
    requires q < |s.procs|
  {
    var x := s.procs[q];
    x.state != Unused ==> 0 < x.pid < s.nextpid && x.pid !in s.reaped && (x.pid in s.exited <==> x.state == Zombie)
  }

  ghost predicate LineageOk(s: Sys, q: nat)
    requires q < |s.procs|
  {
    var x := s.procs[q];
    && (x.state == Unused ==> x.parent == None)
    && (x.state == Embryo && x.parent.Some? ==> x.parent.value in s.forking && s.forking[x.parent.value] == q)
    && (q == INIT ==> Alive(x) && x.parent == None)
    && ((Alive(x) || x.state == Zombie) && q != INIT ==>
          x.parent.Some? && x.parent.value < |s.procs| && x.parent.value != q && Alive(s.procs[x.parent.value]))
    && (x.state == Sleeping && x.chan.OfProc? ==> x.chan.p == q)
    && (x.state == Zombie && x.parent.Some? && x.parent.value < |s.procs| ==>
       !InWait(s.procs[x.parent.value], x.parent.value))
  }

  ghost predicate ForkOk(s: Sys, p: nat)
    requires p in s.forking
  {
    && p < |s.procs| && s.forking[p] < |s.procs| && s.forking[p] != p
    && s.procs[p].state in {Runnable, Running} && s.procs[s.forking[p]].state == Embryo
  }

  ghost predicate CpuOk(s: Sys, c: nat)
    requires c < |s.cpus|
  {
    s.cpus[c].Some? ==> s.cpus[c].value < |s.procs| && s.procs[s.cpus[c].value].state == Running
  }

  /** A RUNNING process is on some CPU. */
  ghost predicate OnCpu(s: Sys, p: nat)
    requires p < |s.procs|
  {
    s.procs[p].state == Running ==> exists c :: 0 <= c < |s.cpus| && s.cpus[c] == Some(p)
  }

  ghost predicate Inv(s: Sys) {
    && |s.procs| == NPROC && s.nextpid > 0
    && (forall q :: 0 <= q < NPROC ==> ProcOk(s, q))
    && (forall p, q :: 0 <= p < q < NPROC && s.procs[p].state != Unused && s.procs[q].state != Unused ==>
          s.procs[p].pid != s.procs[q].pid)
    && (forall p :: p in s.forking ==> ForkOk(s, p))
    && (forall p, q :: p in s.forking && q in s.forking && p != q ==> s.forking[p] != s.forking[q])
    && (forall c :: 0 <= c < |s.cpus| ==> CpuOk(s, c))
    && (forall c, d :: 0 <= c < d < |s.cpus| && s.cpus[c].Some? ==> s.cpus[c] != s.cpus[d])
    && (forall p :: 0 <= p < NPROC ==> OnCpu(s, p))
    && (forall i :: 0 <= i < |s.reaped| ==> 0 < s.reaped[i] < s.nextpid && s.reaped[i] in s.exited)
    && (forall i, j :: 0 <= i < j < |s.reaped| ==> s.reaped[i] != s.reaped[j])
    && (forall x :: x in s.exited ==> x < s.nextpid)
  }

  lemma {:induction false} InvStart(s: Sys)
    requires Start(s)
    ensures Inv(s)
  {
  }

  lemma {:induction false} LineageExit(s: Sys, p: nat, q: nat)
    requires Inv(s) && Enabled(s, Exit(p)) && q < NPROC
    ensures LineageOk(Do(s, Exit(p)), q)
  {
    var t := Do(s, Exit(p));
    assert ProcOk(s, q) && ProcOk(s, p) && ProcOk(s, INIT);
    var x := s.procs[q];
    assert t.procs[q] == ExitOne(s.procs, p, q);
    if x.parent.Some? && x.parent.value < NPROC {
      assert t.procs[x.parent.value] == ExitOne(s.procs, p, x.parent.value);
      assert t.procs[INIT] == ExitOne(s.procs, p, INIT);
      assert x.parent == Some(p) && x.state == Zombie ==> ZombieBelow(s.procs, p, NPROC);
    }
  }

  lemma {:induction false} PidExit(s: Sys, p: nat, q: nat)
    requires Inv(s) && Enabled(s, Exit(p)) && q < NPROC
    ensures PidOk(Do(s, Exit(p)), q)
  {
    assert ProcOk(s, q) && ProcOk(s, p);
    assert Do(s, Exit(p)).procs[q] == ExitOne(s.procs, p, q);
  }

  lemma {:induction false} ProcAlloc(s: Sys, p: nat, k: nat, q: nat)
    requires Inv(s) && Enabled(s, Alloc(p, k)) && q < NPROC
    ensures ProcOk(Do(s, Alloc(p, k)), q)
  {
    assert ProcOk(s, q) && ProcOk(s, k);
  }

  lemma {:induction false} ProcForkFail(s: Sys, p: nat, q: nat)
    requires Inv(s) && Enabled(s, ForkFail(p)) && q < NPROC
    ensures ProcOk(Do(s, ForkFail(p)), q)
  {
    assert ProcOk(s, q) && ForkOk(s, p) && ProcOk(s, s.forking[p]);
  }

  lemma {:induction false} ProcSetParent(s: Sys, p: nat, q: nat)
    requires Inv(s) && Enabled(s, SetParent(p)) && q < NPROC
    ensures ProcOk(Do(s, SetParent(p)), q)
  {
    assert ProcOk(s, q) && ForkOk(s, p) && ProcOk(s, s.forking[p]);
  }

  lemma {:induction false} ProcForkDone(s: Sys, p: nat, q: nat)
    requires Inv(s) && Enabled(s, ForkDone(p)) && q < NPROC
    ensures ProcOk(Do(s, ForkDone(p)), q)
  {
    assert ProcOk(s, q) && ForkOk(s, p) && ProcOk(s, s.forking[p]);
  }

  lemma {:induction false} ProcReap(s: Sys, p: nat, z: nat, q: nat)
    requires Inv(s) && Enabled(s, Reap(p, z)) && q < NPROC
    ensures ProcOk(Do(s, Reap(p, z)), q)
  {
    assert ProcOk(s, q) && ProcOk(s, z);
  }

  lemma {:induction false} ProcOther(s: Sys, e: Event, q: nat)
    requires Inv(s) && Enabled(s, e) && q < NPROC && (e.WaitSleep? || e.Schedule? || e.Yield? || e.Sleep?)
    ensures ProcOk(Do(s, e), q)
  {
    assert ProcOk(s, q);
    assert e.WaitSleep? ==> !IsZombieChild(s.procs, e.p, q);
  }

  lemma {:induction false} ProcWake(s: Sys, e: Event, q: nat)
    requires Inv(s) && Enabled(s, e) && q < NPROC && (e.Wakeup? || e.Kill?)
    ensures ProcOk(Do(s, e), q)
  {
    assert ProcOk(s, q);
  }

  lemma {:induction false} ProcDo(s: Sys, e: Event, q: nat)
    requires Inv(s) && Enabled(s, e) && q < NPROC
    ensures q < |Do(s, e).procs| && ProcOk(Do(s, e), q)
  {
    match e
    case Exit(p) => LineageExit(s, p, q); PidExit(s, p, q);
    case Alloc(p, k) => ProcAlloc(s, p, k, q);
    case ForkFail(p) => ProcForkFail(s, p, q);
    case SetParent(p) => ProcSetParent(s, p, q);
    case ForkDone(p) => ProcForkDone(s, p, q);
    case Reap(p, z) => ProcReap(s, p, z, q);
    case Wakeup(_) => ProcWake(s, e, q);
    case Kill(_) => ProcWake(s, e, q);
    case _ => ProcOther(s, e, q);
  }

  lemma {:induction false} PidsDo(s: Sys, e: Event, p: nat, q: nat)
    requires Inv(s) && Enabled(s, e) && p < q < NPROC
    requires var t := Do(s, e); |t.procs| == NPROC && t.procs[p].state != Unused && t.procs[q].state != Unused
    ensures Do(s, e).procs[p].pid != Do(s, e).procs[q].pid
  {
    PidNext(s, e, p);
    PidNext(s, e, q);
  }

  /** A slot in use keeps its pid, or has just been given the next one. */
  lemma {:induction false} PidNext(s: Sys, e: Event, q: nat)
    requires Inv(s) && Enabled(s, e) && q < NPROC
    requires var t := Do(s, e); |t.procs| == NPROC && t.procs[q].state != Unused
    ensures if e.Alloc? && e.k == q then Do(s, e).procs[q].pid == s.nextpid
            else s.procs[q].state != Unused && Do(s, e).procs[q].pid == s.procs[q].pid < s.nextpid
  {
    assert ProcOk(s, q);
    assert (e.ForkFail? || e.SetParent? || e.ForkDone?) ==> ForkOk(s, e.p);
  }

  lemma {:induction false} ForkExit(s: Sys, p: nat, f: nat)
    requires Inv(s) && Enabled(s, Exit(p)) && f in s.forking
    ensures ForkOk(Do(s, Exit(p)), f)
  {
    var t := Do(s, Exit(p));
    assert ForkOk(s, f);
    assert t.procs[f] == ExitOne(s.procs, p, f) && t.procs[s.forking[f]] == ExitOne(s.procs, p, s.forking[f]);
  }

  lemma {:induction false} ForkAlloc(s: Sys, p: nat, k: nat, f: nat)
    requires Inv(s) && Enabled(s, Alloc(p, k)) && (f in s.forking || f == p)
    ensures ForkOk(Do(s, Alloc(p, k)), f)
  {
    assert f != p ==> ForkOk(s, f);
  }

  lemma {:induction false} ForkEnd(s: Sys, e: Event, f: nat)
    requires Inv(s) && (e.ForkFail? || e.ForkDone?) && Enabled(s, e) && f in s.forking && f != e.p
    ensures ForkOk(Do(s, e), f)
  {
    assert ForkOk(s, f) && ForkOk(s, e.p);
  }

  lemma {:induction false} ForkSame(s: Sys, e: Event, f: nat)
    requires Inv(s) && Enabled(s, e) && f in s.forking
    requires !(e.Exit? || e.Alloc? || e.ForkFail? || e.ForkDone?)
    ensures ForkOk(Do(s, e), f)
  {
    assert ForkOk(s, f);
  }

  lemma {:induction false} ForkDo(s: Sys, e: Event, f: nat)
    requires Inv(s) && Enabled(s, e) && f in Do(s, e).forking
    ensures ForkOk(Do(s, e), f)
  {
    match e
    case Exit(p) => ForkExit(s, p, f);
    case Alloc(p, k) => ForkAlloc(s, p, k, f);
    case ForkFail(p) => ForkEnd(s, e, f);
    case ForkDone(p) => ForkEnd(s, e, f);
    case _ => ForkSame(s, e, f);
  }

  lemma {:induction false} ForksDo(s: Sys, e: Event, p: nat, q: nat)
    requires Inv(s) && Enabled(s, e) && p in Do(s, e).forking && q in Do(s, e).forking && p != q
    ensures Do(s, e).forking[p] != Do(s, e).forking[q]
  {
    assert p in s.forking ==> ForkOk(s, p);
    assert q in s.forking ==> ForkOk(s, q);
  }

  lemma {:induction false} CpusDo(s: Sys, e: Event)
    requires Inv(s) && Enabled(s, e)
    ensures var t := Do(s, e);
            && (forall c :: 0 <= c < |t.cpus| ==> CpuOk(t, c))
            && (forall c, d :: 0 <= c < d < |t.cpus| && t.cpus[c].Some? ==> t.cpus[c] != t.cpus[d])
  {
    var t := Do(s, e);
    forall c | 0 <= c < |t.cpus|
      ensures CpuOk(t, c)
    {
      assert CpuOk(s, c);
      assert e.Schedule? ==> s.procs[e.p].state == Runnable;
      assert (e.ForkFail? || e.SetParent? || e.ForkDone?) ==> ForkOk(s, e.p);
    }
    forall c, d | 0 <= c < d < |t.cpus| && t.cpus[c].Some?
      ensures t.cpus[c] != t.cpus[d]
    {
      assert CpuOk(s, c) && CpuOk(s, d);
    }
  }

  lemma {:induction false} OnCpuDo(s: Sys, e: Event, p: nat)
    requires Inv(s) && Enabled(s, e) && p < NPROC && |Do(s, e).procs| == NPROC
    ensures OnCpu(Do(s, e), p)
  {
    var t := Do(s, e);
    if t.procs[p].state == Running {
      if e.Schedule? && e.p == p {
        assert t.cpus[e.cpu] == Some(p);
      } else {
        assert s.procs[p].state == Running;
        assert OnCpu(s, p);
        var c :| 0 <= c < |s.cpus| && s.cpus[c] == Some(p);
        assert t.cpus[c] == Some(p);
      }
    }
  }

  lemma {:induction false} ReapedDo(s: Sys, e: Event)
    requires Inv(s) && Enabled(s, e)
    ensures var t := Do(s, e);
            && (forall i :: 0 <= i < |t.reaped| ==> 0 < t.reaped[i] < t.nextpid && t.reaped[i] in t.exited)
            && (forall i, j :: 0 <= i < j < |t.reaped| ==> t.reaped[i] != t.reaped[j])
            && (forall x :: x in t.exited ==> x < t.nextpid)
  {
    assert e.Reap? ==> ProcOk(s, e.q);
    assert e.Exit? ==> ProcOk(s, e.p);
  }

  lemma {:induction false} InvDo(s: Sys, e: Event)
    requires Inv(s) && Enabled(s, e)
    ensures Inv(Do(s, e))
  {
    var t := Do(s, e);
    forall q | 0 <= q < NPROC
      ensures q < |t.procs| && ProcOk(t, q)
    {
      ProcDo(s, e, q);
    }
    assert |t.procs| == NPROC;
    forall p, q | 0 <= p < q < NPROC && t.procs[p].state != Unused && t.procs[q].state != Unused
      ensures t.procs[p].pid != t.procs[q].pid
    {
      PidsDo(s, e, p, q);
    }
    forall p | p in t.forking
      ensures ForkOk(t, p)
    {
      ForkDo(s, e, p);
    }
    forall p, q | p in t.forking && q in t.forking && p != q
      ensures t.forking[p] != t.forking[q]
    {
      ForksDo(s, e, p, q);
    }
    CpusDo(s, e);
    forall p | 0 <= p < NPROC
      ensures OnCpu(t, p)
    {
      OnCpuDo(s, e, p);
    }
    ReapedDo(s, e);
  }

  lemma {:induction false} InvRun(tr: seq<Sys>)
    requires Run(tr)
    ensures Inv(tr[|tr| - 1])
  {
    var n := |tr|;
    if n == 1 {
      InvStart(tr[0]);
    } else {
      InvRun(tr[..n - 1]);
      var s, t := tr[n - 2], tr[n - 1];
      assert Next(s, t);
      var e :| Enabled(s, e) && t == Do(s, e);
      InvDo(s, e);
    }
  }

  // --------------------------------------------------------------- theorems

  /** No process sleeps in wait while it has a zombie child. */
  lemma {:induction false} NoMissedChild(tr: seq<Sys>, p: nat, q: nat)
    requires Run(tr) && p < NPROC && q < NPROC
    ensures var s := tr[|tr| - 1];
            |s.procs| == NPROC && !(InWait(s.procs[p], p) && IsZombieChild(s.procs, p, q))
  {
    InvRun(tr);
    assert ProcOk(tr[|tr| - 1], q);
  }

  /** Every live or zombie process but init has a parent that has not exited. */
  lemma {:induction false} ParentAlive(tr: seq<Sys>, q: nat)
    requires Run(tr) && 0 < q < NPROC
    requires var s := tr[|tr| - 1]; |s.procs| == NPROC && (Alive(s.procs[q]) || s.procs[q].state == Zombie)
    ensures var s := tr[|tr| - 1];
            var par := s.procs[q].parent;
            par.Some? && par.value < NPROC && Alive(s.procs[par.value]) && s.procs[par.value].pid !in s.exited
  {
    InvRun(tr);
    var s := tr[|tr| - 1];
    assert ProcOk(s, q) && ProcOk(s, s.procs[q].parent.value);
  }

  /** A process is RUNNING exactly when some CPU runs it, and then only one does. */
  lemma {:induction false} OneCpu(tr: seq<Sys>, p: nat)
    requires Run(tr) && p < NPROC
    ensures var s := tr[|tr| - 1];
            && |s.procs| == NPROC
            && (s.procs[p].state == Running <==> exists c :: 0 <= c < |s.cpus| && s.cpus[c] == Some(p))
            && (forall c, d :: 0 <= c < |s.cpus| && 0 <= d < |s.cpus| && s.cpus[c] == s.cpus[d] == Some(p) ==> c == d)
  {
    InvRun(tr);
    var s := tr[|tr| - 1];
    assert OnCpu(s, p);
    forall c | 0 <= c < |s.cpus| && s.cpus[c] == Some(p)
      ensures s.procs[p].state == Running
    {
      assert CpuOk(s, c);
    }
  }

  /** wait returns each pid at most once, and only pids that exited; a pid it has
      returned belongs to no process any more. */
  lemma {:induction false} ReapedOnce(tr: seq<Sys>, i: nat, j: nat)
    requires Run(tr) && i < |tr[|tr| - 1].reaped| && j < |tr[|tr| - 1].reaped|
    ensures var s := tr[|tr| - 1];
            && (s.reaped[i] == s.reaped[j] ==> i == j) && s.reaped[i] in s.exited
            && |s.procs| == NPROC
            && forall q :: 0 <= q < NPROC && s.procs[q].state != Unused ==> s.procs[q].pid != s.reaped[i]
  {
    InvRun(tr);
    var s := tr[|tr| - 1];
    forall q | 0 <= q < NPROC && s.procs[q].state != Unused
      ensures s.procs[q].pid != s.reaped[i]
    {
      assert ProcOk(s, q);
    }
  }

  // ---------------------------------------------------------- who is killed

  /** A run with the events that make it. */
  ghost predicate RunBy(tr: seq<Sys>, es: seq<Event>) {
    && |tr| == |es| + 1 && Start(tr[0])
    && forall i :: 0 <= i < |es| ==> StepBy(tr, es, i)
  }

  ghost predicate StepBy(tr: seq<Sys>, es: seq<Event>, i: nat)
    requires i < |es| && |tr| == |es| + 1
  {
    Enabled(tr[i], es[i]) && tr[i + 1] == Do(tr[i], es[i])
  }

  lemma {:induction false} RunByRun(tr: seq<Sys>, es: seq<Event>)
    requires RunBy(tr, es)
    ensures Run(tr) && Inv(tr[|es|])
  {
    forall i | 0 < i < |tr|
      ensures Next(tr[i - 1], tr[i])
    {
      assert StepBy(tr, es, i - 1);
    }
    InvRun(tr);
  }

  lemma {:induction false} RunByPrefix(tr: seq<Sys>, es: seq<Event>, n: nat)
    requires RunBy(tr, es) && n <= |es|
    ensures RunBy(tr[..n + 1], es[..n])
  {
    var ts, fs := tr[..n + 1], es[..n];
    forall i | 0 <= i < n
      ensures StepBy(ts, fs, i)
    {
      assert StepBy(tr, es, i);
    }
  }

  /** Event i is a kill that finds slot q, and wait has not reset the slot since. */
  ghost predicate Marks(es: seq<Event>, q: nat, i: nat) {
    i < |es| && es[i] == Kill(q) && forall j :: i < j < |es| ==> !(es[j].Reap? && es[j].q == q)
  }

  /** Event i is a fork that gives up its child in slot q. */
  ghost predicate Fails(tr: seq<Sys>, es: seq<Event>, q: nat, i: nat)
    requires |tr| == |es| + 1
  {
    i < |es| && es[i].ForkFail? && es[i].p in tr[i].forking && tr[i].forking[es[i].p] == q
  }

  /** The pid of slot q before event i.  (Every run has NPROC slots; the test only makes
      the function total.) */
  function PidAt(tr: seq<Sys>, q: nat, i: nat): nat {
    if i < |tr| && q < |tr[i].procs| then tr[i].procs[q].pid else 0
  }

  /** A kill on its own pid. */
  ghost predicate OwnKill(tr: seq<Sys>, es: seq<Event>, q: nat)
    requires |tr| == |es| + 1
  {
    exists i: nat :: Marks(es, q, i) && PidAt(tr, q, i) == PidAt(tr, q, |es|)
  }

  /** A kill(0), or a kill on the pid of a fork that failed, while the slot still had that pid. */
  ghost predicate StrayKill(tr: seq<Sys>, es: seq<Event>, q: nat)
    requires |tr| == |es| + 1
  {
    exists i: nat :: Marks(es, q, i) && (PidAt(tr, q, i) == 0 || FailedPid(tr, es, q, PidAt(tr, q, i)))
  }

  ghost predicate FailedPid(tr: seq<Sys>, es: seq<Event>, q: nat, pid: nat)
    requires |tr| == |es| + 1
  {
    exists j: nat :: Fails(tr, es, q, j) && PidAt(tr, q, j) == pid
  }

  lemma {:induction false} KilledDo(s: Sys, e: Event, q: nat)
    requires Inv(s) && Enabled(s, e) && q < NPROC
    ensures var t := Do(s, e);
            |t.procs| == NPROC &&
            (t.procs[q].killed <==> e == Kill(q) || (s.procs[q].killed && !(e.Reap? && e.q == q)))
  {
  }

  /** The killed flag of any slot: a kill has found the slot since it was last reset. */
  lemma {:induction false} KilledMarked(tr: seq<Sys>, es: seq<Event>, q: nat)
    requires RunBy(tr, es) && q < NPROC
    ensures |tr[|es|].procs| == NPROC && (tr[|es|].procs[q].killed <==> exists i: nat :: Marks(es, q, i))
    decreases |es|
  {
    var n := |es|;
    if n > 0 {
      RunByPrefix(tr, es, n - 1);
      RunByRun(tr[..n], es[..n - 1]);
      KilledMarked(tr[..n], es[..n - 1], q);
      assert StepBy(tr, es, n - 1);
      KilledDo(tr[n - 1], es[n - 1], q);
      if tr[n].procs[q].killed {
        if es[n - 1] == Kill(q) {
          assert Marks(es, q, n - 1);
        } else {
          var i: nat :| Marks(es[..n - 1], q, i);
          assert Marks(es, q, i);
        }
      }
      forall i: nat | Marks(es, q, i)
        ensures tr[n].procs[q].killed
      {
        assert i < n - 1 ==> Marks(es[..n - 1], q, i);
      }
    }
  }

  /** A slot's pid changes only in allocproc, which finds it unused, and in wait. */
  lemma {:induction false} PidDo(s: Sys, e: Event, q: nat)
    requires Inv(s) && Enabled(s, e) && q < NPROC
    ensures var t := Do(s, e);
            && |t.procs| == NPROC
            && (t.procs[q].pid != s.procs[q].pid ==>
                  (e.Alloc? && s.procs[q].state == Unused) || (e.Reap? && e.q == q))
            && (t.procs[q].state == Unused ==>
                  || (s.procs[q].state == Unused && t.procs[q].pid == s.procs[q].pid)
                  || t.procs[q].pid == 0
                  || (e.ForkFail? && s.forking[e.p] == q && t.procs[q].pid == s.procs[q].pid))
  {
    if e.Exit? {
      assert Do(s, e).procs[q] == ExitOne(s.procs, e.p, q);
    }
  }

  /** An unused slot has pid 0, or that of a fork that failed in it. */
  lemma {:induction false} UnusedPid(tr: seq<Sys>, es: seq<Event>, q: nat)
    requires RunBy(tr, es) && q < NPROC
    ensures |tr[|es|].procs| == NPROC
    ensures tr[|es|].procs[q].state == Unused ==>
              PidAt(tr, q, |es|) == 0 || FailedPid(tr, es, q, PidAt(tr, q, |es|))
    decreases |es|
  {
    var n := |es|;
    if n > 0 {
      RunByPrefix(tr, es, n - 1);
      RunByRun(tr[..n], es[..n - 1]);
      UnusedPid(tr[..n], es[..n - 1], q);
      assert StepBy(tr, es, n - 1);
      PidDo(tr[n - 1], es[n - 1], q);
      var pid := PidAt(tr, q, n);
      if tr[n].procs[q].state == Unused && pid != 0 {
        if tr[n - 1].procs[q].state == Unused && PidAt(tr, q, n - 1) == pid {
          var j: nat :| Fails(tr[..n], es[..n - 1], q, j) && PidAt(tr[..n], q, j) == pid;
          assert Fails(tr, es, q, j) && PidAt(tr, q, j) == pid;
        } else {
          assert Fails(tr, es, q, n - 1) && PidAt(tr, q, n - 1) == pid;
        }
      }
    }
  }

  /** A pid the slot had since it was last reset is its pid now, or was left by a kill
      on an unused slot. */
  lemma {:induction false} PidSince(tr: seq<Sys>, es: seq<Event>, q: nat, i: nat, n: nat)
    requires RunBy(tr, es) && q < NPROC && i <= n <= |es|
    requires forall j :: i <= j < n ==> !(es[j].Reap? && es[j].q == q)
    ensures PidAt(tr, q, i) == PidAt(tr, q, n) || PidAt(tr, q, i) == 0 || FailedPid(tr, es, q, PidAt(tr, q, i))
    decreases n - i
  {
    if i < n {
      RunByPrefix(tr, es, i);
      RunByRun(tr[..i + 1], es[..i]);
      assert StepBy(tr, es, i);
      PidDo(tr[i], es[i], q);
      var pid := PidAt(tr, q, i);
      if PidAt(tr, q, i + 1) == pid {
        PidSince(tr, es, q, i + 1, n);
      } else {
        UnusedPid(tr[..i + 1], es[..i], q);
        if pid != 0 {
          var j: nat :| Fails(tr[..i + 1], es[..i], q, j) && PidAt(tr[..i + 1], q, j) == pid;
          assert Fails(tr, es, q, j) && PidAt(tr, q, j) == pid;
        }
      }
    }
  }

  /** A process is killed exactly when kill was called on its own pid, or its slot was
      marked before it was born: by kill(0), or by a kill on the pid of a failed fork. */
  lemma {:induction false} KilledExactly(tr: seq<Sys>, es: seq<Event>, q: nat)
    requires RunBy(tr, es) && q < NPROC
    ensures |tr[|es|].procs| == NPROC
    ensures tr[|es|].procs[q].killed <==> OwnKill(tr, es, q) || StrayKill(tr, es, q)
  {
    KilledMarked(tr, es, q);
    if tr[|es|].procs[q].killed {
      var i: nat :| Marks(es, q, i);
      PidSince(tr, es, q, i, |es|);
    }
  }

  /** fork by p into slot k, without interruption. */
  lemma {:induction false} Forks(s: Sys, p: nat, k: nat) returns (a: Sys, b: Sys, c: Sys)
    requires Runs(s, p) && p !in s.forking && k < |s.procs| && k != p
    requires s.procs[k].state == Unused && s.procs[k].parent == None
    ensures Enabled(s, Alloc(p, k)) && a == Do(s, Alloc(p, k))
    ensures Enabled(a, SetParent(p)) && b == Do(a, SetParent(p))
    ensures Enabled(b, ForkDone(p)) && c == Do(b, ForkDone(p))
    ensures |c.procs| == |s.procs| && c.procs[k] == s.procs[k].(state := Runnable, pid := s.nextpid, parent := Some(p))
  {
    a := Do(s, Alloc(p, k));
    b := Do(a, SetParent(p));
    c := Do(b, ForkDone(p));
  }

  lemma {:induction false} MarksUnused(s: Sys) returns (a: Sys, b: Sys)
    requires Start(s) && |s.cpus| > 0
    ensures Enabled(s, Schedule(0, INIT)) && a == Do(s, Schedule(0, INIT))
    ensures Enabled(a, Kill(1)) && b == Do(a, Kill(1))
    ensures |a.procs| == |b.procs| == NPROC && a.procs[1].pid == 0 && Runs(b, INIT)
    ensures b.procs[1] == Process(Unused, 0, None, NoChan, true) && b.forking == map[] && b.nextpid == 2
  {
    a := Do(s, Schedule(0, INIT));
    b := Do(a, Kill(1));
  }

  lemma {:induction false} NoOwnKill(tr: seq<Sys>, es: seq<Event>, q: nat)
    requires |tr| == |es| + 1 && (forall i :: 0 <= i < |es| && i != 1 ==> !es[i].Kill?)
    requires PidAt(tr, q, 1) != PidAt(tr, q, |es|)
    ensures !OwnKill(tr, es, q)
  {
  }

  lemma {:induction false} Steps(tr: seq<Sys>, es: seq<Event>, s: Sys, e: Event)
    requires RunBy(tr, es) && s == tr[|es|] && Enabled(s, e)
    ensures RunBy(tr + [Do(s, e)], es + [e])
  {
    var ts, fs := tr + [Do(s, e)], es + [e];
    forall i | 0 <= i < |fs|
      ensures StepBy(ts, fs, i)
    {
      assert i < |es| ==> StepBy(tr, es, i);
    }
  }

  /** init's kill(0) marks the first unused slot, and the first fork then gives birth to a
      killed process that nobody killed. */
  lemma {:induction false} BornKilled(s: Sys) returns (tr: seq<Sys>, es: seq<Event>)
    requires Start(s) && |s.cpus| > 0
    ensures RunBy(tr, es) && tr[0] == s && |tr[|es|].procs| == NPROC
    ensures var x := tr[|es|].procs[1]; x.state == Runnable && x.killed
    ensures !OwnKill(tr, es, 1)
  {
    var a, b := MarksUnused(s);
    var c, d, e := Forks(b, INIT, 1);
    Steps([s], [], s, Schedule(0, INIT));
    Steps([s] + [a], [] + [Schedule(0, INIT)], a, Kill(1));
    tr, es := [s] + [a] + [b], [] + [Schedule(0, INIT)] + [Kill(1)];
    Steps(tr, es, b, Alloc(INIT, 1));
    tr, es := tr + [c], es + [Alloc(INIT, 1)];
    Steps(tr, es, c, SetParent(INIT));
    tr, es := tr + [d], es + [SetParent(INIT)];
    Steps(tr, es, d, ForkDone(INIT));
    tr, es := tr + [e], es + [ForkDone(INIT)];
    NoOwnKill(tr, es, 1);
  }
}

/** Sleep locks over sleep/wakeup (sleeplock.c, proc.c sleep and wakeup), for any
    number of processes, one step per acquire, release or shared assignment. */
module SleepLock {
  import opened Common

  /** Where a process is in acquiresleep, sleep, releasesleep or wakeup. */
  datatype Pc =
    | Idle
    // acquiresleep
    | WantLk    // acquire(&lk->lk)
    | Test      // holds lk->lk, tests lk->locked
    | WantPt    // in sleep: holds lk->lk, acquires ptable.lock
    | HoldBoth  // in sleep: holds both, releases lk->lk
    | Mark      // in sleep: holds ptable.lock, sets SLEEPING and enters the scheduler
    | Asleep    // SLEEPING on the lock
    | Runnable  // woken up, not yet scheduled
    | Resume    // scheduled, still holding ptable.lock from the scheduler
    | Unlk      // lock taken, releases lk->lk
    | Held      // acquiresleep has returned
    // releasesleep
    | RWantLk   // acquire(&lk->lk)
    | RClear    // holds lk->lk, clears locked and pid
    | RWantPt   // in wakeup: acquires ptable.lock
    | RWake     // in wakeup: wakes every sleeper, releases ptable.lock
    | RUnlk     // releases lk->lk

  /** Holder of a spinlock; Env is a process that uses ptable.lock for
      something else. */
  datatype Holder = Free | By(p: nat) | Env
  datatype State = State(pcs: map<nat, Pc>, lk: Holder, pt: Holder, locked: bool, pid: Option<nat>)

  ghost predicate Init(s: State) {
    && s.lk == Free && s.pt == Free && !s.locked && s.pid == None
    && forall p :: p in s.pcs ==> s.pcs[p] == Idle
  }

  function Wake(pcs: map<nat, Pc>): (r: map<nat, Pc>) {
    map p | p in pcs :: if pcs[p] == Asleep then Runnable else pcs[p]
  }

  function Go(s: State, p: nat, pc: Pc): State { s.(pcs := s.pcs[p := pc]) }

  /** The next step of process p, or None while it has to wait. */
  function Step(s: State, p: nat): (r: Option<State>)
    requires p in s.pcs
  {
    match s.pcs[p]
    case Idle => Some(Go(s, p, WantLk))
    case WantLk => if s.lk == Free then Some(Go(s.(lk := By(p)), p, Test)) else None
    case Test => if s.locked then Some(Go(s, p, WantPt)) else Some(Go(s.(locked := true, pid := Some(p)), p, Unlk))
    case WantPt => if s.pt == Free then Some(Go(s.(pt := By(p)), p, HoldBoth)) else None
    case HoldBoth => Some(Go(s.(lk := Free), p, Mark))
    case Mark => Some(Go(s.(pt := Free), p, Asleep))
    case Asleep => None
    case Runnable => if s.pt == Free then Some(Go(s.(pt := By(p)), p, Resume)) else None
    case Resume => Some(Go(s.(pt := Free), p, WantLk))
    case Unlk => Some(Go(s.(lk := Free), p, Held))
    case Held => Some(Go(s, p, RWantLk))
    case RWantLk => if s.lk == Free then Some(Go(s.(lk := By(p)), p, RClear)) else None
    case RClear => Some(Go(s.(locked := false, pid := None), p, RWantPt))
    case RWantPt => if s.pt == Free then Some(Go(s.(pt := By(p)), p, RWake)) else None
    case RWake => Some(Go(s.(pcs := Wake(s.pcs), pt := Free), p, RUnlk))
    case RUnlk => Some(Go(s.(lk := Free), p, Idle))
  }

  /** Other users of ptable.lock: take it, wake one sleeper (kill does), drop it. */
  ghost predicate EnvStep(s: State, t: State) {
    || (s.pt == Free && t == s.(pt := Env))
    || (s.pt == Env && t == s.(pt := Free))
    || (s.pt == Env && exists p :: p in s.pcs && s.pcs[p] == Asleep && t == Go(s, p, Runnable))
  }

  ghost predicate Next(s: State, t: State) {
    EnvStep(s, t) || exists p :: p in s.pcs && Step(s, p) == Some(t)
  }

  ghost predicate Run(tr: seq<State>) {
    && |tr| > 0 && Init(tr[0])
    && forall i :: 0 < i < |tr| ==> Next(tr[i - 1], tr[i])
  }

  // -------------------------------------------------------------- invariant

  predicate HasLk(pc: Pc) {
    pc in {Test, WantPt, HoldBoth, Unlk, RClear, RWantPt, RWake, RUnlk}
  }

  predicate HasPt(pc: Pc) { pc in {HoldBoth, Mark, Resume, RWake} }

  /** Owns the sleep lock. */
  predicate Owns(pc: Pc) { pc in {Unlk, Held, RWantLk, RClear} }

  /** Has cleared `locked` but not yet woken the sleepers. */
  predicate Waking(pc: Pc) { pc in {RWantPt, RWake} }

  ghost predicate ProcOk(s: State, p: nat)
    requires p in s.pcs
  {
    && (s.lk == By(p) <==> HasLk(s.pcs[p]))
    && (s.pt == By(p) <==> HasPt(s.pcs[p]))
    && (Owns(s.pcs[p]) <==> s.locked && s.pid == Some(p))
    && (s.pcs[p] in {WantPt, HoldBoth} ==> s.locked)
    && (s.pcs[p] in {Mark, Asleep} ==>
          s.locked || (s.lk.By? && s.lk.p in s.pcs && Waking(s.pcs[s.lk.p])))
  }

  ghost predicate Inv(s: State) {
    && (forall p :: p in s.pcs ==> ProcOk(s, p))
    && (s.locked ==> s.pid.Some? && s.pid.value in s.pcs)
    && (s.lk.By? ==> s.lk.p in s.pcs) && (s.pt.By? ==> s.pt.p in s.pcs) && s.lk != Env
  }

  lemma {:induction false} InvStep(s: State, p: nat)
    requires Inv(s) && p in s.pcs && Step(s, p).Some?
    ensures Inv(Step(s, p).value)
  {
    var t := Step(s, p).value;
    StepSelf(s, p);
    forall q | q in t.pcs
      ensures ProcOk(t, q)
    {
      if q != p {
        StepOther(s, p, q);
      }
    }
    assert ProcOk(s, p);
  }

  lemma {:induction false} StepSelf(s: State, p: nat)
    requires Inv(s) && p in s.pcs && Step(s, p).Some?
    ensures p in Step(s, p).value.pcs && ProcOk(Step(s, p).value, p)
  {
    assert ProcOk(s, p);
  }

  lemma {:induction false} StepOther(s: State, p: nat, q: nat)
    requires Inv(s) && p in s.pcs && q in s.pcs && q != p && Step(s, p).Some?
    ensures q in Step(s, p).value.pcs && ProcOk(Step(s, p).value, q)
  {
    assert ProcOk(s, p) && ProcOk(s, q);
  }

  lemma {:induction false} InvEnv(s: State, t: State)
    requires Inv(s) && EnvStep(s, t)
    ensures Inv(t)
  {
    forall q | q in t.pcs
      ensures ProcOk(t, q)
    {
      assert ProcOk(s, q);
    }
  }

  lemma {:induction false} InvRun(tr: seq<State>)
    requires Run(tr)
    ensures Inv(tr[|tr| - 1])
  {
    var n := |tr|;
    if n > 1 {
      InvRun(tr[..n - 1]);
      var s, t := tr[n - 2], tr[n - 1];
      if !EnvStep(s, t) {
        var p :| p in s.pcs && Step(s, p) == Some(t);
        InvStep(s, p);
      } else {
        InvEnv(s, t);
      }
    }
  }

  // --------------------------------------------------------------- theorems

  /** A sleep lock never has two holders, and its holder is the recorded pid. */
  lemma {:induction false} MutualExclusion(tr: seq<State>, p: nat, q: nat)
    requires Run(tr)
    requires var s := tr[|tr| - 1]; p in s.pcs && q in s.pcs && Owns(s.pcs[p]) && Owns(s.pcs[q])
    ensures p == q && tr[|tr| - 1].pid == Some(p)
  {
    InvRun(tr);
    assert ProcOk(tr[|tr| - 1], p) && ProcOk(tr[|tr| - 1], q);
  }

  /** No lost wakeup: whenever the inner spinlock is free, a sleeping process
      implies that the lock is held, by a process that will wake it. */
  lemma {:induction false} NoLostWakeup(tr: seq<State>, p: nat)
    requires Run(tr)
    requires var s := tr[|tr| - 1]; s.lk == Free && p in s.pcs && s.pcs[p] == Asleep
    ensures var s := tr[|tr| - 1];
            s.locked && s.pid.Some? && s.pid.value in s.pcs && Owns(s.pcs[s.pid.value])
  {
    InvRun(tr);
    var s := tr[|tr| - 1];
    assert ProcOk(s, p);
    assert ProcOk(s, s.pid.value);
  }

  /** releasesleep's wakeup leaves nobody asleep. */
  lemma {:induction false} WakeupWakesAll(s: State, p: nat, q: nat)
    requires p in s.pcs && s.pcs[p] == RWake && q in s.pcs
    ensures Step(s, p).Some? && q in Step(s, p).value.pcs && Step(s, p).value.pcs[q] != Asleep
  {
  }

  /** A process that has something to do: it neither sleeps, nor is idle, nor
      simply keeps the lock. */
  predicate Busy(pc: Pc) { pc !in {Idle, Held, Asleep} }

  /** The two spinlocks cannot deadlock: in every reachable state with a busy
      process, ptable.lock is in use elsewhere or some busy process can step. */
  lemma {:induction false} NoDeadlock(tr: seq<State>, p: nat) returns (q: nat)
    requires Run(tr)
    requires var s := tr[|tr| - 1]; p in s.pcs && Busy(s.pcs[p]) && s.pt != Env
    ensures var s := tr[|tr| - 1]; q in s.pcs && Busy(s.pcs[q]) && Step(s, q).Some?
  {
    InvRun(tr);
    var s := tr[|tr| - 1];
    q := if s.pt.By? then s.pt.p else if s.lk.By? then s.lk.p else p;
    assert ProcOk(s, q);
  }
}

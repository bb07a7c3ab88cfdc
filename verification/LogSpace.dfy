/** Log-space reservation (log.c begin_op / log_write / end_op): every
    interleaving of any number of file-system operations, as a state machine. */
module LogSpace {
  import opened Blocks
  import opened Log

  /** lh is the pending header list; used[i] counts the blocks the i-th
      outstanding operation has added to it. */
  datatype State = State(lh: seq<Word>, used: seq<nat>, committing: bool)

  const Init := State([], [], false)

  ghost predicate Begin(s: State, t: State) {
    Admits(|s.lh|, |s.used|, s.committing) && t == s.(used := s.used + [0])
  }

  /** Operation i logs block b; it may add at most `limit` new blocks in all.
      The log region has LOGSIZE blocks, as mkfs lays it out. */
  ghost predicate Write(limit: nat, s: State, t: State, i: nat, b: Word) {
    && i < |s.used|
    && !LogWritePanics(|s.lh|, |s.used|, LOGSIZE)
    && (b !in s.lh ==> s.used[i] < limit)
    && t == s.(lh := Absorb(s.lh, b), used := s.used[i := s.used[i] + if b in s.lh then 0 else 1])
  }

  function Without(used: seq<nat>, i: nat): (r: seq<nat>)
    requires i < |used|
  {
    used[..i] + used[i + 1..]
  }

  /** Operation i ends; the last one out starts the commit. */
  ghost predicate End(s: State, t: State, i: nat) {
    && i < |s.used|
    && t == s.(used := Without(s.used, i), committing := |s.used| == 1)
  }

  ghost predicate CommitDone(s: State, t: State) {
    s.committing && t == s.(lh := [], committing := false)
  }

  ghost predicate Step(limit: nat, s: State, t: State) {
    || Begin(s, t)
    || (exists i: nat, b: Word :: Write(limit, s, t, i, b))
    || (exists i: nat :: End(s, t, i))
    || CommitDone(s, t)
  }

  ghost predicate Run(limit: nat, tr: seq<State>) {
    && |tr| > 0 && tr[0] == Init
    && forall i :: 0 < i < |tr| ==> Step(limit, tr[i - 1], tr[i])
  }

  /** Some outstanding operation's next log_write would panic, or an end_op
      would find a commit running. */
  ghost predicate CanPanic(s: State) {
    s.used != [] && (LogWritePanics(|s.lh|, |s.used|, LOGSIZE) || s.committing)
  }

  // ------------------------------------------------------------ invariant

  function Sum(u: seq<nat>): (n: nat) {
    if u == [] then 0 else u[0] + Sum(u[1..])
  }

  lemma {:induction false} SumSplit(u: seq<nat>, i: nat)
    requires i < |u|
    ensures Sum(u) == Sum(u[..i]) + u[i] + Sum(u[i + 1..])
  {
    if i > 0 {
      SumSplit(u[1..], i - 1);
      assert u[1..][..i - 1] == u[..i][1..] && u[1..][i..] == u[i + 1..];
    }
  }

  lemma {:induction false} SumConcat(u: seq<nat>, v: seq<nat>)
    ensures Sum(u + v) == Sum(u) + Sum(v)
  {
    if u == [] {
      assert u + v == v;
    } else {
      SumConcat(u[1..], v);
      assert (u + v)[1..] == u[1..] + v;
    }
  }

  lemma {:induction false} SumUpdate(u: seq<nat>, i: nat, x: nat)
    requires i < |u|
    ensures Sum(u[i := x]) == Sum(u) - u[i] + x
    ensures Sum(Without(u, i)) == Sum(u) - u[i]
  {
    SumSplit(u, i);
    SumSplit(u[i := x], i);
    assert u[i := x][..i] == u[..i] && u[i := x][i + 1..] == u[i + 1..];
    SumConcat(u[..i], u[i + 1..]);
  }

  /** Blocks logged, plus what the outstanding operations may still add, stay
      two short of the log; a commit runs only when nothing is outstanding. */
  ghost predicate Inv(limit: nat, s: State) {
    && (forall i :: 0 <= i < |s.used| ==> s.used[i] <= limit)
    && |s.lh| + limit * |s.used| - Sum(s.used) <= LOGSIZE - 2
    && (s.committing ==> s.used == [])
    && (s.used == [] && !s.committing ==> s.lh == [])
  }

  lemma {:induction false} InvStep(limit: nat, s: State, t: State)
    requires limit <= MAXOPBLOCKS - 1 && Inv(limit, s) && Step(limit, s, t)
    ensures Inv(limit, t)
  {
    if Begin(s, t) {
      BeginBound(limit, |s.lh|, |s.used|);
      SumConcat(s.used, [0]);
    } else if i: nat, b: Word :| Write(limit, s, t, i, b) {
      SumUpdate(s.used, i, t.used[i]);
    } else if i: nat :| End(s, t, i) {
      InvEnd(limit, s, t, i);
    }
  }

  lemma {:induction false} InvEnd(limit: nat, s: State, t: State, i: nat)
    requires Inv(limit, s) && End(s, t, i)
    ensures Inv(limit, t)
  {
    SumUpdate(s.used, i, 0);
    EndBound(limit, |s.used|);
  }

  lemma {:induction false} EndBound(limit: nat, k: nat)
    requires k > 0
    ensures limit * (k - 1) == limit * k - limit
  {
  }

  /** What an admitted operation may add still fits, if no operation adds more
      than MAXOPBLOCKS - 1 blocks. */
  lemma {:induction false} BeginBound(limit: nat, n: nat, k: nat)
    requires limit <= MAXOPBLOCKS - 1 && Admits(n, k, false) && (k == 0 ==> n == 0)
    ensures n + limit * (k + 1) <= LOGSIZE - 2
  {
    assert k <= 2;
  }

  /** In every run whose operations add at most MAXOPBLOCKS - 1 new blocks
      each, the list never exceeds LOGSIZE - 2 and neither panic can fire. */
  lemma {:induction false} SpaceSuffices(limit: nat, tr: seq<State>)
    requires limit <= MAXOPBLOCKS - 1 && Run(limit, tr)
    ensures var s := tr[|tr| - 1]; Inv(limit, s) && |s.lh| <= LOGSIZE - 2 && !CanPanic(s)
  {
    if |tr| > 1 {
      SpaceSuffices(limit, tr[..|tr| - 1]);
      InvStep(limit, tr[|tr| - 2], tr[|tr| - 1]);
    }
    SumAtMost(limit, tr[|tr| - 1].used);
  }

  lemma {:induction false} SumAtMost(limit: nat, u: seq<nat>)
    requires forall i :: 0 <= i < |u| ==> u[i] <= limit
    ensures Sum(u) <= limit * |u|
  {
    if u != [] {
      SumAtMost(limit, u[1..]);
      EndBound(limit, |u|);
    }
  }

  // --------------------------------------------------------- tightness

  /** Three operations admitted on an empty log, after k blocks logged in turn. */
  function Crowded(k: nat): (s: State)
    requires k < LOGSIZE
  {
    State(seq(k, i requires 0 <= i < k => i),
          if k <= 10 then [k, 0, 0] else if k <= 20 then [10, k - 10, 0] else [10, 10, k - 20], false)
  }

  function CrowdedRun(k: nat): (tr: seq<State>)
    requires k < LOGSIZE
    ensures |tr| == k + 4 && tr[|tr| - 1] == Crowded(k)
  {
    if k == 0 then [Init, State([], [0], false), State([], [0, 0], false), Crowded(0)]
    else CrowdedRun(k - 1) + [Crowded(k)]
  }

  lemma {:induction false} CrowdedRunIsRun(limit: nat, k: nat)
    requires MAXOPBLOCKS <= limit && k < LOGSIZE
    ensures Run(limit, CrowdedRun(k))
  {
    var tr := CrowdedRun(k);
    if k == 0 {
      assert Begin(tr[0], tr[1]);
      assert Begin(tr[1], tr[2]);
      assert Begin(tr[2], tr[3]);
    } else {
      CrowdedRunIsRun(limit, k - 1);
      var i := if k <= 10 then 0 else if k <= 20 then 1 else 2;
      assert Write(limit, Crowded(k - 1), Crowded(k), i, k - 1);
    }
  }

  /** The per-operation limit under which the log cannot overflow is exactly
      MAXOPBLOCKS - 1, one less than the limit param.h documents: with
      MAXOPBLOCKS blocks each, three admitted operations reach the panic. */
  lemma {:induction false} SafeLimitExact(limit: nat)
    ensures (forall tr :: Run(limit, tr) ==> !CanPanic(tr[|tr| - 1])) <==> limit <= MAXOPBLOCKS - 1
  {
    if limit <= MAXOPBLOCKS - 1 {
      forall tr | Run(limit, tr)
        ensures !CanPanic(tr[|tr| - 1])
      {
        SpaceSuffices(limit, tr);
      }
    } else {
      var tr := CrowdedRun(LOGSIZE - 1);
      CrowdedRunIsRun(limit, LOGSIZE - 1);
      assert CanPanic(tr[|tr| - 1]);
    }
  }
}

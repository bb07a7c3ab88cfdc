/** Every step of the machine in Links keeps its invariant exactly when it is careful,
    and what that means for whole runs. */
module LinkLaw {
  import opened Common
  import opened Dirs
  import opened Links

  // --------------------------------------------------------- sums and frames

  lemma {:induction false} NamesUpdate(nodes: seq<Node>, d: nat, y: Node, i: nat)
    requires d < |nodes|
    ensures Names(nodes[d := y], i) == Names(nodes, i) - Count(Naming(i), nodes[d].slots) + Count(Naming(i), y.slots)
  {
    if d == 0 {
      assert nodes[d := y][1..] == nodes[1..];
    } else {
      NamesUpdate(nodes[1..], d - 1, y, i);
      assert nodes[d := y][1..] == nodes[1..][d - 1 := y];
    }
  }

  lemma {:induction false} NamesAtLeast(nodes: seq<Node>, d: nat, i: nat)
    requires d < |nodes|
    ensures Count(Naming(i), nodes[d].slots) <= Names(nodes, i)
  {
    if d > 0 {
      NamesAtLeast(nodes[1..], d - 1, i);
    }
  }

  lemma {:induction false} OwedUpdate(procs: seq<Proc>, p: nat, me: Proc, i: nat)
    requires p < |procs|
    ensures Owed(procs[p := me], i) == Owed(procs, i) - Pending(procs[p].pc, i) + Pending(me.pc, i)
    ensures Pending(procs[p].pc, i) <= Owed(procs, i)
  {
    if p == 0 {
      assert procs[p := me][1..] == procs[1..];
    } else {
      OwedUpdate(procs[1..], p - 1, me, i);
      assert procs[p := me][1..] == procs[1..][p - 1 := me];
    }
  }

  lemma {:induction false} NamesSame(a: seq<Node>, b: seq<Node>, i: nat)
    requires |a| == |b| && forall j :: 0 <= j < |a| ==> a[j].slots == b[j].slots
    ensures Names(a, i) == Names(b, i)
  {
    if a != [] {
      NamesSame(a[1..], b[1..], i);
    }
  }

  predicate EntryFor(nodes: seq<Node>, d: nat, k: nat, i: nat) {
    d < |nodes| && k < |nodes[d].slots| && Matches(Naming(i), nodes[d].slots[k])
  }

  /** An entry for i adds to the names of i. */
  lemma {:induction false} Named(nodes: seq<Node>, d: nat, k: nat, i: nat)
    requires EntryFor(nodes, d, k, i)
    ensures Names(nodes, i) >= 1
  {
    CountPositive(Naming(i), nodes[d].slots);
    NamesAtLeast(nodes, d, i);
  }

  /** An entry's inode is allocated and has links. */
  lemma {:induction false} NamedLive(s: Sys, d: nat, k: nat)
    requires Inv(s) && d < |s.nodes| && k < |s.nodes[d].slots|
    requires s.nodes[d].slots[k].inum != 0 && !Dot(s.nodes[d].slots[k].name)
    ensures var i := s.nodes[d].slots[k].inum; i < |s.nodes| && s.nodes[i].itype != Free && s.nodes[i].nlink >= 1
  {
    assert NodeOk(s, d);
    var i := s.nodes[d].slots[k].inum;
    assert NodeOk(s, i);
    Named(s.nodes, d, k, i);
  }

  /** What process me counts on while it has no lock. */
  predicate Leans(me: Proc, j: nat) {
    || me.cwd == j
    || ((me.pc.LinkHeld? || me.pc.LinkDir? || me.pc.LinkBad? || me.pc.CreateGot?) && me.pc.ip == j)
  }

  /** What another process's step may do to an inode without disturbing q. */
  predicate Calm(s: Sys, t: Sys, q: nat, j: nat)
    requires q < |s.procs| && j < |s.nodes| == |t.nodes|
  {
    var y, z, me := s.nodes[j], t.nodes[j], s.procs[q];
    || y == z
    || (&& y.lock != Some(q)
        && (Leans(me, j) ==> z.itype == y.itype)
        && (me.pc.CreateGot? && me.pc.ip == j && NoDots(y.slots) ==> NoDots(z.slots)))
  }

  lemma {:induction false} OtherOk(s: Sys, t: Sys, q: nat)
    requires q < |s.procs| == |t.procs| && |s.nodes| == |t.nodes| && t.procs[q] == s.procs[q] && ProcOk(s, q)
    requires forall j :: 0 <= j < |s.nodes| ==> Calm(s, t, q, j)
    ensures ProcOk(t, q)
  {
    var pc := s.procs[q].pc;
    assert Calm(s, t, q, s.procs[q].cwd);
    match pc
    case Idle =>
    case LinkHeld(ip) => assert Calm(s, t, q, ip);
    case LinkDir(ip, dp) => assert Calm(s, t, q, ip) && Calm(s, t, q, dp);
    case LinkBad(ip) => assert Calm(s, t, q, ip);
    case UnlinkAt(dp, _, _) => assert Calm(s, t, q, dp);
    case UnlinkBoth(dp, _, ip) => assert Calm(s, t, q, ip) && Calm(s, t, q, dp);
    case UnlinkCleared(dp, ip, _) => assert Calm(s, t, q, ip) && Calm(s, t, q, dp);
    case UnlinkLast(ip) => assert Calm(s, t, q, ip);
    case CreateAt(dp, _) => assert Calm(s, t, q, dp);
    case CreateGot(dp, _, ip) => assert Calm(s, t, q, ip) && Calm(s, t, q, dp);
    case CreateNew(dp, _, ip) => assert Calm(s, t, q, ip) && Calm(s, t, q, dp);
    case CreateDots(dp, _, ip) => assert Calm(s, t, q, ip) && Calm(s, t, q, dp);
  }

  /** A step of p leaves the root, and p itself, in order. */
  predicate OwnOk(s: Sys, t: Sys, p: nat) {
    && p < |s.procs| == |t.procs| && t.procs == s.procs[p := t.procs[p]] && |s.nodes| == |t.nodes|
    && RootOk(t.nodes) && ProcOk(t, p)
    && var made := Made(t.procs[p].pc);
       made == Made(s.procs[p].pc) || made == 0 || (made < |s.nodes| && s.nodes[made].itype == Free)
  }

  lemma {:induction false} Assemble(s: Sys, t: Sys, p: nat, me: Proc)
    requires Inv(s) && p < |s.procs| && t.procs == s.procs[p := me] && |s.nodes| == |t.nodes| && RootOk(t.nodes)
    requires forall i :: 0 <= i < |s.nodes| ==> NodeOk(t, i)
    requires forall q, j | 0 <= q < |s.procs| && q != p && 0 <= j < |s.nodes| :: Calm(s, t, q, j)
    requires ProcOk(t, p)
    requires Made(me.pc) == Made(s.procs[p].pc) || Made(me.pc) == 0 || s.nodes[Made(me.pc)].itype == Free
    ensures Inv(t)
  {
    forall q | 0 <= q < |t.procs|
      ensures ProcOk(t, q)
    {
      if q != p {
        OtherOk(s, t, q);
      }
    }
    forall q, r | 0 <= q < |s.procs| && 0 <= r < |s.procs|
      ensures Apart(t, q, r)
    {
      assert Apart(s, q, r) && ProcOk(s, q) && ProcOk(s, r);
    }
  }

  /** Same directories, same types: only counts, locks and the call's debts move. */
  predicate SameTree(a: seq<Node>, b: seq<Node>) {
    |a| == |b| && forall j :: 0 <= j < |a| ==> a[j].slots == b[j].slots && a[j].itype == b[j].itype
  }

  lemma {:induction false} LightClaims(s: Sys, t: Sys, p: nat, me: Proc, i: nat)
    requires p < |s.procs| && t.procs == s.procs[p := me] && SameTree(s.nodes, t.nodes) && t.lost == s.lost
    requires i < |s.nodes|
    ensures Claims(t, i) == Claims(s, i) - Pending(s.procs[p].pc, i) + Pending(me.pc, i)
  {
    OwedUpdate(s.procs, p, me, i);
    NamesSame(s.nodes, t.nodes, i);
    assert Types(s.nodes) == Types(t.nodes);
  }

  /** A lock p holds is one its new position says it holds. */
  predicate LockMove(s: Sys, t: Sys, p: nat, me: Proc, i: nat)
    requires i < |s.nodes| == |t.nodes|
  {
    var l := t.nodes[i].lock;
    l == None || (l == Some(p) && Holding(me.pc, i)) || (l == s.nodes[i].lock && l != Some(p))
  }

  lemma {:induction false} LightNode(s: Sys, t: Sys, p: nat, me: Proc, i: nat)
    requires p < |s.procs| && t.procs == s.procs[p := me] && SameTree(s.nodes, t.nodes) && t.lost == s.lost
    requires i < |s.nodes| && NodeOk(s, i) && LockMove(s, t, p, me, i)
    requires if s.nodes[i].itype == Free then Pending(me.pc, i) == 0 && t.nodes[i] == s.nodes[i]
             else && s.nodes[i].nlink - Pending(s.procs[p].pc, i) == t.nodes[i].nlink - Pending(me.pc, i)
                  && t.nodes[i].nlink <= NLINK_MAX
    ensures NodeOk(t, i)
  {
    LightClaims(s, t, p, me, i);
    OwedUpdate(s.procs, p, me, i);
  }

  // ------------------------------------------------------------ light steps

  predicate Moving(e: Event) { e.PathStart? || e.PathStep? || e.PathDrop? || e.Chdir? || e.Fork? || e.Exit? }

  lemma {:induction false} MoveKeeps(s: Sys, e: Event)
    requires Inv(s) && Enabled(s, e) && Moving(e)
    ensures Inv(Do(s, e))
  {
    var t := Do(s, e);
    assert ProcOk(s, e.p);
    forall i | 0 <= i < |s.nodes|
      ensures NodeOk(t, i)
    {
      assert NodeOk(s, i);
      LightNode(s, t, e.p, t.procs[e.p], i);
    }
    assert e.PathStep? ==> NodeOk(s, s.procs[e.p].cur);
    assert e.Fork? ==> ProcOk(s, e.parent);
    Assemble(s, t, e.p, t.procs[e.p]);
  }

  predicate Linking(e: Event) { e.LinkStart? || e.LinkParent? || e.LinkFail? || e.LinkUndo? }

  lemma {:induction false} LinkCountNode(s: Sys, e: Event, i: nat)
    requires Enabled(s, e) && Careful(s, e) && (e.LinkStart? || e.LinkUndo?) && i < |s.nodes|
    requires NodeOk(s, i) && ProcOk(s, e.p)
    ensures NodeOk(Do(s, e), i)
  {
    OwedUpdate(s.procs, e.p, s.procs[e.p], i);
    LightNode(s, Do(s, e), e.p, Do(s, e).procs[e.p], i);
  }

  lemma {:induction false} LinkParentNode(s: Sys, e: Event, i: nat)
    requires Enabled(s, e) && e.LinkParent? && i < |s.nodes|
    requires NodeOk(s, i) && ProcOk(s, e.p)
    ensures NodeOk(Do(s, e), i)
  {
    OwedUpdate(s.procs, e.p, s.procs[e.p], i);
    LightNode(s, Do(s, e), e.p, Do(s, e).procs[e.p], i);
  }

  lemma {:induction false} LinkFailNode(s: Sys, e: Event, i: nat)
    requires Enabled(s, e) && e.LinkFail? && i < |s.nodes|
    requires NodeOk(s, i) && ProcOk(s, e.p)
    ensures NodeOk(Do(s, e), i)
  {
    OwedUpdate(s.procs, e.p, s.procs[e.p], i);
    LightNode(s, Do(s, e), e.p, Do(s, e).procs[e.p], i);
  }

  lemma {:induction false} LinkKeeps(s: Sys, e: Event)
    requires Inv(s) && Enabled(s, e) && Careful(s, e) && Linking(e)
    ensures Inv(Do(s, e))
  {
    var t := Do(s, e);
    assert ProcOk(s, e.p);
    forall i | 0 <= i < |s.nodes|
      ensures NodeOk(t, i)
    {
      assert NodeOk(s, i);
      if e.LinkStart? || e.LinkUndo? {
        LinkCountNode(s, e, i);
      } else if e.LinkParent? {
        LinkParentNode(s, e, i);
      } else {
        LinkFailNode(s, e, i);
      }
    }
    Assemble(s, t, e.p, t.procs[e.p]);
  }

  predicate Finding(e: Event) { e.UnlinkFind? || e.UnlinkLock? }

  predicate Dropping(e: Event) { e.UnlinkRefuse? || e.UnlinkParent? || e.UnlinkDone? }

  lemma {:induction false} UnlinkFindNode(s: Sys, e: Event, i: nat)
    requires Enabled(s, e) && Finding(e) && i < |s.nodes|
    requires NodeOk(s, i) && ProcOk(s, e.p)
    ensures NodeOk(Do(s, e), i)
  {
    LightNode(s, Do(s, e), e.p, Do(s, e).procs[e.p], i);
  }

  lemma {:induction false} UnlinkRefuseNode(s: Sys, e: Event, i: nat)
    requires Enabled(s, e) && e.UnlinkRefuse? && i < |s.nodes|
    requires NodeOk(s, i) && ProcOk(s, e.p)
    ensures NodeOk(Do(s, e), i)
  {
    LightNode(s, Do(s, e), e.p, Do(s, e).procs[e.p], i);
  }

  lemma {:induction false} UnlinkParentNode(s: Sys, e: Event, i: nat)
    requires Enabled(s, e) && e.UnlinkParent? && i < |s.nodes|
    requires NodeOk(s, i) && ProcOk(s, e.p)
    ensures NodeOk(Do(s, e), i)
  {
    OwedUpdate(s.procs, e.p, s.procs[e.p], i);
    LightNode(s, Do(s, e), e.p, Do(s, e).procs[e.p], i);
  }

  lemma {:induction false} UnlinkDoneNode(s: Sys, e: Event, i: nat)
    requires Enabled(s, e) && e.UnlinkDone? && i < |s.nodes|
    requires NodeOk(s, i) && ProcOk(s, e.p)
    ensures NodeOk(Do(s, e), i)
  {
    OwedUpdate(s.procs, e.p, s.procs[e.p], i);
    LightNode(s, Do(s, e), e.p, Do(s, e).procs[e.p], i);
  }

  lemma {:induction false} FindKeeps(s: Sys, e: Event)
    requires Inv(s) && Enabled(s, e) && Finding(e)
    ensures Inv(Do(s, e))
  {
    var t := Do(s, e);
    assert ProcOk(s, e.p);
    forall i | 0 <= i < |s.nodes|
      ensures NodeOk(t, i)
    {
      assert NodeOk(s, i);
      UnlinkFindNode(s, e, i);
    }
    Assemble(s, t, e.p, t.procs[e.p]);
  }

  lemma {:induction false} DropKeeps(s: Sys, e: Event)
    requires Inv(s) && Enabled(s, e) && Dropping(e)
    ensures Inv(Do(s, e))
  {
    var t := Do(s, e);
    assert ProcOk(s, e.p);
    forall i | 0 <= i < |s.nodes|
      ensures NodeOk(t, i)
    {
      assert NodeOk(s, i);
      if e.UnlinkRefuse? {
        UnlinkRefuseNode(s, e, i);
      } else if e.UnlinkParent? {
        UnlinkParentNode(s, e, i);
      } else {
        UnlinkDoneNode(s, e, i);
      }
    }
    Assemble(s, t, e.p, t.procs[e.p]);
  }

  lemma {:induction false} CreateFindNode(s: Sys, e: Event, i: nat)
    requires Enabled(s, e) && e.CreateFind? && i < |s.nodes|
    requires NodeOk(s, i) && ProcOk(s, e.p)
    ensures NodeOk(Do(s, e), i)
  {
    LightNode(s, Do(s, e), e.p, Do(s, e).procs[e.p], i);
  }

  lemma {:induction false} CreateLockNode(s: Sys, e: Event, i: nat)
    requires Enabled(s, e) && Careful(s, e) && e.CreateLock? && i < |s.nodes|
    requires NodeOk(s, i) && ProcOk(s, e.p)
    ensures NodeOk(Do(s, e), i)
  {
    LightNode(s, Do(s, e), e.p, Do(s, e).procs[e.p], i);
  }

  lemma {:induction false} CreateKeeps(s: Sys, e: Event)
    requires Inv(s) && Enabled(s, e) && Careful(s, e) && (e.CreateFind? || e.CreateLock?)
    ensures Inv(Do(s, e))
  {
    var t := Do(s, e);
    assert ProcOk(s, e.p);
    forall i | 0 <= i < |s.nodes|
      ensures NodeOk(t, i)
    {
      assert NodeOk(s, i);
      if e.CreateFind? {
        CreateFindNode(s, e, i);
      } else {
        CreateLockNode(s, e, i);
      }
    }
    Assemble(s, t, e.p, t.procs[e.p]);
  }

  // ----------------------------------------------------- steps on directories

  /** How a change of one directory's slots and of one call moves the claims on i. */
  lemma {:induction false} Recount(s: Sys, t: Sys, p: nat, me: Proc, d: nat, i: nat)
    requires p < |s.procs| && t.procs == s.procs[p := me] && t.lost == s.lost
    requires d < |s.nodes| && i < |s.nodes| && Types(s.nodes) == Types(t.nodes)
    requires forall j :: 0 <= j < |s.nodes| && j != d ==> t.nodes[j].slots == s.nodes[j].slots
    ensures var w := Subdirs(Types(s.nodes), d);
            Claims(t, i) - Claims(s, i) ==
            Count(Naming(i), t.nodes[d].slots) - Count(Naming(i), s.nodes[d].slots) +
            (if i == d then Count(w, t.nodes[d].slots) - Count(w, s.nodes[d].slots) else 0) +
            Pending(me.pc, i) - Pending(s.procs[p].pc, i)
  {
    assert |Types(s.nodes)| == |Types(t.nodes)|;
    OwedUpdate(s.procs, p, me, i);
    NamesUpdate(s.nodes, d, t.nodes[d], i);
    NamesSame(s.nodes[d := t.nodes[d]], t.nodes, i);
  }

  /** A new entry raises the claims on its inode, and on its parent if it is a directory. */
  lemma {:induction false} EnteredClaims(s: Sys, t: Sys, p: nat, me: Proc, dp: nat, d: Dirent, i: nat)
    requires p < |s.procs| && t.procs == s.procs[p := me] && t.lost == s.lost
    requires dp < |s.nodes| && i < |s.nodes| && Types(s.nodes) == Types(t.nodes)
    requires forall j :: 0 <= j < |s.nodes| && j != dp ==> t.nodes[j].slots == s.nodes[j].slots
    requires t.nodes[dp].slots == Insert(s.nodes[dp].slots, d)
    ensures Claims(t, i) - Claims(s, i) == One(Matches(Naming(i), d)) +
            One(i == dp && Matches(Subdirs(Types(s.nodes), dp), d)) + Pending(me.pc, i) - Pending(s.procs[p].pc, i)
  {
    Recount(s, t, p, me, dp, i);
    CountInsert(Naming(i), s.nodes[dp].slots, d);
    CountInsert(Subdirs(Types(s.nodes), dp), s.nodes[dp].slots, d);
  }

  predicate Entering(e: Event) { e.LinkEnter? || e.CreateEnter? }

  /** The entry such a step writes, and where. */
  function NewEntry(s: Sys, e: Event): Dirent
    requires Enabled(s, e) && Entering(e)
  {
    var pc := s.procs[e.p].pc;
    Dirent(pc.ip, if e.LinkEnter? then e.name else pc.name)
  }

  lemma {:induction false} EnterFacts(s: Sys, e: Event)
    requires Enabled(s, e) && Entering(e) && ProcOk(s, e.p)
    ensures var t, pc, d := Do(s, e), s.procs[e.p].pc, NewEntry(s, e);
            && pc.dp < |s.nodes| && 0 < d.inum == pc.ip < |s.nodes| && d.inum != pc.dp &&
               Types(s.nodes) == Types(t.nodes)
            && t.procs == s.procs[e.p := s.procs[e.p].(pc := Idle)] && t.lost == s.lost
            && (forall j :: 0 <= j < |s.nodes| && j != pc.dp ==> t.nodes[j].slots == s.nodes[j].slots)
            && t.nodes[pc.dp].slots == Insert(s.nodes[pc.dp].slots, d)
            && (forall j :: 0 <= j < |s.nodes| ==> t.nodes[j].nlink == s.nodes[j].nlink)
            && (forall j :: 0 <= j < |s.nodes| ==>
                  t.nodes[j].lock == None || (t.nodes[j] == s.nodes[j] && !Holding(pc, j)))
            && forall i :: 0 <= i < |s.nodes| ==>
                 Pending(pc, i) == One(i == d.inum) + One(i == pc.dp && s.nodes[d.inum].itype == Dir)
  {
  }

  lemma {:induction false} EnterLaw(s: Sys, e: Event, i: nat)
    requires Enabled(s, e) && Careful(s, e) && Entering(e) && i < |s.nodes|
    requires Law(s, i) && ProcOk(s, e.p)
    ensures Law(Do(s, e), i)
  {
    var t, pc, d := Do(s, e), s.procs[e.p].pc, NewEntry(s, e);
    EnterFacts(s, e);
    EnteredClaims(s, t, e.p, t.procs[e.p], pc.dp, d, i);
    assert t.nodes[i].itype == Types(t.nodes)[i] == s.nodes[i].itype;
  }

  lemma {:induction false} InsertForm(slots: seq<Dirent>, d: Dirent, i: nat, n: nat)
    requires Bounded(slots, n) && NoSelf(slots, i) && d.inum < n && (Dot(d.name) || d.inum != i)
    ensures Bounded(Insert(slots, d), n) && NoSelf(Insert(slots, d), i)
  {
  }

  lemma {:induction false} EnterForm(s: Sys, e: Event, i: nat)
    requires Enabled(s, e) && Careful(s, e) && Entering(e) && i < |s.nodes|
    requires Form(s, i) && ProcOk(s, e.p)
    ensures Form(Do(s, e), i)
  {
    EnterFacts(s, e);
    assert Do(s, e).nodes[i].itype == Types(Do(s, e).nodes)[i] == s.nodes[i].itype;
    if i == s.procs[e.p].pc.dp {
      InsertForm(s.nodes[i].slots, NewEntry(s, e), i, |s.nodes|);
    }
  }

  /** dirlink leaves the root's first three slots. */
  lemma {:induction false} InsertHead(slots: seq<Dirent>, d: Dirent)
    requires Head(slots)
    ensures Head(Insert(slots, d))
  {
    assert FirstFree(slots) >= 3;
  }

  lemma {:induction false} EnterCalm(s: Sys, e: Event, q: nat, j: nat)
    requires Enabled(s, e) && Careful(s, e) && Entering(e) && q < |s.procs| && q != e.p && j < |s.nodes|
    requires ProcOk(s, e.p)
    ensures Calm(s, Do(s, e), q, j)
  {
  }

  lemma {:induction false} EnterOwn(s: Sys, e: Event)
    requires Enabled(s, e) && Careful(s, e) && Entering(e) && RootOk(s.nodes) && ProcOk(s, e.p)
    ensures OwnOk(s, Do(s, e), e.p)
  {
    InsertHead(s.nodes[ROOT].slots, NewEntry(s, e));
  }

  lemma {:induction false} EnterKeeps(s: Sys, e: Event)
    requires Inv(s) && Enabled(s, e) && Careful(s, e) && Entering(e)
    ensures Inv(Do(s, e))
  {
    var t := Do(s, e);
    assert ProcOk(s, e.p);
    forall i | 0 <= i < |s.nodes|
      ensures NodeOk(t, i)
    {
      assert NodeOk(s, i);
      EnterLaw(s, e, i);
      EnterForm(s, e, i);
    }
    forall q, j | 0 <= q < |s.procs| && q != e.p && 0 <= j < |s.nodes|
      ensures Calm(s, t, q, j)
    {
      EnterCalm(s, e, q, j);
    }
    EnterOwn(s, e);
    Assemble(s, t, e.p, t.procs[e.p]);
  }

  /** Clearing an entry turns the claim it was into a debt of the call. */
  lemma {:induction false} ClearedClaims(s: Sys, t: Sys, p: nat, me: Proc, dp: nat, off: nat, i: nat)
    requires p < |s.procs| && t.procs == s.procs[p := me] && t.lost == s.lost
    requires dp < |s.nodes| && i < |s.nodes| && Types(s.nodes) == Types(t.nodes)
    requires forall j :: 0 <= j < |s.nodes| && j != dp ==> t.nodes[j].slots == s.nodes[j].slots
    requires off < |s.nodes[dp].slots| && t.nodes[dp].slots == s.nodes[dp].slots[off := Dirent(0, "")]
    ensures var d := s.nodes[dp].slots[off];
            Claims(t, i) - Claims(s, i) == Pending(me.pc, i) - Pending(s.procs[p].pc, i) -
            One(Matches(Naming(i), d)) - One(i == dp && Matches(Subdirs(Types(s.nodes), dp), d))
  {
    Recount(s, t, p, me, dp, i);
    CountUpdate(Naming(i), s.nodes[dp].slots, off, Dirent(0, ""));
    CountUpdate(Subdirs(Types(s.nodes), dp), s.nodes[dp].slots, off, Dirent(0, ""));
  }

  lemma {:induction false} ClearLaw(s: Sys, e: Event, i: nat)
    requires Enabled(s, e) && e.UnlinkClear? && i < |s.nodes|
    requires Law(s, i) && ProcOk(s, e.p)
    ensures Law(Do(s, e), i)
  {
    var t, pc := Do(s, e), s.procs[e.p].pc;
    assert Types(s.nodes) == Types(t.nodes);
    ClearedClaims(s, t, e.p, t.procs[e.p], pc.dp, pc.off, i);
  }

  lemma {:induction false} ClearForm(s: Sys, e: Event, i: nat)
    requires Enabled(s, e) && e.UnlinkClear? && i < |s.nodes|
    requires Form(s, i) && ProcOk(s, e.p)
    ensures Form(Do(s, e), i)
  {
  }

  lemma {:induction false} ClearKeeps(s: Sys, e: Event)
    requires Inv(s) && Enabled(s, e) && e.UnlinkClear?
    ensures Inv(Do(s, e))
  {
    var t := Do(s, e);
    assert ProcOk(s, e.p);
    forall i | 0 <= i < |s.nodes|
      ensures NodeOk(t, i)
    {
      assert NodeOk(s, i);
      ClearLaw(s, e, i);
      ClearForm(s, e, i);
    }
    Assemble(s, t, e.p, t.procs[e.p]);
  }

  /** p writes the dots of its new directory and raises the count of the parent. */
  predicate DotsWritten(s: Sys, t: Sys, p: nat, me: Proc) {
    && p < |s.procs| && t.procs == s.procs[p := me] && t.lost == s.lost && s.procs[p].pc.CreateNew?
    && me.pc == CreateDots(s.procs[p].pc.dp, s.procs[p].pc.name, s.procs[p].pc.ip)
    && me.pc.ip < |s.nodes| == |t.nodes| && Types(s.nodes) == Types(t.nodes)
    && (forall j :: 0 <= j < |s.nodes| && j != me.pc.ip ==> t.nodes[j].slots == s.nodes[j].slots)
    && t.nodes[me.pc.ip].slots ==
       Insert(Insert(s.nodes[me.pc.ip].slots, Dirent(me.pc.ip, ".")), Dirent(me.pc.dp, ".."))
    && forall j :: 0 <= j < |s.nodes| ==>
         t.nodes[j].itype == s.nodes[j].itype && t.nodes[j].nlink == s.nodes[j].nlink + One(j == me.pc.dp)
  }

  lemma {:induction false} DotsShape(s: Sys, e: Event)
    requires Enabled(s, e) && Careful(s, e) && e.CreateDir? && NodeOk(s, s.procs[e.p].pc.dp)
    ensures DotsWritten(s, Do(s, e), e.p, Do(s, e).procs[e.p])
  {
    assert Types(s.nodes) == Types(Do(s, e).nodes);
  }

  /** Writing the dots of a new directory is a claim on its parent alone. */
  lemma {:induction false} DotsClaims(s: Sys, t: Sys, p: nat, me: Proc, i: nat)
    requires DotsWritten(s, t, p, me) && i < |s.nodes|
    ensures Claims(t, i) == Claims(s, i) + One(i == me.pc.dp)
  {
    Recount(s, t, p, me, me.pc.ip, i);
    DotsUncounted(Naming(i), s.nodes[me.pc.ip].slots, me.pc.ip, me.pc.dp);
    DotsUncounted(Subdirs(Types(s.nodes), me.pc.ip), s.nodes[me.pc.ip].slots, me.pc.ip, me.pc.dp);
  }

  lemma {:induction false} DotsLaw(s: Sys, t: Sys, p: nat, me: Proc, i: nat)
    requires DotsWritten(s, t, p, me) && i < |s.nodes| && Law(s, i)
    requires s.nodes[me.pc.ip].itype == Dir && me.pc.dp < |s.nodes| && s.nodes[me.pc.dp].itype == Dir
    ensures Law(t, i)
  {
    DotsClaims(s, t, p, me, i);
  }

  lemma {:induction false} DotsForm(s: Sys, e: Event, i: nat)
    requires Enabled(s, e) && Careful(s, e) && e.CreateDir? && i < |s.nodes|
    requires Form(s, i) && ProcOk(s, e.p)
    ensures Form(Do(s, e), i)
  {
    var pc, y := s.procs[e.p].pc, s.nodes[i];
    InsertForm(y.slots, Dirent(pc.ip, "."), i, |s.nodes|);
    InsertForm(Insert(y.slots, Dirent(pc.ip, ".")), Dirent(pc.dp, ".."), i, |s.nodes|);
  }

  lemma {:induction false} DotsRoot(s: Sys, e: Event)
    requires RootOk(s.nodes) && Enabled(s, e) && e.CreateDir?
    ensures RootOk(Do(s, e).nodes)
  {
    var pc := s.procs[e.p].pc;
    InsertHead(s.nodes[ROOT].slots, Dirent(pc.ip, "."));
    InsertHead(Insert(s.nodes[ROOT].slots, Dirent(pc.ip, ".")), Dirent(pc.dp, ".."));
  }

  lemma {:induction false} DotsCalm(s: Sys, e: Event, q: nat, j: nat)
    requires Enabled(s, e) && e.CreateDir? && q < |s.procs| && q != e.p && j < |s.nodes|
    requires Apart(s, q, e.p) && ProcOk(s, e.p) && ProcOk(s, q)
    ensures Calm(s, Do(s, e), q, j)
  {
  }

  lemma {:induction false} DotsOwn(s: Sys, e: Event)
    requires Enabled(s, e) && Careful(s, e) && e.CreateDir? && RootOk(s.nodes) && ProcOk(s, e.p)
    ensures OwnOk(s, Do(s, e), e.p)
  {
    DotsRoot(s, e);
    DotsProc(s, e);
  }

  lemma {:induction false} DotsProc(s: Sys, e: Event)
    requires Enabled(s, e) && e.CreateDir? && ProcOk(s, e.p)
    ensures e.p < |Do(s, e).procs| && ProcOk(Do(s, e), e.p)
  {
  }

  lemma {:induction false} DotsKeeps(s: Sys, e: Event)
    requires Inv(s) && Enabled(s, e) && Careful(s, e) && e.CreateDir?
    ensures Inv(Do(s, e))
  {
    var t := Do(s, e);
    assert ProcOk(s, e.p) && NodeOk(s, s.procs[e.p].pc.dp);
    DotsShape(s, e);
    forall i | 0 <= i < |s.nodes|
      ensures NodeOk(t, i)
    {
      assert NodeOk(s, i);
      DotsLaw(s, t, e.p, t.procs[e.p], i);
      DotsForm(s, e, i);
    }
    forall q, j | 0 <= q < |s.procs| && q != e.p && 0 <= j < |s.nodes|
      ensures Calm(s, t, q, j)
    {
      assert Apart(s, q, e.p) && ProcOk(s, q);
      DotsCalm(s, e, q, j);
    }
    DotsOwn(s, e);
    Assemble(s, t, e.p, t.procs[e.p]);
  }

  // --------------------------------------------------- steps that change a type

  /** Changing the type of an inode no entry names moves nobody's subdirectory count. */
  lemma {:induction false} RetypeSubs(a: seq<Node>, b: seq<Node>, i: nat, d: nat)
    requires |a| == |b| && i < |a| && d < |a| && Names(a, i) == 0
    requires forall j :: 0 <= j < |a| && j != i ==> a[j] == b[j]
    ensures d != i ==> Subs(a, d) == Subs(b, d)
  {
    if d != i {
      var v, w := Subdirs(Types(a), d), Subdirs(Types(b), d);
      forall k | 0 <= k < |a[d].slots|
        ensures Matches(v, a[d].slots[k]) == Matches(w, a[d].slots[k])
      {
        if Matches(Naming(i), a[d].slots[k]) {
          Named(a, d, k, i);
        }
      }
      CountFrame(v, w, a[d].slots);
    }
  }

  /** The claims on j when inode i loses its slots and may change its type. */
  lemma {:induction false} RetypeClaims(s: Sys, t: Sys, i: nat, j: nat)
    requires i < |s.nodes| && j < |s.nodes| && Claims(s, i) == 0
    requires |t.nodes| == |s.nodes| && t.nodes == s.nodes[i := t.nodes[i]] && t.nodes[i].slots == []
    requires t.lost == s.lost + s.nodes[i].slots && Owed(t.procs, j) == Owed(s.procs, j)
    ensures Claims(t, j) == Claims(s, j)
  {
    RetypeSubs(s.nodes, t.nodes, i, j);
    NamesUpdate(s.nodes, i, t.nodes[i], j);
    CountConcat(Naming(j), s.lost, s.nodes[i].slots);
  }

  lemma {:induction false} AllocLaw(s: Sys, e: Event, j: nat)
    requires Enabled(s, e) && e.CreateAlloc? && j < |s.nodes|
    requires NodeOk(s, e.ip) && Law(s, j)
    ensures Law(Do(s, e), j)
  {
    var t := Do(s, e);
    OwedUpdate(s.procs, e.p, t.procs[e.p], j);
    assert s.lost + s.nodes[e.ip].slots == s.lost;
    RetypeClaims(s, t, e.ip, j);
  }

  lemma {:induction false} AllocForm(s: Sys, e: Event, j: nat)
    requires Enabled(s, e) && e.CreateAlloc? && j < |s.nodes| && Form(s, j)
    ensures Form(Do(s, e), j)
  {
  }

  lemma {:induction false} FreeNode(s: Sys, e: Event, j: nat)
    requires Enabled(s, e) && e.Iput? && j < |s.nodes|
    requires NodeOk(s, e.ip) && NodeOk(s, j)
    ensures NodeOk(Do(s, e), j)
  {
    RetypeClaims(s, Do(s, e), e.ip, j);
  }

  /** The "mnt" entry is a link of the root. */
  lemma {:induction false} RootLinked(s: Sys)
    requires RootOk(s.nodes) && NodeOk(s, ROOT)
    ensures s.nodes[ROOT].nlink >= 1
  {
    assert "mnt"[0] != "."[0];
    Named(s.nodes, ROOT, 2, ROOT);
  }

  lemma {:induction false} AllocCalm(s: Sys, e: Event, q: nat, j: nat)
    requires Enabled(s, e) && e.CreateAlloc? && q < |s.procs| && q != e.p && j < |s.nodes|
    requires ProcOk(s, q) && ProcOk(s, e.p) && NodeOk(s, e.ip)
    ensures Calm(s, Do(s, e), q, j)
  {
  }

  lemma {:induction false} AllocOwn(s: Sys, e: Event)
    requires Enabled(s, e) && e.CreateAlloc? && RootOk(s.nodes) && ProcOk(s, e.p)
    ensures OwnOk(s, Do(s, e), e.p)
  {
  }

  lemma {:induction false} AllocKeeps(s: Sys, e: Event)
    requires Inv(s) && Enabled(s, e) && e.CreateAlloc?
    ensures Inv(Do(s, e))
  {
    var t := Do(s, e);
    assert ProcOk(s, e.p) && NodeOk(s, e.ip);
    forall i | 0 <= i < |s.nodes|
      ensures NodeOk(t, i)
    {
      assert NodeOk(s, i);
      AllocLaw(s, e, i);
      AllocForm(s, e, i);
    }
    forall q, j | 0 <= q < |s.procs| && q != e.p && 0 <= j < |s.nodes|
      ensures Calm(s, t, q, j)
    {
      assert ProcOk(s, q);
      AllocCalm(s, e, q, j);
    }
    AllocOwn(s, e);
    Assemble(s, t, e.p, t.procs[e.p]);
  }

  lemma {:induction false} FreeKeeps(s: Sys, e: Event)
    requires Inv(s) && Enabled(s, e) && e.Iput?
    ensures Inv(Do(s, e))
  {
    var t := Do(s, e);
    assert NodeOk(s, e.ip) && NodeOk(s, ROOT) && ProcOk(s, e.p);
    RootLinked(s);
    forall i | 0 <= i < |s.nodes|
      ensures NodeOk(t, i)
    {
      assert NodeOk(s, i);
      FreeNode(s, e, i);
    }
    forall q, j | 0 <= q < |s.procs| && 0 <= j < |s.nodes|
      ensures Calm(s, t, q, j)
    {
      assert !Touches(s.procs[q], e.ip);
      assert LockOk(s, e.ip);
    }
    OtherOk(s, t, e.p);
    Assemble(s, t, e.p, s.procs[e.p]);
  }

  lemma {:induction false} InvDo(s: Sys, e: Event)
    requires Inv(s) && Enabled(s, e) && Careful(s, e)
    ensures Inv(Do(s, e))
  {
    if Moving(e) {
      MoveKeeps(s, e);
    } else if Linking(e) {
      LinkKeeps(s, e);
    } else if Finding(e) {
      FindKeeps(s, e);
    } else if Dropping(e) {
      DropKeeps(s, e);
    } else if Entering(e) {
      EnterKeeps(s, e);
    } else if e.CreateAlloc? {
      AllocKeeps(s, e);
    } else if e.Iput? {
      FreeKeeps(s, e);
    } else if e.UnlinkClear? {
      ClearKeeps(s, e);
    } else if e.CreateDir? {
      DotsKeeps(s, e);
    } else {
      CreateKeeps(s, e);
    }
  }

  // ------------------------------------------------------------ exactness

  /** The inode whose count an uncareful step gets wrong. */
  function Broken(s: Sys, e: Event): nat
    requires Enabled(s, e) && !Careful(s, e)
  {
    if e.LinkStart? then s.procs[e.p].cur
    else if e.CreateDir? then s.procs[e.p].pc.dp
    else s.procs[e.p].pc.ip
  }

  /** A count of 32767 raised is negative. */
  lemma {:induction false} RaisedPast(s: Sys, e: Event)
    requires Enabled(s, e) && !Careful(s, e) && (e.LinkStart? || e.CreateDir?) && Form(s, Broken(s, e)) &&
             ProcOk(s, e.p)
    ensures var i := Broken(s, e); Do(s, e).nodes[i].nlink == -32768 && !Law(Do(s, e), i)
  {
  }

  /** create sets the count to 1 over links that others have already taken. */
  lemma {:induction false} Overwritten(s: Sys, e: Event)
    requires Enabled(s, e) && !Careful(s, e) && e.CreateLock? && Law(s, Broken(s, e))
    ensures var t, i := Do(s, e), Broken(s, e); t.nodes[i].nlink == 1 < Claims(t, i)
  {
    var t, i := Do(s, e), Broken(s, e);
    LightClaims(s, t, e.p, t.procs[e.p], i);
  }

  /** An entry called "." or ".." takes a link and is not counted. */
  lemma {:induction false} Uncounted(s: Sys, e: Event)
    requires Enabled(s, e) && !Careful(s, e) && Entering(e) && ProcOk(s, e.p) && Law(s, Broken(s, e))
    ensures var t, i := Do(s, e), Broken(s, e); !Law(t, i)
  {
    var t, i := Do(s, e), Broken(s, e);
    EnterFacts(s, e);
    EnteredClaims(s, t, e.p, t.procs[e.p], s.procs[e.p].pc.dp, NewEntry(s, e), i);
    assert t.nodes[i].itype == Types(t.nodes)[i] == s.nodes[i].itype;
  }

  lemma {:induction false} UncarefulBreaks(s: Sys, e: Event)
    requires Inv(s) && Enabled(s, e) && !Careful(s, e)
    ensures Broken(s, e) < |s.nodes| && !Law(Do(s, e), Broken(s, e))
  {
    assert ProcOk(s, e.p);
    assert NodeOk(s, Broken(s, e));
    if e.LinkStart? || e.CreateDir? {
      RaisedPast(s, e);
    } else if e.CreateLock? {
      Overwritten(s, e);
    } else {
      Uncounted(s, e);
    }
  }

  /** From a state that keeps the invariant, the law holds after a step exactly when the
      step is careful. */
  lemma {:induction false} CarefulExactly(s: Sys, e: Event)
    requires Inv(s) && Enabled(s, e)
    ensures Exact(Do(s, e)) <==> Careful(s, e)
  {
    if Careful(s, e) {
      InvDo(s, e);
      InvExact(Do(s, e));
    } else {
      UncarefulBreaks(s, e);
    }
  }

  lemma {:induction false} InvExact(s: Sys)
    requires Inv(s)
    ensures Exact(s)
  {
    forall i | 0 <= i < |s.nodes|
      ensures Law(s, i)
    {
      assert NodeOk(s, i);
    }
  }

  // ------------------------------------------------------------ whole runs

  lemma {:induction false} OnlyRootNames(nodes: seq<Node>, i: nat)
    requires forall j :: 0 <= j < |nodes| && j != ROOT ==> nodes[j].slots == []
    ensures |nodes| > 1 ==> Names(nodes, i) == Count(Naming(i), nodes[ROOT].slots)
    ensures (forall j :: 0 <= j < |nodes| ==> nodes[j].slots == []) ==> Names(nodes, i) == 0
    decreases |nodes|
  {
    if |nodes| > 1 {
      assert nodes[1..][0] == nodes[ROOT];
      NoNames(nodes[1..][1..], i);
    }
  }

  lemma {:induction false} NoNames(nodes: seq<Node>, i: nat)
    requires forall j :: 0 <= j < |nodes| ==> nodes[j].slots == []
    ensures Names(nodes, i) == 0
  {
    if nodes != [] {
      NoNames(nodes[1..], i);
    }
  }

  lemma {:induction false} NoDebts(procs: seq<Proc>, i: nat)
    requires forall p :: 0 <= p < |procs| ==> procs[p].pc == Idle
    ensures Owed(procs, i) == 0
  {
    if procs != [] {
      NoDebts(procs[1..], i);
    }
  }

  lemma {:induction false} NoneMatch(w: Want, slots: seq<Dirent>)
    requires forall k :: 0 <= k < |slots| ==> slots[k].inum == 0
    ensures Count(w, slots) == 0
  {
    if slots != [] {
      NoneMatch(w, slots[1..]);
    }
  }

  lemma {:induction false} RootCountsNone(w: Want)
    requires w.Subdirs? ==> w.self == ROOT
    ensures Count(w, [Dirent(ROOT, "."), Dirent(ROOT, ".."), Dirent(ROOT, "mnt")]) == One(w.Naming? && w.i == 1)
  {
    var dot, up, mnt := Dirent(ROOT, "."), Dirent(ROOT, ".."), Dirent(ROOT, "mnt");
    assert "mnt"[0] != "."[0];
    assert [] + [dot] == [dot] && [dot] + [up] == [dot, up] && [dot, up] + [mnt] == [dot, up, mnt];
    CountAppend(w, [], dot);
    CountAppend(w, [dot], up);
    CountAppend(w, [dot, up], mnt);
  }

  /** Each inode of the image has one entry in the root, the root through "mnt". */
  lemma {:induction false} RootCounts(files: seq<string>, k: nat, w: Want)
    requires k <= |files| && forall j :: 0 <= j < |files| ==> !Dot(files[j])
    requires w.Subdirs? ==> w.self == ROOT && forall i :: 2 <= i < |w.types| && i < |files| + 2 ==> w.types[i] != Dir
    ensures Count(w, RootSlots(files, k)) == One(w.Naming? && 1 <= w.i <= k + 1)
    ensures Head(RootSlots(files, k)) && |RootSlots(files, k)| == k + 3
    ensures forall j :: 3 <= j < k + 3 ==> RootSlots(files, k)[j].inum == j - 1
  {
    if k == 0 {
      RootCountsNone(w);
    } else {
      RootCounts(files, k - 1, w);
      CountAppend(w, RootSlots(files, k - 1), Dirent(k + 1, files[k - 1]));
    }
  }

  lemma {:induction false} StartLaw(files: seq<string>, spare: nat, ninodes: nat, nproc: nat, i: nat)
    requires Bootable(files, ninodes) && i < ninodes
    ensures Law(Start(files, spare, ninodes, nproc), i)
  {
    var s := Start(files, spare, ninodes, nproc);
    var listed, w := RootSlots(files, |files|), Subdirs(Types(s.nodes), ROOT);
    OnlyRootNames(s.nodes, i);
    NoDebts(s.procs, i);
    RootCounts(files, |files|, Naming(i));
    CountConcat(Naming(i), listed, NoEntries(spare));
    NoneMatch(Naming(i), NoEntries(spare));
    if i == ROOT {
      RootCounts(files, |files|, w);
      CountConcat(w, listed, NoEntries(spare));
      NoneMatch(w, NoEntries(spare));
    }
  }

  lemma {:induction false} StartForm(files: seq<string>, spare: nat, ninodes: nat, nproc: nat, i: nat)
    requires Bootable(files, ninodes) && i < ninodes
    ensures Form(Start(files, spare, ninodes, nproc), i)
  {
    RootCounts(files, |files|, Naming(0));
    var slots := RootSlots(files, |files|) + NoEntries(spare);
    forall k | 0 <= k < |slots|
      ensures slots[k].inum < ninodes && (slots[k].inum == ROOT ==> k <= 2)
    {
    }
  }

  lemma {:induction false} InvStart(files: seq<string>, spare: nat, ninodes: nat, nproc: nat)
    requires Bootable(files, ninodes)
    ensures Inv(Start(files, spare, ninodes, nproc))
  {
    RootCounts(files, |files|, Naming(0));
    forall i | 0 <= i < ninodes
      ensures NodeOk(Start(files, spare, ninodes, nproc), i)
    {
      StartLaw(files, spare, ninodes, nproc, i);
      StartForm(files, spare, ninodes, nproc, i);
    }
  }

  lemma {:induction false} InvRun(s: Sys, es: seq<Event>)
    requires Inv(s) && Runs(s, es) && CarefulRun(s, es)
    ensures Inv(After(s, es))
    decreases |es|
  {
    if es != [] {
      InvDo(s, es[0]);
      InvRun(Do(s, es[0]), es[1..]);
    }
  }

  lemma {:induction false} ExactFrom(s: Sys, es: seq<Event>)
    requires Inv(s) && Runs(s, es)
    ensures ExactRun(s, es) <==> CarefulRun(s, es)
    decreases |es|
  {
    InvExact(s);
    if es != [] {
      CarefulExactly(s, es[0]);
      if Careful(s, es[0]) {
        InvDo(s, es[0]);
        ExactFrom(Do(s, es[0]), es[1..]);
      }
    }
  }

  /** A run from a fresh image keeps every count exact throughout if and only if each of
      its steps is careful. */
  lemma {:induction false} ExactExactly(files: seq<string>, spare: nat, ninodes: nat, nproc: nat, es: seq<Event>)
    requires Bootable(files, ninodes) && Runs(Start(files, spare, ninodes, nproc), es)
    ensures ExactRun(Start(files, spare, ninodes, nproc), es) <==> CarefulRun(Start(files, spare, ninodes, nproc), es)
  {
    InvStart(files, spare, ninodes, nproc);
    ExactFrom(Start(files, spare, ninodes, nproc), es);
  }

  /** A run of careful steps from a fresh image. */
  predicate GoodRun(files: seq<string>, spare: nat, ninodes: nat, nproc: nat, es: seq<Event>) {
    var s := Start(files, spare, ninodes, nproc);
    Bootable(files, ninodes) && Runs(s, es) && CarefulRun(s, es)
  }

  /** Where it ends. */
  function End(files: seq<string>, spare: nat, ninodes: nat, nproc: nat, es: seq<Event>): Sys
    requires GoodRun(files, spare, ninodes, nproc, es)
  {
    After(Start(files, spare, ninodes, nproc), es)
  }

  lemma {:induction false} InvEnd(files: seq<string>, spare: nat, ninodes: nat, nproc: nat, es: seq<Event>)
    requires GoodRun(files, spare, ninodes, nproc, es)
    ensures Inv(End(files, spare, ninodes, nproc, es))
  {
    InvStart(files, spare, ninodes, nproc);
    InvRun(Start(files, spare, ninodes, nproc), es);
  }

  /** Link counts are exact: an allocated inode's count is the entries naming it, its
      subdirectories, what calls in flight have taken or owe, and the links lost with
      truncated directories.  No entry names a free inode. */
  lemma {:induction false} LinksExact(files: seq<string>, spare: nat, ninodes: nat, nproc: nat, es: seq<Event>, i: nat)
    requires GoodRun(files, spare, ninodes, nproc, es) && i < |End(files, spare, ninodes, nproc, es).nodes|
    ensures var s := End(files, spare, ninodes, nproc, es);
            if s.nodes[i].itype == Free then Names(s.nodes, i) == 0
            else s.nodes[i].nlink ==
                 Names(s.nodes, i) + Subs(s.nodes, i) + Owed(s.procs, i) + Count(Naming(i), s.lost)
  {
    InvEnd(files, spare, ninodes, nproc, es);
    assert NodeOk(End(files, spare, ninodes, nproc, es), i);
  }

  /** Link-count safety: every allocated inode's count is at least the number of entries
      naming it, and no entry names a free one. */
  lemma {:induction false} LinksCovered(files: seq<string>, spare: nat, ninodes: nat, nproc: nat, es: seq<Event>,
        i: nat)
    requires GoodRun(files, spare, ninodes, nproc, es) && i < |End(files, spare, ninodes, nproc, es).nodes|
    ensures var s := End(files, spare, ninodes, nproc, es);
            Names(s.nodes, i) <= if s.nodes[i].itype == Free then 0 else s.nodes[i].nlink
  {
    InvEnd(files, spare, ninodes, nproc, es);
    assert NodeOk(End(files, spare, ninodes, nproc, es), i);
  }

  /** iput never truncates an inode that a directory entry names. */
  lemma {:induction false} NamedNeverFreed(files: seq<string>, spare: nat, ninodes: nat, nproc: nat, es: seq<Event>,
        p: nat, i: nat)
    requires GoodRun(files, spare, ninodes, nproc, es)
    requires Enabled(End(files, spare, ninodes, nproc, es), Iput(p, i))
    ensures forall d, k :: !EntryFor(End(files, spare, ninodes, nproc, es).nodes, d, k, i)
  {
    var s := End(files, spare, ninodes, nproc, es);
    InvEnd(files, spare, ninodes, nproc, es);
    forall d, k
      ensures !EntryFor(s.nodes, d, k, i)
    {
      if EntryFor(s.nodes, d, k, i) {
        NamedLive(s, d, k);
      }
    }
  }

  /** The panic in sys_unlink is unreachable. */
  lemma {:induction false} UnlinkNeverPanics(files: seq<string>, spare: nat, ninodes: nat, nproc: nat, es: seq<Event>,
        p: nat)
    requires GoodRun(files, spare, ninodes, nproc, es) && p < |End(files, spare, ninodes, nproc, es).procs|
    ensures !UnlinkPanics(End(files, spare, ninodes, nproc, es), p)
  {
    var s := End(files, spare, ninodes, nproc, es);
    InvEnd(files, spare, ninodes, nproc, es);
    assert ProcOk(s, p);
    if s.procs[p].pc.UnlinkBoth? {
      NamedLive(s, s.procs[p].pc.dp, s.procs[p].pc.off);
    }
  }

  /** The panics of create are unreachable. */
  lemma {:induction false} CreateNeverPanics(files: seq<string>, spare: nat, ninodes: nat, nproc: nat, es: seq<Event>,
        p: nat)
    requires GoodRun(files, spare, ninodes, nproc, es) && p < |End(files, spare, ninodes, nproc, es).procs|
    ensures !CreatePanics(End(files, spare, ninodes, nproc, es), p)
  {
    InvEnd(files, spare, ninodes, nproc, es);
    assert ProcOk(End(files, spare, ninodes, nproc, es), p);
  }

  // ------------------------------------------------- unlink and its own lock

  /** Once unlink has found its entry, it waits for a lock it holds itself exactly when
      dirlookup gave back the parent, and that is exactly unlinking the root's "mnt". */
  lemma {:induction false} SelfLockExactly(s: Sys, e: Event)
    requires Inv(s) && Enabled(s, e) && e.UnlinkFind?
    ensures var t, dp, slots := Do(s, e), s.procs[e.p].cur, s.nodes[s.procs[e.p].cur].slots;
            && (Holds(t, e.p, t.procs[e.p].pc.ip) <==> slots[Lookup(slots, e.name)].inum == dp)
            && (Holds(t, e.p, t.procs[e.p].pc.ip) <==> dp == ROOT && e.name == "mnt")
  {
    var dp, slots := s.procs[e.p].cur, s.nodes[s.procs[e.p].cur].slots;
    var off := Lookup(slots, e.name);
    assert ProcOk(s, e.p) && NodeOk(s, dp) && dp != 0;
    assert NodeOk(s, slots[off].inum);
    if dp == ROOT && e.name == "mnt" {
      assert slots[0].name == "." && slots[1].name == "..";
      assert "mnt"[0] != "."[0];
      assert off == 2;
    }
  }

  /** p has locked the directory and waits for it. */
  predicate Stuck(s: Sys, p: nat) {
    && p < |s.procs| && s.procs[p].pc.UnlinkAt?
    && Holds(s, p, s.procs[p].pc.ip) && s.nodes[s.procs[p].pc.ip].itype != Free
  }

  lemma {:induction false} StuckPath(s: Sys, p: nat, e: Event)
    requires Stuck(s, p) && Enabled(s, e) && OnPath(e)
    ensures Stuck(Do(s, e), p) && Do(s, e).procs[p] == s.procs[p]
  {
  }

  lemma {:induction false} StuckCall(s: Sys, p: nat, e: Event)
    requires Stuck(s, p) && Enabled(s, e) && OnCall(e)
    ensures Stuck(Do(s, e), p) && Do(s, e).procs[p] == s.procs[p]
  {
  }

  lemma {:induction false} StuckMake(s: Sys, p: nat, e: Event)
    requires Stuck(s, p) && Enabled(s, e) && OnMake(e)
    ensures Stuck(Do(s, e), p) && Do(s, e).procs[p] == s.procs[p]
  {
  }

  lemma {:induction false} StuckStep(s: Sys, p: nat, e: Event)
    requires Stuck(s, p) && Enabled(s, e)
    ensures Stuck(Do(s, e), p) && Do(s, e).procs[p] == s.procs[p]
  {
    if OnPath(e) {
      StuckPath(s, p, e);
    } else if OnCall(e) {
      StuckCall(s, p, e);
    } else {
      StuckMake(s, p, e);
    }
  }

  /** That wait never ends, whatever anyone does, and the inode stays locked. */
  lemma {:induction false} StuckForever(s: Sys, p: nat, es: seq<Event>)
    requires Stuck(s, p) && Runs(s, es)
    ensures Stuck(After(s, es), p) && After(s, es).procs[p] == s.procs[p]
    decreases |es|
  {
    if es != [] {
      StuckStep(s, p, es[0]);
      StuckForever(Do(s, es[0]), p, es[1..]);
    }
  }

  lemma {:induction false} RunStep(s: Sys, e: Event, es: seq<Event>)
    requires Enabled(s, e) && Runs(Do(s, e), es)
    ensures Runs(s, [e] + es) && After(s, [e] + es) == After(Do(s, e), es)
    ensures CarefulRun(s, [e] + es) <==> Careful(s, e) && CarefulRun(Do(s, e), es)
  {
    assert ([e] + es)[0] == e && ([e] + es)[1..] == es;
  }

  /** unlink("mnt") by the first process of any image does it. */
  lemma {:induction false} UnlinkMntHangs(files: seq<string>, spare: nat, ninodes: nat, nproc: nat)
    requires Bootable(files, ninodes) && nproc > 0
    ensures var s, es := Start(files, spare, ninodes, nproc), [PathStart(0, false), UnlinkFind(0, "mnt")];
            Runs(s, es) && CarefulRun(s, es) && Stuck(After(s, es), 0)
  {
    var s := Start(files, spare, ninodes, nproc);
    var e, f := PathStart(0, false), UnlinkFind(0, "mnt");
    InvStart(files, spare, ninodes, nproc);
    InvDo(s, e);
    assert "mnt"[0] != "."[0] && !Dot("mnt");
    assert Do(s, e).nodes[ROOT].slots[2].name == "mnt";
    SelfLockExactly(Do(s, e), f);
    RunStep(Do(s, e), f, []);
    RunStep(s, e, [f] + []);
    assert [e, f] == [e] + ([f] + []);
  }
}

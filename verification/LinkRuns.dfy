/** Runs of Links from a fresh image in which link counts go wrong: through the ".." of
    a removed working directory, and past 32767 links. */
module LinkRuns {
  import opened Common
  import opened Dirs
  import opened Links
  import opened LinkLaw
  import opened LinkTidy

  predicate StepAt(tr: seq<Sys>, es: seq<Event>, i: nat) {
    i < |es| < |tr| && Enabled(tr[i], es[i]) && tr[i + 1] == Do(tr[i], es[i])
  }

  predicate Trace(s: Sys, es: seq<Event>, t: Sys, tr: seq<Sys>) {
    |tr| == |es| + 1 && tr[0] == s && tr[|es|] == t && forall i :: 0 <= i < |es| ==> StepAt(tr, es, i)
  }

  /** The events es are a run from s to t. */
  ghost predicate Leads(s: Sys, es: seq<Event>, t: Sys) { exists tr :: Trace(s, es, t, tr) }

  lemma {:induction false} LeadsOne(s: Sys, e: Event)
    requires Enabled(s, e)
    ensures Leads(s, [e], Do(s, e))
  {
    assert StepAt([s, Do(s, e)], [e], 0);
    assert Trace(s, [e], Do(s, e), [s, Do(s, e)]);
  }

  lemma {:induction false} LeadsNone(s: Sys)
    ensures Leads(s, [], s)
  {
    assert Trace(s, [], s, [s]);
  }

  lemma {:induction false} LeadsThen(s: Sys, a: seq<Event>, t: Sys, b: seq<Event>, u: Sys)
    requires Leads(s, a, t) && Leads(t, b, u)
    ensures Leads(s, a + b, u)
  {
    var tr :| Trace(s, a, t, tr);
    var ts :| Trace(t, b, u, ts);
    var all := tr + ts[1..];
    forall i | 0 <= i < |a + b|
      ensures StepAt(all, a + b, i)
    {
      if i < |a| {
        assert StepAt(tr, a, i);
      } else {
        assert StepAt(ts, b, i - |a|);
      }
    }
    assert Trace(s, a + b, u, all);
  }

  /** es is a run from s, and it ends in t. */
  predicate RunTo(s: Sys, es: seq<Event>, t: Sys) { Runs(s, es) && After(s, es) == t }

  /** A trace of states is a run. */
  lemma {:induction false} LeadsRuns(s: Sys, es: seq<Event>, t: Sys)
    requires Leads(s, es, t)
    ensures RunTo(s, es, t)
    decreases |es|
  {
    var tr :| Trace(s, es, t, tr);
    if es != [] {
      assert StepAt(tr, es, 0);
      forall i | 0 <= i < |es[1..]|
        ensures StepAt(tr[1..], es[1..], i)
      {
        assert StepAt(tr, es, i + 1);
      }
      assert Trace(tr[1], es[1..], t, tr[1..]);
      LeadsRuns(tr[1], es[1..], t);
    }
  }

  lemma {:induction false} Leads2(s: Sys, e: Event, f: Event, u: Sys)
    requires Enabled(s, e) && Enabled(Do(s, e), f) && Do(Do(s, e), f) == u
    ensures Leads(s, [e, f], u)
  {
    LeadsOne(s, e);
    LeadsOne(Do(s, e), f);
    LeadsThen(s, [e], Do(s, e), [f], u);
    assert [e] + [f] == [e, f];
  }

  // ------------------------------------------------------- calls without a race

  /** The process is at the end of a path to the directory dp. */
  predicate AtDir(s: Sys, p: nat, dp: nat) {
    p < |s.procs| && s.procs[p].pc.Idle? && s.procs[p].cur == dp && OpenDir(s, dp)
  }

  /** create up to ialloc. */
  function Begun(s: Sys, p: nat, dp: nat, name: string, ip: nat, t: IType): Sys
    requires p < |s.procs| && dp < |s.nodes| && ip < |s.nodes|
  {
    s.(nodes := s.nodes[dp := s.nodes[dp].(lock := Some(p))][ip := Node(t, 0, [], None)],
       procs := s.procs[p := Proc(CreateGot(dp, name, ip), s.procs[p].cwd, 0)])
  }

  lemma {:induction false} Begin(s: Sys, p: nat, dp: nat, name: string, ip: nat, t: IType)
    requires AtDir(s, p, dp) && !Found(s.nodes[dp].slots, name) && t != Free
    requires 0 < ip < |s.nodes| && s.nodes[ip].itype == Free
    ensures Leads(s, [CreateFind(p, name), CreateAlloc(p, ip, t)], Begun(s, p, dp, name, ip, t))
  {
    Leads2(s, CreateFind(p, name), CreateAlloc(p, ip, t), Begun(s, p, dp, name, ip, t));
  }

  /** The process has allocated ip and locked its parent. */
  predicate AtGot(s: Sys, p: nat) {
    p < |s.procs| && s.procs[p].pc.CreateGot? &&
    var pc := s.procs[p].pc;
    pc.ip != pc.dp && Holds(s, p, pc.dp) && Lockable(s, pc.ip) && !Found(s.nodes[pc.dp].slots, pc.name)
  }

  /** create of a file from ialloc on. */
  function FileMade(s: Sys, p: nat): Sys
    requires AtGot(s, p)
  {
    var me, pc := s.procs[p], s.procs[p].pc;
    var d := s.nodes[pc.dp];
    s.(nodes := s.nodes[pc.ip := s.nodes[pc.ip].(nlink := 1)]
                       [pc.dp := d.(slots := Insert(d.slots, Dirent(pc.ip, pc.name)), lock := None)],
       procs := s.procs[p := me.(pc := Idle)])
  }

  lemma {:induction false} MakeFile(s: Sys, p: nat)
    requires AtGot(s, p) && s.nodes[s.procs[p].pc.ip].itype == Other
    ensures Leads(s, [CreateLock(p), CreateEnter(p)], FileMade(s, p))
  {
    Leads2(s, CreateLock(p), CreateEnter(p), FileMade(s, p));
  }

  function DirDots(ip: nat, dp: nat): seq<Dirent> { [Dirent(ip, "."), Dirent(dp, "..")] }

  /** create of a directory up to its dots. */
  function Dotted(s: Sys, p: nat): Sys
    requires AtGot(s, p)
  {
    var me, pc := s.procs[p], s.procs[p].pc;
    var d := s.nodes[pc.dp];
    s.(nodes := s.nodes[pc.ip := Node(Dir, 1, DirDots(pc.ip, pc.dp), Some(p))]
                       [pc.dp := d.(nlink := Short(d.nlink + 1))],
       procs := s.procs[p := me.(pc := CreateDots(pc.dp, pc.name, pc.ip))])
  }

  /** create of a directory from ialloc on. */
  function DirMade(s: Sys, p: nat): Sys
    requires AtGot(s, p)
  {
    var me, pc := s.procs[p], s.procs[p].pc;
    var d := s.nodes[pc.dp];
    s.(nodes := s.nodes[pc.ip := Node(Dir, 1, DirDots(pc.ip, pc.dp), None)]
                       [pc.dp := d.(slots := Insert(d.slots, Dirent(pc.ip, pc.name)),
                                    nlink := Short(d.nlink + 1), lock := None)],
       procs := s.procs[p := me.(pc := Idle)])
  }

  lemma {:induction false} InsertBoth(ip: nat, dp: nat)
    requires ip != 0 && dp != 0
    ensures Insert(Insert([], Dirent(ip, ".")), Dirent(dp, "..")) == DirDots(ip, dp)
  {
    assert Insert([], Dirent(ip, ".")) == [Dirent(ip, ".")];
    assert FirstFree([Dirent(ip, ".")]) == 1;
  }

  lemma {:induction false} MakeDots(s: Sys, p: nat)
    requires AtGot(s, p) && s.procs[p].pc.ip != 0 && s.procs[p].pc.dp != 0
    requires s.nodes[s.procs[p].pc.ip].itype == Dir && s.nodes[s.procs[p].pc.ip].slots == []
    ensures Leads(s, [CreateLock(p), CreateDir(p)], Dotted(s, p))
  {
    InsertBoth(s.procs[p].pc.ip, s.procs[p].pc.dp);
    Leads2(s, CreateLock(p), CreateDir(p), Dotted(s, p));
  }

  lemma {:induction false} MakeDir(s: Sys, p: nat)
    requires AtGot(s, p) && s.procs[p].pc.ip != 0 && s.procs[p].pc.dp != 0
    requires s.nodes[s.procs[p].pc.ip].itype == Dir && s.nodes[s.procs[p].pc.ip].slots == []
    ensures Leads(s, [CreateLock(p), CreateDir(p), CreateEnter(p)], DirMade(s, p))
  {
    MakeDots(s, p);
    assert Do(Dotted(s, p), CreateEnter(p)) == DirMade(s, p);
    LeadsOne(Dotted(s, p), CreateEnter(p));
    LeadsThen(s, [CreateLock(p), CreateDir(p)], Dotted(s, p), [CreateEnter(p)], DirMade(s, p));
    assert [CreateLock(p), CreateDir(p)] + [CreateEnter(p)] == [CreateLock(p), CreateDir(p), CreateEnter(p)];
  }

  /** The process can unlink slot off of dp, which names another inode. */
  predicate CanUnlink(s: Sys, p: nat, dp: nat, name: string) {
    AtDir(s, p, dp) && !Dot(name) && Found(s.nodes[dp].slots, name) &&
    var ip := s.nodes[dp].slots[Lookup(s.nodes[dp].slots, name)].inum;
    ip != dp && Lockable(s, ip) && s.nodes[ip].nlink >= 1 && (s.nodes[ip].itype == Dir ==> IsEmpty(s.nodes[ip].slots))
  }

  /** unlink up to the lock of the inode. */
  function Grabbed(s: Sys, p: nat, dp: nat, name: string): Sys
    requires CanUnlink(s, p, dp, name)
  {
    var off := Lookup(s.nodes[dp].slots, name);
    var ip := s.nodes[dp].slots[off].inum;
    s.(nodes := s.nodes[dp := s.nodes[dp].(lock := Some(p))][ip := s.nodes[ip].(lock := Some(p))],
       procs := s.procs[p := Proc(UnlinkBoth(dp, off, ip), s.procs[p].cwd, 0)])
  }

  function Unlinked(s: Sys, p: nat, dp: nat, name: string): Sys
    requires CanUnlink(s, p, dp, name)
  {
    var d, off := s.nodes[dp], Lookup(s.nodes[dp].slots, name);
    var ip := d.slots[off].inum;
    var y := s.nodes[ip];
    s.(nodes := s.nodes[dp := d.(slots := d.slots[off := Dirent(0, "")],
                                 nlink := if y.itype == Dir then Short(d.nlink - 1) else d.nlink)]
                       [ip := y.(nlink := Short(y.nlink - 1))],
       procs := s.procs[p := Proc(Idle, s.procs[p].cwd, 0)])
  }

  function UnlinkEvents(p: nat, name: string): seq<Event> {
    [UnlinkFind(p, name), UnlinkLock(p)] + ([UnlinkClear(p), UnlinkParent(p)] + [UnlinkDone(p)])
  }

  lemma {:induction false} Grab(s: Sys, p: nat, dp: nat, name: string)
    requires CanUnlink(s, p, dp, name)
    ensures Leads(s, [UnlinkFind(p, name), UnlinkLock(p)], Grabbed(s, p, dp, name))
  {
    Leads2(s, UnlinkFind(p, name), UnlinkLock(p), Grabbed(s, p, dp, name));
  }

  /** unlink up to the end of its work on the parent. */
  function Parted(s: Sys, p: nat, dp: nat, name: string): Sys
    requires CanUnlink(s, p, dp, name)
  {
    var d, off := s.nodes[dp], Lookup(s.nodes[dp].slots, name);
    var ip := d.slots[off].inum;
    var y := s.nodes[ip];
    s.(nodes := s.nodes[dp := d.(slots := d.slots[off := Dirent(0, "")],
                                 nlink := if y.itype == Dir then Short(d.nlink - 1) else d.nlink)]
                       [ip := y.(lock := Some(p))],
       procs := s.procs[p := Proc(UnlinkLast(ip), s.procs[p].cwd, 0)])
  }

  lemma {:induction false} Part(s: Sys, p: nat, dp: nat, name: string)
    requires CanUnlink(s, p, dp, name)
    ensures Leads(Grabbed(s, p, dp, name), [UnlinkClear(p), UnlinkParent(p)], Parted(s, p, dp, name))
  {
    Leads2(Grabbed(s, p, dp, name), UnlinkClear(p), UnlinkParent(p), Parted(s, p, dp, name));
  }

  lemma {:induction false} Unlink(s: Sys, p: nat, dp: nat, name: string)
    requires CanUnlink(s, p, dp, name)
    ensures Leads(s, UnlinkEvents(p, name), Unlinked(s, p, dp, name))
  {
    var t, u, v := Grabbed(s, p, dp, name), Parted(s, p, dp, name), Unlinked(s, p, dp, name);
    assert Do(u, UnlinkDone(p)) == v;
    LeadsOne(u, UnlinkDone(p));
    Part(s, p, dp, name);
    LeadsThen(t, [UnlinkClear(p), UnlinkParent(p)], u, [UnlinkDone(p)], v);
    Grab(s, p, dp, name);
    LeadsThen(s, [UnlinkFind(p, name), UnlinkLock(p)], t, [UnlinkClear(p), UnlinkParent(p)] + [UnlinkDone(p)], v);
  }

  /** The second half of link: the new name goes into the root or the working directory. */
  predicate CanEnter(s: Sys, p: nat, top: bool, name: string) {
    p < |s.procs| && s.procs[p].pc.LinkHeld? && s.procs[p].cur == 0 && s.procs[p].cwd != 0 &&
    var dp := if top then ROOT else s.procs[p].cwd;
    OpenDir(s, dp) && !Found(s.nodes[dp].slots, name)
  }

  function Entered(s: Sys, p: nat, top: bool, name: string): Sys
    requires CanEnter(s, p, top, name)
  {
    var me, dp := s.procs[p], if top then ROOT else s.procs[p].cwd;
    var d := s.nodes[dp];
    s.(nodes := s.nodes[dp := d.(slots := Insert(d.slots, Dirent(me.pc.ip, name)))],
       procs := s.procs[p := me.(pc := Idle)])
  }

  function EnterEvents(p: nat, top: bool, name: string): seq<Event> {
    [PathStart(p, top), LinkParent(p)] + [LinkEnter(p, name)]
  }

  lemma {:induction false} EnterLink(s: Sys, p: nat, top: bool, name: string)
    requires CanEnter(s, p, top, name)
    ensures Leads(s, EnterEvents(p, top, name), Entered(s, p, top, name))
  {
    var t := Do(Do(s, PathStart(p, top)), LinkParent(p));
    Leads2(s, PathStart(p, top), LinkParent(p), t);
    assert Do(t, LinkEnter(p, name)) == Entered(s, p, top, name);
    LeadsOne(t, LinkEnter(p, name));
    LeadsThen(s, [PathStart(p, top), LinkParent(p)], t, [LinkEnter(p, name)], Entered(s, p, top, name));
  }

  /** Making a directory on a path without a race. */
  function MakeEvents(p: nat, name: string, ip: nat): seq<Event> {
    [CreateFind(p, name), CreateAlloc(p, ip, Dir)] + [CreateLock(p), CreateDir(p), CreateEnter(p)]
  }

  lemma {:induction false} Make(s: Sys, p: nat, dp: nat, name: string, ip: nat)
    requires AtDir(s, p, dp) && !Found(s.nodes[dp].slots, name) && dp != 0
    requires 0 < ip < |s.nodes| && s.nodes[ip].itype == Free
    ensures AtGot(Begun(s, p, dp, name, ip, Dir), p)
    ensures Leads(s, MakeEvents(p, name, ip), DirMade(Begun(s, p, dp, name, ip, Dir), p))
  {
    var t := Begun(s, p, dp, name, ip, Dir);
    Begin(s, p, dp, name, ip, Dir);
    MakeDir(t, p);
    LeadsThen(s, [CreateFind(p, name), CreateAlloc(p, ip, Dir)], t,
              [CreateLock(p), CreateDir(p), CreateEnter(p)], DirMade(t, p));
  }

  const NONE := Dirent(0, "")

  /** dirlink puts d into slot k of r, which was free, and the result is t. */
  predicate Puts(r: seq<Dirent>, k: nat, d: Dirent, t: seq<Dirent>) {
    && d.inum != 0 && !Dot(d.name) && !Found(r, d.name) && Insert(r, d) == t
    && k < |t| && t[k] == d && Lookup(t, d.name) == k && t[k := NONE] == r
  }

  /** Inode 2 is the file "f" of the root directory r. */
  predicate HasF(r: seq<Dirent>) { |r| > 3 && Lookup(r, "f") == 3 && r[3] == Dirent(2, "f") && !Dot("f") }

  const UNUSED := Node(Free, 0, [], None)

  function Root(n: int, r: seq<Dirent>): Node { Node(Dir, n, r, None) }

  function Home(cwd: nat): Proc { Proc(Idle, cwd, 0) }

  // ------------------------------------------------------- past 32767 links

  /** One process, a file with nlink n, and one more inode. */
  function World(root: Node, n: int, d: Node, me: Proc, lost: seq<Dirent>): Sys {
    Sys([UNUSED, root, Node(Other, n, [], None), d], [me], lost)
  }

  /** The file has n links, one of them its name. */
  function Linked(r: seq<Dirent>, n: int, lost: seq<Dirent>): Sys { World(Root(1, r), n, UNUSED, Home(ROOT), lost) }

  lemma {:induction false} Mkdir(r: seq<Dirent>, t: seq<Dirent>, n: int, lost: seq<Dirent>)
    requires Puts(r, 4, Dirent(3, "d"), t)
    ensures Leads(Linked(r, n, lost), [PathStart(0, true)] + MakeEvents(0, "d", 3),
                  World(Root(2, t), n, Node(Dir, 1, DirDots(3, ROOT), None), Home(ROOT), lost))
  {
    var s := Linked(r, n, lost);
    var u := Do(s, PathStart(0, true));
    var v := World(Root(2, t), n, Node(Dir, 1, DirDots(3, ROOT), None), Home(ROOT), lost);
    LeadsOne(s, PathStart(0, true));
    Make(u, 0, ROOT, "d", 3);
    assert DirMade(Begun(u, 0, ROOT, "d", 3, Dir), 0) == v;
    LeadsThen(s, [PathStart(0, true)], u, MakeEvents(0, "d", 3), v);
  }

  const CHDIR := [PathStart(0, true), PathStep(0, "d")] + [Chdir(0)]

  lemma {:induction false} Enter(r: seq<Dirent>, t: seq<Dirent>, n: int, lost: seq<Dirent>)
    requires Puts(r, 4, Dirent(3, "d"), t)
    ensures var y := Node(Dir, 1, DirDots(3, ROOT), None);
            Leads(World(Root(2, t), n, y, Home(ROOT), lost), CHDIR, World(Root(2, t), n, y, Home(3), lost))
  {
    var y := Node(Dir, 1, DirDots(3, ROOT), None);
    var s, v := World(Root(2, t), n, y, Home(ROOT), lost), World(Root(2, t), n, y, Home(3), lost);
    var u := Do(Do(s, PathStart(0, true)), PathStep(0, "d"));
    Leads2(s, PathStart(0, true), PathStep(0, "d"), u);
    assert Do(u, Chdir(0)) == v;
    LeadsOne(u, Chdir(0));
    LeadsThen(s, [PathStart(0, true), PathStep(0, "d")], u, [Chdir(0)], v);
  }

  /** The working directory has no name left. */
  lemma {:induction false} Rmdir(r: seq<Dirent>, t: seq<Dirent>, n: int, lost: seq<Dirent>)
    requires Puts(r, 4, Dirent(3, "d"), t)
    ensures Leads(World(Root(2, t), n, Node(Dir, 1, DirDots(3, ROOT), None), Home(3), lost),
                  [PathStart(0, true)] + UnlinkEvents(0, "d"),
                  World(Root(1, r), n, Node(Dir, 0, DirDots(3, ROOT), None), Home(3), lost))
  {
    var s := World(Root(2, t), n, Node(Dir, 1, DirDots(3, ROOT), None), Home(3), lost);
    var v := World(Root(1, r), n, Node(Dir, 0, DirDots(3, ROOT), None), Home(3), lost);
    var u := Do(s, PathStart(0, true));
    LeadsOne(s, PathStart(0, true));
    Unlink(u, 0, ROOT, "d");
    assert Unlinked(u, 0, ROOT, "d") == v;
    LeadsThen(s, [PathStart(0, true)], u, UnlinkEvents(0, "d"), v);
  }

  function LinkF(): seq<Event> { [PathStart(0, true), PathStep(0, "f")] + [LinkStart(0)] }

  /** link("/f", ...) up to the raised count. */
  lemma {:induction false} RaiseF(r: seq<Dirent>, n: int, d: Node, cwd: nat, lost: seq<Dirent>)
    requires HasF(r) && cwd != 0
    ensures Leads(World(Root(1, r), n, d, Home(cwd), lost), LinkF(),
                  World(Root(1, r), Short(n + 1), d, Proc(LinkHeld(2), cwd, 0), lost))
  {
    var s := World(Root(1, r), n, d, Home(cwd), lost);
    var v := World(Root(1, r), Short(n + 1), d, Proc(LinkHeld(2), cwd, 0), lost);
    var u := Do(Do(s, PathStart(0, true)), PathStep(0, "f"));
    Leads2(s, PathStart(0, true), PathStep(0, "f"), u);
    assert Do(u, LinkStart(0)) == v;
    LeadsOne(u, LinkStart(0));
    LeadsThen(s, [PathStart(0, true), PathStep(0, "f")], u, [LinkStart(0)], v);
  }

  function Leaked(): seq<Dirent> { DirDots(3, ROOT) + [Dirent(2, "x")] }

  lemma {:induction false} LeakedAt()
    ensures !Found(DirDots(3, ROOT), "x") && Insert(DirDots(3, ROOT), Dirent(2, "x")) == Leaked()
  {
    assert "x"[0] != "."[0] && |"x"| == 1 && |".."| == 2;
    assert FirstFree(DirDots(3, ROOT)) == 2;
  }

  /** ... and its new name in the removed directory. */
  lemma {:induction false} EnterX(root: Node, n: int, lost: seq<Dirent>)
    ensures Leads(World(root, n, Node(Dir, 0, DirDots(3, ROOT), None), Proc(LinkHeld(2), 3, 0), lost),
                  EnterEvents(0, false, "x"), World(root, n, Node(Dir, 0, Leaked(), None), Home(3), lost))
  {
    var s := World(root, n, Node(Dir, 0, DirDots(3, ROOT), None), Proc(LinkHeld(2), 3, 0), lost);
    LeakedAt();
    EnterLink(s, 0, false, "x");
    assert Entered(s, 0, false, "x") == World(root, n, Node(Dir, 0, Leaked(), None), Home(3), lost);
  }

  const LEAVE := [PathStart(0, true), Chdir(0)] + [Iput(0, 3)]

  /** chdir("/") gives the directory up, and iput truncates it with the link in it. */
  lemma {:induction false} Leave(r: seq<Dirent>, n: int, slots: seq<Dirent>, lost: seq<Dirent>)
    ensures Leads(World(Root(1, r), n, Node(Dir, 0, slots, None), Home(3), lost), LEAVE, Linked(r, n, lost + slots))
  {
    var s := World(Root(1, r), n, Node(Dir, 0, slots, None), Home(3), lost);
    var t := World(Root(1, r), n, Node(Dir, 0, slots, None), Home(ROOT), lost);
    Leads2(s, PathStart(0, true), Chdir(0), t);
    assert !Touches(t.procs[0], 3);
    assert Do(t, Iput(0, 3)) == Linked(r, n, lost + slots);
    LeadsOne(t, Iput(0, 3));
    LeadsThen(s, [PathStart(0, true), Chdir(0)], t, [Iput(0, 3)], Linked(r, n, lost + slots));
  }

  function LeakEvents(): seq<Event> {
    ([PathStart(0, true)] + MakeEvents(0, "d", 3)) +
    (CHDIR + (([PathStart(0, true)] + UnlinkEvents(0, "d")) + (LinkF() + (EnterEvents(0, false, "x") + LEAVE))))
  }

  /** mkdir d; cd d; rm /d; ln /f x; cd / leaves everything as it was, but for one link. */
  lemma {:induction false} Leak(r: seq<Dirent>, t: seq<Dirent>, n: int, lost: seq<Dirent>)
    requires HasF(r) && Puts(r, 4, Dirent(3, "d"), t) && -32768 <= n < NLINK_MAX
    ensures Leads(Linked(r, n, lost), LeakEvents(), Linked(r, n + 1, lost + Leaked()))
  {
    var y, z := Node(Dir, 1, DirDots(3, ROOT), None), Node(Dir, 0, DirDots(3, ROOT), None);
    var s0, s1 := Linked(r, n, lost), World(Root(2, t), n, y, Home(ROOT), lost);
    var s2, s3 := World(Root(2, t), n, y, Home(3), lost), World(Root(1, r), n, z, Home(3), lost);
    var s4 := World(Root(1, r), n + 1, z, Proc(LinkHeld(2), 3, 0), lost);
    var s5 := World(Root(1, r), n + 1, Node(Dir, 0, Leaked(), None), Home(3), lost);
    var s6 := Linked(r, n + 1, lost + Leaked());
    var e3, e4 := LinkF(), EnterEvents(0, false, "x");
    Chain4(s2, [PathStart(0, true)] + UnlinkEvents(0, "d"), s3, e3, s4, e4, s5, LEAVE, s6) by {
      Rmdir(r, t, n, lost);
      RaiseF(r, n, z, 3, lost);
      EnterX(Root(1, r), n + 1, lost);
      Leave(r, n + 1, Leaked(), lost);
    }
    Enter(r, t, n, lost);
    LeadsThen(s1, CHDIR, s2, ([PathStart(0, true)] + UnlinkEvents(0, "d")) + (e3 + (e4 + LEAVE)), s6);
    Mkdir(r, t, n, lost);
    LeadsThen(s0, [PathStart(0, true)] + MakeEvents(0, "d", 3), s1,
              CHDIR + (([PathStart(0, true)] + UnlinkEvents(0, "d")) + (e3 + (e4 + LEAVE))), s6);
  }

  lemma {:induction false} Chain4(s: Sys, a: seq<Event>, t: Sys, b: seq<Event>, u: Sys, c: seq<Event>, v: Sys,
        d: seq<Event>, w: Sys)
    requires Leads(s, a, t) && Leads(t, b, u) && Leads(u, c, v) && Leads(v, d, w)
    ensures Leads(s, a + (b + (c + d)), w)
  {
    LeadsThen(u, c, v, d, w);
    LeadsThen(t, b, u, c + d, w);
    LeadsThen(s, a, t, b + (c + d), w);
  }

  function Leaks(k: nat): seq<Event> { if k == 0 then [] else Leaks(k - 1) + LeakEvents() }

  function LeakedBy(k: nat): seq<Dirent> { if k == 0 then [] else LeakedBy(k - 1) + Leaked() }

  lemma {:induction false} LeakTimes(r: seq<Dirent>, t: seq<Dirent>, k: nat)
    requires HasF(r) && Puts(r, 4, Dirent(3, "d"), t) && k < NLINK_MAX
    ensures Leads(Linked(r, 1, []), Leaks(k), Linked(r, k + 1, LeakedBy(k)))
  {
    if k == 0 {
      LeadsNone(Linked(r, 1, []));
    } else {
      LeakTimes(r, t, k - 1);
      Leak(r, t, k, LeakedBy(k - 1));
      LeadsThen(Linked(r, 1, []), Leaks(k - 1), Linked(r, k, LeakedBy(k - 1)), LeakEvents(),
                Linked(r, k + 1, LeakedBy(k)));
    }
  }

  /** The root directory mkfs writes for the file "f", with n free slots. */
  function RootF(n: nat): seq<Dirent> { RootSlots(["f"], 1) + NoEntries(n) }

  /** What RootF(n) holds, with d in its first free slot. */
  function Listed(d: Dirent): seq<Dirent> {
    [Dirent(ROOT, "."), Dirent(ROOT, ".."), Dirent(ROOT, "mnt"), Dirent(2, "f"), d]
  }

  lemma {:induction false} RootFIs(n: nat)
    requires n > 0
    ensures RootF(n) == Listed(NONE) + NoEntries(n - 1)
  {
    assert RootSlots(["f"], 1) == RootSlots(["f"], 0) + [Dirent(2, "f")];
    assert NoEntries(n) == [NONE] + NoEntries(n - 1);
  }

  predicate Letter(name: string) { |name| == 1 && name != "." && name != "f" }

  lemma {:induction false} ListedFinds(d: Dirent, more: seq<Dirent>, name: string)
    requires Letter(name)
    ensures HasF(Listed(d) + more) && !Dot(name)
    ensures d.inum != 0 && d.name == name ==> Lookup(Listed(d) + more, name) == 4
    ensures d.inum == 0 && (forall k :: 0 <= k < |more| ==> more[k].inum == 0 || more[k].name != name) ==>
              !Found(Listed(d) + more, name)
  {
    var r := Listed(d) + more;
    assert |"."| == 1 && |".."| == 2 && |"mnt"| == 3 && |"f"| == 1 && "f"[0] != "."[0];
    assert r[0] == Dirent(ROOT, ".") && r[1] == Dirent(ROOT, "..") && r[2] == Dirent(ROOT, "mnt");
    assert r[3] == Dirent(2, "f") && r[4] == d;
    assert forall k :: 5 <= k < |r| ==> r[k] == more[k - 5];
  }

  lemma {:induction false} ListedPuts(d: Dirent, more: seq<Dirent>)
    requires d.inum != 0 && Letter(d.name)
    requires forall k :: 0 <= k < |more| ==> more[k].inum == 0 || more[k].name != d.name
    ensures Puts(Listed(NONE) + more, 4, d, Listed(d) + more)
  {
    var r, t := Listed(NONE) + more, Listed(d) + more;
    ListedFinds(NONE, more, d.name);
    ListedFinds(d, more, d.name);
    assert r[0].inum != 0 && r[1].inum != 0 && r[2].inum != 0 && r[3].inum != 0 && r[4].inum == 0;
    assert FirstFree(r) == 4;
    assert t[4] == d && r[4 := d] == t && t[4 := NONE] == r;
  }

  lemma {:induction false} StartLinked()
    ensures Start(["f"], 1, 4, 1) == Linked(RootF(1), 1, [])
  {
    var s, t := Start(["f"], 1, 4, 1), Linked(RootF(1), 1, []);
    assert s.nodes == t.nodes && s.procs == t.procs;
  }

  lemma {:induction false} CountLeads(n: nat)
    requires 1 <= n <= NLINK_MAX
    ensures Leads(Start(["f"], 1, 4, 1), Leaks(n - 1), Linked(RootF(1), n, LeakedBy(n - 1)))
  {
    StartLinked();
    RootFIs(1);
    ListedFinds(NONE, NoEntries(0), "d");
    ListedPuts(Dirent(3, "d"), NoEntries(0));
    LeakTimes(RootF(1), Listed(Dirent(3, "d")) + NoEntries(0), n - 1);
  }

  /** On an image with one file there is a run to any count up to 32767 for it. */
  lemma {:induction false} CountReached(n: nat)
    requires 1 <= n <= NLINK_MAX
    ensures RunTo(Start(["f"], 1, 4, 1), Leaks(n - 1), Linked(RootF(1), n, LeakedBy(n - 1)))
    ensures Linked(RootF(1), n, LeakedBy(n - 1)).nodes[2].nlink == n
  {
    CountLeads(n);
    LeadsRuns(Start(["f"], 1, 4, 1), Leaks(n - 1), Linked(RootF(1), n, LeakedBy(n - 1)));
  }

  function Overflown(r: seq<Dirent>, lost: seq<Dirent>): Sys {
    World(Root(1, r), -32768, UNUSED, Proc(LinkHeld(2), ROOT, 0), lost)
  }

  function Panicking(r: seq<Dirent>, lost: seq<Dirent>): Sys {
    Sys([UNUSED, Root(1, r).(lock := Some(0)), Node(Other, -32768, [], Some(0)), UNUSED],
        [Proc(UnlinkBoth(ROOT, 3, 2), ROOT, 0)], lost)
  }

  function PanicEvents(): seq<Event> {
    EnterEvents(0, true, "y") + ([PathStart(0, true)] + [UnlinkFind(0, "f"), UnlinkLock(0)])
  }

  lemma {:induction false} Panic(r: seq<Dirent>, t: seq<Dirent>, lost: seq<Dirent>)
    requires Puts(r, 4, Dirent(2, "y"), t) && HasF(t)
    ensures Leads(Overflown(r, lost), PanicEvents(), Panicking(t, lost))
  {
    var s, v := Overflown(r, lost), Panicking(t, lost);
    var w := World(Root(1, t), -32768, UNUSED, Home(ROOT), lost);
    EnterLink(s, 0, true, "y");
    assert Entered(s, 0, true, "y") == w;
    var u := Do(w, PathStart(0, true));
    LeadsOne(w, PathStart(0, true));
    Leads2(u, UnlinkFind(0, "f"), UnlinkLock(0), v);
    LeadsThen(w, [PathStart(0, true)], u, [UnlinkFind(0, "f"), UnlinkLock(0)], v);
    LeadsThen(s, EnterEvents(0, true, "y"), w, [PathStart(0, true)] + [UnlinkFind(0, "f"), UnlinkLock(0)], v);
  }

  lemma {:induction false} OverflowRuns(n: nat)
    requires n == NLINK_MAX
    ensures Leads(Start(["f"], 1, 4, 1), Leaks(n - 1) + LinkF(), Overflown(RootF(1), LeakedBy(n - 1)))
    ensures HasF(RootF(1))
  {
    var lost := LeakedBy(n - 1);
    RootFIs(1);
    ListedFinds(NONE, NoEntries(0), "y");
    CountLeads(n);
    RaiseF(RootF(1), n, UNUSED, ROOT, lost);
    assert Short(n + 1) == -32768;
    LeadsThen(Start(["f"], 1, 4, 1), Leaks(n - 1), Linked(RootF(1), n, lost), LinkF(), Overflown(RootF(1), lost));
  }

  /** One more link then turns the count negative while the file still has its name, and
      removing that name panics. */
  lemma {:induction false} OverflowPanics(n: nat)
    requires n == NLINK_MAX
    ensures var s, es, t := Start(["f"], 1, 4, 1), Leaks(n - 1) + LinkF(), Overflown(RootF(1), LeakedBy(n - 1));
            RunTo(s, es, t) && t.nodes[2].nlink == -32768 && EntryFor(t.nodes, ROOT, 3, 2)
    ensures var s, es := Start(["f"], 1, 4, 1), Leaks(n - 1) + LinkF() + PanicEvents();
            var t := Panicking(Listed(Dirent(2, "y")) + NoEntries(0), LeakedBy(n - 1));
            RunTo(s, es, t) && UnlinkPanics(t, 0)
  {
    var lost, r, t := LeakedBy(n - 1), RootF(1), Listed(Dirent(2, "y")) + NoEntries(0);
    OverflowRuns(n);
    RootFIs(1);
    ListedPuts(Dirent(2, "y"), NoEntries(0));
    ListedFinds(Dirent(2, "y"), NoEntries(0), "y");
    Panic(r, t, lost);
    LeadsThen(Start(["f"], 1, 4, 1), Leaks(n - 1) + LinkF(), Overflown(r, lost), PanicEvents(), Panicking(t, lost));
    LeadsRuns(Start(["f"], 1, 4, 1), Leaks(n - 1) + LinkF(), Overflown(r, lost));
    LeadsRuns(Start(["f"], 1, 4, 1), Leaks(n - 1) + LinkF() + PanicEvents(), Panicking(t, lost));
  }

  // --------------------------------------- through a removed working directory

  /** Two processes, the file "f" and two more inodes. */
  function Pair(root: Node, f: Node, a: Node, b: Node, p0: Proc, p1: Proc, lost: seq<Dirent>): Sys {
    Sys([UNUSED, root, f, a, b], [p0, p1], lost)
  }

  function FileNode(n: int): Node { Node(Other, n, [], None) }

  function NewDir(n: int, ip: nat, dp: nat, more: seq<Dirent>): Node { Node(Dir, n, DirDots(ip, dp) + more, None) }

  /** The stages of: mkdir a; mkdir a/b; chdir a/b by process 1; rm a/b; rm a.  The root
      directory is r without "a" and t with it. */
  function Stage(k: nat, r: seq<Dirent>, t: seq<Dirent>): Sys {
    var b, f := Dirent(4, "b"), FileNode(1);
    if k == 0 then Pair(Root(1, r), f, UNUSED, UNUSED, Home(ROOT), Home(ROOT), [])
    else if k == 1 then Pair(Root(2, t), f, NewDir(1, 3, ROOT, []), UNUSED, Home(ROOT), Home(ROOT), [])
    else if k == 2 then
      Pair(Root(2, t), f, NewDir(2, 3, ROOT, [b]), NewDir(1, 4, 3, []), Home(ROOT), Home(ROOT), [])
    else if k == 3 then Pair(Root(2, t), f, NewDir(2, 3, ROOT, [b]), NewDir(1, 4, 3, []), Home(ROOT), Home(4), [])
    else if k == 4 then Pair(Root(2, t), f, NewDir(1, 3, ROOT, [NONE]), NewDir(0, 4, 3, []), Home(ROOT), Home(4), [])
    else Pair(Root(1, r), f, NewDir(0, 3, ROOT, [NONE]), NewDir(0, 4, 3, []), Home(ROOT), Home(4), [])
  }

  /** The last of them: "a" is freed, and process 1 is in a directory whose ".." it was. */
  function Orphaned(r: seq<Dirent>): Sys {
    Pair(Root(1, r), FileNode(1), UNUSED, NewDir(0, 4, 3, []), Home(ROOT), Home(4), DirDots(3, ROOT) + [NONE])
  }

  lemma {:induction false} MakeA(r: seq<Dirent>, t: seq<Dirent>)
    requires Puts(r, 4, Dirent(3, "a"), t)
    ensures Leads(Stage(0, r, t), [PathStart(0, true)] + MakeEvents(0, "a", 3), Stage(1, r, t))
  {
    var s, v := Stage(0, r, t), Stage(1, r, t);
    var u := Do(s, PathStart(0, true));
    LeadsOne(s, PathStart(0, true));
    Make(u, 0, ROOT, "a", 3);
    assert DirDots(3, ROOT) + [] == DirDots(3, ROOT);
    assert DirMade(Begun(u, 0, ROOT, "a", 3, Dir), 0) == v;
    LeadsThen(s, [PathStart(0, true)], u, MakeEvents(0, "a", 3), v);
  }

  lemma {:induction false} DotsFind(ip: nat, dp: nat, more: seq<Dirent>, name: string)
    requires Letter(name) && ip != 0 && dp != 0
    ensures more == [] ==> !Found(DirDots(ip, dp) + more, name)
    ensures more != [] && more[0].inum != 0 && more[0].name == name ==> Lookup(DirDots(ip, dp) + more, name) == 2
    ensures Lookup(DirDots(ip, dp) + more, "..") == 1 && !Dot(name)
    ensures more == [] && name == "b" ==>
              Insert(DirDots(ip, dp) + more, Dirent(4, "b")) == DirDots(ip, dp) + [Dirent(4, "b")]
  {
    var r := DirDots(ip, dp) + more;
    assert r[0] == Dirent(ip, ".") && r[1] == Dirent(dp, "..") && |"."| == 1 && |".."| == 2;
    assert more != [] ==> r[2] == more[0];
    assert more == [] ==> FirstFree(r) == 2;
  }

  lemma {:induction false} MakeB(r: seq<Dirent>, t: seq<Dirent>)
    requires Puts(r, 4, Dirent(3, "a"), t)
    ensures Leads(Stage(1, r, t), [PathStart(0, true), PathStep(0, "a")] + MakeEvents(0, "b", 4), Stage(2, r, t))
  {
    var s, v := Stage(1, r, t), Stage(2, r, t);
    var u := Do(Do(s, PathStart(0, true)), PathStep(0, "a"));
    Leads2(s, PathStart(0, true), PathStep(0, "a"), u);
    DotsFind(3, ROOT, [], "b");
    Make(u, 0, 3, "b", 4);
    assert DirDots(4, 3) + [] == DirDots(4, 3);
    assert DirMade(Begun(u, 0, 3, "b", 4, Dir), 0) == v;
    LeadsThen(s, [PathStart(0, true), PathStep(0, "a")], u, MakeEvents(0, "b", 4), v);
  }

  lemma {:induction false} EnterB(r: seq<Dirent>, t: seq<Dirent>)
    requires Puts(r, 4, Dirent(3, "a"), t)
    ensures Leads(Stage(2, r, t), [PathStart(1, true), PathStep(1, "a")] + [PathStep(1, "b"), Chdir(1)], Stage(3, r, t))
  {
    var s, v := Stage(2, r, t), Stage(3, r, t);
    DotsFind(3, ROOT, [Dirent(4, "b")], "b");
    var u := Do(Do(s, PathStart(1, true)), PathStep(1, "a"));
    Leads2(s, PathStart(1, true), PathStep(1, "a"), u);
    Leads2(u, PathStep(1, "b"), Chdir(1), v);
    LeadsThen(s, [PathStart(1, true), PathStep(1, "a")], u, [PathStep(1, "b"), Chdir(1)], v);
  }

  lemma {:induction false} RemoveB(r: seq<Dirent>, t: seq<Dirent>)
    requires Puts(r, 4, Dirent(3, "a"), t)
    ensures Leads(Stage(3, r, t), [PathStart(0, true), PathStep(0, "a")] + UnlinkEvents(0, "b"), Stage(4, r, t))
  {
    var s, v := Stage(3, r, t), Stage(4, r, t);
    DotsFind(3, ROOT, [Dirent(4, "b")], "b");
    var u := Do(Do(s, PathStart(0, true)), PathStep(0, "a"));
    Leads2(s, PathStart(0, true), PathStep(0, "a"), u);
    Unlink(u, 0, 3, "b");
    assert (DirDots(3, ROOT) + [Dirent(4, "b")])[2 := NONE] == DirDots(3, ROOT) + [NONE];
    assert Unlinked(u, 0, 3, "b") == v;
    LeadsThen(s, [PathStart(0, true), PathStep(0, "a")], u, UnlinkEvents(0, "b"), v);
  }

  lemma {:induction false} RemoveA(r: seq<Dirent>, t: seq<Dirent>)
    requires Puts(r, 4, Dirent(3, "a"), t)
    ensures Leads(Stage(4, r, t), [PathStart(0, true)] + UnlinkEvents(0, "a"), Stage(5, r, t))
  {
    var s, v := Stage(4, r, t), Stage(5, r, t);
    var u := Do(s, PathStart(0, true));
    LeadsOne(s, PathStart(0, true));
    assert (DirDots(3, ROOT) + [NONE])[2] == NONE;
    Unlink(u, 0, ROOT, "a");
    assert Unlinked(u, 0, ROOT, "a") == v;
    LeadsThen(s, [PathStart(0, true)], u, UnlinkEvents(0, "a"), v);
  }

  lemma {:induction false} FreeA(r: seq<Dirent>, t: seq<Dirent>)
    ensures Leads(Stage(5, r, t), [Iput(0, 3)], Orphaned(r))
  {
    var s := Stage(5, r, t);
    assert !Touches(s.procs[0], 3) && !Touches(s.procs[1], 3);
    assert Do(s, Iput(0, 3)) == Orphaned(r);
    LeadsOne(s, Iput(0, 3));
  }

  function OrphanEvents(): seq<Event> {
    [Fork(1, 0)] +
    ((([PathStart(0, true)] + MakeEvents(0, "a", 3)) +
      ([PathStart(0, true), PathStep(0, "a")] + MakeEvents(0, "b", 4))) +
    (([PathStart(1, true), PathStep(1, "a")] + [PathStep(1, "b"), Chdir(1)]) +
    (([PathStart(0, true), PathStep(0, "a")] + UnlinkEvents(0, "b")) +
    (([PathStart(0, true)] + UnlinkEvents(0, "a")) + [Iput(0, 3)]))))
  }

  lemma {:induction false} StartPair(t: seq<Dirent>)
    ensures Leads(Start(["f"], 2, 5, 2), [Fork(1, 0)], Stage(0, RootF(2), t))
  {
    var s, v := Start(["f"], 2, 5, 2), Stage(0, RootF(2), t);
    assert s.nodes == v.nodes;
    assert Do(s, Fork(1, 0)).procs == v.procs;
    LeadsOne(s, Fork(1, 0));
  }

  /** From a fresh image process 1 gets to a working directory whose ".." is a free inode. */
  lemma {:induction false} Orphan()
    ensures Leads(Start(["f"], 2, 5, 2), OrphanEvents(), Orphaned(RootF(2)))
  {
    var r, t := RootF(2), Listed(Dirent(3, "a")) + [NONE];
    RootFIs(2);
    assert NoEntries(1) == [NONE];
    ListedPuts(Dirent(3, "a"), [NONE]);
    OrphanFrom(r, t);
    StartPair(t);
    var es := OrphanEvents()[1..];
    assert OrphanEvents() == [Fork(1, 0)] + es;
    LeadsThen(Start(["f"], 2, 5, 2), [Fork(1, 0)], Stage(0, r, t), es, Orphaned(r));
  }

  lemma {:induction false} OrphanFrom(r: seq<Dirent>, t: seq<Dirent>)
    requires Puts(r, 4, Dirent(3, "a"), t)
    ensures Leads(Stage(0, r, t), OrphanEvents()[1..], Orphaned(r))
  {
    var e0, e1 := [PathStart(0, true)] + MakeEvents(0, "a", 3),
                  [PathStart(0, true), PathStep(0, "a")] + MakeEvents(0, "b", 4);
    var e2, e3 := [PathStart(1, true), PathStep(1, "a")] + [PathStep(1, "b"), Chdir(1)],
                  [PathStart(0, true), PathStep(0, "a")] + UnlinkEvents(0, "b");
    var e4, e5 := [PathStart(0, true)] + UnlinkEvents(0, "a"), [Iput(0, 3)];
    var s0, s1, s2, s3 := Stage(0, r, t), Stage(1, r, t), Stage(2, r, t), Stage(3, r, t);
    Chain4(s2, e2, s3, e3, Stage(4, r, t), e4, Stage(5, r, t), e5, Orphaned(r)) by {
      EnterB(r, t);
      RemoveB(r, t);
      RemoveA(r, t);
      FreeA(r, t);
    }
    MakeA(r, t);
    MakeB(r, t);
    LeadsThen(s0, e0, s1, e1, s2);
    LeadsThen(s0, e0 + e1, s2, e2 + (e3 + (e4 + e5)), Orphaned(r));
    assert OrphanEvents()[1..] == (e0 + e1) + (e2 + (e3 + (e4 + e5)));
  }

  /** Process 1 now looks up "..". */
  const UP := [PathStart(1, false), PathStep(1, "..")]

  lemma {:induction false} GoUp(s: Sys)
    requires |s.procs| == 2 && s.procs[1].cwd == 4 && s.procs[1].cur == 0 && |s.nodes| == 5
    requires (s.procs[1].pc.Idle? || s.procs[1].pc.LinkHeld?) && s.nodes[4] == NewDir(0, 4, 3, [])
    ensures Leads(s, UP, s.(procs := s.procs[1 := s.procs[1].(cur := 3)]))
  {
    DotsFind(4, 3, [], "a");
    Leads2(s, PathStart(1, false), PathStep(1, ".."), s.(procs := s.procs[1 := s.procs[1].(cur := 3)]));
  }

  /** The path ends at a free inode, and ilock panics. */
  lemma {:induction false} UpPanics()
    ensures var s := Orphaned(RootF(2));
            var t := s.(procs := s.procs[1 := s.procs[1].(cur := 3)]);
            RunTo(Start(["f"], 2, 5, 2), OrphanEvents() + UP, t) && IlockPanics(t, 1)
  {
    var s := Orphaned(RootF(2));
    Orphan();
    GoUp(s);
    var t := s.(procs := s.procs[1 := s.procs[1].(cur := 3)]);
    LeadsThen(Start(["f"], 2, 5, 2), OrphanEvents(), s, UP, t);
    LeadsRuns(Start(["f"], 2, 5, 2), OrphanEvents() + UP, t);
  }

  /** Process 0 creates the file "g" in the inode that was "a", and process 1 links ".."
      to "h" between create's ialloc and its ilock.  r is the root directory. */
  function Race(k: nat, r: seq<Dirent>): Sys {
    var f, b, lost := FileNode(1), NewDir(0, 4, 3, []), DirDots(3, ROOT) + [NONE];
    var maker, linker := Proc(CreateGot(ROOT, "g", 3), ROOT, 0), Proc(LinkHeld(3), 4, 0);
    if k == 0 then Pair(Root(1, r).(lock := Some(0)), f, FileNode(0), b, maker, Home(4), lost)
    else if k == 1 then Pair(Root(1, r).(lock := Some(0)), f, FileNode(1), b, maker, linker, lost)
    else if k == 2 then Pair(Root(1, r), f, FileNode(1), b, Home(ROOT), linker, lost)
    else if k == 3 then Pair(Root(1, r), f, FileNode(1), b, Home(ROOT), Home(4), lost)
    else Pair(Root(1, r), f, FileNode(0), b, Home(ROOT), Home(4), lost)
  }

  lemma {:induction false} RaceBegins(r: seq<Dirent>)
    requires !Found(r, "g")
    ensures Leads(Orphaned(r), [PathStart(0, true)] + [CreateFind(0, "g"), CreateAlloc(0, 3, Other)], Race(0, r))
  {
    var s := Orphaned(r);
    var t := Do(s, PathStart(0, true));
    LeadsOne(s, PathStart(0, true));
    Begin(t, 0, ROOT, "g", 3, Other);
    assert Begun(t, 0, ROOT, "g", 3, Other) == Race(0, r);
    LeadsThen(s, [PathStart(0, true)], t, [CreateFind(0, "g"), CreateAlloc(0, 3, Other)], Race(0, r));
  }

  lemma {:induction false} RaceLinks(r: seq<Dirent>)
    ensures Leads(Race(0, r), UP + [LinkStart(1)], Race(1, r))
  {
    var s := Race(0, r);
    var t := s.(procs := s.procs[1 := s.procs[1].(cur := 3)]);
    GoUp(s);
    assert Do(t, LinkStart(1)) == Race(1, r);
    LeadsOne(t, LinkStart(1));
    LeadsThen(s, UP, t, [LinkStart(1)], Race(1, r));
  }

  lemma {:induction false} RaceMakes(r: seq<Dirent>, t: seq<Dirent>)
    requires Puts(r, 4, Dirent(3, "g"), t)
    ensures Leads(Race(1, r), [CreateLock(0), CreateEnter(0)], Race(2, t))
  {
    MakeFile(Race(1, r), 0);
    assert FileMade(Race(1, r), 0) == Race(2, t);
  }

  lemma {:induction false} RaceEnters(r: seq<Dirent>, t: seq<Dirent>)
    requires !Found(r, "h") && Insert(r, Dirent(3, "h")) == t
    ensures Leads(Race(2, r), EnterEvents(1, true, "h"), Race(3, t))
  {
    EnterLink(Race(2, r), 1, true, "h");
    assert Entered(Race(2, r), 1, true, "h") == Race(3, t);
  }

  lemma {:induction false} RaceRemoves(r: seq<Dirent>, t: seq<Dirent>)
    requires Puts(r, 4, Dirent(3, "g"), t)
    ensures Leads(Race(3, t), [PathStart(0, true)] + UnlinkEvents(0, "g"), Race(4, r))
  {
    var s, v := Race(3, t), Race(4, r);
    var u := Do(s, PathStart(0, true));
    LeadsOne(s, PathStart(0, true));
    Unlink(u, 0, ROOT, "g");
    assert Unlinked(u, 0, ROOT, "g") == v;
    LeadsThen(s, [PathStart(0, true)], u, UnlinkEvents(0, "g"), v);
  }

  const G := Dirent(3, "g")
  const H := Dirent(3, "h")

  lemma {:induction false} TwoEntries(w: Want)
    requires w == Naming(3)
    ensures Count(w, Listed(G) + [H]) == 2 && Count(w, DirDots(4, 3) + []) == 0
  {
    var four := Listed(NONE)[..4];
    assert "g"[0] != "."[0] && "h"[0] != "."[0] && |"g"| == 1 && |"h"| == 1 && |".."| == 2;
    assert Listed(G) == four + [G];
    CountAppend(w, Listed(G), H);
    CountAppend(w, four, G);
    CountPositive(w, four);
    CountPositive(w, DirDots(4, 3) + []);
  }

  lemma {:induction false} TwoNames(nodes: seq<Node>)
    requires |nodes| == 5 && nodes[ROOT].slots == Listed(G) + [H]
    requires nodes[0].slots == nodes[2].slots == nodes[3].slots == [] && nodes[4].slots == DirDots(4, 3) + []
    ensures Names(nodes, 3) == 2
  {
    TwoEntries(Naming(3));
    OnlyRootNames(nodes[4 := UNUSED], 3);
    NamesUpdate(nodes[4 := UNUSED], 4, nodes[4], 3);
    assert nodes[4 := UNUSED][4 := nodes[4]] == nodes;
  }

  function RaceEvents(): seq<Event> {
    ([PathStart(0, true)] + [CreateFind(0, "g"), CreateAlloc(0, 3, Other)]) +
    ((UP + [LinkStart(1)]) + ([CreateLock(0), CreateEnter(0)] + EnterEvents(1, true, "h")))
  }

  /** The new entries land in the two free slots of the root. */
  lemma {:induction false} RaceSlots()
    ensures RootF(2) == Listed(NONE) + [NONE] && Puts(RootF(2), 4, G, Listed(G) + [NONE])
    ensures !Found(Listed(G) + [NONE], "h") && Insert(Listed(G) + [NONE], H) == Listed(G) + [H]
    ensures Puts(Listed(NONE) + [H], 4, G, Listed(G) + [H])
  {
    RootFIs(2);
    assert NoEntries(1) == [NONE];
    assert "g"[0] != "h"[0];
    ListedPuts(G, [NONE]);
    ListedPuts(G, [H]);
    var r := Listed(G) + [NONE];
    assert |"."| == 1 && |".."| == 2 && |"mnt"| == 3 && |"f"| == 1 && "h"[0] != "."[0] && "h"[0] != "f"[0];
    assert r[0] == Dirent(ROOT, ".") && r[1] == Dirent(ROOT, "..") && r[2] == Dirent(ROOT, "mnt");
    assert r[3] == Dirent(2, "f") && r[4] == G && r[5] == NONE;
    assert FirstFree(r) == 5;
  }

  lemma {:induction false} RaceRuns()
    ensures Leads(Start(["f"], 2, 5, 2), OrphanEvents() + RaceEvents(), Race(3, Listed(G) + [H]))
    ensures Leads(Race(3, Listed(G) + [H]), [PathStart(0, true)] + UnlinkEvents(0, "g"), Race(4, Listed(NONE) + [H]))
  {
    var e0, e1 := [PathStart(0, true)] + [CreateFind(0, "g"), CreateAlloc(0, 3, Other)], UP + [LinkStart(1)];
    var e2, e3 := [CreateLock(0), CreateEnter(0)], EnterEvents(1, true, "h");
    var r, t, u := RootF(2), Listed(G) + [NONE], Listed(G) + [H];
    RaceSlots();
    Chain4(Orphaned(r), e0, Race(0, r), e1, Race(1, r), e2, Race(2, t), e3, Race(3, u)) by {
      RaceBegins(r);
      RaceLinks(r);
      RaceMakes(r, t);
      RaceEnters(t, u);
    }
    Orphan();
    LeadsThen(Start(["f"], 2, 5, 2), OrphanEvents(), Orphaned(r), RaceEvents(), Race(3, u));
    RaceRemoves(Listed(NONE) + [H], u);
  }

  /** create overwrites the count: from a fresh image the run ends with a file that has
      two names and one link.  When one name is removed, iput frees the file under the
      other. */
  lemma {:induction false} EarlyLinkLosesCount()
    ensures var s := Race(3, Listed(G) + [H]);
            && RunTo(Start(["f"], 2, 5, 2), OrphanEvents() + RaceEvents(), s)
            && s.nodes[3].nlink == 1 && Names(s.nodes, 3) == 2
    ensures var s, t := Race(3, Listed(G) + [H]), Race(4, Listed(NONE) + [H]);
            && RunTo(s, [PathStart(0, true)] + UnlinkEvents(0, "g"), t)
            && Enabled(t, Iput(0, 3)) && EntryFor(t.nodes, ROOT, 5, 3)
  {
    RaceRuns();
    RaceEnds(Race(3, Listed(G) + [H]), Race(4, Listed(NONE) + [H]));
    LeadsRuns(Start(["f"], 2, 5, 2), OrphanEvents() + RaceEvents(), Race(3, Listed(G) + [H]));
    LeadsRuns(Race(3, Listed(G) + [H]), [PathStart(0, true)] + UnlinkEvents(0, "g"), Race(4, Listed(NONE) + [H]));
  }

  lemma {:induction false} RaceEnds(s: Sys, t: Sys)
    requires s == Race(3, Listed(G) + [H]) && t == Race(4, Listed(NONE) + [H])
    ensures s.nodes[3].nlink == 1 && Names(s.nodes, 3) == 2
    ensures Enabled(t, Iput(0, 3)) && EntryFor(t.nodes, ROOT, 5, 3)
  {
    TwoNames(s.nodes);
    assert "h"[0] != "."[0] && |"h"| == 1;
    assert t.nodes[ROOT].slots[5] == H;
    assert !Touches(t.procs[0], 3) && !Touches(t.procs[1], 3);
  }

  /** Process 1 has started to link "/f"; process 0 makes the directory "g" in the inode
      that was "a"; process 1 enters its link there as "../.". */
  function Clash(k: nat, r: seq<Dirent>): Sys {
    var f, b, lost := FileNode(2), NewDir(0, 4, 3, []), DirDots(3, ROOT) + [NONE];
    var root, maker := Root(1, r).(lock := Some(0)), Proc(CreateGot(ROOT, "g", 3), ROOT, 0);
    if k == 0 then Pair(Root(1, r), f, UNUSED, b, Home(ROOT), Proc(LinkHeld(2), 4, 0), lost)
    else if k == 1 then Pair(root, f, Node(Dir, 0, [], None), b, maker, Proc(LinkHeld(2), 4, 0), lost)
    else if k == 2 then Pair(root, f, Node(Dir, 0, [], None), b, maker, Proc(LinkHeld(2), 4, 3), lost)
    else if k == 3 then Pair(root, f, Node(Dir, 0, [Dirent(2, ".")], None), b, maker, Home(4), lost)
    else Pair(root, f, Node(Dir, 1, [Dirent(2, ".")], Some(0)), b,
              Proc(CreateNew(ROOT, "g", 3), ROOT, 0), Home(4), lost)
  }

  lemma {:induction false} ClashLinks(r: seq<Dirent>)
    requires HasF(r)
    ensures Leads(Orphaned(r), [PathStart(1, true), PathStep(1, "f")] + [LinkStart(1)], Clash(0, r))
  {
    var s := Orphaned(r);
    var t := Do(Do(s, PathStart(1, true)), PathStep(1, "f"));
    Leads2(s, PathStart(1, true), PathStep(1, "f"), t);
    assert Do(t, LinkStart(1)) == Clash(0, r);
    LeadsOne(t, LinkStart(1));
    LeadsThen(s, [PathStart(1, true), PathStep(1, "f")], t, [LinkStart(1)], Clash(0, r));
  }

  lemma {:induction false} ClashBegins(r: seq<Dirent>)
    requires !Found(r, "g")
    ensures Leads(Clash(0, r), [PathStart(0, true)] + [CreateFind(0, "g"), CreateAlloc(0, 3, Dir)], Clash(1, r))
  {
    var s := Clash(0, r);
    var t := Do(s, PathStart(0, true));
    LeadsOne(s, PathStart(0, true));
    Begin(t, 0, ROOT, "g", 3, Dir);
    assert Begun(t, 0, ROOT, "g", 3, Dir) == Clash(1, r);
    LeadsThen(s, [PathStart(0, true)], t, [CreateFind(0, "g"), CreateAlloc(0, 3, Dir)], Clash(1, r));
  }

  lemma {:induction false} ClashUp(r: seq<Dirent>)
    ensures Leads(Clash(1, r), UP, Clash(2, r))
  {
    var s := Clash(1, r);
    GoUp(s);
    assert s.(procs := s.procs[1 := s.procs[1].(cur := 3)]) == Clash(2, r);
  }

  lemma {:induction false} ClashEnters(r: seq<Dirent>)
    ensures Leads(Clash(2, r), [LinkParent(1), LinkEnter(1, ".")], Clash(3, r))
  {
    assert Insert([], Dirent(2, ".")) == [Dirent(2, ".")];
    Leads2(Clash(2, r), LinkParent(1), LinkEnter(1, "."), Clash(3, r));
  }

  lemma {:induction false} ClashLocks(r: seq<Dirent>)
    ensures Leads(Clash(3, r), [CreateLock(0)], Clash(4, r)) && CreatePanics(Clash(4, r), 0)
  {
    var s := Clash(3, r);
    assert Do(s, CreateLock(0)) == Clash(4, r);
    LeadsOne(s, CreateLock(0));
    assert Clash(4, r).nodes[3].slots[0].name == ".";
  }

  function ClashEvents(): seq<Event> {
    ([PathStart(1, true), PathStep(1, "f")] + [LinkStart(1)]) +
    (([PathStart(0, true)] + [CreateFind(0, "g"), CreateAlloc(0, 3, Dir)]) +
     (UP + ([LinkParent(1), LinkEnter(1, ".")] + [CreateLock(0)])))
  }

  /** create then finds a "." in its new directory, and panics. */
  lemma {:induction false} DotsPanic()
    ensures var t := Clash(4, RootF(2));
            RunTo(Start(["f"], 2, 5, 2), OrphanEvents() + ClashEvents(), t) && CreatePanics(t, 0)
  {
    var e0, e1 := [PathStart(1, true), PathStep(1, "f")] + [LinkStart(1)],
                  [PathStart(0, true)] + [CreateFind(0, "g"), CreateAlloc(0, 3, Dir)];
    var e2, e3 := [LinkParent(1), LinkEnter(1, ".")], [CreateLock(0)];
    var r := RootF(2);
    RaceSlots();
    ListedFinds(NONE, [NONE], "g");
    ClashLocks(r);
    Chain4(Clash(0, r), e1, Clash(1, r), UP, Clash(2, r), e2, Clash(3, r), e3, Clash(4, r)) by {
      ClashBegins(r);
      ClashUp(r);
      ClashEnters(r);
    }
    ClashLinks(r);
    LeadsThen(Orphaned(r), e0, Clash(0, r), e1 + (UP + (e2 + e3)), Clash(4, r));
    Orphan();
    LeadsThen(Start(["f"], 2, 5, 2), OrphanEvents(), Orphaned(r), ClashEvents(), Clash(4, r));
    LeadsRuns(Start(["f"], 2, 5, 2), OrphanEvents() + ClashEvents(), Clash(4, r));
  }
}

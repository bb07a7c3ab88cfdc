/** Where uncareful steps come from: as long as nobody looks up ".." in a directory that
    has been removed, only a full 16-bit count can make a step of Links uncareful, and
    no path ever leads to a free inode. */
module LinkTidy {
  import opened Common
  import opened Dirs
  import opened Links
  import opened LinkLaw

  /** What the next element of a path leads to. */
  function Led(s: Sys, e: Event): nat
    requires Enabled(s, e) && e.PathStep?
  {
    var slots := s.nodes[s.procs[e.p].cur].slots;
    slots[Lookup(slots, e.name)].inum
  }

  /** A path is led to an inode that is free, or that create has not finished. */
  predicate Stale(s: Sys, e: Event)
    requires Enabled(s, e)
  {
    e.PathStep? && Led(s, e) < |s.nodes| && (s.nodes[Led(s, e)].itype == Free || InMaking(s, Led(s, e)))
  }

  predicate InMaking(s: Sys, i: nat) { exists q :: 0 <= q < |s.procs| && Made(s.procs[q].pc) == i }

  /** ".." is looked up in a directory that no entry names any more. */
  predicate Astray(s: Sys, e: Event)
    requires Enabled(s, e)
  {
    e.PathStep? && e.name == ".." && s.procs[e.p].cur != ROOT && Names(s.nodes, s.procs[e.p].cur) == 0
  }

  /** A count of 32767 is raised. */
  predicate Tops(s: Sys, e: Event)
    requires Enabled(s, e)
  {
    || (e.LinkStart? && s.nodes[s.procs[e.p].cur].nlink == NLINK_MAX)
    || (e.CreateDir? && s.nodes[s.procs[e.p].pc.dp].nlink == NLINK_MAX)
  }

  // ------------------------------------------------------------- invariant

  /** A finished directory: its own dot entries first, and no others. */
  predicate DotsOk(slots: seq<Dirent>, i: nat) {
    && |slots| >= 2 && slots[0] == Dirent(i, ".") && slots[1].name == ".." && slots[1].inum != 0
    && forall k :: 2 <= k < |slots| && slots[k].inum != 0 ==> !Dot(slots[k].name)
  }

  predicate RawBy(me: Proc, i: nat) { (me.pc.CreateGot? || me.pc.CreateNew?) && me.pc.ip == i }

  predicate Raw(s: Sys, i: nat) { exists q :: 0 <= q < |s.procs| && RawBy(s.procs[q], i) }

  predicate DirOk(s: Sys, i: nat)
    requires i < |s.nodes|
  {
    s.nodes[i].itype == Dir && !Raw(s, i) ==> DotsOk(s.nodes[i].slots, i)
  }

  /** Nobody but its create has got to the inode q makes. */
  predicate Shelter(s: Sys, q: nat, r: nat)
    requires q < |s.procs| && r < |s.procs|
  {
    var ip, other := Made(s.procs[q].pc), s.procs[r];
    ip != 0 ==> other.cwd != ip && other.cur != ip && (q != r ==> !Refs(other.pc, ip))
  }

  /** The inode q makes is as create has left it. */
  predicate NewOk(s: Sys, q: nat)
    requires q < |s.procs|
  {
    var pc := s.procs[q].pc;
    Made(pc) != 0 ==>
      && Made(pc) < |s.nodes| && Made(pc) != ROOT
      && var y := s.nodes[pc.ip];
         && y.nlink == (if pc.CreateGot? then 0 else 1)
         && y.slots == (if pc.CreateDots? then [Dirent(pc.ip, "."), Dirent(pc.dp, "..")] else [])
  }

  predicate CurOk(s: Sys, q: nat)
    requires q < |s.procs|
  {
    var i := s.procs[q].cur;
    0 < i < |s.nodes| ==> s.nodes[i].itype != Free
  }

  /** The ".." of a directory leads to the directory that has its entry. */
  predicate UpOk(s: Sys, d: nat, k: nat)
    requires d < |s.nodes| && k < |s.nodes[d].slots|
  {
    var e := s.nodes[d].slots[k];
    0 < e.inum < |s.nodes| && e.inum != d && !Dot(e.name) && s.nodes[e.inum].itype == Dir ==>
      |s.nodes[e.inum].slots| >= 2 && s.nodes[e.inum].slots[1].inum == d
  }

  predicate Tidy(s: Sys) {
    && Inv(s)
    && (forall i :: 0 <= i < |s.nodes| ==> DirOk(s, i))
    && (forall q :: 0 <= q < |s.procs| ==> NewOk(s, q) && CurOk(s, q))
    && (forall q, r :: 0 <= q < |s.procs| && 0 <= r < |s.procs| ==> Shelter(s, q, r))
    && (forall d, k :: 0 <= d < |s.nodes| && 0 <= k < |s.nodes[d].slots| ==> UpOk(s, d, k))
  }

  // ------------------------------------------------------ what a step touches

  /** A step writes only inodes its process refers to, apart from ialloc and iput. */
  lemma {:induction false} Footprint(s: Sys, e: Event, j: nat)
    requires Enabled(s, e) && j < |s.nodes|
    ensures |Do(s, e).nodes| == |s.nodes| && |Do(s, e).procs| == |s.procs|
    ensures Do(s, e).nodes[j] != s.nodes[j] ==>
              s.procs[e.p].cur == j || Refs(s.procs[e.p].pc, j) || ((e.CreateAlloc? || e.Iput?) && e.ip == j)
  {
  }

  /** The inode a step gives its process a new reference to, or 0. */
  function Gained(s: Sys, e: Event): nat
    requires Enabled(s, e)
  {
    match e
    case PathStart(_, top) => if top then ROOT else 0
    case PathStep(_, _) => Led(s, e)
    case Fork(_, parent) => s.procs[parent].cwd
    case UnlinkFind(_, name) =>
      var slots := s.nodes[s.procs[e.p].cur].slots;
      slots[Lookup(slots, name)].inum
    case CreateAlloc(_, ip, _) => ip
    case _ => 0
  }

  lemma {:induction false} NewRefsPath(s: Sys, e: Event, j: nat)
    requires Enabled(s, e) && OnPath(e) && j != 0
    ensures Touches(Do(s, e).procs[e.p], j) ==> Touches(s.procs[e.p], j) || j == Gained(s, e)
    ensures forall r :: 0 <= r < |s.procs| && r != e.p ==> Do(s, e).procs[r] == s.procs[r]
  {
  }

  lemma {:induction false} NewRefsCall(s: Sys, e: Event, j: nat)
    requires Enabled(s, e) && OnCall(e) && j != 0
    ensures Touches(Do(s, e).procs[e.p], j) ==> Touches(s.procs[e.p], j) || j == Gained(s, e)
    ensures forall r :: 0 <= r < |s.procs| && r != e.p ==> Do(s, e).procs[r] == s.procs[r]
  {
  }

  lemma {:induction false} NewRefsMake(s: Sys, e: Event, j: nat)
    requires Enabled(s, e) && OnMake(e) && j != 0
    ensures Touches(Do(s, e).procs[e.p], j) ==> Touches(s.procs[e.p], j) || j == Gained(s, e)
    ensures forall r :: 0 <= r < |s.procs| && r != e.p ==> Do(s, e).procs[r] == s.procs[r]
  {
  }

  lemma {:induction false} NewRefs(s: Sys, e: Event, j: nat)
    requires Enabled(s, e) && j != 0
    ensures Touches(Do(s, e).procs[e.p], j) ==> Touches(s.procs[e.p], j) || j == Gained(s, e)
    ensures forall r :: 0 <= r < |s.procs| && r != e.p ==> Do(s, e).procs[r] == s.procs[r]
  {
    if OnPath(e) {
      NewRefsPath(s, e, j);
    } else if OnCall(e) {
      NewRefsCall(s, e, j);
    } else {
      NewRefsMake(s, e, j);
    }
  }

  /** An inode in the making has no name. */
  lemma {:induction false} MadeUnnamed(s: Sys, q: nat)
    requires Tidy(s) && q < |s.procs| && Made(s.procs[q].pc) != 0
    ensures var ip := Made(s.procs[q].pc); ip < |s.nodes| && s.nodes[ip].itype != Free && Names(s.nodes, ip) == 0
  {
    assert NewOk(s, q) && ProcOk(s, q) && NodeOk(s, Made(s.procs[q].pc));
    OwedUpdate(s.procs, q, s.procs[q], Made(s.procs[q].pc));
  }

  lemma {:induction false} ReferredLive(s: Sys, r: nat, i: nat)
    requires Tidy(s) && r < |s.procs| && i != 0 && Touches(s.procs[r], i)
    ensures i < |s.nodes| && s.nodes[i].itype != Free
  {
    var pc := s.procs[r].pc;
    assert ProcOk(s, r) && CurOk(s, r);
    if pc.UnlinkAt? {
      NamedLive(s, pc.dp, pc.off);
    }
  }

  lemma {:induction false} GainedNotMade(s: Sys, e: Event, q: nat)
    requires Tidy(s) && Enabled(s, e) && !Stale(s, e) && q < |s.procs| && Made(s.procs[q].pc) != 0
    ensures Gained(s, e) != Made(s.procs[q].pc)
  {
    assert NewOk(s, q) && ProcOk(s, e.p);
    MadeUnnamed(s, q);
    if e.Fork? {
      assert Shelter(s, q, e.parent);
    } else if e.UnlinkFind? {
      var dp := s.procs[e.p].cur;
      var off := Lookup(s.nodes[dp].slots, e.name);
      if s.nodes[dp].slots[off].inum == Made(s.procs[q].pc) {
        Named(s.nodes, dp, off, Made(s.procs[q].pc));
      }
    }
  }

  // ------------------------------------------------------- each part is kept

  lemma {:induction false} CurPath(s: Sys, e: Event, q: nat)
    requires Enabled(s, e) && OnPath(e) && !Stale(s, e) && q < |s.procs| && RootOk(s.nodes)
    requires CurOk(s, q) && ProcOk(s, q) && (e.PathStep? ==> Led(s, e) < |s.nodes|)
    ensures |Do(s, e).procs| == |s.procs| && CurOk(Do(s, e), q)
  {
  }

  lemma {:induction false} CurCall(s: Sys, e: Event, q: nat)
    requires Enabled(s, e) && OnCall(e) && q < |s.procs| && CurOk(s, q) && ProcOk(s, q)
    ensures |Do(s, e).procs| == |s.procs| && CurOk(Do(s, e), q)
  {
  }

  lemma {:induction false} CurMake(s: Sys, e: Event, q: nat)
    requires Enabled(s, e) && OnMake(e) && q < |s.procs| && CurOk(s, q) && ProcOk(s, q)
    ensures |Do(s, e).procs| == |s.procs| && CurOk(Do(s, e), q)
  {
    assert e.Iput? ==> !Touches(s.procs[q], e.ip);
  }

  lemma {:induction false} CurKeeps(s: Sys, e: Event, q: nat)
    requires Enabled(s, e) && !Stale(s, e) && q < |s.procs| && RootOk(s.nodes)
    requires CurOk(s, q) && ProcOk(s, q) && (e.PathStep? ==> Led(s, e) < |s.nodes|)
    ensures |Do(s, e).procs| == |s.procs| && CurOk(Do(s, e), q)
  {
    if OnPath(e) {
      CurPath(s, e, q);
    } else if OnCall(e) {
      CurCall(s, e, q);
    } else {
      CurMake(s, e, q);
    }
  }

  /** A step that makes no new inode gives away no reference to one in the making. */
  lemma {:induction false} ShelterStays(s: Sys, e: Event, q: nat, r: nat)
    requires Enabled(s, e) && q < |s.procs| && r < |s.procs| && Shelter(s, q, r)
    requires Made(Do(s, e).procs[q].pc) == Made(s.procs[q].pc) != 0 && Gained(s, e) != Made(s.procs[q].pc)
    ensures Shelter(Do(s, e), q, r)
  {
    NewRefs(s, e, Made(s.procs[q].pc));
  }

  lemma {:induction false} ShelterStarts(s: Sys, e: Event, r: nat)
    requires Tidy(s) && Enabled(s, e) && e.CreateAlloc? && r < |s.procs|
    ensures Shelter(Do(s, e), e.p, r)
  {
    if Touches(s.procs[r], e.ip) {
      ReferredLive(s, r, e.ip);
    }
  }

  lemma {:induction false} MadeBefore(s: Sys, e: Event, q: nat)
    requires Enabled(s, e) && q < |s.procs|
    ensures |Do(s, e).procs| == |s.procs|
    ensures var m := Made(Do(s, e).procs[q].pc);
            m == 0 || m == Made(s.procs[q].pc) || (e.CreateAlloc? && q == e.p)
  {
  }

  lemma {:induction false} ShelterKeeps(s: Sys, e: Event, q: nat, r: nat)
    requires Tidy(s) && Enabled(s, e) && !Stale(s, e) && q < |s.procs| && r < |s.procs|
    ensures |Do(s, e).procs| == |s.procs| && Shelter(Do(s, e), q, r)
  {
    MadeBefore(s, e, q);
    if q == e.p && e.CreateAlloc? {
      ShelterStarts(s, e, r);
    } else if Made(Do(s, e).procs[q].pc) != 0 {
      assert Shelter(s, q, r);
      GainedNotMade(s, e, q);
      ShelterStays(s, e, q, r);
    }
  }

  lemma {:induction false} NewKeepsOther(s: Sys, e: Event, q: nat)
    requires Enabled(s, e) && q < |s.procs| && q != e.p && NewOk(s, q) && Shelter(s, q, e.p) && ProcOk(s, q)
    ensures |Do(s, e).procs| == |s.procs| && NewOk(Do(s, e), q)
  {
    var m := Made(s.procs[q].pc);
    MadeBefore(s, e, q);
    if m != 0 {
      Footprint(s, e, m);
      assert e.Iput? ==> !Touches(s.procs[q], e.ip);
      assert Do(s, e).nodes[m] == s.nodes[m];
    }
  }

  lemma {:induction false} NewDots(s: Sys, e: Event)
    requires Enabled(s, e) && e.CreateDir? && NewOk(s, e.p) && ProcOk(s, e.p)
    ensures |Do(s, e).procs| == |s.procs| && NewOk(Do(s, e), e.p)
  {
    var pc := s.procs[e.p].pc;
    assert Insert([], Dirent(pc.ip, ".")) == [Dirent(pc.ip, ".")];
    assert FirstFree([Dirent(pc.ip, ".")]) == 1;
  }

  lemma {:induction false} NewStarts(s: Sys, e: Event)
    requires Enabled(s, e) && Careful(s, e) && (e.CreateAlloc? || e.CreateLock?) && NewOk(s, e.p) && RootOk(s.nodes)
    ensures |Do(s, e).procs| == |s.procs| && NewOk(Do(s, e), e.p)
  {
  }

  lemma {:induction false} NewKeepsOwn(s: Sys, e: Event)
    requires Enabled(s, e) && Careful(s, e) && NewOk(s, e.p) && ProcOk(s, e.p) && RootOk(s.nodes)
    ensures |Do(s, e).procs| == |s.procs| && NewOk(Do(s, e), e.p)
  {
    MadeBefore(s, e, e.p);
    if e.CreateDir? {
      NewDots(s, e);
    } else if e.CreateAlloc? || e.CreateLock? {
      NewStarts(s, e);
    } else if Made(Do(s, e).procs[e.p].pc) != 0 {
      assert e.Iput? && !Touches(s.procs[e.p], e.ip);
    }
  }

  /** The parent of a new entry is a finished directory. */
  lemma {:induction false} ParentDone(s: Sys, p: nat, dp: nat)
    requires Tidy(s) && p < |s.procs| && 0 < dp < |s.nodes| && s.nodes[dp].itype == Dir
    requires Refs(s.procs[p].pc, dp) && !RawBy(s.procs[p], dp)
    ensures DotsOk(s.nodes[dp].slots, dp)
  {
    assert DirOk(s, dp);
    forall q | 0 <= q < |s.procs|
      ensures !RawBy(s.procs[q], dp)
    {
      assert Shelter(s, q, p);
    }
  }

  lemma {:induction false} InsertDots(slots: seq<Dirent>, d: Dirent, i: nat)
    requires DotsOk(slots, i) && i != 0 && !Dot(d.name)
    ensures DotsOk(Insert(slots, d), i)
  {
    assert FirstFree(slots) >= 2;
  }

  /** Later steps leave a finished directory finished. */
  lemma {:induction false} DirStays(s: Sys, e: Event, i: nat)
    requires Enabled(s, e) && Careful(s, e) && 0 < i < |s.nodes| && ProcOk(s, e.p) && DotsOk(s.nodes[i].slots, i)
    requires !(e.CreateDir? && s.procs[e.p].pc.ip == i) && !(e.CreateAlloc? && e.ip == i)
    ensures |Do(s, e).nodes| == |s.nodes|
    ensures Do(s, e).nodes[i].itype != Free ==> DotsOk(Do(s, e).nodes[i].slots, i)
  {
    if Entering(e) && i == s.procs[e.p].pc.dp {
      InsertDots(s.nodes[i].slots, NewEntry(s, e), i);
    }
  }

  lemma {:induction false} DirKeeps(s: Sys, e: Event, i: nat)
    requires Tidy(s) && Enabled(s, e) && Careful(s, e) && i < |s.nodes|
    ensures |Do(s, e).nodes| == |s.nodes| && DirOk(Do(s, e), i)
  {
    var t := Do(s, e);
    Footprint(s, e, i);
    assert ProcOk(s, e.p) && NewOk(s, e.p) && DirOk(s, i);
    if e.CreateDir? && i == s.procs[e.p].pc.ip {
      NewKeepsOwn(s, e);
    } else if e.CreateAlloc? && i == e.ip {
      assert RawBy(t.procs[e.p], i);
    } else if Raw(s, i) {
      StillRaw(s, e, i);
    } else if t.nodes[i].itype == Dir {
      SameType(s, e, i);
      DirStays(s, e, i);
    }
  }

  /** An inode stops being raw when its dots are written, or it is no directory. */
  lemma {:induction false} StillRaw(s: Sys, e: Event, i: nat)
    requires Inv(s) && Enabled(s, e) && i < |s.nodes|
    requires Raw(s, i) && !(e.CreateDir? && s.procs[e.p].pc.ip == i)
    ensures |Do(s, e).nodes| == |s.nodes| && (Do(s, e).nodes[i].itype == Dir ==> Raw(Do(s, e), i))
  {
    var q :| 0 <= q < |s.procs| && RawBy(s.procs[q], i);
    assert ProcOk(s, q);
    NewRefs(s, e, i);
    assert RawBy(Do(s, e).procs[q], i) || Do(s, e).nodes[i].itype != Dir;
  }

  /** A directory with a name keeps its "..". */
  lemma {:induction false} UpStays(s: Sys, e: Event, c: nat)
    requires Tidy(s) && Enabled(s, e) && 0 < c < |s.nodes| && s.nodes[c].itype == Dir && Names(s.nodes, c) >= 1
    ensures |Do(s, e).nodes| == |s.nodes|
    ensures |s.nodes[c].slots| >= 2 && |Do(s, e).nodes[c].slots| >= 2
    ensures Do(s, e).nodes[c].slots[1] == s.nodes[c].slots[1]
  {
    assert NodeOk(s, c) && ProcOk(s, e.p) && DirOk(s, c);
    forall q | 0 <= q < |s.procs|
      ensures Made(s.procs[q].pc) != c && !RawBy(s.procs[q], c)
    {
      if Made(s.procs[q].pc) == c {
        MadeUnnamed(s, q);
      }
    }
    UpKept(s, e, c);
  }

  lemma {:induction false} UpKeptPath(s: Sys, e: Event, c: nat)
    requires Enabled(s, e) && OnPath(e) && c < |s.nodes| && DotsOk(s.nodes[c].slots, c) && c != 0
    requires ProcOk(s, e.p) && Made(s.procs[e.p].pc) != c && s.nodes[c].itype != Free && s.nodes[c].nlink >= 1
    ensures |Do(s, e).nodes| == |s.nodes|
    ensures |Do(s, e).nodes[c].slots| >= 2 && Do(s, e).nodes[c].slots[1] == s.nodes[c].slots[1]
  {
  }

  lemma {:induction false} UpKeptCall(s: Sys, e: Event, c: nat)
    requires Enabled(s, e) && OnCall(e) && c < |s.nodes| && DotsOk(s.nodes[c].slots, c) && c != 0
    requires ProcOk(s, e.p) && Made(s.procs[e.p].pc) != c && s.nodes[c].itype != Free && s.nodes[c].nlink >= 1
    ensures |Do(s, e).nodes| == |s.nodes|
    ensures |Do(s, e).nodes[c].slots| >= 2 && Do(s, e).nodes[c].slots[1] == s.nodes[c].slots[1]
  {
  }

  lemma {:induction false} UpKeptMake(s: Sys, e: Event, c: nat)
    requires Enabled(s, e) && OnMake(e) && c < |s.nodes| && DotsOk(s.nodes[c].slots, c) && c != 0
    requires ProcOk(s, e.p) && Made(s.procs[e.p].pc) != c && s.nodes[c].itype != Free && s.nodes[c].nlink >= 1
    ensures |Do(s, e).nodes| == |s.nodes|
    ensures |Do(s, e).nodes[c].slots| >= 2 && Do(s, e).nodes[c].slots[1] == s.nodes[c].slots[1]
  {
  }

  lemma {:induction false} UpKept(s: Sys, e: Event, c: nat)
    requires Enabled(s, e) && c < |s.nodes| && DotsOk(s.nodes[c].slots, c) && c != 0
    requires ProcOk(s, e.p) && Made(s.procs[e.p].pc) != c && s.nodes[c].itype != Free && s.nodes[c].nlink >= 1
    ensures |Do(s, e).nodes| == |s.nodes|
    ensures |Do(s, e).nodes[c].slots| >= 2 && Do(s, e).nodes[c].slots[1] == s.nodes[c].slots[1]
  {
    if OnPath(e) {
      UpKeptPath(s, e, c);
    } else if OnCall(e) {
      UpKeptCall(s, e, c);
    } else {
      UpKeptMake(s, e, c);
    }
  }

  /** An entry is there before the step, is a dot, or is the one the step writes. */
  predicate Before(s: Sys, e: Event, d: nat, k: nat)
    requires Enabled(s, e) && d < |s.nodes| && |Do(s, e).nodes| == |s.nodes| && k < |Do(s, e).nodes[d].slots|
  {
    var en := Do(s, e).nodes[d].slots[k];
    || en.inum == 0 || Dot(en.name)
    || (k < |s.nodes[d].slots| && s.nodes[d].slots[k] == en)
    || (Entering(e) && d == s.procs[e.p].pc.dp && en == NewEntry(s, e))
  }

  lemma {:induction false} EntryBeforePath(s: Sys, e: Event, d: nat, k: nat)
    requires Enabled(s, e) && OnPath(e) && d < |s.nodes|
    requires |Do(s, e).nodes| == |s.nodes| && k < |Do(s, e).nodes[d].slots| && ProcOk(s, e.p) && NewOk(s, e.p)
    ensures Before(s, e, d, k)
  {
  }

  lemma {:induction false} EntryBeforeCall(s: Sys, e: Event, d: nat, k: nat)
    requires Enabled(s, e) && OnCall(e) && d < |s.nodes|
    requires |Do(s, e).nodes| == |s.nodes| && k < |Do(s, e).nodes[d].slots| && ProcOk(s, e.p) && NewOk(s, e.p)
    ensures Before(s, e, d, k)
  {
  }

  lemma {:induction false} EntryBeforeMake(s: Sys, e: Event, d: nat, k: nat)
    requires Enabled(s, e) && OnMake(e) && d < |s.nodes|
    requires |Do(s, e).nodes| == |s.nodes| && k < |Do(s, e).nodes[d].slots| && ProcOk(s, e.p) && NewOk(s, e.p)
    ensures Before(s, e, d, k)
  {
  }

  lemma {:induction false} EntryBefore(s: Sys, e: Event, d: nat, k: nat)
    requires Enabled(s, e) && d < |s.nodes| && |Do(s, e).nodes| == |s.nodes| && k < |Do(s, e).nodes[d].slots|
    requires ProcOk(s, e.p) && NewOk(s, e.p)
    ensures Before(s, e, d, k)
  {
    if OnPath(e) {
      EntryBeforePath(s, e, d, k);
    } else if OnCall(e) {
      EntryBeforeCall(s, e, d, k);
    } else {
      EntryBeforeMake(s, e, d, k);
    }
  }

  lemma {:induction false} UpOld(s: Sys, e: Event, d: nat, k: nat)
    requires Tidy(s) && Enabled(s, e) && d < |s.nodes| && |Do(s, e).nodes| == |s.nodes| && k < |s.nodes[d].slots|
    requires k < |Do(s, e).nodes[d].slots| && Do(s, e).nodes[d].slots[k] == s.nodes[d].slots[k]
    ensures UpOk(Do(s, e), d, k)
  {
    var en := s.nodes[d].slots[k];
    var c := en.inum;
    if 0 < c < |s.nodes| && c != d && !Dot(en.name) && Do(s, e).nodes[c].itype == Dir {
      assert UpOk(s, d, k);
      Named(s.nodes, d, k, c);
      NamedLive(s, d, k);
      SameType(s, e, c);
      UpStays(s, e, c);
    }
  }

  lemma {:induction false} UpNew(s: Sys, e: Event, d: nat, k: nat)
    requires Enabled(s, e) && Entering(e) && ProcOk(s, e.p) && NewOk(s, e.p) && d == s.procs[e.p].pc.dp
    requires |Do(s, e).nodes| == |s.nodes| && k < |Do(s, e).nodes[d].slots| &&
             Do(s, e).nodes[d].slots[k] == NewEntry(s, e)
    ensures UpOk(Do(s, e), d, k)
  {
    EnterFacts(s, e);
    assert Do(s, e).nodes[s.procs[e.p].pc.ip].itype == Types(Do(s, e).nodes)[s.procs[e.p].pc.ip];
  }

  lemma {:induction false} UpKeeps(s: Sys, e: Event, d: nat, k: nat)
    requires Tidy(s) && Enabled(s, e) && d < |s.nodes| && |Do(s, e).nodes| == |s.nodes|
    requires k < |Do(s, e).nodes[d].slots|
    ensures UpOk(Do(s, e), d, k)
  {
    assert ProcOk(s, e.p) && NewOk(s, e.p);
    EntryBefore(s, e, d, k);
    if k < |s.nodes[d].slots| && s.nodes[d].slots[k] == Do(s, e).nodes[d].slots[k] {
      UpOld(s, e, d, k);
    } else if Entering(e) && d == s.procs[e.p].pc.dp && Do(s, e).nodes[d].slots[k] == NewEntry(s, e) {
      UpNew(s, e, d, k);
    }
  }

  lemma {:induction false} SameType(s: Sys, e: Event, c: nat)
    requires Enabled(s, e) && c < |s.nodes|
    ensures |Do(s, e).nodes| == |s.nodes|
    ensures s.nodes[c].itype != Free && Do(s, e).nodes[c].itype != Free ==> Do(s, e).nodes[c].itype == s.nodes[c].itype
    ensures s.nodes[c].itype == Free && Do(s, e).nodes[c].itype != Free ==> e.CreateAlloc? && e.ip == c
  {
  }

  lemma {:induction false} TidyDo(s: Sys, e: Event)
    requires Tidy(s) && Enabled(s, e) && Careful(s, e) && !Stale(s, e)
    ensures Tidy(Do(s, e))
  {
    var t := Do(s, e);
    InvDo(s, e);
    Footprint(s, e, 0);
    assert ProcOk(s, e.p);
    assert e.PathStep? ==> NodeOk(s, s.procs[e.p].cur);
    forall i | 0 <= i < |t.nodes|
      ensures DirOk(t, i)
    {
      DirKeeps(s, e, i);
    }
    forall q | 0 <= q < |t.procs|
      ensures NewOk(t, q) && CurOk(t, q)
    {
      assert CurOk(s, q) && ProcOk(s, q);
      CurKeeps(s, e, q);
      if q == e.p {
        assert NewOk(s, q);
        NewKeepsOwn(s, e);
      } else {
        assert NewOk(s, q) && Shelter(s, q, e.p);
        NewKeepsOther(s, e, q);
      }
    }
    forall q, r | 0 <= q < |t.procs| && 0 <= r < |t.procs|
      ensures Shelter(t, q, r)
    {
      ShelterKeeps(s, e, q, r);
    }
    forall d, k | 0 <= d < |t.nodes| && 0 <= k < |t.nodes[d].slots|
      ensures UpOk(t, d, k)
    {
      UpKeeps(s, e, d, k);
    }
  }

  // ------------------------------------------------------------ what follows

  /** In a tidy state only a full count makes a step uncareful. */
  lemma {:induction false} TidyCareful(s: Sys, e: Event)
    requires Tidy(s) && Enabled(s, e) && !Tops(s, e)
    ensures Careful(s, e)
  {
    assert ProcOk(s, e.p) && NewOk(s, e.p);
    if Entering(e) {
      EnterCareful(s, e);
    } else if e.LinkStart? {
      assert NodeOk(s, s.procs[e.p].cur);
    } else if e.CreateDir? {
      assert NodeOk(s, s.procs[e.p].pc.dp);
    }
  }

  lemma {:induction false} EnterCareful(s: Sys, e: Event)
    requires Tidy(s) && Enabled(s, e) && Entering(e) && ProcOk(s, e.p)
    ensures Careful(s, e)
  {
    var dp := s.procs[e.p].pc.dp;
    ParentDone(s, e.p, dp);
    assert s.nodes[dp].slots[0].name == "." && s.nodes[dp].slots[1].name == "..";
  }

  /** A directory that has a subdirectory is linked, and not in the making. */
  lemma {:induction false} HolderLive(s: Sys, d: nat, k: nat)
    requires Tidy(s) && d < |s.nodes| && k < |s.nodes[d].slots|
    requires var e := s.nodes[d].slots[k]; e.inum != 0 && !Dot(e.name)
    ensures s.nodes[d].itype != Free && !InMaking(s, d)
  {
    assert NodeOk(s, d);
    forall q | 0 <= q < |s.procs|
      ensures Made(s.procs[q].pc) != d
    {
      assert NewOk(s, q);
    }
  }

  lemma {:induction false} NamesWitness(nodes: seq<Node>, i: nat) returns (d: nat, k: nat)
    requires Names(nodes, i) >= 1
    ensures EntryFor(nodes, d, k, i)
  {
    if Count(Naming(i), nodes[0].slots) >= 1 {
      CountPositive(Naming(i), nodes[0].slots);
      d := 0;
      k :| 0 <= k < |nodes[0].slots| && Matches(Naming(i), nodes[0].slots[k]);
    } else {
      d, k := NamesWitness(nodes[1..], i);
      d := d + 1;
    }
  }

  lemma {:induction false} NamedDone(s: Sys, d: nat, k: nat)
    requires Tidy(s) && d < |s.nodes| && k < |s.nodes[d].slots|
    requires s.nodes[d].slots[k].inum != 0 && !Dot(s.nodes[d].slots[k].name)
    ensures !InMaking(s, s.nodes[d].slots[k].inum)
  {
    var i := s.nodes[d].slots[k].inum;
    Named(s.nodes, d, k, i);
    forall q | 0 <= q < |s.procs|
      ensures Made(s.procs[q].pc) != i
    {
      if Made(s.procs[q].pc) == i {
        MadeUnnamed(s, q);
      }
    }
  }

  /** Where ".." leads from a directory that has a name. */
  lemma {:induction false} UpLive(s: Sys, c: nat)
    requires Tidy(s) && 0 < c < |s.nodes| && s.nodes[c].itype == Dir && DotsOk(s.nodes[c].slots, c)
    requires c == ROOT || Names(s.nodes, c) >= 1
    ensures var i := s.nodes[c].slots[1].inum; i < |s.nodes| && s.nodes[i].itype != Free && !InMaking(s, i)
  {
    if c == ROOT {
      forall q | 0 <= q < |s.procs|
        ensures Made(s.procs[q].pc) != ROOT
      {
        assert NewOk(s, q);
      }
    } else {
      var d, k := NamesWitness(s.nodes, c);
      assert NodeOk(s, d) && UpOk(s, d, k);
      HolderLive(s, d, k);
    }
  }

  /** A path reaches a free or unfinished inode only through the ".." of a directory
      that has been removed. */
  lemma {:induction false} StaleAstray(s: Sys, e: Event)
    requires Tidy(s) && Enabled(s, e) && Stale(s, e)
    ensures Astray(s, e)
  {
    var c := s.procs[e.p].cur;
    var k := Lookup(s.nodes[c].slots, e.name);
    assert ProcOk(s, e.p) && DirOk(s, c);
    forall q | 0 <= q < |s.procs|
      ensures Made(s.procs[q].pc) != c && !RawBy(s.procs[q], c)
    {
      assert Shelter(s, q, e.p);
    }
    if k == 1 && (c == ROOT || Names(s.nodes, c) >= 1) {
      UpLive(s, c);
    } else if k >= 2 {
      NamedLive(s, c, k);
      NamedDone(s, c, k);
    }
  }

  // ------------------------------------------------------------ whole runs

  /** No step of the run looks up ".." in a removed directory or raises a full count. */
  predicate Straight(s: Sys, es: seq<Event>)
    requires Runs(s, es)
    decreases |es|
  {
    es == [] || (!Astray(s, es[0]) && !Tops(s, es[0]) && Straight(Do(s, es[0]), es[1..]))
  }

  lemma {:induction false} StartTidy(files: seq<string>, spare: nat, ninodes: nat, nproc: nat)
    requires Bootable(files, ninodes)
    ensures Tidy(Start(files, spare, ninodes, nproc))
  {
    var s := Start(files, spare, ninodes, nproc);
    InvStart(files, spare, ninodes, nproc);
    RootCounts(files, |files|, Naming(0));
    RootNames(files, |files|);
    forall d, k | 0 <= d < |s.nodes| && 0 <= k < |s.nodes[d].slots|
      ensures UpOk(s, d, k)
    {
    }
  }

  lemma {:induction false} RootNames(files: seq<string>, k: nat)
    requires k <= |files| && forall j :: 0 <= j < |files| ==> !Dot(files[j])
    ensures DotsOk(RootSlots(files, k), ROOT)
  {
    if k == 0 {
      assert "mnt"[0] != "."[0];
    } else {
      RootNames(files, k - 1);
    }
  }

  lemma {:induction false} StraightFrom(s: Sys, es: seq<Event>)
    requires Tidy(s) && Runs(s, es) && Straight(s, es)
    ensures CarefulRun(s, es) && Tidy(After(s, es))
    decreases |es|
  {
    if es != [] {
      TidyCareful(s, es[0]);
      if Stale(s, es[0]) {
        StaleAstray(s, es[0]);
      }
      TidyDo(s, es[0]);
      StraightFrom(Do(s, es[0]), es[1..]);
    }
  }

  /** On a fresh image, a run that never follows the ".." of a removed directory and never
      raises a full count is careful, so every count is exact throughout; and no path of
      it ever reaches a free inode. */
  lemma {:induction false} StraightExact(files: seq<string>, spare: nat, ninodes: nat, nproc: nat, es: seq<Event>)
    requires Bootable(files, ninodes) && Runs(Start(files, spare, ninodes, nproc), es)
    requires Straight(Start(files, spare, ninodes, nproc), es)
    ensures GoodRun(files, spare, ninodes, nproc, es) && ExactRun(Start(files, spare, ninodes, nproc), es)
    ensures var s := End(files, spare, ninodes, nproc, es);
            forall p :: 0 <= p < |s.procs| ==> !IlockPanics(s, p)
  {
    StartTidy(files, spare, ninodes, nproc);
    StraightFrom(Start(files, spare, ninodes, nproc), es);
    ExactExactly(files, spare, ninodes, nproc, es);
    var s := End(files, spare, ninodes, nproc, es);
    forall p | 0 <= p < |s.procs|
      ensures !IlockPanics(s, p)
    {
      assert CurOk(s, p);
    }
  }
}

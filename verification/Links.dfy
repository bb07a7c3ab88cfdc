/** Link counts (sysfile.c, fs.c): over every interleaving of path lookup, chdir, fork,
    exit, link, unlink, create and iput, started on an image mkfs wrote, an inode's count
    is exactly the directory entries that name it, the subdirectories it has and what
    calls in flight have taken or owe. */
module Links {
  import opened Common
  import opened Dirs

  const ROOT := 1

  /** nlink is a C short. */
  const NLINK_MAX := 32767

  function Short(n: int): (r: int)
    ensures -32768 <= r <= NLINK_MAX && (r - n) % 65536 == 0
    ensures -32768 <= n <= NLINK_MAX ==> r == n
  {
    (n + 32768) % 65536 - 32768
  }

  // ---------------------------------------------------------------- state

  /** lock is the holder of the inode's sleep lock. */
  datatype Node = Node(itype: IType, nlink: int, slots: seq<Dirent>, lock: Option<nat>)

  /** Where a system call is between the steps other processes can see. */
  datatype Pc =
    | Idle
    | LinkHeld(ip: nat)                            // nlink raised, no entry yet
    | LinkDir(ip: nat, dp: nat)                    // and the new parent locked
    | LinkBad(ip: nat)                             // about to take the count back
    | UnlinkAt(dp: nat, off: nat, ip: nat)         // parent locked, entry found
    | UnlinkBoth(dp: nat, off: nat, ip: nat)       // and the inode locked
    | UnlinkCleared(dp: nat, ip: nat, dir: bool)   // entry gone, counts not lowered
    | UnlinkLast(ip: nat)                          // parent done
    | CreateAt(dp: nat, name: string)              // parent locked, name absent
    | CreateGot(dp: nat, name: string, ip: nat)    // inode allocated
    | CreateNew(dp: nat, name: string, ip: nat)    // locked, nlink 1
    | CreateDots(dp: nat, name: string, ip: nat)   // a directory: parent's nlink raised, dots written

  /** cwd is the working directory, 0 for an unused process; cur is the inode a path
      lookup has reached and holds a reference to, 0 outside lookups. */
  datatype Proc = Proc(pc: Pc, cwd: nat, cur: nat)

  /** lost is what directories still held when iput truncated them. */
  datatype Sys = Sys(nodes: seq<Node>, procs: seq<Proc>, lost: seq<Dirent>)

  /** Count units on inode i that a call has taken and not yet turned into an entry,
      or owes after removing one. */
  function Pending(pc: Pc, i: nat): nat {
    match pc
    case LinkHeld(ip) => One(ip == i)
    case LinkDir(ip, _) => One(ip == i)
    case LinkBad(ip) => One(ip == i)
    case UnlinkCleared(dp, ip, dir) => One(ip == i) + One(dir && dp == i)
    case UnlinkLast(ip) => One(ip == i)
    case CreateNew(_, _, ip) => One(ip == i)
    case CreateDots(dp, _, ip) => One(ip == i) + One(dp == i)
    case _ => 0
  }

  /** The inodes a call has locked. */
  predicate Holding(pc: Pc, i: nat) {
    match pc
    case LinkDir(_, dp) => dp == i
    case UnlinkAt(dp, _, _) => dp == i
    case UnlinkBoth(dp, _, ip) => dp == i || ip == i
    case UnlinkCleared(dp, ip, _) => dp == i || ip == i
    case UnlinkLast(ip) => ip == i
    case CreateAt(dp, _) => dp == i
    case CreateGot(dp, _, _) => dp == i
    case CreateNew(dp, _, ip) => dp == i || ip == i
    case CreateDots(dp, _, ip) => dp == i || ip == i
    case _ => false
  }

  /** The inodes a call has references to. */
  predicate Refs(pc: Pc, i: nat) {
    match pc
    case Idle => false
    case LinkHeld(ip) => ip == i
    case LinkDir(ip, dp) => dp == i || ip == i
    case LinkBad(ip) => ip == i
    case UnlinkAt(dp, _, ip) => dp == i || ip == i
    case UnlinkBoth(dp, _, ip) => dp == i || ip == i
    case UnlinkCleared(dp, ip, _) => dp == i || ip == i
    case UnlinkLast(ip) => ip == i
    case CreateAt(dp, _) => dp == i
    case CreateGot(dp, _, ip) => dp == i || ip == i
    case CreateNew(dp, _, ip) => dp == i || ip == i
    case CreateDots(dp, _, ip) => dp == i || ip == i
  }

  predicate Touches(me: Proc, i: nat) { me.cwd == i || me.cur == i || Refs(me.pc, i) }

  predicate Referenced(s: Sys, i: nat) { exists q :: 0 <= q < |s.procs| && Touches(s.procs[q], i) }

  function Owed(procs: seq<Proc>, i: nat): nat {
    if procs == [] then 0 else Pending(procs[0].pc, i) + Owed(procs[1..], i)
  }

  /** Entries in all directories that name i. */
  function Names(nodes: seq<Node>, i: nat): nat {
    if nodes == [] then 0 else Count(Naming(i), nodes[0].slots) + Names(nodes[1..], i)
  }

  function Types(nodes: seq<Node>): (t: seq<IType>)
    ensures |t| == |nodes| && forall j :: 0 <= j < |nodes| ==> t[j] == nodes[j].itype
  {
    seq(|nodes|, j requires 0 <= j < |nodes| => nodes[j].itype)
  }

  /** The subdirectories of i, each of which has a ".." counted in i's nlink. */
  function Subs(nodes: seq<Node>, i: nat): nat
    requires i < |nodes|
  {
    Count(Subdirs(Types(nodes), i), nodes[i].slots)
  }

  function Claims(s: Sys, i: nat): nat
    requires i < |s.nodes|
  {
    Names(s.nodes, i) + Subs(s.nodes, i) + Owed(s.procs, i) + Count(Naming(i), s.lost)
  }

  /** The law of link counts. */
  predicate Law(s: Sys, i: nat)
    requires i < |s.nodes|
  {
    if s.nodes[i].itype == Free then Claims(s, i) == 0 else s.nodes[i].nlink == Claims(s, i)
  }

  predicate Exact(s: Sys) { forall i :: 0 <= i < |s.nodes| ==> Law(s, i) }

  // ---------------------------------------------------------------- steps

  /** p is the process that steps. */
  datatype Event =
    | PathStart(p: nat, top: bool)            // a path: from the root or from cwd
    | PathStep(p: nat, name: string)          // its next element
    | PathDrop(p: nat)                        // the path leads nowhere
    | Chdir(p: nat)
    | Fork(p: nat, parent: nat)
    | Exit(p: nat)
    | LinkStart(p: nat)                       // the old path is resolved
    | LinkParent(p: nat)                      // and the new one; parent locked
    | LinkEnter(p: nat, name: string)         // dirlink worked
    | LinkFail(p: nat)                        // no parent, other device or name taken
    | LinkUndo(p: nat)
    | UnlinkFind(p: nat, name: string)
    | UnlinkLock(p: nat)
    | UnlinkRefuse(p: nat)                    // directory not empty
    | UnlinkClear(p: nat)
    | UnlinkParent(p: nat)
    | UnlinkDone(p: nat)
    | CreateFind(p: nat, name: string)
    | CreateAlloc(p: nat, ip: nat, itype: IType)
    | CreateLock(p: nat)
    | CreateDir(p: nat)                       // parent's nlink raised, "." and ".." written
    | CreateEnter(p: nat)
    | Iput(p: nat, ip: nat)                   // last reference to an inode with no links

  // The events by system call: path lookup and what follows cwd, link and unlink, create and iput.

  predicate OnPath(e: Event) { e.PathStart? || e.PathStep? || e.PathDrop? || e.Chdir? || e.Fork? || e.Exit? }

  predicate OnMake(e: Event) {
    e.CreateFind? || e.CreateAlloc? || e.CreateLock? || e.CreateDir? || e.CreateEnter? || e.Iput?
  }

  predicate OnCall(e: Event) { !OnPath(e) && !OnMake(e) }

  /** ilock gets the inode: nobody has it, and it does not panic on a free one. */
  predicate Lockable(s: Sys, i: nat) { i < |s.nodes| && s.nodes[i].lock == None && s.nodes[i].itype != Free }

  predicate OpenDir(s: Sys, i: nat) { Lockable(s, i) && s.nodes[i].itype == Dir }

  predicate Holds(s: Sys, p: nat, i: nat) { i < |s.nodes| && s.nodes[i].lock == Some(p) }

  /** Steps the code can take; a lock is taken only when free. */
  predicate Enabled(s: Sys, e: Event) {
    e.p < |s.procs| &&
    var p, me, pc := e.p, s.procs[e.p], s.procs[e.p].pc;
    match e
    case PathStart(_, _) => (pc.Idle? || pc.LinkHeld?) && me.cwd != 0 && me.cur == 0
    case PathStep(_, name) => (pc.Idle? || pc.LinkHeld?) && OpenDir(s, me.cur) && Found(s.nodes[me.cur].slots, name)
    case PathDrop(_) => pc.Idle?
    case Chdir(_) => pc.Idle? && OpenDir(s, me.cur)
    case Fork(_, parent) => pc.Idle? && me.cwd == 0 && me.cur == 0 && parent < |s.procs|
    case Exit(_) => pc.Idle? && me.cur == 0
    case LinkStart(_) => pc.Idle? && Lockable(s, me.cur) && s.nodes[me.cur].itype == Other
    case LinkParent(_) => pc.LinkHeld? && OpenDir(s, me.cur)
    case LinkEnter(_, name) => pc.LinkDir? && Holds(s, p, pc.dp) && !Found(s.nodes[pc.dp].slots, name)
    case LinkFail(_) => pc.LinkHeld? || (pc.LinkDir? && Holds(s, p, pc.dp))
    case LinkUndo(_) => pc.LinkBad? && Lockable(s, pc.ip)
    case UnlinkFind(_, name) =>
      pc.Idle? && OpenDir(s, me.cur) && !Dot(name) && Found(s.nodes[me.cur].slots, name)
    case UnlinkLock(_) => pc.UnlinkAt? && Lockable(s, pc.ip)
    case UnlinkRefuse(_) =>
      pc.UnlinkBoth? && Holds(s, p, pc.dp) && Holds(s, p, pc.ip) && s.nodes[pc.ip].nlink >= 1 &&
      s.nodes[pc.ip].itype == Dir && !IsEmpty(s.nodes[pc.ip].slots)
    case UnlinkClear(_) =>
      pc.UnlinkBoth? && Holds(s, p, pc.dp) && Holds(s, p, pc.ip) && pc.off < |s.nodes[pc.dp].slots| &&
      s.nodes[pc.ip].nlink >= 1 && (s.nodes[pc.ip].itype == Dir ==> IsEmpty(s.nodes[pc.ip].slots))
    case UnlinkParent(_) => pc.UnlinkCleared? && Holds(s, p, pc.dp)
    case UnlinkDone(_) => pc.UnlinkLast? && Holds(s, p, pc.ip)
    case CreateFind(_, name) => pc.Idle? && OpenDir(s, me.cur) && !Found(s.nodes[me.cur].slots, name)
    case CreateAlloc(_, ip, t) => pc.CreateAt? && 0 < ip < |s.nodes| && s.nodes[ip].itype == Free && t != Free
    case CreateLock(_) => pc.CreateGot? && Lockable(s, pc.ip)
    case CreateDir(_) =>
      pc.CreateNew? && Holds(s, p, pc.dp) && Holds(s, p, pc.ip) && pc.ip != pc.dp && s.nodes[pc.ip].itype == Dir &&
      !Found(s.nodes[pc.ip].slots, ".") && !Found(s.nodes[pc.ip].slots, "..")
    case CreateEnter(_) =>
      (pc.CreateDots? || pc.CreateNew?) && Holds(s, p, pc.dp) && Holds(s, p, pc.ip) && pc.ip != pc.dp &&
      pc.CreateDots? == (s.nodes[pc.ip].itype == Dir) && !Found(s.nodes[pc.dp].slots, pc.name)
    case Iput(_, ip) => Lockable(s, ip) && s.nodes[ip].nlink == 0 && !Referenced(s, ip)
  }

  /** Inode i becomes y and process p becomes me. */
  function Set1(s: Sys, i: nat, y: Node, p: nat, me: Proc): Sys
    requires i < |s.nodes| && p < |s.procs|
  {
    s.(nodes := s.nodes[i := y], procs := s.procs[p := me])
  }

  function Go(s: Sys, p: nat, me: Proc): Sys
    requires p < |s.procs|
  {
    s.(procs := s.procs[p := me])
  }

  function Do(s: Sys, e: Event): Sys
    requires Enabled(s, e)
  {
    var p, me, pc := e.p, s.procs[e.p], s.procs[e.p].pc;
    match e
    case PathStart(_, top) => Go(s, p, me.(cur := if top then ROOT else me.cwd))
    case PathStep(_, name) =>
      var slots := s.nodes[me.cur].slots;
      Go(s, p, me.(cur := slots[Lookup(slots, name)].inum))
    case PathDrop(_) => Go(s, p, me.(cur := 0))
    case Chdir(_) => Go(s, p, me.(cwd := me.cur, cur := 0))
    case Fork(_, parent) => Go(s, p, me.(cwd := s.procs[parent].cwd))
    case Exit(_) => Go(s, p, me.(cwd := 0))
    case LinkStart(_) =>
      var y := s.nodes[me.cur];
      Set1(s, me.cur, y.(nlink := Short(y.nlink + 1)), p, me.(pc := LinkHeld(me.cur), cur := 0))
    case LinkParent(_) =>
      Set1(s, me.cur, s.nodes[me.cur].(lock := Some(p)), p, me.(pc := LinkDir(pc.ip, me.cur), cur := 0))
    case LinkEnter(_, name) =>
      var d := s.nodes[pc.dp];
      Set1(s, pc.dp, d.(slots := Insert(d.slots, Dirent(pc.ip, name)), lock := None), p, me.(pc := Idle))
    case LinkFail(_) =>
      if pc.LinkHeld? then Go(s, p, me.(pc := LinkBad(pc.ip), cur := 0))
      else Set1(s, pc.dp, s.nodes[pc.dp].(lock := None), p, me.(pc := LinkBad(pc.ip)))
    case LinkUndo(_) =>
      Set1(s, pc.ip, s.nodes[pc.ip].(nlink := Short(s.nodes[pc.ip].nlink - 1)), p, me.(pc := Idle))
    case UnlinkFind(_, name) =>
      var d := s.nodes[me.cur];
      var off := Lookup(d.slots, name);
      Set1(s, me.cur, d.(lock := Some(p)), p, me.(pc := UnlinkAt(me.cur, off, d.slots[off].inum), cur := 0))
    case UnlinkLock(_) =>
      Set1(s, pc.ip, s.nodes[pc.ip].(lock := Some(p)), p, me.(pc := UnlinkBoth(pc.dp, pc.off, pc.ip)))
    case UnlinkRefuse(_) =>
      var t := Set1(s, pc.ip, s.nodes[pc.ip].(lock := None), p, me.(pc := Idle));
      Set1(t, pc.dp, s.nodes[pc.dp].(lock := None), p, me.(pc := Idle))
    case UnlinkClear(_) =>
      var d := s.nodes[pc.dp];
      Set1(s, pc.dp, d.(slots := d.slots[pc.off := Dirent(0, "")]), p,
           me.(pc := UnlinkCleared(pc.dp, pc.ip, s.nodes[pc.ip].itype == Dir)))
    case UnlinkParent(_) =>
      var d := s.nodes[pc.dp];
      Set1(s, pc.dp, d.(nlink := if pc.dir then Short(d.nlink - 1) else d.nlink, lock := None), p,
           me.(pc := UnlinkLast(pc.ip)))
    case UnlinkDone(_) =>
      var y := s.nodes[pc.ip];
      Set1(s, pc.ip, y.(nlink := Short(y.nlink - 1), lock := None), p, me.(pc := Idle))
    case CreateFind(_, name) =>
      Set1(s, me.cur, s.nodes[me.cur].(lock := Some(p)), p, me.(pc := CreateAt(me.cur, name), cur := 0))
    case CreateAlloc(_, ip, t) => Set1(s, ip, Node(t, 0, [], None), p, me.(pc := CreateGot(pc.dp, pc.name, ip)))
    case CreateLock(_) =>
      Set1(s, pc.ip, s.nodes[pc.ip].(nlink := 1, lock := Some(p)), p, me.(pc := CreateNew(pc.dp, pc.name, pc.ip)))
    case CreateDir(_) =>
      var y, d := s.nodes[pc.ip], s.nodes[pc.dp];
      var dots := Insert(Insert(y.slots, Dirent(pc.ip, ".")), Dirent(pc.dp, ".."));
      Set1(Set1(s, pc.ip, y.(slots := dots), p, me), pc.dp, d.(nlink := Short(d.nlink + 1)), p,
           me.(pc := CreateDots(pc.dp, pc.name, pc.ip)))
    case CreateEnter(_) =>
      var y, d := s.nodes[pc.ip], s.nodes[pc.dp];
      Set1(Set1(s, pc.ip, y.(lock := None), p, me), pc.dp,
           d.(slots := Insert(d.slots, Dirent(pc.ip, pc.name)), lock := None), p, me.(pc := Idle))
    case Iput(_, ip) => Freed(s, ip)
  }

  /** iput's truncate-and-free. */
  function Freed(s: Sys, ip: nat): Sys
    requires ip < |s.nodes|
  {
    s.(nodes := s.nodes[ip := s.nodes[ip].(itype := Free, slots := [])], lost := s.lost + s.nodes[ip].slots)
  }

  /** The panic in sys_unlink, once both inodes are locked. */
  predicate UnlinkPanics(s: Sys, p: nat)
    requires p < |s.procs|
  {
    var pc := s.procs[p].pc;
    pc.UnlinkBoth? && pc.ip < |s.nodes| && s.nodes[pc.ip].nlink < 1
  }

  /** The panics in create: the dots, or the new name, are already there. */
  predicate CreatePanics(s: Sys, p: nat)
    requires p < |s.procs|
  {
    var pc := s.procs[p].pc;
    || (pc.CreateNew? && pc.ip < |s.nodes| && s.nodes[pc.ip].itype == Dir &&
        (Found(s.nodes[pc.ip].slots, ".") || Found(s.nodes[pc.ip].slots, "..")))
    || ((pc.CreateNew? || pc.CreateDots?) && pc.dp < |s.nodes| && Found(s.nodes[pc.dp].slots, pc.name))
  }

  /** The panic in ilock: a path has led to a free inode. */
  predicate IlockPanics(s: Sys, p: nat)
    requires p < |s.procs|
  {
    var i := s.procs[p].cur;
    0 < i < |s.nodes| && s.nodes[i].itype == Free
  }

  /** The step raises no count past what a short can hold, create finds the count of its
      new inode still 0 once it has the lock, and no new entry is called "." or "..". */
  predicate Careful(s: Sys, e: Event)
    requires Enabled(s, e)
  {
    var pc := s.procs[e.p].pc;
    match e
    case LinkStart(p) => s.nodes[s.procs[p].cur].nlink < NLINK_MAX
    case CreateDir(_) => s.nodes[pc.dp].nlink < NLINK_MAX
    case CreateLock(_) => s.nodes[pc.ip].nlink == 0
    case LinkEnter(_, name) => !Dot(name)
    case CreateEnter(_) => !Dot(pc.name)
    case _ => true
  }

  // ------------------------------------------------------------- invariant

  predicate Bounded(slots: seq<Dirent>, n: nat) { forall k :: 0 <= k < |slots| ==> slots[k].inum < n }

  predicate NoDots(slots: seq<Dirent>) { forall k :: 0 <= k < |slots| && slots[k].inum != 0 ==> !Dot(slots[k].name) }

  /** Only the root has an entry for itself, in its third slot. */
  predicate NoSelf(slots: seq<Dirent>, i: nat) {
    forall k :: 0 <= k < |slots| && slots[k].inum == i != 0 && !Dot(slots[k].name) ==> i == ROOT && k == 2
  }

  predicate LockOk(s: Sys, i: nat)
    requires i < |s.nodes|
  {
    var l := s.nodes[i].lock;
    l.Some? ==> l.value < |s.procs| && Holding(s.procs[l.value].pc, i)
  }

  predicate Form(s: Sys, i: nat)
    requires i < |s.nodes|
  {
    var y := s.nodes[i];
    && LockOk(s, i) && y.nlink <= NLINK_MAX && Bounded(y.slots, |s.nodes|) && NoSelf(y.slots, i)
    && (y.itype == Free ==> y.slots == [] && y.lock == None)
  }

  predicate NodeOk(s: Sys, i: nat)
    requires i < |s.nodes|
  {
    Law(s, i) && Form(s, i)
  }

  /** The three entries mkfs gives the root are there to stay. */
  predicate Head(slots: seq<Dirent>) {
    |slots| >= 3 && slots[0] == Dirent(ROOT, ".") && slots[1] == Dirent(ROOT, "..") && slots[2] == Dirent(ROOT, "mnt")
  }

  predicate RootOk(nodes: seq<Node>) {
    |nodes| > 1 && nodes[0].itype == Free && nodes[ROOT].itype == Dir && Head(nodes[ROOT].slots)
  }

  predicate Parent(s: Sys, p: nat, dp: nat) { 0 < dp && Holds(s, p, dp) && s.nodes[dp].itype == Dir }

  predicate Absent(s: Sys, dp: nat, name: string) { dp < |s.nodes| && !Found(s.nodes[dp].slots, name) }

  predicate Child(s: Sys, p: nat, ip: nat) { 0 < ip && Holds(s, p, ip) && s.nodes[ip].itype != Free }

  predicate Target(s: Sys, ip: nat) { 0 < ip < |s.nodes| && s.nodes[ip].itype == Other }

  predicate EntryAt(s: Sys, dp: nat, off: nat, ip: nat) {
    dp < |s.nodes| && off < |s.nodes[dp].slots| && s.nodes[dp].slots[off].inum == ip != 0 &&
    !Dot(s.nodes[dp].slots[off].name)
  }

  predicate Young(s: Sys, ip: nat) { 0 < ip < |s.nodes| && s.nodes[ip].itype != Free && NoDots(s.nodes[ip].slots) }

  predicate PcOk(s: Sys, p: nat, pc: Pc) {
    match pc
    case Idle => true
    case LinkHeld(ip) => Target(s, ip)
    case LinkDir(ip, dp) => Target(s, ip) && Parent(s, p, dp)
    case LinkBad(ip) => Target(s, ip)
    case UnlinkAt(dp, off, ip) => Parent(s, p, dp) && EntryAt(s, dp, off, ip)
    case UnlinkBoth(dp, off, ip) => Parent(s, p, dp) && EntryAt(s, dp, off, ip) && Child(s, p, ip) && dp != ip
    case UnlinkCleared(dp, ip, dir) =>
      Parent(s, p, dp) && Child(s, p, ip) && dp != ip && dir == (s.nodes[ip].itype == Dir)
    case UnlinkLast(ip) => Child(s, p, ip)
    case CreateAt(dp, name) => Parent(s, p, dp) && Absent(s, dp, name)
    case CreateGot(dp, name, ip) => Parent(s, p, dp) && Absent(s, dp, name) && dp != ip && Young(s, ip)
    case CreateNew(dp, name, ip) =>
      Parent(s, p, dp) && Absent(s, dp, name) && Child(s, p, ip) && dp != ip && Young(s, ip)
    case CreateDots(dp, name, ip) =>
      Parent(s, p, dp) && Absent(s, dp, name) && Child(s, p, ip) && dp != ip && s.nodes[ip].itype == Dir
  }

  predicate ProcOk(s: Sys, p: nat)
    requires p < |s.procs|
  {
    var me := s.procs[p];
    && me.cur < |s.nodes| && me.cwd < |s.nodes| && (me.cwd != 0 ==> s.nodes[me.cwd].itype == Dir)
    && PcOk(s, p, me.pc)
  }

  /** The inode create has allocated and not entered, or 0. */
  function Made(pc: Pc): nat { if pc.CreateGot? || pc.CreateNew? || pc.CreateDots? then pc.ip else 0 }

  /** No two creates make one inode. */
  predicate Apart(s: Sys, q: nat, r: nat)
    requires q < |s.procs| && r < |s.procs|
  {
    q != r && Made(s.procs[q].pc) != 0 ==> Made(s.procs[q].pc) != Made(s.procs[r].pc)
  }

  predicate Inv(s: Sys) {
    && RootOk(s.nodes)
    && (forall i :: 0 <= i < |s.nodes| ==> NodeOk(s, i))
    && (forall p :: 0 <= p < |s.procs| ==> ProcOk(s, p))
    && (forall q, r :: 0 <= q < |s.procs| && 0 <= r < |s.procs| ==> Apart(s, q, r))
  }

  // ------------------------------------------------------------------ runs

  /** The root directory mkfs writes: itself three times, then the first k files. */
  function RootSlots(files: seq<string>, k: nat): seq<Dirent>
    requires k <= |files|
  {
    if k == 0 then [Dirent(ROOT, "."), Dirent(ROOT, ".."), Dirent(ROOT, "mnt")]
    else RootSlots(files, k - 1) + [Dirent(k + 1, files[k - 1])]
  }

  /** An image with the given files, free inodes, and free slots up to the end of the
      root's last block.  The first process runs, in the root. */
  function Start(files: seq<string>, spare: nat, ninodes: nat, nproc: nat): Sys {
    Sys(seq(ninodes, i => if i == ROOT then Node(Dir, 1, RootSlots(files, |files|) + NoEntries(spare), None)
                          else if 2 <= i < |files| + 2 then Node(Other, 1, [], None)
                          else Node(Free, 0, [], None)),
        seq(nproc, p => Proc(Idle, if p == 0 then ROOT else 0, 0)), [])
  }

  function NoEntries(n: nat): seq<Dirent> { seq(n, _ => Dirent(0, "")) }

  /** mkfs has room for the files, and none of them is called "." or "..". */
  predicate Bootable(files: seq<string>, ninodes: nat) {
    |files| + 2 <= ninodes && forall k :: 0 <= k < |files| ==> !Dot(files[k])
  }

  predicate Runs(s: Sys, es: seq<Event>)
    decreases |es|
  {
    es == [] || (Enabled(s, es[0]) && Runs(Do(s, es[0]), es[1..]))
  }

  function After(s: Sys, es: seq<Event>): Sys
    requires Runs(s, es)
    decreases |es|
  {
    if es == [] then s else After(Do(s, es[0]), es[1..])
  }

  predicate CarefulRun(s: Sys, es: seq<Event>)
    requires Runs(s, es)
    decreases |es|
  {
    es == [] || (Careful(s, es[0]) && CarefulRun(Do(s, es[0]), es[1..]))
  }

  /** The law holds in every state of the run. */
  predicate ExactRun(s: Sys, es: seq<Event>)
    requires Runs(s, es)
    decreases |es|
  {
    Exact(s) && (es == [] || ExactRun(Do(s, es[0]), es[1..]))
  }
}

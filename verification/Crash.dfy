/** The file system over the log: what a crash can leave of the files.  Fs says what an
    operation does to the disk as bread shows it, Log what a crash during its commit
    makes of the disk itself; together every file is as it was before the operation, or
    every file is as the operation left it. */
module Crash {
  import opened Common
  import opened Blocks
  import opened FileBlocks
  import opened Fs
  import Log

  /** A disk that is a file system by itself: its own inodes own their blocks, each block
      once, and no file has a hole. */
  ghost predicate Sound(sb: Superblock, d: Disk, owner: map<Word, Slot>) {
    OnDisk(sb, d) && Inv(sb, d, Dinodes(sb, d), owner) && Whole(sb, d, Dinodes(sb, d))
  }

  /** What file j holds, by the disk alone. */
  function FileOn(sb: Superblock, d: Disk, j: nat): (f: seq<Byte>)
    requires OnDisk(sb, d) && j < sb.ninodes && DinodeOf(sb, d, j).size <= MAXBYTES
  {
    File(d, DinodeOf(sb, d, j))
  }

  /** With a written-through inode cache the disk says what the kernel sees. */
  lemma {:induction false} CacheIsDisk(sb: Superblock, d: Disk, inodes: seq<Inode>, owner: map<Word, Slot>)
    requires Inv(sb, d, inodes, owner) && Whole(sb, d, inodes)
    ensures inodes == Dinodes(sb, d) && Sound(sb, d, owner)
    ensures forall j :: 0 <= j < |inodes| ==> FileOn(sb, d, j) == File(d, inodes[j])
  {
  }

  /** The log region is no part of the file system. */
  lemma {:induction false} LogApart(sb: Superblock, d: Disk, e: Disk, owner: map<Word, Slot>, start: nat, size: nat)
    requires Sound(sb, d, owner) && Log.SameHome(d, e, start, size) && start + size <= sb.inodestart
    ensures Sound(sb, e, owner) && Dinodes(sb, e) == Dinodes(sb, d)
    ensures forall j :: 0 <= j < sb.ninodes ==> FileOn(sb, e, j) == FileOn(sb, d, j)
  {
    var inodes := Dinodes(sb, d);
    forall j | 0 <= j < sb.ninodes
      ensures DinodeOf(sb, e, j) == DinodeOf(sb, d, j)
    {
    }
    assert Dinodes(sb, e) == inodes;
    forall b | 0 <= b < sb.size
      ensures Used(sb, e, b) == Used(sb, d, b)
    {
    }
    forall a | a in owner
      ensures a < sb.size && Used(sb, e, a) && e[a] == d[a]
    {
      assert OwnerOk(sb, d, inodes, owner, a);
    }
    InvFrame(sb, d, e, inodes, owner);
    FilesFrame(sb, d, e, inodes, owner);
    forall j | 0 <= j < sb.ninodes
      ensures FileOn(sb, e, j) == FileOn(sb, d, j) && Filled(e, inodes[j])
    {
      assert Filled(d, inodes[j]);
      assert Grows(d, inodes, e, inodes);
      MappedGrows(d, inodes, e, inodes, j, 0, inodes[j].size);
      SameBlocksFile(d, inodes, e, inodes, j);
    }
  }

  /** Crash safety of the file system.  d is the disk before a commit and v what the
      pending transaction makes of it.  If both are sound, then so is every disk that
      recovery can end with, after a crash at any of the commit's block writes and any
      crashes inside recovery; and it holds every file of d, or every file of v. */
  lemma {:induction false} CrashKeepsFiles(sb: Superblock, d: Disk, start: nat, size: nat, blocks: seq<Word>,
        cache: map<Word, Block>, k: nat, chain: seq<Disk>, before: map<Word, Slot>, after: map<Word, Slot>)
    requires Log.HeaderOk(d, start, size) && Log.Entries(d[start]) == [] && start + size <= sb.inodestart
    requires Log.Loggable(d, start, size, blocks) && (forall b :: b in cache <==> b in blocks)
    requires k <= 2 * |blocks| + 2 && Log.CrashChain(chain, start, size)
    requires chain[0] == Log.CommitAt(d, start, size, blocks, Log.Pinned(cache, blocks), k)
    requires Sound(sb, d, before) && Sound(sb, Log.Overlay(d, cache), after)
    ensures var r := Log.Recovered(chain[|chain| - 1], start, size);
            var then' := if k <= |blocks| then d else Log.Overlay(d, cache);
            && Sound(sb, r, if k <= |blocks| then before else after)
            && forall j :: 0 <= j < sb.ninodes ==> FileOn(sb, r, j) == FileOn(sb, then', j)
  {
    var r := Log.Recovered(chain[|chain| - 1], start, size);
    Log.CommitPointHome(d, start, size, blocks, cache, k);
    Log.CrashChainStable(chain, start, size);
    if k <= |blocks| {
      LogApart(sb, d, r, before, start, size);
    } else {
      LogApart(sb, Log.Overlay(d, cache), r, after, start, size);
    }
  }

  /** The same for one writei: d, p are the disk and the cached inodes before it, cache
      and q what it leaves pending.  After any crash its file is untouched or wholly
      written, and every other file is untouched. */
  lemma {:induction false} WriteSurvives(sb: Superblock, d: Disk, p: seq<Inode>, start: nat, size: nat,
        blocks: seq<Word>, cache: map<Word, Block>, q: seq<Inode>, k: nat, chain: seq<Disk>,
        before: map<Word, Slot>, after: map<Word, Slot>, i: nat, off: nat, src: seq<Byte>)
    requires Log.HeaderOk(d, start, size) && Log.Entries(d[start]) == [] && start + size <= sb.inodestart
    requires Log.Loggable(d, start, size, blocks) && (forall b :: b in cache <==> b in blocks)
    requires k <= 2 * |blocks| + 2 && Log.CrashChain(chain, start, size)
    requires chain[0] == Log.CommitAt(d, start, size, blocks, Log.Pinned(cache, blocks), k)
    requires Inv(sb, d, p, before) && Whole(sb, d, p) && i < |p|
    requires var v := Log.Overlay(d, cache);
             && Inv(sb, v, q, after) && Whole(sb, v, q) && SameBlocks(d, p, v, q, i)
             && q == p[i := p[i].(addrs := q[i].addrs, size := q[i].size)] && off <= p[i].size
             && File(v, q[i]) == Splice(File(d, p[i]), off, src)
    ensures var r := Log.Recovered(chain[|chain| - 1], start, size);
            && Sound(sb, r, if k <= |blocks| then before else after)
            && FileOn(sb, r, i) == (if k <= |blocks| then File(d, p[i]) else Splice(File(d, p[i]), off, src))
            && forall j :: 0 <= j < sb.ninodes && j != i ==> FileOn(sb, r, j) == File(d, p[j])
  {
    var v := Log.Overlay(d, cache);
    CacheIsDisk(sb, d, p, before);
    CacheIsDisk(sb, v, q, after);
    CrashKeepsFiles(sb, d, start, size, blocks, cache, k, chain, before, after);
    forall j | 0 <= j < sb.ninodes && j != i
      ensures FileOn(sb, v, j) == File(d, p[j])
    {
      OtherFile(d, p, v, q, i, j);
    }
  }

  // ------------------------------------------------- a write as one transaction

  /** r is a file system by itself, with the files of v. */
  ghost predicate HasFilesOf(sb: Superblock, r: Disk, v: Disk, owner: map<Word, Slot>) {
    && Sound(sb, r, owner) && Sound(sb, v, owner)
    && forall j :: 0 <= j < sb.ninodes ==> FileOn(sb, r, j) == FileOn(sb, v, j)
  }

  /** A crash that leaves disk c, and any crashes in recovery after it, end with the files
      of v. */
  ghost predicate CrashesTo(sb: Superblock, c: Disk, v: Disk, owner: map<Word, Slot>, start: nat, size: nat) {
    forall chain :: Log.CrashChain(chain, start, size) && chain[0] == c ==>
      HasFilesOf(sb, Log.Recovered(chain[|chain| - 1], start, size), v, owner)
  }

  lemma {:induction false} RecoversTo(sb: Superblock, c: Disk, v: Disk, owner: map<Word, Slot>, start: nat, size: nat)
    requires Sound(sb, v, owner) && start + size <= sb.inodestart
    requires Log.HeaderOk(c, start, size) && Log.SameHome(v, Log.Recovered(c, start, size), start, size)
    ensures CrashesTo(sb, c, v, owner, start, size)
  {
    forall chain | Log.CrashChain(chain, start, size) && chain[0] == c
      ensures HasFilesOf(sb, Log.Recovered(chain[|chain| - 1], start, size), v, owner)
    {
      Log.CrashChainStable(chain, start, size);
      LogApart(sb, v, Log.Recovered(chain[|chain| - 1], start, size), owner, start, size);
    }
  }

  /** The file system's disk is what the log shows of it, and every inode is written
      through. */
  ghost predicate Coupled(fs: FileSystem, log: Log.RedoLog)
    reads fs, log
  {
    && fs.Valid() && Whole(fs.sb, fs.disk, fs.inodes)
    && log.Valid() && log.start + log.size <= fs.sb.inodestart
    && Log.SameHome(fs.disk, log.View(), log.start, log.size)
  }

  /** Part-way through handing the blocks of a transaction to the log. */
  ghost predicate Handed(base: Disk, d: Disk, done: set<nat>, v: Disk, start: nat, size: nat) {
    && |v| == |d| == |base|
    && forall b :: 0 <= b < |d| && !(start <= b < start + size) ==> v[b] == if b in done then d[b] else base[b]
  }

  lemma {:induction false} HandedMore(base: Disk, d: Disk, done: set<nat>, v: Disk, start: nat, size: nat, b: nat)
    requires Handed(base, d, done, v, start, size) && b < |d|
    ensures Handed(base, d, done + {b}, v[b := d[b]], start, size)
  {
  }

  lemma {:induction false} SplitSizes(all: set<nat>, todo: set<nat>, done: set<nat>, b: nat)
    requires todo + done == all && todo * done == {} && b in todo
    ensures (todo - {b}) + (done + {b}) == all && (todo - {b}) * (done + {b}) == {}
    ensures |done| < |all| && |done + {b}| == |done| + 1
  {
    assert |all| == |todo| + |done|;
  }

  /** log_write of one block the operation has changed. */
  method LogOne(fs: FileSystem, log: Log.RedoLog, b: nat, ghost done: set<nat>) returns (panic: bool)
    requires OnDisk(fs.sb, fs.disk) && log.Valid() && log.outstanding >= 1
    requires log.start + log.size <= fs.sb.inodestart <= b < |fs.disk|
    requires Handed(fs.base, fs.disk, done, log.View(), log.start, log.size)
    modifies log`lh, log`cache
    ensures panic ==> |old(log.lh)| >= Min(Log.LOGSIZE, log.size - 1)
    ensures !panic ==>
              && log.Valid() && |log.lh| <= |old(log.lh)| + 1
              && Handed(fs.base, fs.disk, done + {b}, log.View(), log.start, log.size)
  {
    HandedMore(fs.base, fs.disk, done, log.View(), log.start, log.size, b);
    assert |log.View()| == |log.disk|;
    panic := log.LogWrite(b, fs.disk[b]);
  }

  /** log_write of every block the operation has changed. */
  method LogAll(fs: FileSystem, log: Log.RedoLog) returns (panic: bool)
    requires OnDisk(fs.sb, fs.disk) && fs.Tracked() && log.start + log.size <= fs.sb.inodestart
    requires log.Valid() && log.outstanding >= 1
    requires Log.SameHome(fs.base, log.View(), log.start, log.size)
    modifies log`lh, log`cache
    ensures !panic ==> log.Valid() && Log.SameHome(fs.disk, log.View(), log.start, log.size)
    ensures panic ==> |old(log.lh)| + |fs.logged| > Min(Log.LOGSIZE, log.size - 1)
  {
    var todo := fs.logged;
    ghost var done: set<nat> := {};
    while todo != {}
      invariant todo + done == fs.logged && todo * done == {} && log.Valid()
      invariant |log.lh| <= |old(log.lh)| + |done|
      invariant Handed(fs.base, fs.disk, done, log.View(), log.start, log.size)
      decreases |todo|
    {
      var b :| b in todo;
      SplitSizes(fs.logged, todo, done, b);
      panic := LogOne(fs, log, b, done);
      if panic {
        return;
      }
      todo, done := todo - {b}, done + {b};
    }
    assert done == fs.logged;
    panic := false;
  }

  /** File i has src written at off, and no other file has changed. */
  ghost predicate OneSpliced(d: Disk, p: seq<Inode>, e: Disk, q: seq<Inode>, i: nat, off: nat, src: seq<Byte>) {
    && i < |p| == |q| && (forall j :: 0 <= j < |p| ==> p[j].size <= MAXBYTES && q[j].size <= MAXBYTES)
    && off <= p[i].size && File(e, q[i]) == Splice(File(d, p[i]), off, src)
    && forall j :: 0 <= j < |p| && j != i ==> File(e, q[j]) == File(d, p[j])
  }

  lemma {:induction false} WriteSplices(sb: Superblock, d: Disk, p: seq<Inode>, e: Disk, q: seq<Inode>,
        before: map<Word, Slot>, after: map<Word, Slot>, i: nat, off: nat, src: seq<Byte>)
    requires Inv(sb, d, p, before) && Inv(sb, e, q, after) && SameBlocks(d, p, e, q, i) && i < |p| == |q|
    requires q == p[i := p[i].(addrs := q[i].addrs, size := q[i].size)] && off <= p[i].size
    requires File(e, q[i]) == Splice(File(d, p[i]), off, src)
    ensures OneSpliced(d, p, e, q, i, off, src)
  {
    forall j | 0 <= j < |p| && j != i
      ensures File(e, q[j]) == File(d, p[j])
    {
      OtherFile(d, p, e, q, i, j);
    }
  }

  /** writei as one transaction, up to its end_op. */
  method Perform(fs: FileSystem, log: Log.RedoLog, i: nat, src: seq<Byte>, off: Word) returns (r: Outcome)
    requires Coupled(fs, log) && log.outstanding >= 1 && i < |fs.inodes| && |src| < U32
    modifies fs, log`lh, log`cache
    ensures r == Panicked ==>
              NoSpace(fs.sb, fs.disk) ||
              |old(log.lh)| + 2 * Span(off, |src|) + 3 > Min(Log.LOGSIZE, log.size - 1)
    ensures r != Panicked ==> Coupled(fs, log)
    ensures r == Failed || r == Device ==> fs.disk == old(fs.disk) && fs.inodes == old(fs.inodes)
    ensures r.Count? ==> OneSpliced(old(fs.disk), old(fs.inodes), fs.disk, fs.inodes, i, off, src)
  {
    fs.Begin();
    r := fs.Writei(i, src, off);
    if r == Panicked {
      return;
    }
    if r.Count? {
      WriteSplices(fs.sb, old(fs.disk), old(fs.inodes), fs.disk, fs.inodes, old(fs.owner), fs.owner, i, off, src);
    }
    var panic := LogAll(fs, log);
    if panic {
      assert fs.logged - {} == fs.logged;
      r := Panicked;
    }
  }

  /** What crashes after each of the disks in t end with: the files of d for the first n,
      then those of v. */
  ghost predicate TraceTo(sb: Superblock, t: seq<Disk>, n: nat, d: Disk, before: map<Word, Slot>, v: Disk,
                          after: map<Word, Slot>, start: nat, size: nat)
  {
    forall m :: 0 <= m < |t| ==>
      if m < n then CrashesTo(sb, t[m], d, before, start, size) else CrashesTo(sb, t[m], v, after, start, size)
  }

  lemma {:induction false} TraceRecovers(sb: Superblock, t: seq<Disk>, n: nat, d: Disk, before: map<Word, Slot>,
        v: Disk, view: Disk, after: map<Word, Slot>, start: nat, size: nat)
    requires Log.CrashSafe(t, n, d, view, start, size) && Log.SameHome(v, view, start, size)
    requires Sound(sb, d, before) && Sound(sb, v, after) && start + size <= sb.inodestart
    ensures TraceTo(sb, t, n, d, before, v, after, start, size)
  {
    forall m | 0 <= m < |t|
      ensures if m < n then CrashesTo(sb, t[m], d, before, start, size) else CrashesTo(sb, t[m], v, after, start, size)
    {
      if m < n {
        RecoversTo(sb, t[m], d, before, start, size);
      } else {
        RecoversTo(sb, t[m], v, after, start, size);
      }
    }
  }

  /** end_op, and what a crash inside it leaves. */
  method Finish(fs: FileSystem, log: Log.RedoLog, ghost w: seq<Disk>, ghost n: nat, ghost d: Disk,
        ghost owner0: map<Word, Slot>)
    requires Coupled(fs, log) && log.outstanding >= 1 && Sound(fs.sb, d, owner0)
    requires log.writes == w && |log.lh| == n && log.disk == d
    modifies log
    ensures Coupled(fs, log) && log.outstanding == old(log.outstanding) - 1
    ensures Sound(fs.sb, log.disk, if log.outstanding > 0 then owner0 else fs.owner)
    ensures w <= log.writes
    ensures TraceTo(fs.sb, log.writes[|w|..], n, d, owner0, fs.disk, fs.owner, log.start, log.size)
  {
    CacheIsDisk(fs.sb, fs.disk, fs.inodes, fs.owner);
    ghost var view := log.View();
    log.EndOp();
    TraceRecovers(fs.sb, log.writes[|w|..], n, d, owner0, fs.disk, view, fs.owner, log.start, log.size);
    if log.outstanding == 0 {
      LogApart(fs.sb, fs.disk, log.disk, fs.owner, log.start, log.size);
    }
  }

  /** A write between begin_op and end_op.  log.disk holds the last commit, whose files
      owner0 accounts for; fs.disk is what the kernel sees.  An accepted write splices its
      file and changes no other; and if the machine crashes after any of the block writes
      this makes, every file is as in the last commit, or every file is as the write left
      it. */
  method WriteOp(fs: FileSystem, log: Log.RedoLog, i: nat, src: seq<Byte>, off: Word, ghost owner0: map<Word, Slot>)
      returns (ok: bool, r: Outcome, ghost n: nat)
    requires Coupled(fs, log) && Sound(fs.sb, log.disk, owner0) && i < |fs.inodes| && |src| < U32
    modifies fs, log
    ensures ok <==> Log.Admits(|old(log.lh)|, old(log.outstanding), false)
    ensures ok && r == Panicked ==>
              NoSpace(fs.sb, fs.disk) ||
              |old(log.lh)| + 2 * Span(off, |src|) + 3 > Min(Log.LOGSIZE, log.size - 1)
    ensures ok && r != Panicked ==>
              && Coupled(fs, log) && log.outstanding == old(log.outstanding)
              && Sound(fs.sb, log.disk, if log.outstanding > 0 then owner0 else fs.owner)
              && old(log.writes) <= log.writes
              && TraceTo(fs.sb, log.writes[|old(log.writes)|..], n, old(log.disk), owner0,
                         fs.disk, fs.owner, log.start, log.size)
    ensures ok && r.Count? ==> OneSpliced(old(fs.disk), old(fs.inodes), fs.disk, fs.inodes, i, off, src)
    ensures !ok || r == Failed || r == Device ==> fs.disk == old(fs.disk) && fs.inodes == old(fs.inodes)
  {
    ghost var w, d := log.writes, log.disk;
    ok := log.TryBegin();
    r, n := Panicked, 0;
    if ok {
      r := Perform(fs, log, i, src, off);
      if r != Panicked {
        n := |log.lh|;
        Finish(fs, log, w, n, d, owner0);
      }
    }
  }
}

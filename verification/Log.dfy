/** The write-ahead redo log (log.c): the on-disk header, commit, recovery, and
    what a crash after any number of block writes leaves behind. */
module Log {
  import opened Blocks

  const MAXOPBLOCKS := 10
  const LOGSIZE := 30   // MAXOPBLOCKS * 3

  // ---------------------------------------------------------------- header

  /** A header block after `write_head` has stored n and the first k entries;
      words past the entries keep what the block held before. */
  function PutEntries(b: Block, blocks: seq<Word>, k: nat): (r: Block)
    requires k <= |blocks| <= LOGSIZE
  {
    if k == 0 then SetWord(b, 0, |blocks|)
    else SetWord(PutEntries(b, blocks, k - 1), k, blocks[k - 1])
  }

  /** The block numbers `read_head` takes from a header block. */
  function Entries(b: Block): (blocks: seq<Word>)
    requires GetWord(b, 0) <= LOGSIZE
  {
    seq(GetWord(b, 0), i requires 0 <= i < GetWord(b, 0) => GetWord(b, i + 1))
  }

  lemma {:induction false} PutEntriesWords(b: Block, blocks: seq<Word>, k: nat, j: nat)
    requires k <= |blocks| <= LOGSIZE && j < WORDS
    ensures GetWord(PutEntries(b, blocks, k), j) ==
            if j == 0 then |blocks| else if j <= k then blocks[j - 1] else GetWord(b, j)
  {
    if k == 0 {
      GetSetWord(b, 0, |blocks|, j);
    } else {
      PutEntriesWords(b, blocks, k - 1, j);
      GetSetWord(PutEntries(b, blocks, k - 1), k, blocks[k - 1], j);
    }
  }

  /** read_head after write_head gives back the same list. */
  lemma {:induction false} HeaderRoundTrip(b: Block, blocks: seq<Word>)
    requires |blocks| <= LOGSIZE
    ensures GetWord(PutEntries(b, blocks, |blocks|), 0) == |blocks|
    ensures Entries(PutEntries(b, blocks, |blocks|)) == blocks
  {
    forall j: nat | j <= LOGSIZE
      ensures GetWord(PutEntries(b, blocks, |blocks|), j) ==
              if j == 0 then |blocks| else if j <= |blocks| then blocks[j - 1] else GetWord(b, j)
    {
      PutEntriesWords(b, blocks, |blocks|, j);
    }
  }

  // ------------------------------------------------- disks during a commit

  /** A list of home blocks that fits the log region [start, start + size). */
  ghost predicate Loggable(d: Disk, start: nat, size: nat, blocks: seq<Word>) {
    && start + size <= |d|
    && |blocks| <= LOGSIZE && |blocks| < size
    && (forall i :: 0 <= i < |blocks| ==> blocks[i] < |d| && !(start <= blocks[i] < start + size))
    && (forall i, j :: 0 <= i < j < |blocks| ==> blocks[i] != blocks[j])
  }

  /** The disk's header lists a loggable set of blocks. */
  ghost predicate HeaderOk(d: Disk, start: nat, size: nat) {
    && start + size <= |d| && 0 < size
    && GetWord(d[start], 0) <= LOGSIZE
    && Loggable(d, start, size, Entries(d[start]))
  }

  /** The disk after `write_head` with this list. */
  function WithHead(d: Disk, start: nat, blocks: seq<Word>): (r: Disk)
    requires start < |d| && |blocks| <= LOGSIZE
  {
    d[start := PutEntries(d[start], blocks, |blocks|)]
  }

  /** The disk after k writes of `write_log`. */
  function LogAt(d: Disk, start: nat, data: seq<Block>, k: nat): (r: Disk)
    requires k <= |data| && start + k < |d|
    ensures |r| == |d|
  {
    if k == 0 then d else LogAt(d, start, data, k - 1)[start + k := data[k - 1]]
  }

  /** The disk after k writes of `install_trans`. */
  function InstallAt(d: Disk, start: nat, blocks: seq<Word>, k: nat): (r: Disk)
    requires k <= |blocks| && start + k < |d|
    requires forall i :: 0 <= i < |blocks| ==> blocks[i] < |d|
    ensures |r| == |d|
  {
    if k == 0 then d
    else
      var p := InstallAt(d, start, blocks, k - 1);
      p[blocks[k - 1] := p[start + k]]
  }

  /** The disk after the first k block writes of `commit`: n log blocks, the
      header, n home blocks, the cleared header. */
  function CommitAt(d: Disk, start: nat, ghost size: nat, blocks: seq<Word>, data: seq<Block>, k: nat): (r: Disk)
    requires Loggable(d, start, size, blocks) && |data| == |blocks|
    requires k <= 2 * |blocks| + 2
  {
    var n := |blocks|;
    if k <= n then LogAt(d, start, data, k)
    else
      var h := WithHead(LogAt(d, start, data, n), start, blocks);
      if k <= 2 * n + 1 then InstallAt(h, start, blocks, k - n - 1)
      else WithHead(InstallAt(h, start, blocks, n), start, [])
  }

  /** The disk after the first k block writes of `recover_from_log`. */
  function RecoveryAt(d: Disk, start: nat, ghost size: nat, k: nat): (r: Disk)
    requires HeaderOk(d, start, size)
    requires k <= |Entries(d[start])| + 1
  {
    var blocks := Entries(d[start]);
    if k <= |blocks| then InstallAt(d, start, blocks, k)
    else WithHead(InstallAt(d, start, blocks, |blocks|), start, [])
  }

  /** The disk once `recover_from_log` has run to its end. */
  function Recovered(d: Disk, start: nat, ghost size: nat): (r: Disk)
    requires HeaderOk(d, start, size)
  {
    RecoveryAt(d, start, size, |Entries(d[start])| + 1)
  }

  // The same disks in order, one per block write.

  function LogTrace(d: Disk, start: nat, data: seq<Block>, k: nat): (t: seq<Disk>)
    requires k <= |data| && start + k < |d|
    ensures |t| == k
  {
    if k == 0 then [] else LogTrace(d, start, data, k - 1) + [LogAt(d, start, data, k)]
  }

  function InstallTrace(d: Disk, start: nat, blocks: seq<Word>, k: nat): (t: seq<Disk>)
    requires k <= |blocks| && start + k < |d|
    requires forall i :: 0 <= i < |blocks| ==> blocks[i] < |d|
    ensures |t| == k
  {
    if k == 0 then [] else InstallTrace(d, start, blocks, k - 1) + [InstallAt(d, start, blocks, k)]
  }

  function RecoveryTrace(d: Disk, start: nat, ghost size: nat): (t: seq<Disk>)
    requires HeaderOk(d, start, size)
  {
    var blocks := Entries(d[start]);
    InstallTrace(d, start, blocks, |blocks|) + [WithHead(InstallAt(d, start, blocks, |blocks|), start, [])]
  }

  function CommitTrace(d: Disk, start: nat, ghost size: nat, blocks: seq<Word>, data: seq<Block>): (t: seq<Disk>)
    requires Loggable(d, start, size, blocks) && |data| == |blocks|
  {
    var n := |blocks|;
    var h := WithHead(LogAt(d, start, data, n), start, blocks);
    LogTrace(d, start, data, n) + [h] + InstallTrace(h, start, blocks, n) +
    [WithHead(InstallAt(h, start, blocks, n), start, [])]
  }

  lemma {:induction false} LogTraceIndex(d: Disk, start: nat, data: seq<Block>, k: nat, i: nat)
    requires i < k <= |data| && start + k < |d|
    ensures LogTrace(d, start, data, k)[i] == LogAt(d, start, data, i + 1)
  {
    if i < k - 1 {
      LogTraceIndex(d, start, data, k - 1, i);
    }
  }

  lemma {:induction false} InstallTraceIndex(d: Disk, start: nat, blocks: seq<Word>, k: nat, i: nat)
    requires i < k <= |blocks| && start + k < |d|
    requires forall i :: 0 <= i < |blocks| ==> blocks[i] < |d|
    ensures InstallTrace(d, start, blocks, k)[i] == InstallAt(d, start, blocks, i + 1)
  {
    if i < k - 1 {
      InstallTraceIndex(d, start, blocks, k - 1, i);
    }
  }

  /** The k-th disk of the commit's trace is CommitAt after k + 1 writes. */
  lemma {:induction false} CommitTraceIndex(d: Disk, start: nat, size: nat, blocks: seq<Word>, data: seq<Block>, i: nat)
    requires Loggable(d, start, size, blocks) && |data| == |blocks|
    requires i < 2 * |blocks| + 2
    ensures |CommitTrace(d, start, size, blocks, data)| == 2 * |blocks| + 2
    ensures CommitTrace(d, start, size, blocks, data)[i] == CommitAt(d, start, size, blocks, data, i + 1)
  {
    var n := |blocks|;
    var h := WithHead(LogAt(d, start, data, n), start, blocks);
    if i < n {
      LogTraceIndex(d, start, data, n, i);
    } else if n < i < 2 * n + 1 {
      InstallTraceIndex(h, start, blocks, n, i - n - 1);
    }
  }

  lemma {:induction false} RecoveryTraceIndex(d: Disk, start: nat, size: nat, i: nat)
    requires HeaderOk(d, start, size) && i <= |Entries(d[start])|
    ensures |RecoveryTrace(d, start, size)| == |Entries(d[start])| + 1
    ensures RecoveryTrace(d, start, size)[i] == RecoveryAt(d, start, size, i + 1)
  {
    var blocks := Entries(d[start]);
    if i < |blocks| {
      InstallTraceIndex(d, start, blocks, |blocks|, i);
    }
  }

  // ------------------------------------------------------- crash atomicity

  /** Two disks agree on every block outside the log region. */
  ghost predicate SameHome(d: Disk, e: Disk, start: nat, size: nat) {
    && |d| == |e|
    && forall b :: 0 <= b < |d| && !(start <= b < start + size) ==> d[b] == e[b]
  }

  /** e is d with each listed home block replaced by its logged contents and
      every other block outside the log region as it was. */
  ghost predicate Updated(d: Disk, e: Disk, start: nat, size: nat, blocks: seq<Word>, data: seq<Block>)
    requires |data| == |blocks|
  {
    && |d| == |e|
    && (forall i :: 0 <= i < |blocks| ==> blocks[i] < |d| && e[blocks[i]] == data[i])
    && (forall b :: 0 <= b < |d| && b !in blocks && !(start <= b < start + size) ==> e[b] == d[b])
  }

  lemma {:induction false} LogAtChar(d: Disk, start: nat, data: seq<Block>, k: nat)
    requires k <= |data| && start + k < |d|
    ensures forall i :: 0 <= i < k ==> LogAt(d, start, data, k)[start + 1 + i] == data[i]
    ensures forall b :: 0 <= b < |d| && !(start < b <= start + k) ==> LogAt(d, start, data, k)[b] == d[b]
  {
    if k > 0 {
      LogAtChar(d, start, data, k - 1);
    }
  }

  lemma {:induction false} InstallAtChar(d: Disk, start: nat, size: nat, blocks: seq<Word>, k: nat)
    requires Loggable(d, start, size, blocks) && k <= |blocks|
    ensures forall i :: 0 <= i < k ==> InstallAt(d, start, blocks, k)[blocks[i]] == d[start + 1 + i]
    ensures forall b :: 0 <= b < |d| && b !in blocks[..k] ==> InstallAt(d, start, blocks, k)[b] == d[b]
  {
    if k > 0 {
      InstallAtChar(d, start, size, blocks, k - 1);
      var p, a := InstallAt(d, start, blocks, k - 1), blocks[k - 1];
      assert start + k !in blocks[..k - 1];
      InstallOne(d, p, start, blocks, k);
      assert InstallAt(d, start, blocks, k) == p[a := p[start + k]];
    }
  }

  /** One more block is copied home. */
  lemma {:induction false} InstallOne(d: Disk, p: Disk, start: nat, blocks: seq<Word>, k: nat)
    requires 0 < k <= |blocks| && start + k < |d| == |p| && p[start + k] == d[start + k]
    requires forall i :: 0 <= i < k ==> blocks[i] < |d|
    requires forall i :: 0 <= i < k - 1 ==> blocks[i] != blocks[k - 1]
    requires forall i :: 0 <= i < k - 1 ==> p[blocks[i]] == d[start + 1 + i]
    requires forall b :: 0 <= b < |d| && b !in blocks[..k - 1] ==> p[b] == d[b]
    ensures var r := p[blocks[k - 1] := p[start + k]];
            && (forall i :: 0 <= i < k ==> r[blocks[i]] == d[start + 1 + i])
            && forall b :: 0 <= b < |d| && b !in blocks[..k] ==> r[b] == d[b]
  {
    assert blocks[..k] == blocks[..k - 1] + [blocks[k - 1]];
  }

  /** Installing never writes into the log region. */
  lemma {:induction false} InstallKeepsLog(d: Disk, start: nat, size: nat, blocks: seq<Word>, k: nat)
    requires Loggable(d, start, size, blocks) && k <= |blocks|
    ensures forall b :: start <= b < start + size ==> InstallAt(d, start, blocks, k)[b] == d[b]
  {
    InstallAtChar(d, start, size, blocks, k);
    forall b | start <= b < start + size
      ensures b !in blocks[..k]
    {
    }
  }

  /** A header write is one block: afterwards the list reads back, and nothing else moved. */
  lemma {:induction false} WithHeadOk(d: Disk, start: nat, size: nat, blocks: seq<Word>)
    requires Loggable(d, start, size, blocks) && 0 < size
    ensures HeaderOk(WithHead(d, start, blocks), start, size)
    ensures Entries(WithHead(d, start, blocks)[start]) == blocks
  {
    HeaderRoundTrip(d[start], blocks);
  }

  /** What recovery leaves: every listed home block holds its log block, every
      other block but the header is untouched, and the log is empty. */
  lemma {:induction false} RecoveredChar(d: Disk, start: nat, size: nat)
    requires HeaderOk(d, start, size)
    ensures var r, blocks := Recovered(d, start, size), Entries(d[start]);
            && |r| == |d|
            && (forall i :: 0 <= i < |blocks| ==> r[blocks[i]] == d[start + 1 + i])
            && (forall b :: 0 <= b < |d| && b != start && b !in blocks ==> r[b] == d[b])
            && HeaderOk(r, start, size) && Entries(r[start]) == []
  {
    var blocks := Entries(d[start]);
    InstallAtChar(d, start, size, blocks, |blocks|);
    assert blocks[..|blocks|] == blocks;
    WithHeadOk(InstallAt(d, start, blocks, |blocks|), start, size, []);
  }

  /** A crash during recovery changes nothing: recovering from the disk left
      after any k of recovery's writes ends where recovery itself would have ended. */
  lemma {:induction false} RecoveryIdempotent(d: Disk, start: nat, size: nat, k: nat)
    requires HeaderOk(d, start, size) && k <= |Entries(d[start])| + 1
    ensures HeaderOk(RecoveryAt(d, start, size, k), start, size)
    ensures SameHome(Recovered(RecoveryAt(d, start, size, k), start, size), Recovered(d, start, size), start, size)
  {
    var c, blocks := RecoveryAt(d, start, size, k), Entries(d[start]);
    RecoveredChar(d, start, size);
    if k <= |blocks| {
      InstallKeepsLog(d, start, size, blocks, k);
      InstallAtChar(d, start, size, blocks, k);
    }
    RecoveredChar(c, start, size);
  }

  /** Each disk of the chain is what a crash somewhere inside recovery of the
      previous one left behind. */
  ghost predicate CrashChain(chain: seq<Disk>, start: nat, size: nat) {
    && |chain| > 0
    && (forall i :: 0 <= i < |chain| ==> HeaderOk(chain[i], start, size))
    && (forall i :: 0 < i < |chain| ==> CrashedInRecovery(chain[i - 1], chain[i], start, size))
  }

  ghost predicate CrashedInRecovery(d: Disk, c: Disk, start: nat, size: nat)
    requires HeaderOk(d, start, size)
  {
    exists k: nat :: k <= |Entries(d[start])| + 1 && c == RecoveryAt(d, start, size, k)
  }

  /** However many times recovery itself crashes, the recovery that completes
      gives the same home blocks as if the first had. */
  lemma {:induction false} CrashChainStable(chain: seq<Disk>, start: nat, size: nat)
    requires CrashChain(chain, start, size)
    ensures SameHome(Recovered(chain[|chain| - 1], start, size), Recovered(chain[0], start, size), start, size)
  {
    if |chain| > 1 {
      var front := chain[..|chain| - 1];
      CrashChainStable(front, start, size);
      var d := front[|front| - 1];
      var k: nat :| k <= |Entries(d[start])| + 1 && chain[|chain| - 1] == RecoveryAt(d, start, size, k);
      RecoveryIdempotent(d, start, size, k);
    }
  }

  /** The disk right after the commit's header write. */
  lemma {:induction false} AfterHeader(d: Disk, start: nat, size: nat, blocks: seq<Word>, data: seq<Block>)
    requires HeaderOk(d, start, size)
    requires Loggable(d, start, size, blocks) && |data| == |blocks|
    ensures var h := CommitAt(d, start, size, blocks, data, |blocks| + 1);
            && HeaderOk(h, start, size) && Entries(h[start]) == blocks
            && Updated(d, Recovered(h, start, size), start, size, blocks, data)
  {
    LogAtChar(d, start, data, |blocks|);
    var l := LogAt(d, start, data, |blocks|);
    WithHeadOk(l, start, size, blocks);
    RecoveredChar(WithHead(l, start, blocks), start, size);
  }

  /** The disks before it: the log region has changed, and recovery ignores it. */
  lemma {:induction false} BeforeHeader(d: Disk, start: nat, size: nat, blocks: seq<Word>, data: seq<Block>, k: nat)
    requires HeaderOk(d, start, size) && Entries(d[start]) == []
    requires Loggable(d, start, size, blocks) && |data| == |blocks| && k <= |blocks|
    ensures var c := LogAt(d, start, data, k);
            HeaderOk(c, start, size) && SameHome(d, Recovered(c, start, size), start, size)
  {
    LogAtChar(d, start, data, k);
    RecoveredChar(LogAt(d, start, data, k), start, size);
  }

  lemma {:induction false} UpdatedTransfers(d: Disk, e: Disk, f: Disk, start: nat, size: nat, blocks: seq<Word>,
        data: seq<Block>)
    requires Loggable(d, start, size, blocks) && |data| == |blocks|
    requires Updated(d, e, start, size, blocks, data) && SameHome(f, e, start, size)
    ensures Updated(d, f, start, size, blocks, data)
  {
  }

  /** A crash after any k of the writes of a commit that starts from an empty
      log leaves a recoverable disk. */
  lemma {:induction false} CommitPointRecovers(d: Disk, start: nat, size: nat, blocks: seq<Word>, data: seq<Block>,
        k: nat)
    requires HeaderOk(d, start, size) && Entries(d[start]) == []
    requires Loggable(d, start, size, blocks) && |data| == |blocks|
    requires k <= 2 * |blocks| + 2
    ensures var c := CommitAt(d, start, size, blocks, data, k);
            && HeaderOk(c, start, size)
            && (k <= |blocks| ==> SameHome(d, Recovered(c, start, size), start, size))
            && (k > |blocks| ==> Updated(d, Recovered(c, start, size), start, size, blocks, data))
  {
    var n, c := |blocks|, CommitAt(d, start, size, blocks, data, k);
    if k <= n {
      BeforeHeader(d, start, size, blocks, data, k);
    } else {
      AfterHeader(d, start, size, blocks, data);
      var h := CommitAt(d, start, size, blocks, data, n + 1);
      assert c == RecoveryAt(h, start, size, k - n - 1);
      RecoveryIdempotent(h, start, size, k - n - 1);
      UpdatedTransfers(d, Recovered(h, start, size), Recovered(c, start, size), start, size, blocks, data);
    }
  }

  /** Crash atomicity.  Start from an empty on-disk log, commit a transaction,
      crash after any k block writes, then crash any number of times inside
      recovery.  The recovery that completes leaves all home blocks old, or all
      of them new; new exactly when the first header write (write n + 1) was done. */
  lemma {:induction false} CrashAtomicity(d: Disk, start: nat, size: nat, blocks: seq<Word>, data: seq<Block>, k: nat,
                       chain: seq<Disk>)
    requires HeaderOk(d, start, size) && Entries(d[start]) == []
    requires Loggable(d, start, size, blocks) && |data| == |blocks|
    requires k <= 2 * |blocks| + 2
    requires CrashChain(chain, start, size) && chain[0] == CommitAt(d, start, size, blocks, data, k)
    ensures var r := Recovered(chain[|chain| - 1], start, size);
            if k <= |blocks| then SameHome(d, r, start, size)
            else Updated(d, r, start, size, blocks, data)
  {
    CommitPointRecovers(d, start, size, blocks, data, k);
    CrashChainStable(chain, start, size);
    var r, r0 := Recovered(chain[|chain| - 1], start, size), Recovered(chain[0], start, size);
    if k > |blocks| {
      UpdatedTransfers(d, r0, r, start, size, blocks, data);
    }
  }

  // ------------------------------------------------------------ the kernel

  /** begin_op admits another operation only when every outstanding one could
      still log MAXOPBLOCKS blocks. */
  predicate Admits(n: nat, outstanding: nat, committing: bool) {
    !committing && n + (outstanding + 1) * MAXOPBLOCKS <= LOGSIZE
  }

  /** log_write's two panics. */
  predicate LogWritePanics(n: nat, outstanding: nat, size: nat) {
    n >= LOGSIZE || n >= size - 1 || outstanding < 1
  }

  /** The header list after log_write of block b: absorbed if already there. */
  function Absorb(lh: seq<Word>, b: Word): (r: seq<Word>) {
    if b in lh then lh else lh + [b]
  }

  /** Block contents as bread gives them: pinned buffers over the disk. */
  ghost function Overlay(d: Disk, cache: map<Word, Block>): (v: Disk) {
    seq(|d|, b requires 0 <= b < |d| => if b in cache then cache[b] else d[b])
  }

  ghost function Pinned(cache: map<Word, Block>, lh: seq<Word>): (data: seq<Block>)
    requires forall i :: 0 <= i < |lh| ==> lh[i] in cache
  {
    seq(|lh|, i requires 0 <= i < |lh| => cache[lh[i]])
  }

  /** log_write's scan for a block already in the transaction. */
  method Find(lh: seq<Word>, b: Word) returns (i: nat)
    ensures if b in lh then i < |lh| && lh[i] == b && b !in lh[..i] else i == |lh|
  {
    i := 0;
    while i < |lh| && lh[i] != b
      invariant 0 <= i <= |lh| && b !in lh[..i]
    {
      i := i + 1;
    }
    assert i == |lh| ==> lh[..i] == lh;
  }

  /** The last two stages of recover_from_log: the disk and the trace of its writes. */
  lemma {:induction false} RecoveryEnds(d: Disk, start: nat, size: nat, w: seq<Disk>)
    requires HeaderOk(d, start, size)
    ensures var blocks := Entries(d[start]);
            var h := InstallAt(d, start, blocks, |blocks|);
            var e := WithHead(h, start, []);
            && |h| == |d| && e == Recovered(d, start, size)
            && HeaderOk(e, start, size) && Entries(e[start]) == [] && Loggable(e, start, size, [])
            && w + InstallTrace(d, start, blocks, |blocks|) + [e] == w + RecoveryTrace(d, start, size)
  {
    RecoveredChar(d, start, size);
  }

  /** The stages of a commit: the disk at its end and the trace of its writes. */
  lemma {:induction false} CommitDone(d: Disk, start: nat, size: nat, blocks: seq<Word>, cache: map<Word, Block>,
        w: seq<Disk>)
    requires HeaderOk(d, start, size) && Entries(d[start]) == []
    requires Loggable(d, start, size, blocks) && (forall b :: b in cache <==> b in blocks)
    ensures var n, data := |blocks|, Pinned(cache, blocks);
            var h := WithHead(LogAt(d, start, data, n), start, blocks);
            var e := WithHead(InstallAt(h, start, blocks, n), start, []);
            && |h| == |d| && HeaderOk(e, start, size) && Entries(e[start]) == []
            && SameHome(Overlay(d, cache), e, start, size)
            && w + (LogTrace(d, start, data, n) + [h]) + InstallTrace(h, start, blocks, n) + [e] ==
               w + CommitTrace(d, start, size, blocks, data)
  {
    var n, data := |blocks|, Pinned(cache, blocks);
    var h := WithHead(LogAt(d, start, data, n), start, blocks);
    var e := WithHead(InstallAt(h, start, blocks, n), start, []);
    CommitEnds(d, start, size, blocks, data);
    UpdatedIsOverlay(d, e, start, size, blocks, cache);
    ConcatAssoc(w, LogTrace(d, start, data, n) + [h], InstallTrace(h, start, blocks, n), [e]);
  }

  /** `struct log`, the disk under it, and the B_DIRTY buffers it pins. */
  class RedoLog {
    const start: nat
    const size: nat
    var disk: Disk
    var cache: map<Word, Block>   // contents of the pinned, not yet installed blocks
    var lh: seq<Word>             // log.lh.block[0 .. log.lh.n]
    var outstanding: nat
    var committing: bool
    ghost var writes: seq<Disk>   // the disk after each block write so far

    /** Between operations and commits: the on-disk log is empty and the pinned
        buffers are exactly the blocks of the pending transaction. */
    ghost predicate Valid()
      reads this
    {
      && HeaderOk(disk, start, size) && Entries(disk[start]) == []
      && Loggable(disk, start, size, lh)
      && (forall b :: b in cache <==> b in lh)
      && !committing
      && (outstanding == 0 ==> lh == [])
    }

    ghost function View(): (v: Disk)
      reads this
    {
      Overlay(disk, cache)
    }

    ghost function Data(): (data: seq<Block>)
      requires forall i :: 0 <= i < |lh| ==> lh[i] in cache
      reads this
    {
      Pinned(cache, lh)
    }

    /** initlog: bring up the log on a disk a crash may have left in any
        recoverable state. */
    constructor (d: Disk, start: nat, size: nat)
      requires HeaderOk(d, start, size)
      ensures this.start == start && this.size == size
      ensures Valid() && disk == Recovered(d, start, size) && lh == [] && outstanding == 0
      ensures writes == RecoveryTrace(d, start, size)
    {
      this.start, this.size := start, size;
      disk, cache, lh, outstanding, committing, writes := d, map[], [], 0, false, [];
      new;
      Recover();
    }

    /** bwrite: one atomic block write. */
    method Write(b: nat, data: Block)
      requires b < |disk|
      modifies this`disk, this`writes
      ensures disk == old(disk)[b := data] && writes == old(writes) + [disk]
    {
      disk := disk[b := data];
      writes := writes + [disk];
    }

    /** write_head */
    method WriteHead()
      requires start < |disk| && |lh| <= LOGSIZE
      modifies this`disk, this`writes
      ensures disk == WithHead(old(disk), start, lh) && writes == old(writes) + [disk]
    {
      var hb := SetWord(disk[start], 0, |lh|);
      var i := 0;
      while i < |lh|
        invariant 0 <= i <= |lh|
        invariant hb == PutEntries(disk[start], lh, i)
      {
        hb := SetWord(hb, i + 1, lh[i]);
        i := i + 1;
      }
      Write(start, hb);
    }

    /** read_head */
    method ReadHead()
      requires HeaderOk(disk, start, size)
      modifies this`lh
      ensures lh == Entries(disk[start])
    {
      var n := GetWord(disk[start], 0);
      lh := [];
      var i := 0;
      while i < n
        invariant 0 <= i <= n && lh == Entries(disk[start])[..i]
      {
        lh := lh + [GetWord(disk[start], i + 1)];
        i := i + 1;
      }
    }

    /** write_log: copy the pinned blocks into the log. */
    method WriteLog()
      requires Loggable(disk, start, size, lh)
      requires forall i :: 0 <= i < |lh| ==> lh[i] in cache
      modifies this`disk, this`writes
      ensures disk == LogAt(old(disk), start, Data(), |lh|)
      ensures writes == old(writes) + LogTrace(old(disk), start, Data(), |lh|)
    {
      var tail := 0;
      while tail < |lh|
        invariant 0 <= tail <= |lh|
        invariant disk == LogAt(old(disk), start, Data(), tail)
        invariant writes == old(writes) + LogTrace(old(disk), start, Data(), tail)
      {
        Write(start + tail + 1, cache[lh[tail]]);
        tail := tail + 1;
      }
    }

    /** install_trans: copy the log blocks home; each bwrite unpins its buffer. */
    method InstallTrans()
      requires Loggable(disk, start, size, lh)
      modifies this`disk, this`writes, this`cache
      ensures disk == InstallAt(old(disk), start, lh, |lh|)
      ensures forall b :: b in cache <==> b in old(cache) && b !in lh
      ensures writes == old(writes) + InstallTrace(old(disk), start, lh, |lh|)
    {
      var tail := 0;
      while tail < |lh|
        invariant 0 <= tail <= |lh|
        invariant disk == InstallAt(old(disk), start, lh, tail)
        invariant forall b :: b in cache <==> b in old(cache) && b !in lh[..tail]
        invariant writes == old(writes) + InstallTrace(old(disk), start, lh, tail)
      {
        Write(lh[tail], disk[start + tail + 1]);
        cache := cache - {lh[tail]};
        tail := tail + 1;
      }
      assert lh[..|lh|] == lh;
    }

    /** The end of both commit and recover_from_log: install_trans, then erase the
        transaction from the log. */
    method InstallAndClear()
      requires Loggable(disk, start, size, lh)
      modifies this`disk, this`writes, this`cache, this`lh
      ensures lh == [] && disk == WithHead(InstallAt(old(disk), start, old(lh), |old(lh)|), start, [])
      ensures forall b :: b in cache <==> b in old(cache) && b !in old(lh)
      ensures writes == old(writes) + InstallTrace(old(disk), start, old(lh), |old(lh)|) + [disk]
    {
      InstallTrans();
      lh := [];
      WriteHead();
    }

    /** recover_from_log */
    method Recover()
      requires HeaderOk(disk, start, size) && cache == map[] && lh == [] && !committing
      modifies this`disk, this`writes, this`cache, this`lh
      ensures disk == Recovered(old(disk), start, size)
      ensures Valid() && lh == []
      ensures writes == old(writes) + RecoveryTrace(old(disk), start, size)
    {
      ghost var d, w := disk, writes;
      ReadHead();
      RecoveryEnds(d, start, size, w);
      InstallAndClear();
      assert cache.Keys == {};
    }

    /** commit: the disk after its k-th write is CommitAt(.., k), and at the
        end the home blocks hold the pending view. */
    method Commit()
      requires HeaderOk(disk, start, size) && Entries(disk[start]) == []
      requires Loggable(disk, start, size, lh) && (forall b :: b in cache <==> b in lh)
      modifies this`disk, this`writes, this`cache, this`lh
      ensures HeaderOk(disk, start, size) && Entries(disk[start]) == []
      ensures lh == [] && cache == map[]
      ensures SameHome(old(View()), disk, start, size)
      ensures writes == old(writes) +
                if old(lh) == [] then [] else CommitTrace(old(disk), start, size, old(lh), old(Data()))
    {
      if |lh| > 0 {
        CommitDone(disk, start, size, lh, cache, writes);
        LogTransaction();
        InstallAndClear();
        assert cache.Keys == {};
      }
    }

    /** commit's first two steps: write_log, then the write_head that makes the
        transaction durable. */
    method LogTransaction()
      requires 0 < size && Loggable(disk, start, size, lh)
      requires forall i :: 0 <= i < |lh| ==> lh[i] in cache
      modifies this`disk, this`writes
      ensures disk == WithHead(LogAt(old(disk), start, Data(), |lh|), start, lh)
      ensures Loggable(disk, start, size, lh)
      ensures writes == old(writes) + (LogTrace(old(disk), start, Data(), |lh|) + [disk])
    {
      WriteLog();
      WriteHead();
    }

    /** One pass of begin_op's loop: false means the caller sleeps. */
    method TryBegin() returns (ok: bool)
      modifies this`outstanding
      ensures old(Valid()) ==> Valid()
      ensures ok <==> Admits(|lh|, old(outstanding), committing)
      ensures outstanding == old(outstanding) + if ok then 1 else 0
    {
      if committing {
        ok := false;
      } else if |lh| + (outstanding + 1) * MAXOPBLOCKS > LOGSIZE {
        ok := false;
      } else {
        outstanding := outstanding + 1;
        ok := true;
      }
    }

    /** log_write of a modified buffer.  The caller's new contents become what
        every later bread sees; the disk does not change. */
    method LogWrite(b: Word, data: Block) returns (panic: bool)
      requires Valid() && b < |disk| && !(start <= b < start + size)
      modifies this`lh, this`cache
      ensures panic <==> LogWritePanics(old(|lh|), outstanding, size)
      ensures panic ==> lh == old(lh) && cache == old(cache)
      ensures !panic ==> Valid() && View() == old(View())[b := data] && lh == Absorb(old(lh), b)
    {
      if |lh| >= LOGSIZE || |lh| >= size - 1 {
        return true;
      }
      if outstanding < 1 {
        return true;
      }
      LogWriteKeeps(disk, start, size, cache, lh, b, data);
      var i := Find(lh, b);
      if i == |lh| {
        lh := lh + [b];
      } else {
        lh := lh[i := b];
        assert lh == old(lh);
      }
      cache := cache[b := data];
      assert lh == Absorb(old(lh), b);
      return false;
    }

    /** end_op.  When the last outstanding operation ends the pending view is
        committed; a crash after any of the writes this makes recovers to the
        home blocks as they were before, or to the whole pending view, which no
        unfinished operation has touched. */
    method EndOp()
      requires Valid() && outstanding >= 1
      modifies this
      ensures Valid() && outstanding == old(outstanding) - 1
      ensures SameHome(old(View()), View(), start, size)
      ensures outstanding > 0 ==> disk == old(disk) && lh == old(lh) && cache == old(cache) && writes == old(writes)
      ensures outstanding == 0 ==> lh == [] && cache == map[] && SameHome(old(View()), disk, start, size)
      ensures old(writes) <= writes
      ensures CrashSafe(writes[|old(writes)|..], |old(lh)|, old(disk), old(View()), start, size)
    {
      outstanding := outstanding - 1;
      if outstanding == 0 {
        committing := true;
        ghost var d, blocks, pinned, w := disk, lh, cache, writes;
        Commit();
        committing := false;
        CommitTraceSafe(d, start, size, blocks, pinned);
        assert writes[|w|..] == if blocks == [] then []
               else CommitTrace(d, start, size, blocks, Pinned(pinned, blocks));
      }
    }
  }

  lemma {:induction false} ConcatAssoc<T>(a: seq<T>, b: seq<T>, c: seq<T>, e: seq<T>)
    ensures a + b + c + e == a + (b + c + e)
  {
  }

  /** Recovering any of the disks in t gives the home blocks of d for the first
      n of them, and those of v from then on. */
  ghost predicate CrashSafe(t: seq<Disk>, n: nat, d: Disk, v: Disk, start: nat, size: nat) {
    forall i :: 0 <= i < |t| ==>
      HeaderOk(t[i], start, size) && SameHome(if i < n then d else v, Recovered(t[i], start, size), start, size)
  }

  lemma {:induction false} CommitTraceSafe(d: Disk, start: nat, size: nat, blocks: seq<Word>, cache: map<Word, Block>)
    requires HeaderOk(d, start, size) && Entries(d[start]) == []
    requires Loggable(d, start, size, blocks) && (forall b :: b in cache <==> b in blocks)
    ensures CrashSafe(CommitTrace(d, start, size, blocks, Pinned(cache, blocks)), |blocks|, d, Overlay(d, cache),
                      start, size)
  {
    var t := CommitTrace(d, start, size, blocks, Pinned(cache, blocks));
    forall i | 0 <= i < |t|
      ensures HeaderOk(t[i], start, size)
      ensures SameHome(if i < |blocks| then d else Overlay(d, cache), Recovered(t[i], start, size), start, size)
    {
      CommitTraceIndex(d, start, size, blocks, Pinned(cache, blocks), i);
      CommitPointHome(d, start, size, blocks, cache, i + 1);
    }
  }

  /** CommitPointRecovers in terms of the pending view. */
  lemma {:induction false} CommitPointHome(d: Disk, start: nat, size: nat, blocks: seq<Word>, cache: map<Word, Block>,
        k: nat)
    requires HeaderOk(d, start, size) && Entries(d[start]) == []
    requires Loggable(d, start, size, blocks) && (forall b :: b in cache <==> b in blocks)
    requires k <= 2 * |blocks| + 2
    ensures var c := CommitAt(d, start, size, blocks, Pinned(cache, blocks), k);
            && HeaderOk(c, start, size)
            && SameHome(if k <= |blocks| then d else Overlay(d, cache), Recovered(c, start, size), start, size)
  {
    var data := Pinned(cache, blocks);
    CommitPointRecovers(d, start, size, blocks, data, k);
    if k > |blocks| {
      var c := CommitAt(d, start, size, blocks, data, k);
      UpdatedIsOverlay(d, Recovered(c, start, size), start, size, blocks, cache);
    }
  }

  /** A log_write that does not panic keeps the transaction loggable and its
      blocks pinned, and changes the view at that block alone. */
  lemma {:induction false} LogWriteKeeps(d: Disk, start: nat, size: nat, cache: map<Word, Block>, lh: seq<Word>,
        b: Word, data: Block)
    requires Loggable(d, start, size, lh) && !LogWritePanics(|lh|, 1, size)
    requires forall x :: x in cache <==> x in lh
    requires b < |d| && !(start <= b < start + size)
    ensures Loggable(d, start, size, Absorb(lh, b))
    ensures forall x :: x in cache[b := data] <==> x in Absorb(lh, b)
    ensures Overlay(d, cache[b := data]) == Overlay(d, cache)[b := data]
  {
  }

  /** Updating the listed home blocks with the pinned contents gives the pending view. */
  lemma {:induction false} UpdatedIsOverlay(d: Disk, e: Disk, start: nat, size: nat, blocks: seq<Word>,
        cache: map<Word, Block>)
    requires forall b :: b in cache <==> b in blocks
    requires Updated(d, e, start, size, blocks, Pinned(cache, blocks))
    ensures SameHome(Overlay(d, cache), e, start, size)
  {
    forall b | 0 <= b < |d| && !(start <= b < start + size)
      ensures Overlay(d, cache)[b] == e[b]
    {
      if b in cache {
        var i :| 0 <= i < |blocks| && blocks[i] == b;
      }
    }
  }

  /** A commit that runs to its end has updated exactly its home blocks and
      left the log empty. */
  lemma {:induction false} CommitEnds(d: Disk, start: nat, size: nat, blocks: seq<Word>, data: seq<Block>)
    requires HeaderOk(d, start, size) && Entries(d[start]) == []
    requires Loggable(d, start, size, blocks) && |data| == |blocks|
    ensures var c := CommitAt(d, start, size, blocks, data, 2 * |blocks| + 2);
            && Updated(d, c, start, size, blocks, data)
            && HeaderOk(c, start, size) && Entries(c[start]) == []
  {
    AfterHeader(d, start, size, blocks, data);
    var h := CommitAt(d, start, size, blocks, data, |blocks| + 1);
    assert CommitAt(d, start, size, blocks, data, 2 * |blocks| + 2) == Recovered(h, start, size);
    RecoveredChar(h, start, size);
  }
}

/** The block tree of the ext2 file system (ext2fs.c): truncation of up to three
    levels of indirection, and which file blocks a write can reach. */
module Ext2 {
  import opened Common
  import opened Blocks

  const NDIR := 12       // EXT2_NDIR_BLOCKS
  const NADDRS := 15     // EXT2_N_BLOCKS: direct, then one tree per level 1, 2, 3

  // ---------------------------------------------------------------- the tree

  /** EXT2_INDIRECT, the number of addresses an indirect block holds. */
  function Fanout(b: Block): (n: nat)
    ensures n == WORDS
  {
    |b| / 4
  }

  /** The blocks of a tree of this many indirection levels, children before the
      block that names them. */
  function Order(d: Disk, level: nat, a: Word): (r: seq<Word>)
    decreases level, WORDS + 1
  {
    if a == 0 then []
    else if level == 0 || |d| <= a then [a]
    else Entries(d, level - 1, a, Fanout(d[a])) + [a]
  }

  /** The same for the first k entries of block a. */
  function Entries(d: Disk, level: nat, a: Word, k: nat): (r: seq<Word>)
    requires k <= WORDS && a < |d|
    decreases level + 1, k
  {
    if k == 0 then [] else Entries(d, level, a, k - 1) + Order(d, level, GetWord(d[a], k - 1))
  }

  ghost predicate Distinct(s: seq<Word>) {
    forall i, j :: 0 <= i < j < |s| ==> s[i] != s[j]
  }

  /** A tree that uses no block twice and stays on the disk. */
  ghost predicate WellFormed(d: Disk, level: nat, a: Word) {
    Distinct(Order(d, level, a)) && forall x :: x in Order(d, level, a) ==> x < |d|
  }

  ghost predicate AllZero(b: Block) {
    forall j :: 0 <= j < WORDS ==> GetWord(b, j) == 0
  }

  /** Every indirect block of the tree that d0 holds is all zeroes in d. */
  ghost predicate Zeroed(d0: Disk, d: Disk, level: nat, a: Word)
    requires |d0| == |d|
    decreases level
  {
    level > 0 && 0 < a < |d0| ==>
      AllZero(d[a]) && forall j :: 0 <= j < WORDS ==> Zeroed(d0, d, level - 1, GetWord(d0[a], j))
  }

  ghost predicate Agree(d: Disk, e: Disk, s: seq<Word>) {
    |d| == |e| && forall x :: x in s && x < |d| ==> d[x] == e[x]
  }

  /** The order depends only on the blocks in it. */
  lemma {:induction false} OrderFrame(d: Disk, e: Disk, level: nat, a: Word)
    requires Agree(d, e, Order(d, level, a))
    ensures Order(e, level, a) == Order(d, level, a)
    decreases level, WORDS + 1
  {
    if a != 0 && level > 0 && a < |d| {
      EntriesFrame(d, e, level - 1, a, WORDS);
    }
  }

  lemma {:induction false} EntriesFrame(d: Disk, e: Disk, level: nat, a: Word, k: nat)
    requires k <= WORDS && a < |d| == |e| && d[a] == e[a] && Agree(d, e, Entries(d, level, a, k))
    ensures Entries(e, level, a, k) == Entries(d, level, a, k)
    decreases level + 1, k
  {
    if k > 0 {
      EntriesFrame(d, e, level, a, k - 1);
      OrderFrame(d, e, level, GetWord(d[a], k - 1));
    }
  }

  /** Agreement on a tree is agreement on its root and on each subtree. */
  lemma {:induction false} SubAgree(d: Disk, e: Disk, t: Disk, level: nat, a: Word, j: nat)
    requires |t| == |d| && 0 < level && 0 < a < |t| && j < WORDS && Agree(d, e, Order(t, level, a))
    ensures d[a] == e[a] && Agree(d, e, Order(t, level - 1, GetWord(t[a], j)))
  {
    var whole := Order(t, level, a);
    EntryInside(t, level - 1, a, WORDS, j);
    assert whole[|whole| - 1] == a;
  }

  lemma {:induction false} ZeroedFrame(d0: Disk, d: Disk, e: Disk, level: nat, a: Word)
    requires |d0| == |d| && Zeroed(d0, d, level, a) && Agree(d, e, Order(d0, level, a))
    ensures Zeroed(d0, e, level, a)
    decreases level
  {
    if level > 0 && 0 < a < |d0| {
      forall j | 0 <= j < WORDS
        ensures Zeroed(d0, e, level - 1, GetWord(d0[a], j))
      {
        SubAgree(d, e, d0, level, a, j);
        ZeroedFrame(d0, d, e, level - 1, GetWord(d0[a], j));
      }
    }
  }

  /** The subtree of entry j is a contiguous part of the order, before the block
      that names it. */
  lemma {:induction false} EntryInside(d: Disk, level: nat, a: Word, k: nat, j: nat)
    requires k <= WORDS && a < |d| && j < k
    ensures exists pre, post :: Entries(d, level, a, k) == pre + Order(d, level, GetWord(d[a], j)) + post
    ensures forall x :: x in Order(d, level, GetWord(d[a], j)) ==> x in Entries(d, level, a, k)
  {
    var t := Order(d, level, GetWord(d[a], j));
    if j == k - 1 {
      assert Entries(d, level, a, k) == Entries(d, level, a, k - 1) + t + [];
    } else {
      EntryInside(d, level, a, k - 1, j);
      var pre, post :| Entries(d, level, a, k - 1) == pre + t + post;
      var last := Order(d, level, GetWord(d[a], k - 1));
      assert Entries(d, level, a, k) == pre + t + (post + last);
    }
  }

  /** Zeroed speaks of the tree as it was; any disk that holds the same tree will do. */
  lemma {:induction false} ZeroedBase(d0: Disk, d1: Disk, d: Disk, level: nat, a: Word)
    requires |d0| == |d1| == |d| && Agree(d0, d1, Order(d0, level, a)) && Zeroed(d1, d, level, a)
    ensures Zeroed(d0, d, level, a)
    decreases level
  {
    if level > 0 && 0 < a < |d0| {
      forall j | 0 <= j < WORDS
        ensures Zeroed(d0, d, level - 1, GetWord(d0[a], j))
      {
        SubAgree(d0, d1, d0, level, a, j);
        ZeroedBase(d0, d1, d, level - 1, GetWord(d0[a], j));
      }
    }
  }

  lemma {:induction false} EntriesPrefix(d: Disk, level: nat, a: Word, k: nat)
    requires k <= WORDS && a < |d|
    ensures Entries(d, level, a, k) <= Entries(d, level, a, WORDS)
    decreases WORDS - k
  {
    if k < WORDS {
      EntriesPrefix(d, level, a, k + 1);
    }
  }

  /** In a well-formed tree entry k's subtree is well-formed and shares nothing
      with the earlier entries or with the block naming it. */
  lemma {:induction false} EntryApart(d: Disk, level: nat, a: Word, k: nat)
    requires 0 < a && k < WORDS && WellFormed(d, level + 1, a)
    ensures a < |d|
    ensures var t := Order(d, level, GetWord(d[a], k));
            && WellFormed(d, level, GetWord(d[a], k)) && a !in t && a !in Entries(d, level, a, k)
            && forall x :: x in t ==> x !in Entries(d, level, a, k)
  {
    var whole := Order(d, level + 1, a);
    assert whole[|whole| - 1] == a && a in whole;
    EntriesPrefix(d, level, a, k + 1);
    PrefixApart(Entries(d, level, a, k), Order(d, level, GetWord(d[a], k)), whole, a);
  }

  lemma {:induction false} PrefixApart(pre: seq<Word>, t: seq<Word>, whole: seq<Word>, a: Word)
    requires Distinct(whole) && |pre| + |t| < |whole| && pre + t == whole[..|pre| + |t|] && whole[|whole| - 1] == a
    ensures Distinct(t) && a !in t && a !in pre
    ensures forall x :: x in t ==> x !in pre && x in whole
  {
    Apart(pre, t, whole);
    assert forall i :: 0 <= i < |pre| ==> pre[i] == whole[i];
    assert forall i :: 0 <= i < |t| ==> t[i] == whole[|pre| + i];
  }

  lemma {:induction false} Apart(pre: seq<Word>, t: seq<Word>, whole: seq<Word>)
    requires Distinct(whole) && pre + t <= whole
    ensures Distinct(t)
    ensures forall x :: x in t ==> x !in pre && x in whole
  {
    assert forall i :: 0 <= i < |pre| ==> pre[i] == whole[i];
    assert forall i :: 0 <= i < |t| ==> t[i] == whole[|pre| + i];
  }

  // --------------------------------------------------------------- the inode

  /** Indirection levels under address slot i. */
  function LevelOf(i: nat): nat { if i < NDIR then 0 else i - NDIR + 1 }

  /** The order in which itrunc frees the first k slots of an inode. */
  function SlotsOrder(d: Disk, addrs: seq<Word>, k: nat): (r: seq<Word>)
    requires k <= |addrs|
  {
    if k == 0 then [] else SlotsOrder(d, addrs, k - 1) + Order(d, LevelOf(k - 1), addrs[k - 1])
  }

  ghost predicate InodeWellFormed(d: Disk, addrs: seq<Word>)
    requires |addrs| == NADDRS
  {
    Distinct(SlotsOrder(d, addrs, |addrs|)) && forall x :: x in SlotsOrder(d, addrs, |addrs|) ==> x < |d|
  }

  lemma {:induction false} Concat<T>(f: seq<T>, a: seq<T>, b: seq<T>)
    ensures f + (a + b) == f + a + b
    ensures forall x :: x in a + b <==> x in a || x in b
  {
  }

  lemma {:induction false} SlotsPrefix(d: Disk, addrs: seq<Word>, k: nat)
    requires k <= |addrs|
    ensures SlotsOrder(d, addrs, k) <= SlotsOrder(d, addrs, |addrs|)
    decreases |addrs| - k
  {
    if k < |addrs| {
      SlotsPrefix(d, addrs, k + 1);
    }
  }

  lemma {:induction false} SlotInside(d: Disk, addrs: seq<Word>, k: nat, j: nat)
    requires j < k <= |addrs|
    ensures forall x :: x in Order(d, LevelOf(j), addrs[j]) ==> x in SlotsOrder(d, addrs, k)
  {
    if j < k - 1 {
      SlotInside(d, addrs, k - 1, j);
    }
  }

  /** Freeing slot i leaves the earlier slots' indirect blocks zero. */
  lemma {:induction false} SlotsZeroed(d0: Disk, addrs: seq<Word>, d1: Disk, d2: Disk, i: nat)
    requires |addrs| == NADDRS && i < NADDRS && InodeWellFormed(d0, addrs) && |d0| == |d1| == |d2|
    requires Agree(d0, d1, Order(d0, LevelOf(i), addrs[i])) && Zeroed(d1, d2, LevelOf(i), addrs[i])
    requires forall j :: 0 <= j < i ==> Zeroed(d0, d1, LevelOf(j), addrs[j])
    requires forall x :: 0 <= x < |d1| && x !in Order(d0, LevelOf(i), addrs[i]) ==> d2[x] == d1[x]
    ensures forall j :: 0 <= j <= i ==> Zeroed(d0, d2, LevelOf(j), addrs[j])
  {
    SlotApart(d0, addrs, i);
    forall j | 0 <= j <= i
      ensures Zeroed(d0, d2, LevelOf(j), addrs[j])
    {
      if j < i {
        SlotInside(d0, addrs, i, j);
        ZeroedFrame(d0, d1, d2, LevelOf(j), addrs[j]);
      } else {
        ZeroedBase(d0, d1, d2, LevelOf(i), addrs[i]);
      }
    }
  }

  lemma {:induction false} SlotApart(d: Disk, addrs: seq<Word>, i: nat)
    requires |addrs| == NADDRS && i < NADDRS && InodeWellFormed(d, addrs)
    ensures WellFormed(d, LevelOf(i), addrs[i])
    ensures forall x :: x in Order(d, LevelOf(i), addrs[i]) ==> x !in SlotsOrder(d, addrs, i)
  {
    SlotsPrefix(d, addrs, i + 1);
    Apart(SlotsOrder(d, addrs, i), Order(d, LevelOf(i), addrs[i]), SlotsOrder(d, addrs, |addrs|));
  }

  // ------------------------------------------------ what an inode reaches

  /** Indices into that many indirect blocks, one after the other. */
  predicate Indices(path: seq<nat>, level: nat) {
    |path| <= level && forall k :: 0 <= k < |path| ==> path[k] < WORDS
  }

  /** The block that path leads to from block a, or 0. */
  function Walk(d: Disk, a: Word, path: seq<nat>): Word
    requires Indices(path, |path|)
    decreases |path|
  {
    if path == [] then a
    else if a == 0 || |d| <= a then 0
    else
      assert forall k :: 0 <= k < |path[1..]| ==> path[1..][k] == path[k + 1];
      Walk(d, GetWord(d[a], path[0]), path[1..])
  }

  /** path is a way to block x. */
  predicate Leads(d: Disk, level: nat, a: Word, path: seq<nat>, x: Word) {
    Indices(path, level) && Walk(d, a, path) == x != 0
  }

  ghost predicate Reaches(d: Disk, level: nat, a: Word, x: Word) { exists path :: Leads(d, level, a, path, x) }

  /** No two ways lead to one block. */
  ghost predicate OneWay(d: Disk, level: nat, a: Word) {
    forall x, p, q :: Leads(d, level, a, p, x) && Leads(d, level, a, q, x) ==> p == q
  }

  lemma {:induction false} LeadsDown(d: Disk, level: nat, a: Word, j: nat, path: seq<nat>, x: Word)
    requires 0 < a < |d| && j < WORDS && Leads(d, level, GetWord(d[a], j), path, x)
    ensures Leads(d, level + 1, a, [j] + path, x)
  {
    assert ([j] + path)[1..] == path;
  }

  lemma {:induction false} LeadsRest(d: Disk, level: nat, a: Word, path: seq<nat>, x: Word)
    requires Leads(d, level + 1, a, path, x) && path != []
    ensures 0 < a < |d| && path[0] < WORDS && Leads(d, level, GetWord(d[a], path[0]), path[1..], x)
  {
  }

  /** The free order of a tree is exactly what its root reaches. */
  lemma {:induction false} OrderReaches(d: Disk, level: nat, a: Word, x: Word)
    ensures x in Order(d, level, a) <==> Reaches(d, level, a, x)
    decreases level, WORDS + 1
  {
    if a != 0 && x == a {
      assert Leads(d, level, a, [], x);
      var o := Order(d, level, a);
      assert o[|o| - 1] == a;
    } else if a != 0 && level > 0 && a < |d| {
      EntriesReach(d, level - 1, a, WORDS, x);
      if Reaches(d, level, a, x) {
        var path :| Leads(d, level, a, path, x);
        LeadsRest(d, level - 1, a, path, x);
        assert Reaches(d, level - 1, GetWord(d[a], path[0]), x);
      }
    }
  }

  lemma {:induction false} EntriesReach(d: Disk, level: nat, a: Word, k: nat, x: Word)
    requires k <= WORDS && 0 < a < |d|
    ensures x in Entries(d, level, a, k) <==> exists j :: 0 <= j < k && Reaches(d, level, GetWord(d[a], j), x)
    ensures x in Entries(d, level, a, k) ==> Reaches(d, level + 1, a, x)
    decreases level + 1, k
  {
    if k > 0 {
      EntriesReach(d, level, a, k - 1, x);
      OrderReaches(d, level, GetWord(d[a], k - 1), x);
      if j :| 0 <= j < k && Reaches(d, level, GetWord(d[a], j), x) {
        var path :| Leads(d, level, GetWord(d[a], j), path, x);
        LeadsDown(d, level, a, j, path, x);
      }
    }
  }

  /** Where only one way leads to each block, the order names each block once. */
  lemma {:induction false} OrderDistinct(d: Disk, level: nat, a: Word)
    requires OneWay(d, level, a)
    ensures Distinct(Order(d, level, a))
    decreases level, WORDS + 1
  {
    if a != 0 && level > 0 && a < |d| {
      EntriesDistinct(d, level - 1, a, WORDS);
    }
  }

  lemma {:induction false} EntriesDistinct(d: Disk, level: nat, a: Word, k: nat)
    requires k <= WORDS && 0 < a < |d| && OneWay(d, level + 1, a)
    ensures Distinct(Entries(d, level, a, k)) && a !in Entries(d, level, a, k)
    decreases level + 1, k
  {
    EntriesReach(d, level, a, k, a);
    if a in Entries(d, level, a, k) {
      var j :| 0 <= j < k && Reaches(d, level, GetWord(d[a], j), a);
      var path :| Leads(d, level, GetWord(d[a], j), path, a);
      LeadsDown(d, level, a, j, path, a);
      assert Leads(d, level + 1, a, [], a);
      assert false;
    }
    if k > 0 {
      var e := GetWord(d[a], k - 1);
      EntriesDistinct(d, level, a, k - 1);
      EntryOneWay(d, level, a, k - 1);
      OrderDistinct(d, level, e);
      forall x | x in Entries(d, level, a, k - 1)
        ensures x !in Order(d, level, e)
      {
        EntryElsewhere(d, level, a, k - 1, x);
      }
      DistinctConcat(Entries(d, level, a, k - 1), Order(d, level, e));
    }
  }

  lemma {:induction false} EntryOneWay(d: Disk, level: nat, a: Word, j: nat)
    requires 0 < a < |d| && j < WORDS && OneWay(d, level + 1, a)
    ensures OneWay(d, level, GetWord(d[a], j))
  {
    var e := GetWord(d[a], j);
    forall x, p, q | Leads(d, level, e, p, x) && Leads(d, level, e, q, x)
      ensures p == q
    {
      LeadsDown(d, level, a, j, p, x);
      LeadsDown(d, level, a, j, q, x);
      assert p == ([j] + p)[1..] && q == ([j] + q)[1..];
    }
  }

  lemma {:induction false} EntryElsewhere(d: Disk, level: nat, a: Word, k: nat, x: Word)
    requires k < WORDS && 0 < a < |d| && OneWay(d, level + 1, a) && x in Entries(d, level, a, k)
    ensures x !in Order(d, level, GetWord(d[a], k))
  {
    EntriesReach(d, level, a, k, x);
    OrderReaches(d, level, GetWord(d[a], k), x);
    var j :| 0 <= j < k && Reaches(d, level, GetWord(d[a], j), x);
    var p :| Leads(d, level, GetWord(d[a], j), p, x);
    LeadsDown(d, level, a, j, p, x);
    if Reaches(d, level, GetWord(d[a], k), x) {
      var q :| Leads(d, level, GetWord(d[a], k), q, x);
      assert ([j] + p)[0] != ([k] + q)[0];
      LeadsDown(d, level, a, k, q, x);
      assert false;
    }
  }

  lemma {:induction false} DistinctConcat(s: seq<Word>, t: seq<Word>)
    requires Distinct(s) && Distinct(t) && forall x :: x in s ==> x !in t
    ensures Distinct(s + t)
  {
    forall i, j | 0 <= i < j < |s + t|
      ensures (s + t)[i] != (s + t)[j]
    {
      if i < |s| <= j {
        assert s[i] in s;
      }
    }
  }

  /** Block x is in use by the inode: some slot and some way lead to it. */
  ghost predicate Uses(d: Disk, addrs: seq<Word>, x: Word) {
    exists i :: 0 <= i < |addrs| && Reaches(d, LevelOf(i), addrs[i], x)
  }

  /** No two slots or ways of the inode lead to one block, and all lead to the disk. */
  ghost predicate Tree(d: Disk, addrs: seq<Word>) {
    && (forall i :: 0 <= i < |addrs| ==> OneWay(d, LevelOf(i), addrs[i]))
    && (forall i, j, x: Word :: 0 <= i < j < |addrs| && Reaches(d, LevelOf(i), addrs[i], x) ==>
          !Reaches(d, LevelOf(j), addrs[j], x))
    && (forall x: Word :: Uses(d, addrs, x) ==> x < |d|)
  }

  lemma {:induction false} SlotsReach(d: Disk, addrs: seq<Word>, k: nat, x: Word)
    requires k <= |addrs|
    ensures x in SlotsOrder(d, addrs, k) <==> exists i :: 0 <= i < k && Reaches(d, LevelOf(i), addrs[i], x)
  {
    if k > 0 {
      SlotsReach(d, addrs, k - 1, x);
      OrderReaches(d, LevelOf(k - 1), addrs[k - 1], x);
    }
  }

  lemma {:induction false} SlotsDistinct(d: Disk, addrs: seq<Word>, k: nat)
    requires Tree(d, addrs) && k <= |addrs|
    ensures Distinct(SlotsOrder(d, addrs, k))
  {
    if k > 0 {
      SlotsDistinct(d, addrs, k - 1);
      OrderDistinct(d, LevelOf(k - 1), addrs[k - 1]);
      var done, last := SlotsOrder(d, addrs, k - 1), Order(d, LevelOf(k - 1), addrs[k - 1]);
      forall x | x in done
        ensures x !in last
      {
        SlotsReach(d, addrs, k - 1, x);
        OrderReaches(d, LevelOf(k - 1), addrs[k - 1], x);
      }
      DistinctConcat(done, last);
    }
  }

  /** A tree is what itrunc needs. */
  lemma {:induction false} TreeWellFormed(d: Disk, addrs: seq<Word>)
    requires |addrs| == NADDRS && Tree(d, addrs)
    ensures InodeWellFormed(d, addrs)
  {
    SlotsDistinct(d, addrs, NADDRS);
    forall x | x in SlotsOrder(d, addrs, NADDRS)
      ensures x < |d|
    {
      SlotsReach(d, addrs, NADDRS, x);
      assert Uses(d, addrs, x);
    }
  }

  /** The free order of an inode that is a tree names every block it uses once, and no
      other. */
  lemma {:induction false} FreedOnce(d: Disk, addrs: seq<Word>, x: Word)
    requires |addrs| == NADDRS && Tree(d, addrs)
    ensures InodeWellFormed(d, addrs)
    ensures multiset(SlotsOrder(d, addrs, NADDRS))[x] == 1 <==> Uses(d, addrs, x)
    ensures multiset(SlotsOrder(d, addrs, NADDRS))[x] == 0 <==> !Uses(d, addrs, x)
  {
    TreeWellFormed(d, addrs);
    SlotsReach(d, addrs, NADDRS, x);
    OnceInDistinct(SlotsOrder(d, addrs, NADDRS), x);
  }

  lemma {:induction false} OnceInDistinct(s: seq<Word>, x: Word)
    requires Distinct(s)
    ensures multiset(s)[x] == if x in s then 1 else 0
  {
    if s != [] {
      assert s == [s[0]] + s[1..];
      OnceInDistinct(s[1..], x);
    }
  }

  /** Children are freed before the block that names them. */
  lemma {:induction false} ChildBeforeParent(d: Disk, level: nat, a: Word, j: nat)
    requires 0 < a < |d| && j < WORDS && GetWord(d[a], j) != 0
    ensures var s, e := Order(d, level + 1, a), GetWord(d[a], j);
            s != [] && s[|s| - 1] == a && exists i :: 0 <= i < |s| - 1 && s[i] == e
  {
    var s, e := Order(d, level + 1, a), GetWord(d[a], j);
    EntryInside(d, level, a, WORDS, j);
    var t := Order(d, level, e);
    assert t[|t| - 1] == e && e in t;
    assert e in Entries(d, level, a, WORDS);
    var i :| 0 <= i < |Entries(d, level, a, WORDS)| && Entries(d, level, a, WORDS)[i] == e;
    assert s[i] == e;
  }

  // ------------------------------------------------------------ file offsets

  const EXT2_MAXFILE := 12 + 256 + 256 * 256 + 256 * 256 * 256
  const BOUND := EXT2_MAXFILE * BSIZE % U32   // EXT2_MAXFILE*EXT2_BSIZE in 32 bits

  /** The tests of ext2fs_writei, in 32-bit arithmetic. */
  predicate Accepted(size: Word, off: Word, n: Word) {
    off <= size && (off + n) % U32 >= off && (off + n) % U32 <= BOUND
  }

  /** The slots ext2fs_bmap goes through for file block bn.  Both (all three)
      levels use the same index. */
  datatype Path = Direct(i: nat) | Single(i: nat) | Double(i: nat, j: nat) | Triple(i: nat, j: nat, k: nat) | OutOfRange

  function BmapPath(bn: nat): Path {
    if bn < 12 then Direct(bn)
    else if bn - 12 < 256 then Single(bn - 12)
    else if bn - 268 < 256 * 256 then Double((bn - 268) / 256, (bn - 268) / 256)
    else if bn - 65804 < 256 * 256 * 256 then Triple((bn - 65804) / 256, (bn - 65804) / 256, (bn - 65804) / 256)
    else OutOfRange
  }

  /** The limit on a write wraps to 65804 blocks, so an accepted write touches
      only direct, single and double indirect blocks, with indices in range:
      neither the triple-indirect code nor bmap's panic can be reached. */
  lemma {:induction false} WriteReach(size: Word, off: Word, n: Word, p: nat)
    requires Accepted(size, off, n) && off <= p < off + n
    ensures BOUND == 65804 * BSIZE && p / BSIZE < 65804
    ensures match BmapPath(p / BSIZE)
            case Direct(i) => i < 12
            case Single(i) => i < 256
            case Double(i, j) => i < 256 && j < 256
            case _ => false
  {
  }

  /** The address slot and the indices of a path. */
  function SlotOf(p: Path): nat
    requires p != OutOfRange
    ensures p.Direct? && p.i < NDIR ==> SlotOf(p) < NDIR
  {
    match p
    case Direct(i) => i
    case Single(_) => NDIR
    case Double(_, _) => NDIR + 1
    case Triple(_, _, _) => NDIR + 2
  }

  function IndicesOf(p: Path): seq<nat>
    requires p != OutOfRange
  {
    match p
    case Direct(_) => []
    case Single(i) => [i]
    case Double(i, j) => [i, j]
    case Triple(i, j, k) => [i, j, k]
  }

  lemma {:induction false} PathOk(bn: nat)
    requires bn < 65804
    ensures var p := BmapPath(bn);
            p != OutOfRange && SlotOf(p) < NADDRS && Indices(IndicesOf(p), LevelOf(SlotOf(p)))
  {
  }

  /** The disk block that file block bn is mapped to, 0 if none yet. */
  function BlockOf(d: Disk, addrs: seq<Word>, bn: nat): Word
    requires bn < 65804 && |addrs| == NADDRS
  {
    PathOk(bn);
    Walk(d, addrs[SlotOf(BmapPath(bn))], IndicesOf(BmapPath(bn)))
  }

  lemma {:induction false} SamePath(bn: nat, cn: nat)
    requires bn < 65804 && cn < 65804
    ensures BmapPath(bn) == BmapPath(cn) <==>
            bn == cn || (bn >= 268 && cn >= 268 && (bn - 268) / 256 == (cn - 268) / 256)
    ensures var p, q := BmapPath(bn), BmapPath(cn);
            p != OutOfRange && q != OutOfRange &&
            (SlotOf(p) == SlotOf(q) && IndicesOf(p) == IndicesOf(q) ==> p == q)
  {
    var p, q := BmapPath(bn), BmapPath(cn);
    if SlotOf(p) == SlotOf(q) && IndicesOf(p) == IndicesOf(q) && p.Double? {
      assert IndicesOf(p)[0] == IndicesOf(q)[0] && IndicesOf(p)[1] == IndicesOf(q)[1];
    } else if SlotOf(p) == SlotOf(q) && IndicesOf(p) == IndicesOf(q) && p.Single? {
      assert IndicesOf(p)[0] == IndicesOf(q)[0];
    }
  }

  /** The first two file blocks past the single-indirect ones are one disk block, on every
      disk and for every inode, and so is each group of 256 from there on. */
  lemma {:induction false} TwoBlocksOneAddress(d: Disk, addrs: seq<Word>)
    requires |addrs| == NADDRS
    ensures BlockOf(d, addrs, 268) == BlockOf(d, addrs, 269)
    ensures forall bn, cn :: 268 <= bn < 65804 && 268 <= cn < 65804 && (bn - 268) / 256 == (cn - 268) / 256 ==>
              BlockOf(d, addrs, bn) == BlockOf(d, addrs, cn)
  {
    forall bn, cn | 268 <= bn < 65804 && 268 <= cn < 65804 && (bn - 268) / 256 == (cn - 268) / 256
      ensures BlockOf(d, addrs, bn) == BlockOf(d, addrs, cn)
    {
      SamePath(bn, cn);
    }
    assert (269 - 268) / 256 == (268 - 268) / 256;
  }

  /** Exactly which mapped file blocks share a disk block, in a tree: those in the same
      group of 256 past the single-indirect ones.  So past block 268 the map is not
      injective, and such files do not hold what was written. */
  lemma {:induction false} SharedBlocks(d: Disk, addrs: seq<Word>, bn: nat, cn: nat)
    requires |addrs| == NADDRS && Tree(d, addrs) && bn < 65804 && cn < 65804
    requires BlockOf(d, addrs, bn) != 0 && BlockOf(d, addrs, cn) != 0
    ensures BlockOf(d, addrs, bn) == BlockOf(d, addrs, cn) <==>
            bn == cn || (bn >= 268 && cn >= 268 && (bn - 268) / 256 == (cn - 268) / 256)
  {
    var p, q, x := BmapPath(bn), BmapPath(cn), BlockOf(d, addrs, bn);
    PathOk(bn);
    PathOk(cn);
    SamePath(bn, cn);
    if BlockOf(d, addrs, cn) == x {
      assert Leads(d, LevelOf(SlotOf(p)), addrs[SlotOf(p)], IndicesOf(p), x);
      assert Leads(d, LevelOf(SlotOf(q)), addrs[SlotOf(q)], IndicesOf(q), x);
      assert Reaches(d, LevelOf(SlotOf(p)), addrs[SlotOf(p)], x) && Reaches(d, LevelOf(SlotOf(q)), addrs[SlotOf(q)], x);
      assert SlotOf(p) == SlotOf(q);
    }
  }

  // ---------------------------------------------------------- truncation

  /** The device as bread gives it, and the log of blocks handed to ext2fs_bfree
      (whose own bitmap update is not modelled). */
  class BlockTree {
    var disk: Disk
    var freed: seq<Word>
    var addrs: seq<Word>   // of the inode being truncated
    var size: Word

    /** ext2fs_itrunc: every block of the inode is freed exactly once, children
        before parents, and all address slots end up zero. */
    method Itrunc()
      requires |addrs| == NADDRS && InodeWellFormed(disk, addrs)
      modifies this
      ensures |disk| == |old(disk)| && freed == old(freed) + SlotsOrder(old(disk), old(addrs), |old(addrs)|)
      ensures |addrs| == NADDRS && (forall i :: 0 <= i < NADDRS ==> addrs[i] == 0) && size == 0
      ensures forall x :: 0 <= x < |disk| && x !in SlotsOrder(old(disk), old(addrs), |old(addrs)|) ==>
              disk[x] == old(disk)[x]
      ensures forall i :: 0 <= i < NADDRS ==> Zeroed(old(disk), disk, LevelOf(i), old(addrs)[i])
    {
      assert freed == old(freed) + [];
      var i := 0;
      while i < NDIR
        invariant 0 <= i <= NDIR && Truncated(old(disk), old(addrs), old(freed), i)
      {
        FreeSlot(i, old(disk), old(addrs), old(freed));
        i := i + 1;
      }
      // the single, double and triple indirect blocks
      while i < NADDRS
        invariant NDIR <= i <= NADDRS && Truncated(old(disk), old(addrs), old(freed), i)
      {
        FreeSlot(i, old(disk), old(addrs), old(freed));
        i := i + 1;
      }
      size := 0;
    }

    /** The first k slots are gone; the rest, and all blocks outside theirs, are
        as they were. */
    ghost predicate Truncated(d0: Disk, addrs0: seq<Word>, freed0: seq<Word>, k: nat)
      reads this
    {
      && |addrs| == |addrs0| == NADDRS && k <= NADDRS && |disk| == |d0|
      && (forall i :: 0 <= i < NADDRS ==> addrs[i] == if i < k then 0 else addrs0[i])
      && (forall x :: 0 <= x < |d0| && x !in SlotsOrder(d0, addrs0, k) ==> disk[x] == d0[x])
      && freed == freed0 + SlotsOrder(d0, addrs0, k)
      && (forall j :: 0 <= j < k ==> Zeroed(d0, disk, LevelOf(j), addrs0[j]))
    }

    method FreeSlot(i: nat, ghost d0: Disk, ghost addrs0: seq<Word>, ghost freed0: seq<Word>)
      requires i < NADDRS && |addrs0| == NADDRS && InodeWellFormed(d0, addrs0) && Truncated(d0, addrs0, freed0, i)
      modifies this`disk, this`freed, this`addrs
      ensures Truncated(d0, addrs0, freed0, i + 1)
    {
      SlotApart(d0, addrs0, i);
      Concat(freed0, SlotsOrder(d0, addrs0, i), Order(d0, LevelOf(i), addrs0[i]));
      if addrs[i] == 0 {
        return;
      }
      OrderFrame(d0, disk, LevelOf(i), addrs[i]);
      ghost var d1 := disk;
      FreeTree(LevelOf(i), addrs[i]);
      SlotsZeroed(d0, addrs0, d1, disk, i);
      addrs := addrs[i := 0];
    }

    /** One arm of ext2fs_itrunc: free the tree at a.  The source writes the three
        levels out as nested loops; here the loop body frees a subtree. */
    method FreeTree(level: nat, a: Word)
      requires a != 0 && WellFormed(disk, level, a)
      modifies this`disk, this`freed
      ensures |disk| == |old(disk)| && freed == old(freed) + Order(old(disk), level, a)
      ensures forall x :: 0 <= x < |disk| && x !in Order(old(disk), level, a) ==> disk[x] == old(disk)[x]
      ensures Zeroed(old(disk), disk, level, a)
      decreases level
    {
      ghost var d0 := disk;
      if level > 0 {
        FreeEntries(level - 1, a);
      }
      freed := freed + [a];
      assert level == 0 ==> Order(d0, level, a) == [a];
    }

    method FreeEntries(level: nat, a: Word)
      requires a != 0 && WellFormed(disk, level + 1, a)
      modifies this`disk, this`freed
      ensures |disk| == |old(disk)| && a < |disk| && freed == old(freed) + Entries(old(disk), level, a, WORDS)
      ensures forall x :: 0 <= x < |disk| && x != a && x !in Entries(old(disk), level, a, WORDS) ==>
              disk[x] == old(disk)[x]
      ensures Zeroed(old(disk), disk, level + 1, a)
      decreases level + 1, 0
    {
      ghost var d0 := disk;
      EntryApart(d0, level, a, 0);
      var k := 0;
      while k < WORDS
        invariant 0 <= k <= WORDS && |disk| == |d0| && freed == old(freed) + Entries(d0, level, a, k)
        invariant forall x :: 0 <= x < |d0| && x != a && x !in Entries(d0, level, a, k) ==> disk[x] == d0[x]
        invariant forall j :: 0 <= j < WORDS ==> GetWord(disk[a], j) == if j < k then 0 else GetWord(d0[a], j)
        invariant forall j :: 0 <= j < k ==> Zeroed(d0, disk, level, GetWord(d0[a], j))
      {
        FreeEntry(level, a, k, d0);
        k := k + 1;
      }
    }

    method FreeEntry(level: nat, a: Word, k: nat, ghost d0: Disk)
      requires a != 0 && WellFormed(d0, level + 1, a) && k < WORDS && a < |disk| == |d0|
      requires forall x :: 0 <= x < |d0| && x != a && x !in Entries(d0, level, a, k) ==> disk[x] == d0[x]
      requires forall j :: 0 <= j < WORDS ==> GetWord(disk[a], j) == if j < k then 0 else GetWord(d0[a], j)
      requires forall j :: 0 <= j < k ==> Zeroed(d0, disk, level, GetWord(d0[a], j))
      modifies this`disk, this`freed
      ensures |disk| == |d0| && freed == old(freed) + Order(d0, level, GetWord(d0[a], k))
      ensures forall x :: 0 <= x < |d0| && x != a && x !in Entries(d0, level, a, k + 1) ==> disk[x] == d0[x]
      ensures forall j :: 0 <= j < WORDS ==> GetWord(disk[a], j) == if j < k + 1 then 0 else GetWord(d0[a], j)
      ensures forall j :: 0 <= j < k + 1 ==> Zeroed(d0, disk, level, GetWord(d0[a], j))
      decreases level + 1, 0, 0
    {
      var e := GetWord(disk[a], k);
      EntryApart(d0, level, a, k);
      if e != 0 {
        ghost var d1 := disk;
        OrderFrame(d0, d1, level, e);
        FreeTree(level, e);
        ghost var d2 := disk;
        ZeroedBase(d0, d1, d2, level, e);
        SetZero(a, k);
        forall j | 0 <= j < k + 1
          ensures Zeroed(d0, disk, level, GetWord(d0[a], j))
        {
          var s := GetWord(d0[a], j);
          EntryInside(d0, level, a, k + 1, j);
          if j < k {
            EntryInside(d0, level, a, k, j);
            ZeroedFrame(d0, d1, disk, level, s);
          } else {
            ZeroedFrame(d0, d2, disk, level, s);
          }
        }
      }
    }

    method SetZero(a: Word, k: nat)
      requires a < |disk| && k < WORDS
      modifies this`disk
      ensures |disk| == |old(disk)| && disk == old(disk)[a := disk[a]]
      ensures forall j :: 0 <= j < WORDS ==> GetWord(disk[a], j) == if j == k then 0 else GetWord(old(disk)[a], j)
    {
      forall j | 0 <= j < WORDS
        ensures GetWord(SetWord(disk[a], k, 0), j) == if j == k then 0 else GetWord(disk[a], j)
      {
        GetSetWord(disk[a], k, 0, j);
      }
      disk := disk[a := SetWord(disk[a], k, 0)];
    }
  }
}

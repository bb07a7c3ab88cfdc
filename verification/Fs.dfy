/** fs.c on a mutable disk: balloc, bfree, bmap, itrunc, iupdate, readi, writei,
    and file.c's filewrite on top of them. */
module Fs {
  import opened Common
  import opened Blocks
  import opened FileBlocks

  const T_DEV := 3

  // ---------------------------------------------------------------- dinodes

  // Two shorts in one little-endian word.

  function Pair(lo: Half, hi: Half): (w: Word) { var h: int := hi; lo + 0x1_0000 * h }
  function Low(w: Word): (h: Half) { w % 0x1_0000 }
  function High(w: Word): (h: Half) { w / 0x1_0000 }

  lemma {:induction false} PairRoundTrip(lo: Half, hi: Half)
    ensures Low(Pair(lo, hi)) == lo && High(Pair(lo, hi)) == hi
  {
  }

  function PutAddrs(b: Block, s: nat, addrs: Addrs, k: nat): (r: Block)
    requires s < IPB && k <= NDIRECT + 1
  {
    if k == 0 then b else SetWord(PutAddrs(b, s, addrs, k - 1), 16 * s + 2 + k, addrs[k - 1])
  }

  /** iupdate's copy of an inode into dinode s of an inode block. */
  function PutDinode(b: Block, s: nat, ino: Inode): (r: Block)
    requires s < IPB
  {
    var b1 := SetWord(b, 16 * s, Pair(ino.itype, ino.major));
    var b2 := SetWord(b1, 16 * s + 1, Pair(ino.minor, ino.nlink));
    var b3 := SetWord(b2, 16 * s + 2, ino.size);
    PutAddrs(b3, s, ino.addrs, NDIRECT + 1)
  }

  /** ilock's copy of dinode s of an inode block into memory. */
  function GetDinode(b: Block, s: nat): (ino: Inode)
    requires s < IPB
  {
    Inode(Low(GetWord(b, 16 * s)), High(GetWord(b, 16 * s)),
          Low(GetWord(b, 16 * s + 1)), High(GetWord(b, 16 * s + 1)),
          GetWord(b, 16 * s + 2), GetAddrs(b, s))
  }

  function GetAddrs(b: Block, s: nat): (a: Addrs)
    requires s < IPB
    ensures forall k :: 0 <= k <= NDIRECT ==> a[k] == GetWord(b, 16 * s + 3 + k)
  {
    GetWords(b, 16 * s + 3, NDIRECT + 1)
  }

  function GetWords(b: Block, w: nat, n: nat): (r: seq<Word>)
    requires w + n <= WORDS
    ensures |r| == n && forall k :: 0 <= k < n ==> r[k] == GetWord(b, w + k)
  {
    if n == 0 then [] else GetWords(b, w, n - 1) + [GetWord(b, w + n - 1)]
  }

  lemma {:induction false} PutAddrsWords(b: Block, s: nat, addrs: Addrs, k: nat, w: nat)
    requires s < IPB && k <= NDIRECT + 1 && w < WORDS
    ensures GetWord(PutAddrs(b, s, addrs, k), w) ==
            if 16 * s + 3 <= w < 16 * s + 3 + k then addrs[w - 16 * s - 3] else GetWord(b, w)
  {
    if k > 0 {
      PutAddrsWords(b, s, addrs, k - 1, w);
      GetSetWord(PutAddrs(b, s, addrs, k - 1), 16 * s + 2 + k, addrs[k - 1], w);
    }
  }

  /** What word w of the block is once dinode s has been stored. */
  function DinodeWord(b: Block, s: nat, ino: Inode, w: nat): Word
    requires s < IPB && w < WORDS
  {
    if w == 16 * s then Pair(ino.itype, ino.major)
    else if w == 16 * s + 1 then Pair(ino.minor, ino.nlink)
    else if w == 16 * s + 2 then ino.size
    else if 16 * s + 3 <= w < 16 * s + 16 then ino.addrs[w - 16 * s - 3]
    else GetWord(b, w)
  }

  lemma {:induction false} PutDinodeWords(b: Block, s: nat, ino: Inode, w: nat)
    requires s < IPB && w < WORDS
    ensures GetWord(PutDinode(b, s, ino), w) == DinodeWord(b, s, ino, w)
  {
    var b1 := SetWord(b, 16 * s, Pair(ino.itype, ino.major));
    var b2 := SetWord(b1, 16 * s + 1, Pair(ino.minor, ino.nlink));
    var b3 := SetWord(b2, 16 * s + 2, ino.size);
    PutAddrsWords(b3, s, ino.addrs, NDIRECT + 1, w);
    GetSetWord(b2, 16 * s + 2, ino.size, w);
    GetSetWord(b1, 16 * s + 1, Pair(ino.minor, ino.nlink), w);
    GetSetWord(b, 16 * s, Pair(ino.itype, ino.major), w);
  }

  /** ilock reads back what iupdate stored; the other dinodes of the block are untouched. */
  lemma {:induction false} DinodeRoundTrip(b: Block, s: nat, ino: Inode, t: nat)
    requires s < IPB && t < IPB
    ensures GetDinode(PutDinode(b, s, ino), t) == if s == t then ino else GetDinode(b, t)
  {
    forall w | 0 <= w < WORDS
      ensures GetWord(PutDinode(b, s, ino), w) == DinodeWord(b, s, ino, w)
    {
      PutDinodeWords(b, s, ino, w);
    }
    DinodeFromWords(PutDinode(b, s, ino), b, s, ino, t);
  }

  lemma {:induction false} DinodeFromWords(r: Block, b: Block, s: nat, ino: Inode, t: nat)
    requires s < IPB && t < IPB
    requires forall w :: 0 <= w < WORDS ==> GetWord(r, w) == DinodeWord(b, s, ino, w)
    ensures GetDinode(r, t) == if s == t then ino else GetDinode(b, t)
  {
    PairRoundTrip(ino.itype, ino.major);
    PairRoundTrip(ino.minor, ino.nlink);
    if s == t {
      assert GetAddrs(r, t) == ino.addrs;
    } else {
      assert GetAddrs(r, t) == GetAddrs(b, t);
    }
  }

  // -------------------------------------------------------- the mutable disk

  /** balloc's scan: the lowest block whose bit is clear. */
  method FindFree(sb: Superblock, d: Disk) returns (r: Word, found: bool)
    requires OnDisk(sb, d)
    ensures found ==> r < sb.size && !Used(sb, d, r) && forall b :: 0 <= b < r ==> Used(sb, d, b)
    ensures !found ==> forall b :: 0 <= b < sb.size ==> Used(sb, d, b)
  {
    var b := 0;
    while b < sb.size
      invariant 0 <= b && b % BPB == 0
      invariant forall x :: 0 <= x < b && x < sb.size ==> Used(sb, d, x)
    {
      var blk := b / BPB + sb.bmapstart;
      var bi := 0;
      while bi < BPB && b + bi < sb.size
        invariant 0 <= bi <= BPB && b + bi <= sb.size
        invariant forall x :: 0 <= x < b + bi ==> Used(sb, d, x)
      {
        assert (b + bi) / BPB == b / BPB && (b + bi) % BPB == bi;
        if !Bit(d[blk], bi) {
          return b + bi, true;
        }
        bi := bi + 1;
      }
      b := b + BPB;
    }
    return 0, false;
  }

  // Bytes of a file.

  const FILEMAX := 1536 // ((MAXOPBLOCKS-1-1-2) / 2) * 512

  /** A chunk of filewrite spans at most three blocks, so it logs at most
      3 data + 3 bitmap + 2 for the indirect block + 1 inode block. */
  lemma {:induction false} ChunkFits(off: nat, n: nat)
    requires n <= FILEMAX
    ensures 2 * Span(off, n) + 3 <= 9
  {
  }

  /** The file after s has been written at off; writing nothing changes nothing. */
  function WrittenTo(f: seq<Byte>, off: nat, s: seq<Byte>): (r: seq<Byte>)
    requires s == [] || off <= |f|
  {
    if s == [] then f else Splice(f, off, s)
  }

  lemma {:induction false} SpliceSplice(f: seq<Byte>, off: nat, s: seq<Byte>, t: seq<Byte>)
    requires off <= |f|
    ensures Splice(Splice(f, off, s), off + |s|, t) == Splice(f, off, s + t)
  {
    var g := Splice(f, off, s);
    assert g[..off + |s|] == f[..off] + s;
    if off + |s| + |t| <= |f| {
      assert g[off + |s| + |t|..] == f[off + |s| + |t|..];
    }
  }

  /** Consecutive chunks compose to one write. */
  lemma {:induction false} WrittenAppend(f: seq<Byte>, off: nat, s: seq<Byte>, t: seq<Byte>)
    requires off <= |f| && t != []
    ensures off + |s| <= |WrittenTo(f, off, s)|
    ensures Splice(WrittenTo(f, off, s), off + |s|, t) == WrittenTo(f, off, s + t)
  {
    if s == [] {
      assert s + t == t;
    } else {
      SpliceSplice(f, off, s, t);
    }
  }

  /** e, ino' is d, ino with the bytes src written at off. */
  ghost predicate Wrote(d: Disk, ino: Inode, e: Disk, ino': Inode, off: nat, src: seq<Byte>) {
    forall p :: 0 <= p < MAXBYTES ==>
      FileByte(e, ino', p) == if off <= p < off + |src| then src[p - off] else FileByte(d, ino, p)
  }

  /** f with s written over it at off, extending it if need be. */
  function Splice(f: seq<Byte>, off: nat, s: seq<Byte>): (r: seq<Byte>)
    requires off <= |f|
  {
    f[..off] + s + if off + |s| <= |f| then f[off + |s|..] else []
  }

  lemma {:induction false} WroteTrans(d: Disk, p: Inode, e: Disk, q: Inode, f: Disk, r: Inode, off: nat, s: seq<Byte>,
        t: seq<Byte>)
    requires Wrote(d, p, e, q, off, s) && Wrote(e, q, f, r, off + |s|, t)
    ensures Wrote(d, p, f, r, off, s + t)
  {
  }

  lemma {:induction false} SameBlocksWrote(d: Disk, inodes: seq<Inode>, e: Disk, others: seq<Inode>, i: nat)
    requires SameBlocks(d, inodes, e, others, -1) && i < |inodes|
    ensures Wrote(d, inodes[i], e, others[i], 0, [])
  {
    forall p | 0 <= p < MAXBYTES
      ensures FileByte(e, others[i], p) == FileByte(d, inodes[i], p)
    {
      assert BlockOf(e, others[i], p / BSIZE) == BlockOf(d, inodes[i], p / BSIZE);
    }
  }

  /** Replacing part of one block writes just those bytes. */
  lemma {:induction false} BlockWrote(d: Disk, ino: Inode, e: Disk, ino': Inode, off: nat, s: seq<Byte>)
    requires off + |s| <= MAXBYTES && off % BSIZE + |s| <= BSIZE && s != []
    requires forall m :: 0 <= m < MAXFILE ==>
               BlockOf(e, ino', m) == if m == off / BSIZE then Patch(BlockOf(d, ino, m), off % BSIZE, s)
                 else BlockOf(d, ino, m)
    ensures Wrote(d, ino, e, ino', off, s)
  {
    forall p | 0 <= p < MAXBYTES
      ensures FileByte(e, ino', p) == if off <= p < off + |s| then s[p - off] else FileByte(d, ino, p)
    {
      var m, o := p / BSIZE, off % BSIZE;
      if m == off / BSIZE {
        assert off <= p < off + |s| <==> o <= p % BSIZE < o + |s|;
      } else {
        assert !(off <= p < off + |s|);
      }
      assert BlockOf(e, ino', m) == if m == off / BSIZE then Patch(BlockOf(d, ino, m), o, s) else BlockOf(d, ino, m);
    }
  }

  /** s copied into a block at offset o. */
  function Patch(b: Block, o: nat, s: seq<Byte>): (r: Block)
    requires o + |s| <= BSIZE
    ensures forall k :: 0 <= k < BSIZE ==> r[k] == if o <= k < o + |s| then s[k - o] else b[k]
  {
    b[..o] + s + b[o + |s|..]
  }

  lemma {:induction false} WroteFile(d: Disk, ino: Inode, e: Disk, ino': Inode, off: nat, s: seq<Byte>)
    requires ino.size <= MAXBYTES && off <= ino.size && off + |s| <= MAXBYTES
    requires Wrote(d, ino, e, ino', off, s)
    requires ino'.size == if off + |s| > ino.size then off + |s| else ino.size
    ensures File(e, ino') == Splice(File(d, ino), off, s)
  {
    var f, g := File(e, ino'), Splice(File(d, ino), off, s);
    forall p | 0 <= p < |f|
      ensures f[p] == g[p]
    {
    }
  }

  /** The bytes of one block that a read of [off, off + m) takes. */
  lemma {:induction false} BlockSlice(d: Disk, ino: Inode, off: nat, m: nat)
    requires ino.size <= MAXBYTES && off + m <= ino.size && off % BSIZE + m <= BSIZE && off < MAXBYTES
    ensures BlockOf(d, ino, off / BSIZE)[off % BSIZE..off % BSIZE + m] == File(d, ino)[off..off + m]
  {
    var x, y := BlockOf(d, ino, off / BSIZE)[off % BSIZE..off % BSIZE + m], File(d, ino)[off..off + m];
    forall k | 0 <= k < m
      ensures x[k] == y[k]
    {
      assert (off + k) / BSIZE == off / BSIZE && (off + k) % BSIZE == off % BSIZE + k;
    }
  }

  /** Number of blocks that [off, off + n) touches. */
  function Span(off: nat, n: nat): nat {
    if n == 0 then 0 else (off + n - 1) / BSIZE - off / BSIZE + 1
  }

  /** What writei refuses. */
  predicate Rejected(size: Word, off: Word, n: Word) {
    BadRange(size, off, n) || off + n > MAXBYTES
  }

  datatype Outcome = Count(n: nat) | Failed | Device | Panicked

  /** What the 32-bit bounds checks of readi and writei reject. */
  predicate BadRange(size: Word, off: Word, n: Word) {
    off > size || (off + n) % U32 < off
  }


  // ---------------------------------------------------- what is on the disk

  function DinodeOf(sb: Superblock, d: Disk, i: nat): Inode
    requires OnDisk(sb, d) && i < sb.ninodes
  {
    GetDinode(d[sb.IBlock(i)], i % IPB)
  }

  /** The inode table on the disk. */
  function Dinodes(sb: Superblock, d: Disk): (r: seq<Inode>)
    requires OnDisk(sb, d)
    ensures |r| == sb.ninodes && forall j :: 0 <= j < |r| ==> r[j] == DinodeOf(sb, d, j)
  {
    seq(sb.ninodes, j requires 0 <= j < sb.ninodes => DinodeOf(sb, d, j))
  }

  /** readsb: the fields of struct superblock that the file system goes by. */
  function SuperOf(b: Block): Superblock {
    Superblock(GetWord(b, 0), GetWord(b, 2), GetWord(b, 5), GetWord(b, 6))
  }

  /** The fields that initlog goes by. */
  function LogSize(b: Block): nat { GetWord(b, 3) }
  function LogStart(b: Block): nat { GetWord(b, 4) }

  /** The cached inodes are the ones on disk, and no file has a hole: the disk alone
      says everything. */
  ghost predicate Whole(sb: Superblock, d: Disk, inodes: seq<Inode>) {
    && OnDisk(sb, d) && |inodes| == sb.ninodes
    && (forall j :: 0 <= j < |inodes| ==> DinodeOf(sb, d, j) == inodes[j])
    && (forall j :: 0 <= j < |inodes| ==> Filled(d, inodes[j]))
  }

  /** From d, p to e, q a write to [off, off + n) of file i has found or made every block
      it needs, has moved none, and has left the inode table on disk alone; without a new
      block the cached inodes are unchanged too. */
  ghost predicate Laid(sb: Superblock, d: Disk, p: seq<Inode>, e: Disk, q: seq<Inode>, i: nat, off: nat, n: nat) {
    && OnDisk(sb, d) && OnDisk(sb, e) && i < |p| && Grows(d, p, e, q)
    && (forall x :: 0 <= x < sb.bmapstart ==> e[x] == d[x])
    && Mapped(e, q[i], off, n) && (Mapped(d, p[i], off, n) ==> q == p)
  }

  lemma {:induction false} LaidMore(sb: Superblock, d: Disk, p: seq<Inode>, e: Disk, q: seq<Inode>, f: Disk,
        r: seq<Inode>, i: nat, off: nat, tot: nat, m: nat)
    requires Laid(sb, d, p, e, q, i, off, tot) && OnDisk(sb, f) && Grows(e, q, f, r)
    requires 0 < m && (off + tot) % BSIZE + m <= BSIZE && off + tot + m <= MAXBYTES
    requires forall x :: 0 <= x < sb.bmapstart ==> f[x] == e[x]
    requires Addr(f, r[i], SlotOf((off + tot) / BSIZE)) != 0
    requires Addr(e, q[i], SlotOf((off + tot) / BSIZE)) != 0 ==> r == q
    ensures Laid(sb, d, p, f, r, i, off, tot + m)
  {
    GrowsTrans(d, p, e, q, f, r);
    MappedGrows(e, q, f, r, i, off, tot);
    forall x | off <= x < off + (tot + m)
      ensures HasBlock(f, r[i], x)
    {
      if x >= off + tot {
        assert x / BSIZE == (off + tot) / BSIZE;
      }
    }
    if Mapped(d, p[i], off, tot + m) {
      assert HasBlock(d, p[i], off + tot);
      assert forall x :: off <= x < off + tot ==> HasBlock(d, p[i], x);
    }
  }

  /** A write inside the file needs no new block. */
  lemma {:induction false} WholeSame(sb: Superblock, d: Disk, p: seq<Inode>, e: Disk, q: seq<Inode>, i: nat, off: nat,
        n: nat)
    requires Whole(sb, d, p) && sb.Valid() && Laid(sb, d, p, e, q, i, off, n) && off + n <= p[i].size
    ensures q == p && Whole(sb, e, q)
  {
    assert Filled(d, p[i]);
    forall j | 0 <= j < |p|
      ensures DinodeOf(sb, e, j) == q[j] && Filled(e, q[j])
    {
      assert DinodeOf(sb, d, j) == p[j] && Filled(d, p[j]);
      MappedGrows(d, p, e, q, j, 0, p[j].size);
    }
  }

  /** A write past the end of the file fills it up to the new end. */
  lemma {:induction false} FilledUp(d: Disk, p: seq<Inode>, e: Disk, q: seq<Inode>, f: Disk, r: seq<Inode>, i: nat,
        off: nat, n: nat)
    requires Grows(d, p, e, q) && Grows(e, q, f, r) && i < |p| && Filled(d, p[i]) && Mapped(e, q[i], off, n)
    requires off <= p[i].size < off + n == r[i].size
    ensures Filled(f, r[i])
  {
    GrowsTrans(d, p, e, q, f, r);
    MappedGrows(d, p, f, r, i, 0, p[i].size);
    MappedGrows(e, q, f, r, i, off, n);
    forall x | 0 <= x < r[i].size
      ensures HasBlock(f, r[i], x)
    {
    }
  }

  lemma {:induction false} WholeGrown(sb: Superblock, d: Disk, p: seq<Inode>, e: Disk, q: seq<Inode>, f: Disk,
        r: seq<Inode>, i: nat, off: nat, n: nat)
    requires Whole(sb, d, p) && Laid(sb, d, p, e, q, i, off, n) && off <= p[i].size < off + n <= MAXBYTES
    requires q == p[i := p[i].(addrs := q[i].addrs)] && r == q[i := q[i].(size := off + n)]
    requires OnDisk(sb, f) && Grows(e, q, f, r) && DinodeOf(sb, f, i) == r[i]
    requires forall j :: 0 <= j < |p| && j != i ==> DinodeOf(sb, f, j) == DinodeOf(sb, e, j)
    ensures Whole(sb, f, r)
  {
    forall j | 0 <= j < |p|
      ensures DinodeOf(sb, f, j) == r[j] && Filled(f, r[j])
    {
      assert DinodeOf(sb, d, j) == p[j] && Filled(d, p[j]);
      if j == i {
        FilledUp(d, p, e, q, f, r, i, off, n);
      } else {
        GrowsTrans(d, p, e, q, f, r);
        MappedGrows(d, p, f, r, j, 0, p[j].size);
      }
    }
  }

  /** Giving up file i's blocks, and writing its inode, leaves the other files filled. */
  lemma {:induction false} WholeTruncated(sb: Superblock, d: Disk, p: seq<Inode>, owner: map<Word, Slot>, e: Disk,
        f: Disk, q: seq<Inode>, i: nat)
    requires Whole(sb, d, p) && Inv(sb, d, p, owner) && i < |p| && q == p[i := Emptied(p[i])]
    requires OnDisk(sb, e) && OnDisk(sb, f) && Grows(e, q, f, q) && DinodeOf(sb, f, i) == q[i]
    requires forall b :: 0 <= b < sb.size && (b < sb.bmapstart || sb.DataStart() <= b) ==> e[b] == d[b]
    requires forall j :: 0 <= j < |p| && j != i ==> DinodeOf(sb, f, j) == DinodeOf(sb, d, j)
    ensures Whole(sb, f, q)
  {
    forall j | 0 <= j < |q|
      ensures DinodeOf(sb, f, j) == q[j] && Filled(f, q[j])
    {
      assert DinodeOf(sb, d, j) == p[j] && Filled(d, p[j]);
      if j != i {
        assert SlotOk(d, p, owner, j, NDIRECT);
        if p[j].addrs[NDIRECT] != 0 {
          assert OwnerOk(sb, d, p, owner, p[j].addrs[NDIRECT]);
        }
        forall x | 0 <= x < q[j].size
          ensures HasBlock(e, q[j], x)
        {
          assert HasBlock(d, p[j], x);
        }
        MappedGrows(e, q, f, q, j, 0, q[j].size);
      }
    }
  }

  /** Only inode i's file has changed: src was written at off.  (Its size field has not
      been touched yet.) */
  ghost predicate OnlyWrote(d: Disk, p: seq<Inode>, e: Disk, q: seq<Inode>, i: nat, off: nat, src: seq<Byte>)
    requires i < |p|
  {
    && |q| == |p| && q == p[i := p[i].(addrs := q[i].addrs)]
    && SameBlocks(d, p, e, q, i) && Wrote(d, p[i], e, q[i], off, src)
  }

  /** The indirect block and its bitmap block, if there is one. */
  ghost function IndLog(sb: Superblock, ind: Word): set<nat> {
    if ind == 0 then {} else {ind, sb.BBlock(ind)}
  }

  /** The blocks one bmap may log: the block, its bitmap block and, past the direct
      blocks, the indirect block and its bitmap block. */
  ghost function BmapLog(sb: Superblock, bn: nat, addr: Word, ind: Word): set<nat> {
    {addr, sb.BBlock(addr)} + if bn < NDIRECT then {} else {ind, sb.BBlock(ind)}
  }

  /** The blocks logged for file block bn: the block and its bitmap block. */
  ghost function BlockLog(sb: Superblock, d: Disk, ino: Inode, bn: nat): set<nat>
    requires bn < MAXFILE
  {
    {Addr(d, ino, SlotOf(bn)), sb.BBlock(Addr(d, ino, SlotOf(bn)))}
  }

  /** s, which lies in one block, has been written at off. */
  ghost predicate ChunkDone(sb: Superblock, d: Disk, p: seq<Inode>, logged0: set<nat>, e: Disk, q: seq<Inode>,
                            owner: map<Word, Slot>, logged: set<nat>, i: nat, off: nat, s: seq<Byte>)
    requires i < |p| && off < MAXBYTES
  {
    var bn := off / BSIZE;
    && OnDisk(sb, d) && Inv(sb, e, q, owner) && OnlyWrote(d, p, e, q, i, off, s) && Grows(d, p, e, q)
    && (forall x :: 0 <= x < sb.bmapstart ==> e[x] == d[x])
    && Addr(e, q[i], SlotOf(bn)) != 0 && (Addr(d, p[i], SlotOf(bn)) != 0 ==> q == p)
    && (p[i].addrs[NDIRECT] != 0 ==> q[i].addrs[NDIRECT] == p[i].addrs[NDIRECT])
    && logged <= logged0 + BlockLog(sb, e, q[i], bn) + IndLog(sb, q[i].addrs[NDIRECT])
  }

  /** Once bmap has found or made room for it, the bytes are copied into the block. */
  lemma {:induction false} ChunkEnds(sb: Superblock, d: Disk, p: seq<Inode>, logged0: set<nat>, e: Disk,
        q: seq<Inode>, owner: map<Word, Slot>, logged: set<nat>, i: nat, off: nat, s: seq<Byte>)
    requires i < |p| && s != [] && off % BSIZE + |s| <= BSIZE && off + |s| <= MAXBYTES
    requires OnDisk(sb, d) && Inv(sb, e, q, owner) && Extends(sb, d, p, e, q)
    requires |p| == |q| && q == p[i := p[i].(addrs := q[i].addrs)]
    requires var bn := off / BSIZE;
             && Addr(e, q[i], SlotOf(bn)) != 0 && (Addr(d, p[i], SlotOf(bn)) != 0 ==> q == p)
             && (bn < NDIRECT || p[i].addrs[NDIRECT] != 0 ==> q[i].addrs[NDIRECT] == p[i].addrs[NDIRECT])
             && (NDIRECT <= bn ==> q[i].addrs[NDIRECT] != 0)
             && logged <= logged0 + BmapLog(sb, bn, Addr(e, q[i], SlotOf(bn)), q[i].addrs[NDIRECT])
    ensures var a := Addr(e, q[i], SlotOf(off / BSIZE));
            && sb.DataStart() <= a < |e|
            && ChunkDone(sb, d, p, logged0, e[a := Patch(e[a], off % BSIZE, s)], q, owner, logged + {a}, i, off, s)
  {
    var bn := off / BSIZE;
    var a := Addr(e, q[i], SlotOf(bn));
    SlotHolds(sb, e, q, owner, i, SlotOf(bn));
    var data := Patch(e[a], off % BSIZE, s);
    DataWrite(sb, e, q, owner, i, bn, data);
    DataGrows(sb, d, p, e, q, owner, i, bn, data);
    ChunkWrote(d, p, e, e[a := data], q, i, off, s);
    SameBlocksTrans(d, p, e, q, e[a := data], q, i);
  }

  /** One more pass of writei's loop. */
  lemma {:induction false} CopiedMore(sb: Superblock, d: Disk, p: seq<Inode>, logged0: set<nat>, touched: set<nat>,
        e: Disk, q: seq<Inode>, owner1: map<Word, Slot>, logged1: set<nat>, f: Disk, r: seq<Inode>,
        owner: map<Word, Slot>, logged: set<nat>, i: nat, src: seq<Byte>, off: nat, tot: nat, next: nat)
    requires i < |p| && tot < |src| && off + |src| <= MAXBYTES && next == tot + ChunkLen(off, tot, |src|)
    requires Copied(sb, d, p, logged0, touched, e, q, owner1, logged1, i, src, off, tot)
    requires ChunkDone(sb, e, q, logged1, f, r, owner, logged, i, off + tot, src[tot..next])
    ensures Copied(sb, d, p, logged0, touched + BlockLog(sb, f, r[i], (off + tot) / BSIZE), f, r, owner, logged,
                   i, src, off, next)
  {
    var m, a := next - tot, Addr(f, r[i], SlotOf((off + tot) / BSIZE));
    WrittenMore(d, p, e, q, f, r, i, off, src, tot, m);
    LaidMore(sb, d, p, e, q, f, r, i, off, tot, m);
    AddTwo(touched, a, sb.BBlock(a));
    SpanStep(off, tot, m);
    assert IndLog(sb, q[i].addrs[NDIRECT]) <= IndLog(sb, r[i].addrs[NDIRECT]);
  }

  /** Inside writei's loop: the first tot bytes of src are written, and so far the blocks
      in touched, at most two for each block written, and the indirect ones are logged. */
  ghost predicate Copied(sb: Superblock, d: Disk, p: seq<Inode>, logged0: set<nat>, touched: set<nat>, e: Disk,
                         q: seq<Inode>, owner: map<Word, Slot>, logged: set<nat>, i: nat, src: seq<Byte>, off: nat,
                         tot: nat)
    requires i < |p| && tot <= |src|
  {
    && (tot == |src| || tot == 0 || (off + tot) % BSIZE == 0)
    && Inv(sb, e, q, owner) && OnlyWrote(d, p, e, q, i, off, src[..tot]) && Laid(sb, d, p, e, q, i, off, tot)
    && |touched| <= 2 * Span(off, tot) && logged <= logged0 + touched + IndLog(sb, q[i].addrs[NDIRECT])
  }

  /** Storing one inode on disk leaves the others as they are. */
  lemma {:induction false} DinodePut(sb: Superblock, d: Disk, i: nat, ino: Inode)
    requires OnDisk(sb, d) && i < sb.ninodes
    ensures sb.IBlock(i) < |d|
    ensures var e := d[sb.IBlock(i) := PutDinode(d[sb.IBlock(i)], i % IPB, ino)];
            forall j :: 0 <= j < sb.ninodes ==> DinodeOf(sb, e, j) == if j == i then ino else DinodeOf(sb, d, j)
  {
    var x := sb.IBlock(i);
    var e := d[x := PutDinode(d[x], i % IPB, ino)];
    forall j | 0 <= j < sb.ninodes
      ensures DinodeOf(sb, e, j) == if j == i then ino else DinodeOf(sb, d, j)
    {
      DinodeRoundTrip(d[x], i % IPB, ino, j % IPB);
      assert j / IPB == i / IPB && j % IPB == i % IPB ==> j == i;
    }
  }

  /** At most file i has changed. */
  ghost predicate OnlyFile(d: Disk, p: seq<Inode>, e: Disk, q: seq<Inode>, i: nat) {
    && |q| == |p| && SameBlocks(d, p, e, q, i)
    && forall j :: 0 <= j < |q| && j != i ==> q[j] == p[j]
  }

  /** Part-way through filewrite: sofar has been written at off to what was file i, f. */
  ghost predicate ProgressTo(sb: Superblock, d: Disk, p: seq<Inode>, e: Disk, q: seq<Inode>, owner: map<Word, Slot>,
                             i: nat, f: seq<Byte>, off: nat, sofar: seq<Byte>)
    requires sofar != [] ==> off <= |f|
  {
    && Inv(sb, e, q, owner) && OnlyFile(d, p, e, q, i) && i < |q| && q[i].itype != T_DEV
    && (Whole(sb, d, p) ==> Whole(sb, e, q))
    && File(e, q[i]) == WrittenTo(f, off, sofar)
  }

  /** One more transaction of filewrite. */
  lemma {:induction false} ProgressMore(sb: Superblock, d: Disk, p: seq<Inode>, e: Disk, q: seq<Inode>,
        owner1: map<Word, Slot>, g: Disk, r: seq<Inode>, owner: map<Word, Slot>, i: nat, f: seq<Byte>, off: nat,
        sofar: seq<Byte>, s: seq<Byte>)
    requires (sofar != [] ==> off <= |f|) && s != []
    requires ProgressTo(sb, d, p, e, q, owner1, i, f, off, sofar)
    requires Inv(sb, g, r, owner) && |r| == |q| && SameBlocks(e, q, g, r, i)
    requires r == q[i := q[i].(addrs := r[i].addrs, size := r[i].size)]
    requires off + |sofar| <= q[i].size && File(g, r[i]) == Splice(File(e, q[i]), off + |sofar|, s)
    requires Whole(sb, e, q) ==> Whole(sb, g, r)
    ensures off <= |f| && ProgressTo(sb, d, p, g, r, owner, i, f, off, sofar + s)
  {
    SameBlocksTrans(d, p, e, q, g, r, i);
    WrittenAppend(f, off, sofar, s);
  }

  /** Inside readi's loop: data is the first tot bytes; nothing but holes has changed. */
  ghost predicate ReadTo(sb: Superblock, d: Disk, p: seq<Inode>, e: Disk, q: seq<Inode>, owner: map<Word, Slot>,
                         i: nat, off: nat, tot: nat, data: seq<Byte>)
    requires i < |p| && p[i].size <= MAXBYTES && off + tot <= p[i].size
  {
    && Inv(sb, e, q, owner) && |q| == |p| && q == p[i := p[i].(addrs := q[i].addrs)]
    && SameBlocks(d, p, e, q, -1) && (Filled(d, p[i]) ==> e == d && q == p)
    && data == File(d, p[i])[off..off + tot]
  }

  /** One more pass of readi's loop. */
  lemma {:induction false} ReadMore(sb: Superblock, d: Disk, p: seq<Inode>, e: Disk, q: seq<Inode>,
        owner1: map<Word, Slot>, f: Disk, r: seq<Inode>, owner: map<Word, Slot>, i: nat, off: nat, tot: nat, next: nat,
        data: seq<Byte>)
    requires i < |p| && p[i].size <= MAXBYTES && tot < next && off + next <= p[i].size
    requires (off + tot) % BSIZE + (next - tot) <= BSIZE
    requires ReadTo(sb, d, p, e, q, owner1, i, off, tot, data)
    requires Inv(sb, f, r, owner) && Extends(sb, e, q, f, r) && r == q[i := q[i].(addrs := r[i].addrs)]
    requires Addr(f, r[i], SlotOf((off + tot) / BSIZE)) != 0
    requires Addr(e, q[i], SlotOf((off + tot) / BSIZE)) != 0 ==> f == e && r == q
    ensures var a, o := Addr(f, r[i], SlotOf((off + tot) / BSIZE)), (off + tot) % BSIZE;
            a < |f| && ReadTo(sb, d, p, f, r, owner, i, off, next, data + f[a][o..o + (next - tot)])
  {
    var bn := (off + tot) / BSIZE;
    SlotHolds(sb, f, r, owner, i, SlotOf(bn));
    SameBlocksTrans(d, p, e, q, f, r, -1);
    ReadBytes(d, p, f, r, i, off, tot, next);
    assert BlockOf(f, r[i], bn) == f[Addr(f, r[i], SlotOf(bn))];
    if Filled(d, p[i]) {
      assert HasBlock(d, p[i], off + tot);
    }
  }

  lemma {:induction false} ReadBytes(d: Disk, p: seq<Inode>, f: Disk, r: seq<Inode>, i: nat, off: nat, tot: nat,
        next: nat)
    requires SameBlocks(d, p, f, r, -1) && i < |p| && r[i].size == p[i].size <= MAXBYTES
    requires tot < next && off + next <= p[i].size && (off + tot) % BSIZE + (next - tot) <= BSIZE
    ensures var o := (off + tot) % BSIZE;
            File(d, p[i])[off..off + tot] + BlockOf(f, r[i], (off + tot) / BSIZE)[o..o + (next - tot)] ==
            File(d, p[i])[off..off + next]
  {
    SameBlocksFile(d, p, f, r, i);
    BlockSlice(f, r[i], off + tot, next - tot);
    Joined(File(d, p[i]), off, off + tot, off + next);
  }

  /** The disk as bread gives it (pending log writes included) and the cached
      inodes.  `owner` is the inverse of the block map; `base` is the disk when the
      transaction began and `logged` the blocks handed to log_write since. */
  class FileSystem {
    const sb: Superblock
    var disk: Disk
    var inodes: seq<Inode>
    ghost var owner: map<Word, Slot>
    ghost var base: Disk
    var logged: set<nat>

    ghost predicate Valid()
      reads this
    {
      Inv(sb, disk, inodes, owner)
    }

    /** Since the transaction began only logged blocks have changed, and they are blocks
        of the file system proper. */
    ghost predicate Tracked()
      reads this`disk, this`base, this`logged
    {
      && |base| == |disk|
      && (forall b :: b in logged ==> sb.inodestart <= b < |disk|)
      && (forall b :: 0 <= b < |disk| && b !in logged ==> disk[b] == base[b])
    }

    /** Adopt a file system image: the super block says where things are, and the inodes
        are those on the disk. */
    constructor (d: Disk, ghost owner: map<Word, Slot>)
      requires |d| > 1 && OnDisk(SuperOf(d[1]), d)
      requires Inv(SuperOf(d[1]), d, Dinodes(SuperOf(d[1]), d), owner)
      ensures sb == SuperOf(d[1]) && disk == d && inodes == Dinodes(sb, d) && this.owner == owner
      ensures Valid() && base == d && logged == {}
      ensures (forall j :: 0 <= j < |inodes| ==> Filled(d, inodes[j])) ==> Whole(sb, disk, inodes)
    {
      sb, disk, inodes, this.owner := SuperOf(d[1]), d, Dinodes(SuperOf(d[1]), d), owner;
      base, logged := d, {};
    }

    /** A transaction begins. */
    method Begin()
      modifies this`base, this`logged
      ensures base == disk && logged == {} && Tracked()
    {
      base, logged := disk, {};
    }

    /** Modify a buffer and log_write it. */
    method LogWrite(b: nat, data: Block)
      requires b < |disk|
      modifies this`disk, this`logged
      ensures disk == old(disk)[b := data] && logged == old(logged) + {b}
      ensures old(Tracked()) && sb.inodestart <= b ==> Tracked()
    {
      disk := disk[b := data];
      logged := logged + {b};
    }

    /** balloc: the lowest free block, marked and zeroed; panics exactly when
        every block is in use. */
    method Balloc() returns (r: Word, panic: bool)
      requires Valid()
      modifies this`disk, this`logged
      ensures panic <==> forall b :: 0 <= b < sb.size ==> Used(sb, old(disk), b)
      ensures panic ==> disk == old(disk)
      ensures !panic ==>
                && sb.DataStart() <= r < sb.size && !Used(sb, old(disk), r)
                && (forall b :: 0 <= b < r ==> Used(sb, old(disk), b))
                && disk == Allocated(sb, old(disk), r)
                && logged == old(logged) + {sb.BBlock(r), r}
      ensures old(Tracked()) ==> Tracked()
    {
      var found;
      r, found := FindFree(sb, disk);
      if !found {
        return 0, true;
      }
      AllocKeeps(sb, disk, inodes, owner, r);
      LogWrite(sb.BBlock(r), SetBit(disk[sb.BBlock(r)], r % BPB));
      LogWrite(r, ZeroBlock());
      return r, false;
    }

    /** bfree; panics exactly when the block is already free. */
    method Bfree(b: Word) returns (panic: bool)
      requires OnDisk(sb, disk) && b < sb.size
      modifies this`disk, this`logged
      ensures panic <==> !Used(sb, old(disk), b)
      ensures disk == if panic then old(disk) else Freed(sb, old(disk), b)
    {
      var blk := b / BPB + sb.bmapstart;
      var bi := b % BPB;
      if !Bit(disk[blk], bi) {
        return true;
      }
      LogWrite(blk, ClearBit(disk[blk], bi));
      return false;
    }

    /** iupdate: the on-disk inode becomes the cached one; no other on-disk
        inode, no file and no block ownership changes. */
    method Iupdate(i: nat)
      requires Valid() && i < |inodes|
      modifies this`disk, this`logged
      ensures Valid() && SameBlocks(old(disk), inodes, disk, inodes, -1)
      ensures FreedExactly(sb, old(disk), disk, {})
      ensures disk == old(disk)[sb.IBlock(i) := disk[sb.IBlock(i)]] && logged == old(logged) + {sb.IBlock(i)}
      ensures DinodeOf(sb, disk, i) == inodes[i] && Grows(old(disk), inodes, disk, inodes)
      ensures forall j :: 0 <= j < |inodes| && j != i ==> DinodeOf(sb, disk, j) == DinodeOf(sb, old(disk), j)
      ensures old(Tracked()) ==> Tracked()
    {
      var x := sb.IBlock(i);
      var data := PutDinode(disk[x], i % IPB, inodes[i]);
      InodeBlockWrite(sb, disk, inodes, owner, x, data);
      GrowsWrite(sb, disk, inodes, owner, x, data);
      DinodePut(sb, disk, i, inodes[i]);
      LogWrite(x, data);
    }

    /** bmap: the address of file block bn, allocating it (and the indirect
        block) if need be.  No file changes, not even this one: the new block
        holds the zeroes the hole read as.  A block that was mapped stays put. */
    method Bmap(i: nat, bn: nat) returns (addr: Word, panic: bool)
      requires Valid() && i < |inodes|
      modifies this`disk, this`inodes, this`owner, this`logged
      ensures panic && bn < MAXFILE ==> OnDisk(sb, disk) && forall b :: 0 <= b < sb.size ==> Used(sb, disk, b)
      ensures bn >= MAXFILE ==> panic
      ensures !panic ==>
                && Valid() && Extends(sb, old(disk), old(inodes), disk, inodes)
                && addr == Addr(disk, inodes[i], SlotOf(bn)) != 0
                && inodes == old(inodes)[i := old(inodes)[i].(addrs := inodes[i].addrs)]
                && (old(Addr(disk, inodes[i], SlotOf(bn))) != 0 ==> disk == old(disk) && inodes == old(inodes))
                && (bn < NDIRECT || old(inodes[i].addrs[NDIRECT]) != 0 ==>
                      inodes[i].addrs[NDIRECT] == old(inodes[i].addrs[NDIRECT]))
                && (NDIRECT <= bn ==> inodes[i].addrs[NDIRECT] != 0)
                && logged <= old(logged) + BmapLog(sb, bn, addr, inodes[i].addrs[NDIRECT])
      ensures old(Tracked()) ==> Tracked()
    {
      ExtendsNone(sb, disk, inodes);
      if bn < NDIRECT {
        addr := inodes[i].addrs[bn];
        panic := false;
        if addr == 0 {
          addr, panic := FillSlot(i, bn);
        }
        return;
      }
      var n := bn - NDIRECT;
      if n < NINDIRECT {
        var ind := inodes[i].addrs[NDIRECT];
        if ind == 0 {
          ind, panic := FillSlot(i, NDIRECT);
          if panic {
            return 0, true;
          }
        }
        ghost var d1, inodes1 := disk, inodes;
        addr, panic := FillEntry(i, n);
        if !panic {
          ExtendsTrans(sb, old(disk), old(inodes), d1, inodes1, disk, inodes);
        }
        return;
      }
      return 0, true;
    }

    /** The entry n of inode i's indirect block, allocated if it was 0. */
    method FillEntry(i: nat, n: nat) returns (addr: Word, panic: bool)
      requires Valid() && i < |inodes| && n < NINDIRECT && inodes[i].addrs[NDIRECT] != 0
      modifies this`disk, this`owner, this`logged
      ensures panic ==> OnDisk(sb, disk) && forall b :: 0 <= b < sb.size ==> Used(sb, disk, b)
      ensures !panic ==>
                && Valid() && Extends(sb, old(disk), inodes, disk, inodes)
                && addr == Addr(disk, inodes[i], NDIRECT + 1 + n) != 0
                && (old(Addr(disk, inodes[i], NDIRECT + 1 + n)) != 0 ==> disk == old(disk))
                && logged <= old(logged) + {addr, sb.BBlock(addr), inodes[i].addrs[NDIRECT]}
      ensures old(Tracked()) ==> Tracked()
    {
      var ind := inodes[i].addrs[NDIRECT];
      SlotHolds(sb, disk, inodes, owner, i, NDIRECT);
      addr := GetWord(disk[ind], n);
      panic := false;
      ExtendsNone(sb, disk, inodes);
      if addr == 0 {
        addr, panic := TakeEntry(i, n);
      }
    }

    /** The entry takes a fresh block. */
    method TakeEntry(i: nat, n: nat) returns (addr: Word, panic: bool)
      requires Valid() && i < |inodes| && n < NINDIRECT && inodes[i].addrs[NDIRECT] != 0
      requires Addr(disk, inodes[i], NDIRECT + 1 + n) == 0
      modifies this`disk, this`owner, this`logged
      ensures panic ==> OnDisk(sb, disk) && forall b :: 0 <= b < sb.size ==> Used(sb, disk, b)
      ensures !panic ==>
                && Valid() && Extends(sb, old(disk), inodes, disk, inodes)
                && addr == Addr(disk, inodes[i], NDIRECT + 1 + n) != 0
                && logged == old(logged) + {addr, sb.BBlock(addr), inodes[i].addrs[NDIRECT]}
      ensures old(Tracked()) ==> Tracked()
    {
      var ind := inodes[i].addrs[NDIRECT];
      addr, panic := Balloc();
      if panic {
        return;
      }
      EntryTaken(sb, old(disk), inodes, owner, i, n, addr);
      LogWrite(ind, SetWord(disk[ind], n, addr));
      owner := owner[addr := Slot(i, NDIRECT + 1 + n)];
    }

    /** An address slot of the inode takes a fresh block. */
    method FillSlot(i: nat, k: nat) returns (addr: Word, panic: bool)
      requires Valid() && i < |inodes| && k <= NDIRECT && inodes[i].addrs[k] == 0
      modifies this`disk, this`inodes, this`owner, this`logged
      ensures panic <==> forall b :: 0 <= b < sb.size ==> Used(sb, old(disk), b)
      ensures panic ==> disk == old(disk)
      ensures !panic ==>
                && Valid() && Extends(sb, old(disk), old(inodes), disk, inodes)
                && addr != 0 && inodes == old(inodes)[i := old(inodes)[i].(addrs := old(inodes)[i].addrs[k := addr])]
                && (k == NDIRECT ==> addr < |disk| && disk[addr] == ZeroBlock())
                && logged == old(logged) + {addr, sb.BBlock(addr)}
      ensures old(Tracked()) ==> Tracked()
    {
      addr, panic := Balloc();
      if panic {
        return;
      }
      SlotTaken(sb, old(disk), inodes, owner, i, k, addr);
      inodes := inodes[i := inodes[i].(addrs := inodes[i].addrs[k := addr])];
      owner := owner[addr := Slot(i, k)];
    }

    /** itrunc: free exactly the blocks inode i maps, and nothing else.  The
        "freeing free block" panic cannot happen. */
    method Itrunc(i: nat) returns (panic: bool)
      requires Valid() && i < |inodes|
      modifies this`disk, this`inodes, this`owner, this`logged
      ensures !panic && Valid()
      ensures inodes == old(inodes)[i := Emptied(old(inodes)[i])] && owner == Without(old(owner), i)
      ensures FreedExactly(sb, old(disk), disk, OwnedBy(old(owner), i))
      ensures SameBlocks(old(disk), old(inodes), disk, inodes, i)
      ensures DinodeOf(sb, disk, i) == inodes[i]
      ensures forall j :: 0 <= j < |inodes| && j != i ==> DinodeOf(sb, disk, j) == DinodeOf(sb, old(disk), j)
      ensures Whole(sb, old(disk), old(inodes)) ==> Whole(sb, disk, inodes)
    {
      panic := ReleaseBlocks(i);
      if panic {
        return;
      }
      ghost var d1 := disk;
      Iupdate(i);
      TruncateEnds(sb, old(disk), old(inodes), old(owner), d1, disk, inodes, i);
    }

    /** itrunc up to its iupdate. */
    method ReleaseBlocks(i: nat) returns (panic: bool)
      requires Valid() && i < |inodes|
      modifies this`disk, this`inodes, this`owner, this`logged
      ensures !panic && Valid()
      ensures inodes == old(inodes)[i := Emptied(old(inodes)[i])] && owner == Without(old(owner), i)
      ensures FreedExactly(sb, old(disk), disk, OwnedBy(old(owner), i))
      ensures SameBlocks(old(disk), old(inodes), disk, inodes, i)
      ensures forall b :: 0 <= b < sb.size && (b < sb.bmapstart || sb.DataStart() <= b) ==> disk[b] == old(disk)[b]
    {
      ghost var d0, inodes0, rest, owner1 := disk, inodes, inodes[i := Emptied(inodes[i])], Without(owner, i);
      DetachAll(sb, disk, inodes, owner, i);
      PrefixEnds(sb, disk, inodes, owner, i);
      var ad;
      panic, ad := FreeDirect(i, d0, rest, owner1);
      if panic {
        return;
      }
      if ad[NDIRECT] != 0 {
        panic := FreeIndirect(i, d0, inodes0, rest, owner1);
        if panic {
          return;
        }
        ad := ad[NDIRECT := 0];
      }
      ClearedAll(inodes0[i]);
      inodes := inodes[i := inodes[i].(addrs := ad, size := 0)];
      assert inodes == rest;
      owner := owner1;
    }

    /** itrunc's first loop: the direct blocks. */
    method FreeDirect(i: nat, ghost d0: Disk, ghost rest: seq<Inode>, ghost owner1: map<Word, Slot>)
        returns (panic: bool, ad: Addrs)
      requires Valid() && i < |inodes| && disk == d0 && owner1 == Without(owner, i)
      requires Freeing(d0, inodes, i, {}, rest, owner1)
      modifies this`disk, this`logged
      ensures !panic && ad == ClearedBelow(inodes[i].addrs, NDIRECT)
      ensures Freeing(d0, inodes, i, Prefix(owner, i, NDIRECT, 0), rest, owner1)
    {
      PrefixEnds(sb, d0, inodes, owner, i);
      ad := inodes[i].addrs;
      var k := 0;
      while k < NDIRECT
        invariant 0 <= k <= NDIRECT
        invariant ad == ClearedBelow(inodes[i].addrs, k)
        invariant Freeing(d0, inodes, i, Prefix(owner, i, k, 0), rest, owner1)
      {
        panic, ad := FreeDirectAt(i, k, ad, d0, rest, owner1);
        if panic {
          return;
        }
        k := k + 1;
      }
      panic := false;
    }

    method FreeDirectAt(i: nat, k: nat, ad: Addrs, ghost d0: Disk, ghost rest: seq<Inode>,
          ghost owner1: map<Word, Slot>)
        returns (panic: bool, r: Addrs)
      requires Inv(sb, d0, inodes, owner) && i < |inodes| && k < NDIRECT && owner1 == Without(owner, i)
      requires ad == ClearedBelow(inodes[i].addrs, k)
      requires Freeing(d0, inodes, i, Prefix(owner, i, k, 0), rest, owner1)
      modifies this`disk, this`logged
      ensures !panic && r == ClearedBelow(inodes[i].addrs, k + 1)
      ensures Freeing(d0, inodes, i, Prefix(owner, i, k + 1, 0), rest, owner1)
    {
      PrefixStep(sb, d0, inodes, owner, i, k, NINDIRECT);
      ClearedMore(inodes[i].addrs, k);
      panic, r := false, ad;
      if ad[k] != 0 {
        panic := FreeSlot(ad[k], d0, inodes, i, k, Prefix(owner, i, k, 0), rest, owner1);
        r := ad[k := 0];
      }
    }

    /** itrunc's second loop: the entries of the indirect block, then the block
        itself.  The entries are not cleared; the block naming them goes. */
    method FreeIndirect(i: nat, ghost d0: Disk, ghost inodes0: seq<Inode>, ghost rest: seq<Inode>,
          ghost owner1: map<Word, Slot>)
        returns (panic: bool)
      requires Inv(sb, d0, inodes0, owner) && i < |inodes0| == |inodes| && owner1 == Without(owner, i)
      requires inodes[i].addrs[NDIRECT] == inodes0[i].addrs[NDIRECT] != 0
      requires Freeing(d0, inodes0, i, Prefix(owner, i, NDIRECT, 0), rest, owner1)
      modifies this`disk, this`logged
      ensures !panic && Freeing(d0, inodes0, i, OwnedBy(owner, i), rest, owner1)
    {
      var ind := inodes[i].addrs[NDIRECT];
      SlotHolds(sb, d0, inodes0, owner, i, NDIRECT);
      var a := disk[ind];
      var j := 0;
      while j < NINDIRECT
        invariant 0 <= j <= NINDIRECT
        invariant Freeing(d0, inodes0, i, Prefix(owner, i, NDIRECT, j), rest, owner1)
      {
        panic := FreeEntryAt(i, j, GetWord(a, j), d0, inodes0, rest, owner1);
        if panic {
          return;
        }
        j := j + 1;
      }
      SlotInverse(sb, d0, inodes0, owner, i, NDIRECT);
      PrefixEnds(sb, d0, inodes0, owner, i);
      panic := FreeSlot(ind, d0, inodes0, i, NDIRECT, Prefix(owner, i, NDIRECT, NINDIRECT), rest, owner1);
    }

    method FreeEntryAt(i: nat, j: nat, e: Word, ghost d0: Disk, ghost inodes0: seq<Inode>, ghost rest: seq<Inode>,
          ghost owner1: map<Word, Slot>)
        returns (panic: bool)
      requires Inv(sb, d0, inodes0, owner) && i < |inodes0| && owner1 == Without(owner, i)
      requires j < NINDIRECT && e == Addr(d0, inodes0[i], NDIRECT + 1 + j)
      requires Freeing(d0, inodes0, i, Prefix(owner, i, NDIRECT, j), rest, owner1)
      modifies this`disk, this`logged
      ensures !panic && Freeing(d0, inodes0, i, Prefix(owner, i, NDIRECT, j + 1), rest, owner1)
    {
      PrefixStep(sb, d0, inodes0, owner, i, NDIRECT, j);
      panic := false;
      if e != 0 {
        panic := FreeSlot(e, d0, inodes0, i, NDIRECT + 1 + j, Prefix(owner, i, NDIRECT, j), rest, owner1);
      }
    }

    /** Inside itrunc of inode i: exactly the blocks in `freed` have been given
        back, nothing outside the free map has changed, and what will be left
        once i lets go of its blocks already satisfies the invariant. */
    ghost predicate Freeing(d0: Disk, inodes0: seq<Inode>, i: nat, freed: set<Word>,
                            rest: seq<Inode>, owner1: map<Word, Slot>)
      reads this
    {
      && FreedExactly(sb, d0, disk, freed)
      && (forall b :: 0 <= b < sb.size && (b < sb.bmapstart || sb.DataStart() <= b) ==> disk[b] == d0[b])
      && Inv(sb, disk, rest, owner1) && SameBlocks(d0, inodes0, disk, rest, i)
    }

    /** bfree of the block in slot s of inode i, during itrunc. */
    method FreeSlot(a: Word, ghost d0: Disk, ghost inodes0: seq<Inode>, ghost i: nat, ghost s: nat,
                    ghost freed: set<Word>, ghost rest: seq<Inode>, ghost owner1: map<Word, Slot>)
        returns (panic: bool)
      requires Inv(sb, d0, inodes0, owner) && i < |inodes0| && s < NSLOTS && a == Addr(d0, inodes0[i], s) != 0
      requires Freeing(d0, inodes0, i, freed, rest, owner1) && a !in freed && owner1 == Without(owner, i)
      modifies this`disk, this`logged
      ensures !panic && Freeing(d0, inodes0, i, freed + {a}, rest, owner1)
    {
      SlotHolds(sb, d0, inodes0, owner, i, s);
      SlotInverse(sb, d0, inodes0, owner, i, s);
      FreeKeeps(sb, disk, rest, owner1, a);
      ghost var d1 := disk;
      panic := Bfree(a);
      SameBlocksTrans(d0, inodes0, d1, rest, disk, rest, i);
    }

    /** readi: exactly the requested slice, clipped to the file's size.  Reading
        a hole may allocate, but no file's contents or size change, and a file without
        holes is read without any change. */
    method Readi(i: nat, off: Word, n: Word) returns (r: Outcome, data: seq<Byte>)
      requires Valid() && i < |inodes|
      modifies this`disk, this`inodes, this`owner, this`logged
      ensures r == Device <==> old(inodes)[i].itype == T_DEV
      ensures r == Failed <==> old(inodes)[i].itype != T_DEV && BadRange(old(inodes)[i].size, off, n)
      ensures r == Device || r == Failed ==> disk == old(disk) && inodes == old(inodes) && owner == old(owner)
      ensures r == Panicked ==> NoSpace(sb, disk)
      ensures r.Count? ==>
                && Valid() && SameBlocks(old(disk), old(inodes), disk, inodes, -1)
                && inodes == old(inodes)[i := old(inodes)[i].(addrs := inodes[i].addrs)]
                && r.n == |data|
                && data == File(old(disk), old(inodes)[i])[off..Min(off + n, old(inodes)[i].size)]
                && (Filled(old(disk), old(inodes)[i]) ==> disk == old(disk) && inodes == old(inodes))
    {
      if inodes[i].itype == T_DEV {
        return Device, [];
      }
      if off > inodes[i].size || (off + n) % U32 < off {
        return Failed, [];
      }
      assert (off + n) % U32 == off + n;
      var n' := if (off + n) % U32 > inodes[i].size then inodes[i].size - off else n;
      var panic;
      panic, data := ReadLoop(i, off, n');
      r := if panic then Panicked else Count(n');
    }

    /** readi's copy loop. */
    method ReadLoop(i: nat, off: Word, n: nat) returns (panic: bool, data: seq<Byte>)
      requires Valid() && i < |inodes| && off + n <= inodes[i].size
      modifies this`disk, this`inodes, this`owner, this`logged
      ensures panic ==> NoSpace(sb, disk)
      ensures !panic ==>
                && Valid() && SameBlocks(old(disk), old(inodes), disk, inodes, -1)
                && inodes == old(inodes)[i := old(inodes)[i].(addrs := inodes[i].addrs)]
                && data == File(old(disk), old(inodes)[i])[off..off + n]
                && (Filled(old(disk), old(inodes)[i]) ==> disk == old(disk) && inodes == old(inodes))
    {
      data := [];
      var tot := 0;
      while tot < n
        invariant 0 <= tot <= n
        invariant ReadTo(sb, old(disk), old(inodes), disk, inodes, owner, i, off, tot, data)
        decreases n - tot
      {
        panic, tot, data := ReadStep(i, off, tot, n, data, old(disk), old(inodes));
        if panic {
          return;
        }
      }
      panic := false;
    }

    /** One pass of readi's loop. */
    method ReadStep(i: nat, off: nat, tot: nat, n: nat, data: seq<Byte>, ghost d0: Disk, ghost inodes0: seq<Inode>)
        returns (panic: bool, next: nat, data': seq<Byte>)
      requires i < |inodes0| && inodes0[i].size <= MAXBYTES && tot < n && off + n <= inodes0[i].size
      requires ReadTo(sb, d0, inodes0, disk, inodes, owner, i, off, tot, data)
      modifies this`disk, this`inodes, this`owner, this`logged
      ensures tot < next <= n
      ensures panic ==> NoSpace(sb, disk)
      ensures !panic ==> ReadTo(sb, d0, inodes0, disk, inodes, owner, i, off, next, data')
    {
      var m := ChunkLen(off, tot, n);
      next := tot + m;
      ghost var d1, inodes1, owner1 := disk, inodes, owner;
      var addr;
      addr, panic := Bmap(i, (off + tot) / BSIZE);
      if panic {
        return true, next, [];
      }
      ReadMore(sb, d0, inodes0, d1, inodes1, owner1, disk, inodes, owner, i, off, tot, next, data);
      data' := data + disk[addr][(off + tot) % BSIZE..(off + tot) % BSIZE + m];
    }

    /** Since d0, inodes0 only inode i's file has changed: src was written at
        off.  (Its size field has not been touched yet.) */
    ghost predicate Written(d0: Disk, inodes0: seq<Inode>, i: nat, off: nat, src: seq<Byte>)
      requires i < |inodes0|
      reads this
    {
      Valid() && OnlyWrote(d0, inodes0, disk, inodes, i, off, src)
    }

    /** One pass of writei's loop: the part of the write that falls in one block. */
    method WriteChunk(i: nat, off: Word, s: seq<Byte>) returns (panic: bool)
      requires Valid() && i < |inodes|
      requires s != [] && off % BSIZE + |s| <= BSIZE && off + |s| <= MAXBYTES
      modifies this`disk, this`inodes, this`owner, this`logged
      ensures panic ==> NoSpace(sb, disk)
      ensures !panic ==>
                ChunkDone(sb, old(disk), old(inodes), old(logged), disk, inodes, owner, logged, i, off, s)
      ensures old(Tracked()) ==> Tracked()
    {
      var bn := off / BSIZE;
      var addr;
      addr, panic := Bmap(i, bn);
      if panic {
        return;
      }
      ChunkEnds(sb, old(disk), old(inodes), old(logged), disk, inodes, owner, logged, i, off, s);
      LogWrite(addr, Patch(disk[addr], off % BSIZE, s));
    }

    /** writei: the file becomes its old contents with src spliced in at off; no
        other file changes.  One call logs at most two blocks per block written,
        the indirect block and its bitmap block, and the inode block. */
    method Writei(i: nat, src: seq<Byte>, off: Word) returns (r: Outcome)
      requires Valid() && i < |inodes| && |src| < U32
      modifies this`disk, this`inodes, this`owner, this`logged
      ensures r == Device <==> old(inodes)[i].itype == T_DEV
      ensures r == Failed <==>
                old(inodes)[i].itype != T_DEV && Rejected(old(inodes)[i].size, off, |src|)
      ensures r == Device || r == Failed ==>
                disk == old(disk) && inodes == old(inodes) && owner == old(owner) && logged == old(logged)
      ensures r == Panicked ==> NoSpace(sb, disk)
      ensures r.Count? ==>
                && r.n == |src| && Valid() && |inodes| == |old(inodes)|
                && SameBlocks(old(disk), old(inodes), disk, inodes, i)
                && inodes == old(inodes)[i := old(inodes)[i].(addrs := inodes[i].addrs, size := inodes[i].size)]
                && File(disk, inodes[i]) == Splice(File(old(disk), old(inodes)[i]), off, src)
                && (off + |src| > old(inodes)[i].size ==> DinodeOf(sb, disk, i) == inodes[i])
                && (Whole(sb, old(disk), old(inodes)) ==> Whole(sb, disk, inodes))
                && |logged - old(logged)| <= 2 * Span(off, |src|) + 3
      ensures old(Tracked()) ==> Tracked()
    {
      if inodes[i].itype == T_DEV {
        return Device;
      }
      var n := |src|;
      if off > inodes[i].size || (off + n) % U32 < off {
        return Failed;
      }
      if (off + n) % U32 > MAXBYTES {
        return Failed;
      }
      var panic;
      ghost var touched;
      panic, touched := WriteLoop(i, src, off);
      if panic {
        return Panicked;
      }
      CountLogged(logged, old(logged), touched, IndLog(sb, inodes[i].addrs[NDIRECT]), sb.IBlock(i));
      EndWrite(i, off, src, old(disk), old(inodes));
      return Count(n);
    }

    /** The end of writei: a longer file gets its new size, on disk too. */
    method EndWrite(i: nat, off: Word, src: seq<Byte>, ghost d0: Disk, ghost inodes0: seq<Inode>)
      requires i < |inodes0| && off <= inodes0[i].size <= MAXBYTES && off + |src| <= MAXBYTES
      requires Written(d0, inodes0, i, off, src) && Laid(sb, d0, inodes0, disk, inodes, i, off, |src|)
      modifies this`disk, this`inodes, this`logged
      ensures Valid() && |inodes| == |inodes0| && SameBlocks(d0, inodes0, disk, inodes, i)
      ensures inodes == inodes0[i := inodes0[i].(addrs := inodes[i].addrs, size := inodes[i].size)]
      ensures inodes[i].addrs == old(inodes)[i].addrs
      ensures logged == old(logged) || logged == old(logged) + {sb.IBlock(i)}
      ensures File(disk, inodes[i]) == Splice(File(d0, inodes0[i]), off, src)
      ensures off + |src| > inodes0[i].size ==> DinodeOf(sb, disk, i) == inodes[i]
      ensures Whole(sb, d0, inodes0) ==> Whole(sb, disk, inodes)
      ensures old(Tracked()) ==> Tracked()
    {
      var n := |src|;
      ghost var d1, inodes1 := disk, inodes;
      if n > 0 && off + n > inodes[i].size {
        Grow(i, off + n, d0, inodes0, off, src);
        if Whole(sb, d0, inodes0) {
          WholeGrown(sb, d0, inodes0, d1, inodes1, disk, inodes, i, off, n);
        }
      } else {
        WroteFile(d0, inodes0[i], disk, inodes[i], off, src);
        if Whole(sb, d0, inodes0) {
          WholeSame(sb, d0, inodes0, disk, inodes, i, off, n);
        }
      }
    }

    /** writei's copy loop. */
    method WriteLoop(i: nat, src: seq<Byte>, off: Word) returns (panic: bool, ghost touched: set<nat>)
      requires Valid() && i < |inodes| && off + |src| <= MAXBYTES
      modifies this`disk, this`inodes, this`owner, this`logged
      ensures panic ==> NoSpace(sb, disk)
      ensures !panic ==>
                && Written(old(disk), old(inodes), i, off, src)
                && Laid(sb, old(disk), old(inodes), disk, inodes, i, off, |src|)
                && logged <= old(logged) + touched + IndLog(sb, inodes[i].addrs[NDIRECT])
                && |touched| <= 2 * Span(off, |src|)
      ensures old(Tracked()) ==> Tracked()
    {
      touched := {};
      StartWrite(disk, inodes, i, off);
      var tot := 0;
      while tot < |src|
        invariant 0 <= tot <= |src|
        invariant Copied(sb, old(disk), old(inodes), old(logged), touched, disk, inodes, owner, logged,
                         i, src, off, tot)
        invariant old(Tracked()) ==> Tracked()
        decreases |src| - tot
      {
        panic, tot, touched := WriteStep(i, src, off, tot, old(disk), old(inodes), old(logged), touched);
        if panic {
          return;
        }
      }
      assert src[..|src|] == src;
      panic := false;
    }

    /** WriteChunk at position tot, with its log bookkeeping. */
    method WriteStep(i: nat, src: seq<Byte>, off: Word, tot: nat, ghost d0: Disk, ghost inodes0: seq<Inode>,
                     ghost logged0: set<nat>, ghost touched: set<nat>)
        returns (panic: bool, next: nat, ghost touched': set<nat>)
      requires i < |inodes0| && tot < |src| && off + |src| <= MAXBYTES
      requires Copied(sb, d0, inodes0, logged0, touched, disk, inodes, owner, logged, i, src, off, tot)
      modifies this`disk, this`inodes, this`owner, this`logged
      ensures tot < next <= |src|
      ensures panic ==> NoSpace(sb, disk)
      ensures !panic ==> Copied(sb, d0, inodes0, logged0, touched', disk, inodes, owner, logged, i, src, off, next)
      ensures old(Tracked()) ==> Tracked()
    {
      next := tot + ChunkLen(off, tot, |src|);
      ghost var d1, inodes1, owner1, logged1 := disk, inodes, owner, logged;
      panic := WriteChunk(i, off + tot, src[tot..next]);
      if panic {
        return true, next, {};
      }
      CopiedMore(sb, d0, inodes0, logged0, touched, d1, inodes1, owner1, logged1, disk, inodes, owner, logged,
                 i, src, off, tot, next);
      touched' := touched + BlockLog(sb, disk, inodes[i], (off + tot) / BSIZE);
    }

    /** The new size, then iupdate. */
    method Grow(i: nat, size: Word, ghost d0: Disk, ghost inodes0: seq<Inode>, ghost off: nat, ghost src: seq<Byte>)
      requires Valid() && i < |inodes| == |inodes0| && inodes[i].size < size == off + |src| <= MAXBYTES
      requires inodes == inodes0[i := inodes0[i].(addrs := inodes[i].addrs)] && off <= inodes0[i].size
      requires SameBlocks(d0, inodes0, disk, inodes, i) && Wrote(d0, inodes0[i], disk, inodes[i], off, src)
      modifies this`disk, this`inodes, this`logged
      ensures Valid() && inodes == old(inodes)[i := old(inodes)[i].(size := size)] && DinodeOf(sb, disk, i) == inodes[i]
      ensures forall j :: 0 <= j < |inodes| && j != i ==> DinodeOf(sb, disk, j) == DinodeOf(sb, old(disk), j)
      ensures Grows(old(disk), old(inodes), disk, inodes)
      ensures SameBlocks(d0, inodes0, disk, inodes, i)
      ensures File(disk, inodes[i]) == Splice(File(d0, inodes0[i]), off, src)
      ensures logged == old(logged) + {sb.IBlock(i)}
      ensures old(Tracked()) ==> Tracked()
    {
      SizeKeeps(sb, disk, inodes, owner, i, size);
      inodes := inodes[i := inodes[i].(size := size)];
      ghost var d1 := disk;
      assert Grows(d1, old(inodes), d1, inodes);
      WroteFile(d0, inodes0[i], disk, inodes[i], off, src);
      Iupdate(i);
      SameBlocksTrans(d0, inodes0, d1, inodes, disk, inodes, i);
      SameBlocksFile(d1, inodes, disk, inodes, i);
      GrowsTrans(d1, old(inodes), d1, inodes, disk, inodes);
    }

    /** One transaction of filewrite. */
    method ChunkWrite(i: nat, s: seq<Byte>, off: Word, ghost d0: Disk, ghost inodes0: seq<Inode>,
                      ghost f: seq<Byte>, ghost off0: nat, ghost sofar: seq<Byte>) returns (w: Outcome)
      requires 0 < |s| <= FILEMAX && off == off0 + |sofar| && (sofar != [] ==> off0 <= |f|)
      requires Progress(i, d0, inodes0, f, off0, sofar)
      modifies this`disk, this`inodes, this`owner, this`base, this`logged
      ensures w != Device && (w == Failed <==> Rejected(old(inodes)[i].size, off, |s|))
      ensures w == Panicked ==> NoSpace(sb, disk)
      ensures w == Failed ==> inodes == old(inodes) && Progress(i, d0, inodes0, f, off0, sofar)
      ensures w.Count? ==>
                && off0 <= |f| && off + |s| <= MAXBYTES && |logged| <= 9
                && Progress(i, d0, inodes0, f, off0, sofar + s)
    {
      Begin();
      w := Writei(i, s, off);
      if w.Count? {
        ChunkFits(off, |s|);
        assert logged - {} == logged;
        ProgressMore(sb, d0, inodes0, old(disk), old(inodes), old(owner), disk, inodes, owner, i, f, off0, sofar, s);
      }
    }

    /** file.c filewrite on an inode: one transaction per chunk of at most
        FILEMAX bytes.  A prefix of the data is written at the file's offset,
        all of it exactly when the call returns n, and no transaction logs more
        than MAXOPBLOCKS - 1 blocks. */
    method Filewrite(i: nat, off: Word, data: seq<Byte>)
          returns (r: int, off': Word, done: nat, panic: bool, ghost peak: nat)
      requires Valid() && i < |inodes| && |data| < 0x8000_0000 && inodes[i].itype != T_DEV
      modifies this`disk, this`inodes, this`owner, this`base, this`logged
      ensures panic ==> NoSpace(sb, disk)
      ensures peak <= 9
      ensures !panic ==>
                && Valid() && OnlyFile(old(disk), old(inodes), disk, inodes, i)
                && (Whole(sb, old(disk), old(inodes)) ==> Whole(sb, disk, inodes))
                && done <= |data| && off' == off + done && r == (if done == |data| then done else -1)
                && (done > 0 ==> off <= old(inodes)[i].size)
                && File(disk, inodes[i]) == WrittenTo(File(old(disk), old(inodes)[i]), off, data[..done])
                && (done < |data| ==>
                      done % FILEMAX == 0 && Rejected(inodes[i].size, off', Min(|data| - done, FILEMAX)))
    {
      ghost var f := File(disk, inodes[i]);
      StartWrite(disk, inodes, i, off);
      var failed;
      off', done, failed, panic, peak := FilewriteLoop(i, off, data, old(disk), old(inodes), f);
      r := if done == |data| then done else -1;
    }

    method FilewriteLoop(i: nat, off: Word, data: seq<Byte>, ghost d0: Disk, ghost inodes0: seq<Inode>,
          ghost f: seq<Byte>)
        returns (off': Word, done: nat, failed: bool, panic: bool, ghost peak: nat)
      requires |data| < 0x8000_0000 && Progress(i, d0, inodes0, f, off, [])
      modifies this`disk, this`inodes, this`owner, this`base, this`logged
      ensures panic ==> NoSpace(sb, disk)
      ensures peak <= 9 && done <= |data| && off' == off + done && (done > 0 ==> off <= |f|)
      ensures !panic ==>
                && Progress(i, d0, inodes0, f, off, data[..done]) && i < |inodes|
                && (done < |data| ==>
                      done % FILEMAX == 0 && Rejected(inodes[i].size, off', Min(|data| - done, FILEMAX)))
    {
      off', done, peak, panic, failed := off, 0, 0, false, false;
      var n := |data|;
      assert data[..done] == [];
      while done < n && !failed
        invariant 0 <= done <= n && off' == off + done && peak <= 9
        invariant done > 0 ==> off <= |f| && off' <= MAXBYTES
        invariant Progress(i, d0, inodes0, f, off, data[..done])
        invariant done == n || done % FILEMAX == 0
        invariant failed ==> done < n && Rejected(inodes[i].size, off', Min(n - done, FILEMAX))
        decreases !failed, n - done
      {
        var w;
        w, done := FilewriteStep(i, off, data, done, d0, inodes0, f);
        if w == Panicked {
          panic := true;
          return;
        }
        failed := w == Failed;
        if !failed {
          peak := if |logged| > peak then |logged| else peak;
          off' := off + done;
        }
      }
    }

    /** One pass of filewrite's loop. */
    method FilewriteStep(i: nat, off: Word, data: seq<Byte>, done: nat, ghost d0: Disk, ghost inodes0: seq<Inode>,
          ghost f: seq<Byte>)
        returns (w: Outcome, next: nat)
      requires done < |data| && done % FILEMAX == 0 && (done > 0 ==> off <= |f| && off + done <= MAXBYTES)
      requires Progress(i, d0, inodes0, f, off, data[..done])
      modifies this`disk, this`inodes, this`owner, this`base, this`logged
      ensures next <= |data| && (next > 0 ==> off <= |f|) && (next == |data| || next % FILEMAX == 0)
      ensures w == Panicked ==> NoSpace(sb, disk) && next == done
      ensures w != Panicked ==> Progress(i, d0, inodes0, f, off, data[..next]) && i < |inodes|
      ensures w == Failed ==> next == done && Rejected(inodes[i].size, off + done, Min(|data| - done, FILEMAX))
      ensures w != Panicked && w != Failed ==> done < next && off + next <= MAXBYTES && |logged| <= 9
    {
      next := if |data| - done > FILEMAX then done + FILEMAX else |data|;
      NextChunk(done);
      var s := data[done..next];
      ghost var sofar, more := data[..done], data[..next];
      Joined(data, 0, done, next);
      w := ChunkWrite(i, s, off + done, d0, inodes0, f, off, sofar);
      if w.Count? {
        assert Progress(i, d0, inodes0, f, off, more);
      } else {
        next := done;
      }
    }

    /** Part-way through filewrite: `sofar` has been written at off. */
    ghost predicate Progress(i: nat, d0: Disk, inodes0: seq<Inode>, f: seq<Byte>, off: nat, sofar: seq<Byte>)
      requires sofar != [] ==> off <= |f|
      reads this
    {
      ProgressTo(sb, d0, inodes0, disk, inodes, owner, i, f, off, sofar)
    }

  }

  lemma {:induction false} DataGrows(sb: Superblock, d: Disk, p: seq<Inode>, e: Disk, q: seq<Inode>,
        owner: map<Word, Slot>, i: nat, bn: nat, data: Block)
    requires Inv(sb, e, q, owner) && Grows(d, p, e, q) && i < |q| && bn < MAXFILE
    requires 0 < Addr(e, q[i], SlotOf(bn)) < |e|
    ensures var f := e[Addr(e, q[i], SlotOf(bn)) := data];
            && Grows(d, p, f, q) && forall x :: 0 <= x < sb.bmapstart ==> f[x] == e[x]
  {
    var a := Addr(e, q[i], SlotOf(bn));
    assert SlotOk(e, q, owner, i, SlotOf(bn)) && OwnerOk(sb, e, q, owner, a);
    GrowsWrite(sb, e, q, owner, a, data);
    GrowsTrans(d, p, e, q, e[a := data], q);
  }

  /** src[..tot] is written, then the m bytes after it. */
  lemma {:induction false} WrittenMore(d: Disk, p: seq<Inode>, e: Disk, q: seq<Inode>, f: Disk, r: seq<Inode>, i: nat,
        off: nat, src: seq<Byte>, tot: nat, m: nat)
    requires i < |p| && tot + m <= |src| && SameBlocks(d, p, e, q, i) && SameBlocks(e, q, f, r, i)
    requires q == p[i := p[i].(addrs := q[i].addrs)] && r == q[i := q[i].(addrs := r[i].addrs)]
    requires Wrote(d, p[i], e, q[i], off, src[..tot]) && Wrote(e, q[i], f, r[i], off + tot, src[tot..tot + m])
    ensures r == p[i := p[i].(addrs := r[i].addrs)] && SameBlocks(d, p, f, r, i)
    ensures Wrote(d, p[i], f, r[i], off, src[..tot + m])
  {
    Joined(src, 0, tot, tot + m);
    WroteTrans(d, p[i], e, q[i], f, r[i], off, src[..tot], src[tot..tot + m]);
  }

  lemma {:induction false} NextChunk(n: nat)
    requires n % FILEMAX == 0
    ensures (n + FILEMAX) % FILEMAX == 0
  {
  }

  /** An inode's size is no part of its block map. */
  lemma {:induction false} SizeKeeps(sb: Superblock, d: Disk, inodes: seq<Inode>, owner: map<Word, Slot>, i: nat,
        size: Word)
    requires Inv(sb, d, inodes, owner) && i < |inodes| && size <= MAXBYTES
    ensures var others := inodes[i := inodes[i].(size := size)];
            && Inv(sb, d, others, owner) && SameBlocks(d, inodes, d, others, -1)
            && forall p :: 0 <= p < MAXBYTES ==> FileByte(d, others[i], p) == FileByte(d, inodes[i], p)
  {
    var others := inodes[i := inodes[i].(size := size)];
    forall j, k | 0 <= j < |inodes| && 0 <= k < NSLOTS
      ensures SlotOk(d, others, owner, j, k)
    {
      assert SlotOk(d, inodes, owner, j, k);
    }
    forall a | a in owner
      ensures OwnerOk(sb, d, others, owner, a)
    {
      assert OwnerOk(sb, d, inodes, owner, a);
    }
  }

  lemma {:induction false} CountLogged(after: set<nat>, before: set<nat>, touched: set<nat>, ind: set<nat>, x: nat)
    requires after <= before + touched + ind && |ind| <= 2
    ensures |after - before| <= |touched| + 2
    ensures |after + {x} - before| <= |touched| + 3
  {
    SubsetSize(after - before, touched + ind);
    SubsetSize(after + {x} - before, touched + ind + {x});
  }

  lemma {:induction false} AddTwo(s: set<nat>, a: nat, b: nat)
    ensures |s + {a, b}| <= |s| + 2
  {
    assert s + {a, b} == (s + {a}) + {b};
  }

  /** The bytes that are left and still fit the current block. */
  function ChunkLen(off: nat, tot: nat, n: nat): (m: nat)
    requires tot < n
    ensures 0 < m <= n - tot && (off + tot) % BSIZE + m <= BSIZE
    ensures tot + m == n || (off + tot + m) % BSIZE == 0
  {
    Min(n - tot, BSIZE - (off + tot) % BSIZE)
  }

  lemma {:induction false} SpanStep(off: nat, tot: nat, m: nat)
    requires 0 < m && (off + tot) % BSIZE + m <= BSIZE
    requires tot == 0 || (off + tot) % BSIZE == 0
    ensures Span(off, tot + m) == Span(off, tot) + 1
  {
  }

  lemma {:induction false} ChunkWrote(d: Disk, inodes: seq<Inode>, d1: Disk, e: Disk, others: seq<Inode>, i: nat,
        off: nat, s: seq<Byte>)
    requires i < |inodes| == |others|
    requires off + |s| <= MAXBYTES && off % BSIZE + |s| <= BSIZE && s != []
    requires SameBlocks(d, inodes, d1, others, -1) && SameBlocks(d1, others, e, others, i)
    requires forall m :: 0 <= m < MAXFILE ==>
               BlockOf(e, others[i], m) ==
               if m == off / BSIZE then Patch(BlockOf(d1, others[i], m), off % BSIZE, s) else BlockOf(d1, others[i], m)
    ensures Wrote(d, inodes[i], e, others[i], off, s) && SameBlocks(d, inodes, e, others, i)
  {
    BlockWrote(d, inodes[i], e, others[i], off, s);
  }

  lemma {:induction false} Joined<T>(s: seq<T>, a: nat, b: nat, c: nat)
    requires a <= b <= c <= |s|
    ensures s[a..b] + s[b..c] == s[a..c]
    ensures a == 0 ==> s[..b] + s[b..c] == s[..c]
  {
  }

  lemma {:induction false} StartWrite(d: Disk, inodes: seq<Inode>, i: nat, off: nat)
    requires i < |inodes|
    ensures SameBlocks(d, inodes, d, inodes, i) && Wrote(d, inodes[i], d, inodes[i], off, [])
  {
  }

  lemma {:induction false} OtherFile(d: Disk, p: seq<Inode>, e: Disk, q: seq<Inode>, i: nat, j: nat)
    requires SameBlocks(d, p, e, q, i) && j < |p| && j != i && q[j] == p[j] && p[j].size <= MAXBYTES
    ensures File(e, q[j]) == File(d, p[j])
  {
    forall x | 0 <= x < p[j].size
      ensures FileByte(e, q[j], x) == FileByte(d, p[j], x)
    {
      assert BlockOf(e, q[j], x / BSIZE) == BlockOf(d, p[j], x / BSIZE);
    }
  }

  lemma {:induction false} SameBlocksFile(d: Disk, inodes: seq<Inode>, e: Disk, others: seq<Inode>, i: nat)
    requires SameBlocks(d, inodes, e, others, -1) && i < |inodes| && inodes[i].size == others[i].size <= MAXBYTES
    ensures File(d, inodes[i]) == File(e, others[i])
  {
    SameBlocksWrote(d, inodes, e, others, i);
    WroteFile(d, inodes[i], e, others[i], 0, []);
    assert Splice(File(d, inodes[i]), 0, []) == File(d, inodes[i]);
  }

  ghost predicate NoSpace(sb: Superblock, d: Disk) {
    OnDisk(sb, d) && forall b :: 0 <= b < sb.size ==> Used(sb, d, b)
  }

  function Min(a: int, b: int): int { if a < b then a else b }

  /** itrunc as a whole: e is the disk when the blocks are free, f once the inode is
      written. */
  lemma {:induction false} TruncateEnds(sb: Superblock, d: Disk, p: seq<Inode>, owner: map<Word, Slot>, e: Disk,
        f: Disk, q: seq<Inode>, i: nat)
    requires Inv(sb, d, p, owner) && i < |p| && q == p[i := Emptied(p[i])] && OnDisk(sb, e) && OnDisk(sb, f)
    requires FreedExactly(sb, d, e, OwnedBy(owner, i)) && SameBlocks(d, p, e, q, i)
    requires forall b :: 0 <= b < sb.size && (b < sb.bmapstart || sb.DataStart() <= b) ==> e[b] == d[b]
    requires FreedExactly(sb, e, f, {}) && SameBlocks(e, q, f, q, -1) && Grows(e, q, f, q)
    requires DinodeOf(sb, f, i) == q[i]
    requires forall j :: 0 <= j < |q| && j != i ==> DinodeOf(sb, f, j) == DinodeOf(sb, e, j)
    ensures FreedExactly(sb, d, f, OwnedBy(owner, i)) && SameBlocks(d, p, f, q, i)
    ensures forall j :: 0 <= j < |q| && j != i ==> DinodeOf(sb, f, j) == DinodeOf(sb, d, j)
    ensures Whole(sb, d, p) ==> Whole(sb, f, q)
  {
    assert forall j :: 0 <= j < |q| ==> DinodeOf(sb, e, j) == DinodeOf(sb, d, j);
    SameBlocksTrans(d, p, e, q, f, q, i);
    FreedThenNone(sb, d, e, f, OwnedBy(owner, i));
    if Whole(sb, d, p) {
      WholeTruncated(sb, d, p, owner, e, f, q, i);
    }
  }

  /** The first k addresses set to 0. */
  function ClearedBelow(a: Addrs, k: nat): (r: Addrs)
    requires k <= NDIRECT
    ensures forall m :: 0 <= m <= NDIRECT ==> r[m] == if m < k then 0 else a[m]
  {
    if k == 0 then a else ClearedBelow(a, k - 1)[k - 1 := 0]
  }

  lemma {:induction false} ClearedMore(a: Addrs, k: nat)
    requires k < NDIRECT
    ensures var c := ClearedBelow(a, k);
            c[k] == a[k] && ClearedBelow(a, k + 1) == c[k := 0] && (a[k] == 0 ==> ClearedBelow(a, k + 1) == c)
  {
  }

  lemma {:induction false} ClearedAll(ino: Inode)
    ensures var c := ClearedBelow(ino.addrs, NDIRECT);
            c[NDIRECT] == ino.addrs[NDIRECT] && (if c[NDIRECT] != 0 then c[NDIRECT := 0] else c) == Emptied(ino).addrs
  {
  }

  /** Between two disks exactly the blocks in `freed` became free. */
  ghost predicate FreedExactly(sb: Superblock, d: Disk, e: Disk, freed: set<Word>) {
    && OnDisk(sb, d) && OnDisk(sb, e)
    && forall b :: 0 <= b < sb.size ==> (Used(sb, e, b) <==> Used(sb, d, b) && b !in freed)
  }

  lemma {:induction false} FreedThenNone(sb: Superblock, d: Disk, e: Disk, f: Disk, freed: set<Word>)
    requires FreedExactly(sb, d, e, freed) && FreedExactly(sb, e, f, {})
    ensures FreedExactly(sb, d, f, freed)
  {
  }
}

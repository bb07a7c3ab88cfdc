/** mkfs.c: the file-system image it writes satisfies the invariant that the kernel's
    block operations keep, and holds the files it was given. */
module Mkfs {
  import opened Common
  import opened Blocks
  import opened FileBlocks
  import opened Fs

  const FSSIZE := 1000
  const NINODES := 200
  const INODES := 32     // 2 + nlog
  const BMAP := 45       // INODES + ninodeblocks
  const NMETA := 46      // boot, super, log, inode and bitmap blocks
  const ROOTINO := 1
  const T_DIR := 1
  const T_FILE := 2

  function Sb(): Superblock { Superblock(FSSIZE, NINODES, INODES, BMAP) }

  const NLOG := 30
  const LOGSTART := 2

  /** struct superblock, in the block that holds it. */
  function Super(): Block {
    var b := SetWord(SetWord(ZeroBlock(), 0, FSSIZE), 1, FSSIZE - NMETA);
    var c := SetWord(SetWord(b, 2, NINODES), 3, NLOG);
    SetWord(SetWord(SetWord(c, 4, LOGSTART), 5, INODES), 6, BMAP)
  }

  /** The kernel reads the layout mkfs has used, and where the log is. */
  predicate LaidOut(b: Block) { SuperOf(b) == Sb() && LogSize(b) == NLOG && LogStart(b) == LOGSTART }

  lemma {:induction false} SuperRead()
    ensures LaidOut(Super())
  {
    var b := SetWord(SetWord(ZeroBlock(), 0, FSSIZE), 1, FSSIZE - NMETA);
    var c := SetWord(SetWord(b, 2, NINODES), 3, NLOG);
    var e := SetWord(SetWord(c, 4, LOGSTART), 5, INODES);
    forall w | w == 0 || 2 <= w < 7
      ensures GetWord(Super(), w) == if w == 6 then BMAP else GetWord(e, w)
      ensures w < 6 ==> GetWord(e, w) == if w == 5 then INODES else if w == 4 then LOGSTART else GetWord(c, w)
      ensures w < 4 ==> GetWord(c, w) == if w == 3 then NLOG else if w == 2 then NINODES else FSSIZE
    {
      GetSetWord(e, 6, BMAP, w);
      GetSetWord(SetWord(c, 4, LOGSTART), 5, INODES, w);
      GetSetWord(c, 4, LOGSTART, w);
      GetSetWord(SetWord(b, 2, NINODES), 3, NLOG, w);
      GetSetWord(b, 2, NINODES, w);
      GetSetWord(SetWord(ZeroBlock(), 0, FSSIZE), 1, FSSIZE - NMETA, w);
      GetSetWord(ZeroBlock(), 0, FSSIZE, w);
    }
  }

  /** The boot block, the super block and an empty log. */
  predicate FrontOk(disk: Disk, super: Block) {
    |disk| == FSSIZE && disk[1] == super && forall b :: 0 <= b < INODES && b != 1 ==> disk[b] == ZeroBlock()
  }

  // ---------------------------------------------------------------- the free map

  /** The bitmap block with the first n bits set. */
  function Marked(n: nat): Block
    requires n <= BPB
  {
    if n == 0 then ZeroBlock() else SetBit(Marked(n - 1), n - 1)
  }

  lemma {:induction false} ZeroBits(n: nat, j: nat)
    requires n == 0
    ensures !NatBit(n, j)
    decreases j
  {
    if j > 0 {
      ZeroBits(n / 2, j - 1);
    }
  }

  lemma {:induction false} MarkedBit(n: nat, k: nat)
    requires n <= BPB && k < BPB
    ensures Bit(Marked(n), k) <==> k < n
  {
    if n == 0 {
      ZeroBits(0, k % 8);
    } else {
      MarkedBit(n - 1, k);
      BitUpdate(Marked(n - 1), n - 1, k);
    }
  }

  /** The image as it will be once the bitmap is written. */
  function Finished(disk: Disk, freeblock: nat): Disk
    requires |disk| == FSSIZE && freeblock <= FSSIZE
  {
    disk[BMAP := Marked(freeblock)]
  }

  lemma {:induction false} FinishedUsed(disk: Disk, freeblock: nat, b: nat)
    requires |disk| == FSSIZE && freeblock <= FSSIZE && b < FSSIZE
    ensures Used(Sb(), Finished(disk, freeblock), b) <==> b < freeblock
  {
    assert b / BPB == 0 && b % BPB == b;
    MarkedBit(freeblock, b);
  }

  /** Taking the next block is the kernel's balloc on the finished image. */
  lemma {:induction false} TakeIsAlloc(disk: Disk, b: nat)
    requires |disk| == FSSIZE && NMETA <= b < FSSIZE && disk[b] == ZeroBlock()
    ensures Finished(disk, b + 1) == Allocated(Sb(), Finished(disk, b), b)
    ensures !Used(Sb(), Finished(disk, b), b)
  {
    assert b / BPB == 0 && b % BPB == b;
    FinishedUsed(disk, b, b);
    assert Finished(disk, b)[b := ZeroBlock()] == Finished(disk, b);
  }

  function ZeroInode(): Inode { Inode(0, 0, 0, 0, 0, [0, 0, 0, 0, 0, 0, 0, 0, 0, 0, 0, 0, 0]) }

  function OnDiskInode(disk: Disk, i: nat): Inode
    requires |disk| == FSSIZE && i < NINODES
  {
    GetDinode(disk[i / IPB + INODES], i % IPB)
  }

  /** Past its end a file reads as zeroes. */
  ghost predicate ZeroTail(d: Disk, ino: Inode) {
    forall p :: ino.size <= p < MAXBYTES ==> FileByte(d, ino, p) == 0
  }

  lemma {:induction false} TailsStay(d: Disk, p: seq<Inode>, e: Disk, q: seq<Inode>, i: int)
    requires SameBlocks(d, p, e, q, i) && (forall j :: 0 <= j < |p| && j != i ==>
               q[j].size == p[j].size && ZeroTail(d, p[j]))
    ensures forall j :: 0 <= j < |q| && j != i ==> ZeroTail(e, q[j])
  {
    forall j, x | 0 <= j < |q| && j != i && q[j].size <= x < MAXBYTES
      ensures FileByte(e, q[j], x) == 0
    {
      assert BlockOf(e, q[j], x / BSIZE) == BlockOf(d, p[j], x / BSIZE);
      assert FileByte(d, p[j], x) == 0;
    }
  }

  /** The file has exactly the blocks that off bytes take. */
  ghost predicate SnugTo(d: Disk, ino: Inode, off: nat) {
    forall bn :: 0 <= bn < MAXFILE ==> (Addr(d, ino, SlotOf(bn)) != 0 <==> bn * BSIZE < off)
  }

  ghost predicate SnugBut(d: Disk, inodes: seq<Inode>, i: int) {
    forall j :: 0 <= j < |inodes| && j != i ==> SnugTo(d, inodes[j], inodes[j].size)
  }

  /** Of all file blocks only block fbn of file i may be mapped anew. */
  ghost predicate Fills(d: Disk, p: seq<Inode>, e: Disk, q: seq<Inode>, i: nat, fbn: nat) {
    && |p| == |q|
    && forall j, bn :: 0 <= j < |p| && 0 <= bn < MAXFILE && !(j == i && bn == fbn) ==>
         Addr(e, q[j], SlotOf(bn)) == Addr(d, p[j], SlotOf(bn))
  }

  lemma {:induction false} TakesFills(d: Disk, p: seq<Inode>, e: Disk, q: seq<Inode>, i: nat, k: nat, b: Word, fbn: nat)
    requires Takes(d, p, e, q, i, k, b) && (k == SlotOf(fbn) || k == NDIRECT)
    ensures Fills(d, p, e, q, i, fbn)
  {
  }

  lemma {:induction false} FillsTrans(d: Disk, p: seq<Inode>, e: Disk, q: seq<Inode>, f: Disk, r: seq<Inode>, i: nat,
        fbn: nat)
    requires Fills(d, p, e, q, i, fbn) && Fills(e, q, f, r, i, fbn)
    ensures Fills(d, p, f, r, i, fbn)
  {
  }

  /** A file that is one chunk longer, with that chunk's block. */
  lemma {:induction false} SnugMore(d: Disk, p: seq<Inode>, e: Disk, q: seq<Inode>, i: nat, off: nat, n: nat)
    requires Fills(d, p, e, q, i, off / BSIZE) && i < |p| && SnugTo(d, p[i], off)
    requires 0 < n && off % BSIZE + n <= BSIZE && off + n <= MAXBYTES && Addr(e, q[i], SlotOf(off / BSIZE)) != 0
    ensures SnugTo(e, q[i], off + n)
  {
    forall bn | 0 <= bn < MAXFILE
      ensures Addr(e, q[i], SlotOf(bn)) != 0 <==> bn * BSIZE < off + n
    {
      if bn != off / BSIZE {
        assert bn * BSIZE < off + n <==> bn * BSIZE < off;
      }
    }
  }

  lemma {:induction false} SnugOthers(d: Disk, p: seq<Inode>, e: Disk, q: seq<Inode>, i: nat, fbn: nat)
    requires Fills(d, p, e, q, i, fbn) && SnugBut(d, p, i)
    requires forall j :: 0 <= j < |p| && j != i ==> q[j].size == p[j].size
    ensures SnugBut(e, q, i)
  {
    forall j, bn | 0 <= j < |q| && j != i && 0 <= bn < MAXFILE
      ensures Addr(e, q[j], SlotOf(bn)) != 0 <==> bn * BSIZE < q[j].size
    {
      assert SnugTo(d, p[j], p[j].size);
    }
  }

  lemma {:induction false} SnugSize(d: Disk, p: seq<Inode>, q: seq<Inode>, i: nat, off: nat)
    requires SnugBut(d, p, i) && i < |p| && SnugTo(d, p[i], off) && |q| == |p|
    requires q[i].addrs == p[i].addrs && q[i].size == off && forall j :: 0 <= j < |p| && j != i ==> q[j] == p[j]
    ensures SnugBut(d, q, -1)
  {
    forall bn | 0 <= bn < MAXFILE
      ensures Addr(d, q[i], SlotOf(bn)) != 0 <==> bn * BSIZE < off
    {
      assert Addr(d, q[i], SlotOf(bn)) == Addr(d, p[i], SlotOf(bn));
    }
  }

  lemma {:induction false} SnugSame(d: Disk, e: Disk, inodes: seq<Inode>, i: int)
    requires SnugBut(d, inodes, i)
    requires forall j, m :: 0 <= j < |inodes| && 0 <= m < NSLOTS ==> Addr(e, inodes[j], m) == Addr(d, inodes[j], m)
    ensures SnugBut(e, inodes, i)
  {
    forall j, bn | 0 <= j < |inodes| && j != i && 0 <= bn < MAXFILE
      ensures Addr(e, inodes[j], SlotOf(bn)) != 0 <==> bn * BSIZE < inodes[j].size
    {
      assert SnugTo(d, inodes[j], inodes[j].size);
    }
  }

  /** Such a file has no hole, and rounding its size up past a block boundary makes one
      exactly when the file ended there. */
  lemma {:induction false} SnugRounded(d: Disk, ino: Inode, size: Word)
    requires SnugTo(d, ino, ino.size) && size == (ino.size / BSIZE + 1) * BSIZE <= MAXBYTES
    ensures Filled(d, ino) && (Filled(d, ino.(size := size)) <==> ino.size % BSIZE != 0)
  {
    var big := ino.(size := size);
    SnugFilled(d, ino);
    if ino.size % BSIZE != 0 {
      forall p | 0 <= p < size
        ensures HasBlock(d, big, p)
      {
        assert p / BSIZE * BSIZE < ino.size;
        assert Addr(d, big, SlotOf(p / BSIZE)) == Addr(d, ino, SlotOf(p / BSIZE));
      }
    } else {
      assert ino.size / BSIZE * BSIZE == ino.size < size;
      assert Addr(d, big, SlotOf(ino.size / BSIZE)) == Addr(d, ino, SlotOf(ino.size / BSIZE));
      assert !HasBlock(d, big, ino.size);
    }
  }

  lemma {:induction false} RoundedUp(d: Disk, p: seq<Inode>, e: Disk, q: seq<Inode>, size: Word)
    requires |p| == NINODES && SnugBut(d, p, -1) && q == p[ROOTINO := p[ROOTINO].(size := size)]
    requires size == (p[ROOTINO].size / BSIZE + 1) * BSIZE <= MAXBYTES
    requires forall j :: 0 <= j < |p| ==> p[j].size <= MAXBYTES
    requires forall j, m :: 0 <= j < |q| && 0 <= m < NSLOTS ==> Addr(e, q[j], m) == Addr(d, q[j], m)
    ensures forall j :: 0 <= j < NINODES && j != ROOTINO ==> Filled(e, q[j])
    ensures Filled(e, q[ROOTINO]) <==> p[ROOTINO].size % BSIZE != 0
  {
    forall j | 0 <= j < NINODES
      ensures Filled(e, q[j]) <==> Filled(d, q[j])
      ensures j != ROOTINO ==> Filled(d, q[j])
    {
      assert forall x :: HasBlock(e, q[j], x) <==> HasBlock(d, q[j], x);
      assert SnugTo(d, p[j], p[j].size);
      SnugFilled(d, p[j]);
    }
    SnugRounded(d, p[ROOTINO], size);
  }

  lemma {:induction false} SnugFilled(d: Disk, ino: Inode)
    requires SnugTo(d, ino, ino.size) && ino.size <= MAXBYTES
    ensures Filled(d, ino)
  {
    forall p | 0 <= p < ino.size
      ensures HasBlock(d, ino, p)
    {
      assert p / BSIZE * BSIZE < ino.size;
    }
  }

  predicate IsRoot(ino: Inode) { ino.itype == T_DIR && ino.nlink == 1 }

  /** rinode reads what the ghost table says, for every inode but the one in hand. */
  ghost predicate StoredBut(disk: Disk, inodes: seq<Inode>, i: int)
    requires |disk| == FSSIZE && |inodes| == NINODES
  {
    forall j :: 0 <= j < NINODES && j != i ==> OnDiskInode(disk, j) == inodes[j]
  }

  /** Two inodes in one block are different dinodes of it. */
  lemma {:induction false} SlotsApart(i: nat, j: nat)
    requires i != j && i / IPB == j / IPB
    ensures i % IPB != j % IPB
  {
  }

  lemma {:induction false} StoredSlot(disk: Disk, e: Disk, i: nat, ino: Inode, j: nat)
    requires |disk| == FSSIZE && i < NINODES && j < NINODES
    requires e == disk[i / IPB + INODES := PutDinode(disk[i / IPB + INODES], i % IPB, ino)]
    ensures OnDiskInode(e, j) == if j == i then ino else OnDiskInode(disk, j)
  {
    DinodeRoundTrip(disk[i / IPB + INODES], i % IPB, ino, j % IPB);
    if j != i && j / IPB == i / IPB {
      SlotsApart(i, j);
    }
  }

  lemma {:induction false} StoreInode(disk: Disk, inodes: seq<Inode>, i: nat, ino: Inode)
    requires |disk| == FSSIZE && |inodes| == NINODES && i < NINODES && StoredBut(disk, inodes, i)
    ensures var x := i / IPB + INODES;
            x < BMAP && StoredBut(disk[x := PutDinode(disk[x], i % IPB, ino)], inodes[i := ino], -1)
  {
    var x := i / IPB + INODES;
    var e, others := disk[x := PutDinode(disk[x], i % IPB, ino)], inodes[i := ino];
    forall j | 0 <= j < NINODES
      ensures OnDiskInode(e, j) == others[j]
    {
      StoredSlot(disk, e, i, ino, j);
    }
  }

  lemma {:induction false} InodeWritten(disk: Disk, freeblock: nat, inodes: seq<Inode>, owner: map<Word, Slot>, i: nat,
        ino: Inode)
    requires |disk| == FSSIZE && freeblock <= FSSIZE && |inodes| == NINODES && i < NINODES && inodes[i] == ino
    requires Inv(Sb(), Finished(disk, freeblock), inodes, owner) && StoredBut(disk, inodes, i)
    ensures var x := i / IPB + INODES;
            var e := disk[x := PutDinode(disk[x], i % IPB, ino)];
            && x < BMAP && StoredBut(e, inodes, -1)
            && Inv(Sb(), Finished(e, freeblock), inodes, owner)
            && SameBlocks(Finished(disk, freeblock), inodes, Finished(e, freeblock), inodes, -1)
            && forall j, m :: 0 <= j < |inodes| && 0 <= m < NSLOTS ==>
                 Addr(Finished(e, freeblock), inodes[j], m) == Addr(Finished(disk, freeblock), inodes[j], m)
  {
    StoreInode(disk, inodes, i, ino);
    var x := i / IPB + INODES;
    var buf := PutDinode(disk[x], i % IPB, ino);
    assert inodes[i := ino] == inodes;
    InodeBlockWrite(Sb(), Finished(disk, freeblock), inodes, owner, x, buf);
    GrowsWrite(Sb(), Finished(disk, freeblock), inodes, owner, x, buf);
    assert Finished(disk[x := buf], freeblock) == Finished(disk, freeblock)[x := buf];
  }

  /** The bytes done have been added to file i; its size does not count them yet. */
  ghost predicate AppendedTo(d: Disk, p: seq<Inode>, e: Disk, q: seq<Inode>, i: nat, done: seq<Byte>) {
    && i < |p| == |q| && q == p[i := p[i].(addrs := q[i].addrs)]
    && SameBlocks(d, p, e, q, i) && Wrote(d, p[i], e, q[i], p[i].size, done)
    && SnugTo(e, q[i], p[i].size + |done|) && SnugBut(e, q, i)
  }

  /** One more round of iappend. */
  lemma {:induction false} AppendedMore(d: Disk, p: seq<Inode>, e: Disk, q: seq<Inode>, f: Disk, r: seq<Inode>, i: nat,
        done: seq<Byte>, s: seq<Byte>)
    requires AppendedTo(d, p, e, q, i, done) && |r| == |q| && r == q[i := q[i].(addrs := r[i].addrs)]
    requires var off := p[i].size + |done|;
             && s != [] && off + |s| <= MAXBYTES && off % BSIZE + |s| <= BSIZE
             && SameBlocks(e, q, f, r, i) && Wrote(e, q[i], f, r[i], off, s)
             && Fills(e, q, f, r, i, off / BSIZE) && Addr(f, r[i], SlotOf(off / BSIZE)) != 0
    ensures AppendedTo(d, p, f, r, i, done + s)
  {
    var off := p[i].size + |done|;
    SameBlocksTrans(d, p, e, q, f, r, i);
    WroteTrans(d, p[i], e, q[i], f, r[i], p[i].size, done, s);
    SnugMore(e, q, f, r, i, off, |s|);
    SnugOthers(e, q, f, r, i, off / BSIZE);
  }

  /** File i has grown by done, its size included, and no other file has changed. */
  ghost predicate SizedTo(d: Disk, p: seq<Inode>, e: Disk, q: seq<Inode>, i: nat, done: seq<Byte>) {
    && i < |p| == |q| && p[i].size <= MAXBYTES && q[i].size <= MAXBYTES
    && SameBlocks(d, p, e, q, i) && File(e, q[i]) == File(d, p[i]) + done
    && (ZeroTail(d, p[i]) ==> ZeroTail(e, q[i])) && SnugBut(e, q, -1)
  }

  /** The new size in the table ... */
  lemma {:induction false} SizeSet(d: Disk, p: seq<Inode>, e: Disk, q: seq<Inode>, owner: map<Word, Slot>, i: nat,
        din: Inode, off: nat, done: seq<Byte>)
    requires AppendedTo(d, p, e, q, i, done) && q[i] == din
    requires Inv(Sb(), e, q, owner) && off == p[i].size + |done| <= MAXBYTES
    ensures var r := q[i := din.(size := off)]; Inv(Sb(), e, r, owner) && SizedTo(d, p, e, r, i, done)
  {
    var r := q[i := din.(size := off)];
    SizeKeeps(Sb(), e, q, owner, i, off);
    Appended(d, p[i], e, din, r[i], done);
    SnugSize(e, q, r, i, off);
    SameBlocksTrans(d, p, e, q, e, r, i);
  }

  /** ... and on the disk. */
  lemma {:induction false} SizedStays(d: Disk, p: seq<Inode>, e: Disk, f: Disk, q: seq<Inode>, i: nat,
        done: seq<Byte>)
    requires SizedTo(d, p, e, q, i, done) && SameBlocks(e, q, f, q, -1)
    requires forall j, m :: 0 <= j < |q| && 0 <= m < NSLOTS ==> Addr(f, q[j], m) == Addr(e, q[j], m)
    ensures SizedTo(d, p, f, q, i, done)
  {
    SameBlocksFile(e, q, f, q, i);
    if ZeroTail(e, q[i]) {
      SameTail(e, q, f, q, i);
    }
    SnugSame(e, f, q, -1);
    SameBlocksTrans(d, p, e, q, f, q, i);
  }

  /** The root directory has grown by entry; the other files below inum are as they were. */
  ghost predicate Added(d: Disk, p: seq<Inode>, e: Disk, q: seq<Inode>, inum: nat, entry: seq<Byte>) {
    && ROOTINO < inum < |p| == |q|
    && (forall j :: 0 <= j < inum ==> p[j].size <= MAXBYTES && q[j].size <= MAXBYTES)
    && File(e, q[ROOTINO]) == File(d, p[ROOTINO]) + entry
    && forall j :: ROOTINO < j < inum ==> q[j] == p[j] && File(e, q[j]) == File(d, p[j])
  }

  /** ialloc, then the entry in the root. */
  lemma {:induction false} EntryAdded(d0: Disk, p0: seq<Inode>, d1: Disk, p1: seq<Inode>, d2: Disk, p2: seq<Inode>,
        inum: nat, entry: seq<Byte>)
    requires ROOTINO < inum < |p0| == |p1| == |p2|
    requires forall j :: 0 <= j < |p0| ==> p0[j].size <= MAXBYTES && p2[j].size <= MAXBYTES
    requires SameBlocks(d0, p0, d1, p1, -1) && forall j :: 0 <= j < |p0| && j != inum ==> p1[j] == p0[j]
    requires SameBlocks(d1, p1, d2, p2, ROOTINO) && forall j :: 0 <= j < |p0| && j != ROOTINO ==> p2[j] == p1[j]
    requires File(d2, p2[ROOTINO]) == File(d1, p1[ROOTINO]) + entry
    ensures Added(d0, p0, d2, p2, inum, entry)
  {
    SameBlocksFile(d0, p0, d1, p1, ROOTINO);
    forall j | ROOTINO < j < inum
      ensures p2[j] == p0[j] && File(d2, p2[j]) == File(d0, p0[j])
    {
      SameBlocksFile(d0, p0, d1, p1, j);
      OtherFile(d1, p1, d2, p2, ROOTINO, j);
    }
  }

  /** Then the contents. */
  lemma {:induction false} ContentsAdded(d0: Disk, p0: seq<Inode>, d2: Disk, p2: seq<Inode>, d3: Disk, p3: seq<Inode>,
        inum: nat, entry: seq<Byte>)
    requires Added(d0, p0, d2, p2, inum, entry) && |p3| == |p2|
    requires SameBlocks(d2, p2, d3, p3, inum) && forall j :: 0 <= j < |p2| && j != inum ==> p3[j] == p2[j]
    ensures Added(d0, p0, d3, p3, inum, entry)
  {
    forall j | ROOTINO <= j < inum
      ensures File(d3, p3[j]) == File(d2, p2[j])
    {
      OtherFile(d2, p2, d3, p3, inum, j);
    }
  }

  /** The root directory is rounded up to whole blocks.  The other files are as they were
      and have no holes; the root has one exactly if it ended at a block boundary. */
  ghost predicate Rounded(d: Disk, p: seq<Inode>, e: Disk, q: seq<Inode>) {
    && |p| == |q| == NINODES && (forall j :: 0 <= j < NINODES ==> p[j].size <= MAXBYTES && q[j].size <= MAXBYTES)
    && File(e, q[ROOTINO]) == WholeBlocks(File(d, p[ROOTINO]))
    && (forall j :: 0 <= j < NINODES && j != ROOTINO ==>
          q[j] == p[j] && File(e, q[j]) == File(d, p[j]) && Filled(e, q[j]))
    && (Filled(e, q[ROOTINO]) <==> p[ROOTINO].size % BSIZE != 0)
    && (forall j :: 0 <= j < NINODES ==> ZeroTail(e, q[j]))
  }

  lemma {:induction false} RootRounded(d: Disk, p: seq<Inode>, e: Disk, q: seq<Inode>, size: Word)
    requires |p| == NINODES && SnugBut(d, p, -1) && q == p[ROOTINO := p[ROOTINO].(size := size)]
    requires size == (p[ROOTINO].size / BSIZE + 1) * BSIZE <= MAXBYTES
    requires forall j :: 0 <= j < |p| ==> p[j].size <= MAXBYTES && ZeroTail(d, p[j])
    requires SameBlocks(d, q, e, q, -1)
    requires forall j, m :: 0 <= j < |q| && 0 <= m < NSLOTS ==> Addr(e, q[j], m) == Addr(d, q[j], m)
    ensures Rounded(d, p, e, q)
  {
    Grown(d, p[ROOTINO], q[ROOTINO]);
    TailsStay(d, q, e, q, -1);
    RoundedUp(d, p, e, q, size);
    forall j | 0 <= j < NINODES
      ensures File(e, q[j]) == File(d, q[j])
    {
      SameBlocksFile(d, q, e, q, j);
    }
  }

  /** The image being built.  inodes and owner are what its inode blocks and block
      maps mean; freeblock and freeinode are the next ones to hand out. */
  class Image {
    const super: Block
    var disk: Disk
    var freeblock: nat
    var freeinode: nat
    ghost var inodes: seq<Inode>
    ghost var owner: map<Word, Slot>

    ghost predicate Fits()
      reads this
    {
      FrontOk(disk, super) && NMETA <= freeblock <= FSSIZE && freeinode <= NINODES && |inodes| == NINODES
    }

    /** The image as it will be once the bitmap is written. */
    ghost function Goal(): Disk
      requires Fits()
      reads this
    {
      Finished(disk, freeblock)
    }

    /** The kernel's invariant, on the goal; everything not handed out is zero. */
    ghost predicate Sound()
      reads this
    {
      && Fits() && Inv(Sb(), Goal(), inodes, owner)
      && forall b :: freeblock <= b < FSSIZE ==> disk[b] == ZeroBlock()
    }

    ghost predicate Stored()
      reads this
    {
      && Sound() && StoredBut(disk, inodes, -1) && freeinode > 0 && inodes[0] == ZeroInode()
      && (forall i :: freeinode <= i < NINODES ==> inodes[i] == ZeroInode())
      && (forall i :: 0 <= i < NINODES ==> ZeroTail(Goal(), inodes[i]))
    }

    /** Every file has exactly the blocks its bytes take. */
    ghost predicate Valid()
      reads this
    {
      Stored() && SnugBut(Goal(), inodes, -1)
    }

    /** freeblock++. */
    method Take() returns (b: Word)
      requires Sound() && freeblock < FSSIZE
      modifies this`freeblock
      ensures Sound() && b == old(freeblock) && freeblock == b + 1
      ensures b !in owner && Used(Sb(), Goal(), b) && Goal()[b] == ZeroBlock()
      ensures !Used(Sb(), old(Goal()), b) && Goal() == Allocated(Sb(), old(Goal()), b)
      ensures SameBlocks(old(Goal()), inodes, Goal(), inodes, -1)
    {
      b := freeblock;
      TakeIsAlloc(disk, b);
      AllocKeeps(Sb(), Goal(), inodes, owner, b);
      freeblock := freeblock + 1;
    }

    /** A fresh block for slot k of the inode in hand. */
    method Attach(din: Inode, ghost inum: nat, k: nat) returns (out: Inode)
      requires Sound() && freeblock < FSSIZE && inum < NINODES && inodes[inum] == din && k <= NDIRECT &&
               din.addrs[k] == 0
      modifies this`freeblock, this`inodes, this`owner
      ensures Sound() && out.addrs[k] != 0 && inodes == old(inodes)[inum := out]
      ensures out == din.(addrs := din.addrs[k := out.addrs[k]])
      ensures SameBlocks(old(Goal()), old(inodes), Goal(), inodes, -1)
      ensures Takes(old(Goal()), old(inodes), Goal(), inodes, inum, k, out.addrs[k])
    {
      ghost var g0, inodes0 := Goal(), inodes;
      var b := Take();
      TakesSlot(Sb(), g0, inodes, owner, inum, k, b);
      AttachAddr(Sb(), Goal(), inodes, owner, inum, k, b);
      out := din.(addrs := din.addrs[k := b]);
      inodes := inodes[inum := out];
      owner := owner[b := Slot(inum, k)];
      SameBlocksTrans(g0, inodes0, Goal(), inodes0, Goal(), inodes, -1);
    }

    /** A fresh block for entry n of the indirect block. */
    method AttachIndirect(din: Inode, ghost inum: nat, n: nat) returns (x: Word)
      requires Sound() && freeblock < FSSIZE && inum < NINODES && inodes[inum] == din && n < NINDIRECT
      requires din.addrs[NDIRECT] != 0 && Addr(Goal(), din, NDIRECT + 1 + n) == 0
      modifies this`disk, this`freeblock, this`owner
      ensures Sound() && x != 0 && Addr(Goal(), din, NDIRECT + 1 + n) == x
      ensures SameBlocks(old(Goal()), inodes, Goal(), inodes, -1)
      ensures Takes(old(Goal()), inodes, Goal(), inodes, inum, NDIRECT + 1 + n, x)
      ensures forall b :: 0 <= b < NMETA ==> disk[b] == old(disk)[b]
    {
      ghost var g0 := Goal();
      x := freeblock;
      TakeIsAlloc(disk, x);
      AllocEntry(Sb(), g0, inodes, owner, inum, n, x);
      TakesEntry(Sb(), g0, inodes, owner, inum, n, x);
      var ind := din.addrs[NDIRECT];
      IndirectBelow(disk, freeblock, inodes, owner, inum);
      freeblock := freeblock + 1;
      disk := disk[ind := SetWord(disk[ind], n, x)];
      owner := owner[x := Slot(inum, NDIRECT + 1 + n)];
      ghost var e := Allocated(Sb(), g0, x);
      assert Goal() == e[ind := SetWord(e[ind], n, x)];
    }

    /** iappend's block lookup: the block of file block fbn, allocated if need be.  It
        fails only when the image is full. */
    method MapBlock(din: Inode, ghost inum: nat, fbn: nat) returns (ok: bool, out: Inode, x: Word)
      requires Sound() && inum < NINODES && inodes[inum] == din && fbn < MAXFILE
      modifies this`disk, this`freeblock, this`inodes, this`owner
      ensures Fits() && (forall b :: 0 <= b < NMETA ==> disk[b] == old(disk)[b])
      ensures !ok ==> freeblock == FSSIZE
      ensures ok ==> Sound() && inodes == old(inodes)[inum := out] && out == din.(addrs := out.addrs)
      ensures ok ==> x != 0 && Addr(Goal(), out, SlotOf(fbn)) == x
      ensures ok ==> SameBlocks(old(Goal()), old(inodes), Goal(), inodes, -1)
      ensures ok ==> Fills(old(Goal()), old(inodes), Goal(), inodes, inum, fbn)
    {
      ghost var g0, inodes0 := Goal(), inodes;
      out := din;
      if fbn < NDIRECT {
        if out.addrs[fbn] == 0 {
          if freeblock == FSSIZE {
            return false, out, 0;
          }
          out := Attach(out, inum, fbn);
          TakesFills(g0, inodes0, Goal(), inodes, inum, fbn, out.addrs[fbn], fbn);
        }
        return true, out, out.addrs[fbn];
      }
      if out.addrs[NDIRECT] == 0 {
        if freeblock == FSSIZE {
          return false, out, 0;
        }
        out := Attach(out, inum, NDIRECT);
        TakesFills(g0, inodes0, Goal(), inodes, inum, NDIRECT, out.addrs[NDIRECT], fbn);
      }
      IndirectBelow(disk, freeblock, inodes, owner, inum);
      x := GetWord(disk[out.addrs[NDIRECT]], fbn - NDIRECT);
      assert x == Addr(Goal(), out, fbn + 1);
      if x == 0 {
        if freeblock == FSSIZE {
          return false, out, 0;
        }
        ghost var g1 := Goal();
        x := AttachIndirect(out, inum, fbn - NDIRECT);
        SameBlocksTrans(g0, inodes0, g1, inodes, Goal(), inodes, -1);
        TakesFills(g1, inodes, Goal(), inodes, inum, fbn + 1, x, fbn);
        FillsTrans(g0, inodes0, g1, inodes, Goal(), inodes, inum, fbn);
      }
      ok := true;
    }

    /** One round of iappend: s goes into the file at off, inside one block. */
    method AppendChunk(din: Inode, ghost inum: nat, off: nat, s: seq<Byte>) returns (ok: bool, out: Inode)
      requires Sound() && inum < NINODES && inodes[inum] == din && s != [] && off + |s| <= MAXBYTES &&
               off % BSIZE + |s| <= BSIZE
      modifies this`disk, this`freeblock, this`inodes, this`owner
      ensures Fits() && (forall b :: 0 <= b < NMETA ==> disk[b] == old(disk)[b])
      ensures !ok ==> freeblock == FSSIZE
      ensures ok ==> Sound() && inodes == old(inodes)[inum := out] && out == din.(addrs := out.addrs)
      ensures ok ==>
              SameBlocks(old(Goal()), old(inodes), Goal(), inodes, inum) && Wrote(old(Goal()), din, Goal(), out, off, s)
      ensures ok ==> Fills(old(Goal()), old(inodes), Goal(), inodes, inum, off / BSIZE)
      ensures ok ==> Addr(Goal(), out, SlotOf(off / BSIZE)) != 0
    {
      ghost var g0, inodes0 := Goal(), inodes;
      var fbn := off / BSIZE;
      var x;
      ok, out, x := MapBlock(din, inum, fbn);
      if !ok {
        return;
      }
      ghost var g1 := Goal();
      DataBelow(disk, freeblock, inodes, owner, inum, fbn);
      var buf := Patch(disk[x], off % BSIZE, s);
      DataWrite(Sb(), g1, inodes, owner, inum, fbn, buf);
      assert SlotOk(g1, inodes, owner, inum, SlotOf(fbn));
      GrowsWrite(Sb(), g1, inodes, owner, x, buf);
      disk := disk[x := buf];
      assert Goal() == g1[x := buf];
      FillsTrans(g0, inodes0, g1, inodes, Goal(), inodes, inum, fbn);
      Chunked(g0, inodes0, g1, inodes, Goal(), inum, off, s, x);
    }

    /** Since g0, inodes0 and disk0, the bytes done have been added to file inum and its
        inode, in hand, has not been written. */
    ghost predicate Appending(g0: Disk, inodes0: seq<Inode>, disk0: Disk, inum: nat, din: Inode, done: seq<Byte>)
      reads this
    {
      && Sound() && |inodes0| == NINODES && |disk0| == FSSIZE && inum < NINODES && inodes[inum] == din
      && (forall b :: 0 <= b < NMETA ==> disk[b] == disk0[b])
      && AppendedTo(g0, inodes0, Goal(), inodes, inum, done)
    }

    /** One round of iappend's loop. */
    method AppendStep(din: Inode, ghost inum: nat, p: seq<Byte>, n: nat, off: nat,
                      ghost g0: Disk, ghost inodes0: seq<Inode>, ghost disk0: Disk)
        returns (ok: bool, out: Inode, next: nat)
      requires n < |p| && Appending(g0, inodes0, disk0, inum, din, p[..n]) && off == inodes0[inum].size + n < MAXBYTES
      modifies this`disk, this`freeblock, this`inodes, this`owner
      ensures Fits() && (!ok ==> freeblock == FSSIZE)
      ensures n < next <= |p| && off + (next - n) <= MAXBYTES
      ensures ok ==> Appending(g0, inodes0, disk0, inum, out, p[..next])
    {
      next := n + RoomFor(|p| - n, off);
      var s := p[n..next];
      ghost var g1, inodes1, done := Goal(), inodes, p[..n];
      ok, out := AppendChunk(din, inum, off, s);
      if ok {
        Joined(p, 0, n, next);
        AppendedMore(g0, inodes0, g1, inodes1, Goal(), inodes, inum, done, s);
      }
    }

    /** winode for an inode whose meaning is already in the table. */
    method Winode(inum: nat, ino: Inode)
      requires Sound() && inum < NINODES && inodes[inum] == ino && StoredBut(disk, inodes, inum)
      modifies this`disk
      ensures Sound() && StoredBut(disk, inodes, -1) && SameBlocks(old(Goal()), inodes, Goal(), inodes, -1)
      ensures forall b :: NMETA <= b < FSSIZE ==> disk[b] == old(disk)[b]
      ensures forall j, m :: 0 <= j < |inodes| && 0 <= m < NSLOTS ==>
                Addr(Goal(), inodes[j], m) == Addr(old(Goal()), inodes[j], m)
    {
      InodeWritten(disk, freeblock, inodes, owner, inum, ino);
      var x := inum / IPB + INODES;
      disk := disk[x := PutDinode(disk[x], inum % IPB, ino)];
    }

    /** The end of iappend: the new size is stored. */
    method StoreSize(din: Inode, inum: nat, off: nat, ghost g0: Disk, ghost inodes0: seq<Inode>, ghost disk0: Disk,
          ghost done: seq<Byte>)
      requires Appending(g0, inodes0, disk0, inum, din, done) && off == inodes0[inum].size + |done| <= MAXBYTES
      requires StoredBut(disk0, inodes0, -1)
      modifies this`disk, this`inodes
      ensures Sound() && StoredBut(disk, inodes, -1) && inodes == inodes0[inum := din.(size := off)]
      ensures SizedTo(g0, inodes0, Goal(), inodes, inum, done)
    {
      var ino := din.(size := off);
      ghost var g1 := Goal();
      SizeSet(g0, inodes0, g1, inodes, owner, inum, din, off, done);
      inodes := inodes[inum := ino];
      StillStored(disk0, disk, inodes0, inodes, inum);
      Winode(inum, ino);
      SizedStays(g0, inodes0, g1, Goal(), inodes, inum, done);
    }

    /** iappend: the file grows by p and nothing else changes, unless the image or the
        file is full. */
    method Iappend(inum: nat, p: seq<Byte>) returns (ok: bool)
      requires Valid() && 0 < inum < freeinode
      modifies this`disk, this`freeblock, this`inodes, this`owner
      ensures Fits() && (!ok ==> freeblock == FSSIZE || old(inodes)[inum].size + |p| > MAXBYTES)
      ensures ok ==> Valid() && SameBlocks(old(Goal()), old(inodes), Goal(), inodes, inum)
      ensures ok ==> inodes[inum].itype == old(inodes)[inum].itype && inodes[inum].nlink == old(inodes)[inum].nlink
      ensures ok ==> forall j :: 0 <= j < NINODES && j != inum ==> inodes[j] == old(inodes)[j]
      ensures ok ==> File(Goal(), inodes[inum]) == old(File(Goal(), inodes[inum])) + p
    {
      ghost var g0, inodes0, disk0 := Goal(), inodes, disk;
      var din := GetDinode(disk[inum / IPB + INODES], inum % IPB);
      assert OnDiskInode(disk, inum) == inodes[inum];
      var off := din.size;
      assert SnugTo(g0, inodes[inum], inodes[inum].size);
      StartWrite(g0, inodes, inum, din.size);
      ok, din, off := AppendLoop(inum, p, din, g0, inodes0, disk0);
      if ok {
        StoreSize(din, inum, off, g0, inodes0, disk0, p);
        TailsStay(g0, inodes0, Goal(), inodes, inum);
      }
    }

    /** The loop of iappend. */
    method AppendLoop(ghost inum: nat, p: seq<Byte>, start: Inode, ghost g0: Disk, ghost inodes0: seq<Inode>,
          ghost disk0: Disk)
        returns (ok: bool, din: Inode, off: nat)
      requires Appending(g0, inodes0, disk0, inum, start, []) && start.size <= MAXBYTES
      modifies this`disk, this`freeblock, this`inodes, this`owner
      ensures Fits() && (!ok ==> freeblock == FSSIZE || inodes0[inum].size + |p| > MAXBYTES)
      ensures ok ==> off == inodes0[inum].size + |p| <= MAXBYTES
      ensures ok ==> Appending(g0, inodes0, disk0, inum, din, p)
    {
      var n := 0;
      ok, din, off := true, start, start.size;
      assert p[..0] == [];
      while n < |p|
        invariant n <= |p| && off == inodes0[inum].size + n <= MAXBYTES
        invariant Appending(g0, inodes0, disk0, inum, din, p[..n])
      {
        if off >= MAXBYTES {
          ok := false;
          return;
        }
        var next;
        ok, din, next := AppendStep(din, inum, p, n, off, g0, inodes0, disk0);
        if !ok {
          return;
        }
        n, off := next, off + (next - n);
      }
      assert p[..n] == p;
      ok := true;
    }

    /** An empty image: FSSIZE zeroed blocks, then the super block. */
    constructor (super: Block)
      ensures Valid() && freeinode == 1 && freeblock == NMETA && this.super == super
      ensures forall i :: 0 <= i < NINODES ==> inodes[i] == ZeroInode()
    {
      this.super := super;
      disk := seq(FSSIZE, _ => ZeroBlock())[1 := super];
      freeblock, freeinode := NMETA, 1;
      inodes := seq(NINODES, _ => ZeroInode());
      owner := map[];
      new;
      EmptyImage(disk, inodes, freeblock);
      forall i | 0 <= i < NINODES
        ensures ZeroTail(Goal(), inodes[i])
      {
        EmptyTail(Goal(), inodes[i]);
      }
      EmptySnug(Goal(), inodes);
    }

    /** ialloc: the next inode, with one link, no blocks and no bytes. */
    method Ialloc(itype: Half) returns (inum: nat)
      requires Valid() && freeinode < NINODES
      modifies this`disk, this`freeinode, this`inodes
      ensures Valid() && inum == old(freeinode) && freeinode == inum + 1
      ensures inodes == old(inodes)[inum := Inode(itype, 0, 0, 1, 0, ZeroInode().addrs)]
      ensures SameBlocks(old(Goal()), old(inodes), Goal(), inodes, -1) && File(Goal(), inodes[inum]) == []
    {
      ghost var g0, inodes0 := Goal(), inodes;
      inum := freeinode;
      freeinode := freeinode + 1;
      var din := Inode(itype, 0, 0, 1, 0, ZeroInode().addrs);
      SameAddrs(Sb(), Goal(), inodes, owner, inum, din);
      inodes := inodes[inum := din];
      Winode(inum, din);
      SameBlocksTrans(g0, inodes0, g0, inodes, Goal(), inodes, -1);
      TailsStay(g0, inodes0, Goal(), inodes, -1);
      assert SnugTo(g0, inodes0[inum], inodes0[inum].size);
      SnugSize(g0, inodes0, inodes, inum, 0);
      SnugSame(g0, Goal(), inodes, -1);
    }

    /** balloc: the bitmap marks exactly the blocks handed out. */
    method Balloc()
      requires Sound()
      modifies this`disk
      ensures Sound() && disk == old(Goal()) && Goal() == old(Goal())
      ensures forall b :: 0 <= b < FSSIZE ==> (Used(Sb(), disk, b) <==> b < freeblock)
    {
      var buf := ZeroBlock();
      var i := 0;
      while i < freeblock
        invariant i <= freeblock && buf == Marked(i)
      {
        buf := SetBit(buf, i);
        i := i + 1;
      }
      forall b | 0 <= b < FSSIZE
        ensures Used(Sb(), Goal(), b) <==> b < freeblock
      {
        FinishedUsed(disk, freeblock, b);
      }
      ghost var g := Goal();
      disk := disk[BMAP := buf];
      assert Goal() == g == disk;
    }

    /** Only file inum, with contents c, differs from g0 and is0. */
    ghost predicate Holding(g0: Disk, is0: seq<Inode>, inum: nat, c: seq<Byte>)
      reads this
    {
      && Valid() && |is0| == NINODES && 0 < inum < freeinode && SameBlocks(g0, is0, Goal(), inodes, inum)
      && inodes[inum].itype == is0[inum].itype && inodes[inum].nlink == is0[inum].nlink &&
         File(Goal(), inodes[inum]) == c
      && forall j :: 0 <= j < NINODES && j != inum ==> inodes[j] == is0[j]
    }

    /** One read of main's read loop. */
    method AppendNext(inum: nat, contents: seq<Byte>, n: nat, ghost g0: Disk, ghost is0: seq<Inode>)
        returns (ok: bool, next: nat)
      requires n < |contents| && Holding(g0, is0, inum, contents[..n])
      modifies this`disk, this`freeblock, this`inodes, this`owner
      ensures n < next <= |contents|
      ensures Fits() && (!ok ==> freeblock == FSSIZE || |contents| > MAXBYTES)
      ensures ok ==> Holding(g0, is0, inum, contents[..next])
    {
      next := if |contents| - n < BSIZE then |contents| else n + BSIZE;
      ghost var g1, is1 := Goal(), inodes;
      assert inodes[inum].size == |contents[..n]|;
      ok := Iappend(inum, contents[n..next]);
      if ok {
        Joined(contents, 0, n, next);
        SameBlocksTrans(g0, is0, g1, is1, Goal(), inodes, inum);
      }
    }

    /** The read loop of main: the contents arrive BSIZE bytes at a time. */
    method AppendAll(inum: nat, contents: seq<Byte>) returns (ok: bool)
      requires Valid() && 0 < inum < freeinode && File(Goal(), inodes[inum]) == []
      modifies this`disk, this`freeblock, this`inodes, this`owner
      ensures Fits() && (!ok ==> freeblock == FSSIZE || |contents| > MAXBYTES)
      ensures ok ==> Holding(old(Goal()), old(inodes), inum, contents)
    {
      ghost var g0, is0 := Goal(), inodes;
      var n := 0;
      assert contents[..0] == [];
      StartWrite(g0, inodes, inum, 0);
      while n < |contents|
        invariant n <= |contents|
        invariant Holding(g0, is0, inum, contents[..n])
      {
        ok, n := AppendNext(inum, contents, n, g0, is0);
        if !ok {
          return;
        }
      }
      assert contents[..n] == contents;
      return true;
    }

    /** An inode and a name in the root. */
    method AddEntry(name: seq<Byte>) returns (ok: bool, inum: nat)
      requires Valid() && 1 < freeinode < NINODES && inodes[ROOTINO].size + 16 <= MAXBYTES
      modifies this
      ensures Fits() && inum == old(freeinode) && (!ok ==> freeblock == FSSIZE)
      ensures ok ==> Valid() && freeinode == inum + 1 && HoldsFile(Goal(), inodes, inum, [])
      ensures ok ==> IsRoot(old(inodes)[ROOTINO]) ==> IsRoot(inodes[ROOTINO])
      ensures ok ==> Added(old(Goal()), old(inodes), Goal(), inodes, inum, DirentBytes(inum, name))
    {
      inum := Ialloc(T_FILE);
      ghost var g, q := Goal(), inodes;
      ok := Iappend(ROOTINO, DirentBytes(inum, name));
      if ok {
        EntryAdded(old(Goal()), old(inodes), g, q, Goal(), inodes, inum, DirentBytes(inum, name));
        OtherFile(g, q, Goal(), inodes, ROOTINO, inum);
      }
    }

    /** One file of main's loop: an inode, a name in the root, the contents. */
    method AddFile(f: Input) returns (ok: bool)
      requires Valid() && 1 < freeinode < NINODES && inodes[ROOTINO].size + 16 <= MAXBYTES
      modifies this
      ensures Fits() && (!ok ==> freeblock == FSSIZE || |f.contents| > MAXBYTES)
      ensures ok ==> Valid() && freeinode == old(freeinode) + 1
      ensures ok ==> Holds(old(freeinode), f.contents) && (IsRoot(old(inodes)[ROOTINO]) ==> IsRoot(inodes[ROOTINO]))
      ensures ok ==>
                Added(old(Goal()), old(inodes), Goal(), inodes, old(freeinode), DirentBytes(old(freeinode), f.name))
    {
      var inum;
      ok, inum := AddEntry(f.name);
      if !ok {
        return;
      }
      ghost var g, q := Goal(), inodes;
      ok := AppendAll(inum, f.contents);
      if ok {
        ContentsAdded(old(Goal()), old(inodes), g, q, Goal(), inodes, inum, DirentBytes(inum, f.name));
      }
    }

    /** Inode j is a regular file with one link and contents c. */
    ghost predicate Holds(j: nat, c: seq<Byte>)
      reads this
    {
      Fits() && j < NINODES && HoldsFile(Goal(), inodes, j, c)
    }

    /** Rounding the root directory up to whole blocks adds free slots only.  They are a
        hole, a block the directory does not have, exactly when its entries ended at a
        block boundary. */
    method FixRoot()
      requires Valid() && freeinode > 1 && inodes[ROOTINO].size + BSIZE <= MAXBYTES && IsRoot(inodes[ROOTINO])
      modifies this`disk, this`inodes
      ensures Stored() && IsRoot(inodes[ROOTINO])
      ensures Rounded(old(Goal()), old(inodes), Goal(), inodes)
    {
      ghost var g0, is0 := Goal(), inodes;
      var din := GetDinode(disk[ROOTINO / IPB + INODES], ROOTINO % IPB);
      assert OnDiskInode(disk, ROOTINO) == inodes[ROOTINO];
      var off := (din.size / BSIZE + 1) * BSIZE;
      SizeKeeps(Sb(), Goal(), inodes, owner, ROOTINO, off);
      din := din.(size := off);
      inodes := inodes[ROOTINO := din];
      Winode(ROOTINO, din);
      RootRounded(g0, is0, Goal(), inodes, off);
    }

    /** The root and the first k files are in place. */
    ghost predicate Built(root: seq<Byte>, files: seq<Input>, k: nat)
      reads this
    {
      && Valid() && k <= |files| && k + 2 <= NINODES && freeinode == k + 2 && |root| == 48
      && IsRoot(inodes[ROOTINO]) && File(Goal(), inodes[ROOTINO]) == Entries(root, files, k)
      && forall j :: 0 <= j < k ==> Has(files, j)
    }

    ghost predicate Has(files: seq<Input>, j: nat)
      requires j < |files|
      reads this
    {
      Holds(j + 2, files[j].contents)
    }

    method AddNext(files: seq<Input>, k: nat, ghost root: seq<Byte>) returns (ok: bool, next: nat)
      requires Built(root, files, k) && k < |files| <= NINODES - 2
      modifies this
      ensures Fits() && next == k + 1 && (!ok ==> freeblock == FSSIZE || |files[k].contents| > MAXBYTES)
      ensures ok ==> Built(root, files, next)
    {
      next := k + 1;
      assert inodes[ROOTINO].size == |Entries(root, files, k)|;
      ok := AddFile(files[k]);
      if ok {
        forall j | 0 <= j < k + 1
          ensures Has(files, j)
        {
          assert j < k ==> old(Has(files, j));
        }
      }
    }

    /** main's loop over the files. */
    method AddAll(files: seq<Input>, ghost root: seq<Byte>) returns (ok: bool)
      requires Built(root, files, 0) && |files| <= NINODES - 2
      modifies this
      ensures ok ==> Built(root, files, |files|)
      ensures !ok ==> TooMuch(files, freeblock)
    {
      var k := 0;
      while k < |files|
        invariant k <= |files|
        invariant Built(root, files, k)
      {
        ghost var k0 := k;
        ok, k := AddNext(files, k, root);
        if !ok {
          assert freeblock == FSSIZE || |files[k0].contents| > MAXBYTES;
          return;
        }
      }
      ok := true;
    }

    /** The finished image: an empty log, the kernel's invariant, readable inodes, an exact
        bitmap, the root directory and every file.  No file has a hole, except that the
        root directory has one exactly if its entries end at a block boundary. */
    ghost predicate Complete(root: seq<Byte>, files: seq<Input>)
      reads this
    {
      && Fits() && |files| <= NINODES - 2 && Inv(Sb(), disk, inodes, owner) && StoredBut(disk, inodes, -1)
      && (forall b :: 0 <= b < FSSIZE ==> (Used(Sb(), disk, b) <==> b < freeblock))
      && IsRoot(inodes[ROOTINO]) && File(disk, inodes[ROOTINO]) == WholeBlocks(Entries(root, files, |files|))
      && (forall k :: 0 <= k < |files| ==> HoldsFile(disk, inodes, k + 2, files[k].contents))
      && inodes[0] == ZeroInode() && (forall j :: |files| + 2 <= j < NINODES ==> inodes[j] == ZeroInode())
      && (forall j :: 0 <= j < NINODES && j != ROOTINO ==> Filled(disk, inodes[j]))
      && (Filled(disk, inodes[ROOTINO]) <==> (|files| + 3) % 64 != 0)
    }

    method Finish(files: seq<Input>, ghost root: seq<Byte>)
      requires Built(root, files, |files|)
      modifies this`disk, this`inodes
      ensures Complete(root, files)
    {
      assert inodes[ROOTINO].size == |Entries(root, files, |files|)| == 16 * (|files| + 3);
      EntriesPerBlock(|files| + 3);
      FixRoot();
      forall k | 0 <= k < |files|
        ensures Has(files, k)
      {
        assert old(Has(files, k));
      }
      Seal(files, root);
    }

    /** Writing the bitmap turns the goal into the disk. */
    method Seal(files: seq<Input>, ghost root: seq<Byte>)
      requires Stored() && |files| <= NINODES - 2 && IsRoot(inodes[ROOTINO]) && freeinode == |files| + 2
      requires File(Goal(), inodes[ROOTINO]) == WholeBlocks(Entries(root, files, |files|))
      requires forall k :: 0 <= k < |files| ==> Has(files, k)
      requires forall j :: 0 <= j < NINODES && j != ROOTINO ==> Filled(Goal(), inodes[j])
      requires Filled(Goal(), inodes[ROOTINO]) <==> (|files| + 3) % 64 != 0
      modifies this`disk
      ensures Complete(root, files)
    {
      ghost var disk0 := disk;
      Balloc();
      StillStored(disk0, disk, inodes, inodes, -1);
      forall k | 0 <= k < |files|
        ensures HoldsFile(disk, inodes, k + 2, files[k].contents)
      {
        assert old(Has(files, k));
      }
    }

    /** So far there is only a root, with contents f. */
    ghost predicate OnlyRoot(f: seq<Byte>)
      reads this
    {
      Valid() && freeinode == 2 && IsRoot(inodes[ROOTINO]) && File(Goal(), inodes[ROOTINO]) == f
    }

    method NameRoot(name: seq<Byte>, ghost f: seq<Byte>) returns (ok: bool)
      requires OnlyRoot(f) && |f| + 16 <= MAXBYTES
      modifies this`disk, this`freeblock, this`inodes, this`owner
      ensures Fits() && (!ok ==> freeblock == FSSIZE)
      ensures ok ==> OnlyRoot(f + DirentBytes(ROOTINO, name))
    {
      ok := Iappend(ROOTINO, DirentBytes(ROOTINO, name));
    }
  }

  ghost predicate HoldsFile(d: Disk, inodes: seq<Inode>, j: nat, c: seq<Byte>)
    requires j < |inodes|
  {
    inodes[j].itype == T_FILE && inodes[j].nlink == 1 && inodes[j].size <= MAXBYTES && File(d, inodes[j]) == c
  }

  /** f filled up with zeroes past the next block boundary. */
  function WholeBlocks(f: seq<Byte>): seq<Byte> { f + Zeroes((|f| / BSIZE + 1) * BSIZE - |f|) }

  datatype Input = Input(name: seq<Byte>, contents: seq<Byte>)

  function Zeroes(n: nat): (r: seq<Byte>)
    ensures |r| == n && forall i :: 0 <= i < n ==> r[i] == 0
  {
    seq(n, _ => 0)
  }

  /** struct dirent: a little-endian inode number, then the name, cut or padded to
      DIRSIZ, without a leading underscore. */
  function DirentBytes(inum: nat, name: seq<Byte>): (r: seq<Byte>)
    requires inum < 0x1_0000
    ensures |r| == 16
  {
    var n := if name != [] && name[0] == 95 then name[1..] else name;
    [inum % 256, inum / 256] + if |n| >= 14 then n[..14] else n + Zeroes(14 - |n|)
  }

  lemma {:induction false} Grown(d: Disk, ino: Inode, ino': Inode)
    requires ino' == ino.(size := ino'.size) && ino.size <= ino'.size <= MAXBYTES && ZeroTail(d, ino)
    ensures File(d, ino') == File(d, ino) + Zeroes(ino'.size - ino.size) && ZeroTail(d, ino')
  {
    forall p | 0 <= p < MAXBYTES
      ensures FileByte(d, ino', p) == FileByte(d, ino, p)
    {
    }
  }

  lemma {:induction false} ZeroDinode(s: nat)
    requires s < IPB
    ensures GetDinode(ZeroBlock(), s) == ZeroInode()
  {
    forall w | 0 <= w < WORDS
      ensures GetWord(ZeroBlock(), w) == 0
    {
      ZeroWord(w);
    }
    assert GetAddrs(ZeroBlock(), s) == ZeroInode().addrs;
  }

  lemma {:induction false} EmptyImage(disk: Disk, inodes: seq<Inode>, first: nat)
    requires |disk| == FSSIZE && (forall b :: 0 <= b < FSSIZE && b != 1 ==> disk[b] == ZeroBlock()) && first == NMETA
    requires |inodes| == NINODES && forall i :: 0 <= i < NINODES ==> inodes[i] == ZeroInode()
    ensures Inv(Sb(), Finished(disk, first), inodes, map[]) && StoredBut(disk, inodes, -1)
  {
    var g := Finished(disk, first);
    forall b | 0 <= b < FSSIZE
      ensures Used(Sb(), g, b) <==> b < first
    {
      FinishedUsed(disk, first, b);
    }
    forall i, k | 0 <= i < NINODES && 0 <= k < NSLOTS
      ensures SlotOk(g, inodes, map[], i, k)
    {
      EmptyInode(g, inodes[i], k);
    }
    forall j | 0 <= j < NINODES
      ensures OnDiskInode(disk, j) == inodes[j]
    {
      ZeroDinode(j % IPB);
    }
  }

  lemma {:induction false} EmptyInode(d: Disk, ino: Inode, k: nat)
    requires ino == ZeroInode() && k < NSLOTS
    ensures Addr(d, ino, k) == 0
  {
  }

  lemma {:induction false} EmptySnug(d: Disk, inodes: seq<Inode>)
    requires forall i :: 0 <= i < |inodes| ==> inodes[i] == ZeroInode()
    ensures SnugBut(d, inodes, -1)
  {
    forall i, bn | 0 <= i < |inodes| && 0 <= bn < MAXFILE
      ensures Addr(d, inodes[i], SlotOf(bn)) == 0
    {
      EmptyInode(d, inodes[i], SlotOf(bn));
    }
  }

  lemma {:induction false} EmptyTail(d: Disk, ino: Inode)
    requires ino == ZeroInode()
    ensures ZeroTail(d, ino)
  {
    forall p | 0 <= p < MAXBYTES
      ensures FileByte(d, ino, p) == 0
    {
      EmptyInode(d, ino, SlotOf(p / BSIZE));
    }
  }

  /** Changing an inode's type, links or size, but none of its addresses. */
  lemma {:induction false} SameAddrs(sb: Superblock, d: Disk, inodes: seq<Inode>, owner: map<Word, Slot>, i: nat,
        ino: Inode)
    requires Inv(sb, d, inodes, owner) && i < |inodes| && ino.addrs == inodes[i].addrs && ino.size <= MAXBYTES
    ensures Inv(sb, d, inodes[i := ino], owner) && SameBlocks(d, inodes, d, inodes[i := ino], -1)
  {
    var others := inodes[i := ino];
    forall j, k | 0 <= j < |inodes| && 0 <= k < NSLOTS
      ensures SlotOk(d, others, owner, j, k)
    {
      assert SlotOk(d, inodes, owner, j, k);
    }
    forall a | a in owner
      ensures OwnerOk(sb, d, others, owner, a)
    {
      assert OwnerOk(sb, d, inodes, owner, a);
    }
  }

  lemma {:induction false} EntriesPerBlock(n: nat)
    ensures 16 * n % BSIZE == 0 <==> n % 64 == 0
  {
  }

  /** The bytes iappend puts into one block. */
  function RoomFor(n: nat, off: nat): (r: nat)
    requires n > 0 && off < MAXBYTES
    ensures 0 < r <= n && off % BSIZE + r <= BSIZE && off + r <= MAXBYTES
  {
    if n < (off / BSIZE + 1) * BSIZE - off then n else (off / BSIZE + 1) * BSIZE - off
  }

  lemma {:induction false} StillStored(disk0: Disk, disk: Disk, inodes0: seq<Inode>, inodes: seq<Inode>, i: int)
    requires |disk0| == |disk| == FSSIZE && |inodes0| == |inodes| == NINODES && StoredBut(disk0, inodes0, -1)
    requires forall b :: 0 <= b < BMAP ==> disk[b] == disk0[b]
    requires forall j :: 0 <= j < NINODES && j != i ==> inodes[j] == inodes0[j]
    ensures StoredBut(disk, inodes, i)
  {
    forall j | 0 <= j < NINODES && j != i
      ensures OnDiskInode(disk, j) == inodes[j]
    {
      assert OnDiskInode(disk0, j) == inodes0[j];
    }
  }

  lemma {:induction false} SameTail(d: Disk, p: seq<Inode>, e: Disk, q: seq<Inode>, i: nat)
    requires SameBlocks(d, p, e, q, -1) && i < |p| && q[i].size == p[i].size && ZeroTail(d, p[i])
    ensures ZeroTail(e, q[i])
  {
    forall x | q[i].size <= x < MAXBYTES
      ensures FileByte(e, q[i], x) == 0
    {
      assert BlockOf(e, q[i], x / BSIZE) == BlockOf(d, p[i], x / BSIZE);
      assert FileByte(d, p[i], x) == 0;
    }
  }

  lemma {:induction false} Appended(d: Disk, ino: Inode, e: Disk, din: Inode, ino': Inode, s: seq<Byte>)
    requires ino.size + |s| <= MAXBYTES && Wrote(d, ino, e, din, ino.size, s)
    requires ino'.size == ino.size + |s| && forall p :: 0 <= p < MAXBYTES ==>
             FileByte(e, ino', p) == FileByte(e, din, p)
    ensures File(e, ino') == File(d, ino) + s
    ensures ZeroTail(d, ino) ==> ZeroTail(e, ino')
  {
    var f, g := File(e, ino'), File(d, ino) + s;
    forall p | 0 <= p < |f|
      ensures f[p] == g[p]
    {
      assert FileByte(e, ino', p) == FileByte(e, din, p);
    }
  }

  lemma {:induction false} DataBelow(disk: Disk, freeblock: nat, inodes: seq<Inode>, owner: map<Word, Slot>, i: nat,
        bn: nat)
    requires |disk| == FSSIZE && freeblock <= FSSIZE && Inv(Sb(), Finished(disk, freeblock), inodes, owner)
    requires i < |inodes| && bn < MAXFILE && Addr(Finished(disk, freeblock), inodes[i], SlotOf(bn)) != 0
    ensures NMETA <= Addr(Finished(disk, freeblock), inodes[i], SlotOf(bn)) < freeblock
  {
    var g := Finished(disk, freeblock);
    assert SlotOk(g, inodes, owner, i, SlotOf(bn));
    var a := Addr(g, inodes[i], SlotOf(bn));
    assert OwnerOk(Sb(), g, inodes, owner, a);
    FinishedUsed(disk, freeblock, a);
  }

  /** Mapping a block and patching it writes the bytes and touches no other file. */
  lemma {:induction false} Chunked(g0: Disk, inodes0: seq<Inode>, g1: Disk, inodes: seq<Inode>, g2: Disk, i: nat,
        off: nat, s: seq<Byte>, x: Word)
    requires SameBlocks(g0, inodes0, g1, inodes, -1) && SameBlocks(g1, inodes, g2, inodes, i) && i < |inodes|
    requires s != [] && off + |s| <= MAXBYTES && off % BSIZE + |s| <= BSIZE
    requires 0 < x < |g1| && Addr(g1, inodes[i], SlotOf(off / BSIZE)) == x
    requires forall m :: 0 <= m < MAXFILE ==>
               BlockOf(g2, inodes[i], m) == if m == off / BSIZE then Patch(g1[x], off % BSIZE, s)
                 else BlockOf(g1, inodes[i], m)
    ensures SameBlocks(g0, inodes0, g2, inodes, i) && Wrote(g0, inodes0[i], g2, inodes[i], off, s)
  {
    SameBlocksTrans(g0, inodes0, g1, inodes, g2, inodes, i);
    assert forall m :: 0 <= m < MAXFILE ==> BlockOf(g1, inodes[i], m) == BlockOf(g0, inodes0[i], m);
    BlockWrote(g0, inodes0[i], g2, inodes[i], off, s);
  }

  /** An indirect block in use is a data block already handed out. */
  lemma {:induction false} IndirectBelow(disk: Disk, freeblock: nat, inodes: seq<Inode>, owner: map<Word, Slot>, i: nat)
    requires |disk| == FSSIZE && freeblock <= FSSIZE && Inv(Sb(), Finished(disk, freeblock), inodes, owner)
    requires i < |inodes| && inodes[i].addrs[NDIRECT] != 0
    ensures NMETA <= inodes[i].addrs[NDIRECT] < freeblock
  {
    var g := Finished(disk, freeblock);
    assert SlotOk(g, inodes, owner, i, NDIRECT);
    var a := inodes[i].addrs[NDIRECT];
    assert OwnerOk(Sb(), g, inodes, owner, a);
    FinishedUsed(disk, freeblock, a);
  }

  /** ".", ".." and "mnt", all naming the root. */
  function RootEntries(): (r: seq<Byte>)
    ensures |r| == 48
  {
    DirentBytes(ROOTINO, [46]) + DirentBytes(ROOTINO, [46, 46]) + DirentBytes(ROOTINO, [109, 110, 116])
  }

  /** The root directory once k files have been added to root. */
  function Entries(root: seq<Byte>, files: seq<Input>, k: nat): (r: seq<Byte>)
    requires k <= |files| && k + 2 <= NINODES
    ensures |r| == |root| + 16 * k
  {
    if k == 0 then root
    else Entries(root, files, k - 1) + DirentBytes(k + 1, files[k - 1].name)
  }

  /** main, up to the names ".", ".." and "mnt" of the root. */
  method StartImage() returns (image: Image, ok: bool)
    ensures fresh(image) && image.Fits() && (!ok ==> image.freeblock == FSSIZE) && image.super == Super()
    ensures ok ==> image.OnlyRoot(RootEntries())
  {
    image := new Image(Super());
    var root := image.Ialloc(T_DIR);
    var dot, dotdot, mnt := [46], [46, 46], [109, 110, 116];
    ghost var f1 := [] + DirentBytes(ROOTINO, dot);
    ghost var f2 := f1 + DirentBytes(ROOTINO, dotdot);
    ok := image.NameRoot(dot, []);
    if !ok {
      return;
    }
    ok := image.NameRoot(dotdot, f1);
    if !ok {
      return;
    }
    ok := image.NameRoot(mnt, f2);
    assert f1 == DirentBytes(ROOTINO, dot);
  }

  /** What went wrong when an image could not be built. */
  predicate TooMuch(files: seq<Input>, freeblock: nat) {
    |files| > NINODES - 2 || freeblock == FSSIZE || exists k :: 0 <= k < |files| && |files[k].contents| > MAXBYTES
  }

  /** mkfs: an image on which the kernel's invariant holds, with the given files.  The
      model stops where an image, its inode table or a file is full. */
  method Build(files: seq<Input>) returns (image: Image, ok: bool)
    ensures fresh(image)
    ensures ok ==> image.Complete(RootEntries(), files) && LaidOut(image.disk[1])
    ensures !ok ==> TooMuch(files, image.freeblock)
  {
    SuperRead();
    image, ok := StartImage();
    if !ok {
      return;
    }
    if |files| > NINODES - 2 {
      return image, false;
    }
    ok := image.AddAll(files, RootEntries());
    if ok {
      image.Finish(files, RootEntries());
    }
  }
}

/** Blocks and inodes of the xv6 file system (fs.c) as values: the free map, the
    direct/indirect block map of an inode, who owns which block, and what bytes
    a file holds. */
module FileBlocks {
  import opened Common
  import opened Blocks

  const NDIRECT := 12
  const NINDIRECT := 256
  const MAXFILE := 268     // NDIRECT + NINDIRECT
  const NSLOTS := 269      // the indirect block itself is slot NDIRECT
  const IPB := 16          // dinodes per block
  const MAXBYTES := 274432 // MAXFILE * BSIZE

  datatype Superblock = Superblock(size: nat, ninodes: nat, inodestart: nat, bmapstart: nat) {
    function DataStart(): nat { bmapstart + size / BPB + 1 }
    function BBlock(b: nat): nat { b / BPB + bmapstart }
    function IBlock(inum: nat): nat { inum / IPB + inodestart }

    /** The layout mkfs writes: inode blocks, free map, data, inside the disk. */
    predicate Valid() {
      && 0 < inodestart && inodestart + ninodes / IPB + 1 <= bmapstart
      && DataStart() <= size <= 0x7fff_ffff
    }
  }

  type Addrs = a: seq<Word> | |a| == NDIRECT + 1 witness seq(NDIRECT + 1, _ => 0)
  type Half = x: int | 0 <= x < 0x1_0000

  /** The in-memory copy of a dinode. */
  datatype Inode = Inode(itype: Half, major: Half, minor: Half, nlink: Half, size: Word, addrs: Addrs)

  // ------------------------------------------------------------- free map

  predicate OnDisk(sb: Superblock, d: Disk) {
    sb.Valid() && |d| == sb.size
  }

  /** Block b is marked in use. */
  predicate Used(sb: Superblock, d: Disk, b: nat)
    requires OnDisk(sb, d) && b < sb.size
  {
    Bit(d[sb.BBlock(b)], b % BPB)
  }

  /** balloc's effect: mark b and zero it. */
  function Allocated(sb: Superblock, d: Disk, b: nat): (r: Disk)
    requires OnDisk(sb, d) && b < sb.size
  {
    d[sb.BBlock(b) := SetBit(d[sb.BBlock(b)], b % BPB)][b := ZeroBlock()]
  }

  /** bfree's effect. */
  function Freed(sb: Superblock, d: Disk, b: nat): (r: Disk)
    requires OnDisk(sb, d) && b < sb.size
  {
    d[sb.BBlock(b) := ClearBit(d[sb.BBlock(b)], b % BPB)]
  }

  lemma {:induction false} UsedUpdate(sb: Superblock, d: Disk, b: nat, x: nat)
    requires OnDisk(sb, d) && sb.DataStart() <= b < sb.size && x < sb.size
    ensures OnDisk(sb, Allocated(sb, d, b)) && OnDisk(sb, Freed(sb, d, b))
    ensures Used(sb, Allocated(sb, d, b), x) <==> x == b || Used(sb, d, x)
    ensures Used(sb, Freed(sb, d, b), x) <==> x != b && Used(sb, d, x)
  {
    if sb.BBlock(b) == sb.BBlock(x) {
      BitUpdate(d[sb.BBlock(b)], b % BPB, x % BPB);
      assert b % BPB == x % BPB ==> b == x;
    }
  }

  // ------------------------------------------------------------ block map

  /** The address in slot k of an inode: up to NDIRECT its own addresses, the rest
      are the entries of the indirect block.  (Under Inv no address is off the
      disk; the test only makes the function total.) */
  function Addr(d: Disk, ino: Inode, k: nat): (a: Word)
    requires k < NSLOTS
  {
    if k <= NDIRECT then ino.addrs[k]
    else if ino.addrs[NDIRECT] == 0 || |d| <= ino.addrs[NDIRECT] then 0
    else GetWord(d[ino.addrs[NDIRECT]], k - NDIRECT - 1)
  }

  /** The slot that holds the address of file block bn. */
  function SlotOf(bn: nat): nat {
    if bn < NDIRECT then bn else bn + 1
  }

  /** Contents of file block bn; a block not yet allocated reads as zeroes. */
  function BlockOf(d: Disk, ino: Inode, bn: nat): (b: Block)
    requires bn < MAXFILE
  {
    if Addr(d, ino, SlotOf(bn)) == 0 || |d| <= Addr(d, ino, SlotOf(bn)) then ZeroBlock()
    else d[Addr(d, ino, SlotOf(bn))]
  }

  function FileByte(d: Disk, ino: Inode, p: nat): (x: Byte)
    requires p < MAXBYTES
  {
    BlockOf(d, ino, p / BSIZE)[p % BSIZE]
  }

  /** The file as a byte sequence. */
  function File(d: Disk, ino: Inode): (f: seq<Byte>)
    requires ino.size <= MAXBYTES
  {
    seq(ino.size, p requires 0 <= p < ino.size => FileByte(d, ino, p))
  }

  // ------------------------------------------------------------ ownership

  /** A slot of an inode. */
  datatype Slot = Slot(inum: nat, k: nat)

  ghost predicate SlotOk(d: Disk, inodes: seq<Inode>, owner: map<Word, Slot>, i: nat, k: nat)
    requires i < |inodes| && k < NSLOTS
  {
    Addr(d, inodes[i], k) == 0 ||
    (Addr(d, inodes[i], k) in owner && owner[Addr(d, inodes[i], k)] == Slot(i, k))
  }

  ghost predicate OwnerOk(sb: Superblock, d: Disk, inodes: seq<Inode>, owner: map<Word, Slot>, a: Word)
    requires OnDisk(sb, d) && a in owner
  {
    && sb.DataStart() <= a < sb.size && Used(sb, d, a)
    && owner[a].inum < |inodes| && owner[a].k < NSLOTS
    && Addr(d, inodes[owner[a].inum], owner[a].k) == a
  }

  /** The file-system invariant.  `owner` maps every block that some inode maps
      to the one slot that maps it: such a block is in the data area and marked
      used.  Metadata blocks are marked used, so they are never handed out. */
  ghost predicate Inv(sb: Superblock, d: Disk, inodes: seq<Inode>, owner: map<Word, Slot>) {
    && OnDisk(sb, d)
    && |inodes| == sb.ninodes
    && (forall b :: 0 <= b < sb.DataStart() ==> Used(sb, d, b))
    && (forall i :: 0 <= i < |inodes| ==> inodes[i].size <= MAXBYTES)
    && (forall i, k :: 0 <= i < |inodes| && 0 <= k < NSLOTS ==> SlotOk(d, inodes, owner, i, k))
    && (forall a :: a in owner ==> OwnerOk(sb, d, inodes, owner, a))
  }

  /** Two different slots never hold the same block, and a mapped block is a
      used data block. */
  lemma {:induction false} SingleOwner(sb: Superblock, d: Disk, inodes: seq<Inode>, owner: map<Word, Slot>, i: nat,
        k: nat, j: nat, m: nat)
    requires Inv(sb, d, inodes, owner)
    requires i < |inodes| && k < NSLOTS && j < |inodes| && m < NSLOTS
    ensures Addr(d, inodes[i], k) == Addr(d, inodes[j], m) != 0 ==> i == j && k == m
    ensures Addr(d, inodes[i], k) != 0 ==>
              sb.DataStart() <= Addr(d, inodes[i], k) < sb.size && Used(sb, d, Addr(d, inodes[i], k))
  {
    assert SlotOk(d, inodes, owner, i, k) && SlotOk(d, inodes, owner, j, m);
  }

  /** A mapped block is a used data block. */
  lemma {:induction false} SlotHolds(sb: Superblock, d: Disk, inodes: seq<Inode>, owner: map<Word, Slot>, i: nat,
        k: nat)
    requires Inv(sb, d, inodes, owner) && i < |inodes| && k < NSLOTS && Addr(d, inodes[i], k) != 0
    ensures var a := Addr(d, inodes[i], k); sb.DataStart() <= a < sb.size && Used(sb, d, a)
  {
    assert SlotOk(d, inodes, owner, i, k);
    assert OwnerOk(sb, d, inodes, owner, Addr(d, inodes[i], k));
  }

  /** File contents of two states agree for every inode but `except`. */
  ghost predicate SameBlocks(d: Disk, inodes: seq<Inode>, e: Disk, others: seq<Inode>, except: int) {
    && |inodes| == |others|
    && forall j, bn :: 0 <= j < |inodes| && 0 <= bn < MAXFILE && j != except ==>
         BlockOf(e, others[j], bn) == BlockOf(d, inodes[j], bn)
  }

  /** Addresses, and with them the invariant, survive any disk change that
      leaves the indirect blocks and the needed bits alone. */
  lemma {:induction false} InvFrame(sb: Superblock, d: Disk, e: Disk, inodes: seq<Inode>, owner: map<Word, Slot>)
    requires Inv(sb, d, inodes, owner) && OnDisk(sb, e)
    requires forall b :: 0 <= b < sb.DataStart() ==> Used(sb, e, b)
    requires forall b :: b in owner ==> b < sb.size && Used(sb, e, b)
    requires forall a :: a in owner && owner[a].k == NDIRECT ==> a < sb.size && e[a] == d[a]
    ensures Inv(sb, e, inodes, owner)
    ensures forall i, k :: 0 <= i < |inodes| && 0 <= k < NSLOTS ==> Addr(e, inodes[i], k) == Addr(d, inodes[i], k)
  {
    forall i, k | 0 <= i < |inodes| && 0 <= k < NSLOTS
      ensures SlotOk(e, inodes, owner, i, k) && Addr(e, inodes[i], k) == Addr(d, inodes[i], k)
    {
      assert SlotOk(d, inodes, owner, i, k) && SlotOk(d, inodes, owner, i, NDIRECT);
    }
    forall a | a in owner
      ensures OwnerOk(sb, e, inodes, owner, a)
    {
      assert OwnerOk(sb, d, inodes, owner, a);
    }
  }

  /** If the owned blocks themselves are untouched too, so are all files. */
  lemma {:induction false} FilesFrame(sb: Superblock, d: Disk, e: Disk, inodes: seq<Inode>, owner: map<Word, Slot>)
    requires Inv(sb, d, inodes, owner) && OnDisk(sb, e)
    requires forall b :: 0 <= b < sb.DataStart() ==> Used(sb, e, b)
    requires forall b :: b in owner ==> b < sb.size && Used(sb, e, b) && e[b] == d[b]
    ensures Inv(sb, e, inodes, owner) && SameBlocks(d, inodes, e, inodes, -1)
  {
    InvFrame(sb, d, e, inodes, owner);
    forall j, bn | 0 <= j < |inodes| && 0 <= bn < MAXFILE
      ensures BlockOf(e, inodes[j], bn) == BlockOf(d, inodes[j], bn)
    {
      assert SlotOk(d, inodes, owner, j, SlotOf(bn));
      assert Addr(e, inodes[j], SlotOf(bn)) == Addr(d, inodes[j], SlotOf(bn));
    }
  }

  /** balloc keeps the invariant and every file; the block it hands out was
      free, is nobody's, and now reads as zeroes. */
  lemma {:induction false} AllocKeeps(sb: Superblock, d: Disk, inodes: seq<Inode>, owner: map<Word, Slot>, b: nat)
    requires Inv(sb, d, inodes, owner) && b < sb.size && !Used(sb, d, b)
    ensures b !in owner && sb.DataStart() <= b
    ensures var e := Allocated(sb, d, b);
            && Inv(sb, e, inodes, owner) && SameBlocks(d, inodes, e, inodes, -1)
            && Used(sb, e, b) && e[b] == ZeroBlock()
  {
    var e := Allocated(sb, d, b);
    forall x | 0 <= x < sb.size
      ensures Used(sb, e, x) <==> x == b || Used(sb, d, x)
    {
      UsedUpdate(sb, d, b, x);
    }
    forall a | a in owner
      ensures a < sb.size && Used(sb, e, a) && e[a] == d[a] && a != b
    {
      assert OwnerOk(sb, d, inodes, owner, a);
    }
    FilesFrame(sb, d, e, inodes, owner);
  }

  /** bmap fills an address slot: an empty one takes a fresh zeroed block. */
  lemma {:induction false} AttachAddr(sb: Superblock, d: Disk, inodes: seq<Inode>, owner: map<Word, Slot>, i: nat,
        k: nat, b: Word)
    requires Inv(sb, d, inodes, owner) && i < |inodes| && k <= NDIRECT && inodes[i].addrs[k] == 0
    requires sb.DataStart() <= b < sb.size && Used(sb, d, b) && b !in owner && d[b] == ZeroBlock()
    ensures var others := inodes[i := inodes[i].(addrs := inodes[i].addrs[k := b])];
            && Inv(sb, d, others, owner[b := Slot(i, k)])
            && SameBlocks(d, inodes, d, others, -1)
  {
    var others := inodes[i := inodes[i].(addrs := inodes[i].addrs[k := b])];
    var owner' := owner[b := Slot(i, k)];
    forall j, m | 0 <= j < |others| && 0 <= m < NSLOTS
      ensures SlotOk(d, others, owner', j, m)
      ensures j != i || m != k ==> Addr(d, others[j], m) == Addr(d, inodes[j], m)
    {
      assert SlotOk(d, inodes, owner, j, m);
      if j == i && k == NDIRECT && m > NDIRECT {
        ZeroWord(m - NDIRECT - 1);
      }
    }
    forall a | a in owner'
      ensures OwnerOk(sb, d, others, owner', a)
    {
      if a != b {
        assert OwnerOk(sb, d, inodes, owner, a);
        assert owner[a] != Slot(i, k);
      }
    }
  }

  /** Storing one entry of an inode's indirect block changes that slot alone. */
  lemma {:induction false} EntryAddr(sb: Superblock, d: Disk, inodes: seq<Inode>, owner: map<Word, Slot>, i: nat,
        n: nat, b: Word, j: nat, m: nat)
    requires Inv(sb, d, inodes, owner) && i < |inodes| && n < NINDIRECT
    requires 0 < inodes[i].addrs[NDIRECT] < |d|
    requires j < |inodes| && m < NSLOTS
    ensures var ind := inodes[i].addrs[NDIRECT];
            Addr(d[ind := SetWord(d[ind], n, b)], inodes[j], m) ==
            if j == i && m == NDIRECT + 1 + n then b else Addr(d, inodes[j], m)
  {
    assert SlotOk(d, inodes, owner, i, NDIRECT) && SlotOk(d, inodes, owner, j, NDIRECT);
    if m > NDIRECT {
      GetSetWord(d[inodes[i].addrs[NDIRECT]], n, b, m - NDIRECT - 1);
    }
  }

  /** bmap fills an entry of the indirect block. */
  lemma {:induction false} AttachEntry(sb: Superblock, d: Disk, inodes: seq<Inode>, owner: map<Word, Slot>, i: nat,
        n: nat, b: Word)
    requires Inv(sb, d, inodes, owner) && i < |inodes| && n < NINDIRECT
    requires 0 < inodes[i].addrs[NDIRECT] < |d| && Addr(d, inodes[i], NDIRECT + 1 + n) == 0
    requires sb.DataStart() <= b < sb.size && Used(sb, d, b) && b !in owner
    ensures var ind := inodes[i].addrs[NDIRECT];
            Inv(sb, d[ind := SetWord(d[ind], n, b)], inodes, owner[b := Slot(i, NDIRECT + 1 + n)])
  {
    var ind := inodes[i].addrs[NDIRECT];
    SlotHolds(sb, d, inodes, owner, i, NDIRECT);
    DataBits(sb, d, ind, SetWord(d[ind], n, b));
    var e, owner' := d[ind := SetWord(d[ind], n, b)], owner[b := Slot(i, NDIRECT + 1 + n)];
    forall x | 0 <= x < sb.DataStart()
      ensures Used(sb, e, x)
    {
      assert Used(sb, d, x);
    }
    forall j, m | 0 <= j < |inodes| && 0 <= m < NSLOTS
      ensures SlotOk(e, inodes, owner', j, m)
    {
      assert SlotOk(d, inodes, owner, j, m);
      EntryAddr(sb, d, inodes, owner, i, n, b, j, m);
    }
    forall a | a in owner'
      ensures OwnerOk(sb, e, inodes, owner', a)
    {
      AttachEntryOwner(sb, d, inodes, owner, i, n, b, a);
    }
  }

  lemma {:induction false} AttachEntryOwner(sb: Superblock, d: Disk, inodes: seq<Inode>, owner: map<Word, Slot>,
        i: nat, n: nat, b: Word, a: Word)
    requires Inv(sb, d, inodes, owner) && i < |inodes| && n < NINDIRECT
    requires 0 < inodes[i].addrs[NDIRECT] < |d| && Addr(d, inodes[i], NDIRECT + 1 + n) == 0
    requires sb.DataStart() <= b < sb.size && Used(sb, d, b) && b !in owner && (a in owner || a == b)
    ensures var ind := inodes[i].addrs[NDIRECT];
            OwnerOk(sb, d[ind := SetWord(d[ind], n, b)], inodes, owner[b := Slot(i, NDIRECT + 1 + n)], a)
  {
    var ind := inodes[i].addrs[NDIRECT];
    SlotHolds(sb, d, inodes, owner, i, NDIRECT);
    DataBits(sb, d, ind, SetWord(d[ind], n, b));
    if a == b {
      EntryAddr(sb, d, inodes, owner, i, n, b, i, NDIRECT + 1 + n);
    } else {
      assert OwnerOk(sb, d, inodes, owner, a);
      EntryAddr(sb, d, inodes, owner, i, n, b, owner[a].inum, owner[a].k);
    }
  }

  /** Writing a data block does not touch the free map. */
  lemma {:induction false} DataBits(sb: Superblock, d: Disk, x: nat, data: Block)
    requires OnDisk(sb, d) && sb.DataStart() <= x < sb.size
    ensures OnDisk(sb, d[x := data]) && forall b :: 0 <= b < sb.size ==> Used(sb, d[x := data], b) == Used(sb, d, b)
  {
  }

  /** ... and no file changes: the new block is zero, as the hole was. */
  lemma {:induction false} AttachEntryFiles(sb: Superblock, d: Disk, inodes: seq<Inode>, owner: map<Word, Slot>,
        i: nat, n: nat, b: Word)
    requires Inv(sb, d, inodes, owner) && i < |inodes| && n < NINDIRECT
    requires 0 < inodes[i].addrs[NDIRECT] < |d| && Addr(d, inodes[i], NDIRECT + 1 + n) == 0
    requires sb.DataStart() <= b < sb.size && b !in owner && d[b] == ZeroBlock()
    ensures var ind := inodes[i].addrs[NDIRECT];
            SameBlocks(d, inodes, d[ind := SetWord(d[ind], n, b)], inodes, -1)
  {
    var ind := inodes[i].addrs[NDIRECT];
    assert SlotOk(d, inodes, owner, i, NDIRECT);
    forall j, bn | 0 <= j < |inodes| && 0 <= bn < MAXFILE
      ensures BlockOf(d[ind := SetWord(d[ind], n, b)], inodes[j], bn) == BlockOf(d, inodes[j], bn)
    {
      assert SlotOk(d, inodes, owner, j, SlotOf(bn));
      EntryAddr(sb, d, inodes, owner, i, n, b, j, SlotOf(bn));
    }
  }

  /** Writing a data block through slot k of inode i keeps the invariant and
      changes that one file block. */
  lemma {:induction false} DataWrite(sb: Superblock, d: Disk, inodes: seq<Inode>, owner: map<Word, Slot>, i: nat,
        bn: nat, data: Block)
    requires Inv(sb, d, inodes, owner) && i < |inodes| && bn < MAXFILE
    requires Addr(d, inodes[i], SlotOf(bn)) != 0
    ensures Addr(d, inodes[i], SlotOf(bn)) < |d|
    ensures var e := d[Addr(d, inodes[i], SlotOf(bn)) := data];
            && Inv(sb, e, inodes, owner)
            && SameBlocks(d, inodes, e, inodes, i)
            && Addr(e, inodes[i], SlotOf(bn)) == Addr(d, inodes[i], SlotOf(bn))
            && forall m :: 0 <= m < MAXFILE ==>
                 BlockOf(e, inodes[i], m) == if m == bn then data else BlockOf(d, inodes[i], m)
  {
    var a := Addr(d, inodes[i], SlotOf(bn));
    assert SlotOk(d, inodes, owner, i, SlotOf(bn)) && OwnerOk(sb, d, inodes, owner, a);
    var e := d[a := data];
    forall x | 0 <= x < sb.size
      ensures Used(sb, e, x) == Used(sb, d, x)
    {
    }
    forall x | x in owner
      ensures x < sb.size && Used(sb, e, x) && (owner[x].k == NDIRECT ==> e[x] == d[x])
    {
      assert OwnerOk(sb, d, inodes, owner, x);
    }
    InvFrame(sb, d, e, inodes, owner);
    forall j, m | 0 <= j < |inodes| && 0 <= m < MAXFILE
      ensures BlockOf(e, inodes[j], m) == if j == i && m == bn then data else BlockOf(d, inodes[j], m)
    {
      assert SlotOk(d, inodes, owner, j, SlotOf(m));
      assert Addr(e, inodes[j], SlotOf(m)) == Addr(d, inodes[j], SlotOf(m));
    }
  }

  /** Writing an inode block touches no bit, no address and no file. */
  lemma {:induction false} InodeBlockWrite(sb: Superblock, d: Disk, inodes: seq<Inode>, owner: map<Word, Slot>, x: nat,
        data: Block)
    requires Inv(sb, d, inodes, owner) && x < sb.bmapstart
    ensures Inv(sb, d[x := data], inodes, owner) && SameBlocks(d, inodes, d[x := data], inodes, -1)
  {
    var e := d[x := data];
    forall b | 0 <= b < sb.size
      ensures Used(sb, e, b) == Used(sb, d, b)
    {
    }
    forall a | a in owner
      ensures a < sb.size && Used(sb, e, a) && e[a] == d[a]
    {
      assert OwnerOk(sb, d, inodes, owner, a);
    }
    FilesFrame(sb, d, e, inodes, owner);
  }

  /** An inode with no blocks. */
  function Emptied(ino: Inode): (r: Inode) {
    ino.(size := 0, addrs := [0, 0, 0, 0, 0, 0, 0, 0, 0, 0, 0, 0, 0])
  }

  /** The ownership map once inode i gives up its blocks. */
  ghost function Without(owner: map<Word, Slot>, i: nat): (r: map<Word, Slot>) {
    map a | a in owner && owner[a].inum != i :: owner[a]
  }

  lemma {:induction false} DetachAll(sb: Superblock, d: Disk, inodes: seq<Inode>, owner: map<Word, Slot>, i: nat)
    requires Inv(sb, d, inodes, owner) && i < |inodes|
    ensures Inv(sb, d, inodes[i := Emptied(inodes[i])], Without(owner, i))
    ensures SameBlocks(d, inodes, d, inodes[i := Emptied(inodes[i])], i)
  {
    var others := inodes[i := Emptied(inodes[i])];
    forall j, m | 0 <= j < |others| && 0 <= m < NSLOTS
      ensures SlotOk(d, others, Without(owner, i), j, m)
    {
      assert SlotOk(d, inodes, owner, j, m);
    }
    forall a | a in Without(owner, i)
      ensures OwnerOk(sb, d, others, Without(owner, i), a)
    {
      assert OwnerOk(sb, d, inodes, owner, a);
    }
  }

  /** Freeing a data block nobody owns keeps the invariant and every file. */
  lemma {:induction false} FreeKeeps(sb: Superblock, d: Disk, inodes: seq<Inode>, owner: map<Word, Slot>, b: nat)
    requires Inv(sb, d, inodes, owner) && sb.DataStart() <= b < sb.size && b !in owner
    ensures var e := Freed(sb, d, b);
            && Inv(sb, e, inodes, owner) && SameBlocks(d, inodes, e, inodes, -1)
            && (forall x :: 0 <= x < sb.size ==> (Used(sb, e, x) <==> x != b && Used(sb, d, x)))
            && (forall x :: sb.DataStart() <= x < sb.size ==> e[x] == d[x])
  {
    var e := Freed(sb, d, b);
    forall x | 0 <= x < sb.size
      ensures Used(sb, e, x) <==> x != b && Used(sb, d, x)
    {
      UsedUpdate(sb, d, b, x);
    }
    forall a | a in owner
      ensures a < sb.size && Used(sb, e, a) && e[a] == d[a]
    {
      assert OwnerOk(sb, d, inodes, owner, a);
    }
    FilesFrame(sb, d, e, inodes, owner);
  }

  lemma {:induction false} SameBlocksTrans(d: Disk, p: seq<Inode>, e: Disk, q: seq<Inode>, f: Disk, r: seq<Inode>,
        except: int)
    requires SameBlocks(d, p, e, q, except) && SameBlocks(e, q, f, r, except)
    ensures SameBlocks(d, p, f, r, except)
  {
  }

  lemma {:induction false} AllocatedFrame(sb: Superblock, d: Disk, b: nat)
    requires OnDisk(sb, d) && sb.DataStart() <= b < sb.size
    ensures forall x :: 0 <= x < sb.bmapstart ==> Allocated(sb, d, b)[x] == d[x]
    ensures forall x :: sb.DataStart() <= x < sb.size && x != b ==> Allocated(sb, d, b)[x] == d[x]
  {
  }

  /** balloc into entry n of inode i's indirect block, as one step. */
  lemma {:induction false} AllocEntry(sb: Superblock, d: Disk, inodes: seq<Inode>, owner: map<Word, Slot>, i: nat,
        n: nat, b: Word)
    requires Inv(sb, d, inodes, owner) && i < |inodes| && n < NINDIRECT
    requires inodes[i].addrs[NDIRECT] != 0 && Addr(d, inodes[i], NDIRECT + 1 + n) == 0
    requires b < sb.size && !Used(sb, d, b)
    ensures sb.DataStart() <= inodes[i].addrs[NDIRECT] < |d| && inodes[i].addrs[NDIRECT] != b && sb.DataStart() <= b
    ensures var ind := inodes[i].addrs[NDIRECT];
            var e := Allocated(sb, d, b);
            var f := e[ind := SetWord(e[ind], n, b)];
            && Inv(sb, f, inodes, owner[b := Slot(i, NDIRECT + 1 + n)])
            && SameBlocks(d, inodes, f, inodes, -1)
            && Addr(f, inodes[i], NDIRECT + 1 + n) == b
            && (forall x :: 0 <= x < sb.bmapstart ==> f[x] == d[x])
  {
    var ind := inodes[i].addrs[NDIRECT];
    SlotHolds(sb, d, inodes, owner, i, NDIRECT);
    var e := Allocated(sb, d, b);
    var f := e[ind := SetWord(e[ind], n, b)];
    AllocKeeps(sb, d, inodes, owner, b);
    AllocatedFrame(sb, d, b);
    AllocAddr(sb, d, inodes, owner, b, i, NDIRECT + 1 + n);
    AttachEntry(sb, e, inodes, owner, i, n, b);
    AttachEntryFiles(sb, e, inodes, owner, i, n, b);
    EntryAddr(sb, e, inodes, owner, i, n, b, i, NDIRECT + 1 + n);
    SameBlocksTrans(d, inodes, e, inodes, f, inodes, -1);
  }

  /** The block in slot k of inode i is the one whose owner is that slot. */
  lemma {:induction false} SlotInverse(sb: Superblock, d: Disk, inodes: seq<Inode>, owner: map<Word, Slot>, i: nat,
        k: nat)
    requires Inv(sb, d, inodes, owner) && i < |inodes| && k < NSLOTS
    ensures forall x :: x in owner && owner[x] == Slot(i, k) ==> x == Addr(d, inodes[i], k)
    ensures Addr(d, inodes[i], k) != 0 ==>
              Addr(d, inodes[i], k) in owner && owner[Addr(d, inodes[i], k)] == Slot(i, k)
    ensures 0 !in owner
  {
    assert SlotOk(d, inodes, owner, i, k);
    assert forall x :: x in owner ==> OwnerOk(sb, d, inodes, owner, x);
  }

  /** Blocks in the slots of inode i below `direct` and in the first `entries`
      entries of its indirect block: what itrunc has freed part-way through. */
  ghost function Prefix(owner: map<Word, Slot>, i: nat, direct: nat, entries: nat): (r: set<Word>) {
    set x | x in owner && owner[x].inum == i && (owner[x].k < direct || NDIRECT < owner[x].k <= NDIRECT + entries)
  }

  ghost function OwnedBy(owner: map<Word, Slot>, i: nat): (r: set<Word>) {
    set x | x in owner && owner[x].inum == i
  }

  ghost function NonZero(a: Word): set<Word> { if a == 0 then {} else {a} }

  /** Freeing the next slot extends the prefix by that slot's block. */
  lemma {:induction false} PrefixStep(sb: Superblock, d: Disk, inodes: seq<Inode>, owner: map<Word, Slot>, i: nat,
        direct: nat, entries: nat)
    requires Inv(sb, d, inodes, owner) && i < |inodes|
    ensures direct < NDIRECT ==>
              && Addr(d, inodes[i], direct) !in Prefix(owner, i, direct, 0)
              && Prefix(owner, i, direct + 1, 0) == Prefix(owner, i, direct, 0) + NonZero(Addr(d, inodes[i], direct))
    ensures entries < NINDIRECT ==>
              && Addr(d, inodes[i], NDIRECT + 1 + entries) !in Prefix(owner, i, NDIRECT, entries)
              && Prefix(owner, i, NDIRECT, entries + 1) ==
                 Prefix(owner, i, NDIRECT, entries) + NonZero(Addr(d, inodes[i], NDIRECT + 1 + entries))
  {
    if direct < NDIRECT {
      SlotInverse(sb, d, inodes, owner, i, direct);
    }
    if entries < NINDIRECT {
      SlotInverse(sb, d, inodes, owner, i, NDIRECT + 1 + entries);
    }
  }

  lemma {:induction false} PrefixEnds(sb: Superblock, d: Disk, inodes: seq<Inode>, owner: map<Word, Slot>, i: nat)
    requires Inv(sb, d, inodes, owner) && i < |inodes|
    ensures Prefix(owner, i, 0, 0) == {}
    ensures inodes[i].addrs[NDIRECT] !in Prefix(owner, i, NDIRECT, NINDIRECT)
    ensures OwnedBy(owner, i) == Prefix(owner, i, NDIRECT, NINDIRECT) + NonZero(inodes[i].addrs[NDIRECT])
    ensures inodes[i].addrs[NDIRECT] == 0 ==> OwnedBy(owner, i) == Prefix(owner, i, NDIRECT, 0)
  {
    SlotInverse(sb, d, inodes, owner, i, NDIRECT);
    assert forall x :: x in owner ==> OwnerOk(sb, d, inodes, owner, x);
  }

  // ------------------------------------------------------- blocks stay put

  /** A mapped block stays where it is. */
  ghost predicate Grows(d: Disk, p: seq<Inode>, e: Disk, q: seq<Inode>) {
    && |p| == |q|
    && forall j, k :: 0 <= j < |p| && 0 <= k < NSLOTS && Addr(d, p[j], k) != 0 ==> Addr(e, q[j], k) == Addr(d, p[j], k)
  }

  lemma {:induction false} GrowsTrans(d: Disk, p: seq<Inode>, e: Disk, q: seq<Inode>, f: Disk, r: seq<Inode>)
    requires Grows(d, p, e, q) && Grows(e, q, f, r)
    ensures Grows(d, p, f, r)
  {
  }

  lemma {:induction false} AllocAddr(sb: Superblock, d: Disk, inodes: seq<Inode>, owner: map<Word, Slot>, b: nat,
        j: nat, k: nat)
    requires Inv(sb, d, inodes, owner) && b < sb.size && !Used(sb, d, b) && j < |inodes| && k < NSLOTS
    ensures Addr(Allocated(sb, d, b), inodes[j], k) == Addr(d, inodes[j], k)
  {
    AllocKeeps(sb, d, inodes, owner, b);
    AllocatedFrame(sb, d, b);
    assert SlotOk(d, inodes, owner, j, NDIRECT);
    if inodes[j].addrs[NDIRECT] != 0 {
      assert OwnerOk(sb, d, inodes, owner, inodes[j].addrs[NDIRECT]);
    }
  }

  lemma {:induction false} GrowsSlot(sb: Superblock, d: Disk, inodes: seq<Inode>, owner: map<Word, Slot>, i: nat,
        k: nat, b: Word)
    requires Inv(sb, d, inodes, owner) && i < |inodes| && k <= NDIRECT && inodes[i].addrs[k] == 0
    requires b < sb.size && !Used(sb, d, b)
    ensures Grows(d, inodes, Allocated(sb, d, b), inodes[i := inodes[i].(addrs := inodes[i].addrs[k := b])])
  {
    TakesSlot(sb, d, inodes, owner, i, k, b);
  }

  lemma {:induction false} GrowsEntry(sb: Superblock, d: Disk, inodes: seq<Inode>, owner: map<Word, Slot>, i: nat,
        n: nat, b: Word)
    requires Inv(sb, d, inodes, owner) && i < |inodes| && n < NINDIRECT && b < sb.size && !Used(sb, d, b)
    requires 0 < inodes[i].addrs[NDIRECT] < |d| && Addr(d, inodes[i], NDIRECT + 1 + n) == 0
    ensures var ind, e := inodes[i].addrs[NDIRECT], Allocated(sb, d, b);
            Grows(d, inodes, e[ind := SetWord(e[ind], n, b)], inodes)
  {
    TakesEntry(sb, d, inodes, owner, i, n, b);
  }

  /** Writing a data block, or a block below the free map, moves no block. */
  lemma {:induction false} GrowsWrite(sb: Superblock, d: Disk, inodes: seq<Inode>, owner: map<Word, Slot>, x: nat,
        data: Block)
    requires Inv(sb, d, inodes, owner) && x < |d|
    requires x < sb.bmapstart || (x in owner && owner[x].k != NDIRECT)
    ensures forall j, m :: 0 <= j < |inodes| && 0 <= m < NSLOTS ==>
              Addr(d[x := data], inodes[j], m) == Addr(d, inodes[j], m)
    ensures Grows(d, inodes, d[x := data], inodes)
  {
    forall j, m | 0 <= j < |inodes| && 0 <= m < NSLOTS
      ensures Addr(d[x := data], inodes[j], m) == Addr(d, inodes[j], m)
    {
      assert SlotOk(d, inodes, owner, j, NDIRECT);
      if inodes[j].addrs[NDIRECT] != 0 {
        assert OwnerOk(sb, d, inodes, owner, inodes[j].addrs[NDIRECT]);
      }
    }
  }

  /** Byte p of the file has a block. */
  predicate HasBlock(d: Disk, ino: Inode, p: nat) { p < MAXBYTES && Addr(d, ino, SlotOf(p / BSIZE)) != 0 }

  ghost predicate Mapped(d: Disk, ino: Inode, off: nat, n: nat) {
    forall p :: off <= p < off + n ==> HasBlock(d, ino, p)
  }

  /** A file has no holes. */
  ghost predicate Filled(d: Disk, ino: Inode) { Mapped(d, ino, 0, ino.size) }

  lemma {:induction false} MappedGrows(d: Disk, p: seq<Inode>, e: Disk, q: seq<Inode>, j: nat, off: nat, n: nat)
    requires Grows(d, p, e, q) && j < |p| && Mapped(d, p[j], off, n)
    ensures Mapped(e, q[j], off, n)
  {
    forall x | off <= x < off + n
      ensures HasBlock(e, q[j], x)
    {
      assert HasBlock(d, p[j], x);
    }
  }

  /** Slot k of inode i takes block b; no other slot of any inode changes. */
  ghost predicate Takes(d: Disk, p: seq<Inode>, e: Disk, q: seq<Inode>, i: nat, k: nat, b: Word) {
    && |p| == |q|
    && forall j, m :: 0 <= j < |p| && 0 <= m < NSLOTS ==>
         Addr(e, q[j], m) == if j == i && m == k then b else Addr(d, p[j], m)
  }

  lemma {:induction false} TakesSlot(sb: Superblock, d: Disk, inodes: seq<Inode>, owner: map<Word, Slot>, i: nat,
        k: nat, b: Word)
    requires Inv(sb, d, inodes, owner) && i < |inodes| && k <= NDIRECT && inodes[i].addrs[k] == 0
    requires b < sb.size && !Used(sb, d, b)
    ensures Takes(d, inodes, Allocated(sb, d, b), inodes[i := inodes[i].(addrs := inodes[i].addrs[k := b])], i, k, b)
  {
    var e, others := Allocated(sb, d, b), inodes[i := inodes[i].(addrs := inodes[i].addrs[k := b])];
    forall j, m | 0 <= j < |inodes| && 0 <= m < NSLOTS
      ensures Addr(e, others[j], m) == if j == i && m == k then b else Addr(d, inodes[j], m)
    {
      AllocAddr(sb, d, inodes, owner, b, j, m);
      if j == i && k == NDIRECT && m > NDIRECT {
        ZeroWord(m - NDIRECT - 1);
      }
    }
  }

  lemma {:induction false} TakesEntry(sb: Superblock, d: Disk, inodes: seq<Inode>, owner: map<Word, Slot>, i: nat,
        n: nat, b: Word)
    requires Inv(sb, d, inodes, owner) && i < |inodes| && n < NINDIRECT && b < sb.size && !Used(sb, d, b)
    requires 0 < inodes[i].addrs[NDIRECT] < |d| && Addr(d, inodes[i], NDIRECT + 1 + n) == 0
    ensures var ind, e := inodes[i].addrs[NDIRECT], Allocated(sb, d, b);
            Takes(d, inodes, e[ind := SetWord(e[ind], n, b)], inodes, i, NDIRECT + 1 + n, b)
  {
    var ind, e := inodes[i].addrs[NDIRECT], Allocated(sb, d, b);
    AllocKeeps(sb, d, inodes, owner, b);
    forall j, m | 0 <= j < |inodes| && 0 <= m < NSLOTS
      ensures Addr(e[ind := SetWord(e[ind], n, b)], inodes[j], m) ==
              if j == i && m == NDIRECT + 1 + n then b else Addr(d, inodes[j], m)
    {
      AllocAddr(sb, d, inodes, owner, b, j, m);
      EntryAddr(sb, e, inodes, owner, i, n, b, j, m);
    }
  }

  // ------------------------------------------------------ blocks are added

  /** From d, p to e, q blocks may have been added where there were none, as zeroes: no
      file has changed, no block has moved, and nothing below the free map was written. */
  ghost predicate Extends(sb: Superblock, d: Disk, p: seq<Inode>, e: Disk, q: seq<Inode>) {
    && SameBlocks(d, p, e, q, -1) && Grows(d, p, e, q)
    && |d| == |e| && forall x :: 0 <= x < sb.bmapstart && x < |d| ==> e[x] == d[x]
  }

  lemma {:induction false} ExtendsNone(sb: Superblock, d: Disk, p: seq<Inode>)
    ensures Extends(sb, d, p, d, p)
  {
  }

  lemma {:induction false} ExtendsTrans(sb: Superblock, d: Disk, p: seq<Inode>, e: Disk, q: seq<Inode>, f: Disk,
        r: seq<Inode>)
    requires Extends(sb, d, p, e, q) && Extends(sb, e, q, f, r)
    ensures Extends(sb, d, p, f, r)
  {
    SameBlocksTrans(d, p, e, q, f, r, -1);
    GrowsTrans(d, p, e, q, f, r);
  }

  /** balloc, with the block stored in an address slot of the inode. */
  lemma {:induction false} SlotTaken(sb: Superblock, d: Disk, p: seq<Inode>, owner: map<Word, Slot>, i: nat, k: nat,
        b: Word)
    requires Inv(sb, d, p, owner) && i < |p| && k <= NDIRECT && p[i].addrs[k] == 0 && b < sb.size && !Used(sb, d, b)
    ensures var e, q := Allocated(sb, d, b), p[i := p[i].(addrs := p[i].addrs[k := b])];
            && Inv(sb, e, q, owner[b := Slot(i, k)]) && Extends(sb, d, p, e, q)
            && sb.DataStart() <= b && e[b] == ZeroBlock()
  {
    var e, q := Allocated(sb, d, b), p[i := p[i].(addrs := p[i].addrs[k := b])];
    AllocKeeps(sb, d, p, owner, b);
    AttachAddr(sb, e, p, owner, i, k, b);
    SameBlocksTrans(d, p, e, p, e, q, -1);
    GrowsSlot(sb, d, p, owner, i, k, b);
  }

  /** balloc, with the block stored in the indirect block. */
  lemma {:induction false} EntryTaken(sb: Superblock, d: Disk, p: seq<Inode>, owner: map<Word, Slot>, i: nat, n: nat,
        b: Word)
    requires Inv(sb, d, p, owner) && i < |p| && n < NINDIRECT && p[i].addrs[NDIRECT] != 0
    requires Addr(d, p[i], NDIRECT + 1 + n) == 0 && b < sb.size && !Used(sb, d, b)
    ensures sb.DataStart() <= p[i].addrs[NDIRECT] < |d| && p[i].addrs[NDIRECT] != b && sb.DataStart() <= b
    ensures var ind, e := p[i].addrs[NDIRECT], Allocated(sb, d, b);
            var f := e[ind := SetWord(e[ind], n, b)];
            && Inv(sb, f, p, owner[b := Slot(i, NDIRECT + 1 + n)]) && Extends(sb, d, p, f, p)
            && Addr(f, p[i], NDIRECT + 1 + n) == b
  {
    AllocEntry(sb, d, p, owner, i, n, b);
    GrowsEntry(sb, d, p, owner, i, n, b);
  }
}

/** From mkfs to the kernel: the image is a file system by itself over an empty log, its
    root directory decodes to the entries mkfs was asked for, and its inodes are the state
    in which link counting starts. */
module Boot {
  import opened Common
  import opened Blocks
  import opened FileBlocks
  import opened Fs
  import opened Dirs
  import Crash
  import Links
  import Log
  import Mkfs

  // ------------------------------------------------------- directory entries

  /** A name field up to its first NUL. */
  function CName(b: seq<Byte>): seq<Byte> { if b == [] || b[0] == 0 then [] else [b[0]] + CName(b[1..]) }

  function Chars(b: seq<Byte>): (s: string)
    ensures |s| == |b| && forall i :: 0 <= i < |b| ==> s[i] == b[i] as char
  {
    seq(|b|, i requires 0 <= i < |b| => b[i] as char)
  }

  /** struct dirent as dirlookup reads it. */
  function SlotOfBytes(b: seq<Byte>): Dirent
    requires |b| == 16
  {
    var lo: int, hi: int := b[0], b[1];
    Dirent(lo + 256 * hi, Chars(CName(b[2..])))
  }

  /** What mkfs makes of a name: no leading underscore, at most DIRSIZ bytes. */
  function Shown(name: seq<Byte>): seq<Byte> {
    var n := if name != [] && name[0] == 95 then name[1..] else name;
    if |n| >= 14 then n[..14] else n
  }

  lemma {:induction false} CNamePadded(n: seq<Byte>, m: nat)
    requires 0 !in n
    ensures CName(n + Mkfs.Zeroes(m)) == n
  {
    if n == [] {
      assert n + Mkfs.Zeroes(m) == Mkfs.Zeroes(m);
    } else {
      assert n[0] in n && forall x :: x in n[1..] ==> x in n;
      CNamePadded(n[1..], m);
      assert (n + Mkfs.Zeroes(m))[1..] == n[1..] + Mkfs.Zeroes(m);
    }
  }

  /** An entry reads back as its inode number and its name. */
  lemma {:induction false} DirentReads(inum: nat, name: seq<Byte>)
    requires inum < 0x1_0000 && 0 !in name
    ensures SlotOfBytes(Mkfs.DirentBytes(inum, name)) == Dirent(inum, Chars(Shown(name)))
  {
    var n := if name != [] && name[0] == 95 then name[1..] else name;
    var b := Mkfs.DirentBytes(inum, name);
    assert forall x :: x in n ==> x in name;
    if |n| >= 14 {
      assert b[2..] == n[..14] + Mkfs.Zeroes(0);
      assert forall x :: x in n[..14] ==> x in n;
      CNamePadded(n[..14], 0);
    } else {
      assert b[2..] == n + Mkfs.Zeroes(14 - |n|);
      CNamePadded(n, 14 - |n|);
    }
  }

  /** A directory file as its slots. */
  function Slots(f: seq<Byte>): (r: seq<Dirent>)
    ensures |r| == |f| / 16
  {
    seq(|f| / 16, k requires 0 <= k < |f| / 16 => SlotOfBytes(f[16 * k..16 * k + 16]))
  }

  lemma {:induction false} SlotsAppend(f: seq<Byte>, g: seq<Byte>)
    requires |f| % 16 == 0 && |g| == 16
    ensures Slots(f + g) == Slots(f) + [SlotOfBytes(g)]
  {
    var r, n := Slots(f + g), |f| / 16;
    forall k | 0 <= k < |r|
      ensures r[k] == (Slots(f) + [SlotOfBytes(g)])[k]
    {
      if k < n {
        assert (f + g)[16 * k..16 * k + 16] == f[16 * k..16 * k + 16];
      } else {
        assert (f + g)[16 * k..16 * k + 16] == g;
      }
    }
  }

  lemma {:induction false} SlotsPadded(f: seq<Byte>, m: nat)
    requires |f| % 16 == 0
    ensures Slots(f + Mkfs.Zeroes(16 * m)) == Slots(f) + Links.NoEntries(m)
  {
    if m == 0 {
      assert f + Mkfs.Zeroes(0) == f;
      assert Slots(f) + Links.NoEntries(0) == Slots(f);
    } else {
      SlotsPadded(f, m - 1);
      var g := f + Mkfs.Zeroes(16 * (m - 1));
      assert f + Mkfs.Zeroes(16 * m) == g + Mkfs.Zeroes(16);
      SlotsAppend(g, Mkfs.Zeroes(16));
      ZeroSlot();
      assert Links.NoEntries(m) == Links.NoEntries(m - 1) + [Dirent(0, "")];
    }
  }

  lemma {:induction false} ZeroSlot()
    ensures SlotOfBytes(Mkfs.Zeroes(16)) == Dirent(0, "")
  {
    assert CName(Mkfs.Zeroes(16)[2..]) == [];
  }

  // ---------------------------------------------------------- the root directory

  function NamesOf(files: seq<Mkfs.Input>): (r: seq<string>)
    ensures |r| == |files| && forall k :: 0 <= k < |files| ==> r[k] == Chars(Shown(files[k].name))
  {
    seq(|files|, k requires 0 <= k < |files| => Chars(Shown(files[k].name)))
  }

  /** File names are C strings. */
  predicate Named(files: seq<Mkfs.Input>) { forall k :: 0 <= k < |files| ==> 0 !in files[k].name }

  lemma {:induction false} ThreeSlots(a: seq<Byte>, b: seq<Byte>, c: seq<Byte>)
    requires |a| == |b| == |c| == 16
    ensures Slots(a + b + c) == [SlotOfBytes(a), SlotOfBytes(b), SlotOfBytes(c)]
  {
    assert Slots([]) == [] && [] + a == a;
    SlotsAppend([], a);
    SlotsAppend(a, b);
    SlotsAppend(a + b, c);
  }

  lemma {:induction false} RootReads()
    ensures Slots(Mkfs.RootEntries()) == [Dirent(1, "."), Dirent(1, ".."), Dirent(1, "mnt")]
  {
    DirentReads(1, [46]);
    DirentReads(1, [46, 46]);
    DirentReads(1, [109, 110, 116]);
    assert Chars([46]) == "." && Chars([46, 46]) == ".." && Chars([109, 110, 116]) == "mnt";
    ThreeSlots(Mkfs.DirentBytes(1, [46]), Mkfs.DirentBytes(1, [46, 46]), Mkfs.DirentBytes(1, [109, 110, 116]));
  }

  lemma {:induction false} EntriesRead(root: seq<Byte>, files: seq<Mkfs.Input>, k: nat)
    requires k <= |files| <= Mkfs.NINODES - 2 && Named(files)
    requires |root| == 48 && Slots(root) == Links.RootSlots(NamesOf(files), 0)
    ensures Slots(Mkfs.Entries(root, files, k)) == Links.RootSlots(NamesOf(files), k)
  {
    if k > 0 {
      EntriesRead(root, files, k - 1);
      EntryReads(Mkfs.Entries(root, files, k - 1), k + 2, k + 1, files[k - 1].name);
    }
  }

  /** One more entry. */
  lemma {:induction false} EntryReads(before: seq<Byte>, n: nat, inum: nat, name: seq<Byte>)
    requires |before| == 16 * n && inum < 0x1_0000 && 0 !in name
    ensures Slots(before + Mkfs.DirentBytes(inum, name)) == Slots(before) + [Dirent(inum, Chars(Shown(name)))]
  {
    DirentReads(inum, name);
    SlotsAppend(before, Mkfs.DirentBytes(inum, name));
  }

  /** Slots left to the end of the root's last block. */
  function Spare(n: nat): nat { 64 - (n + 3) % 64 }

  lemma {:induction false} SpareBytes(len: nat, n: nat, m: nat)
    requires len == 16 * n && m == 64 - n % 64
    ensures (len / BSIZE + 1) * BSIZE - len == 16 * m
  {
    assert n == 64 * (n / 64) + n % 64;
    assert len / BSIZE == n / 64;
  }

  lemma {:induction false} WholeIs(f: seq<Byte>, n: nat, m: nat)
    requires |f| == 16 * n && m == 64 - n % 64
    ensures Mkfs.WholeBlocks(f) == f + Mkfs.Zeroes(16 * m)
  {
    SpareBytes(|f|, n, m);
  }

  lemma {:induction false} RootDecoded(files: seq<Mkfs.Input>, k: nat)
    requires k == |files| <= Mkfs.NINODES - 2 && Named(files)
    ensures Slots(Mkfs.WholeBlocks(Mkfs.Entries(Mkfs.RootEntries(), files, k))) ==
            Links.RootSlots(NamesOf(files), k) + Links.NoEntries(Spare(k))
  {
    var f := Mkfs.Entries(Mkfs.RootEntries(), files, k);
    RootReads();
    EntriesRead(Mkfs.RootEntries(), files, k);
    WholeIs(f, k + 3, Spare(k));
    SlotsPadded(f, Spare(k));
  }

  // ------------------------------------------------------------------- booting

  /** An inode of the image as link counting sees it. */
  function NodeOf(d: Disk, ino: Inode): Links.Node
    requires ino.size <= MAXBYTES
  {
    Links.Node(if ino.itype == 0 then Free else if ino.itype == Mkfs.T_DIR then Dir else Other,
               Links.Short(ino.nlink), if ino.itype == Mkfs.T_DIR then Slots(File(d, ino)) else [], None)
  }

  /** The machine of Links starts in the state of the image. */
  lemma {:induction false} StartsLinks(image: Mkfs.Image, files: seq<Mkfs.Input>, nproc: nat, i: nat)
    requires image.Complete(Mkfs.RootEntries(), files) && Named(files) && i < Mkfs.NINODES
    ensures NodeOf(image.disk, image.inodes[i]) ==
            Links.Start(NamesOf(files), Spare(|files|), Mkfs.NINODES, nproc).nodes[i]
  {
    StartNode(NamesOf(files), Spare(|files|), Mkfs.NINODES, nproc, i);
    ImageNode(image, files, i);
  }

  lemma {:induction false} StartNode(names: seq<string>, spare: nat, ninodes: nat, nproc: nat, i: nat)
    requires i < ninodes
    ensures Links.Start(names, spare, ninodes, nproc).nodes[i] == StartOf(names, spare, i)
  {
  }

  /** What link counting starts from at inode i. */
  function StartOf(names: seq<string>, spare: nat, i: nat): Links.Node {
    if i == Links.ROOT then
      Links.Node(Dir, 1, Links.RootSlots(names, |names|) + Links.NoEntries(spare), None)
    else if 2 <= i < |names| + 2 then Links.Node(Other, 1, [], None) else Links.Node(Free, 0, [], None)
  }

  lemma {:induction false} ImageNode(image: Mkfs.Image, files: seq<Mkfs.Input>, i: nat)
    requires image.Complete(Mkfs.RootEntries(), files) && Named(files) && i < Mkfs.NINODES
    ensures NodeOf(image.disk, image.inodes[i]) == StartOf(NamesOf(files), Spare(|files|), i)
  {
    if i == 1 {
      RootNode(image.disk, image.inodes[i], files);
    } else if 2 <= i < |files| + 2 {
      assert Mkfs.HoldsFile(image.disk, image.inodes, (i - 2) + 2, files[i - 2].contents);
    } else {
      assert image.inodes[i] == Mkfs.ZeroInode();
    }
  }

  lemma {:induction false} RootNode(d: Disk, ino: Inode, files: seq<Mkfs.Input>)
    requires |files| <= Mkfs.NINODES - 2 && Named(files) && Mkfs.IsRoot(ino) && ino.size <= MAXBYTES
    requires File(d, ino) == Mkfs.WholeBlocks(Mkfs.Entries(Mkfs.RootEntries(), files, |files|))
    ensures NodeOf(d, ino) ==
            Links.Node(Dir, 1, Links.RootSlots(NamesOf(files), |files|) + Links.NoEntries(Spare(|files|)), None)
  {
    RootDecoded(files, |files|);
  }

  /** The log of the image is empty. */
  lemma {:induction false} LogEmpty(image: Mkfs.Image, files: seq<Mkfs.Input>)
    requires image.Complete(Mkfs.RootEntries(), files)
    ensures Log.HeaderOk(image.disk, Mkfs.LOGSTART, Mkfs.NLOG) && Log.Entries(image.disk[Mkfs.LOGSTART]) == []
    ensures Mkfs.LOGSTART + Mkfs.NLOG <= Mkfs.Sb().inodestart
  {
    ZeroWord(0);
  }

  /** The image is a file system by itself, as crash safety needs it, exactly when the
      entries of its root do not end at a block boundary. */
  lemma {:induction false} ImageSound(image: Mkfs.Image, files: seq<Mkfs.Input>)
    requires image.Complete(Mkfs.RootEntries(), files)
    ensures OnDisk(Mkfs.Sb(), image.disk) && Dinodes(Mkfs.Sb(), image.disk) == image.inodes
    ensures Crash.Sound(Mkfs.Sb(), image.disk, image.owner) <==> (|files| + 3) % 64 != 0
  {
    forall j | 0 <= j < Mkfs.NINODES
      ensures DinodeOf(Mkfs.Sb(), image.disk, j) == image.inodes[j]
    {
      assert Mkfs.OnDiskInode(image.disk, j) == image.inodes[j];
    }
    assert Dinodes(Mkfs.Sb(), image.disk) == image.inodes;
  }
}

/** The physical page allocator and the virtual memory operations (kalloc.c, vm.c). */
module Vm {
  import opened Common
  import opened Pages

  const NPHYS := 0xE000              // PHYSTOP / PGSIZE
  const KERNBASE := 0x8000_0000
  const JUNK := 0x0101_0101          // memset(v, 1, PGSIZE)

  /** P2V of a page: the pointer stored in the free list. */
  function Ptr(p: nat): nat { KERNBASE + 4096 * p }

  function JunkPage(next: nat): Page { seq(NENT, i => if i == 0 then next else JUNK) }

  /** The number of pages that cover n bytes: PGROUNDUP(n) / PGSIZE. */
  function Up(n: nat): (r: nat)
    ensures forall v: nat :: 4096 * v < n <==> v < r
  {
    (n + 4095) / 4096
  }

  // ------------------------------------------------------------ the free list

  /** Where entry i of the list points. */
  predicate LinkAt(mem: Mem, free: seq<nat>, i: nat)
    requires i < |free|
  {
    free[i] < |mem| && mem[free[i]][0] == if i + 1 < |free| then Ptr(free[i + 1]) else 0
  }

  predicate Linked(mem: Mem, head: nat, free: seq<nat>) {
    && head == (if free == [] then 0 else Ptr(free[0]))
    && forall i :: 0 <= i < |free| ==> LinkAt(mem, free, i)
  }

  predicate Distinct(free: seq<nat>) { forall i, j :: 0 <= i < j < |free| ==> free[i] != free[j] }

  lemma {:induction false} LinkedTail(mem: Mem, free: seq<nat>)
    requires free != [] && Linked(mem, Ptr(free[0]), free)
    ensures free[0] < |mem| && Linked(mem, mem[free[0]][0], free[1..])
  {
    assert LinkAt(mem, free, 0);
    forall i | 0 <= i < |free[1..]|
      ensures LinkAt(mem, free[1..], i)
    {
      assert LinkAt(mem, free, i + 1);
    }
  }

  lemma {:induction false} LinkedPush(mem: Mem, head: nat, free: seq<nat>, p: nat)
    requires Linked(mem, head, free) && p !in free && p < |mem|
    ensures Linked(mem[p := JunkPage(head)], Ptr(p), [p] + free)
  {
    var mem', free' := mem[p := JunkPage(head)], [p] + free;
    forall i | 0 <= i < |free'|
      ensures LinkAt(mem', free', i)
    {
      if i > 0 {
        assert LinkAt(mem, free, i - 1);
        assert free[i - 1] in free;
      }
    }
  }

  /** Memory that is the same on the listed pages has the same list. */
  lemma {:induction false} LinkedFrame(mem: Mem, mem': Mem, head: nat, free: seq<nat>)
    requires Linked(mem, head, free) && |mem'| == |mem| && forall p :: p in free && p < |mem| ==> mem'[p] == mem[p]
    ensures Linked(mem', head, free)
  {
    forall i | 0 <= i < |free|
      ensures LinkAt(mem', free, i)
    {
      assert LinkAt(mem, free, i);
      assert free[i] in free;
    }
  }

  /** The list holds the free pages and no others. */
  ghost predicate Exactly(owner: seq<Owner>, free: seq<nat>) {
    forall p: nat :: p in free <==> p < |owner| && owner[p] == Free
  }

  lemma {:induction false} ExactlyTail(owner: seq<Owner>, free: seq<nat>)
    requires free != [] && Exactly(owner, free) && Distinct(free)
    ensures free[0] < |owner| && Exactly(owner[free[0] := Held], free[1..]) && Distinct(free[1..])
  {
    assert free[0] in free;
    forall p: nat
      ensures p in free[1..] <==> p < |owner| && owner[free[0] := Held][p] == Free
    {
      assert p in free <==> p == free[0] || p in free[1..];
      assert free[0] !in free[1..];
    }
  }

  /** The directory entries of d that have a page table. */
  function Tables(mem: Mem, d: nat): set<nat>
    requires d < |mem|
  {
    set x: nat | x < NENT && Present(mem[d][x])
  }

  lemma {:induction false} Fewer(a: set<nat>, b: set<nat>, x: nat)
    requires a <= b && x in b && x !in a
    ensures |a| < |b|
  {
    SubsetSize(a, b - {x});
  }

  lemma {:induction false} OneMore(a: set<nat>, b: set<nat>, x: nat)
    requires forall y :: y in a && y !in b ==> y == x
    ensures |a| <= |b| + 1 && (x !in a ==> |a| <= |b|)
  {
    SubsetSize(a, b + {x});
    if x !in a {
      SubsetSize(a, b);
    }
  }

  // -------------------------------------------------------------- page owners

  /** Who may have changed hands when tables were added to d. */
  predicate Grown(was: seq<Owner>, now: seq<Owner>, d: nat) {
    |now| == |was| && forall p :: 0 <= p < |was| ==>
        now[p] == was[p] || (was[p] == Free && now[p].Table? && now[p].dir == d)
  }

  /** The frames of pages [lo, hi) of d are free again. */
  function Released(owner: seq<Owner>, d: nat, lo: nat, hi: nat): (r: seq<Owner>)
    ensures |r| == |owner|
    ensures forall p :: 0 <= p < |owner| ==> r[p] == if InRange(owner[p], d, lo, hi) then Free else owner[p]
  {
    seq(|owner|, p requires 0 <= p < |owner| => if InRange(owner[p], d, lo, hi) then Free else owner[p])
  }

  predicate InRange(o: Owner, d: nat, lo: nat, hi: nat) { o.Frame? && o.dir == d && lo <= o.v < hi }

  /** Frames, held pages and kernel pages that stay with their owner keep their bytes. */
  predicate Untouched(mem: Mem, was: seq<Owner>, mem': Mem, now: seq<Owner>)
    requires |mem| == |was| == |mem'| == |now|
  {
    forall p :: 0 <= p < |mem| && now[p] == was[p] && (was[p].Frame? || was[p].Held? || was[p].Kernel?) ==>
      mem'[p] == mem[p]
  }

  lemma {:induction false} MapsTrans(m0: Mem, o0: seq<Owner>, m1: Mem, o1: seq<Owner>, m2: Mem, d: nat, lo: nat,
        mid: nat, hi: nat)
    requires |m0| == |m1| == |m2| == |o0| == |o1| && lo <= mid <= hi
    requires SameMaps(m0, m1, o0, d, lo, mid) && SameMaps(m1, m2, o1, d, mid, hi)
    requires forall e :: 0 <= e < |o0| && o0[e] == Dir ==> o1[e] == Dir
    ensures SameMaps(m0, m2, o0, d, lo, hi)
  {
    forall e, u | 0 <= e < |m0| && o0[e] == Dir && 0 <= u < NVIRT && !(e == d && lo <= u < hi)
      ensures Pte(m2, e, u) == Pte(m0, e, u)
    {
      assert Pte(m1, e, u) == Pte(m0, e, u);
    }
  }

  lemma {:induction false} OthersTrans(m0: Mem, o0: seq<Owner>, m1: Mem, o1: seq<Owner>, m2: Mem, d: nat)
    requires |m0| == |m1| == |m2| == |o0| == |o1|
    requires SameMaps(m0, m1, o0, d, 0, NVIRT) && SameMaps(m1, m2, o1, d, 0, NVIRT)
    requires forall e :: 0 <= e < |o0| && e != d && o0[e] == Dir ==> o1[e] == Dir
    ensures SameMaps(m0, m2, o0, d, 0, NVIRT)
  {
    forall e, u | 0 <= e < |m0| && o0[e] == Dir && 0 <= u < NVIRT && e != d
      ensures Pte(m2, e, u) == Pte(m0, e, u)
    {
      assert Pte(m1, e, u) == Pte(m0, e, u);
    }
  }

  lemma {:induction false} UntouchedTrans(m0: Mem, o0: seq<Owner>, m1: Mem, o1: seq<Owner>, m2: Mem, o2: seq<Owner>)
    requires |m0| == |m1| == |m2| == |o0| == |o1| == |o2|
    requires Untouched(m0, o0, m1, o1) && Untouched(m1, o1, m2, o2)
    requires forall p :: 0 <= p < |o0| && o2[p] == o0[p] && !Structural(o0[p]) && !o0[p].Free? ==> o1[p] == o0[p]
    ensures Untouched(m0, o0, m2, o2)
  {
  }

  lemma {:induction false} ReleasedMore(owner: seq<Owner>, d: nat, lo: nat, mid: nat, hi: nat)
    requires lo <= mid <= hi
    ensures Released(Released(owner, d, lo, mid), d, mid, hi) == Released(owner, d, lo, hi)
  {
  }

  /** An unmapped page has no frame to release. */
  lemma {:induction false} NothingToRelease(mem: Mem, owner: seq<Owner>, d: nat, lo: nat, hi: nat)
    requires Inv(mem, owner) && d < |mem| && hi <= USER && forall v :: lo <= v < hi ==> !Mapped(mem, d, v)
    ensures Released(owner, d, lo, hi) == owner
  {
    forall p | 0 <= p < |owner|
      ensures !InRange(owner[p], d, lo, hi)
    {
      assert OwnerOk(mem, owner, p);
    }
  }

  /** freevm after freeing the tables of the first i directory entries. */
  function Torn(owner: seq<Owner>, d: nat, i: nat): (r: seq<Owner>)
    ensures |r| == |owner|
    ensures forall p :: 0 <= p < |owner| ==>
              r[p] == if owner[p].Table? && owner[p].dir == d then (if owner[p].x < i then Free else Held)
                      else if p == d then Held else owner[p]
  {
    seq(|owner|, p requires 0 <= p < |owner| =>
      if owner[p].Table? && owner[p].dir == d then (if owner[p].x < i then Free else Held)
      else if p == d then Held else owner[p])
  }

  lemma {:induction false} TornStart(owner: seq<Owner>, d: nat)
    requires forall p :: 0 <= p < |owner| ==> !InRange(owner[p], d, 0, USER)
    requires forall p :: 0 <= p < |owner| && owner[p].Frame? ==> owner[p].v < USER
    ensures Torn(owner, d, 0) == Reassign(owner, d, Held)
  {
  }

  /** One more directory entry: its table, if any, becomes free. */
  lemma {:induction false} TornStep(mem: Mem, owner: seq<Owner>, d: nat, i: nat)
    requires Inv(mem, owner) && d < |mem| && owner[d] == Dir && i < NENT
    ensures !Present(mem[d][i]) ==> Torn(owner, d, i + 1) == Torn(owner, d, i)
    ensures Present(mem[d][i]) ==> && Addr(mem[d][i]) < |mem| && owner[Addr(mem[d][i])] == Table(d, i)
                                   && Torn(owner, d, i + 1) == Torn(owner, d, i)[Addr(mem[d][i]) := Free]
  {
    assert OwnerOk(mem, owner, d) && TableSlot(mem, owner, d, i);
    forall p | 0 <= p < |owner| && owner[p] == Table(d, i)
      ensures Present(mem[d][i]) && Addr(mem[d][i]) == p
    {
      assert OwnerOk(mem, owner, p);
    }
  }

  lemma {:induction false} TornEnd(was: seq<Owner>, mem: Mem, owner: seq<Owner>, d: nat)
    requires d < |was| && was[d] == Dir && owner == Released(was, d, 0, USER) && Inv(mem, owner)
    requires forall p :: 0 <= p < |was| && was[p].Frame? ==> was[p].v < USER
    ensures Torn(owner, d, NENT)[d := Free] == Reassign(was, d, Free)
  {
    var r := Torn(owner, d, NENT)[d := Free];
    forall p | 0 <= p < |was|
      ensures r[p] == Reassign(was, d, Free)[p]
    {
      assert OwnerOk(mem, owner, p);
    }
  }

  lemma {:induction false} FramesBelow(mem: Mem, owner: seq<Owner>)
    requires Inv(mem, owner)
    ensures forall p :: 0 <= p < |owner| && owner[p].Frame? ==> owner[p].v < USER
  {
    forall p | 0 <= p < |owner| && owner[p].Frame?
      ensures owner[p].v < USER
    {
      assert OwnerOk(mem, owner, p);
    }
  }

  // ------------------------------------------------------- the kernel's mappings

  const EXTMEM := 0x10_0000
  const PHYSTOP := 0xE00_0000
  const DEVSPACE := 0xFE00_0000

  datatype Kmap = Kmap(virt: nat, physStart: nat, physEnd: nat, perm: nat)

  /** kmap[i]; kdata is the virtual page of the linker's symbol data. */
  function KmapAt(i: nat, kdata: nat): Kmap
    requires i < 4 && USER < kdata
  {
    if i == 0 then Kmap(KERNBASE, 0, EXTMEM, PTE_W)
    else if i == 1 then Kmap(KERNBASE + EXTMEM, EXTMEM, 4096 * (kdata - USER), 0)
    else if i == 2 then Kmap(4096 * kdata, 4096 * (kdata - USER), PHYSTOP, PTE_W)
    else Kmap(DEVSPACE, DEVSPACE, 0, PTE_W)
  }

  /** phys_end - phys_start as a 32-bit unsigned. */
  function KmapSize(k: Kmap): nat { (k.physEnd - k.physStart) % 0x1_0000_0000 }

  predicate DataOk(kdata: nat) { USER + 256 < kdata < USER + NPHYS }

  /** Pages [First(i), First(i) + Count(i)) are mapped by kmap[i]. */
  function First(i: nat, kdata: nat): nat {
    if i == 0 then USER else if i == 1 then USER + 256 else if i == 2 then kdata else if i == 3 then USER + NPHYS
      else 0xFE000
  }

  /** The flat map after the first n kmap entries. */
  function KernelPte(n: nat, kdata: nat, v: nat): nat {
    if USER <= v < First(if n <= 3 then n else 3, kdata)
      then Entry(v - USER, if USER + 256 <= v < kdata then 0 else PTE_W)
    else if n == 4 && 0xFE000 <= v < NVIRT then Entry(v, PTE_W)
    else 0
  }

  // The pages of one entry of kmap, and the frame of the first.

  function KmapFirst(i: nat, kdata: nat): nat { if i == 3 then 0xFE000 else First(i, kdata) }

  function KmapEnd(i: nat, kdata: nat): nat { if i == 3 then NVIRT else First(i + 1, kdata) }

  function KmapFrame(i: nat, kdata: nat): int { if i == 3 then 0xFE000 else First(i, kdata) - USER }

  /** The byte ranges of kmap in pages, with the last size wrapping at 2^32. */
  lemma {:induction false} KmapPages(i: nat, kdata: nat)
    requires i < 4 && DataOk(kdata)
    ensures var k, lo, hi := KmapAt(i, kdata), KmapFirst(i, kdata), KmapEnd(i, kdata);
            && 0 < KmapSize(k) && k.virt + KmapSize(k) <= 4096 * NVIRT
            && k.virt / 4096 == lo && (k.virt + KmapSize(k) - 1) / 4096 == hi - 1 && lo >= USER
            && k.physStart / 4096 == KmapFrame(i, kdata)
  {
  }

  lemma {:induction false} KernelStep(i: nat, kdata: nat, v: nat)
    requires i < 4 && DataOk(kdata) && v < NVIRT
    ensures var lo, hi := KmapFirst(i, kdata), KmapEnd(i, kdata);
            if lo <= v < hi then KernelPte(i, kdata, v) == 0 &&
                                 KernelPte(i + 1, kdata, v) ==
                                   Entry(KmapFrame(i, kdata) + v - lo, KmapAt(i, kdata).perm)
            else KernelPte(i + 1, kdata, v) == KernelPte(i, kdata, v)
  {
  }

  /** The directory entries the kernel's mappings need. */
  predicate KernelEntry(x: nat) { 512 <= x < 568 || 1016 <= x < 1024 }

  function KernelTables(): set<nat> { set x: nat | x < NENT && KernelEntry(x) }

  lemma {:induction false} IntervalSize(s: set<nat>, lo: nat, hi: nat)
    requires lo <= hi && forall x :: x in s <==> lo <= x < hi
    ensures |s| == hi - lo
    decreases hi - lo
  {
    if lo < hi {
      IntervalSize(s - {lo}, lo + 1, hi);
    } else {
      assert s == {};
    }
  }

  lemma {:induction false} KernelTablesSize()
    ensures |KernelTables()| == 64
  {
    var s := KernelTables();
    var a, b := set x | x in s && x < 1000, set x | x in s && x >= 1000;
    IntervalSize(a, 512, 568);
    IntervalSize(b, 1016, 1024);
    assert s == a + b && a !! b;
  }

  /** All the kernel's mappings are in place, so all its tables are. */
  lemma {:induction false} KernelTablesThere(mem: Mem, d: nat, kdata: nat)
    requires d < |mem| && DataOk(kdata) && Tables(mem, d) <= KernelTables()
    requires forall v :: 0 <= v < NVIRT ==> Pte(mem, d, v) == KernelPte(4, kdata, v)
    ensures Tables(mem, d) == KernelTables()
  {
    forall x: nat | x in KernelTables()
      ensures x in Tables(mem, d)
    {
      var v := NENT * x;
      assert X(v) == x;
      assert Pte(mem, d, v) == KernelPte(4, kdata, v);
      assert Present(KernelPte(4, kdata, v));
    }
  }

  /** The tables a round of setupkvm adds, or lacks, are the kernel's. */
  lemma {:induction false} KernelRound(i: nat, kdata: nat, was: set<nat>, now: set<nat>, v: nat)
    requires i < 4 && DataOk(kdata) && was <= KernelTables()
    requires var lo, hi := if i == 3 then 0xFE000 else First(i, kdata), if i == 3 then NVIRT else First(i + 1, kdata);
             lo <= v < hi && forall x :: x in now && x !in was ==> X(lo) <= x <= X(hi - 1)
    ensures now <= KernelTables() && X(v) in KernelTables()
    ensures X(v) !in now ==> |now| < 64
  {
    KernelTablesSize();
    assert KernelEntry(X(v));
    forall x | x in now
      ensures x in KernelTables()
    {
      assert KernelEntry(x) || x in was;
    }
    if X(v) !in now {
      Fewer(now, KernelTables(), X(v));
    }
  }

  /** A page that is no directory has no parts. */
  lemma {:induction false} NoParts(mem: Mem, owner: seq<Owner>, d: nat)
    requires Inv(mem, owner) && d < |owner| && owner[d] != Dir
    ensures forall p :: 0 <= p < |owner| ==> !PartOf(owner[p], d)
  {
    forall p | 0 <= p < |owner|
      ensures !PartOf(owner[p], d)
    {
      assert OwnerOk(mem, owner, p);
    }
  }

  /** Undoing a directory that only ever grew gives everything back. */
  lemma {:induction false} Undone(was: seq<Owner>, now: seq<Owner>, d: nat)
    requires d < |was| && was[d] == Free && Grown(was[d := Dir], now, d) && forall p :: 0 <= p < |was| ==>
             !PartOf(was[p], d)
    ensures Reassign(now, d, Free) == was
  {
  }

  // ---------------------------------------------------------------- growing

  /** Free pages have become tables of d, or frames of its pages [lo, hi). */
  predicate GrownBy(was: seq<Owner>, now: seq<Owner>, d: nat, lo: nat, hi: nat) {
    && |now| == |was|
    && forall p :: 0 <= p < |was| ==>
         now[p] == was[p] || (was[p] == Free && ((now[p].Table? && now[p].dir == d) || InRange(now[p], d, lo, hi)))
  }

  lemma {:induction false} GrownTrans(o0: seq<Owner>, o1: seq<Owner>, o2: seq<Owner>, d: nat, lo: nat, mid: nat,
        hi: nat)
    requires GrownBy(o0, o1, d, lo, mid) && GrownBy(o1, o2, d, mid, hi) && lo <= mid <= hi
    ensures GrownBy(o0, o2, d, lo, hi)
  {
  }

  /** Releasing what was grown leaves the new tables only. */
  lemma {:induction false} GrownReleased(o0: seq<Owner>, o1: seq<Owner>, d: nat, lo: nat, mid: nat, hi: nat)
    requires GrownBy(o0, o1, d, lo, mid) && mid <= hi && forall p :: 0 <= p < |o0| ==> !InRange(o0[p], d, lo, hi)
    ensures Grown(o0, Released(o1, d, lo, hi), d)
  {
  }

  lemma {:induction false} UndoneBy(was: seq<Owner>, now: seq<Owner>, c: nat, hi: nat)
    requires c < |was| && was[c] == Free && GrownBy(was[c := Dir], now, c, 0, hi)
    requires forall p :: 0 <= p < |was| ==> !PartOf(was[p], c)
    ensures Reassign(now, c, Free) == was
  {
  }

  datatype Copied = Child(dir: nat) | Failed | Panicked

  /** Page v of c in m is a copy of page v of d in m0: same flags, same bytes. */
  predicate CopyOf(m: Mem, c: nat, m0: Mem, d: nat, v: nat)
    requires c < |m| && d < |m0| && v < USER
  {
    && Mapped(m0, d, v) && Mapped(m, c, v) && Flags(Pte(m, c, v)) == Flags(Pte(m0, d, v))
    && Addr(Pte(m0, d, v)) < |m0| && Addr(Pte(m, c, v)) < |m|
    && m[Addr(Pte(m, c, v))] == m0[Addr(Pte(m0, d, v))]
  }

  lemma {:induction false} CopiesStay(m0: Mem, m1: Mem, o1: seq<Owner>, m2: Mem, o2: seq<Owner>, c: nat, d: nat,
        hi: nat)
    requires |m0| == |m1| == |m2| == |o1| == |o2| && c < |m1| && d < |m0| && hi <= USER && Inv(m1, o1) && o1[c] == Dir
    requires Untouched(m1, o1, m2, o2) && (forall p :: 0 <= p < |o1| && o1[p].Frame? ==> o2[p] == o1[p])
    requires forall u :: 0 <= u < hi ==> Pte(m2, c, u) == Pte(m1, c, u)
    requires forall u :: 0 <= u < hi ==> CopyOf(m1, c, m0, d, u)
    ensures forall u :: 0 <= u < hi ==> CopyOf(m2, c, m0, d, u)
  {
    forall u | 0 <= u < hi
      ensures CopyOf(m2, c, m0, d, u)
    {
      assert CopyOf(m1, c, m0, d, u);
      assert OwnerOk(m1, o1, c) && FrameSlot(m1, o1, c, u);
    }
  }

  lemma {:induction false} CopiesMore(m0: Mem, m1: Mem, o1: seq<Owner>, m2: Mem, o2: seq<Owner>, c: nat, d: nat,
        kdata: nat, v: nat, page: nat)
    requires |m0| == |m1| == |m2| == |o1| == |o2| && c < |m1| && d < |m0| && v < USER && Inv(m1, o1) && o1[c] == Dir
    requires Untouched(m1, o1, m2, o2) && (forall p :: 0 <= p < |o1| && o1[p].Frame? ==> o2[p] == o1[p])
    requires SameMaps(m1, m2, o1, c, v, v + 1)
    requires forall u :: 0 <= u < v ==> CopyOf(m1, c, m0, d, u)
    requires forall u :: v <= u < NVIRT ==> Pte(m1, c, u) == KernelPte(4, kdata, u)
    requires Mapped(m0, d, v) && Addr(Pte(m0, d, v)) < |m0| && page < |m2| && m2[page] == m0[Addr(Pte(m0, d, v))]
    requires Pte(m2, c, v) == Entry(page, Flags(Pte(m0, d, v)))
    ensures forall u :: 0 <= u < v + 1 ==> CopyOf(m2, c, m0, d, u)
    ensures forall u :: v + 1 <= u < NVIRT ==> Pte(m2, c, u) == KernelPte(4, kdata, u)
  {
    forall u | 0 <= u < v
      ensures Pte(m2, c, u) == Pte(m1, c, u)
    {
    }
    CopiesStay(m0, m1, o1, m2, o2, c, d, v);
    assert CopyOf(m2, c, m0, d, v);
  }

  // ------------------------------------------------------------- deallocation

  /** What deallocuvm leaves at v. */
  function Cleared(e: nat): nat { if Present(e) then 0 else e }

  lemma {:induction false} RangeMore(m0: Mem, m1: Mem, o1: seq<Owner>, m2: Mem, d: nat, start: nat, a: nat, page: nat,
        perm: nat)
    requires |m0| == |m1| == |m2| == |o1| && d < |m0| && start <= a < NVIRT && perm < 4096 && o1[d] == Dir
    requires forall v :: start <= v < a ==> !Mapped(m0, d, v) && Pte(m1, d, v) == Entry(page + v - start, perm)
    requires SameMaps(m1, m2, o1, d, a, a + 1) && !Mapped(m0, d, a) && Pte(m2, d, a) == Entry(page + a - start, perm)
    ensures forall v :: start <= v < a + 1 ==> !Mapped(m0, d, v) && Pte(m2, d, v) == Entry(page + v - start, perm)
  {
    forall v | start <= v < a
      ensures Pte(m2, d, v) == Entry(page + v - start, perm)
    {
      assert Pte(m2, d, v) == Pte(m1, d, v);
    }
  }

  datatype Outcome = Done | NoMemory | Remap

  /** What mapping page a of d to the given page does to ownership: tables may be
      added, and below KERNBASE a held page becomes the frame. */
  predicate Handed(was: seq<Owner>, now: seq<Owner>, d: nat, a: nat, page: nat) {
    && |now| == |was|
    && (forall p :: 0 <= p < |was| && !(a < USER && p == page) ==>
                      now[p] == was[p] || (was[p] == Free && now[p].Table? && now[p].dir == d))
    && (a < USER ==> page < |now| && now[page] == Frame(d, a))
  }

  /** walkpgdir may have added a table to m0, o0; then the entry is stored. */
  lemma {:induction false} PageMapped(m0: Mem, o0: seq<Owner>, m1: Mem, o1: seq<Owner>, m2: Mem, o2: seq<Owner>,
        d: nat, a: nat, page: nat)
    requires |m0| == |m1| == |m2| == |o0| == |o1| == |o2|
    requires Grown(o0, o1, d) && SameMaps(m0, m1, o0, d, 0, 0) && Untouched(m0, o0, m1, o1)
    requires SameMaps(m1, m2, o1, d, a, a + 1) && Untouched(m1, o1, m2, o2)
    requires a < USER ==> page < |o0| && o0[page] == Held && m2[page] == m1[page]
    requires o2 == if a < USER then o1[page := Frame(d, a)] else o1
    ensures Untouched(m0, o0, m2, o2) && SameMaps(m0, m2, o0, d, a, a + 1)
    ensures Handed(o0, o2, d, a, page) && (a < USER ==> m2[page] == m0[page])
  {
    forall e, u | 0 <= e < |m0| && o0[e] == Dir && 0 <= u < NVIRT && !(e == d && a <= u < a + 1)
      ensures Pte(m2, e, u) == Pte(m0, e, u)
    {
      assert Pte(m1, e, u) == Pte(m0, e, u);
    }
  }

  class Machine {
    const first: nat            // PGROUNDUP(end) / PGSIZE
    var mem: Mem
    var freelist: nat
    ghost var owner: seq<Owner>
    ghost var free: seq<nat>

    /** The free list holds exactly the free pages, each once. */
    ghost predicate ListOk()
      reads this
    {
      && |mem| == |owner| == NPHYS && 0 < first <= NPHYS
      && Linked(mem, freelist, free) && Distinct(free)
      && Exactly(owner, free)
      && (forall p :: 0 <= p < |owner| ==> (owner[p] == Kernel <==> p < first))
    }

    ghost predicate Valid()
      reads this
    {
      ListOk() && Inv(mem, owner)
    }

    /** Besides n others, every page that has left the free list since m0 and f0 is a
        page table of d. */
    ghost predicate Spent(m0: Mem, f0: seq<nat>, d: nat, n: nat)
      reads this
    {
      d < |m0| == |mem| && |free| + |Tables(mem, d)| + n == |f0| + |Tables(m0, d)|
    }

    ghost predicate IsDir(d: nat)
      reads this
    {
      d < |owner| && owner[d] == Dir
    }

    /** kfree; a page the kernel owns or that does not exist is refused. */
    method Kfree(p: nat) returns (panic: bool)
      requires ListOk() && (first <= p < NPHYS ==> owner[p] != Free)
      modifies this
      ensures ListOk()
      ensures panic <==> !(first <= p < NPHYS)
      ensures panic ==> mem == old(mem) && owner == old(owner) && free == old(free)
      ensures !panic ==> && mem == old(mem)[p := JunkPage(old(freelist))]
                         && owner == old(owner)[p := Free] && free == [p] + old(free)
    {
      if p < first || p >= NPHYS {
        return true;
      }
      LinkedPush(mem, freelist, free, p);
      mem := mem[p := JunkPage(freelist)];
      freelist := Ptr(p);
      owner := owner[p := Free];
      free := [p] + free;
      return false;
    }

    /** kalloc: the most recently freed page, or 0. */
    method Kalloc() returns (p: nat)
      requires Valid()
      modifies this
      ensures Valid() && mem == old(mem)
      ensures p == 0 <==> old(free) == []
      ensures p == 0 ==> owner == old(owner) && free == old(free)
      ensures p != 0 ==> && p == old(free)[0] && first <= p < NPHYS && free == old(free)[1..]
                         && old(owner)[p] == Free && owner == old(owner)[p := Held]
    {
      if freelist == 0 {
        return 0;
      }
      p := (freelist - KERNBASE) / 4096;
      assert p == free[0];
      assert free[0] in free;
      LinkedTail(mem, free);
      ExactlyTail(owner, free);
      freelist := mem[p][0];
      ghost var was := owner;
      owner := owner[p := Held];
      free := free[1..];
      LooseKeeps(mem, was, mem, owner);
    }

    /** Boot: every page from end to PHYSTOP belongs to the kernel's start-up code. */
    constructor (end: nat, contents: Mem)
      requires 0 < Up(end) <= NPHYS && |contents| == NPHYS
      ensures Valid() && first == Up(end) && mem == contents && free == []
      ensures forall p :: 0 <= p < NPHYS ==> owner[p] == if p < Up(end) then Kernel else Held
    {
      first, mem, freelist := Up(end), contents, 0;
      var n := Up(end);
      owner := seq(NPHYS, p => if p < n then Kernel else Held);
      free := [];
    }

    /** freerange: every whole page of [vstart, vend) is freed, once. */
    method Freerange(vstart: nat, vend: nat)
      requires Valid() && first <= Up(vstart) && vend <= 4096 * NPHYS
      requires forall p :: Up(vstart) <= p && 4096 * (p + 1) <= vend ==> owner[p] == Held
      modifies this
      ensures Valid()
      ensures forall p :: 0 <= p < NPHYS ==>
                owner[p] == if Up(vstart) <= p && 4096 * (p + 1) <= vend then Free else old(owner)[p]
      ensures |free| == |old(free)| + if Up(vstart) <= vend / 4096 then vend / 4096 - Up(vstart) else 0
    {
      var p := Up(vstart);
      while 4096 * (p + 1) <= vend
        invariant Up(vstart) <= p && (p > Up(vstart) ==> 4096 * p <= vend) && Valid()
        invariant forall q :: 0 <= q < NPHYS ==> owner[q] == if Up(vstart) <= q < p then Free else old(owner)[q]
        invariant |free| == |old(free)| + p - Up(vstart)
      {
        ghost var mem0, owner0 := mem, owner;
        var panic := Kfree(p);
        LooseKeeps(mem0, owner0, mem, owner);
        p := p + 1;
      }
    }

    /** walkpgdir: the page table for virtual page v of d, made if alloc; 0 if there is
        none.  The flat map never changes. */
    method Walkpgdir(d: nat, v: nat, alloc: bool) returns (t: nat)
      requires Valid() && IsDir(d) && v < NVIRT
      modifies this
      ensures Valid() && IsDir(d) && Grown(old(owner), owner, d) && SameMaps(old(mem), mem, old(owner), d, 0, 0)
      ensures Untouched(old(mem), old(owner), mem, owner)
      ensures t != 0 <==> old(HasTable(mem, d, X(v))) || (alloc && old(free) != [])
      ensures t != 0 ==> HasTable(mem, d, X(v)) && t == Addr(mem[d][X(v)])
      ensures t == 0 || old(HasTable(mem, d, X(v))) ==> mem == old(mem) && owner == old(owner)
      ensures !alloc ==> free == old(free)
      ensures Spent(old(mem), old(free), d, 0) && Tables(mem, d) <= old(Tables(mem, d)) + {X(v)}
    {
      assert OwnerOk(mem, owner, d) && TableSlot(mem, owner, d, X(v));
      if Present(mem[d][X(v)]) {
        return Addr(mem[d][X(v)]);
      }
      if !alloc {
        return 0;
      }
      t := NewTable(d, X(v));
    }

    /** kalloc, memset and the directory entry. */
    method NewTable(d: nat, x: nat) returns (t: nat)
      requires Valid() && IsDir(d) && x < NENT && !Present(mem[d][x])
      modifies this
      ensures Valid() && IsDir(d) && Grown(old(owner), owner, d) && SameMaps(old(mem), mem, old(owner), d, 0, 0)
      ensures Untouched(old(mem), old(owner), mem, owner)
      ensures t != 0 <==> old(free) != []
      ensures t != 0 ==> HasTable(mem, d, x) && t == Addr(mem[d][x])
      ensures t == 0 ==> mem == old(mem) && owner == old(owner)
      ensures Spent(old(mem), old(free), d, 0) && Tables(mem, d) <= old(Tables(mem, d)) + {x}
    {
      t := Kalloc();
      if t == 0 {
        return;
      }
      ghost var mem1, owner1 := mem, owner;
      mem := mem[t := ZeroPage()];
      LooseKeeps(mem1, owner1, mem, owner);
      AddTableKeeps(mem, owner, d, x, t);
      mem := WithTable(mem, d, x, t);
      owner := owner[t := Table(d, x)];
      LinkedFrame(mem1, mem, freelist, free);
      assert Tables(mem, d) == Tables(mem1, d) + {x};
    }

    /** One round of mappages: *pte = pa | perm | PTE_P. */
    method MapPage(d: nat, a: nat, page: nat, perm: nat) returns (r: Outcome)
      requires Valid() && IsDir(d) && a < NVIRT && perm < 4096 && (a < USER ==> page < NPHYS && owner[page] == Held)
      modifies this
      ensures Valid() && IsDir(d) && Untouched(old(mem), old(owner), mem, owner)
      ensures r.Remap? <==> old(Mapped(mem, d, a))
      ensures !r.Done? ==> mem == old(mem) && owner == old(owner)
      ensures r.NoMemory? ==> old(free) == [] == free && X(a) !in old(Tables(mem, d))
      ensures Spent(old(mem), old(free), d, 0) && Tables(mem, d) <= old(Tables(mem, d)) + {X(a)}
      ensures r.Done? ==> SameMaps(old(mem), mem, old(owner), d, a, a + 1) && Pte(mem, d, a) == Entry(page, perm)
      ensures r.Done? ==> Handed(old(owner), owner, d, a, page) && (a < USER ==> mem[page] == old(mem)[page])
    {
      assert OwnerOk(mem, owner, d) && TableSlot(mem, owner, d, X(a));
      var t := Walkpgdir(d, a, true);
      if t == 0 {
        return NoMemory;
      }
      assert Pte(mem, d, a) == old(Pte(mem, d, a));
      if Present(mem[t][Y(a)]) {
        return Remap;
      }
      ghost var m1, o1 := mem, owner;
      StorePte(d, a, page, perm);
      PageMapped(old(mem), old(owner), m1, o1, mem, owner, d, a, page);
      return Done;
    }

    method StorePte(d: nat, a: nat, page: nat, perm: nat)
      requires Valid() && IsDir(d) && a < NVIRT && perm < 4096 && HasTable(mem, d, X(a)) && !Mapped(mem, d, a)
      requires a < USER ==> page < NPHYS && owner[page] == Held
      modifies this
      ensures Valid() && IsDir(d) && Untouched(old(mem), old(owner), mem, owner) && free == old(free)
      ensures SameMaps(old(mem), mem, old(owner), d, a, a + 1) && Pte(mem, d, a) == Entry(page, perm)
      ensures owner == if a < USER then old(owner)[page := Frame(d, a)] else old(owner)
      ensures a < USER ==> mem[page] == old(mem)[page]
      ensures Tables(mem, d) == old(Tables(mem, d))
    {
      var t, w := Addr(mem[d][X(a)]), Entry(page, perm);
      assert OwnerOk(mem, owner, d) && TableSlot(mem, owner, d, X(a));
      PteWritten(mem, owner, d, a, w);
      if a < USER {
        MapUserKeeps(mem, owner, d, a, page, perm);
        owner := owner[page := Frame(d, a)];
      } else {
        MapKernelKeeps(mem, owner, d, a, w);
      }
      ghost var was := mem;
      mem := mem[t := mem[t][Y(a) := w]];
      LinkedFrame(was, mem, freelist, free);
    }

    /** What mappages of the pages a to last leaves, since m0, o0, f0: the first n of them are
        mapped, everything else keeps its mapping. */
    ghost predicate MapsTo(m0: Mem, o0: seq<Owner>, f0: seq<nat>, d: nat, a: nat, last: nat, page: nat, perm: nat,
                           r: Outcome, n: nat)
      reads this
    {
      && |m0| == |o0| == |mem| == |owner| && d < |mem| && a <= last < NVIRT && perm < 4096
      && n <= last - a + 1 && (r.Done? <==> n == last - a + 1)
      && Untouched(m0, o0, mem, owner) && (r.Remap? ==> Mapped(m0, d, a + n))
      && SameMaps(m0, mem, o0, d, a, a + n)
      && (forall v :: a <= v < a + n ==> !Mapped(m0, d, v) && Pte(mem, d, v) == Entry(page + v - a, perm))
      && Spent(m0, f0, d, 0) && NewTables(m0, d, X(a), X(last))
      && (r.NoMemory? ==> free == [] && X(a + n) !in Tables(mem, d))
      && (a >= USER ==> Grown(o0, owner, d))
      && (a < USER && r.Done? ==> Handed(o0, owner, d, a, page) && page < |mem| && mem[page] == m0[page])
      && (a < USER && !r.Done? ==> owner == o0)
    }

    /** mappages over bytes [va, va + size), with the first n pages mapped on return.
        User ranges are one page long, backed by a page the caller holds. */
    method Mappages(d: nat, va: nat, size: nat, page: nat, perm: nat) returns (r: Outcome, ghost n: nat)
      requires Valid() && IsDir(d) && 0 < size && va + size <= 4096 * NVIRT && perm < 4096
      requires va / 4096 < USER ==> (va + size - 1) / 4096 == va / 4096 && page < NPHYS && owner[page] == Held
      modifies this
      ensures Valid() && IsDir(d)
      ensures MapsTo(old(mem), old(owner), old(free), d, va / 4096, (va + size - 1) / 4096, page, perm, r, n)
    {
      var a, last := va / 4096, (va + size - 1) / 4096;
      if a < USER {
        r, n := MapUser(d, a, page, perm);
      } else {
        r, n := MapRange(d, a, last, page, perm);
      }
    }

    /** mappages of one user page. */
    method MapUser(d: nat, a: nat, page: nat, perm: nat) returns (r: Outcome, ghost n: nat)
      requires Valid() && IsDir(d) && a < USER && perm < 4096 && page < NPHYS && owner[page] == Held
      modifies this
      ensures Valid() && IsDir(d) && MapsTo(old(mem), old(owner), old(free), d, a, a, page, perm, r, n)
    {
      r := MapPage(d, a, page, perm);
      n := if r.Done? then 1 else 0;
    }

    /** Pages [start, a) of d map to the pages from page on, since m0, o0, f0. */
    ghost predicate Ranged(m0: Mem, o0: seq<Owner>, f0: seq<nat>, d: nat, start: nat, a: nat, page: nat, perm: nat)
      reads this
    {
      && |m0| == |o0| == |mem| == |owner| && d < |mem| && start <= a <= NVIRT && perm < 4096
      && Untouched(m0, o0, mem, owner) && Grown(o0, owner, d) && SameMaps(m0, mem, o0, d, start, a)
      && (forall v :: start <= v < a ==> !Mapped(m0, d, v) && Pte(mem, d, v) == Entry(page + v - start, perm))
      && Spent(m0, f0, d, 0)
    }

    /** New page tables of d are for entries lo to hi. */
    ghost predicate NewTables(m0: Mem, d: nat, lo: nat, hi: nat)
      reads this
    {
      d < |m0| == |mem| && forall x :: x in Tables(mem, d) && x !in Tables(m0, d) ==> lo <= x <= hi
    }

    /** The loop of mappages in the kernel's part of the address space. */
    method MapRange(d: nat, start: nat, last: nat, page: nat, perm: nat) returns (r: Outcome, ghost n: nat)
      requires Valid() && IsDir(d) && USER <= start <= last < NVIRT && perm < 4096
      modifies this
      ensures Valid() && IsDir(d)
      ensures MapsTo(old(mem), old(owner), old(free), d, start, last, page, perm, r, n)
    {
      var a, pa := start, page;
      while true
        invariant Valid() && IsDir(d) && start <= a <= last && pa == page + a - start
        invariant Ranged(old(mem), old(owner), old(free), d, start, a, page, perm) &&
                  NewTables(old(mem), d, X(start), X(last))
        decreases last - a
      {
        r := MapStep(d, start, last, a, pa, perm, old(mem), old(owner), old(free), page);
        n := a - start;
        if !r.Done? {
          return;
        }
        if a == last {
          n := n + 1;
          return;
        }
        a := a + 1;
        pa := pa + 1;
      }
    }

    method MapStep(d: nat, ghost start: nat, ghost last: nat, a: nat, pa: nat, perm: nat,
                   ghost m0: Mem, ghost o0: seq<Owner>, ghost f0: seq<nat>, ghost page: nat) returns (r: Outcome)
      requires Valid() && IsDir(d) && USER <= start <= a <= last < NVIRT && pa == page + a - start
      requires Ranged(m0, o0, f0, d, start, a, page, perm) && NewTables(m0, d, X(start), X(last)) && o0[d] == Dir
      modifies this
      ensures Valid() && IsDir(d) && NewTables(m0, d, X(start), X(last))
      ensures Ranged(m0, o0, f0, d, start, if r.Done? then a + 1 else a, page, perm)
      ensures r.Remap? ==> Mapped(m0, d, a)
      ensures r.NoMemory? ==> free == [] && X(a) !in Tables(mem, d)
    {
      ghost var mem1, owner1 := mem, owner;
      r := MapPage(d, a, pa, perm);
      if r.Done? {
        MapsTrans(m0, o0, mem1, owner1, mem, d, start, a, a + 1);
        UntouchedTrans(m0, o0, mem1, owner1, mem, owner);
        RangeMore(m0, mem1, owner1, mem, d, start, a, page, perm);
      }
    }

    /** kfree of the frame of user page v, then *pte = 0. */
    method Release(d: nat, v: nat, t: nat)
      requires Valid() && IsDir(d) && v < USER && Mapped(mem, d, v) && HasTable(mem, d, X(v)) && t == Addr(mem[d][X(v)])
      modifies this
      ensures Valid() && IsDir(d) && Untouched(old(mem), old(owner), mem, owner)
      ensures SameMaps(old(mem), mem, old(owner), d, v, v + 1) && Pte(mem, d, v) == 0
      ensures owner == Released(old(owner), d, v, v + 1)
    {
      ghost var mem0, owner0 := mem, owner;
      var q := Addr(mem[t][Y(v)]);
      UnmapKeeps(mem, owner, d, v);
      PteWritten(mem, owner, d, v, 0);
      assert OwnerOk(mem, owner, d) && TableSlot(mem, owner, d, X(v));
      ghost var mem1, owner1 := WithPte(mem, d, v, 0), owner[q := Held];
      var panic := Kfree(q);
      ghost var mem2 := mem;
      mem := mem[t := mem[t][Y(v) := 0]];
      assert mem == mem1[q := mem2[q]];
      LinkedFrame(mem2, mem, freelist, free);
      LooseKeeps(mem1, owner1, mem, owner);
      OnlyFrame(mem0, owner0, d, v, q);
      MapsTrans(mem0, owner0, mem1, owner1, mem, d, v, v + 1, v + 1);
    }

    /** deallocuvm: exactly the pages of [PGROUNDUP(newsz), oldsz) are unmapped and freed. */
    method Deallocuvm(d: nat, oldsz: nat, newsz: nat) returns (r: nat)
      requires Valid() && IsDir(d) && oldsz <= KERNBASE
      modifies this
      ensures Valid() && IsDir(d) && Untouched(old(mem), old(owner), mem, owner)
      ensures r == if newsz >= oldsz then oldsz else newsz
      ensures owner == Released(old(owner), d, Up(newsz), Up(oldsz))
      ensures SameMaps(old(mem), mem, old(owner), d, Up(newsz), Up(oldsz))
      ensures forall v :: Up(newsz) <= v < Up(oldsz) ==> Pte(mem, d, v) == Cleared(old(Pte(mem, d, v)))
    {
      if newsz >= oldsz {
        assert Up(newsz) >= Up(oldsz);
        return oldsz;
      }
      var v := Up(newsz);
      ghost var start, end := Up(newsz), Up(oldsz);
      while 4096 * v < oldsz
        invariant start <= v && end <= USER && Valid() && IsDir(d)
        invariant Swept(old(mem), old(owner), d, start, if v <= end then v else end)
        decreases end - v
      {
        v := SweepStep(d, v, old(mem), old(owner), start, end);
      }
      assert v >= end;
      return newsz;
    }

    /** Pages [lo, hi) of d have been released since m0, o0. */
    ghost predicate Swept(m0: Mem, o0: seq<Owner>, d: nat, lo: nat, hi: nat)
      reads this
    {
      && |m0| == |o0| == |mem| == |owner| && d < |mem| && hi <= USER
      && owner == Released(o0, d, lo, hi) && SameMaps(m0, mem, o0, d, lo, hi) && Untouched(m0, o0, mem, owner)
      && forall v :: lo <= v < hi ==> Pte(mem, d, v) == Cleared(Pte(m0, d, v))
    }

    /** One round of deallocuvm's loop, jumping over a missing page table. */
    method SweepStep(d: nat, v: nat, ghost m0: Mem, ghost o0: seq<Owner>, ghost lo: nat, ghost hi: nat)
          returns (next: nat)
      requires Valid() && IsDir(d) && lo <= v < hi <= USER && Swept(m0, o0, d, lo, v) && d < |o0| && o0[d] == Dir
      modifies this
      ensures Valid() && IsDir(d) && v < next && Swept(m0, o0, d, lo, if next <= hi then next else hi)
    {
      var t := Walkpgdir(d, v, false);
      next := v;
      if t == 0 {
        next := NENT * (X(v) + 1) - 1;
        ghost var stop := if next + 1 <= hi then next + 1 else hi;
        NoTable(mem, d, v, stop);
        SweptOver(m0, o0, d, lo, v, stop);
      } else if Present(mem[t][Y(v)]) {
        SweepRelease(d, v, t, m0, o0, lo);
      } else {
        SweptOver(m0, o0, d, lo, v, v + 1);
      }
      next := next + 1;
    }

    method SweepRelease(d: nat, v: nat, t: nat, ghost m0: Mem, ghost o0: seq<Owner>, ghost lo: nat)
      requires Valid() && IsDir(d) && lo <= v < USER && Swept(m0, o0, d, lo, v) && d < |o0| && o0[d] == Dir
      requires Mapped(mem, d, v) && HasTable(mem, d, X(v)) && t == Addr(mem[d][X(v)])
      modifies this
      ensures Valid() && IsDir(d) && Swept(m0, o0, d, lo, v + 1)
    {
      ghost var mem1, owner1 := mem, owner;
      Release(d, v, t);
      MapsTrans(m0, o0, mem1, owner1, mem, d, lo, v, v + 1);
      UntouchedTrans(m0, o0, mem1, owner1, mem, owner);
      ReleasedMore(o0, d, lo, v, v + 1);
    }

    /** Unmapped pages are already swept. */
    lemma {:induction false} SweptOver(m0: Mem, o0: seq<Owner>, d: nat, lo: nat, v: nat, hi: nat)
      requires Valid() && IsDir(d) && lo <= v <= hi <= USER && Swept(m0, o0, d, lo, v) && o0[d] == Dir
      requires forall u :: v <= u < hi ==> !Mapped(mem, d, u)
      ensures Swept(m0, o0, d, lo, hi)
    {
      NothingToRelease(mem, owner, d, v, hi);
      ReleasedMore(o0, d, lo, v, hi);
      forall e, u | 0 <= e < |m0| && o0[e] == Dir && 0 <= u < NVIRT && !(e == d && lo <= u < hi)
        ensures Pte(mem, e, u) == Pte(m0, e, u)
      {
      }
      forall u | lo <= u < hi
        ensures Pte(mem, d, u) == Cleared(Pte(m0, d, u))
      {
        if v <= u {
          assert Pte(mem, d, u) == Pte(m0, d, u);
          assert !Mapped(mem, d, u);
        }
      }
    }

    /** freevm: every frame, every page table and the directory itself go back to the
        free list, each once; nothing else changes hands. */
    method Freevm(d: nat)
      requires Valid() && IsDir(d)
      modifies this
      ensures Valid() && owner == Reassign(old(owner), d, Free)
      ensures SameMaps(old(mem), mem, old(owner), d, 0, NVIRT) && Untouched(old(mem), old(owner), mem, owner)
    {
      FramesBelow(mem, owner);
      var r := Deallocuvm(d, KERNBASE, 0);
      ghost var mem1, owner1 := mem, owner;
      TakeApart(d);
      TornEnd(old(owner), mem1, owner1, d);
      OthersTrans(old(mem), old(owner), mem1, owner1, mem, d);
    }

    /** freevm once the user part is empty. */
    method TakeApart(d: nat)
      requires Valid() && IsDir(d) && forall p :: 0 <= p < |owner| ==> !InRange(owner[p], d, 0, USER)
      modifies this
      ensures Valid() && d < |owner| && owner == Torn(old(owner), d, NENT)[d := Free]
      ensures SameMaps(old(mem), mem, old(owner), d, 0, NVIRT) && Untouched(old(mem), old(owner), mem, owner)
    {
      FreeTables(d);
      ghost var mem2, owner2 := mem, owner;
      var panic := Kfree(d);
      LooseKeeps(mem2, owner2, mem, owner);
    }

    /** The loop of freevm over the directory's entries. */
    method FreeTables(d: nat)
      requires Valid() && IsDir(d) && forall p :: 0 <= p < |owner| ==> !InRange(owner[p], d, 0, USER)
      modifies this
      ensures Valid() && owner == Torn(old(owner), d, NENT) && d < |owner| && mem[d] == old(mem)[d]
      ensures Untouched(old(mem), old(owner), mem, owner)
      ensures SameMaps(old(mem), mem, old(owner), d, 0, NVIRT)
    {
      FramesBelow(mem, owner);
      TornStart(owner, d);
      ReassignKeeps(mem, owner, d);
      owner := Reassign(owner, d, Held);
      var i := 0;
      while i < NENT
        invariant i <= NENT && Valid() && owner == Torn(old(owner), d, i) && mem[d] == old(mem)[d]
        invariant Untouched(old(mem), old(owner), mem, owner)
        invariant SameMaps(old(mem), mem, old(owner), d, 0, NVIRT)
      {
        TornStep(old(mem), old(owner), d, i);
        if Present(mem[d][i]) {
          ghost var mem1, owner1 := mem, owner;
          var panic := Kfree(Addr(mem[d][i]));
          LooseKeeps(mem1, owner1, mem, owner);
        }
        i := i + 1;
      }
    }

    /** A zeroed page as an empty directory. */
    method NewDir() returns (d: nat)
      requires Valid()
      modifies this
      ensures Valid() && (d == 0 <==> old(free) == [])
      ensures d == 0 ==> owner == old(owner) && mem == old(mem)
      ensures d != 0 ==> d < NPHYS && old(owner)[d] == Free && owner == old(owner)[d := Dir]
      ensures d != 0 ==> Tables(mem, d) == {} && |free| == |old(free)| - 1
      ensures d != 0 ==> forall v :: 0 <= v < NVIRT ==> Pte(mem, d, v) == 0
      ensures SameMaps(old(mem), mem, old(owner), 0, 0, 0) && Untouched(old(mem), old(owner), mem, owner)
    {
      d := Kalloc();
      if d == 0 {
        return;
      }
      ghost var mem1, owner1 := mem, owner;
      mem := mem[d := ZeroPage()];
      LooseKeeps(mem1, owner1, mem, owner);
      NewDirKeeps(mem, owner, d);
      owner := owner[d := Dir];
      LinkedFrame(mem1, mem, freelist, free);
    }

    /** setupkvm: a directory with the kernel's mappings and nothing else, or 0 with
        every page back where it was.  It takes 65 pages: the directory and 64 tables. */
    method Setupkvm(kdata: nat) returns (d: nat)
      requires Valid() && DataOk(kdata)
      modifies this
      ensures Valid() && SameMaps(old(mem), mem, old(owner), 0, 0, 0) && Untouched(old(mem), old(owner), mem, owner)
      ensures d == 0 ==> owner == old(owner)
      ensures if |old(free)| < 65 then d == 0 else d != 0 && |free| == |old(free)| - 65
      ensures d != 0 ==> d < NPHYS && old(owner)[d] == Free && Grown(old(owner)[d := Dir], owner, d)
      ensures d != 0 ==> forall v :: 0 <= v < NVIRT ==> Pte(mem, d, v) == KernelPte(4, kdata, v)
    {
      d := NewDir();
      if d == 0 {
        return;
      }
      NoParts(old(mem), old(owner), d);
      KernelTablesSize();
      ghost var base := owner;
      var k := 0;
      while k < 4
        invariant k <= 4 && Valid() && d < NPHYS && base == old(owner)[d := Dir] && Grown(base, owner, d)
        invariant forall v :: 0 <= v < NVIRT ==> Pte(mem, d, v) == KernelPte(k, kdata, v)
        invariant SameMaps(old(mem), mem, old(owner), 0, 0, 0) && Untouched(old(mem), old(owner), mem, owner)
        invariant Tables(mem, d) <= KernelTables() && |free| + |Tables(mem, d)| == |old(free)| - 1
      {
        var ok := MapKernel(d, k, kdata, old(mem), old(owner));
        if !ok {
          ghost var mem1, owner1 := mem, owner;
          Freevm(d);
          Undone(old(owner), owner1, d);
          Forgotten(old(mem), old(owner), mem1, owner1, mem, owner, d);
          return 0;
        }
        k := k + 1;
      }
      KernelTablesThere(mem, d, kdata);
    }

    /** mappages of one entry of kmap. */
    method MapEntry(d: nat, k: nat, kdata: nat) returns (r: Outcome, ghost n: nat)
      requires Valid() && IsDir(d) && k < 4 && DataOk(kdata)
      modifies this
      ensures Valid() && IsDir(d) && KmapFirst(k, kdata) >= USER
      ensures MapsTo(old(mem), old(owner), old(free), d, KmapFirst(k, kdata), KmapEnd(k, kdata) - 1,
                     KmapFrame(k, kdata), KmapAt(k, kdata).perm, r, n)
    {
      var e := KmapAt(k, kdata);
      KmapPages(k, kdata);
      r, n := Mappages(d, e.virt, KmapSize(e), e.physStart / 4096, e.perm);
    }

    /** One round of setupkvm's loop. */
    method MapKernel(d: nat, k: nat, kdata: nat, ghost m0: Mem, ghost o0: seq<Owner>) returns (ok: bool)
      requires Valid() && k < 4 && DataOk(kdata) && |m0| == |o0| == NPHYS && d < NPHYS && o0[d] == Free &&
               Grown(o0[d := Dir], owner, d)
      requires forall v :: 0 <= v < NVIRT ==> Pte(mem, d, v) == KernelPte(k, kdata, v)
      requires SameMaps(m0, mem, o0, 0, 0, 0) && Untouched(m0, o0, mem, owner) && Tables(mem, d) <= KernelTables()
      modifies this
      ensures Valid() && Grown(o0[d := Dir], owner, d)
      ensures ok ==> forall v :: 0 <= v < NVIRT ==> Pte(mem, d, v) == KernelPte(k + 1, kdata, v)
      ensures SameMaps(m0, mem, o0, 0, 0, 0) && Untouched(m0, o0, mem, owner)
      ensures Spent(old(mem), old(free), d, 0) && Tables(mem, d) <= KernelTables()
      ensures !ok ==> free == [] && |Tables(mem, d)| < 64
    {
      ghost var mem1, owner1, lo := mem, owner, KmapFirst(k, kdata);
      var r, n := MapEntry(d, k, kdata);
      forall v | 0 <= v < NVIRT
        ensures r.Done? ==> Pte(mem, d, v) == KernelPte(k + 1, kdata, v)
        ensures r.Remap? ==> v != lo + n
      {
        KernelStep(k, kdata, v);
      }
      KernelRound(k, kdata, Tables(mem1, d), Tables(mem, d), lo + if r.NoMemory? then n else 0);
      Outside(m0, o0, mem1, owner1, mem, d);
      UntouchedTrans(m0, o0, mem1, owner1, mem, owner);
      return r.Done?;
    }

    /** kalloc and fill. */
    method NewPage(contents: Page) returns (page: nat)
      requires Valid()
      modifies this
      ensures Valid() && (page == 0 <==> old(free) == [])
      ensures page == 0 ==> mem == old(mem) && owner == old(owner)
      ensures page != 0 ==> page < NPHYS && old(owner)[page] == Free && owner == old(owner)[page := Held]
      ensures page != 0 ==> mem == old(mem)[page := contents] && |free| == |old(free)| - 1
      ensures SameMaps(old(mem), mem, old(owner), 0, 0, 0) && Untouched(old(mem), old(owner), mem, owner)
    {
      page := Kalloc();
      if page == 0 {
        return;
      }
      ghost var mem1, owner1 := mem, owner;
      mem := mem[page := contents];
      LooseKeeps(mem1, owner1, mem, owner);
      LinkedFrame(mem1, mem, freelist, free);
    }

    /** mappages of one page that is not mapped. */
    method MapNew(d: nat, v: nat, page: nat, perm: nat) returns (r: Outcome)
      requires Valid() && IsDir(d) && v < USER && perm < 4096 && page < NPHYS && owner[page] == Held
      requires !Mapped(mem, d, v)
      modifies this
      ensures Valid() && IsDir(d) && !r.Remap?
      ensures MapsTo(old(mem), old(owner), old(free), d, v, v, page, perm, r, if r.Done? then 1 else 0)
    {
      var va := 4096 * v;
      assert va / 4096 == v && (va + 4096 - 1) / 4096 == v;
      ghost var n;
      r, n := Mappages(d, va, 4096, page, perm);
    }

    /** kalloc, fill, mappages of one user page.  On failure a page that could not be
        mapped stays with the caller. */
    method AddPage(d: nat, v: nat, contents: Page, perm: nat) returns (ok: bool, page: nat)
      requires Valid() && IsDir(d) && v < USER && perm < 4096 && !Mapped(mem, d, v)
      modifies this
      ensures Valid() && IsDir(d) && Untouched(old(mem), old(owner), mem, owner)
      ensures ok ==> page < NPHYS && old(owner)[page] == Free && owner[page] == Frame(d, v) && mem[page] == contents
      ensures ok ==> SameMaps(old(mem), mem, old(owner), d, v, v + 1) && Pte(mem, d, v) == Entry(page, perm)
      ensures ok ==> GrownBy(old(owner), owner, d, v, v + 1)
      ensures !ok ==> SameMaps(old(mem), mem, old(owner), d, 0, 0)
      ensures !ok && page == 0 ==> owner == old(owner)
      ensures !ok && page != 0 ==> page < NPHYS && old(owner)[page] == Free && owner == old(owner)[page := Held]
      ensures if ok then |old(free)| <= |free| + 2 else |old(free)| < 2
    {
      page := NewPage(contents);
      if page == 0 {
        return false, 0;
      }
      assert !Mapped(mem, d, v);
      ghost var tables := Tables(mem, d);
      var r := MapNew(d, v, page, perm);
      OneMore(Tables(mem, d), tables, X(v));
      return r.Done?, page;
    }

    /** Pages [lo, v) of d are new zeroed frames since m0, o0. */
    ghost predicate Growing(m0: Mem, o0: seq<Owner>, d: nat, lo: nat, v: nat)
      reads this
    {
      && |m0| == |o0| == |mem| == |owner| && d < |mem| && v <= USER
      && SameMaps(m0, mem, o0, d, lo, v) && Untouched(m0, o0, mem, owner) && GrownBy(o0, owner, d, lo, v)
      && forall u :: lo <= u < v ==> ZeroFrame(mem, d, u)
    }

    /** One round of allocuvm. */
    method GrowStep(d: nat, v: nat, ghost m0: Mem, ghost o0: seq<Owner>, ghost lo: nat) returns (ok: bool, page: nat)
      requires Valid() && IsDir(d) && lo <= v < USER && Growing(m0, o0, d, lo, v) && o0[d] == Dir && !Mapped(m0, d, v)
      modifies this
      ensures Valid() && IsDir(d)
      ensures ok ==> Growing(m0, o0, d, lo, v + 1)
      ensures if ok then |old(free)| <= |free| + 2 else |old(free)| < 2
      ensures !ok ==> Stuck(m0, o0, d, lo, v, page)
    {
      ghost var mem1, owner1 := mem, owner;
      assert Pte(mem, d, v) == Pte(m0, d, v);
      ok, page := AddPage(d, v, ZeroPage(), PTE_W + PTE_U);
      UntouchedTrans(m0, o0, mem1, owner1, mem, owner);
      MapsTrans(m0, o0, mem1, owner1, mem, d, lo, v, if ok then v + 1 else v);
      if ok {
        GrownTrans(o0, owner1, owner, d, lo, v, v + 1);
      }
      ZeroFramesStay(mem1, owner1, mem, owner, d, lo, v);
      assert !ok ==> owner1 == if page == 0 then owner else owner[page := Free];
      forall u | lo <= u < v
        ensures Mapped(mem, d, u)
      {
        assert ZeroFrame(mem, d, u);
      }
    }

    /** Out of memory with pages [lo, v) mapped; page, unless 0, is held and unmapped. */
    ghost predicate Stuck(m0: Mem, o0: seq<Owner>, d: nat, lo: nat, v: nat, page: nat)
      reads this
    {
      && |m0| == |o0| == |mem| == |owner| && d < |mem| && v <= USER && page < |owner| &&
         (page != 0 ==> owner[page] == Held)
      && SameMaps(m0, mem, o0, d, lo, v) && Untouched(m0, o0, mem, owner)
      && GrownBy(o0, if page == 0 then owner else owner[page := Free], d, lo, v)
      && forall u :: lo <= u < v ==> Mapped(mem, d, u)
    }

    /** allocuvm's way out: deallocuvm, then kfree of the page in hand. */
    method Abandon(d: nat, oldsz: nat, newsz: nat, page: nat, ghost m0: Mem, ghost o0: seq<Owner>, ghost v: nat)
      requires Valid() && IsDir(d) && oldsz <= newsz <= KERNBASE && Up(oldsz) <= v <= Up(newsz) &&
               Stuck(m0, o0, d, Up(oldsz), v, page)
      requires Inv(m0, o0) && o0[d] == Dir && Up(newsz) <= USER && forall u :: Up(oldsz) <= u < Up(newsz) ==>
               Pte(m0, d, u) == 0
      modifies this
      ensures Valid() && IsDir(d) && |m0| == |mem| && SameMaps(m0, mem, o0, d, 0, 0) && Grown(o0, owner, d)
      ensures Untouched(m0, o0, mem, owner)
    {
      ghost var mem1, owner1, lo, hi := mem, owner, Up(oldsz), Up(newsz);
      ghost var back := if page == 0 then owner else owner[page := Free];
      var r := Deallocuvm(d, newsz, oldsz);
      NoFrames(m0, o0, d, lo, hi);
      GrownReleased(o0, back, d, lo, v, hi);
      Restored(m0, o0, mem1, owner1, mem, d, lo, v, hi);
      UntouchedTrans(m0, o0, mem1, owner1, mem, owner);
      if page != 0 {
        ghost var mem2, owner2 := mem, owner;
        var panic := Kfree(page);
        LooseKeeps(mem2, owner2, mem, owner);
        MapsTrans(m0, o0, mem2, owner2, mem, d, 0, 0, 0);
        UntouchedTrans(m0, o0, mem2, owner2, mem, owner);
      }
      assert owner == Released(back, d, lo, hi);
    }

    /** allocuvm: pages [PGROUNDUP(oldsz), newsz) become zeroed, user-writable frames; on
        failure the flat map is as it was and only page tables have been added. */
    method Allocuvm(d: nat, oldsz: nat, newsz: nat) returns (r: nat, ghost ok: bool)
      requires Valid() && IsDir(d) && forall v :: Up(oldsz) <= v < USER ==> Pte(mem, d, v) == 0
      modifies this
      ensures Valid() && IsDir(d)
      ensures newsz >= KERNBASE ==> r == 0 && mem == old(mem) && owner == old(owner)
      ensures newsz < oldsz && newsz < KERNBASE ==> r == oldsz && mem == old(mem) && owner == old(owner)
      ensures oldsz <= newsz < KERNBASE && ok ==> r == newsz && Growing(old(mem), old(owner), d, Up(oldsz), Up(newsz))
      ensures oldsz <= newsz < KERNBASE && !ok ==>
                && r == 0 && SameMaps(old(mem), mem, old(owner), d, 0, 0) && Grown(old(owner), owner, d)
                && Untouched(old(mem), old(owner), mem, owner) && |old(free)| < 2 * (Up(newsz) - Up(oldsz))
    {
      ok := false;
      if newsz >= KERNBASE {
        return 0, ok;
      }
      if newsz < oldsz {
        return oldsz, ok;
      }
      ghost var lo, hi := Up(oldsz), Up(newsz);
      UpMonotone(oldsz, newsz);
      var v := Up(oldsz);
      while 4096 * v < newsz
        invariant lo <= v <= hi <= USER && Valid() && IsDir(d) && Growing(old(mem), old(owner), d, lo, v)
        invariant |old(free)| <= |free| + 2 * (v - lo)
        decreases hi - v
      {
        var more, page := GrowStep(d, v, old(mem), old(owner), lo);
        if !more {
          Abandon(d, oldsz, newsz, page, old(mem), old(owner), v);
          return 0, false;
        }
        v := v + 1;
      }
      return newsz, true;
    }

    /** Pages [0, v) of c are copies of d's, above are only the kernel's mappings, and
        nobody else has changed since m0, o0. */
    ghost predicate Copying(m0: Mem, o0: seq<Owner>, d: nat, c: nat, kdata: nat, v: nat)
      reads this
    {
      && |m0| == |o0| == |mem| == |owner| && d < |mem| && c < |mem| && v <= USER && o0[c] == Free && o0[d] == Dir
      && SameMaps(m0, mem, o0, 0, 0, 0) && Untouched(m0, o0, mem, owner) && GrownBy(o0[c := Dir], owner, c, 0, v)
      && (forall u :: 0 <= u < v ==> CopyOf(mem, c, m0, d, u))
      && (forall u :: v <= u < NVIRT ==> Pte(mem, c, u) == KernelPte(4, kdata, u))
    }

    /** kalloc, memmove and mappages for one page of the child. */
    method CopyPage(d: nat, c: nat, v: nat, pte: nat, kdata: nat, ghost m0: Mem, ghost o0: seq<Owner>)
          returns (ok: bool, page: nat)
      requires Valid() && IsDir(c) && v < USER && Copying(m0, o0, d, c, kdata, v) && Inv(m0, o0)
      requires pte == Pte(m0, d, v) && Present(pte) && Addr(pte) < |mem| && mem[Addr(pte)] == m0[Addr(pte)]
      modifies this
      ensures Valid() && IsDir(c)
      ensures ok ==> Copying(m0, o0, d, c, kdata, v + 1)
      ensures !ok ==> SameMaps(m0, mem, o0, 0, 0, 0) && Untouched(m0, o0, mem, owner)
      ensures !ok ==> page < |owner| && (page != 0 ==> owner[page] == Held)
      ensures !ok ==> GrownBy(o0[c := Dir], if page == 0 then owner else owner[page := Free], c, 0, v)
      ensures if ok then |old(free)| <= |free| + 2 else |old(free)| < 2
    {
      ghost var mem1, owner1 := mem, owner;
      assert Pte(mem, c, v) == 0;
      ok, page := AddPage(c, v, mem[Addr(pte)], Flags(pte));
      UntouchedTrans(m0, o0, mem1, owner1, mem, owner);
      Outside(m0, o0, mem1, owner1, mem, c);
      if ok {
        CopiesMore(m0, mem1, owner1, mem, owner, c, d, kdata, v, page);
        GrownTrans(o0[c := Dir], owner1, owner, c, 0, v, v + 1);
      } else {
        assert owner1 == if page == 0 then owner else owner[page := Free];
      }
    }

    /** copyuvm's way out: the page in hand and the child's directory are freed. */
    method Discard(c: nat, page: nat, ghost m0: Mem, ghost o0: seq<Owner>, ghost v: nat)
      requires Valid() && IsDir(c) && |m0| == |o0| == |owner| && o0[c] == Free && Inv(m0, o0)
      requires page < |owner| && (page != 0 ==> owner[page] == Held)
      requires SameMaps(m0, mem, o0, 0, 0, 0) && Untouched(m0, o0, mem, owner)
      requires GrownBy(o0[c := Dir], if page == 0 then owner else owner[page := Free], c, 0, v)
      modifies this
      ensures Valid() && owner == o0 && |m0| == |mem| && SameMaps(m0, mem, o0, 0, 0, 0) && Untouched(m0, o0, mem, owner)
    {
      if page != 0 {
        ghost var mem1, owner1 := mem, owner;
        var panic := Kfree(page);
        LooseKeeps(mem1, owner1, mem, owner);
        MapsTrans(m0, o0, mem1, owner1, mem, 0, 0, 0, 0);
        UntouchedTrans(m0, o0, mem1, owner1, mem, owner);
      }
      ghost var mem2, owner2 := mem, owner;
      NoParts(m0, o0, c);
      UndoneBy(o0, owner, c, v);
      Freevm(c);
      Outside(m0, o0, mem2, owner2, mem, c);
      UntouchedTrans(m0, o0, mem2, owner2, mem, owner);
    }

    /** copyuvm: the child gets the same flags and the same bytes on frames of its own;
        on failure every page is back where it was. */
    method Copyuvm(d: nat, sz: nat, kdata: nat) returns (r: Copied)
      requires Valid() && IsDir(d) && sz <= KERNBASE && DataOk(kdata)
      modifies this
      ensures r.Panicked? ==> exists v :: 0 <= v < Up(sz) && v < NVIRT && !old(Mapped(mem, d, v))
      ensures !r.Panicked? ==>
                Valid() && SameMaps(old(mem), mem, old(owner), 0, 0, 0) && Untouched(old(mem), old(owner), mem, owner)
      ensures r.Failed? ==> owner == old(owner) && |old(free)| < 65 + 2 * Up(sz)
      ensures r.Child? ==> IsDir(r.dir) && Copying(old(mem), old(owner), d, r.dir, kdata, Up(sz))
    {
      var c := Setupkvm(kdata);
      if c == 0 {
        return Failed;
      }
      var v := 0;
      r := Child(c);
      ghost var hi := Up(sz);
      assert hi <= USER;
      while 4096 * v < sz
        invariant v <= hi && Valid() && IsDir(c) && Copying(old(mem), old(owner), d, c, kdata, v)
        invariant |old(free)| <= |free| + 65 + 2 * v
        decreases hi - v
      {
        r, v := CopyNext(d, c, v, kdata, old(mem), old(owner));
        if !r.Child? {
          return;
        }
      }
      return Child(c);
    }

    /** One round of copyuvm's loop. */
    method CopyNext(d: nat, c: nat, v: nat, kdata: nat, ghost m0: Mem, ghost o0: seq<Owner>)
        returns (r: Copied, next: nat)
      requires Valid() && IsDir(c) && v < USER && Copying(m0, o0, d, c, kdata, v) && Inv(m0, o0) && o0[d] == Dir
      modifies this
      ensures next == v + 1
      ensures r.Panicked? ==> !Mapped(m0, d, v)
      ensures r.Failed? ==> Valid() && owner == o0 && |m0| == |mem| && |old(free)| < 2
      ensures r.Failed? ==> SameMaps(m0, mem, o0, 0, 0, 0) && Untouched(m0, o0, mem, owner)
      ensures r.Child? ==> Valid() && IsDir(c) && Copying(m0, o0, d, c, kdata, next) && |old(free)| <= |free| + 2
    {
      next := v + 1;
      var t := Walkpgdir(d, v, false);
      if t == 0 || !Present(mem[t][Y(v)]) {
        return Panicked, next;
      }
      ParentFrame(m0, o0, mem, owner, d, c, v, v);
      var ok, page := CopyPage(d, c, v, mem[t][Y(v)], kdata, m0, o0);
      if ok {
        return Child(c), next;
      }
      Discard(c, page, m0, o0, v);
      return Failed, next;
    }
  }

  /** The parent's frame still has the parent's bytes. */
  lemma {:induction false} ParentFrame(m0: Mem, o0: seq<Owner>, m1: Mem, o1: seq<Owner>, d: nat, c: nat, v: nat,
        hi: nat)
    requires |m0| == |o0| == |m1| == |o1| && Inv(m0, o0) && d < |o0| && c < |o0| && o0[d] == Dir && v < USER &&
             Mapped(m0, d, v)
    requires Untouched(m0, o0, m1, o1) && GrownBy(o0[c := Dir], o1, c, 0, hi)
    requires o0[c] == Free
    ensures Addr(Pte(m0, d, v)) < |m0| && m1[Addr(Pte(m0, d, v))] == m0[Addr(Pte(m0, d, v))]
  {
    assert OwnerOk(m0, o0, d) && FrameSlot(m0, o0, d, v);
  }

  lemma {:induction false} UpMonotone(a: nat, b: nat)
    requires a <= b < KERNBASE
    ensures Up(a) <= Up(b) <= USER
  {
  }

  lemma {:induction false} NoFrames(mem: Mem, owner: seq<Owner>, d: nat, lo: nat, hi: nat)
    requires Inv(mem, owner) && d < |mem| && hi <= USER && forall v :: lo <= v < hi ==> Pte(mem, d, v) == 0
    ensures forall p :: 0 <= p < |owner| ==> !InRange(owner[p], d, lo, hi)
  {
    forall p | 0 <= p < |owner|
      ensures !InRange(owner[p], d, lo, hi)
    {
      assert OwnerOk(mem, owner, p);
    }
  }

  /** Sweeping what was mapped where nothing was before gives the old map back. */
  lemma {:induction false} Restored(m0: Mem, o0: seq<Owner>, m1: Mem, o1: seq<Owner>, m2: Mem, d: nat, lo: nat, v: nat,
        hi: nat)
    requires |m0| == |m1| == |m2| == |o0| == |o1| && d < |m0| && lo <= v <= hi <= USER && o0[d] == Dir
    requires SameMaps(m0, m1, o0, d, lo, v) && SameMaps(m1, m2, o1, d, lo, hi)
    requires forall e :: 0 <= e < |o0| && o0[e] == Dir ==> o1[e] == Dir
    requires forall u :: lo <= u < hi ==> Pte(m0, d, u) == 0 && Pte(m2, d, u) == Cleared(Pte(m1, d, u))
    requires forall u :: lo <= u < v ==> Mapped(m1, d, u)
    ensures SameMaps(m0, m2, o0, d, 0, 0)
  {
    forall e, u | 0 <= e < |m0| && o0[e] == Dir && 0 <= u < NVIRT
      ensures Pte(m2, e, u) == Pte(m0, e, u)
    {
      if e == d && lo <= u < v {
        assert Mapped(m1, d, u);
      } else {
        assert Pte(m1, e, u) == Pte(m0, e, u);
      }
    }
  }

  /** User page u of d is writable and all zeroes. */
  predicate ZeroFrame(mem: Mem, d: nat, u: nat)
    requires d < |mem| && u < USER
  {
    Mapped(mem, d, u) && Flags(Pte(mem, d, u)) == PTE_P + PTE_W + PTE_U && Addr(Pte(mem, d, u)) < |mem| &&
    mem[Addr(Pte(mem, d, u))] == ZeroPage()
  }

  lemma {:induction false} ZeroFramesStay(m1: Mem, o1: seq<Owner>, m2: Mem, o2: seq<Owner>, d: nat, lo: nat, hi: nat)
    requires |m1| == |m2| == |o1| == |o2| && d < |m1| && hi <= USER && Inv(m1, o1) && o1[d] == Dir
    requires Untouched(m1, o1, m2, o2) && (forall p :: 0 <= p < |o1| && o1[p].Frame? ==> o2[p] == o1[p])
    requires forall u :: lo <= u < hi ==> Pte(m2, d, u) == Pte(m1, d, u)
    requires forall u :: lo <= u < hi ==> ZeroFrame(m1, d, u)
    ensures forall u :: lo <= u < hi ==> ZeroFrame(m2, d, u)
  {
    forall u | lo <= u < hi
      ensures ZeroFrame(m2, d, u)
    {
      assert ZeroFrame(m1, d, u);
      assert OwnerOk(m1, o1, d) && FrameSlot(m1, o1, d, u);
    }
  }

  /** Directories that were there before d did not notice d being changed. */
  lemma {:induction false} Outside(m0: Mem, o0: seq<Owner>, m1: Mem, o1: seq<Owner>, m2: Mem, d: nat)
    requires |m0| == |m1| == |m2| == |o0| == |o1| && d < |o0| && o0[d] != Dir
    requires SameMaps(m0, m1, o0, 0, 0, 0) && SameMaps(m1, m2, o1, d, 0, NVIRT)
    requires forall e :: 0 <= e < |o0| && o0[e] == Dir ==> o1[e] == Dir
    ensures SameMaps(m0, m2, o0, 0, 0, 0)
  {
    forall e, u | 0 <= e < |m0| && o0[e] == Dir && 0 <= u < NVIRT
      ensures Pte(m2, e, u) == Pte(m0, e, u)
    {
      assert Pte(m1, e, u) == Pte(m0, e, u);
    }
  }

  lemma {:induction false} Forgotten(m0: Mem, o0: seq<Owner>, m1: Mem, o1: seq<Owner>, m2: Mem, o2: seq<Owner>, d: nat)
    requires |m0| == |m1| == |m2| == |o0| == |o1| == |o2| && d < |o0| && o0[d] == Free && Grown(o0[d := Dir], o1, d) &&
             o2 == o0
    requires SameMaps(m0, m1, o0, 0, 0, 0) && Untouched(m0, o0, m1, o1)
    requires SameMaps(m1, m2, o1, d, 0, NVIRT) && Untouched(m1, o1, m2, o2)
    ensures SameMaps(m0, m2, o0, 0, 0, 0) && Untouched(m0, o0, m2, o2)
  {
    Outside(m0, o0, m1, o1, m2, d);
    UntouchedTrans(m0, o0, m1, o1, m2, o2);
  }

  lemma {:induction false} NoTable(mem: Mem, d: nat, v: nat, stop: nat)
    requires d < |mem| && v < NVIRT && !HasTable(mem, d, X(v)) && stop <= NENT * (X(v) + 1) && stop <= NVIRT
    ensures forall u :: v <= u < stop ==> !Mapped(mem, d, u)
  {
    forall u | v <= u < stop
      ensures !Mapped(mem, d, u)
    {
      assert X(u) == X(v);
    }
  }

  lemma {:induction false} OnlyFrame(mem: Mem, owner: seq<Owner>, d: nat, v: nat, q: nat)
    requires Inv(mem, owner) && d < |mem| && q < |owner| && owner[q] == Frame(d, v) && v < USER &&
             Addr(Pte(mem, d, v)) == q
    ensures Released(owner, d, v, v + 1) == owner[q := Free]
  {
    forall p | 0 <= p < |owner| && InRange(owner[p], d, v, v + 1)
      ensures p == q
    {
      assert OwnerOk(mem, owner, p);
    }
  }
}

/** Two-level page tables over owned physical pages (vm.c, kalloc.c): what every
    change of a directory, table or frame does to ownership and to the flat map. */
module Pages {

  const NENT := 1024            // entries in a page directory or page table
  const USER := 0x80000         // pages below KERNBASE
  const NVIRT := 0x100000       // pages in the 32-bit address space
  const PTE_P := 1
  const PTE_W := 2
  const PTE_U := 4

  /** A physical page as 32-bit words. */
  type Page = p: seq<nat> | |p| == NENT witness seq(NENT, _ => 0)

  /** Physical memory, page by page. */
  type Mem = seq<Page>

  function ZeroPage(): Page { seq(NENT, _ => 0) }

  // ------------------------------------------------------------------ entries

  predicate Present(e: nat) { e % 2 == 1 }

  /** PTE_ADDR, as a page number. */
  function Addr(e: nat): nat { e / 4096 }

  /** PTE_FLAGS. */
  function Flags(e: nat): nat { e % 4096 }

  /** pa | perm | PTE_P for a page-aligned pa. */
  function Entry(page: nat, perm: nat): (e: nat)
    requires perm < 4096
    ensures Present(e) && Addr(e) == page && Flags(e) == if perm % 2 == 1 then perm else perm + 1
  {
    EntryParts(page, if perm % 2 == 1 then perm else perm + 1);
    4096 * page + if perm % 2 == 1 then perm else perm + 1
  }

  lemma {:induction false} EntryParts(page: nat, flags: nat)
    requires flags < 4096
    ensures Addr(4096 * page + flags) == page && Flags(4096 * page + flags) == flags
    ensures Present(4096 * page + flags) <==> Present(flags)
  {
    assert 4096 * page + flags - flags == 2 * (2048 * page);
  }

  /** PDX and PTX of virtual page v. */
  function X(v: nat): (x: nat)
    ensures NENT * x <= v < NENT * x + NENT
  {
    v / NENT
  }

  function Y(v: nat): (y: nat)
    ensures y < NENT && v == NENT * X(v) + y
  {
    v - NENT * X(v)
  }

  // ---------------------------------------------------------------- ownership

  /** Who has a physical page.  Kernel pages are never handed out; Held pages are
      allocated and not (or no longer) part of an address space. */
  datatype Owner = Kernel | Free | Held | Dir | Table(dir: nat, x: nat) | Frame(dir: nat, v: nat)

  predicate HasTable(mem: Mem, d: nat, x: nat)
    requires d < |mem| && x < NENT
  {
    Present(mem[d][x]) && Addr(mem[d][x]) < |mem|
  }

  /** The flat page map of directory d: the entry for virtual page v, 0 if there is
      no page table for it. */
  function Pte(mem: Mem, d: nat, v: nat): nat
    requires d < |mem| && v < NVIRT
  {
    if HasTable(mem, d, X(v)) then mem[Addr(mem[d][X(v)])][Y(v)] else 0
  }

  predicate Mapped(mem: Mem, d: nat, v: nat)
    requires d < |mem| && v < NVIRT
  {
    Present(Pte(mem, d, v))
  }

  /** Every table and user frame that d points at is d's. */
  predicate TableSlot(mem: Mem, owner: seq<Owner>, d: nat, x: nat)
    requires d < |mem| == |owner| && x < NENT
  {
    Present(mem[d][x]) ==> Addr(mem[d][x]) < |owner| && owner[Addr(mem[d][x])] == Table(d, x)
  }

  predicate FrameSlot(mem: Mem, owner: seq<Owner>, d: nat, v: nat)
    requires d < |mem| == |owner| && v < USER
  {
    Mapped(mem, d, v) ==> Addr(Pte(mem, d, v)) < |owner| && owner[Addr(Pte(mem, d, v))] == Frame(d, v)
  }

  predicate DirOk(mem: Mem, owner: seq<Owner>, d: nat)
    requires d < |mem| == |owner|
  {
    && (forall x :: 0 <= x < NENT ==> TableSlot(mem, owner, d, x))
    && (forall v :: 0 <= v < USER ==> FrameSlot(mem, owner, d, v))
  }

  /** Every table and frame is in use where its owner says. */
  predicate OwnerOk(mem: Mem, owner: seq<Owner>, p: nat)
    requires p < |mem| == |owner|
  {
    match owner[p]
    case Dir => DirOk(mem, owner, p)
    case Table(d, x) => d < |mem| && x < NENT && owner[d] == Dir && Present(mem[d][x]) && Addr(mem[d][x]) == p
    case Frame(d, v) => d < |mem| && v < USER && owner[d] == Dir && Mapped(mem, d, v) && Addr(Pte(mem, d, v)) == p
    case _ => true
  }

  predicate Inv(mem: Mem, owner: seq<Owner>) {
    |mem| == |owner| && forall p :: 0 <= p < |mem| ==> OwnerOk(mem, owner, p)
  }

  /** Two address spaces, or two pages of one, never share a frame. */
  lemma {:induction false} NoSharing(mem: Mem, owner: seq<Owner>, d: nat, v: nat, e: nat, u: nat)
    requires Inv(mem, owner) && d < |mem| && e < |mem| && owner[d] == Dir && owner[e] == Dir && v < USER && u < USER
    requires Mapped(mem, d, v) && Mapped(mem, e, u) && Addr(Pte(mem, d, v)) == Addr(Pte(mem, e, u))
    ensures d == e && v == u
  {
    assert OwnerOk(mem, owner, d) && OwnerOk(mem, owner, e);
    assert FrameSlot(mem, owner, d, v) && FrameSlot(mem, owner, e, u);
  }

  // ------------------------------------------------------------------ frames

  predicate Structural(o: Owner) { o.Dir? || o.Table? }

  /** Directories and tables are as before. */
  predicate SameTables(mem: Mem, mem': Mem, owner: seq<Owner>)
    requires |mem| == |owner|
  {
    |mem'| == |mem| && forall p :: 0 <= p < |mem| && Structural(owner[p]) ==> mem'[p] == mem[p]
  }

  lemma {:induction false} SamePte(mem: Mem, mem': Mem, owner: seq<Owner>, d: nat, v: nat)
    requires Inv(mem, owner) && SameTables(mem, mem', owner) && d < |mem| && owner[d] == Dir && v < NVIRT
    ensures Pte(mem', d, v) == Pte(mem, d, v)
  {
    assert OwnerOk(mem, owner, d);
    assert TableSlot(mem, owner, d, X(v));
  }

  /** Pages that are neither directories nor tables may change hands between Free,
      Held and Kernel, and their contents may change at will. */
  predicate Loose(o: Owner) { o.Kernel? || o.Free? || o.Held? }

  lemma {:induction false} LooseKeeps(mem: Mem, owner: seq<Owner>, mem': Mem, owner': seq<Owner>)
    requires Inv(mem, owner) && SameTables(mem, mem', owner) && |owner'| == |owner|
    requires forall p :: 0 <= p < |owner| ==> owner'[p] == owner[p] || (Loose(owner[p]) && Loose(owner'[p]))
    ensures Inv(mem', owner')
    ensures forall d, v | 0 <= d < |mem| && owner[d] == Dir && 0 <= v < NVIRT :: Pte(mem', d, v) == Pte(mem, d, v)
  {
    forall d, v | 0 <= d < |mem| && owner[d] == Dir && 0 <= v < NVIRT
      ensures Pte(mem', d, v) == Pte(mem, d, v)
    {
      SamePte(mem, mem', owner, d, v);
    }
    forall p | 0 <= p < |mem|
      ensures OwnerOk(mem', owner', p)
    {
      assert OwnerOk(mem, owner, p);
      if owner[p] == Dir {
        forall x | 0 <= x < NENT
          ensures TableSlot(mem', owner', p, x)
        {
          assert TableSlot(mem, owner, p, x);
        }
        forall v | 0 <= v < USER
          ensures FrameSlot(mem', owner', p, v)
        {
          assert FrameSlot(mem, owner, p, v);
        }
      }
    }
  }

  /** Flat maps of all directories but d, and of d except at v, are as before. */
  predicate SameMaps(mem: Mem, mem': Mem, owner: seq<Owner>, d: nat, lo: nat, hi: nat)
    requires |mem| == |mem'| == |owner|
  {
    forall e, u | 0 <= e < |mem| && owner[e] == Dir && 0 <= u < NVIRT && !(e == d && lo <= u < hi) ::
      Pte(mem', e, u) == Pte(mem, e, u)
  }

  // ------------------------------------------------------- a new directory

  lemma {:induction false} NewDirKeeps(mem: Mem, owner: seq<Owner>, q: nat)
    requires Inv(mem, owner) && q < |mem| && Loose(owner[q]) && mem[q] == ZeroPage()
    ensures Inv(mem, owner[q := Dir])
    ensures forall v :: 0 <= v < NVIRT ==> Pte(mem, q, v) == 0
  {
    var owner' := owner[q := Dir];
    forall p | 0 <= p < |mem|
      ensures OwnerOk(mem, owner', p)
    {
      assert OwnerOk(mem, owner, p);
      if owner'[p] == Dir && p != q {
        OtherDir(mem, owner, mem, owner', p);
      }
    }
  }

  /** A directory none of whose pages changes hands and whose map is the same stays well formed. */
  lemma {:induction false} OtherDir(mem: Mem, owner: seq<Owner>, mem': Mem, owner': seq<Owner>, p: nat)
    requires |mem| == |mem'| == |owner| == |owner'| && p < |mem| && DirOk(mem, owner, p) && mem'[p] == mem[p]
    requires forall v :: 0 <= v < USER ==> Pte(mem', p, v) == Pte(mem, p, v)
    requires forall q :: 0 <= q < |mem| && (owner[q].Table? || owner[q].Frame?) && owner[q].dir == p ==>
             owner'[q] == owner[q]
    ensures DirOk(mem', owner', p)
  {
    forall x | 0 <= x < NENT
      ensures TableSlot(mem', owner', p, x)
    {
      assert TableSlot(mem, owner, p, x);
    }
    forall v | 0 <= v < USER
      ensures FrameSlot(mem', owner', p, v)
    {
      assert FrameSlot(mem, owner, p, v);
    }
  }

  // ----------------------------------------------------------- a page table

  function WithTable(mem: Mem, d: nat, x: nat, q: nat): Mem
    requires d < |mem| && x < NENT
  {
    mem[d := mem[d][x := Entry(q, PTE_W + PTE_U)]]
  }

  lemma {:induction false} TablePte(mem: Mem, owner: seq<Owner>, d: nat, x: nat, q: nat, e: nat, v: nat)
    requires Inv(mem, owner) && d < |mem| && e < |mem| && owner[d] == Dir && owner[e] == Dir && x < NENT && v < NVIRT
    requires !Present(mem[d][x]) && q < |mem| && owner[q] == Held && mem[q] == ZeroPage()
    ensures Pte(WithTable(mem, d, x, q), e, v) == Pte(mem, e, v)
  {
    assert OwnerOk(mem, owner, e);
    assert TableSlot(mem, owner, e, X(v));
  }

  lemma {:induction false} AddTableKeeps(mem: Mem, owner: seq<Owner>, d: nat, x: nat, q: nat)
    requires Inv(mem, owner) && d < |mem| && owner[d] == Dir && x < NENT && !Present(mem[d][x])
    requires q < |mem| && owner[q] == Held && mem[q] == ZeroPage()
    ensures Inv(WithTable(mem, d, x, q), owner[q := Table(d, x)])
    ensures SameMaps(mem, WithTable(mem, d, x, q), owner, d, 0, 0)
  {
    var mem', owner' := WithTable(mem, d, x, q), owner[q := Table(d, x)];
    forall e, v | 0 <= e < |mem| && owner[e] == Dir && 0 <= v < NVIRT
      ensures Pte(mem', e, v) == Pte(mem, e, v)
    {
      TablePte(mem, owner, d, x, q, e, v);
    }
    forall p | 0 <= p < |mem|
      ensures OwnerOk(mem', owner', p)
    {
      assert OwnerOk(mem, owner, p);
      if p == d {
        AddTableDir(mem, owner, d, x, q);
      } else if owner[p] == Dir {
        OtherDir(mem, owner, mem', owner', p);
      }
    }
  }

  lemma {:induction false} AddTableDir(mem: Mem, owner: seq<Owner>, d: nat, x: nat, q: nat)
    requires Inv(mem, owner) && d < |mem| && owner[d] == Dir && x < NENT && !Present(mem[d][x])
    requires q < |mem| && owner[q] == Held && mem[q] == ZeroPage()
    ensures DirOk(WithTable(mem, d, x, q), owner[q := Table(d, x)], d)
  {
    var mem', owner' := WithTable(mem, d, x, q), owner[q := Table(d, x)];
    assert OwnerOk(mem, owner, d);
    forall z | 0 <= z < NENT
      ensures TableSlot(mem', owner', d, z)
    {
      assert TableSlot(mem, owner, d, z);
    }
    forall v | 0 <= v < USER
      ensures FrameSlot(mem', owner', d, v)
    {
      assert FrameSlot(mem, owner, d, v);
      TablePte(mem, owner, d, x, q, d, v);
    }
  }

  // ------------------------------------------------------------- one entry

  /** *pte = w for virtual page v. */
  function WithPte(mem: Mem, d: nat, v: nat, w: nat): Mem
    requires d < |mem| && v < NVIRT && HasTable(mem, d, X(v))
  {
    var t := Addr(mem[d][X(v)]);
    mem[t := mem[t][Y(v) := w]]
  }

  lemma {:induction false} PteWrite(mem: Mem, owner: seq<Owner>, d: nat, v: nat, w: nat, e: nat, u: nat)
    requires Inv(mem, owner) && d < |mem| && e < |mem| && owner[d] == Dir && owner[e] == Dir && v < NVIRT && u < NVIRT
    requires HasTable(mem, d, X(v))
    ensures Pte(WithPte(mem, d, v, w), e, u) == if e == d && u == v then w else Pte(mem, e, u)
  {
    assert OwnerOk(mem, owner, d) && OwnerOk(mem, owner, e);
    assert TableSlot(mem, owner, d, X(v)) && TableSlot(mem, owner, e, X(u));
  }

  /** The flat map after one entry is written. */
  lemma {:induction false} PteWritten(mem: Mem, owner: seq<Owner>, d: nat, v: nat, w: nat)
    requires Inv(mem, owner) && d < |mem| && owner[d] == Dir && v < NVIRT && HasTable(mem, d, X(v))
    ensures Pte(WithPte(mem, d, v, w), d, v) == w
    ensures SameMaps(mem, WithPte(mem, d, v, w), owner, d, v, v + 1)
  {
    PteWrite(mem, owner, d, v, w, d, v);
    forall e, u | 0 <= e < |mem| && owner[e] == Dir && 0 <= u < NVIRT && !(e == d && v <= u < v + 1)
      ensures Pte(WithPte(mem, d, v, w), e, u) == Pte(mem, e, u)
    {
      PteWrite(mem, owner, d, v, w, e, u);
    }
  }

  /** Writing one entry keeps the invariant when the frame slot ends up owned. */
  lemma {:induction false} PteKeeps(mem: Mem, owner: seq<Owner>, d: nat, v: nat, w: nat, owner': seq<Owner>)
    requires Inv(mem, owner) && d < |mem| && owner[d] == Dir && v < NVIRT && HasTable(mem, d, X(v)) &&
             |owner'| == |owner|
    requires forall p :: 0 <= p < |mem| && owner'[p] != owner[p] ==>
                           && v < USER && (Loose(owner[p]) || owner[p] == Frame(d, v))
                           && (Loose(owner'[p]) || (owner'[p] == Frame(d, v) && Present(w) && Addr(w) == p))
    requires v < USER && Present(w) ==> Addr(w) < |mem| && owner'[Addr(w)] == Frame(d, v)
    requires forall p :: 0 <= p < |mem| && v < USER && owner'[p] == Frame(d, v) ==> Present(w) && Addr(w) == p
    ensures Inv(WithPte(mem, d, v, w), owner')
  {
    var mem' := WithPte(mem, d, v, w);
    PteWritten(mem, owner, d, v, w);
    var t := Addr(mem[d][X(v)]);
    assert OwnerOk(mem, owner, d) && TableSlot(mem, owner, d, X(v));
    forall p | 0 <= p < |mem|
      ensures OwnerOk(mem', owner', p)
    {
      assert OwnerOk(mem, owner, p);
      if owner[p] == Dir {
        if p == d {
          PteDir(mem, owner, d, v, w, owner');
        } else {
          OtherDir(mem, owner, mem', owner', p);
        }
      }
    }
  }

  lemma {:induction false} PteDir(mem: Mem, owner: seq<Owner>, d: nat, v: nat, w: nat, owner': seq<Owner>)
    requires Inv(mem, owner) && d < |mem| && owner[d] == Dir && v < NVIRT && HasTable(mem, d, X(v)) &&
             |owner'| == |owner|
    requires forall p :: 0 <= p < |mem| && owner'[p] != owner[p] ==> Loose(owner[p]) || owner[p] == Frame(d, v)
    requires v < USER && Present(w) ==> Addr(w) < |mem| && owner'[Addr(w)] == Frame(d, v)
    ensures DirOk(WithPte(mem, d, v, w), owner', d)
  {
    var mem' := WithPte(mem, d, v, w);
    PteWritten(mem, owner, d, v, w);
    assert OwnerOk(mem, owner, d) && TableSlot(mem, owner, d, X(v));
    forall x | 0 <= x < NENT
      ensures TableSlot(mem', owner', d, x)
    {
      assert TableSlot(mem, owner, d, x);
    }
    forall u | 0 <= u < USER
      ensures FrameSlot(mem', owner', d, u)
    {
      assert FrameSlot(mem, owner, d, u);
    }
  }

  /** A held page becomes the frame of user page v. */
  lemma {:induction false} MapUserKeeps(mem: Mem, owner: seq<Owner>, d: nat, v: nat, q: nat, perm: nat)
    requires Inv(mem, owner) && d < |mem| && owner[d] == Dir && v < USER && HasTable(mem, d, X(v)) && !Mapped(mem, d, v)
    requires q < |mem| && owner[q] == Held && perm < 4096
    ensures Inv(WithPte(mem, d, v, Entry(q, perm)), owner[q := Frame(d, v)])
  {
    forall p | 0 <= p < |mem|
      ensures owner[p] != Frame(d, v)
    {
      assert OwnerOk(mem, owner, p);
    }
    PteKeeps(mem, owner, d, v, Entry(q, perm), owner[q := Frame(d, v)]);
  }

  lemma {:induction false} MapKernelKeeps(mem: Mem, owner: seq<Owner>, d: nat, v: nat, w: nat)
    requires Inv(mem, owner) && d < |mem| && owner[d] == Dir && USER <= v < NVIRT && HasTable(mem, d, X(v))
    ensures Inv(WithPte(mem, d, v, w), owner)
  {
    PteKeeps(mem, owner, d, v, w, owner);
  }

  /** The frame of user page v is let go. */
  lemma {:induction false} UnmapKeeps(mem: Mem, owner: seq<Owner>, d: nat, v: nat)
    requires Inv(mem, owner) && d < |mem| && owner[d] == Dir && v < USER && Mapped(mem, d, v)
    ensures Addr(Pte(mem, d, v)) < |mem| && owner[Addr(Pte(mem, d, v))] == Frame(d, v) && HasTable(mem, d, X(v))
    ensures Inv(WithPte(mem, d, v, 0), owner[Addr(Pte(mem, d, v)) := Held])
  {
    assert OwnerOk(mem, owner, d) && FrameSlot(mem, owner, d, v);
    var q := Addr(Pte(mem, d, v));
    forall p | 0 <= p < |mem| && owner[p] == Frame(d, v)
      ensures p == q
    {
      assert OwnerOk(mem, owner, p);
    }
    PteKeeps(mem, owner, d, v, 0, owner[q := Held]);
  }

  // -------------------------------------------------- taking a directory apart

  predicate PartOf(o: Owner, d: nat) { (o.Table? || o.Frame?) && o.dir == d }

  /** d and everything it owns, handed to whom. */
  function Reassign(owner: seq<Owner>, d: nat, whom: Owner): (r: seq<Owner>)
    ensures |r| == |owner|
    ensures forall p :: 0 <= p < |owner| ==> r[p] == if p == d || PartOf(owner[p], d) then whom else owner[p]
  {
    seq(|owner|, p requires 0 <= p < |owner| => if p == d || PartOf(owner[p], d) then whom else owner[p])
  }

  lemma {:induction false} ReassignKeeps(mem: Mem, owner: seq<Owner>, d: nat)
    requires Inv(mem, owner) && d < |mem| && owner[d] == Dir
    ensures Inv(mem, Reassign(owner, d, Held))
  {
    var owner' := Reassign(owner, d, Held);
    forall p | 0 <= p < |mem|
      ensures OwnerOk(mem, owner', p)
    {
      assert OwnerOk(mem, owner, p);
      if owner'[p] == Dir {
        OtherDir(mem, owner, mem, owner', p);
      }
    }
  }
}

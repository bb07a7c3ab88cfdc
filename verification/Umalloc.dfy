/** The user-level allocator (umalloc.c): a circular, address-ordered, fully
    coalesced free list.  A Header* is counted in header-sized units, as C's
    pointer arithmetic counts it, so `p + p->s.size` is the end of block p. */
module Umalloc {
  import opened Common

  const HEADER := 8       // sizeof(Header)
  const MINUNITS := 4096  // morecore never asks for less
  const NULL := 0

  datatype Header = Header(ptr: nat, size: nat)

  // --------------------------------------------------------- request sizes

  /** malloc's `nunits`, with the 32-bit wrap of the sum it divides. */
  function Units(nbytes: nat): (n: nat)
    requires nbytes < U32
    ensures 1 <= n
  {
    (nbytes + HEADER - 1) % U32 / HEADER + 1
  }

  /** What morecore requests, in units. */
  function Grow(n: nat): nat { if n < MINUNITS then MINUNITS else n }

  /** The `int` that sbrk receives for `nu * sizeof(Header)`. */
  function SbrkArg(nu: nat): int {
    var w := nu * HEADER % U32;
    if w < 0x8000_0000 then w else w - U32
  }

  /** sbrk is asked for as many bytes as the new header will claim. */
  predicate Asked(nunits: nat) { SbrkArg(Grow(nunits)) == HEADER * Grow(nunits) }

  /** A request is served soundly when the block, less its header, holds nbytes
      and sbrk is asked for as many bytes as the new header will claim. */
  predicate Sound(nbytes: nat)
    requires nbytes < U32
  {
    HEADER * (Units(nbytes) - 1) >= nbytes && Asked(Units(nbytes))
  }

  /** Sound requests are exactly those of at most 2^31 - 16 bytes: above that the
      argument of sbrk turns negative (or 0), and above 2^32 - 8 the unit count
      itself wraps. */
  lemma {:induction false} SoundExactly(nbytes: nat)
    requires nbytes < U32
    ensures Sound(nbytes) <==> nbytes <= 0x7fff_fff0
  {
    if nbytes <= 0x7fff_fff0 {
      assert Units(nbytes) <= 0xfff_ffff;
    } else if nbytes <= U32 - HEADER {
      assert Units(nbytes) >= 0x1000_0000;
    } else {
      assert Units(nbytes) == 1;
    }
  }

  /** malloc(0xffffffff) asks for one unit, a bare header. */
  lemma {:induction false} WrappedRequest()
    ensures Units(0xffff_ffff) == 1 && !Sound(0xffff_ffff)
  {
  }

  // -------------------------------------------------------------- free list

  /** b follows a in the ring over the address set f: the next larger address,
      or, from the largest, back to the smallest (base). */
  ghost predicate Follows(f: set<nat>, base: nat, a: nat, b: nat) {
    if a < b then forall c :: c in f ==> !(a < c < b)
    else b == base && forall c :: c in f ==> c <= a
  }

  ghost predicate FreeOk(base: nat, mem: map<nat, Header>, f: set<nat>, a: nat) {
    && a in mem && base <= a && mem[a].ptr in f && Follows(f, base, a, mem[a].ptr)
    && (a != base ==> mem[a].size >= 1)
  }

  ghost predicate LiveOk(base: nat, mem: map<nat, Header>, a: nat) {
    a in mem && base < a && mem[a].size >= 1
  }

  /** Adjacent free blocks have been merged: a gap is left between any two. */
  ghost predicate Gap(mem: map<nat, Header>, a: nat, b: nat) {
    a in mem && a + mem[a].size < b
  }

  ghost predicate Covers(mem: map<nat, Header>, owner: map<nat, nat>, a: nat) {
    a in mem && forall x :: a <= x < a + mem[a].size ==> x in owner && owner[x] == a
  }

  ghost predicate OwnedOk(base: nat, mem: map<nat, Header>, f: set<nat>, live: set<nat>, owner: map<nat, nat>, x: nat)
    requires x in owner
  {
    && base < x && (owner[x] in f || owner[x] in live)
    && owner[x] in mem && owner[x] <= x < owner[x] + mem[owner[x]].size
  }

  /** f are the headers on the ring, live the allocated ones; owner sends every
      unit obtained from sbrk to the block that holds it. */
  ghost predicate Ring(base: nat, mem: map<nat, Header>, f: set<nat>, live: set<nat>, owner: map<nat, nat>) {
    && base > NULL && base in f && base in mem && mem[base].size == 0 && f !! live
    && (forall a {:trigger FreeOk(base, mem, f, a)} :: a in f ==> FreeOk(base, mem, f, a))
    && (forall a {:trigger LiveOk(base, mem, a)} :: a in live ==> LiveOk(base, mem, a))
    && (forall a {:trigger Covers(mem, owner, a)} :: a in f || a in live ==> Covers(mem, owner, a))
    && (forall x {:trigger OwnedOk(base, mem, f, live, owner, x)} :: x in owner ==>
       OwnedOk(base, mem, f, live, owner, x))
  }

  ghost predicate Coalesced(mem: map<nat, Header>, f: set<nat>) {
    forall a, b {:trigger Gap(mem, a, b)} :: a in f && b in f && a < b ==> Gap(mem, a, b)
  }

  /** The heap invariant. */
  ghost predicate Inv(base: nat, mem: map<nat, Header>, f: set<nat>, live: set<nat>, owner: map<nat, nat>) {
    Ring(base, mem, f, live, owner) && Coalesced(mem, f)
  }

  /** Two blocks, free or live, never overlap. */
  lemma {:induction false} Disjoint(base: nat, mem: map<nat, Header>, f: set<nat>, live: set<nat>,
        owner: map<nat, nat>, a: nat, b: nat)
    requires Ring(base, mem, f, live, owner) && (a in f || a in live) && (b in f || b in live) && a < b
    ensures a in mem && (a + mem[a].size <= b || b == base)
  {
    assert Covers(mem, owner, a) && Covers(mem, owner, b);
    assert b in f ==> FreeOk(base, mem, f, b);
    assert b in live ==> LiveOk(base, mem, b);
    assert b < a + mem[a].size ==> owner[b] == a;
    assert b != base ==> owner[b] == b;
  }

  /** The free list is one ring: a non-empty set of free headers closed under
      `ptr` is all of them. */
  lemma {:induction false} OneRing(base: nat, mem: map<nat, Header>, f: set<nat>, live: set<nat>, owner: map<nat, nat>,
        s: set<nat>)
    requires Ring(base, mem, f, live, owner)
    requires s <= f && s != {} && forall a :: a in s ==> Next(mem, a) in s
    ensures s == f
  {
    var a :| a in s;
    ReachesBase(base, mem, f, live, owner, s, a);
    forall m | m in f
      ensures m in s
    {
      InRing(base, mem, f, live, owner, s, m);
    }
  }

  lemma {:induction false} InRing(base: nat, mem: map<nat, Header>, f: set<nat>, live: set<nat>, owner: map<nat, nat>,
        s: set<nat>, m: nat)
    requires Ring(base, mem, f, live, owner) && m in f && base in s
    requires s <= f && forall a :: a in s ==> Next(mem, a) in s
    ensures m in s
    decreases m
  {
    assert FreeOk(base, mem, f, m);
    if m != base {
      var below := set c | c in f && c < m;
      assert base in below;
      var p := Greatest(below);
      assert FreeOk(base, mem, f, p);
      var q := Next(mem, p);
      assert q < m ==> q in below;
      InRing(base, mem, f, live, owner, s, p);
    }
  }

  ghost function Next(mem: map<nat, Header>, a: nat): nat {
    if a in mem then mem[a].ptr else NULL
  }

  lemma {:induction false} ReachesBase(base: nat, mem: map<nat, Header>, f: set<nat>, live: set<nat>,
        owner: map<nat, nat>, s: set<nat>, a: nat)
    requires Ring(base, mem, f, live, owner) && a in s
    requires s <= f && forall a :: a in s ==> Next(mem, a) in s
    ensures base in s
    decreases |Above(f, a)|
  {
    assert FreeOk(base, mem, f, a);
    var b := Next(mem, a);
    if b > a {
      AboveShrinks(f, a, b);
      ReachesBase(base, mem, f, live, owner, s, b);
    }
  }

  ghost function Above(f: set<nat>, a: nat): set<nat> {
    set c | c in f && c > a
  }

  lemma {:induction false} AboveShrinks(f: set<nat>, a: nat, b: nat)
    requires b in f && a < b
    ensures |Above(f, b)| < |Above(f, a)|
  {
    SubsetSize(Above(f, b) + {b}, Above(f, a));
  }

  lemma {:induction false} Greatest(s: set<nat>) returns (m: nat)
    requires s != {}
    ensures m in s && forall x :: x in s ==> x <= m
  {
    var y :| y in s;
    m := y;
    if s != {y} {
      var rest := Greatest(s - {y});
      assert forall x :: x in s ==> x == y || x in s - {y};
      m := if y > rest then y else rest;
    }
  }

  // ------------------------------------------------------- list operations

  /** p is where bp belongs: the last free header below it. */
  ghost predicate Before(base: nat, mem: map<nat, Header>, p: nat, bp: nat) {
    p in mem && p < bp && (bp < mem[p].ptr || mem[p].ptr == base)
  }

  /** Link a live block into the ring after p. */
  ghost function Linked(mem: map<nat, Header>, p: nat, bp: nat): (r: map<nat, Header>)
    requires p in mem && bp in mem
  {
    mem[bp := mem[bp].(ptr := mem[p].ptr)][p := mem[p].(ptr := bp)]
  }

  lemma {:induction false} LinkKeeps(base: nat, mem: map<nat, Header>, f: set<nat>, live: set<nat>,
        owner: map<nat, nat>, p: nat, bp: nat)
    requires Ring(base, mem, f, live, owner) && p in f && bp in live && Before(base, mem, p, bp)
    ensures bp in mem && Ring(base, Linked(mem, p, bp), f + {bp}, live - {bp}, owner)
  {
    assert LiveOk(base, mem, bp) && FreeOk(base, mem, f, p);
    var m, f1, live1 := Linked(mem, p, bp), f + {bp}, live - {bp};
    forall a | a in f1
      ensures FreeOk(base, m, f1, a)
    {
      assert a != bp ==> FreeOk(base, mem, f, a);
    }
    forall a | a in live1
      ensures LiveOk(base, m, a)
    {
      assert LiveOk(base, mem, a);
    }
    forall a | a in f1 || a in live1
      ensures Covers(m, owner, a)
    {
      assert Covers(mem, owner, a);
    }
    forall x | x in owner
      ensures OwnedOk(base, m, f1, live1, owner, x)
    {
      assert OwnedOk(base, mem, f, live, owner, x);
    }
  }

  /** Merge the free block b into the free block a that ends where b starts. */
  ghost function Merged(mem: map<nat, Header>, a: nat, b: nat): (r: map<nat, Header>)
    requires a in mem && b in mem
  {
    mem[a := Header(mem[b].ptr, mem[a].size + mem[b].size)]
  }

  ghost function Reowned(owner: map<nat, nat>, lo: nat, n: nat, h: nat): (r: map<nat, nat>) {
    map x | x in owner :: if lo <= x < lo + n then h else owner[x]
  }

  lemma {:induction false} MergeKeeps(base: nat, mem: map<nat, Header>, f: set<nat>, live: set<nat>,
        owner: map<nat, nat>, a: nat, b: nat)
    requires Ring(base, mem, f, live, owner) && a in f && b in f && a in mem && b in mem
    requires mem[a].ptr == b && a + mem[a].size == b && a != base
    ensures Ring(base, Merged(mem, a, b), f - {b}, live, Reowned(owner, b, mem[b].size, a))
    ensures Reowned(owner, b, mem[b].size, a).Keys == owner.Keys
  {
    assert FreeOk(base, mem, f, a) && FreeOk(base, mem, f, b) && Covers(mem, owner, b);
    var m, f1, owner1 := Merged(mem, a, b), f - {b}, Reowned(owner, b, mem[b].size, a);
    forall c | c in f1
      ensures FreeOk(base, m, f1, c)
    {
      assert FreeOk(base, mem, f, c);
      if c != a {
        PtrInjective(base, mem, f, live, owner, a, c);
      }
    }
    forall c | c in live
      ensures LiveOk(base, m, c)
    {
      assert LiveOk(base, mem, c);
    }
    forall c | c in f1 || c in live
      ensures Covers(m, owner1, c)
    {
      assert Covers(mem, owner, c);
    }
    forall x | x in owner1
      ensures OwnedOk(base, m, f1, live, owner1, x)
    {
      assert OwnedOk(base, mem, f, live, owner, x);
    }
  }

  /** Only one free header points to any other. */
  lemma {:induction false} PtrInjective(base: nat, mem: map<nat, Header>, f: set<nat>, live: set<nat>,
        owner: map<nat, nat>, a: nat, c: nat)
    requires Ring(base, mem, f, live, owner) && a in f && c in f && a != c
    ensures a in mem && c in mem && mem[a].ptr != mem[c].ptr
  {
    assert FreeOk(base, mem, f, a) && FreeOk(base, mem, f, c);
  }

  /** Where free leaves the list: bp linked after p, then merged with the
      block above and the block below if it touches them. */
  ghost function FreedMem(mem: map<nat, Header>, p: nat, bp: nat): (r: map<nat, Header>)
    requires p in mem && bp in mem && mem[p].ptr in mem && p != bp
  {
    var m1 := Linked(mem, p, bp);
    var q := mem[p].ptr;
    var m2 := if bp + mem[bp].size == q then Merged(m1, bp, q) else m1;
    if p + mem[p].size == bp then Merged(m2, p, bp) else m2
  }

  ghost function FreedSet(mem: map<nat, Header>, f: set<nat>, p: nat, bp: nat): (r: set<nat>)
    requires p in mem && bp in mem
  {
    var q := mem[p].ptr;
    f + {bp} - (if bp + mem[bp].size == q then {q} else {}) - (if p + mem[p].size == bp then {bp} else {})
  }

  ghost function FreedOwner(mem: map<nat, Header>, owner: map<nat, nat>, p: nat, bp: nat): (r: map<nat, nat>)
    requires p in mem && bp in mem && mem[p].ptr in mem
    ensures r.Keys == owner.Keys
  {
    var q := mem[p].ptr;
    var up := if bp + mem[bp].size == q then mem[q].size else 0;
    var o1 := Reowned(owner, q, up, bp);
    if p + mem[p].size == bp then Reowned(o1, bp, mem[bp].size + up, p) else o1
  }

  /** free keeps the ring, loses no unit and leaves every other block alone. */
  lemma {:induction false} FreeRing(base: nat, mem: map<nat, Header>, f: set<nat>, live: set<nat>,
        owner: map<nat, nat>, p: nat, bp: nat)
    requires Ring(base, mem, f, live, owner) && p in f && bp in live && Before(base, mem, p, bp)
    ensures p in mem && bp in mem && mem[p].ptr in mem
    ensures Ring(base, FreedMem(mem, p, bp), FreedSet(mem, f, p, bp), live - {bp}, FreedOwner(mem, owner, p, bp))
  {
    assert LiveOk(base, mem, bp) && FreeOk(base, mem, f, p) && FreeOk(base, mem, f, mem[p].ptr);
    var q, m1, f1, l1 := mem[p].ptr, Linked(mem, p, bp), f + {bp}, live - {bp};
    LinkKeeps(base, mem, f, live, owner, p, bp);
    var m2, f2, o2 := m1, f1, owner;
    if bp + mem[bp].size == q {
      MergeKeeps(base, m1, f1, l1, owner, bp, q);
      m2, f2, o2 := Merged(m1, bp, q), f1 - {q}, Reowned(owner, q, mem[q].size, bp);
    } else {
      assert Reowned(owner, q, 0, bp) == owner;
    }
    assert o2 == Reowned(owner, q, if bp + mem[bp].size == q then mem[q].size else 0, bp);
    if p + mem[p].size == bp {
      MergeKeeps(base, m2, f2, l1, o2, p, bp);
      assert FreedSet(mem, f, p, bp) == f2 - {bp};
    } else {
      assert FreedSet(mem, f, p, bp) == f2;
    }
  }

  /** free leaves no two free blocks touching. */
  lemma {:induction false} FreeCoalesces(base: nat, mem: map<nat, Header>, f: set<nat>, live: set<nat>,
        owner: map<nat, nat>, p: nat, bp: nat)
    requires Inv(base, mem, f, live, owner) && p in f && bp in live && Before(base, mem, p, bp)
    requires p in mem && bp in mem && mem[p].ptr in mem
    ensures Coalesced(FreedMem(mem, p, bp), FreedSet(mem, f, p, bp))
  {
    var q, m, g := mem[p].ptr, FreedMem(mem, p, bp), FreedSet(mem, f, p, bp);
    assert FreeOk(base, mem, f, p) && FreeOk(base, mem, f, q) && LiveOk(base, mem, bp);
    Disjoint(base, mem, f, live, owner, p, bp);
    if bp < q {
      Disjoint(base, mem, f, live, owner, bp, q);
    }
    forall a, b | a in g && b in g && a < b
      ensures Gap(m, a, b)
    {
      if b == bp {
        assert a < p ==> Gap(mem, a, p);
      } else if a == bp || a == p {
        assert q <= b;
        assert q < b ==> Gap(mem, q, b);
        assert Gap(mem, p, b);
      } else {
        assert Gap(mem, a, b);
      }
    }
  }

  /** malloc's exact fit: unlink p from after prevp. */
  lemma {:induction false} UnlinkKeeps(base: nat, mem: map<nat, Header>, f: set<nat>, live: set<nat>,
        owner: map<nat, nat>, prevp: nat, p: nat)
    requires Inv(base, mem, f, live, owner) && prevp in f && p in f && p != base && p in mem
    requires prevp in mem && mem[prevp].ptr == p
    ensures prevp != p
    ensures Inv(base, mem[prevp := mem[prevp].(ptr := mem[p].ptr)], f - {p}, live + {p}, owner)
  {
    assert FreeOk(base, mem, f, prevp) && FreeOk(base, mem, f, p);
    var m, f1, l1 := mem[prevp := mem[prevp].(ptr := mem[p].ptr)], f - {p}, live + {p};
    forall a | a in f1
      ensures FreeOk(base, m, f1, a)
    {
      assert FreeOk(base, mem, f, a);
      if a != prevp {
        PtrInjective(base, mem, f, live, owner, a, prevp);
      }
    }
    forall a, b | a in f1 && b in f1 && a < b
      ensures Gap(m, a, b)
    {
      assert Gap(mem, a, b);
    }
    forall a | a in l1
      ensures LiveOk(base, m, a)
    {
      assert a != p ==> LiveOk(base, mem, a);
    }
    forall a | a in f1 || a in l1
      ensures Covers(m, owner, a)
    {
      assert Covers(mem, owner, a);
    }
    forall x | x in owner
      ensures OwnedOk(base, m, f1, l1, owner, x)
    {
      assert OwnedOk(base, mem, f, live, owner, x);
    }
  }

  /** malloc's split: the last n units of p become a block of their own. */
  ghost function Carved(mem: map<nat, Header>, p: nat, n: nat, stale: nat): (r: map<nat, Header>)
    requires p in mem && n <= mem[p].size
  {
    mem[p := mem[p].(size := mem[p].size - n)][p + mem[p].size - n := Header(stale, n)]
  }

  lemma {:induction false} CarveKeeps(base: nat, mem: map<nat, Header>, f: set<nat>, live: set<nat>,
        owner: map<nat, nat>, p: nat, n: nat, stale: nat)
    requires Inv(base, mem, f, live, owner) && p in f && p in mem && 1 <= n < mem[p].size
    ensures var q := p + mem[p].size - n;
            && q !in f && q !in live
            && Inv(base, Carved(mem, p, n, stale), f, live + {q}, Reowned(owner, q, n, q))
            && Reowned(owner, q, n, q).Keys == owner.Keys
  {
    var q, m := p + mem[p].size - n, Carved(mem, p, n, stale);
    var l1, o1 := live + {q}, Reowned(owner, q, n, q);
    CarveFresh(base, mem, f, live, owner, p, q);
    CarveOwned(base, mem, f, live, owner, p, n, stale);
    forall a | a in f
      ensures FreeOk(base, m, f, a)
    {
      assert FreeOk(base, mem, f, a);
    }
    forall a, b | a in f && b in f && a < b
      ensures Gap(m, a, b)
    {
      assert Gap(mem, a, b) && a != q;
    }
    forall a | a in l1
      ensures LiveOk(base, m, a)
    {
      assert a != q ==> LiveOk(base, mem, a);
      assert FreeOk(base, mem, f, p);
    }
    assert f !! l1;
  }

  lemma {:induction false} CarveFresh(base: nat, mem: map<nat, Header>, f: set<nat>, live: set<nat>,
        owner: map<nat, nat>, p: nat, q: nat)
    requires Ring(base, mem, f, live, owner) && p in f && p in mem && p < q < p + mem[p].size
    ensures q !in f && q !in live
  {
    assert Covers(mem, owner, p) && FreeOk(base, mem, f, p);
    assert q in owner && owner[q] == p;
    assert q in f || q in live ==> Covers(mem, owner, q);
    assert q in f ==> FreeOk(base, mem, f, q);
    assert q in live ==> LiveOk(base, mem, q);
  }

  lemma {:induction false} CarveOwned(base: nat, mem: map<nat, Header>, f: set<nat>, live: set<nat>,
        owner: map<nat, nat>, p: nat, n: nat, stale: nat)
    requires Ring(base, mem, f, live, owner) && p in f && p in mem && 1 <= n < mem[p].size
    ensures var q := p + mem[p].size - n;
            var m, l1, o1 := Carved(mem, p, n, stale), live + {q}, Reowned(owner, q, n, q);
            && (forall a {:trigger Covers(m, o1, a)} :: a in f || a in l1 ==> Covers(m, o1, a))
            && (forall x {:trigger OwnedOk(base, m, f, l1, o1, x)} :: x in o1 ==> OwnedOk(base, m, f, l1, o1, x))
  {
    var q := p + mem[p].size - n;
    var m, l1, o1 := Carved(mem, p, n, stale), live + {q}, Reowned(owner, q, n, q);
    CarveFresh(base, mem, f, live, owner, p, q);
    forall a | a in f || a in l1
      ensures Covers(m, o1, a)
    {
      CarveCovers(base, mem, f, live, owner, p, n, stale, a);
    }
    forall x | x in o1
      ensures OwnedOk(base, m, f, l1, o1, x)
    {
      CarveOwner(base, mem, f, live, owner, p, n, stale, x);
    }
  }

  lemma {:induction false} CarveOwner(base: nat, mem: map<nat, Header>, f: set<nat>, live: set<nat>,
        owner: map<nat, nat>, p: nat, n: nat, stale: nat, x: nat)
    requires Ring(base, mem, f, live, owner) && p in f && p in mem && 1 <= n < mem[p].size
    requires x in owner && p + mem[p].size - n !in f && p + mem[p].size - n !in live
    ensures var q := p + mem[p].size - n;
            OwnedOk(base, Carved(mem, p, n, stale), f, live + {q}, Reowned(owner, q, n, q), x)
  {
    assert Covers(mem, owner, p) && FreeOk(base, mem, f, p);
    assert OwnedOk(base, mem, f, live, owner, x);
  }

  lemma {:induction false} CarveCovers(base: nat, mem: map<nat, Header>, f: set<nat>, live: set<nat>,
        owner: map<nat, nat>, p: nat, n: nat, stale: nat, a: nat)
    requires Ring(base, mem, f, live, owner) && p in f && p in mem && 1 <= n < mem[p].size
    requires a in f || a in live || a == p + mem[p].size - n
    ensures Covers(Carved(mem, p, n, stale), Reowned(owner, p + mem[p].size - n, n, p + mem[p].size - n), a)
  {
    var q := p + mem[p].size - n;
    CarveFresh(base, mem, f, live, owner, p, q);
    var m, o1 := Carved(mem, p, n, stale), Reowned(owner, q, n, q);
    assert Covers(mem, owner, p);
    assert a != q ==> Covers(mem, owner, a);
    assert a in m;
    forall x | a <= x < a + m[a].size
      ensures x in o1 && o1[x] == a
    {
      assert q <= x < q + n ==> x in owner && owner[x] == p;
    }
  }

  /** A fresh region from sbrk, as morecore hands it to free. */
  ghost function Extended(owner: map<nat, nat>, p: nat, n: nat): (r: map<nat, nat>)
    ensures forall x :: x in r <==> x in owner || p <= x < p + n
    ensures forall x :: x in r ==> r[x] == if p <= x < p + n then p else owner[x]
  {
    map x | x in owner.Keys + Range(p, n) :: if p <= x < p + n then p else owner[x]
  }

  ghost function Range(p: nat, n: nat): (r: set<nat>)
    ensures forall x :: x in r <==> p <= x < p + n
  {
    if n == 0 then {} else Range(p, n - 1) + {p + n - 1}
  }

  lemma {:induction false} ObtainFresh(base: nat, mem: map<nat, Header>, f: set<nat>, live: set<nat>,
        owner: map<nat, nat>, p: nat)
    requires Ring(base, mem, f, live, owner) && base < p && p !in owner
    ensures p !in f && p !in live
  {
    assert p in f || p in live ==> Covers(mem, owner, p);
    assert p in f ==> FreeOk(base, mem, f, p);
    assert p in live ==> LiveOk(base, mem, p);
  }

  lemma {:induction false} ObtainOwned(base: nat, mem: map<nat, Header>, f: set<nat>, live: set<nat>,
        owner: map<nat, nat>, p: nat, n: nat, stale: nat)
    requires Ring(base, mem, f, live, owner) && n >= 1 && base < p && p !in f && p !in live
    requires forall x :: p <= x < p + n ==> x !in owner
    ensures var m, l1, o1 := mem[p := Header(stale, n)], live + {p}, Extended(owner, p, n);
            && (forall a {:trigger Covers(m, o1, a)} :: a in f || a in l1 ==> Covers(m, o1, a))
            && (forall x {:trigger OwnedOk(base, m, f, l1, o1, x)} :: x in o1 ==> OwnedOk(base, m, f, l1, o1, x))
  {
    var m, l1, o1 := mem[p := Header(stale, n)], live + {p}, Extended(owner, p, n);
    forall a | a in f || a in l1
      ensures Covers(m, o1, a)
    {
      if a != p {
        assert Covers(mem, owner, a);
        forall x | a <= x < a + m[a].size
          ensures x in o1 && o1[x] == a
        {
          assert m[a] == mem[a] && x in owner && owner[x] == a;
        }
      }
    }
    forall x | x in o1
      ensures OwnedOk(base, m, f, l1, o1, x)
    {
      assert x in owner ==> OwnedOk(base, mem, f, live, owner, x);
    }
  }

  lemma {:induction false} ObtainKeeps(base: nat, mem: map<nat, Header>, f: set<nat>, live: set<nat>,
        owner: map<nat, nat>, p: nat, n: nat, stale: nat)
    requires Inv(base, mem, f, live, owner) && n >= 1 && base < p
    requires forall x :: p <= x < p + n ==> x !in owner
    ensures p !in f && p !in live
    ensures Inv(base, mem[p := Header(stale, n)], f, live + {p}, Extended(owner, p, n))
  {
    var m, l1 := mem[p := Header(stale, n)], live + {p};
    ObtainFresh(base, mem, f, live, owner, p);
    ObtainOwned(base, mem, f, live, owner, p, n, stale);
    forall a | a in f
      ensures FreeOk(base, m, f, a)
    {
      assert FreeOk(base, mem, f, a);
    }
    forall a, b | a in f && b in f && a < b
      ensures Gap(m, a, b)
    {
      assert Gap(mem, a, b) && a != p;
    }
    forall a | a in l1
      ensures LiveOk(base, m, a)
    {
      assert a != p ==> LiveOk(base, mem, a);
    }
    assert f !! l1;
  }

  // ---------------------------------------------------------- the allocator

  ghost function Between(f: set<nat>, a: nat, b: nat): set<nat> {
    set c | c in f && a < c < b
  }

  /** Free headers on the way from p round to stop, both included. */
  ghost function Path(f: set<nat>, p: nat, stop: nat): set<nat> {
    set c | c in f && if p <= stop then p <= c <= stop else p <= c || c <= stop
  }

  /** Moving on from p shortens the way to stop by exactly p. */
  lemma {:induction false} PathStep(base: nat, mem: map<nat, Header>, f: set<nat>, live: set<nat>,
        owner: map<nat, nat>, p: nat, stop: nat)
    requires Ring(base, mem, f, live, owner) && p in f && stop in f && p in mem && p != stop
    ensures Path(f, mem[p].ptr, stop) == Path(f, p, stop) - {p}
    ensures |Path(f, mem[p].ptr, stop)| < |Path(f, p, stop)|
  {
    assert FreeOk(base, mem, f, p);
    assert forall c :: c in f ==> base <= c by {
      forall c | c in f ensures base <= c { assert FreeOk(base, mem, f, c); }
    }
    assert p in Path(f, p, stop);
    assert Path(f, mem[p].ptr, stop) == Path(f, p, stop) - {p};
  }

  /** From the header after stop, the way round is the whole ring. */
  lemma {:induction false} FullPath(base: nat, mem: map<nat, Header>, f: set<nat>, live: set<nat>,
        owner: map<nat, nat>, stop: nat)
    requires Ring(base, mem, f, live, owner) && stop in f && stop in mem
    ensures Path(f, mem[stop].ptr, stop) == f
  {
    assert FreeOk(base, mem, f, stop);
    assert forall c :: c in f ==> base <= c by {
      forall c | c in f ensures base <= c { assert FreeOk(base, mem, f, c); }
    }
  }

  class Heap {
    const base: nat
    var mem: map<nat, Header>
    var freep: nat
    ghost var free: set<nat>
    ghost var live: set<nat>
    ghost var owner: map<nat, nat>

    ghost predicate Valid()
      reads this
    {
      && base > NULL
      && if freep == NULL then live == {} && owner == map[]
         else Inv(base, mem, free, live, owner) && freep in free
    }

    constructor (base: nat)
      requires base > NULL
      ensures Valid() && live == {} && owner == map[] && this.base == base
    {
      this.base, mem, freep, free, live, owner := base, map[], NULL, {}, {}, map[];
    }

    /** free: the block joins the ring, merged with the free blocks it touches.
        No unit is lost and no other live block changes. */
    method Free(ap: nat)
      requires Valid() && ap > 0 && ap - 1 in live
      modifies this`mem, this`freep, this`free, this`owner, this`live
      ensures Valid() && freep != NULL
      ensures live == old(live) - {ap - 1} && owner.Keys == old(owner).Keys
      ensures forall h :: h in live ==> h in mem && h in old(mem) && mem[h] == old(mem)[h]
      ensures ap - 1 in owner && owner[ap - 1] in free
      ensures ap - 1 in old(mem) && owner[ap - 1] in mem &&
              ap - 1 + old(mem)[ap - 1].size <= owner[ap - 1] + mem[owner[ap - 1]].size
    {
      var bp := ap - 1;
      var p := FindPlace(bp);
      FreeRing(base, mem, free, live, owner, p, bp);
      FreeCoalesces(base, mem, free, live, owner, p, bp);
      FreeFacts(base, mem, free, live, owner, p, bp);
      LinkAndMerge(p, bp);
      freep := p;
      free, owner, live := FreedSet(old(mem), free, p, bp), FreedOwner(old(mem), owner, p, bp), live - {bp};
    }

    /** free's search, from freep round the ring; it always ends. */
    method FindPlace(bp: nat) returns (p: nat)
      requires Valid() && bp in live
      ensures p in free && p in mem && Before(base, mem, p, bp) && base <= p
      ensures bp in mem && mem[bp].size >= 1
    {
      assert LiveOk(base, mem, bp) && FreeOk(base, mem, free, freep);
      p := freep;
      while !(bp > p && bp < mem[p].ptr)
        invariant p in free && p in mem
        decreases if p < bp then |Between(free, p, bp)| else |free| + 1 + |Above(free, p)|
      {
        assert FreeOk(base, mem, free, p) && FreeOk(base, mem, free, mem[p].ptr);
        if p >= mem[p].ptr && (bp > p || bp < mem[p].ptr) {
          return;
        }
        SearchProgress(base, mem, free, live, owner, p, bp);
        p := mem[p].ptr;
      }
    }

    /** The end of free, as written: fix up bp against the block above, then p
        against bp. */
    method LinkAndMerge(p: nat, bp: nat)
      requires p in mem && bp in mem && mem[p].ptr in mem && p < bp && mem[bp].size >= 1
      modifies this`mem
      ensures mem == FreedMem(old(mem), p, bp)
    {
      var q := mem[p].ptr;
      if bp + mem[bp].size == q {
        mem := mem[bp := mem[bp].(size := mem[bp].size + mem[q].size)];
        mem := mem[bp := mem[bp].(ptr := mem[q].ptr)];
      } else {
        mem := mem[bp := mem[bp].(ptr := q)];
      }
      ghost var m2 := mem[p := mem[p].(ptr := bp)];
      if p + mem[p].size == bp {
        mem := mem[p := mem[p].(size := mem[p].size + mem[bp].size)];
        mem := mem[p := mem[p].(ptr := mem[bp].ptr)];
        assert mem == Merged(m2, p, bp);
      } else {
        mem := mem[p := mem[p].(ptr := bp)];
      }
      ghost var m1 := Linked(old(mem), p, bp);
      assert m2 == if bp + old(mem)[bp].size == q then Merged(m1, bp, q) else m1;
    }

    /** morecore: one call of sbrk, whose result is `grown`. */
    method Morecore(nunits: nat, grown: Option<nat>) returns (r: nat)
      requires Valid() && freep != NULL && nunits >= 1
      requires grown.Some? ==> SbrkFresh(grown.value, Grow(nunits))
      modifies this`mem, this`freep, this`free, this`owner, this`live
      ensures Valid() && live == old(live) && freep != NULL
      ensures r == if grown.None? then NULL else freep
      ensures grown.None? ==> mem == old(mem) && freep == old(freep) && free == old(free) && owner == old(owner)
      ensures grown.Some? ==>
                && owner.Keys == old(owner).Keys + Range(grown.value, Grow(nunits))
                && (exists w :: w in free && w in mem && mem[w].size >= nunits)
      ensures forall h :: h in live ==> h in mem && h in old(mem) && mem[h] == old(mem)[h]
      ensures forall x :: x in old(owner) && x in owner && owner[x] in free ==> old(owner)[x] !in live
    {
      var nu := if nunits < MINUNITS then MINUNITS else nunits;
      assert forall h :: h in live ==> LiveOk(base, mem, h);
      if grown.None? {
        LiveStays(base, mem, free, live, owner, mem, free, owner);
        return NULL;
      }
      var hp := grown.value;
      ObtainKeeps(base, mem, free, live, owner, hp, nu, StalePtr(hp));
      mem := mem[hp := Header(StalePtr(hp), nu)];
      owner := Extended(owner, hp, nu);
      live := live + {hp};
      Free(hp + 1);
      assert old(live) + {hp} - {hp} == old(live);
      assert OwnedOk(base, mem, free, live, owner, hp);
      LiveStays(base, old(mem), old(free), live, old(owner), mem, free, owner);
      return freep;
    }

    /** malloc.  On success the header in front of the result is a new live block
        of exactly nunits units, none of them in a block that was live before;
        no live block changes, and the only units gained are those of the one
        sbrk call, made only if no free block was large enough.  grown is what sbrk
        gives.  Asked for a number of bytes that is not what the new header claims, sbrk
        gives no fresh units, and the model stops (wild); no request up to 2^31 - 16
        bytes gets there, and each of those that succeeds gets room for its bytes. */
    method Malloc(nbytes: nat, grown: Option<nat>) returns (r: nat, called: bool, wild: bool)
      requires Valid() && nbytes < U32
      requires grown.Some? && Asked(Units(nbytes)) ==> SbrkFresh(grown.value, Grow(Units(nbytes)))
      modifies this`mem, this`freep, this`free, this`owner, this`live
      ensures Valid() && freep != NULL
      ensures wild <==> called && grown.Some? && !Asked(Units(nbytes))
      ensures wild ==> r == NULL && nbytes > 0x7fff_fff0
      ensures r == NULL ==> called && (grown.None? || wild) && live == old(live) && owner == old(owner)
      ensures owner.Keys == old(owner).Keys +
                (if called && grown.Some? && !wild then Range(grown.value, Grow(Units(nbytes))) else {})
      ensures called <==> forall a :: a in old(free) && old(freep) != NULL ==>
                a in old(mem) && old(mem)[a].size < Units(nbytes)
      ensures r != NULL ==>
                && r - 1 !in old(live) && live == old(live) + {r - 1}
                && r - 1 in mem && mem[r - 1].size == Units(nbytes)
                && forall x :: r - 1 <= x < r - 1 + Units(nbytes) ==>
                     x in owner && owner[x] == r - 1 && (x in old(owner) ==> old(owner)[x] !in old(live))
      ensures r != NULL && nbytes <= 0x7fff_fff0 ==> HEADER * (mem[r - 1].size - 1) >= nbytes
      ensures forall h :: h in old(live) ==> h in mem && h in old(mem) && mem[h] == old(mem)[h]
    {
      SoundExactly(nbytes);
      assert forall h :: h in live && freep != NULL ==> LiveOk(base, mem, h);
      assert forall a :: a in free && freep != NULL ==> FreeOk(base, mem, free, a);
      if freep == NULL {
        Start();
      }
      r, called, wild := FirstFit(Units(nbytes), grown);
    }

    /** malloc once the ring exists. */
    method FirstFit(nunits: nat, grown: Option<nat>) returns (r: nat, called: bool, wild: bool)
      requires Valid() && freep != NULL && nunits >= 1
      requires grown.Some? && Asked(nunits) ==> SbrkFresh(grown.value, Grow(nunits))
      modifies this`mem, this`freep, this`free, this`owner, this`live
      ensures Valid() && freep != NULL
      ensures wild <==> called && grown.Some? && !Asked(nunits)
      ensures wild ==> r == NULL
      ensures r == NULL ==> called && (grown.None? || wild) && live == old(live) && owner == old(owner)
      ensures owner.Keys == old(owner).Keys +
                (if called && grown.Some? && !wild then Range(grown.value, Grow(nunits)) else {})
      ensures called <==> forall a :: a in old(free) ==> a in old(mem) && old(mem)[a].size < nunits
      ensures r != NULL ==>
                && r - 1 !in old(live) && live == old(live) + {r - 1} && r - 1 in mem && mem[r - 1].size == nunits
                && forall x :: r - 1 <= x < r - 1 + nunits ==>
                     x in owner && owner[x] == r - 1 && (x in old(owner) ==> old(owner)[x] !in old(live))
      ensures forall h :: h in old(live) ==> h in mem && h in old(mem) && mem[h] == old(mem)[h]
    {
      called, wild := false, false;
      var found, prevp, p := Scan(nunits);
      assert forall h :: h in live ==> LiveOk(base, mem, h);
      if !found {
        called := true;
        if grown.Some? && !Asked(nunits) {
          return NULL, true, true;
        }
        var q := Morecore(nunits, grown);
        if q == NULL {
          return NULL, true, false;
        }
        found, prevp, p := Scan(nunits);
      }
      r := Take(prevp, p, nunits);
    }

    /** One lap of malloc's loop, from freep->ptr up to and including freep.
        morecore ends a lap and its result, freep, begins the next. */
    method Scan(nunits: nat) returns (found: bool, prevp: nat, p: nat)
      requires Valid() && freep != NULL
      ensures prevp in free && prevp in mem && p == mem[prevp].ptr && p in free && p in mem
      ensures found ==> mem[p].size >= nunits
      ensures !found ==> forall a :: a in free ==> a in mem && mem[a].size < nunits
    {
      prevp := freep;
      assert FreeOk(base, mem, free, prevp) && FreeOk(base, mem, free, mem[prevp].ptr);
      FullPath(base, mem, free, live, owner, prevp);
      p := mem[prevp].ptr;
      while mem[p].size < nunits
        invariant prevp in free && prevp in mem && p == mem[prevp].ptr && p in free && p in mem
        invariant forall a :: a in free && a !in Path(free, p, freep) ==> a in mem && mem[a].size < nunits
        decreases |Path(free, p, freep)|
      {
        assert FreeOk(base, mem, free, p) && FreeOk(base, mem, free, mem[p].ptr);
        if p == freep {
          assert Path(free, p, freep) == {p};
          return false, prevp, p;
        }
        PathStep(base, mem, free, live, owner, p, freep);
        prevp, p := p, mem[p].ptr;
      }
      found := true;
    }

    /** malloc's first call: an empty ring at base. */
    method Start()
      requires Valid() && freep == NULL
      modifies this`mem, this`freep, this`free
      ensures Valid() && freep != NULL && free == {base} && base in mem && mem[base].size == 0
    {
      mem := mem[base := Header(base, 0)];
      freep := base;
      free := {base};
    }

    /** malloc's success case: take n units from the end of p, or p itself. */
    method Take(prevp: nat, p: nat, n: nat) returns (r: nat)
      requires Valid() && freep != NULL && prevp in free && p in free && prevp in mem && p in mem
      requires mem[prevp].ptr == p && 1 <= n <= mem[p].size
      modifies this`mem, this`freep, this`free, this`owner, this`live
      ensures Valid() && freep != NULL && r != NULL && owner.Keys == old(owner).Keys
      ensures r - 1 !in old(live) && live == old(live) + {r - 1} && r - 1 in mem && mem[r - 1].size == n
      ensures forall x :: r - 1 <= x < r - 1 + n ==>
                x in owner && owner[x] == r - 1 && x in old(owner) && old(owner)[x] == p
      ensures forall h :: h in old(live) ==> h in mem && h in old(mem) && mem[h] == old(mem)[h]
    {
      assert FreeOk(base, mem, free, prevp) && Covers(mem, owner, p);
      assert forall h :: h in live ==> LiveOk(base, mem, h);
      if mem[p].size == n {
        UnlinkKeeps(base, mem, free, live, owner, prevp, p);
        mem := mem[prevp := mem[prevp].(ptr := mem[p].ptr)];
        free, live := free - {p}, live + {p};
        r := p + 1;
      } else {
        var q := p + mem[p].size - n;
        CarveKeeps(base, mem, free, live, owner, p, n, StalePtr(q));
        mem := mem[p := mem[p].(size := mem[p].size - n)];
        mem := mem[q := Header(StalePtr(q), n)];
        live, owner := live + {q}, Reowned(owner, q, n, q);
        r := q + 1;
      }
      freep := prevp;
    }

    /** The region sbrk returns is new: outside everything obtained so far. */
    ghost predicate SbrkFresh(p: nat, n: nat)
      reads this
    {
      base < p && forall x :: p <= x < p + n ==> x !in owner
    }

    /** What the ptr field of a header not yet written happens to hold. */
    function StalePtr(p: nat): nat
      reads this
    {
      if p in mem then mem[p].ptr else NULL
    }
  }

  /** free's search: a step that does not stop gets closer. */
  lemma {:induction false} SearchProgress(base: nat, mem: map<nat, Header>, f: set<nat>, live: set<nat>,
        owner: map<nat, nat>, p: nat, bp: nat)
    requires Ring(base, mem, f, live, owner) && p in f && bp in live && p in mem && mem[p].ptr in mem
    requires !(p < bp < mem[p].ptr) && !(p >= mem[p].ptr && (bp > p || bp < mem[p].ptr))
    ensures var q := mem[p].ptr;
            (if q < bp then |Between(f, q, bp)| else |f| + 1 + |Above(f, q)|) <
            (if p < bp then |Between(f, p, bp)| else |f| + 1 + |Above(f, p)|)
  {
    var q := mem[p].ptr;
    assert FreeOk(base, mem, f, p) && LiveOk(base, mem, bp);
    if p < bp {
      assert bp !in f && p < q < bp;
      SubsetSize(Between(f, q, bp) + {q}, Between(f, p, bp));
    } else if p < q {
      AboveShrinks(f, p, q);
    } else {
      SubsetSize(Between(f, q, bp), f);
    }
  }

  /** While the live headers stay as they are, a unit of a live block is never
      in a free one. */
  lemma {:induction false} LiveStays(base: nat, mem: map<nat, Header>, f: set<nat>, live: set<nat>,
        owner: map<nat, nat>,
                  mem1: map<nat, Header>, f1: set<nat>, owner1: map<nat, nat>)
    requires Ring(base, mem, f, live, owner) && Ring(base, mem1, f1, live, owner1)
    requires forall h :: h in live ==> h in mem && h in mem1 && mem1[h] == mem[h]
    ensures forall x :: x in owner && x in owner1 && owner1[x] in f1 ==> owner[x] !in live
  {
    forall x | x in owner && x in owner1 && owner1[x] in f1
      ensures owner[x] !in live
    {
      assert OwnedOk(base, mem, f, live, owner, x);
      assert owner[x] in live ==> Covers(mem1, owner1, owner[x]);
    }
  }

  /** Where the freed units went, and what did not move. */
  lemma {:induction false} FreeFacts(base: nat, mem: map<nat, Header>, f: set<nat>, live: set<nat>,
        owner: map<nat, nat>, p: nat, bp: nat)
    requires Ring(base, mem, f, live, owner) && p in f && bp in live && Before(base, mem, p, bp)
    requires p in mem && bp in mem && mem[p].ptr in mem
    ensures var m, g, o := FreedMem(mem, p, bp), FreedSet(mem, f, p, bp), FreedOwner(mem, owner, p, bp);
            && p in g && bp in o && o[bp] in g && o[bp] in m && bp + mem[bp].size <= o[bp] + m[o[bp]].size
            && forall h :: h in live && h != bp ==> h in m && h in mem && m[h] == mem[h]
  {
    assert LiveOk(base, mem, bp) && Covers(mem, owner, bp) && FreeOk(base, mem, f, p);
    assert forall h :: h in live ==> LiveOk(base, mem, h);
  }
}

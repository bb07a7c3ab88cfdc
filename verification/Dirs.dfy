/** Directories (fs.c, sysfile.c): slots of inode number and name, how they are
    searched and filled, and how many of them name an inode. */
module Dirs {
  import opened Common

  /** A directory slot; inum 0 marks it free. */
  datatype Dirent = Dirent(inum: nat, name: string)

  predicate Dot(name: string) { name == "." || name == ".." }

  /** The slot dirlookup stops at, or |slots|. */
  function Lookup(slots: seq<Dirent>, name: string): (k: nat)
    ensures k <= |slots|
    ensures k < |slots| ==> slots[k].inum != 0 && slots[k].name == name
    ensures forall j :: 0 <= j < k ==> slots[j].inum == 0 || slots[j].name != name
  {
    if slots == [] then 0
    else if slots[0].inum != 0 && slots[0].name == name then 0
    else
      var k := Lookup(slots[1..], name);
      assert forall j :: 0 < j < 1 + k ==> slots[j] == slots[1..][j - 1];
      1 + k
  }

  function FirstFree(slots: seq<Dirent>): (k: nat)
    ensures k <= |slots| && (k < |slots| ==> slots[k].inum == 0)
    ensures forall j :: 0 <= j < k ==> slots[j].inum != 0
  {
    if slots == [] || slots[0].inum == 0 then 0
    else
      var k := FirstFree(slots[1..]);
      assert forall j :: 0 < j < 1 + k ==> slots[j] == slots[1..][j - 1];
      1 + k
  }

  /** The directory after dirlink writes d. */
  function Insert(slots: seq<Dirent>, d: Dirent): (r: seq<Dirent>)
    ensures |slots| <= |r| && FirstFree(slots) < |r| && r[FirstFree(slots)] == d
    ensures forall k :: 0 <= k < |r| && k != FirstFree(slots) ==> k < |slots| && r[k] == slots[k]
  {
    var k := FirstFree(slots);
    if k == |slots| then slots + [d] else slots[k := d]
  }

  /** isdirempty: nothing past the first two slots. */
  predicate IsEmpty(slots: seq<Dirent>) { forall k :: 2 <= k < |slots| ==> slots[k].inum == 0 }

  predicate Found(slots: seq<Dirent>, name: string) {
    exists k :: 0 <= k < |slots| && slots[k].inum != 0 && slots[k].name == name
  }

  /** dirlookup succeeds exactly on the names that are there. */
  lemma {:induction false} LookupFinds(slots: seq<Dirent>, name: string)
    ensures Lookup(slots, name) < |slots| <==> Found(slots, name)
  {
  }

  method Dirlookup(slots: seq<Dirent>, name: string) returns (r: Option<nat>)
    ensures r.Some? <==> Found(slots, name)
    ensures r.Some? ==> r.value == Lookup(slots, name)
  {
    var off := 0;
    while off < |slots|
      invariant off <= |slots|
      invariant forall j :: 0 <= j < off ==> slots[j].inum == 0 || slots[j].name != name
    {
      if slots[off].inum != 0 && name == slots[off].name {
        return Some(off);
      }
      off := off + 1;
    }
    return None;
  }

  /** dirlink: refuses a name already there, else takes the first free slot. */
  method Dirlink(slots: seq<Dirent>, name: string, inum: nat) returns (ok: bool, out: seq<Dirent>)
    ensures ok <==> !Found(slots, name)
    ensures out == if ok then Insert(slots, Dirent(inum, name)) else slots
  {
    var found := Dirlookup(slots, name);
    if found.Some? {
      return false, slots;
    }
    var off := 0;
    while off < |slots| && slots[off].inum != 0
      invariant off <= |slots|
      invariant forall j :: 0 <= j < off ==> slots[j].inum != 0
    {
      off := off + 1;
    }
    if off == |slots| {
      return true, slots + [Dirent(inum, name)];
    }
    return true, slots[off := Dirent(inum, name)];
  }

  method Isdirempty(slots: seq<Dirent>) returns (empty: bool)
    ensures empty <==> IsEmpty(slots)
  {
    var off := 2;
    while off < |slots|
      invariant 2 <= off
      invariant forall k :: 2 <= k < off && k < |slots| ==> slots[k].inum == 0
    {
      if slots[off].inum != 0 {
        return false;
      }
      off := off + 1;
    }
    return true;
  }

  // -------------------------------------------------------- counting entries

  datatype IType = Free | Dir | Other

  /** Which entries to count: those naming i, or those naming a directory other than
      the one they are in.  Entries called "." and ".." never count. */
  datatype Want = Naming(i: nat) | Subdirs(types: seq<IType>, self: nat)

  predicate Matches(w: Want, d: Dirent) {
    && d.inum != 0 && !Dot(d.name)
    && match w
       case Naming(i) => d.inum == i
       case Subdirs(types, self) => d.inum != self && d.inum < |types| && types[d.inum] == Dir
  }

  function One(b: bool): nat { if b then 1 else 0 }

  function Count(w: Want, slots: seq<Dirent>): nat {
    if slots == [] then 0 else One(Matches(w, slots[0])) + Count(w, slots[1..])
  }

  lemma {:induction false} CountUpdate(w: Want, slots: seq<Dirent>, k: nat, d: Dirent)
    requires k < |slots|
    ensures Count(w, slots[k := d]) == Count(w, slots) - One(Matches(w, slots[k])) + One(Matches(w, d))
  {
    if k == 0 {
      assert slots[k := d][1..] == slots[1..];
    } else {
      CountUpdate(w, slots[1..], k - 1, d);
      assert slots[k := d][1..] == slots[1..][k - 1 := d];
    }
  }

  lemma {:induction false} CountAppend(w: Want, slots: seq<Dirent>, d: Dirent)
    ensures Count(w, slots + [d]) == Count(w, slots) + One(Matches(w, d))
  {
    if slots == [] {
      assert (slots + [d])[1..] == [];
    } else {
      CountAppend(w, slots[1..], d);
      assert (slots + [d])[1..] == slots[1..] + [d];
    }
  }

  lemma {:induction false} CountInsert(w: Want, slots: seq<Dirent>, d: Dirent)
    ensures Count(w, Insert(slots, d)) == Count(w, slots) + One(Matches(w, d))
  {
    var k := FirstFree(slots);
    if k == |slots| {
      CountAppend(w, slots, d);
    } else {
      CountUpdate(w, slots, k, d);
    }
  }

  /** Two ways of asking that agree on every slot give one count. */
  lemma {:induction false} CountFrame(v: Want, w: Want, slots: seq<Dirent>)
    requires forall k :: 0 <= k < |slots| ==> Matches(v, slots[k]) == Matches(w, slots[k])
    ensures Count(v, slots) == Count(w, slots)
  {
    if slots != [] {
      CountFrame(v, w, slots[1..]);
    }
  }

  /** A count is positive exactly when some slot matches. */
  lemma {:induction false} CountPositive(w: Want, slots: seq<Dirent>)
    ensures Count(w, slots) >= 1 <==> exists k :: 0 <= k < |slots| && Matches(w, slots[k])
  {
    if slots != [] {
      CountPositive(w, slots[1..]);
      if k :| 0 <= k < |slots[1..]| && Matches(w, slots[1..][k]) {
        assert Matches(w, slots[k + 1]);
      }
      if k :| 0 <= k < |slots| && Matches(w, slots[k]) {
        assert k == 0 || Matches(w, slots[1..][k - 1]);
      }
    }
  }

  lemma {:induction false} CountConcat(w: Want, a: seq<Dirent>, b: seq<Dirent>)
    ensures Count(w, a + b) == Count(w, a) + Count(w, b)
  {
    if a == [] {
      assert a + b == b;
    } else {
      CountConcat(w, a[1..], b);
      assert (a + b)[1..] == a[1..] + b;
    }
  }

  /** "." and ".." are claims on nobody. */
  lemma {:induction false} DotsUncounted(w: Want, slots: seq<Dirent>, ip: nat, dp: nat)
    ensures Count(w, Insert(Insert(slots, Dirent(ip, ".")), Dirent(dp, ".."))) == Count(w, slots)
  {
    CountInsert(w, slots, Dirent(ip, "."));
    CountInsert(w, Insert(slots, Dirent(ip, ".")), Dirent(dp, ".."));
  }
}

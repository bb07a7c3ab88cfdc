/** The regular-expression matcher of grep.c, proved equal to a declarative
    meaning: a way of cutting the text into one piece per pattern item. */
module Grep {

  /** A C string: the characters before its NUL. */
  type CString = s: string | '\0' !in s

  /** s[i], with the terminating NUL one past the end. */
  function At(s: CString, i: nat): char
    requires i <= |s|
  {
    if i == |s| then '\0' else s[i]
  }

  // -------------------------------------------------------------- the meaning

  /** One(c) is a single character, Many(c) is c*, End is a final '$'. */
  datatype Item = One(c: char) | Many(c: char) | End

  /** The items of the pattern re[i..]. */
  function Items(re: CString, i: nat): (r: seq<Item>)
    requires i <= |re|
    decreases |re| - i
  {
    if i == |re| then []
    else if i + 1 < |re| && re[i + 1] == '*' then [Many(re[i])] + Items(re, i + 2)
    else if re[i] == '$' && i + 1 == |re| then [End]
    else [One(re[i])] + Items(re, i + 1)
  }

  predicate Ok(c: char, x: char) { c == '.' || c == x }

  /** The piece text[a..b] is an instance of the item. */
  ghost predicate Fits(x: Item, text: CString, a: nat, b: nat)
    requires a <= b <= |text|
  {
    match x
    case One(c) => b == a + 1 && Ok(c, text[a])
    case Many(c) => forall j :: a <= j < b ==> Ok(c, text[j])
    case End => a == b == |text|
  }

  /** cuts splits text from position j on into consecutive pieces, one per item. */
  ghost predicate Cuts(items: seq<Item>, text: CString, j: nat, cuts: seq<nat>) {
    && |cuts| == |items| + 1 && cuts[0] == j
    && (forall k :: 0 <= k < |items| ==> PieceOk(items, text, cuts, k))
  }

  ghost predicate PieceOk(items: seq<Item>, text: CString, cuts: seq<nat>, k: nat)
    requires k < |items| && |cuts| == |items| + 1
  {
    cuts[k] <= cuts[k + 1] <= |text| && Fits(items[k], text, cuts[k], cuts[k + 1])
  }

  /** The items match a prefix of text[j..]. */
  ghost predicate Matches(items: seq<Item>, text: CString, j: nat) {
    exists cuts :: Cuts(items, text, j, cuts)
  }

  lemma {:induction false} NoItems(text: CString, j: nat)
    ensures Matches([], text, j)
  {
    assert Cuts([], text, j, [j]);
  }

  /** The first piece ends somewhere, and the rest matches from there. */
  lemma {:induction false} FirstPiece(x: Item, rest: seq<Item>, text: CString, j: nat)
    requires j <= |text|
    ensures Matches([x] + rest, text, j) <==>
              exists b :: j <= b <= |text| && Fits(x, text, j, b) && Matches(rest, text, b)
  {
    var items := [x] + rest;
    if Matches(items, text, j) {
      var cuts :| Cuts(items, text, j, cuts);
      assert PieceOk(items, text, cuts, 0);
      forall k | 0 <= k < |rest|
        ensures PieceOk(rest, text, cuts[1..], k)
      {
        assert PieceOk(items, text, cuts, k + 1) && items[k + 1] == rest[k];
      }
      assert Cuts(rest, text, cuts[1], cuts[1..]);
    }
    if b :| j <= b <= |text| && Fits(x, text, j, b) && Matches(rest, text, b) {
      var cuts :| Cuts(rest, text, b, cuts);
      var all := [j] + cuts;
      forall k | 0 <= k < |items|
        ensures PieceOk(items, text, all, k)
      {
        if k > 0 {
          assert PieceOk(rest, text, cuts, k - 1) && items[k] == rest[k - 1];
        }
      }
      assert Cuts(items, text, j, all);
    }
  }

  /** c* matches nothing, or one instance of c followed by c* again. */
  lemma {:induction false} StarStep(c: char, rest: seq<Item>, text: CString, j: nat)
    requires j <= |text|
    ensures Matches([Many(c)] + rest, text, j) <==>
            Matches(rest, text, j) || (j < |text| && Ok(c, text[j]) && Matches([Many(c)] + rest, text, j + 1))
  {
    FirstPiece(Many(c), rest, text, j);
    if j < |text| {
      FirstPiece(Many(c), rest, text, j + 1);
    }
    if Matches([Many(c)] + rest, text, j) {
      var b :| j <= b <= |text| && Fits(Many(c), text, j, b) && Matches(rest, text, b);
      if b > j {
        assert Fits(Many(c), text, j + 1, b);
      }
    }
    if j < |text| && Ok(c, text[j]) && Matches([Many(c)] + rest, text, j + 1) {
      var b :| j + 1 <= b <= |text| && Fits(Many(c), text, j + 1, b) && Matches(rest, text, b);
      assert Fits(Many(c), text, j, b);
    }
    if Matches(rest, text, j) {
      assert Fits(Many(c), text, j, j);
    }
  }

  lemma {:induction false} OneStep(c: char, rest: seq<Item>, text: CString, j: nat)
    requires j <= |text|
    ensures Matches([One(c)] + rest, text, j) <==> j < |text| && Ok(c, text[j]) && Matches(rest, text, j + 1)
  {
    FirstPiece(One(c), rest, text, j);
    if j < |text| && Ok(c, text[j]) && Matches(rest, text, j + 1) {
      assert Fits(One(c), text, j, j + 1);
    }
  }

  lemma {:induction false} EndStep(text: CString, j: nat)
    requires j <= |text|
    ensures Matches([End], text, j) <==> j == |text|
  {
    FirstPiece(End, [], text, j);
    assert [End] + [] == [End];
    if j == |text| {
      assert Fits(End, text, j, j);
      NoItems(text, j);
    }
  }

  // ------------------------------------------------------------- the matcher

  /** matchhere: does the pattern re[i..] match at the beginning of text[j..]? */
  method MatchHere(re: CString, i: nat, text: CString, j: nat) returns (r: bool)
    requires i <= |re| && j <= |text|
    ensures r <==> Matches(Items(re, i), text, j)
    decreases |re| - i, 0
  {
    if At(re, i) == '\0' {
      NoItems(text, j);
      return true;
    }
    if At(re, i + 1) == '*' {
      r := MatchStar(re[i], re, i + 2, text, j);
      return;
    }
    if At(re, i) == '$' && At(re, i + 1) == '\0' {
      EndStep(text, j);
      return At(text, j) == '\0';
    }
    OneStep(re[i], Items(re, i + 1), text, j);
    if At(text, j) != '\0' && (At(re, i) == '.' || At(re, i) == At(text, j)) {
      r := MatchHere(re, i + 1, text, j + 1);
      return;
    }
    return false;
  }

  /** matchstar: does c* followed by re[i..] match at the beginning of text[j..]? */
  method MatchStar(c: char, re: CString, i: nat, text: CString, j: nat) returns (r: bool)
    requires i <= |re| && j <= |text|
    ensures r <==> Matches([Many(c)] + Items(re, i), text, j)
    decreases |re| - i, 1
  {
    var k := j;
    while true
      invariant j <= k <= |text|
      invariant Matches([Many(c)] + Items(re, i), text, j) <==> Matches([Many(c)] + Items(re, i), text, k)
      decreases |text| - k
    {
      StarStep(c, Items(re, i), text, k);
      r := MatchHere(re, i, text, k);
      if r {
        return true;
      }
      if !(At(text, k) != '\0' && (At(text, k) == c || c == '.')) {
        return false;
      }
      k := k + 1;
    }
  }

  /** match: true exactly when the pattern matches somewhere in the text, or at
      its start if it begins with '^'. */
  method Match(re: CString, text: CString) returns (r: bool)
    ensures r <==> if |re| > 0 && re[0] == '^' then Matches(Items(re, 1), text, 0)
                   else exists j :: 0 <= j <= |text| && Matches(Items(re, 0), text, j)
  {
    if At(re, 0) == '^' {
      r := MatchHere(re, 1, text, 0);
      return;
    }
    var j := 0;
    while j <= |text|
      invariant 0 <= j <= |text| + 1
      invariant forall k :: 0 <= k < j ==> !Matches(Items(re, 0), text, k)
    {
      r := MatchHere(re, 0, text, j);
      if r {
        return true;
      }
      j := j + 1;
    }
    return false;
  }
}

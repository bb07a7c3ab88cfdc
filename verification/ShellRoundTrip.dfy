/** Every command tree survives being spelled out canonically and parsed again. */
module ShellRoundTrip {
  import opened Shell

  type Tree = Cmd<string>

  // ------------------------------------------------------------- trees as text

  predicate WordOk(w: string) { w != "" && forall k :: 0 <= k < |w| ==> WordChar(w[k]) }

  /** Trees the parser can build: at most nine words to a command, every word non-empty
      and free of blanks, symbols and NUL. */
  predicate Fine(tree: Tree) {
    match tree
    case Exec(ws) => |ws| < MAXARGS && forall k :: 0 <= k < |ws| ==> WordOk(ws[k])
    case Redir(c, f, _) => Fine(c) && WordOk(f)
    case Pipe(l, r) => Fine(l) && Fine(r)
    case List(l, r) => Fine(l) && Fine(r)
    case Back(c) => Fine(c)
  }

  function Join(ws: seq<string>): string {
    if ws == [] then "" else if |ws| == 1 then ws[0] else ws[0] + (" " + Join(ws[1..]))
  }

  function Sign(m: Mode): string { if m == Input then "<" else ">" }

  /** How loosely a tree binds: 0 command, 1 pipe, 2 background, 3 list. */
  function Rank(tree: Tree): nat {
    match tree
    case Exec(_) => 0
    case Redir(_, _, _) => 0
    case Pipe(_, _) => 1
    case Back(_) => 2
    case List(_, _) => 3
  }

  function Raw(tree: Tree): string
    decreases tree, 0
  {
    match tree
    case Exec(ws) => Join(ws)
    case Redir(c, f, m) => Spell(c, 0) + (Sign(m) + f)
    case Pipe(l, r) => Spell(l, 0) + ("|" + Spell(r, 1))
    case Back(c) => Spell(c, 2) + "&"
    case List(l, r) => Spell(l, 2) + (";" + Spell(r, 3))
  }

  /** The canonical spelling where a tree of rank up to level may stand: parentheses
      only where needed. */
  function Spell(tree: Tree, level: nat): string
    decreases tree, 1
  {
    if Rank(tree) <= level then Raw(tree) else "(" + (Raw(tree) + ")")
  }

  // ------------------------------------------------------- spans read as words

  function Text(t: string, w: Span): string { if w.q <= w.eq <= |t| then t[w.q..w.eq] else "" }

  function Texts(t: string, ws: seq<Span>): (r: seq<string>)
    ensures |r| == |ws| && forall k :: 0 <= k < |ws| ==> r[k] == Text(t, ws[k])
  {
    seq(|ws|, k requires 0 <= k < |ws| => Text(t, ws[k]))
  }

  function Files(t: string, rs: seq<Redirection<Span>>): (r: seq<Redirection<string>>)
    ensures |r| == |rs| && forall k :: 0 <= k < |rs| ==> r[k] == Redirection(Text(t, rs[k].file), rs[k].mode)
  {
    seq(|rs|, k requires 0 <= k < |rs| => Redirection(Text(t, rs[k].file), rs[k].mode))
  }

  lemma {:induction false} FilesCons(t: string, r: Redirection<Span>, rs: seq<Redirection<Span>>)
    ensures Files(t, [r] + rs) == [Redirection(Text(t, r.file), r.mode)] + Files(t, rs)
  {
  }

  lemma {:induction false} TextsCons(t: string, w: Span, ws: seq<Span>)
    ensures Texts(t, [w] + ws) == [Text(t, w)] + Texts(t, ws)
  {
  }

  function View(t: string, cmd: Cmd<Span>): Tree {
    match cmd
    case Exec(argv) => Exec(Texts(t, argv))
    case Redir(c, f, m) => Redir(View(t, c), Text(t, f), m)
    case Pipe(l, r) => Pipe(View(t, l), View(t, r))
    case List(l, r) => List(View(t, l), View(t, r))
    case Back(c) => Back(View(t, c))
  }

  lemma {:induction false} ViewWrap(t: string, cmd: Cmd<Span>, rs: seq<Redirection<Span>>)
    ensures View(t, Wrap(cmd, rs)) == Wrap(View(t, cmd), Files(t, rs))
    decreases |rs|
  {
    if rs != [] {
      assert Files(t, rs)[1..] == Files(t, rs[1..]);
      ViewWrap(t, Redir(cmd, rs[0].file, rs[0].mode), rs[1..]);
    }
  }

  // ----------------------------------------------------- redirections as a list

  function Base(tree: Tree): (b: Tree)
    ensures !b.Redir?
  {
    if tree.Redir? then Base(tree.cmd) else tree
  }

  function Chain(tree: Tree): seq<Redirection<string>> {
    if tree.Redir? then Chain(tree.cmd) + [Redirection(tree.file, tree.mode)] else []
  }

  function ChainText(rs: seq<Redirection<string>>): string {
    if rs == [] then "" else (Sign(rs[0].mode) + rs[0].file) + ChainText(rs[1..])
  }

  lemma {:induction false} WrapAppend(tree: Tree, rs: seq<Redirection<string>>, r: Redirection<string>)
    ensures Wrap(tree, rs + [r]) == Redir(Wrap(tree, rs), r.file, r.mode)
    decreases |rs|
  {
    if rs == [] {
      assert (rs + [r])[1..] == [];
    } else {
      assert (rs + [r])[1..] == rs[1..] + [r];
      WrapAppend(Redir(tree, rs[0].file, rs[0].mode), rs[1..], r);
    }
  }

  lemma {:induction false} ChainAppend(rs: seq<Redirection<string>>, r: Redirection<string>)
    ensures ChainText(rs + [r]) == ChainText(rs) + (Sign(r.mode) + r.file)
  {
    if rs == [] {
      assert (rs + [r])[1..] == [];
      assert ChainText([]) == "";
      assert (Sign(r.mode) + r.file) + "" == Sign(r.mode) + r.file;
    } else {
      assert (rs + [r])[1..] == rs[1..] + [r];
      ChainAppend(rs[1..], r);
      Assoc(Sign(rs[0].mode) + rs[0].file, ChainText(rs[1..]), Sign(r.mode) + r.file);
    }
  }

  lemma {:induction false} Assoc<T>(a: seq<T>, b: seq<T>, c: seq<T>)
    ensures a + (b + c) == (a + b) + c
  {
  }

  /** A command is its base followed by its redirections. */
  lemma {:induction false} Chained(tree: Tree)
    requires Fine(tree)
    ensures tree == Wrap(Base(tree), Chain(tree)) && Spell(tree, 0) == Spell(Base(tree), 0) + ChainText(Chain(tree))
    ensures Fine(Base(tree)) && forall r :: r in Chain(tree) ==> WordOk(r.file)
  {
    if tree.Redir? {
      Chained(tree.cmd);
      var r := Redirection(tree.file, tree.mode);
      WrapAppend(Base(tree), Chain(tree.cmd), r);
      ChainAppend(Chain(tree.cmd), r);
      Assoc(Spell(Base(tree), 0), ChainText(Chain(tree.cmd)), Sign(r.mode) + r.file);
    } else {
      assert Spell(tree, 0) + "" == Spell(tree, 0);
    }
  }

  // ---------------------------------------------------------- reading the text

  /** The unread part of t at i is s. */
  predicate Reads(t: string, i: nat, s: string) { i <= |t| && t[i..] == s }

  lemma {:induction false} Advance(t: string, i: nat, a: string, b: string)
    requires Reads(t, i, a + b)
    ensures Reads(t, i + |a|, b) && t[i..i + |a|] == a
    ensures forall k :: 0 <= k < |a| ==> t[i + k] == a[k]
  {
    assert t[i..][|a|..] == t[i + |a|..];
    assert t[i..][..|a|] == t[i..i + |a|];
    forall k | 0 <= k < |a|
      ensures t[i + k] == a[k]
    {
      assert t[i..][k] == (a + b)[k];
    }
  }

  /** Where Reads is after a piece of text. */
  lemma {:induction false} Past(t: string, i: nat, a: string, b: string, j: nat)
    requires Reads(t, i, a + b) && j == |t| - |b|
    ensures j == i + |a| && Reads(t, j, b)
  {
    Advance(t, i, a, b);
    assert |t[i..]| == |a| + |b|;
  }

  /** Not a blank next. */
  predicate Clean(s: string) { s == "" || !Space(s[0]) }

  lemma {:induction false} NoSkip(t: string, i: nat, s: string)
    requires Reads(t, i, s) && Clean(s)
    ensures Skip(t, i) == i && At(t, i) == if s == "" then '\0' else s[0]
  {
    assert s != "" ==> t[i] == t[i..][0];
  }

  lemma {:induction false} WordEndIs(t: string, i: nat, j: nat)
    requires i <= j <= |t| && (forall k :: i <= k < j ==> WordChar(t[k])) && (j < |t| ==> Space(t[j]) || Symbol(t[j]))
    ensures WordEnd(t, i) == j
    decreases j - i
  {
    if i < j {
      WordEndIs(t, i + 1, j);
    }
  }

  lemma {:induction false} ReadWord(t: string, i: nat, w: string, rest: string)
    requires Reads(t, i, w + rest) && WordOk(w) && (rest != "" ==> Space(rest[0]) || Symbol(rest[0]))
    ensures Skip(t, i) == i && !Symbol(At(t, i)) && At(t, i) != '\0'
    ensures i + |w| <= |t| && GetToken(t, i) == Token('a', i, i + |w|, Skip(t, i + |w|))
    ensures Text(t, Span(i, i + |w|)) == w && Reads(t, i + |w|, rest)
  {
    Advance(t, i, w, rest);
    assert t[i + 0] == w[0];
    assert rest != "" ==> t[i + |w|] == t[i + |w|..][0];
    forall k | i <= k < i + |w|
      ensures WordChar(t[k])
    {
      assert t[i + (k - i)] == w[k - i];
    }
    WordEndIs(t, i, i + |w|);
  }

  /** A word with a symbol or the end right after it. */
  lemma {:induction false} ReadTight(t: string, i: nat, w: string, more: string, j: nat)
    requires Reads(t, i, w + more) && WordOk(w) && (more == "" || Symbol(more[0])) && j == i + |w|
    ensures Skip(t, i) == i && j <= |t| && GetToken(t, i) == Token('a', i, j, j)
    ensures Reads(t, j, more) && Text(t, Span(i, j)) == w
  {
    ReadWord(t, i, w, more);
    NoSkip(t, j, more);
  }

  /** A word with one blank and another word after it. */
  lemma {:induction false} ReadSpaced(t: string, i: nat, w: string, more: string, j: nat, next: nat)
    requires Reads(t, i, w + (" " + more)) && WordOk(w) && more != "" && WordChar(more[0]) && j == i + |w| &&
             next == j + 1
    ensures Skip(t, i) == i && next <= |t| && GetToken(t, i) == Token('a', i, j, next)
    ensures Reads(t, next, more) && Text(t, Span(i, j)) == w
  {
    ReadWord(t, i, w, " " + more);
    SkipBlank(t, j, more, next);
  }

  lemma {:induction false} SkipBlank(t: string, j: nat, more: string, next: nat)
    requires Reads(t, j, " " + more) && Clean(more) && next == j + 1
    ensures next <= |t| && Skip(t, j) == next && Reads(t, next, more)
  {
    Advance(t, j, " ", more);
    NoSkip(t, next, more);
    assert t[j + 0] == " "[0];
  }

  /** A one-character token other than '>'. */
  lemma {:induction false} ReadSymbol(t: string, i: nat, c: char, rest: string)
    requires Reads(t, i, [c] + rest) && Symbol(c) && Clean(rest) && (c == '>' ==> rest != "" && rest[0] != '>')
    ensures Skip(t, i) == i && At(t, i) == c && i + 1 <= |t|
    ensures GetToken(t, i) == Token(c, i, i + 1, i + 1) && Reads(t, i + 1, rest)
  {
    Advance(t, i, [c], rest);
    assert t[i + 0] == c;
    NoSkip(t, i + 1, rest);
  }

  /** What may follow a command: nothing, or the end of its place in the grammar. */
  predicate Term(rest: string) { rest == "" || EndsExec(rest[0]) }

  lemma {:induction false} ReadRedirection(t: string, i: nat, m: Mode, f: string, more: string, p: nat, j: nat)
    requires Reads(t, i, (Sign(m) + f) + more) && WordOk(f) && (more == "" || Symbol(more[0]))
    requires p == i + 1 && j == p + |f|
    ensures Reads(t, j, more) && Text(t, Span(p, j)) == f
    ensures Redirs(t, i) == After([Redirection(Span(p, j), m)], Redirs(t, j))
  {
    var c := Sign(m)[0];
    assert (Sign(m) + f) + more == [c] + (f + more);
    assert (f + more)[0] == f[0];
    ReadSymbol(t, i, c, f + more);
    ReadTight(t, p, f, more, j);
    RedirsStep(t, i, c, p, j);
  }

  lemma {:induction false} RedirsStep(t: string, i: nat, c: char, p: nat, j: nat)
    requires p == i + 1 <= j <= |t| && Skip(t, i) == i && At(t, i) == c && (c == '<' || c == '>')
    requires GetToken(t, i) == Token(c, i, p, p) && GetToken(t, p) == Token('a', p, j, j)
    ensures Redirs(t, i) == After([Redirection(Span(p, j), if c == '<' then Input else Output)], Redirs(t, j))
  {
  }

  /** No redirection where a word starts or a command ends. */
  lemma {:induction false} NoRedirs(t: string, i: nat, s: string)
    requires Reads(t, i, s) && Clean(s) && (s == "" || (s[0] != '<' && s[0] != '>'))
    ensures Redirs(t, i) == Ok([], i)
  {
    NoSkip(t, i, s);
  }

  lemma {:induction false} ChainHead(rs: seq<Redirection<string>>, rest: string)
    requires Term(rest)
    ensures var s := ChainText(rs) + rest; (s == "" || Symbol(s[0])) && Clean(s)
  {
    if rs == [] {
      assert ChainText(rs) + rest == rest;
    } else {
      assert (ChainText(rs) + rest)[0] == Sign(rs[0].mode)[0];
    }
  }

  lemma {:induction false} ReadChain(t: string, i: nat, rs: seq<Redirection<string>>, rest: string)
    requires Reads(t, i, ChainText(rs) + rest) && Term(rest) && forall r :: r in rs ==> WordOk(r.file)
    ensures Redirs(t, i).Ok? && Redirs(t, i).next == |t| - |rest| && Files(t, Redirs(t, i).value) == rs
    decreases |rs|
  {
    if rs == [] {
      assert ChainText(rs) + rest == rest;
      NoRedirs(t, i, rest);
      assert Files(t, []) == [];
    } else {
      var f := rs[0].file;
      Assoc(Sign(rs[0].mode) + f, ChainText(rs[1..]), rest);
      ChainHead(rs[1..], rest);
      var p := i + 1;
      var j := p + |f|;
      ReadRedirection(t, i, rs[0].mode, f, ChainText(rs[1..]) + rest, p, j);
      ReadChain(t, j, rs[1..], rest);
      var later := Redirs(t, j).value;
      var one := Redirection(Span(p, j), rs[0].mode);
      FilesCons(t, one, later);
      assert rs == [rs[0]] + rs[1..];
    }
  }

  // -------------------------------------------------------------- the words

  lemma {:induction false} JoinHead(ws: seq<string>, more: string)
    requires ws != [] && forall k :: 0 <= k < |ws| ==> WordOk(ws[k])
    ensures Join(ws) + more != "" && WordChar((Join(ws) + more)[0]) && Clean(Join(ws) + more)
  {
    assert Join(ws)[0] == ws[0][0];
  }

  /** At the end of a command. */
  lemma {:induction false} ReadEnd(t: string, i: nat, rest: string, argv: seq<Span>, rs: seq<Redirection<Span>>)
    requires Reads(t, i, rest) && Term(rest)
    ensures Args(t, i, argv, rs) == Ok(Wrap(Exec(argv), rs), i)
  {
    NoSkip(t, i, rest);
    if rest == "" {
      assert i == |t|;
    }
  }

  /** One word and what follows it. */
  lemma {:induction false} ArgsWord(t: string, i: nat, argv: seq<Span>, j: nat, next: nat,
        more: seq<Redirection<Span>>, after: nat)
    requires i <= j <= next <= |t| && Skip(t, i) == i && GetToken(t, i) == Token('a', i, j, next)
    requires |argv| + 1 < MAXARGS && Redirs(t, next) == Ok(more, after)
    ensures Args(t, i, argv, []) == Args(t, after, argv + [Span(i, j)], more)
  {
    assert [] + more == more;
  }

  /** The last word of a command, with the redirections after it. */
  lemma {:induction false} ReadLast(t: string, i: nat, w: string, rs: seq<Redirection<string>>, rest: string,
        argv: seq<Span>, j: nat, e: nat)
    returns (out: seq<Redirection<Span>>)
    requires Reads(t, i, w + (ChainText(rs) + rest)) && Term(rest) && WordOk(w) && forall r :: r in rs ==>
             WordOk(r.file)
    requires |argv| + 1 < MAXARGS && j == i + |w| && e == |t| - |rest|
    ensures Args(t, i, argv, []) == Ok(Wrap(Exec(argv + [Span(i, j)]), out), e)
    ensures Text(t, Span(i, j)) == w && Files(t, out) == rs
  {
    ChainHead(rs, rest);
    ReadTight(t, i, w, ChainText(rs) + rest, j);
    ReadChain(t, j, rs, rest);
    out := Redirs(t, j).value;
    ArgsWord(t, i, argv, j, j, out, e);
    Past(t, j, ChainText(rs), rest, e);
    ReadEnd(t, e, rest, argv + [Span(i, j)], out);
  }

  /** A word with another one after it. */
  lemma {:induction false} ReadNext(t: string, i: nat, w: string, more: string, argv: seq<Span>, j: nat, next: nat)
    requires Reads(t, i, w + (" " + more)) && WordOk(w) && more != "" && WordChar(more[0])
    requires |argv| + 1 < MAXARGS && j == i + |w| && next == j + 1
    ensures Reads(t, next, more) && Text(t, Span(i, j)) == w
    ensures Args(t, i, argv, []) == Args(t, next, argv + [Span(i, j)], [])
  {
    ReadSpaced(t, i, w, more, j, next);
    NoRedirs(t, next, more);
    ArgsWord(t, i, argv, j, next, [], next);
  }

  lemma {:induction false} JoinCons(ws: seq<string>, tail: string)
    requires |ws| > 1
    ensures Join(ws) + tail == ws[0] + (" " + (Join(ws[1..]) + tail))
  {
  }

  /** Reading on from i adds the words got, wraps the redirections out and stops at e. */
  predicate Gives(t: string, i: nat, argv: seq<Span>, got: seq<Span>, out: seq<Redirection<Span>>, e: nat) {
    i <= |t| && Args(t, i, argv, []) == Ok(Wrap(Exec(argv + got), out), e)
  }

  lemma {:induction false} GivesCons(t: string, i: nat, argv: seq<Span>, w: Span, next: nat, later: seq<Span>,
        out: seq<Redirection<Span>>, e: nat)
    requires i <= |t| && next <= |t| && Args(t, i, argv, []) == Args(t, next, argv + [w], [])
    requires Gives(t, next, argv + [w], later, out, e)
    ensures Gives(t, i, argv, [w] + later, out, e)
  {
    assert (argv + [w]) + later == argv + ([w] + later);
  }

  lemma {:induction false} WordsCons(t: string, w: Span, later: seq<Span>, ws: seq<string>)
    requires ws != [] && Text(t, w) == ws[0] && Texts(t, later) == ws[1..]
    ensures Texts(t, [w] + later) == ws
  {
    TextsCons(t, w, later);
    assert ws == [ws[0]] + ws[1..];
  }

  /** The next word, ready for the ones after it. */
  lemma {:induction false} ReadWordOf(t: string, i: nat, ws: seq<string>, tail: string, argv: seq<Span>, j: nat,
        next: nat)
    requires Reads(t, i, Join(ws) + tail) && |ws| > 1 && (forall k :: 0 <= k < |ws| ==> WordOk(ws[k]))
    requires |argv| + 1 < MAXARGS && j == i + |ws[0]| && next == j + 1
    ensures Reads(t, next, Join(ws[1..]) + tail) && Text(t, Span(i, j)) == ws[0]
    ensures Args(t, i, argv, []) == Args(t, next, argv + [Span(i, j)], [])
  {
    JoinCons(ws, tail);
    JoinHead(ws[1..], tail);
    ReadNext(t, i, ws[0], Join(ws[1..]) + tail, argv, j, next);
  }

  lemma {:induction false} ReadArgs(t: string, i: nat, ws: seq<string>, rs: seq<Redirection<string>>, rest: string,
                                    argv: seq<Span>, e: nat)
    returns (got: seq<Span>, out: seq<Redirection<Span>>)
    requires Reads(t, i, Join(ws) + (ChainText(rs) + rest)) && Term(rest) && ws != [] && |argv| + |ws| < MAXARGS
    requires (forall k :: 0 <= k < |ws| ==> WordOk(ws[k])) && forall r :: r in rs ==> WordOk(r.file)
    requires e == |t| - |rest|
    ensures Gives(t, i, argv, got, out, e) && Texts(t, got) == ws && Files(t, out) == rs
    decreases |ws|
  {
    var j := i + |ws[0]|;
    if |ws| == 1 {
      out := ReadLast(t, i, ws[0], rs, rest, argv, j, e);
      got := [Span(i, j)];
    } else {
      var next := j + 1;
      ReadWordOf(t, i, ws, ChainText(rs) + rest, argv, j, next);
      var later, o := ReadArgs(t, next, ws[1..], rs, rest, argv + [Span(i, j)], e);
      out := o;
      got := [Span(i, j)] + later;
      GivesCons(t, i, argv, Span(i, j), next, later, out, e);
      WordsCons(t, Span(i, j), later, ws);
    }
  }

  // ------------------------------------------------------------- the grammar

  predicate After1(rest: string) { rest == "" || rest[0] == ')' || rest[0] == '&' || rest[0] == ';' }

  predicate After3(rest: string) { rest == "" || rest[0] == ')' }

  lemma {:induction false} ExecPlain(t: string, i: nat, rs: seq<Redirection<Span>>, next: nat)
    requires i <= |t| && Skip(t, i) == i && At(t, i) != '(' && Redirs(t, i) == Ok(rs, next)
    ensures ParseExec(t, i) == Args(t, next, [], rs)
  {
  }

  /** A command that is all redirections. */
  lemma {:induction false} ReadBare(t: string, i: nat, rs: seq<Redirection<string>>, rest: string, e: nat)
    requires Reads(t, i, ChainText(rs) + rest) && Term(rest) && e == |t| - |rest|
    requires forall r :: r in rs ==> WordOk(r.file)
    ensures ParseExec(t, i).Ok? && ParseExec(t, i).next == e && View(t, ParseExec(t, i).value) == Wrap(Exec([]), rs)
  {
    BareHead(rs, rest);
    NoSkip(t, i, ChainText(rs) + rest);
    ReadChain(t, i, rs, rest);
    var out := Redirs(t, i).value;
    ExecPlain(t, i, out, e);
    Past(t, i, ChainText(rs), rest, e);
    ReadEnd(t, e, rest, [], out);
    ViewWrap(t, Exec([]), out);
    assert Texts(t, []) == [];
  }

  lemma {:induction false} BareHead(rs: seq<Redirection<string>>, rest: string)
    requires Term(rest)
    ensures var s := ChainText(rs) + rest; Clean(s) && (s == "" || s[0] != '(')
  {
    ChainHead(rs, rest);
    if rs == [] {
      assert ChainText(rs) + rest == rest;
    } else {
      assert (ChainText(rs) + rest)[0] == Sign(rs[0].mode)[0];
    }
  }

  /** A simple command: words, then redirections. */
  lemma {:induction false} ReadSimple(t: string, i: nat, ws: seq<string>, rs: seq<Redirection<string>>, rest: string,
        e: nat)
    requires Reads(t, i, Join(ws) + (ChainText(rs) + rest)) && Term(rest) && |ws| < MAXARGS && e == |t| - |rest|
    requires (forall k :: 0 <= k < |ws| ==> WordOk(ws[k])) && forall r :: r in rs ==> WordOk(r.file)
    ensures ParseExec(t, i).Ok? && ParseExec(t, i).next == e && View(t, ParseExec(t, i).value) == Wrap(Exec(ws), rs)
  {
    if ws == [] {
      assert Join(ws) + (ChainText(rs) + rest) == ChainText(rs) + rest;
      ReadBare(t, i, rs, rest, e);
    } else {
      JoinHead(ws, ChainText(rs) + rest);
      NoSkip(t, i, Join(ws) + (ChainText(rs) + rest));
      NoRedirs(t, i, Join(ws) + (ChainText(rs) + rest));
      ExecPlain(t, i, [], i);
      var got, out := ReadArgs(t, i, ws, rs, rest, [], e);
      assert [] + got == got;
      ViewWrap(t, Exec(got), out);
    }
  }

  /** No spelling starts with a blank. */
  lemma {:induction false} SpellHead(tree: Tree, level: nat, rest: string)
    requires Fine(tree) && Clean(rest)
    ensures Clean(Spell(tree, level) + rest)
    decreases tree, 1
  {
    if Rank(tree) <= level {
      RawHead(tree, rest);
    } else {
      assert (Spell(tree, level) + rest)[0] == '(';
    }
  }

  lemma {:induction false} RawHead(tree: Tree, rest: string)
    requires Fine(tree) && Clean(rest)
    ensures Clean(Raw(tree) + rest)
    decreases tree, 0
  {
    match tree
    case Exec(ws) =>
      if ws == [] {
        assert Raw(tree) + rest == rest;
      } else {
        JoinHead(ws, rest);
      }
    case Redir(c, f, m) =>
      Assoc(Spell(c, 0), Sign(m) + f, rest);
      assert ((Sign(m) + f) + rest)[0] == Sign(m)[0];
      SpellHead(c, 0, (Sign(m) + f) + rest);
    case Pipe(l, r) =>
      Assoc(Spell(l, 0), "|" + Spell(r, 1), rest);
      assert (("|" + Spell(r, 1)) + rest)[0] == '|';
      SpellHead(l, 0, ("|" + Spell(r, 1)) + rest);
    case Back(c) =>
      Assoc(Spell(c, 2), "&", rest);
      SpellHead(c, 2, "&" + rest);
    case List(l, r) =>
      Assoc(Spell(l, 2), ";" + Spell(r, 3), rest);
      assert ((";" + Spell(r, 3)) + rest)[0] == ';';
      SpellHead(l, 2, (";" + Spell(r, 3)) + rest);
  }

  // One unfolding of each parsing function, at positions with nothing to skip.

  lemma {:induction false} ExecBlock(t: string, i: nat, open: nat, cmd: Cmd<Span>, j: nat, close: nat,
        rs: seq<Redirection<Span>>, next: nat)
    requires i <= |t| && Skip(t, i) == i && At(t, i) == '(' && GetToken(t, i).next == open &&
             ParseLine(t, open) == Ok(cmd, j)
    requires Skip(t, j) == j && At(t, j) == ')' && GetToken(t, j).next == close && Redirs(t, close) == Ok(rs, next)
    ensures ParseExec(t, i) == Ok(Wrap(cmd, rs), next)
  {
  }

  lemma {:induction false} PipeStop(t: string, i: nat, cmd: Cmd<Span>, j: nat)
    requires i <= |t| && ParseExec(t, i) == Ok(cmd, j) && Skip(t, j) == j && At(t, j) != '|'
    ensures ParsePipe(t, i) == Ok(cmd, j)
  {
  }

  lemma {:induction false} PipeGo(t: string, i: nat, cmd: Cmd<Span>, j: nat, k: nat, right: Cmd<Span>, next: nat)
    requires i <= |t| && ParseExec(t, i) == Ok(cmd, j) && Skip(t, j) == j && At(t, j) == '|'
    requires GetToken(t, j).next == k && ParsePipe(t, k) == Ok(right, next)
    ensures ParsePipe(t, i) == Ok(Pipe(cmd, right), next)
  {
  }

  /** The line at i starts with cmd, and its loop over '&' has got to e. */
  predicate Heads(t: string, i: nat, cmd: Cmd<Span>, e: nat) {
    && i <= |t| && e <= |t| && ParsePipe(t, i).Ok?
    && Backs(t, ParsePipe(t, i).value, ParsePipe(t, i).next) == Backs(t, cmd, e)
  }

  lemma {:induction false} HeadsPipe(t: string, i: nat, cmd: Cmd<Span>, e: nat)
    requires i <= |t| && ParsePipe(t, i) == Ok(cmd, e)
    ensures Heads(t, i, cmd, e)
  {
  }

  lemma {:induction false} HeadsBack(t: string, i: nat, cmd: Cmd<Span>, j: nat, next: nat)
    requires Heads(t, i, cmd, j) && Skip(t, j) == j && At(t, j) == '&' && GetToken(t, j).next == next
    ensures Heads(t, i, Back(cmd), next)
  {
  }

  lemma {:induction false} LineStop(t: string, i: nat, cmd: Cmd<Span>, k: nat)
    requires Heads(t, i, cmd, k) && Skip(t, k) == k && At(t, k) != '&' && At(t, k) != ';'
    ensures ParseLine(t, i) == Ok(cmd, k)
  {
    assert Backs(t, cmd, k) == Ok(cmd, k);
  }

  lemma {:induction false} LineGo(t: string, i: nat, cmd: Cmd<Span>, k: nat, m: nat, right: Cmd<Span>, next: nat)
    requires Heads(t, i, cmd, k) && Skip(t, k) == k && At(t, k) == ';' && GetToken(t, k).next == m &&
             ParseLine(t, m) == Ok(right, next)
    ensures ParseLine(t, i) == Ok(List(cmd, right), next)
  {
    assert Backs(t, cmd, k) == Ok(cmd, k);
  }

  /** Level 0: a command or a parenthesised line, with its redirections. */
  lemma {:induction false} ReadExec(tree: Tree, t: string, i: nat, rest: string)
    requires Fine(tree) && Reads(t, i, Spell(tree, 0) + rest) && Term(rest)
    ensures ParseExec(t, i).Ok? && ParseExec(t, i).next == |t| - |rest| && View(t, ParseExec(t, i).value) == tree
    decreases |Spell(tree, 0)|, 0
  {
    Chained(tree);
    var b, rs := Base(tree), Chain(tree);
    Assoc(Spell(b, 0), ChainText(rs), rest);
    if b.Exec? {
      ReadSimple(t, i, b.argv, rs, rest, |t| - |rest|);
    } else {
      ReadBlock(b, rs, t, i, rest);
    }
  }

  lemma {:induction false} ReadBlock(b: Tree, rs: seq<Redirection<string>>, t: string, i: nat, rest: string)
    requires Fine(b) && Rank(b) > 0 && Reads(t, i, Spell(b, 0) + (ChainText(rs) + rest)) && Term(rest)
    requires forall r :: r in rs ==> WordOk(r.file)
    ensures ParseExec(t, i).Ok? && ParseExec(t, i).next == |t| - |rest| && View(t, ParseExec(t, i).value) == Wrap(b, rs)
    decreases |Raw(b)|, 4
  {
    var tail := ChainText(rs) + rest;
    var inner := ")" + tail;
    assert Spell(b, 0) + tail == ['('] + (Raw(b) + inner);
    RawHead(b, inner);
    ReadSymbol(t, i, '(', Raw(b) + inner);
    var open := i + 1;
    ReadLine(b, t, open, inner);
    var line := ParseLine(t, open);
    Past(t, open, Raw(b), inner, line.next);
    BlockEnd(t, i, open, line.value, line.next, rs, rest);
  }

  lemma {:induction false} BlockEnd(t: string, i: nat, open: nat, cmd: Cmd<Span>, j: nat, rs: seq<Redirection<string>>,
        rest: string)
    requires i <= |t| && Skip(t, i) == i && At(t, i) == '(' && GetToken(t, i).next == open &&
             ParseLine(t, open) == Ok(cmd, j)
    requires Reads(t, j, ")" + (ChainText(rs) + rest)) && Term(rest) && forall r :: r in rs ==> WordOk(r.file)
    ensures ParseExec(t, i).Ok? && ParseExec(t, i).next == |t| - |rest| &&
            View(t, ParseExec(t, i).value) == Wrap(View(t, cmd), rs)
  {
    var tail, close := ChainText(rs) + rest, j + 1;
    ChainHead(rs, rest);
    ReadSymbol(t, j, ')', tail);
    ReadChain(t, close, rs, rest);
    var out := Redirs(t, close).value;
    ExecBlock(t, i, open, cmd, j, close, out, |t| - |rest|);
    ViewWrap(t, cmd, out);
  }

  /** Level 1: a pipeline. */
  lemma {:induction false} ReadPipe(tree: Tree, t: string, i: nat, rest: string)
    requires Fine(tree) && Reads(t, i, Spell(tree, 1) + rest) && After1(rest)
    ensures ParsePipe(t, i).Ok? && ParsePipe(t, i).next == |t| - |rest| && View(t, ParsePipe(t, i).value) == tree
    decreases |Spell(tree, 1)|, 1
  {
    if tree.Pipe? {
      ReadPiped(tree, t, i, rest);
    } else {
      assert Spell(tree, 1) == Spell(tree, 0);
      ReadExec(tree, t, i, rest);
      var left := ParseExec(t, i);
      Past(t, i, Spell(tree, 0), rest, left.next);
      NoSkip(t, left.next, rest);
      PipeStop(t, i, left.value, left.next);
    }
  }

  lemma {:induction false} BarNext(tree: Tree, t: string, i: nat, rest: string)
    requires Fine(tree) && Reads(t, i, ['|'] + (Spell(tree, 1) + rest)) && After1(rest)
    ensures Skip(t, i) == i && At(t, i) == '|' && i + 1 <= |t|
    ensures GetToken(t, i) == Token('|', i, i + 1, i + 1) && Reads(t, i + 1, Spell(tree, 1) + rest)
  {
    SpellHead(tree, 1, rest);
    ReadSymbol(t, i, '|', Spell(tree, 1) + rest);
  }

  lemma {:induction false} ReadPiped(tree: Tree, t: string, i: nat, rest: string)
    requires tree.Pipe? && Fine(tree) && Reads(t, i, Spell(tree, 1) + rest) && After1(rest)
    ensures ParsePipe(t, i).Ok? && ParsePipe(t, i).next == |t| - |rest| && View(t, ParsePipe(t, i).value) == tree
    decreases |Spell(tree, 1)|, 0
  {
    var l, r := tree.left, tree.right;
    var tail := Spell(r, 1) + rest;
    assert Spell(tree, 1) + rest == Spell(l, 0) + (['|'] + tail);
    ReadExec(l, t, i, ['|'] + tail);
    var left := ParseExec(t, i);
    Past(t, i, Spell(l, 0), ['|'] + tail, left.next);
    BarNext(r, t, left.next, rest);
    var k := left.next + 1;
    ReadPipe(r, t, k, rest);
    var right := ParsePipe(t, k);
    PipeGo(t, i, left.value, left.next, k, right.value, right.next);
  }

  /** Level 2: a pipeline and its '&'s, up to what is left of the loop. */
  lemma {:induction false} ReadBack(tree: Tree, t: string, i: nat, rest: string, e: nat) returns (cmd: Cmd<Span>)
    requires Fine(tree) && Reads(t, i, Spell(tree, 2) + rest) && After1(rest) && e == |t| - |rest|
    ensures Heads(t, i, cmd, e) && View(t, cmd) == tree
    decreases |Spell(tree, 2)|, 2
  {
    if tree.Back? {
      var body, tail := Spell(tree.cmd, 2), ['&'] + rest;
      assert Spell(tree, 2) + rest == body + tail;
      var j := i + |body|;
      Advance(t, i, body, tail);
      assert |t[j..]| == 1 + |rest|;
      var inner := ReadBack(tree.cmd, t, i, tail, j);
      ReadSymbol(t, j, '&', rest);
      HeadsBack(t, i, inner, j, e);
      cmd := Back(inner);
    } else {
      assert Spell(tree, 2) == Spell(tree, 1);
      ReadPipe(tree, t, i, rest);
      cmd := ParsePipe(t, i).value;
      HeadsPipe(t, i, cmd, e);
    }
  }

  /** Level 3: a whole line. */
  lemma {:induction false} ReadLine(tree: Tree, t: string, i: nat, rest: string)
    requires Fine(tree) && Reads(t, i, Raw(tree) + rest) && After3(rest)
    ensures ParseLine(t, i).Ok? && ParseLine(t, i).next == |t| - |rest| && View(t, ParseLine(t, i).value) == tree
    decreases |Raw(tree)|, 3
  {
    if tree.List? {
      ReadListed(tree, t, i, rest);
    } else {
      var e := |t| - |rest|;
      assert |t[i..]| == |Raw(tree)| + |rest|;
      var cmd := ReadBack(tree, t, i, rest, e);
      Past(t, i, Raw(tree), rest, e);
      NoSkip(t, e, rest);
      LineStop(t, i, cmd, e);
    }
  }

  lemma {:induction false} SemiNext(tree: Tree, t: string, i: nat, rest: string)
    requires Fine(tree) && Reads(t, i, [';'] + (Raw(tree) + rest)) && After3(rest)
    ensures Skip(t, i) == i && At(t, i) == ';' && i + 1 <= |t|
    ensures GetToken(t, i) == Token(';', i, i + 1, i + 1) && Reads(t, i + 1, Raw(tree) + rest)
  {
    RawHead(tree, rest);
    ReadSymbol(t, i, ';', Raw(tree) + rest);
  }

  lemma {:induction false} ReadListed(tree: Tree, t: string, i: nat, rest: string)
    requires tree.List? && Fine(tree) && Reads(t, i, Raw(tree) + rest) && After3(rest)
    ensures ParseLine(t, i).Ok? && ParseLine(t, i).next == |t| - |rest| && View(t, ParseLine(t, i).value) == tree
    decreases |Raw(tree)|, 0
  {
    var l, r := tree.left, tree.right;
    var tail := Raw(r) + rest;
    assert Raw(tree) + rest == Spell(l, 2) + ([';'] + tail);
    var k := |t| - |[';'] + tail|;
    assert |t[i..]| == |Spell(l, 2)| + |[';'] + tail|;
    var cmd := ReadBack(l, t, i, [';'] + tail, k);
    Past(t, i, Spell(l, 2), [';'] + tail, k);
    SemiNext(r, t, k, rest);
    var m := k + 1;
    ReadLine(r, t, m, rest);
    var right := ParseLine(t, m);
    LineGo(t, i, cmd, k, m, right.value, right.next);
  }

  /** The round trip: parsing the canonical spelling of a tree gives the tree back. */
  lemma {:induction false} RoundTrip(tree: Tree)
    requires Fine(tree)
    ensures var t := Spell(tree, 3); Parse(t).Ok? && View(t, Parse(t).value) == tree
  {
    var t := Spell(tree, 3);
    assert t[0..] == t == Raw(tree) + "";
    ReadLine(tree, t, 0, "");
  }

  /** Only fine trees come out of the parser. */
  lemma {:induction false} StoredFine(t: string, cmd: Cmd<Span>)
    requires '\0' !in t && Stored(t, cmd)
    ensures Fine(View(t, cmd))
  {
    match cmd
    case Exec(argv) =>
      forall k | 0 <= k < |argv|
        ensures WordOk(Text(t, argv[k]))
      {
        WordText(t, argv[k]);
      }
    case Redir(c, f, _) =>
      assert f in Spans(cmd);
      assert forall w :: w in Spans(c) ==> w in Spans(cmd);
      WordText(t, f);
      StoredFine(t, c);
    case Pipe(l, r) =>
      assert forall w :: w in Spans(l) || w in Spans(r) ==> w in Spans(cmd);
      StoredFine(t, l);
      StoredFine(t, r);
    case List(l, r) =>
      assert forall w :: w in Spans(l) || w in Spans(r) ==> w in Spans(cmd);
      StoredFine(t, l);
      StoredFine(t, r);
    case Back(c) => StoredFine(t, c);
  }

  lemma {:induction false} WordText(t: string, w: Span)
    requires '\0' !in t && WordAt(t, w)
    ensures WordOk(Text(t, w))
  {
    forall k | 0 <= k < |Text(t, w)|
      ensures WordChar(Text(t, w)[k])
    {
      assert Text(t, w)[k] == t[w.q + k];
      assert t[w.q + k] in t;
    }
  }

  lemma {:induction false} JoinClean(ws: seq<string>)
    requires forall k :: 0 <= k < |ws| ==> WordOk(ws[k])
    ensures '\0' !in Join(ws)
  {
    if |ws| > 0 {
      JoinClean(ws[1..]);
      assert forall k :: 0 <= k < |ws[0]| ==> WordChar(ws[0][k]);
    }
  }

  /** A canonical spelling is a line: no NUL in it. */
  lemma {:induction false} SpellClean(tree: Tree, level: nat)
    requires Fine(tree)
    ensures '\0' !in Raw(tree) && '\0' !in Spell(tree, level)
    decreases tree
  {
    match tree
    case Exec(ws) => JoinClean(ws);
    case Redir(c, f, _) =>
      SpellClean(c, 0);
      assert forall k :: 0 <= k < |f| ==> WordChar(f[k]);
    case Pipe(l, r) =>
      SpellClean(l, 0);
      SpellClean(r, 1);
    case List(l, r) =>
      SpellClean(l, 2);
      SpellClean(r, 3);
    case Back(c) => SpellClean(c, 2);
  }

  /** Spelling out what was parsed and parsing again changes nothing. */
  lemma {:induction false} ParsedFine(t: string)
    requires '\0' !in t && Parse(t).Ok?
    ensures Fine(View(t, Parse(t).value))
    ensures var u := Spell(View(t, Parse(t).value), 3);
              '\0' !in u && Parse(u).Ok? && View(u, Parse(u).value) == View(t, Parse(t).value)
  {
    LineWords(t, 0);
    StoredFine(t, Parse(t).value);
    RoundTrip(View(t, Parse(t).value));
    SpellClean(View(t, Parse(t).value), 3);
  }

  /** The line t parses to the tree. */
  predicate ParsesTo(t: string, tree: Tree) { '\0' !in t && Parse(t).Ok? && View(t, Parse(t).value) == tree }

  /** The parser's language: a tree is the parse of some line exactly when it is fine. */
  lemma {:induction false} ParsedExactly(tree: Tree)
    ensures Fine(tree) <==> exists t :: ParsesTo(t, tree)
  {
    if Fine(tree) {
      RoundTrip(tree);
      SpellClean(tree, 3);
      assert ParsesTo(Spell(tree, 3), tree);
    }
    if t :| ParsesTo(t, tree) {
      ParsedFine(t);
    }
  }

  // -------------------------------------------- redirections before the words

  datatype Simple = Simple(words: seq<Span>, redirs: seq<Redirection<Span>>)

  /** What the loop of parseexec reads: words and redirections, each in order. */
  function ReadSimples(t: string, i: nat, argv: seq<Span>): Result<Simple>
    requires i <= |t|
    decreases |t| - i
  {
    var p := Skip(t, i);
    if EndsExec(At(t, p)) then Ok(Simple(argv, []), p)
    else
      var k := GetToken(t, p);
      if k.tok == '\0' then Ok(Simple(argv, []), k.next)
      else if k.tok != 'a' then Err(Syntax)
      else if |argv| + 1 >= MAXARGS then Err(TooManyArgs)
      else
        match Redirs(t, k.next)
        case Err(e) => Err(e)
        case Ok(more, next) =>
          match ReadSimples(t, next, argv + [Span(k.q, k.eq)])
          case Err(e) => Err(e)
          case Ok(s, n) => Ok(Simple(s.words, more + s.redirs), n)
  }

  function Wrapped(r: Result<Simple>, rs: seq<Redirection<Span>>): Result<Cmd<Span>> {
    match r
    case Err(e) => Err(e)
    case Ok(s, n) => Ok(Wrap(Exec(s.words), rs + s.redirs), n)
  }

  /** Another word, and redirections after it. */
  predicate WordNext(t: string, i: nat, argv: seq<Span>) {
    i <= |t| && !EndsExec(At(t, Skip(t, i))) && GetToken(t, Skip(t, i)).tok == 'a' && |argv| + 1 < MAXARGS &&
    Redirs(t, GetToken(t, Skip(t, i)).next).Ok?
  }

  lemma {:induction false} ArgsMove(t: string, i: nat, argv: seq<Span>, rs: seq<Redirection<Span>>)
    requires WordNext(t, i, argv)
    ensures var k := GetToken(t, Skip(t, i));
            var r := Redirs(t, k.next);
            Args(t, i, argv, rs) == Args(t, r.next, argv + [Span(k.q, k.eq)], rs + r.value)
  {
  }

  lemma {:induction false} SimplesMove(t: string, i: nat, argv: seq<Span>)
    requires WordNext(t, i, argv)
    ensures var k := GetToken(t, Skip(t, i));
            var r := Redirs(t, k.next);
            var s := ReadSimples(t, r.next, argv + [Span(k.q, k.eq)]);
            ReadSimples(t, i, argv) == if s.Err? then s else Ok(Simple(s.value.words, r.value + s.value.redirs), s.next)
  {
  }

  lemma {:induction false} SimplesEnd(t: string, i: nat, argv: seq<Span>, rs: seq<Redirection<Span>>)
    requires i <= |t| && !WordNext(t, i, argv)
    ensures Args(t, i, argv, rs) == Wrapped(ReadSimples(t, i, argv), rs)
  {
    assert rs + [] == rs;
  }

  /** Redirections wrap the command in the order they stand, wherever they stand. */
  lemma {:induction false} ArgsSimple(t: string, i: nat, argv: seq<Span>, rs: seq<Redirection<Span>>)
    requires i <= |t|
    ensures Args(t, i, argv, rs) == Wrapped(ReadSimples(t, i, argv), rs)
    decreases |t| - i
  {
    if WordNext(t, i, argv) {
      var k := GetToken(t, Skip(t, i));
      var r := Redirs(t, k.next);
      ArgsMove(t, i, argv, rs);
      SimplesMove(t, i, argv);
      ArgsSimple(t, r.next, argv + [Span(k.q, k.eq)], rs + r.value);
      var s := ReadSimples(t, r.next, argv + [Span(k.q, k.eq)]);
      if s.Ok? {
        Assoc(rs, r.value, s.value.redirs);
      }
    } else {
      SimplesEnd(t, i, argv, rs);
    }
  }

  /** The last redirection, with one blank and a word after it. */
  lemma {:induction false} ReadRedirLast(t: string, i: nat, r: Redirection<string>, more: string, e: nat)
    requires Reads(t, i, (Sign(r.mode) + r.file) + (" " + more)) && more != "" && WordChar(more[0]) && WordOk(r.file)
    requires e == |t| - |more|
    ensures Redirs(t, i).Ok? && Redirs(t, i).next == e && Files(t, Redirs(t, i).value) == [r] && Reads(t, e, more)
  {
    var p := i + 1;
    var j := p + |r.file|;
    ReadRedirectionThen(t, i, r.mode, r.file, more, p, j, j + 1);
    Past(t, i, (Sign(r.mode) + r.file) + " ", more, e);
    NoRedirs(t, e, more);
    assert Redirs(t, i).value == [Redirection(Span(p, j), r.mode)] + [];
    FilesCons(t, Redirection(Span(p, j), r.mode), []);
    assert Files(t, []) == [];
  }

  lemma {:induction false} ChainCons(rs: seq<Redirection<string>>, more: string)
    requires rs != []
    ensures ChainText(rs) + more == (Sign(rs[0].mode) + rs[0].file) + (ChainText(rs[1..]) + more)
  {
  }

  /** A chain of redirections with one blank and a word after it. */
  lemma {:induction false} ReadChainThen(t: string, i: nat, rs: seq<Redirection<string>>, more: string, e: nat)
    requires rs != [] && Reads(t, i, ChainText(rs) + (" " + more)) && more != "" && WordChar(more[0])
    requires (forall r :: r in rs ==> WordOk(r.file)) && e == |t| - |more|
    ensures Redirs(t, i).Ok? && Redirs(t, i).next == e && Files(t, Redirs(t, i).value) == rs && Reads(t, e, more)
    decreases |rs|
  {
    var rest := ChainText(rs[1..]) + (" " + more);
    ChainCons(rs, " " + more);
    if |rs| == 1 {
      assert rest == " " + more && rs == [rs[0]];
      ReadRedirLast(t, i, rs[0], more, e);
    } else {
      var p := i + 1;
      var j := p + |rs[0].file|;
      assert rest[0] == Sign(rs[1].mode)[0];
      ReadRedirection(t, i, rs[0].mode, rs[0].file, rest, p, j);
      ReadChainThen(t, j, rs[1..], more, e);
      FilesCons(t, Redirection(Span(p, j), rs[0].mode), Redirs(t, j).value);
      Split(rs);
    }
  }

  lemma {:induction false} Split<T>(s: seq<T>)
    requires s != []
    ensures s == [s[0]] + s[1..]
  {
  }

  lemma {:induction false} ReadRedirectionThen(t: string, i: nat, m: Mode, f: string, more: string, p: nat, j: nat,
        next: nat)
    requires Reads(t, i, (Sign(m) + f) + (" " + more)) && WordOk(f) && more != "" && WordChar(more[0])
    requires p == i + 1 && j == p + |f| && next == j + 1
    ensures Reads(t, next, more) && Text(t, Span(p, j)) == f
    ensures Redirs(t, i) == After([Redirection(Span(p, j), m)], Redirs(t, next))
  {
    var c := Sign(m)[0];
    assert (Sign(m) + f) + (" " + more) == [c] + (f + (" " + more));
    assert (f + (" " + more))[0] == f[0];
    ReadSymbol(t, i, c, f + (" " + more));
    ReadSpaced(t, p, f, more, j, next);
  }

  lemma {:induction false} WrapRedir<W>(cmd: Cmd<W>, rs: seq<Redirection<W>>)
    ensures (rs != [] || cmd.Redir?) ==> Wrap(cmd, rs).Redir?
    decreases |rs|
  {
    if rs != [] {
      WrapRedir(Redir(cmd, rs[0].file, rs[0].mode), rs[1..]);
    }
  }

  /** Words read after redirections are read as they would be without them. */
  lemma {:induction false} ArgsAfter(t: string, i: nat, got: seq<Span>, rs: seq<Redirection<Span>>, e: nat)
    requires i <= |t| && Args(t, i, [], []) == Ok(Exec(got), e)
    ensures Args(t, i, [], rs) == Ok(Wrap(Exec(got), rs), e)
  {
    ArgsSimple(t, i, [], []);
    ArgsSimple(t, i, [], rs);
    var r := ReadSimples(t, i, []);
    WrapRedir(Exec(r.value.words), [] + r.value.redirs);
    assert r.value.redirs == [] && rs + [] == rs;
  }

  /** A line that is one command. */
  lemma {:induction false} ExecAlone(t: string)
    requires ParseExec(t, 0).Ok? && ParseExec(t, 0).next == |t|
    ensures Parse(t) == Ok(ParseExec(t, 0).value, |t|)
  {
    var cmd := ParseExec(t, 0).value;
    assert Skip(t, |t|) == |t| && At(t, |t|) == '\0';
    assert ParsePipe(t, 0) == Ok(cmd, |t|);
    assert Backs(t, cmd, |t|) == Ok(cmd, |t|);
    assert ParseLine(t, 0) == Ok(cmd, |t|);
  }

  /** The words that end a line. */
  lemma {:induction false} LastWords(t: string, i: nat, ws: seq<string>) returns (got: seq<Span>)
    requires Reads(t, i, Join(ws)) && ws != [] && |ws| < MAXARGS && forall k :: 0 <= k < |ws| ==> WordOk(ws[k])
    ensures i <= |t| && Args(t, i, [], []) == Ok(Exec(got), |t|) && Texts(t, got) == ws
  {
    assert Join(ws) + (ChainText([]) + "") == Join(ws);
    var none;
    got, none := ReadArgs(t, i, ws, [], "", [], |t|);
    assert |Files(t, none)| == 0 && none == [] && [] + got == got;
  }

  lemma {:induction false} RedirsFirst(t: string, ws: seq<string>, rs: seq<Redirection<string>>)
    requires t == ChainText(rs) + (" " + Join(ws)) && ws != [] && |ws| < MAXARGS && rs != []
    requires (forall k :: 0 <= k < |ws| ==> WordOk(ws[k])) && forall r :: r in rs ==> WordOk(r.file)
    ensures ParseExec(t, 0).Ok? && ParseExec(t, 0).next == |t| && View(t, ParseExec(t, 0).value) == Wrap(Exec(ws), rs)
  {
    var more := Join(ws);
    var e := |t| - |more|;
    assert t[0..] == t && t[0] == Sign(rs[0].mode)[0];
    JoinHead(ws, "");
    assert more + "" == more;
    ReadChainThen(t, 0, rs, more, e);
    var out := Redirs(t, 0).value;
    ExecPlain(t, 0, out, e);
    var got := LastWords(t, e, ws);
    ArgsAfter(t, e, got, out, |t|);
    ViewWrap(t, Exec(got), out);
  }

  /** Redirections may stand before the words or after them: the tree is the same. */
  lemma {:induction false} EitherSide(ws: seq<string>, rs: seq<Redirection<string>>)
    requires ws != [] && |ws| < MAXARGS && rs != []
    requires (forall k :: 0 <= k < |ws| ==> WordOk(ws[k])) && forall r :: r in rs ==> WordOk(r.file)
    ensures var t := ChainText(rs) + (" " + Join(ws)); Parse(t).Ok? && View(t, Parse(t).value) == Wrap(Exec(ws), rs)
    ensures var u := Join(ws) + ChainText(rs); Parse(u).Ok? && View(u, Parse(u).value) == Wrap(Exec(ws), rs)
  {
    var t, u := ChainText(rs) + (" " + Join(ws)), Join(ws) + ChainText(rs);
    RedirsFirst(t, ws, rs);
    ExecAlone(t);
    assert u[0..] == u && Join(ws) + (ChainText(rs) + "") == u;
    ReadSimple(u, 0, ws, rs, "", |u|);
    ExecAlone(u);
  }
}

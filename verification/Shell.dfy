/** The shell's parser (sh.c): token scanner, recursive descent and NUL termination,
    with the round trip through a canonical spelling. */
module Shell {

  const MAXARGS := 10

  /** A command tree over W: character spans while parsing, words for the reader. */
  datatype Cmd<W> =
    | Exec(argv: seq<W>)
    | Redir(cmd: Cmd<W>, file: W, mode: Mode)
    | Pipe(left: Cmd<W>, right: Cmd<W>)
    | List(left: Cmd<W>, right: Cmd<W>)
    | Back(cmd: Cmd<W>)

  /** Input is O_RDONLY on descriptor 0, Output O_WRONLY|O_CREATE on 1. */
  datatype Mode = Input | Output

  /** The pointers q and eq, as offsets in the command line. */
  datatype Span = Span(q: nat, eq: nat)

  datatype Panic = Syntax | MissingParen | MissingFile | TooManyArgs | Leftovers

  datatype Result<T> = Ok(value: T, next: nat) | Err(panic: Panic)

  // --------------------------------------------------------------- scanner

  predicate Space(c: char) { c == ' ' || c == '\t' || c == '\r' || c == '\n' || c == '\U{0B}' }

  predicate Symbol(c: char) { c == '<' || c == '|' || c == '>' || c == '&' || c == ';' || c == '(' || c == ')' }

  predicate WordChar(c: char) { !Space(c) && !Symbol(c) && c != '\0' }

  /** *s, where the NUL that ends the line is at |t|. */
  function At(t: string, i: nat): char { if i < |t| then t[i] else '\0' }

  function Skip(t: string, i: nat): (r: nat)
    requires i <= |t|
    ensures i <= r <= |t| && !Space(At(t, r))
    decreases |t| - i
  {
    if i < |t| && Space(t[i]) then Skip(t, i + 1) else i
  }

  /** The end of the word that starts at i. */
  function WordEnd(t: string, i: nat): (r: nat)
    requires i <= |t|
    ensures i <= r <= |t|
    decreases |t| - i
  {
    if i < |t| && !Space(t[i]) && !Symbol(t[i]) then WordEnd(t, i + 1) else i
  }

  /** What gettoken returns: the token kind, its span and the advanced cursor. */
  datatype Token = Token(tok: char, q: nat, eq: nat, next: nat)

  function GetToken(t: string, i: nat): (k: Token)
    requires i <= |t|
    ensures i <= k.q <= k.eq <= k.next <= |t|
    ensures k.tok == '\0' <==> At(t, Skip(t, i)) == '\0'
    ensures k.tok != '\0' ==> k.q < k.eq && i < k.next
    ensures k.tok == 'a' <==> !Symbol(At(t, Skip(t, i))) && At(t, Skip(t, i)) != '\0'
  {
    var q := Skip(t, i);
    var c := At(t, q);
    if c == '\0' then Token('\0', q, q, Skip(t, q))
    else if c == '>' && At(t, q + 1) == '>' then Token('+', q, q + 2, Skip(t, q + 2))
    else if Symbol(c) then Token(c, q, q + 1, Skip(t, q + 1))
    else Token('a', q, WordEnd(t, q), Skip(t, WordEnd(t, q)))
  }

  method SkipSpace(t: string, i: nat) returns (s: nat)
    requires i <= |t|
    ensures s == Skip(t, i)
  {
    s := i;
    while s < |t| && Space(t[s])
      invariant i <= s <= |t| && Skip(t, s) == Skip(t, i)
    {
      s := s + 1;
    }
  }

  method Gettoken(t: string, i: nat) returns (k: Token)
    requires i <= |t|
    ensures k == GetToken(t, i)
  {
    var q := SkipSpace(t, i);
    var ret, s := At(t, q), q;
    if ret == '\0' {
    } else if ret == '|' || ret == '(' || ret == ')' || ret == ';' || ret == '&' || ret == '<' {
      s := s + 1;
    } else if ret == '>' {
      s := s + 1;
      if At(t, s) == '>' {
        ret := '+';
        s := s + 1;
      }
    } else {
      ret := 'a';
      while s < |t| && !Space(t[s]) && !Symbol(t[s])
        invariant q <= s <= |t| && WordEnd(t, s) == WordEnd(t, q)
      {
        s := s + 1;
      }
    }
    var next := SkipSpace(t, s);
    return Token(ret, q, s, next);
  }

  /** peek: advances past blanks and says whether the next character is one of toks. */
  method Peek(t: string, i: nat, toks: string) returns (s: nat, yes: bool)
    requires i <= |t|
    ensures s == Skip(t, i)
    ensures yes <==> At(t, s) != '\0' && At(t, s) in toks
  {
    s := SkipSpace(t, i);
    yes := At(t, s) != '\0' && At(t, s) in toks;
  }

  // ---------------------------------------------------------------- grammar

  datatype Redirection<W> = Redirection(file: W, mode: Mode)

  function Wrap<W>(cmd: Cmd<W>, rs: seq<Redirection<W>>): Cmd<W>
    decreases |rs|
  {
    if rs == [] then cmd else Wrap(Redir(cmd, rs[0].file, rs[0].mode), rs[1..])
  }

  /** parseredirs, as the list of redirections it wraps around its command. */
  function Redirs(t: string, i: nat): (r: Result<seq<Redirection<Span>>>)
    requires i <= |t|
    ensures r.Ok? ==> i <= r.next <= |t|
    decreases |t| - i
  {
    var p := Skip(t, i);
    if At(t, p) != '<' && At(t, p) != '>' then Ok([], p)
    else
      var k := GetToken(t, p);
      var f := GetToken(t, k.next);
      if f.tok != 'a' then Err(MissingFile)
      else
        match Redirs(t, f.next)
        case Err(e) => Err(e)
        case Ok(rs, next) => Ok([Redirection(Span(f.q, f.eq), if k.tok == '<' then Input else Output)] + rs, next)
  }

  predicate EndsExec(c: char) { c == '|' || c == ')' || c == '&' || c == ';' }

  /** The loop of parseexec, from the words and redirections already read. */
  function Args(t: string, i: nat, argv: seq<Span>, rs: seq<Redirection<Span>>): (r: Result<Cmd<Span>>)
    requires i <= |t|
    ensures r.Ok? ==> i <= r.next <= |t|
    decreases |t| - i
  {
    var p := Skip(t, i);
    if EndsExec(At(t, p)) then Ok(Wrap(Exec(argv), rs), p)
    else
      var k := GetToken(t, p);
      if k.tok == '\0' then Ok(Wrap(Exec(argv), rs), k.next)
      else if k.tok != 'a' then Err(Syntax)
      else if |argv| + 1 >= MAXARGS then Err(TooManyArgs)
      else
        match Redirs(t, k.next)
        case Err(e) => Err(e)
        case Ok(more, next) => Args(t, next, argv + [Span(k.q, k.eq)], rs + more)
  }

  function ParseExec(t: string, i: nat): (r: Result<Cmd<Span>>)
    requires i <= |t|
    ensures r.Ok? ==> i <= r.next <= |t|
    decreases |t| - i, 0
  {
    var p := Skip(t, i);
    if At(t, p) == '(' then
      var k := GetToken(t, p);
      match ParseLine(t, k.next)
      case Err(e) => Err(e)
      case Ok(cmd, j) =>
        var close := Skip(t, j);
        if At(t, close) != ')' then Err(MissingParen)
        else
          match Redirs(t, GetToken(t, close).next)
          case Err(e) => Err(e)
          case Ok(rs, next) => Ok(Wrap(cmd, rs), next)
    else
      match Redirs(t, p)
      case Err(e) => Err(e)
      case Ok(rs, next) => Args(t, next, [], rs)
  }

  function ParsePipe(t: string, i: nat): (r: Result<Cmd<Span>>)
    requires i <= |t|
    ensures r.Ok? ==> i <= r.next <= |t|
    decreases |t| - i, 1
  {
    match ParseExec(t, i)
    case Err(e) => Err(e)
    case Ok(cmd, j) =>
      var p := Skip(t, j);
      if At(t, p) != '|' then Ok(cmd, p)
      else
        match ParsePipe(t, GetToken(t, p).next)
        case Err(e) => Err(e)
        case Ok(right, next) => Ok(Pipe(cmd, right), next)
  }

  /** parseline's loop over '&'. */
  function Backs(t: string, cmd: Cmd<Span>, i: nat): (r: Result<Cmd<Span>>)
    requires i <= |t|
    ensures r.Ok? && i <= r.next <= |t|
    decreases |t| - i
  {
    var p := Skip(t, i);
    if At(t, p) != '&' then Ok(cmd, p) else Backs(t, Back(cmd), GetToken(t, p).next)
  }

  function ParseLine(t: string, i: nat): (r: Result<Cmd<Span>>)
    requires i <= |t|
    ensures r.Ok? ==> i <= r.next <= |t|
    decreases |t| - i, 2
  {
    match ParsePipe(t, i)
    case Err(e) => Err(e)
    case Ok(first, j) =>
      var b := Backs(t, first, j);
      var p := Skip(t, b.next);
      if At(t, p) != ';' then Ok(b.value, p)
      else
        match ParseLine(t, GetToken(t, p).next)
        case Err(e) => Err(e)
        case Ok(right, next) => Ok(List(b.value, right), next)
  }

  /** parsecmd before nulterminate. */
  function Parse(t: string): Result<Cmd<Span>> {
    match ParseLine(t, 0)
    case Err(e) => Err(e)
    case Ok(cmd, i) => if Skip(t, i) != |t| then Err(Leftovers) else Ok(cmd, |t|)
  }

  // ------------------------------------------------------- recursive descent

  /** Skipping blanks once is enough. */
  lemma {:induction false} SkipTwice(t: string, i: nat)
    requires i <= |t|
    ensures Redirs(t, Skip(t, i)) == Redirs(t, i)
  {
  }

  lemma {:induction false} ArgsSkip(t: string, i: nat, argv: seq<Span>, rs: seq<Redirection<Span>>)
    requires i <= |t|
    ensures Args(t, Skip(t, i), argv, rs) == Args(t, i, argv, rs)
  {
  }

  /** What is left to read, put after what has been read. */
  function After(rs: seq<Redirection<Span>>, r: Result<seq<Redirection<Span>>>): Result<seq<Redirection<Span>>> {
    match r
    case Err(e) => Err(e)
    case Ok(more, next) => Ok(rs + more, next)
  }

  lemma {:induction false} AfterOne(rs: seq<Redirection<Span>>, one: Redirection<Span>,
        r: Result<seq<Redirection<Span>>>)
    ensures After(rs, After([one], r)) == After(rs + [one], r)
  {
    if r.Ok? {
      assert rs + ([one] + r.value) == (rs + [one]) + r.value;
    }
  }

  lemma {:induction false} AfterNone(r: Result<seq<Redirection<Span>>>)
    ensures After([], r) == r
  {
    if r.Ok? {
      assert [] + r.value == r.value;
    }
  }

  /** One round of parseredirs: an operator and its file. */
  method Redirect(t: string, s: nat) returns (ok: bool, one: Redirection<Span>, next: nat)
    requires s <= |t| && s == Skip(t, s) && (At(t, s) == '<' || At(t, s) == '>')
    ensures s < next <= |t|
    ensures Redirs(t, s) == if ok then After([one], Redirs(t, next)) else Err(MissingFile)
  {
    var k := Gettoken(t, s);
    var f := Gettoken(t, k.next);
    return f.tok == 'a', Redirection(Span(f.q, f.eq), if k.tok == '<' then Input else Output), f.next;
  }

  method Parseredirs(t: string, i: nat) returns (r: Result<seq<Redirection<Span>>>)
    requires i <= |t|
    ensures r == Redirs(t, i)
  {
    var rs: seq<Redirection<Span>> := [];
    SkipTwice(t, i);
    AfterNone(Redirs(t, i));
    var s, yes := Peek(t, i, "<>");
    while yes
      invariant s <= |t| && s == Skip(t, s) && (yes <==> At(t, s) == '<' || At(t, s) == '>')
      invariant Redirs(t, i) == After(rs, Redirs(t, s))
      decreases |t| - s
    {
      var ok, one, next := Redirect(t, s);
      if !ok {
        return Err(MissingFile);
      }
      AfterOne(rs, one, Redirs(t, next));
      SkipTwice(t, next);
      rs := rs + [one];
      s, yes := Peek(t, next, "<>");
    }
    assert rs + [] == rs;
    return Ok(rs, s);
  }

  method Parseblock(t: string, i: nat) returns (r: Result<Cmd<Span>>)
    requires i <= |t| && At(t, Skip(t, i)) == '('
    ensures r == ParseExec(t, i)
    decreases |t| - i, 3
  {
    var s := SkipSpace(t, i);
    var k := Gettoken(t, s);
    r := Parseline(t, k.next);
    if r.Err? {
      return;
    }
    var close, yes := Peek(t, r.next, ")");
    if !yes {
      return Err(MissingParen);
    }
    k := Gettoken(t, close);
    var rs := Parseredirs(t, k.next);
    if rs.Err? {
      return Err(rs.panic);
    }
    return Ok(Wrap(r.value, rs.value), rs.next);
  }

  datatype Round = Stop(r: Result<Cmd<Span>>) | More(argv: seq<Span>, rs: seq<Redirection<Span>>, next: nat)

  /** One round of parseexec's loop: a word and the redirections after it. */
  method Argument(t: string, s: nat, argv: seq<Span>, rs: seq<Redirection<Span>>) returns (o: Round)
    requires s <= |t| && s == Skip(t, s) && !EndsExec(At(t, s)) && |argv| < MAXARGS
    ensures o.Stop? ==> o.r == Args(t, s, argv, rs)
    ensures o.More? ==> s < o.next <= |t| && |o.argv| < MAXARGS && Args(t, s, argv, rs) == Args(t, o.next, o.argv, o.rs)
  {
    var k := Gettoken(t, s);
    if k.tok == '\0' {
      return Stop(Ok(Wrap(Exec(argv), rs), k.next));
    }
    if k.tok != 'a' {
      return Stop(Err(Syntax));
    }
    var longer := argv + [Span(k.q, k.eq)];
    if |longer| >= MAXARGS {
      return Stop(Err(TooManyArgs));
    }
    var more := Parseredirs(t, k.next);
    if more.Err? {
      return Stop(Err(more.panic));
    }
    return More(longer, rs + more.value, more.next);
  }

  /** The words of parseexec, after its first redirections. */
  method Parseargs(t: string, i: nat, first: seq<Redirection<Span>>) returns (r: Result<Cmd<Span>>)
    requires i <= |t|
    ensures r == Args(t, i, [], first)
  {
    var argv: seq<Span>, rs := [], first;
    ArgsSkip(t, i, argv, rs);
    var s, yes := Peek(t, i, "|)&;");
    while !yes
      invariant s <= |t| && s == Skip(t, s) && (yes <==> EndsExec(At(t, s)))
      invariant |argv| < MAXARGS && Args(t, s, argv, rs) == Args(t, i, [], first)
      decreases |t| - s
    {
      var o := Argument(t, s, argv, rs);
      if o.Stop? {
        return o.r;
      }
      argv, rs := o.argv, o.rs;
      ArgsSkip(t, o.next, argv, rs);
      s, yes := Peek(t, o.next, "|)&;");
    }
    return Ok(Wrap(Exec(argv), rs), s);
  }

  method Parseexec(t: string, i: nat) returns (r: Result<Cmd<Span>>)
    requires i <= |t|
    ensures r == ParseExec(t, i)
    decreases |t| - i, 4
  {
    var s, yes := Peek(t, i, "(");
    if yes {
      r := Parseblock(t, i);
      return;
    }
    var rs := Parseredirs(t, s);
    if rs.Err? {
      return Err(rs.panic);
    }
    r := Parseargs(t, rs.next, rs.value);
  }

  method Parsepipe(t: string, i: nat) returns (r: Result<Cmd<Span>>)
    requires i <= |t|
    ensures r == ParsePipe(t, i)
    decreases |t| - i, 5
  {
    r := Parseexec(t, i);
    if r.Err? {
      return;
    }
    var s, yes := Peek(t, r.next, "|");
    if !yes {
      return Ok(r.value, s);
    }
    var k := Gettoken(t, s);
    var right := Parsepipe(t, k.next);
    if right.Err? {
      return Err(right.panic);
    }
    return Ok(Pipe(r.value, right.value), right.next);
  }

  method Parseline(t: string, i: nat) returns (r: Result<Cmd<Span>>)
    requires i <= |t|
    ensures r == ParseLine(t, i)
    decreases |t| - i, 6
  {
    r := Parsepipe(t, i);
    if r.Err? {
      return;
    }
    var cmd := r.value;
    var s, yes := Peek(t, r.next, "&");
    while yes
      invariant r.next <= s <= |t| && s == Skip(t, s) && (yes <==> At(t, s) == '&')
      invariant Backs(t, cmd, s) == Backs(t, r.value, r.next)
      decreases |t| - s
    {
      var k := Gettoken(t, s);
      cmd := Back(cmd);
      s, yes := Peek(t, k.next, "&");
    }
    s, yes := Peek(t, s, ";");
    if !yes {
      return Ok(cmd, s);
    }
    var k := Gettoken(t, s);
    var right := Parseline(t, k.next);
    if right.Err? {
      return Err(right.panic);
    }
    return Ok(List(cmd, right.value), right.next);
  }

  // ---------------------------------------------------------- stored pointers

  function Spans<W>(cmd: Cmd<W>): seq<W> {
    match cmd
    case Exec(argv) => argv
    case Redir(c, file, _) => Spans(c) + [file]
    case Pipe(l, r) => Spans(l) + Spans(r)
    case List(l, r) => Spans(l) + Spans(r)
    case Back(c) => Spans(c)
  }

  /** A whole word: word characters only, and none right after it. */
  predicate WordAt(t: string, w: Span) {
    && w.q < w.eq <= |t|
    && (forall k :: w.q <= k < w.eq ==> !Space(t[k]) && !Symbol(t[k]))
    && (w.eq < |t| ==> Space(t[w.eq]) || Symbol(t[w.eq]))
  }

  predicate AllWords(t: string, ws: seq<Span>) { forall w :: w in ws ==> WordAt(t, w) }

  predicate AllFiles(t: string, rs: seq<Redirection<Span>>) { forall r :: r in rs ==> WordAt(t, r.file) }

  /** No command has more than nine words. */
  predicate Short<W>(cmd: Cmd<W>) {
    match cmd
    case Exec(argv) => |argv| < MAXARGS
    case Redir(c, _, _) => Short(c)
    case Pipe(l, r) => Short(l) && Short(r)
    case List(l, r) => Short(l) && Short(r)
    case Back(c) => Short(c)
  }

  predicate Stored(t: string, cmd: Cmd<Span>) { AllWords(t, Spans(cmd)) && Short(cmd) }

  lemma {:induction false} WordEndChars(t: string, i: nat)
    requires i <= |t|
    ensures forall k :: i <= k < WordEnd(t, i) ==> !Space(t[k]) && !Symbol(t[k])
    ensures WordEnd(t, i) < |t| ==> Space(t[WordEnd(t, i)]) || Symbol(t[WordEnd(t, i)])
    decreases |t| - i
  {
    if i < |t| && !Space(t[i]) && !Symbol(t[i]) {
      WordEndChars(t, i + 1);
    }
  }

  lemma {:induction false} TokenWord(t: string, i: nat)
    requires i <= |t| && GetToken(t, i).tok == 'a'
    ensures WordAt(t, Span(GetToken(t, i).q, GetToken(t, i).eq))
  {
    WordEndChars(t, Skip(t, i));
  }

  lemma {:induction false} WrapWords(t: string, cmd: Cmd<Span>, rs: seq<Redirection<Span>>)
    requires Stored(t, cmd) && AllFiles(t, rs)
    ensures Stored(t, Wrap(cmd, rs))
    decreases |rs|
  {
    if rs != [] {
      WrapWords(t, Redir(cmd, rs[0].file, rs[0].mode), rs[1..]);
    }
  }

  lemma {:induction false} RedirWords(t: string, i: nat)
    requires i <= |t| && Redirs(t, i).Ok?
    ensures AllFiles(t, Redirs(t, i).value)
    decreases |t| - i
  {
    var p := Skip(t, i);
    if At(t, p) == '<' || At(t, p) == '>' {
      var next := GetToken(t, p).next;
      TokenWord(t, next);
      RedirWords(t, GetToken(t, next).next);
    }
  }

  lemma {:induction false} ArgWords(t: string, i: nat, argv: seq<Span>, rs: seq<Redirection<Span>>)
    requires i <= |t| && Args(t, i, argv, rs).Ok? && AllWords(t, argv) && |argv| < MAXARGS && AllFiles(t, rs)
    ensures Stored(t, Args(t, i, argv, rs).value)
    decreases |t| - i
  {
    var p := Skip(t, i);
    var k := GetToken(t, p);
    if EndsExec(At(t, p)) || k.tok == '\0' {
      WrapWords(t, Exec(argv), rs);
    } else {
      TokenWord(t, p);
      RedirWords(t, k.next);
      var more := Redirs(t, k.next);
      ArgWords(t, more.next, argv + [Span(k.q, k.eq)], rs + more.value);
    }
  }

  lemma {:induction false} ExecWords(t: string, i: nat)
    requires i <= |t| && ParseExec(t, i).Ok?
    ensures Stored(t, ParseExec(t, i).value)
    decreases |t| - i, 0
  {
    var p := Skip(t, i);
    if At(t, p) == '(' {
      var k := GetToken(t, p);
      LineWords(t, k.next);
      var line := ParseLine(t, k.next);
      var j := GetToken(t, Skip(t, line.next)).next;
      RedirWords(t, j);
      WrapWords(t, line.value, Redirs(t, j).value);
    } else {
      RedirWords(t, p);
      ArgWords(t, Redirs(t, p).next, [], Redirs(t, p).value);
    }
  }

  lemma {:induction false} PipeWords(t: string, i: nat)
    requires i <= |t| && ParsePipe(t, i).Ok?
    ensures Stored(t, ParsePipe(t, i).value)
    decreases |t| - i, 1
  {
    ExecWords(t, i);
    var left := ParseExec(t, i);
    var p := Skip(t, left.next);
    if At(t, p) == '|' {
      var k := GetToken(t, p).next;
      PipeWords(t, k);
      var right := ParsePipe(t, k);
      assert ParsePipe(t, i).value == Pipe(left.value, right.value);
    } else {
      assert ParsePipe(t, i).value == left.value;
    }
  }

  lemma {:induction false} BackWords(t: string, cmd: Cmd<Span>, i: nat)
    requires i <= |t|
    ensures Stored(t, cmd) ==> Stored(t, Backs(t, cmd, i).value)
    decreases |t| - i
  {
    var p := Skip(t, i);
    if At(t, p) == '&' {
      BackWords(t, Back(cmd), GetToken(t, p).next);
    }
  }

  /** Every pointer the parser stores delimits a whole word of the line, at most nine
      to a command. */
  lemma {:induction false} LineWords(t: string, i: nat)
    requires i <= |t| && ParseLine(t, i).Ok?
    ensures Stored(t, ParseLine(t, i).value)
    decreases |t| - i, 2
  {
    PipeWords(t, i);
    var first := ParsePipe(t, i);
    BackWords(t, first.value, first.next);
    var b := Backs(t, first.value, first.next);
    var p := Skip(t, b.next);
    if At(t, p) == ';' {
      var k := GetToken(t, p).next;
      LineWords(t, k);
      assert ParseLine(t, i).value == List(b.value, ParseLine(t, k).value);
    } else {
      assert ParseLine(t, i).value == b.value;
    }
  }

  // ------------------------------------------------------------- nulterminate

  predicate Inside(n: nat, ws: seq<Span>) { forall w :: w in ws ==> w.eq < n }

  function NulWords(b: string, ws: seq<Span>): (r: string)
    requires Inside(|b|, ws)
    ensures |r| == |b|
    decreases |ws|
  {
    if ws == [] then b else NulWords(b[ws[0].eq := '\0'], ws[1..])
  }

  lemma {:induction false} NulWordsAt(b: string, ws: seq<Span>, k: nat)
    requires Inside(|b|, ws) && k < |b|
    ensures NulWords(b, ws)[k] == if exists w :: w in ws && w.eq == k then '\0' else b[k]
    decreases |ws|
  {
    if ws != [] {
      NulWordsAt(b[ws[0].eq := '\0'], ws[1..], k);
      assert forall w :: w in ws <==> w == ws[0] || w in ws[1..];
    }
  }

  lemma {:induction false} NulConcat(b: string, u: seq<Span>, v: seq<Span>)
    requires Inside(|b|, u) && Inside(|b|, v)
    ensures NulWords(b, u + v) == NulWords(NulWords(b, u), v)
    decreases |u|
  {
    if u == [] {
      assert u + v == v;
    } else {
      assert (u + v)[1..] == u[1..] + v;
      NulConcat(b[u[0].eq := '\0'], u[1..], v);
    }
  }

  /** nulterminate writes a NUL at the end of every word of the tree and nowhere else. */
  method Nulterminate(buf: array<char>, cmd: Cmd<Span>)
    requires Inside(buf.Length, Spans(cmd))
    modifies buf
    ensures buf[..] == NulWords(old(buf[..]), Spans(cmd))
    decreases cmd
  {
    match cmd
    case Exec(argv) =>
      var i := 0;
      while i < |argv|
        invariant i <= |argv|
        invariant buf[..] == NulWords(old(buf[..]), argv[..i])
      {
        NulConcat(old(buf[..]), argv[..i], [argv[i]]);
        assert argv[..i] + [argv[i]] == argv[..i + 1];
        ghost var was := buf[..];
        buf[argv[i].eq] := '\0';
        assert buf[..] == was[argv[i].eq := '\0'];
        assert [argv[i]][1..] == [];
        i := i + 1;
      }
      assert argv[..i] == argv;
    case Redir(c, file, _) =>
      Nulterminate(buf, c);
      NulConcat(old(buf[..]), Spans(c), [file]);
      ghost var was := buf[..];
      buf[file.eq] := '\0';
      assert buf[..] == was[file.eq := '\0'];
      assert [file][1..] == [];
    case Pipe(l, r) =>
      NulConcat(old(buf[..]), Spans(l), Spans(r));
      Nulterminate(buf, l);
      Nulterminate(buf, r);
    case List(l, r) =>
      NulConcat(old(buf[..]), Spans(l), Spans(r));
      Nulterminate(buf, l);
      Nulterminate(buf, r);
    case Back(c) =>
      Nulterminate(buf, c);
  }

  /** The C string that starts at i. */
  function CString(b: string, i: nat): string
    requires i <= |b|
    decreases |b| - i
  {
    if i < |b| && b[i] != '\0' then [b[i]] + CString(b, i + 1) else []
  }

  lemma {:induction false} CStringIs(b: string, i: nat, j: nat)
    requires i <= j < |b| && b[j] == '\0' && forall k :: i <= k < j ==> b[k] != '\0'
    ensures CString(b, i) == b[i..j]
    decreases j - i
  {
    if i < j {
      CStringIs(b, i + 1, j);
      assert b[i..j] == [b[i]] + b[i + 1..j];
    }
  }

  /** After nulterminate each stored pointer reads back exactly its word: no NUL
      falls inside another word. */
  lemma {:induction false} TokensReadBack(t: string, ws: seq<Span>, w: Span)
    requires '\0' !in t && AllWords(t, ws) && w in ws
    ensures Inside(|t| + 1, ws) && CString(NulWords(t + "\0", ws), w.q) == t[w.q..w.eq]
  {
    assert WordAt(t, w);
    forall v | v in ws
      ensures v.eq < |t| + 1
    {
      assert WordAt(t, v);
    }
    var b := NulWords(t + "\0", ws);
    forall k | w.q <= k < w.eq
      ensures b[k] == t[k] && b[k] != '\0'
    {
      NulWordsAt(t + "\0", ws, k);
      forall v | v in ws
        ensures v.eq != k
      {
        assert WordAt(t, v);
      }
      assert t[k] in t;
    }
    NulWordsAt(t + "\0", ws, w.eq);
    CStringIs(b, w.q, w.eq);
    assert b[w.q..w.eq] == t[w.q..w.eq];
  }

  /** parsecmd on a NUL-terminated line of n characters. */
  method Parsecmd(buf: array<char>, n: nat) returns (r: Result<Cmd<Span>>)
    requires n < buf.Length && buf[n] == '\0' && '\0' !in buf[..n]
    modifies buf
    ensures r == Parse(old(buf[..n]))
    ensures r.Err? ==> buf[..] == old(buf[..])
    ensures r.Ok? ==> forall w :: w in Spans(r.value) ==>
              w.q <= w.eq <= n && CString(buf[..n + 1], w.q) == old(buf[..n])[w.q..w.eq]
  {
    var t := buf[..n];
    r := Parseline(t, 0);
    if r.Err? {
      return;
    }
    var s := SkipSpace(t, r.next);
    if s != |t| {
      return Err(Leftovers);
    }
    r := Ok(r.value, |t|);
    LineWords(t, 0);
    var ws := Spans(r.value);
    forall w | w in ws
      ensures w.q <= w.eq <= n
    {
      assert WordAt(t, w);
    }
    Nulterminate(buf, r.value);
    NulPrefix(old(buf[..]), n + 1, ws);
    assert old(buf[..])[..n + 1] == t + "\0";
    forall w | w in ws
      ensures CString(buf[..n + 1], w.q) == t[w.q..w.eq]
    {
      TokensReadBack(t, ws, w);
    }
  }

  lemma {:induction false} NulPrefix(b: string, n: nat, ws: seq<Span>)
    requires n <= |b| && Inside(n, ws)
    ensures NulWords(b, ws)[..n] == NulWords(b[..n], ws)
    decreases |ws|
  {
    if ws != [] {
      var c := b[ws[0].eq := '\0'];
      NulPrefix(c, n, ws[1..]);
      assert c[..n] == b[..n][ws[0].eq := '\0'];
    }
  }
}

/**
 The shell's command language (sh.c): tokens, command trees, and which trees a sequence of
 tokens stands for. The parser is checked against this grammar.
 */
module ShellGrammar {

  const NUL: char := '\0'

  predicate IsBlank(c: char) {
    c == ' ' || c == '\t' || c == '\r' || c == '\n' || c == (11 as char)
  }

  predicate IsSymbol(c: char) {
    c == '<' || c == '|' || c == '>' || c == '&' || c == ';' || c == '(' || c == ')'
  }

  predicate IsWordChar(c: char) {
    !IsBlank(c) && !IsSymbol(c)
  }

  // ---- Tokens ----------------------------------------------------------------------------------

  /** The characters from `q` up to `eq`. */
  datatype Span = Span(q: nat, eq: nat)

  /** A word, or a symbol; '+' stands for ">>". */
  datatype Token = Word(span: Span) | Sym(c: char, at: nat)

  function Start(t: Token): nat {
    if t.Word? then t.span.q else t.at
  }

  function End(t: Token): nat {
    if t.Word? then t.span.eq else if t.c == '+' then t.at + 2 else t.at + 1
  }

  /** A maximal run of word characters, seen from its first. */
  predicate IsWord(line: string, w: Span) {
    && w.q < w.eq <= |line|
    && (forall k :: w.q <= k < w.eq ==> IsWordChar(line[k]))
    && (w.eq < |line| ==> !IsWordChar(line[w.eq]))
  }

  predicate TokenOk(line: string, t: Token) {
    match t
    case Word(w) => IsWord(line, w)
    case Sym(c, i) =>
      && i < |line|
      && (c == '+' ==> line[i] == '>' && i + 1 < |line| && line[i + 1] == '>')
      && (c != '+' ==> IsSymbol(c) && line[i] == c && (c == '>' && i + 1 < |line| ==> line[i + 1] != '>'))
  }

  predicate Blank(line: string, lo: int, hi: int) {
    0 <= lo <= hi <= |line| && forall k :: lo <= k < hi ==> IsBlank(line[k])
  }

  /** The text from `s` on is the tokens `ts` from `i` on, with blanks around them. */
  predicate Lexed(line: string, s: nat, ts: seq<Token>, i: nat)
    requires i <= |ts|
    decreases |ts| - i
  {
    if i == |ts| then Blank(line, s, |line|)
    else Blank(line, s, Start(ts[i])) && TokenOk(line, ts[i]) && Lexed(line, End(ts[i]), ts, i + 1)
  }

  /** A text has only one sequence of tokens. */
  lemma {:induction false} LexedOnce(line: string, s: nat, a: seq<Token>, b: seq<Token>, i: nat)
    requires i <= |a| && i <= |b| && Lexed(line, s, a, i) && Lexed(line, s, b, i) && a[..i] == b[..i]
    ensures a == b
    decreases |a| - i
  {
    if i < |a| {
      TokenStart(line, a[i]);
    }
    if i < |b| {
      TokenStart(line, b[i]);
    }
    if i < |a| && i < |b| {
      SameToken(line, s, a[i], b[i]);
      assert a[..i + 1] == a[..i] + [a[i]] && b[..i + 1] == b[..i] + [b[i]];
      LexedOnce(line, End(a[i]), a, b, i + 1);
    } else {
      assert a[..i] == a && b[..i] == b;
    }
  }

  lemma TokenStart(line: string, t: Token)
    requires TokenOk(line, t)
    ensures Start(t) < |line| && !IsBlank(line[Start(t)]) && (t.Word? <==> IsWordChar(line[Start(t)]))
  {
  }

  lemma SameToken(line: string, lo: nat, t: Token, u: Token)
    requires TokenOk(line, t) && TokenOk(line, u) && Blank(line, lo, Start(t)) && Blank(line, lo, Start(u))
    ensures t == u
  {
    TokenStart(line, t);
    TokenStart(line, u);
    assert Start(t) == Start(u);
  }

  // ---- Commands --------------------------------------------------------------------------------

  const O_RDONLY: int := 0
  const O_WRONLY: int := 1
  const O_CREATE: int := 0x200

  datatype Redirect = Redirect(file: Span, mode: int, fd: int)

  datatype Cmd =
    | Exec(argv: seq<Span>)
    | Redir(cmd: Cmd, to: Redirect)
    | Pipe(left: Cmd, right: Cmd)
    | List(left: Cmd, right: Cmd)
    | Back(cmd: Cmd)

  predicate IsRedirSym(t: Token) {
    t.Sym? && (t.c == '<' || t.c == '>' || t.c == '+')
  }

  /** "<" opens for reading on 0; ">" and ">>" alike create for writing on 1. */
  function RedirectOf(c: char, file: Span): Redirect {
    if c == '<' then Redirect(file, O_RDONLY, 0) else Redirect(file, O_WRONLY + O_CREATE, 1)
  }

  /** A command inside its redirections, the last outermost. */
  function Wrap(c: Cmd, rs: seq<Redirect>): Cmd
    decreases |rs|
  {
    if rs == [] then c else Redir(Wrap(c, rs[..|rs| - 1]), rs[|rs| - 1])
  }

  // ---- The grammar -------------------------------------------------------------------------------

  /** Words and redirections, in any order: the words are `args`, the redirections `rs`. */
  predicate IsSimple(ts: seq<Token>, args: seq<Span>, rs: seq<Redirect>)
    decreases |ts|
  {
    if ts == [] then args == [] && rs == []
    else if ts[0].Word? then args != [] && args[0] == ts[0].span && IsSimple(ts[1..], args[1..], rs)
    else
      && IsRedirSym(ts[0]) && |ts| >= 2 && ts[1].Word?
      && rs != [] && rs[0] == RedirectOf(ts[0].c, ts[1].span) && IsSimple(ts[2..], args, rs[1..])
  }

  ghost predicate IsBlock(c: Cmd, ts: seq<Token>)
    decreases |ts|, 0
  {
    exists b, rs, tb, tr {:trigger IsLine(b, tb), IsSimple(tr, [], rs)} ::
      |tb| < |ts| && IsLine(b, tb) && IsSimple(tr, [], rs) && c == Wrap(b, rs) && IsBracketed(ts, tb, tr)
  }

  predicate IsBracketed(ts: seq<Token>, tb: seq<Token>, tr: seq<Token>) {
    && |ts| == |tb| + |tr| + 2
    && ts[0].Sym? && ts[0].c == '(' && ts[1..1 + |tb|] == tb
    && ts[1 + |tb|].Sym? && ts[1 + |tb|].c == ')' && ts[2 + |tb|..] == tr
  }

  ghost predicate IsExec(c: Cmd, ts: seq<Token>)
    decreases |ts|, 1
  {
    || IsBlock(c, ts)
    || exists args, rs {:trigger IsSimple(ts, args, rs)} :: IsSimple(ts, args, rs) && c == Wrap(Exec(args), rs)
  }

  /** `ts` is `l`, then the symbol, then `r`. */
  predicate IsSplit(ts: seq<Token>, l: seq<Token>, c: char, r: seq<Token>) {
    |ts| == |l| + 1 + |r| && ts[..|l|] == l && ts[|l|].Sym? && ts[|l|].c == c && ts[|l| + 1..] == r
  }

  ghost predicate IsPipe(c: Cmd, ts: seq<Token>)
    decreases |ts|, 2
  {
    || IsExec(c, ts)
    || (c.Pipe? && exists l, r {:trigger IsExec(c.left, l), IsPipe(c.right, r)} ::
          |l| < |ts| && |r| < |ts| && IsSplit(ts, l, '|', r) && IsExec(c.left, l) && IsPipe(c.right, r))
  }

  ghost predicate IsBacks(c: Cmd, ts: seq<Token>)
    decreases |ts|, 3
  {
    || IsPipe(c, ts)
    || (c.Back? && exists l {:trigger IsBacks(c.cmd, l)} :: |l| < |ts| && IsSplit(ts, l, '&', []) && IsBacks(c.cmd, l))
  }

  ghost predicate IsLine(c: Cmd, ts: seq<Token>)
    decreases |ts|, 4
  {
    || IsBacks(c, ts)
    || (c.List? && exists l, r {:trigger IsBacks(c.left, l), IsLine(c.right, r)} ::
          |l| < |ts| && |r| < |ts| && IsSplit(ts, l, ';', r) && IsBacks(c.left, l) && IsLine(c.right, r))
  }

  // ---- Building derivations ------------------------------------------------------------------------

  lemma PipeIs(a: Cmd, ta: seq<Token>, b: Cmd, tb: seq<Token>, ts: seq<Token>)
    requires IsExec(a, ta) && IsPipe(b, tb) && IsSplit(ts, ta, '|', tb)
    ensures IsPipe(Pipe(a, b), ts)
  {
    var c := Pipe(a, b);
    assert IsExec(c.left, ta) && IsPipe(c.right, tb);
  }

  lemma BackIs(a: Cmd, ta: seq<Token>, ts: seq<Token>)
    requires IsBacks(a, ta) && IsSplit(ts, ta, '&', [])
    ensures IsBacks(Back(a), ts)
  {
    var c := Back(a);
    assert IsBacks(c.cmd, ta);
  }

  lemma ListIs(a: Cmd, ta: seq<Token>, b: Cmd, tb: seq<Token>, ts: seq<Token>)
    requires IsBacks(a, ta) && IsLine(b, tb) && IsSplit(ts, ta, ';', tb)
    ensures IsLine(List(a, b), ts)
  {
    var c := List(a, b);
    assert IsBacks(c.left, ta) && IsLine(c.right, tb);
  }

  // ---- The words of a tree ---------------------------------------------------------------------------

  ghost function ArgSet(args: seq<Span>): set<Span> {
    if args == [] then {} else {args[0]} + ArgSet(args[1..])
  }

  ghost function Files(rs: seq<Redirect>): set<Span> {
    if rs == [] then {} else {rs[0].file} + Files(rs[1..])
  }

  /** The words that a command holds: its arguments and the files it redirects to. */
  ghost function Words(c: Cmd): set<Span> {
    match c
    case Exec(argv) => ArgSet(argv)
    case Redir(d, r) => Words(d) + {r.file}
    case Pipe(l, r) => Words(l) + Words(r)
    case List(l, r) => Words(l) + Words(r)
    case Back(d) => Words(d)
  }

  ghost function WordOf(t: Token): set<Span> {
    if t.Word? then {t.span} else {}
  }

  /** The words among some tokens. */
  ghost function WordsOf(ts: seq<Token>): set<Span> {
    if ts == [] then {} else WordOf(ts[0]) + WordsOf(ts[1..])
  }

  lemma {:induction false} WordsOfAppend(a: seq<Token>, b: seq<Token>)
    ensures WordsOf(a + b) == WordsOf(a) + WordsOf(b)
    decreases |a|
  {
    if a == [] {
      assert a + b == b;
    } else {
      WordsOfAppend(a[1..], b);
      assert (a + b)[1..] == a[1..] + b;
    }
  }

  lemma {:induction false} FilesSnoc(rs: seq<Redirect>, r: Redirect)
    ensures Files(rs + [r]) == Files(rs) + {r.file}
    decreases |rs|
  {
    if rs == [] {
      assert [r][1..] == [] && rs + [r] == [r];
    } else {
      FilesSnoc(rs[1..], r);
      assert (rs + [r])[1..] == rs[1..] + [r];
    }
  }

  lemma {:induction false} WrapWords(c: Cmd, rs: seq<Redirect>)
    ensures Words(Wrap(c, rs)) == Words(c) + Files(rs)
    decreases |rs|
  {
    if rs != [] {
      var n := |rs| - 1;
      WrapWords(c, rs[..n]);
      FilesSnoc(rs[..n], rs[n]);
      assert rs == rs[..n] + [rs[n]];
    }
  }

  lemma {:induction false} SimpleWords(ts: seq<Token>, args: seq<Span>, rs: seq<Redirect>)
    requires IsSimple(ts, args, rs)
    ensures WordsOf(ts) == ArgSet(args) + Files(rs)
    decreases |ts|
  {
    if ts != [] {
      if ts[0].Word? {
        SimpleWords(ts[1..], args[1..], rs);
      } else {
        SimpleWords(ts[2..], args, rs[1..]);
        assert ts[1..][1..] == ts[2..];
      }
    }
  }

  lemma SplitWords(ts: seq<Token>, l: seq<Token>, c: char, r: seq<Token>)
    requires IsSplit(ts, l, c, r)
    ensures WordsOf(ts) == WordsOf(l) + WordsOf(r)
  {
    var t := ts[|l|];
    assert ts == l + ([t] + r);
    WordsOfAppend(l, [t] + r);
    WordsOfAppend([t], r);
    assert WordsOf([t]) == {};
  }

  lemma BracketWords(ts: seq<Token>, tb: seq<Token>, tr: seq<Token>)
    requires IsBracketed(ts, tb, tr)
    ensures WordsOf(ts) == WordsOf(tb) + WordsOf(tr)
  {
    var l := ts[..1 + |tb|];
    assert ts[..|l|] == l && ts[|l| + 1..] == tr;
    SplitWords(ts, l, ')', tr);
    assert l == [ts[0]] + tb;
    WordsOfAppend([ts[0]], tb);
    assert WordsOf([ts[0]]) == {};
  }

  /** A tree holds exactly the words among the tokens it stands for. */
  lemma {:induction false} LineWords(c: Cmd, ts: seq<Token>)
    requires IsLine(c, ts)
    ensures Words(c) == WordsOf(ts)
    decreases |ts|, 4
  {
    if IsBacks(c, ts) {
      BacksWords(c, ts);
    } else {
      var l, r :| |l| < |ts| && |r| < |ts| && IsSplit(ts, l, ';', r) && IsBacks(c.left, l) && IsLine(c.right, r);
      BacksWords(c.left, l);
      LineWords(c.right, r);
      SplitWords(ts, l, ';', r);
    }
  }

  lemma {:induction false} BacksWords(c: Cmd, ts: seq<Token>)
    requires IsBacks(c, ts)
    ensures Words(c) == WordsOf(ts)
    decreases |ts|, 3
  {
    if IsPipe(c, ts) {
      PipeWords(c, ts);
    } else {
      var l :| |l| < |ts| && IsSplit(ts, l, '&', []) && IsBacks(c.cmd, l);
      BacksWords(c.cmd, l);
      SplitWords(ts, l, '&', []);
    }
  }

  lemma {:induction false} PipeWords(c: Cmd, ts: seq<Token>)
    requires IsPipe(c, ts)
    ensures Words(c) == WordsOf(ts)
    decreases |ts|, 2
  {
    if IsExec(c, ts) {
      ExecWords(c, ts);
    } else {
      var l, r :| |l| < |ts| && |r| < |ts| && IsSplit(ts, l, '|', r) && IsExec(c.left, l) && IsPipe(c.right, r);
      ExecWords(c.left, l);
      PipeWords(c.right, r);
      SplitWords(ts, l, '|', r);
    }
  }

  lemma {:induction false} ExecWords(c: Cmd, ts: seq<Token>)
    requires IsExec(c, ts)
    ensures Words(c) == WordsOf(ts)
    decreases |ts|, 1
  {
    if IsBlock(c, ts) {
      var b, rs, tb, tr :| |tb| < |ts| && IsLine(b, tb) && IsSimple(tr, [], rs) && c == Wrap(b, rs) &&
        IsBracketed(ts, tb, tr);
      LineWords(b, tb);
      SimpleWords(tr, [], rs);
      WrapWords(b, rs);
      BracketWords(ts, tb, tr);
    } else {
      var args, rs :| IsSimple(ts, args, rs) && c == Wrap(Exec(args), rs);
      SimpleWords(ts, args, rs);
      WrapWords(Exec(args), rs);
    }
  }

  /** Every word among the tokens of a text is a word of it. */
  lemma {:induction false} LexedWords(line: string, s: nat, ts: seq<Token>, i: nat)
    requires i <= |ts| && Lexed(line, s, ts, i)
    ensures forall w :: w in WordsOf(ts[i..]) ==> IsWord(line, w)
    decreases |ts| - i
  {
    if i < |ts| {
      LexedWords(line, End(ts[i]), ts, i + 1);
      assert ts[i..][1..] == ts[i + 1..];
    }
  }
}

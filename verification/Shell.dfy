/**
 The shell's parser (sh.c): a recursive descent over the line with a cursor, and the pass
 that ends each word with a NUL in the line's own buffer. Each parsing method is proved
 against the parsing function of the same part of the grammar.
 */
module Shell {
  import opened ShellGrammar
  import P = ShellParser

  /** Why parsing gave up (the source's panics). */
  datatype Error = MissingFile | Syntax | TooManyArgs | MissingParen | Leftovers

  datatype Parsed = Ok(cmd: Cmd, s: nat) | Err(why: Error)

  datatype Redirs = Got(rs: seq<Redirect>, s: nat) | Bad

  predicate NulFree(line: string) {
    forall k :: 0 <= k < |line| ==> line[k] != NUL
  }

  /** The cursor stands at a character that is not blank, or at the end. */
  predicate AtText(line: string, s: int) {
    0 <= s <= |line| && (s < |line| ==> !IsBlank(line[s]))
  }

  method SkipBlanks(line: string, s: nat) returns (e: nat)
    requires s <= |line|
    ensures s <= e && Blank(line, s, e) && AtText(line, e)
  {
    e := s;
    while e < |line| && IsBlank(line[e])
      invariant s <= e && Blank(line, s, e)
    {
      e := e + 1;
    }
  }

  /** The end of the word that starts at `q`. */
  method WordEnd(line: string, q: nat) returns (e: nat)
    requires q < |line| && IsWordChar(line[q])
    ensures IsWord(line, Span(q, e))
  {
    e := q;
    while e < |line| && !IsBlank(line[e]) && !IsSymbol(line[e])
      invariant q <= e <= |line| && forall k :: q <= k < e ==> IsWordChar(line[k])
      decreases |line| - e
    {
      e := e + 1;
    }
  }

  /** The token that a symbol, or the ">>" it begins, stands for. */
  method SymbolEnd(line: string, q: nat) returns (tok: char, e: nat)
    requires q < |line| && IsSymbol(line[q])
    ensures TokenOk(line, Sym(tok, q)) && e == End(Sym(tok, q)) && tok != NUL && tok != 'a'
  {
    tok, e := line[q], q + 1;
    if line[q] == '>' && e < |line| && line[e] == '>' {
      tok, e := '+', e + 1;
    }
  }

  /** The token that gettoken reports: 'a' stands for a word. */
  function TokenOf(tok: char, q: nat, eq: nat): Token {
    if tok == 'a' then Word(Span(q, eq)) else Sym(tok, q)
  }

  /** gettoken: the kind of the next token, its extent, and the cursor past it and blanks. */
  method GetToken(line: string, s: nat) returns (tok: char, q: nat, eq: nat, e: nat)
    requires NulFree(line) && s <= |line|
    ensures Blank(line, s, q) && Blank(line, eq, e) && AtText(line, e)
    ensures tok == NUL <==> q == |line|
    ensures tok != NUL ==> TokenOk(line, TokenOf(tok, q, eq)) && eq == End(TokenOf(tok, q, eq))
  {
    q := SkipBlanks(line, s);
    if q == |line| {
      return NUL, q, q, q;
    }
    if IsSymbol(line[q]) {
      tok, eq := SymbolEnd(line, q);
    } else {
      tok := 'a';
      eq := WordEnd(line, q);
    }
    e := SkipBlanks(line, eq);
  }

  /** peek: skips blanks, and says whether the next character is one of `toks`. */
  method Peek(line: string, s: nat, toks: string) returns (hit: bool, e: nat)
    requires NulFree(line) && s <= |line|
    ensures s <= e && Blank(line, s, e) && AtText(line, e)
    ensures hit <==> e < |line| && line[e] in toks
  {
    e := SkipBlanks(line, s);
    hit := e < |line| && line[e] in toks;
  }

  // ---- The cursor and the tokens -------------------------------------------------------------------

  /** The first character of a token. */
  function First(t: Token): char
    requires t.Sym?
  {
    if t.c == '+' then '>' else t.c
  }

  /** Skipping blanks passes no token, and then the next character tells the next token's kind. */
  lemma PeekIs(line: string, s: nat, e: nat, ts: seq<Token>, i: nat)
    requires i <= |ts| && Lexed(line, s, ts, i) && Blank(line, s, e) && AtText(line, e)
    ensures Lexed(line, e, ts, i) && (e == |line| <==> i == |ts|)
    ensures i < |ts| ==>
              Start(ts[i]) == e && (ts[i].Sym? ==> line[e] == First(ts[i])) &&
              (ts[i].Word? ==> IsWordChar(line[e]))
  {
    if i < |ts| {
      TokenStart(line, ts[i]);
    }
  }

  /** A token that follows the blanks at the cursor is the next one. */
  lemma Advance(line: string, s: nat, ts: seq<Token>, i: nat, t: Token, e: nat)
    requires i <= |ts| && Lexed(line, s, ts, i) && Blank(line, s, Start(t)) && TokenOk(line, t)
    requires Blank(line, End(t), e) && AtText(line, e)
    ensures i < |ts| && ts[i] == t && Lexed(line, e, ts, i + 1) && s < e
  {
    TokenStart(line, t);
    assert i < |ts|;
    SameToken(line, s, ts[i], t);
    PeekIs(line, End(t), e, ts, i + 1);
  }

  /** With no token left there is none in the tokens either. */
  lemma NothingLeft(line: string, s: nat, ts: seq<Token>, i: nat)
    requires i <= |ts| && Lexed(line, s, ts, i) && Blank(line, s, |line|)
    ensures i == |ts|
  {
    if i < |ts| {
      TokenStart(line, ts[i]);
    }
  }

  /** What gettoken reports, and where it leaves the cursor, in terms of the tokens. */
  lemma GotToken(line: string, s: nat, ts: seq<Token>, i: nat, tok: char, q: nat, eq: nat, e: nat)
    requires i <= |ts| && Lexed(line, s, ts, i) && Blank(line, s, q) && Blank(line, eq, e) && AtText(line, e)
    requires tok == NUL <==> q == |line|
    requires tok != NUL ==> TokenOk(line, TokenOf(tok, q, eq)) && eq == End(TokenOf(tok, q, eq))
    ensures tok == NUL <==> i == |ts|
    ensures tok != NUL ==> ts[i] == TokenOf(tok, q, eq) && Lexed(line, e, ts, i + 1) && s < e
  {
    if tok == NUL {
      NothingLeft(line, s, ts, i);
    } else {
      Advance(line, s, ts, i, TokenOf(tok, q, eq), e);
    }
  }

  /** peek, in terms of the tokens: at a redirection, and at what ends a simple command. */
  method PeekRedir(line: string, s: nat, ghost ts: seq<Token>, ghost i: nat) returns (hit: bool, e: nat)
    requires NulFree(line) && s <= |line| && i <= |ts| && Lexed(line, s, ts, i)
    ensures s <= e && AtText(line, e) && Lexed(line, e, ts, i) && (AtText(line, s) ==> e == s)
    ensures hit <==> i < |ts| && IsRedirSym(ts[i])
  {
    hit, e := Peek(line, s, "<>");
    PeekIs(line, s, e, ts, i);
  }

  method PeekStop(line: string, s: nat, ghost ts: seq<Token>, ghost i: nat) returns (hit: bool, e: nat)
    requires NulFree(line) && s <= |line| && i <= |ts| && Lexed(line, s, ts, i)
    ensures s <= e && AtText(line, e) && Lexed(line, e, ts, i) && (AtText(line, s) ==> e == s)
    ensures hit <==> i < |ts| && P.Stops(ts, i, "|)&;")
  {
    hit, e := Peek(line, s, "|)&;");
    PeekIs(line, s, e, ts, i);
  }

  /** peek and gettoken together: passes the symbol `c` if it is next. */
  method Accept(line: string, s0: nat, c: char, ghost ts: seq<Token>, ghost i: nat) returns (hit: bool, s: nat)
    requires NulFree(line) && AtText(line, s0) && i <= |ts| && Lexed(line, s0, ts, i) && c in "|;)"
    ensures AtText(line, s) && (hit <==> P.Is(ts, i, c))
    ensures if hit then s0 < s && Lexed(line, s, ts, i + 1) else s == s0
  {
    hit, s := Peek(line, s0, [c]);
    PeekIs(line, s0, s, ts, i);
    if hit {
      var tok, q, eq, s1 := GetToken(line, s);
      GotToken(line, s, ts, i, tok, q, eq, s1);
      s := s1;
    }
  }

  // ---- parseredirs --------------------------------------------------------------------------------

  /** The outcome with `rs` in front. */
  function RedirsAfter(rs: seq<Redirect>, r: P.Redirs): P.Redirs {
    if r.NoFile? then r else P.Got(rs + r.rs, r.at)
  }

  lemma RedirsStep(ts: seq<Token>, i: nat, rs: seq<Redirect>)
    requires P.IsRedir(ts, i)
    ensures RedirsAfter(rs, P.TakeRedirs(ts, i)) == RedirsAfter(rs + [P.RedirAt(ts, i)], P.TakeRedirs(ts, i + 2))
  {
    var r := P.TakeRedirs(ts, i + 2);
    if r.Got? {
      Assoc(rs, [P.RedirAt(ts, i)], r.rs);
    }
  }

  /** One redirection: its symbol and its file. */
  method ParseRedir(line: string, s: nat, ghost ts: seq<Token>, ghost i: nat) returns (ok: bool, to: Redirect, e: nat)
    requires NulFree(line) && s <= |line| && i < |ts| && Lexed(line, s, ts, i) && IsRedirSym(ts[i])
    ensures ok <==> P.IsRedir(ts, i)
    ensures ok ==> to == P.RedirAt(ts, i) && s < e && AtText(line, e) && Lexed(line, e, ts, i + 2)
  {
    var tok, q1, eq1, s1 := GetToken(line, s);
    GotToken(line, s, ts, i, tok, q1, eq1, s1);
    var word, q, eq, s2 := GetToken(line, s1);
    GotToken(line, s1, ts, i + 1, word, q, eq, s2);
    return word == 'a', RedirectOf(tok, Span(q, eq)), s2;
  }

  /**
   parseredirs: the redirections at the cursor, in order. The caller wraps its command in
   them, since the source goes on filling that command in afterwards.
   */
  method ParseRedirs(line: string, s0: nat, ghost ts: seq<Token>, ghost i0: nat) returns (r: Redirs)
    requires NulFree(line) && s0 <= |line| && i0 <= |ts| && Lexed(line, s0, ts, i0)
    ensures r.Bad? <==> P.TakeRedirs(ts, i0).NoFile?
    ensures r.Got? ==>
              s0 <= r.s && AtText(line, r.s) && r.rs == P.TakeRedirs(ts, i0).rs &&
              Lexed(line, r.s, ts, P.TakeRedirs(ts, i0).at)
  {
    var rs: seq<Redirect> := [];
    ghost var i := i0;
    var hit, s := PeekRedir(line, s0, ts, i);
    FirstRedirs(ts, i);
    while hit
      invariant s0 <= s && i0 <= i <= |ts| && Lexed(line, s, ts, i) && AtText(line, s)
      invariant hit <==> i < |ts| && IsRedirSym(ts[i])
      invariant P.TakeRedirs(ts, i0) == RedirsAfter(rs, P.TakeRedirs(ts, i))
      decreases |line| - s
    {
      var ok, to, s2 := ParseRedir(line, s, ts, i);
      if !ok {
        return Bad;
      }
      RedirsStep(ts, i, rs);
      rs, i := rs + [to], i + 2;
      hit, s := PeekRedir(line, s2, ts, i);
    }
    assert rs + [] == rs;
    return Got(rs, s);
  }

  lemma FirstRedirs(ts: seq<Token>, i: nat)
    requires i <= |ts|
    ensures P.TakeRedirs(ts, i) == RedirsAfter([], P.TakeRedirs(ts, i))
  {
    if P.TakeRedirs(ts, i).Got? {
      assert [] + P.TakeRedirs(ts, i).rs == P.TakeRedirs(ts, i).rs;
    }
  }

  // ---- parseexec ----------------------------------------------------------------------------------

  /** The outcome with redirections in front, and with words and redirections in front. */
  function RedirsThen(rs: seq<Redirect>, r: P.Simple): P.Simple {
    if r.Bad? then r else P.Words(r.args, rs + r.rs, r.at)
  }

  function SimpleAfter(args: seq<Span>, rs: seq<Redirect>, r: P.Simple): P.Simple {
    if r.Bad? then r else P.Words(args + r.args, rs + r.rs, r.at)
  }

  lemma Assoc<T>(a: seq<T>, b: seq<T>, c: seq<T>)
    ensures a + (b + c) == a + b + c
  {
  }

  lemma NoneBefore(r: P.Simple)
    ensures RedirsThen([], r) == r && SimpleAfter([], [], r) == r
  {
    if r.Words? {
      assert [] + r.rs == r.rs && [] + r.args == r.args;
    }
  }

  lemma WordsNone(rs: seq<Redirect>, r: P.Simple)
    ensures SimpleAfter([], rs, r) == RedirsThen(rs, r)
  {
    if r.Words? {
      assert [] + r.args == r.args;
    }
  }

  /** Redirections first, then the rest of the simple command. */
  lemma {:induction false} SimpleAfterRedirs(ts: seq<Token>, i: nat, n: nat)
    requires i <= |ts|
    ensures var r := P.TakeRedirs(ts, i);
            P.TakeSimple(ts, i, n) == if r.NoFile? then P.Bad else RedirsThen(r.rs, P.TakeSimple(ts, r.at, n))
    decreases |ts| - i
  {
    var r := P.TakeRedirs(ts, i);
    if P.IsRedir(ts, i) {
      var tail := P.TakeRedirs(ts, i + 2);
      SimpleAfterRedirs(ts, i + 2, n);
      if tail.Got? && P.TakeSimple(ts, tail.at, n).Words? {
        Assoc([P.RedirAt(ts, i)], tail.rs, P.TakeSimple(ts, tail.at, n).rs);
      }
    } else if r.Got? {
      NoneBefore(P.TakeSimple(ts, i, n));
    }
  }

  /** A turn of parseexec's loop: a word, then redirections. */
  lemma WordStep(ts: seq<Token>, i: nat, args: seq<Span>, rs: seq<Redirect>)
    requires i < |ts| && ts[i].Word? && |args| + 1 < P.MAXARGS
    ensures var r := P.TakeRedirs(ts, i + 1);
            SimpleAfter(args, rs, P.TakeSimple(ts, i, |args|)) ==
              if r.NoFile? then P.Bad
              else SimpleAfter(args + [ts[i].span], rs + r.rs, P.TakeSimple(ts, r.at, |args| + 1))
  {
    SimpleAfterRedirs(ts, i + 1, |args| + 1);
    var r := P.TakeRedirs(ts, i + 1);
    if r.Got? && P.TakeSimple(ts, r.at, |args| + 1).Words? {
      var end := P.TakeSimple(ts, r.at, |args| + 1);
      Assoc(args, [ts[i].span], end.args);
      Assoc(rs, r.rs, end.rs);
    }
  }

  /** What the method answers, in terms of the parsing function's answer. */
  ghost predicate Agrees(line: string, s0: nat, ts: seq<Token>, want: P.Result, r: Parsed)
    requires want.Ok? ==> want.at <= |ts|
  {
    && (r.Err? <==> want.Fail?)
    && (r.Ok? ==> s0 <= r.s && AtText(line, r.s) && r.cmd == want.cmd && Lexed(line, r.s, ts, want.at))
  }

  /** A turn of parseexec's loop: a word and the redirections after it, the end, or a reason to give up. */
  datatype Turn = More(arg: Span, rs: seq<Redirect>, s: nat) | Stop | Fail(why: Error)

  method ParseWord(line: string, s: nat, n: nat, ghost ts: seq<Token>, ghost i: nat) returns (t: Turn)
    requires NulFree(line) && s <= |line| && i <= |ts| && Lexed(line, s, ts, i) && n < P.MAXARGS
    requires i < |ts| ==> !IsRedirSym(ts[i]) && !P.Stops(ts, i, "|)&;")
    ensures t.Stop? <==> i == |ts|
    ensures t.Fail? ==> P.TakeSimple(ts, i, n).Bad?
    ensures t.More? ==> ts[i].Word? && t.arg == ts[i].span && n + 1 < P.MAXARGS && P.TakeRedirs(ts, i + 1).Got?
    ensures t.More? ==>
              s < t.s && AtText(line, t.s) && t.rs == P.TakeRedirs(ts, i + 1).rs &&
              Lexed(line, t.s, ts, P.TakeRedirs(ts, i + 1).at)
  {
    var tok, q, eq, s2 := GetToken(line, s);
    GotToken(line, s, ts, i, tok, q, eq, s2);
    if tok == NUL {
      return Stop;
    }
    if tok != 'a' {
      return Fail(Syntax);
    }
    if n + 1 >= P.MAXARGS {
      return Fail(TooManyArgs);
    }
    var got := ParseRedirs(line, s2, ts, i + 1);
    SimpleAfterRedirs(ts, i + 1, n + 1);
    if got.Bad? {
      return Fail(MissingFile);
    }
    return More(Span(q, eq), got.rs, got.s);
  }

  /** The words and redirections of a simple command. */
  method ParseSimple(line: string, s0: nat, ghost ts: seq<Token>, ghost i0: nat) returns (r: Parsed)
    requires NulFree(line) && s0 <= |line| && i0 <= |ts| && Lexed(line, s0, ts, i0) && !P.Is(ts, i0, '(')
    ensures Agrees(line, s0, ts, P.TakeExec(ts, i0), r)
  {
    var args: seq<Span> := [];
    var got := ParseRedirs(line, s0, ts, i0);
    SimpleAfterRedirs(ts, i0, 0);
    if got.Bad? {
      return Err(MissingFile);
    }
    var rs, s := got.rs, got.s;
    ghost var i := P.TakeRedirs(ts, i0).at;
    RedirsEnd(ts, i0);
    WordsNone(rs, P.TakeSimple(ts, i, 0));
    var stop, s1 := PeekStop(line, s, ts, i);
    while !stop
      invariant s0 <= s == s1 && i0 <= i <= |ts| && Lexed(line, s, ts, i) && AtText(line, s)
      invariant stop <==> i < |ts| && P.Stops(ts, i, "|)&;")
      invariant |args| < P.MAXARGS && P.TakeSimple(ts, i0, 0) == SimpleAfter(args, rs, P.TakeSimple(ts, i, |args|))
      invariant i < |ts| ==> !IsRedirSym(ts[i])
      decreases |line| - s
    {
      var t := ParseWord(line, s, |args|, ts, i);
      if t.Stop? {
        break;
      }
      if t.Fail? {
        return Err(t.why);
      }
      WordStep(ts, i, args, rs);
      RedirsEnd(ts, i + 1);
      args, rs, s, i := args + [t.arg], rs + t.rs, t.s, P.TakeRedirs(ts, i + 1).at;
      stop, s1 := PeekStop(line, s, ts, i);
    }
    assert args + [] == args && rs + [] == rs;
    return Ok(Wrap(Exec(args), rs), s);
  }

  /** Redirections are taken as long as there are any. */
  lemma {:induction false} RedirsEnd(ts: seq<Token>, i: nat)
    requires i <= |ts| && P.TakeRedirs(ts, i).Got?
    ensures var j := P.TakeRedirs(ts, i).at; j < |ts| ==> !IsRedirSym(ts[j])
    decreases |ts| - i
  {
    if P.IsRedir(ts, i) {
      RedirsEnd(ts, i + 2);
    }
  }

  // ---- The recursive descent ------------------------------------------------------------------------

  method ParseBlock(line: string, s0: nat, ghost ts: seq<Token>, ghost i: nat) returns (r: Parsed)
    requires NulFree(line) && s0 <= |line| && P.Is(ts, i, '(') && Lexed(line, s0, ts, i)
    ensures Agrees(line, s0, ts, P.TakeBlock(ts, i), r)
    decreases |line| - s0, 0
  {
    var tok, q, eq, s1 := GetToken(line, s0);
    GotToken(line, s0, ts, i, tok, q, eq, s1);
    r := ParseLine(line, s1, ts, i + 1);
    if r.Err? {
      return;
    }
    var cmd, s2 := r.cmd, r.s;
    ghost var k := P.TakeLine(ts, i + 1).at;
    var hit, s := Accept(line, s2, ')', ts, k);
    if !hit {
      return Err(MissingParen);
    }
    var got := ParseRedirs(line, s, ts, k + 1);
    if got.Bad? {
      return Err(MissingFile);
    }
    return Ok(Wrap(cmd, got.rs), got.s);
  }

  method ParseExec(line: string, s0: nat, ghost ts: seq<Token>, ghost i: nat) returns (r: Parsed)
    requires NulFree(line) && s0 <= |line| && i <= |ts| && Lexed(line, s0, ts, i)
    ensures Agrees(line, s0, ts, P.TakeExec(ts, i), r)
    decreases |line| - s0, 1
  {
    var hit, s := Peek(line, s0, "(");
    PeekIs(line, s0, s, ts, i);
    if hit {
      r := ParseBlock(line, s, ts, i);
    } else {
      r := ParseSimple(line, s, ts, i);
    }
  }

  method ParsePipe(line: string, s0: nat, ghost ts: seq<Token>, ghost i: nat) returns (r: Parsed)
    requires NulFree(line) && s0 <= |line| && i <= |ts| && Lexed(line, s0, ts, i)
    ensures Agrees(line, s0, ts, P.TakePipe(ts, i), r)
    decreases |line| - s0, 2
  {
    r := ParseExec(line, s0, ts, i);
    if r.Err? {
      return;
    }
    var left := r.cmd;
    ghost var k := P.TakeExec(ts, i).at;
    var hit, s := Accept(line, r.s, '|', ts, k);
    if hit {
      r := ParsePipe(line, s, ts, k + 1);
      if r.Ok? {
        r := Ok(Pipe(left, r.cmd), r.s);
      }
    }
  }

  method ParseLine(line: string, s0: nat, ghost ts: seq<Token>, ghost i: nat) returns (r: Parsed)
    requires NulFree(line) && s0 <= |line| && i <= |ts| && Lexed(line, s0, ts, i)
    ensures Agrees(line, s0, ts, P.TakeLine(ts, i), r)
    decreases |line| - s0, 3
  {
    r := ParsePipe(line, s0, ts, i);
    if r.Err? {
      return;
    }
    var cmd, s := ParseBacks(line, r.cmd, r.s, ts, P.TakePipe(ts, i).at);
    ghost var k := P.TakeBacks(r.cmd, ts, P.TakePipe(ts, i).at).at;
    r := Ok(cmd, s);
    var more, s1 := Accept(line, s, ';', ts, k);
    if more {
      r := ParseLine(line, s1, ts, k + 1);
      if r.Ok? {
        r := Ok(List(cmd, r.cmd), r.s);
      }
    }
  }

  /** The loop of parseline over "&". */
  method ParseBacks(line: string, c: Cmd, s0: nat, ghost ts: seq<Token>, ghost i0: nat) returns (cmd: Cmd, s: nat)
    requires NulFree(line) && AtText(line, s0) && i0 <= |ts| && Lexed(line, s0, ts, i0)
    ensures s0 <= s && AtText(line, s) && cmd == P.TakeBacks(c, ts, i0).cmd &&
            Lexed(line, s, ts, P.TakeBacks(c, ts, i0).at)
  {
    cmd, s := c, s0;
    ghost var i := i0;
    var hit, s1 := Peek(line, s, "&");
    PeekIs(line, s, s1, ts, i);
    while hit
      invariant s0 <= s == s1 && i0 <= i <= |ts| && Lexed(line, s, ts, i) && AtText(line, s)
      invariant hit <==> P.Is(ts, i, '&')
      invariant P.TakeBacks(c, ts, i0) == P.TakeBacks(cmd, ts, i)
      decreases |line| - s
    {
      var tok, q, eq, s2 := GetToken(line, s);
      GotToken(line, s, ts, i, tok, q, eq, s2);
      cmd, s, i := Back(cmd), s2, i + 1;
      hit, s1 := Peek(line, s, "&");
      PeekIs(line, s, s1, ts, i);
    }
  }

  // ---- nulterminate ---------------------------------------------------------------------------------

  /** A word of the command ends at `k`. */
  ghost predicate Ends(c: Cmd, k: int) {
    match c
    case Exec(argv) => exists i :: 0 <= i < |argv| && argv[i].eq == k
    case Redir(d, r) => Ends(d, k) || r.file.eq == k
    case Pipe(l, r) => Ends(l, k) || Ends(r, k)
    case List(l, r) => Ends(l, k) || Ends(r, k)
    case Back(d) => Ends(d, k)
  }

  /** All of a command's words end inside a buffer of length `n`. */
  ghost predicate Fits(c: Cmd, n: int) {
    forall k {:trigger Ends(c, k)} :: Ends(c, k) ==> 0 <= k < n
  }

  ghost predicate Terminated(c: Cmd, before: seq<char>, after: seq<char>) {
    && |after| == |before|
    && forall k :: 0 <= k < |before| ==> after[k] == if Ends(c, k) then NUL else before[k]
  }

  /** nulterminate: a NUL at the end of every word, and nothing else. */
  method NulTerminate(buf: array<char>, c: Cmd)
    requires Fits(c, buf.Length)
    modifies buf
    ensures Terminated(c, old(buf[..]), buf[..])
    decreases c
  {
    match c
    case Exec(argv) => TerminateArgs(buf, argv);
    case Redir(d, r) =>
      assert Ends(c, r.file.eq);
      assert forall k :: Ends(d, k) ==> Ends(c, k);
      NulTerminate(buf, d);
      buf[r.file.eq] := NUL;
    case Pipe(l, r) => TerminateBoth(buf, c, l, r);
    case List(l, r) => TerminateBoth(buf, c, l, r);
    case Back(d) =>
      assert forall k :: Ends(d, k) ==> Ends(c, k);
      NulTerminate(buf, d);
  }

  method TerminateBoth(buf: array<char>, ghost c: Cmd, l: Cmd, r: Cmd)
    requires c == Pipe(l, r) || c == List(l, r)
    requires Fits(c, buf.Length)
    modifies buf
    ensures Terminated(c, old(buf[..]), buf[..])
    decreases c, 0
  {
    assert forall k :: Ends(l, k) || Ends(r, k) ==> Ends(c, k);
    NulTerminate(buf, l);
    NulTerminate(buf, r);
  }

  method TerminateArgs(buf: array<char>, argv: seq<Span>)
    requires Fits(Exec(argv), buf.Length)
    modifies buf
    ensures Terminated(Exec(argv), old(buf[..]), buf[..])
  {
    var i := 0;
    while i < |argv|
      invariant 0 <= i <= |argv|
      invariant forall k :: 0 <= k < buf.Length ==>
                  buf[k] == if exists j :: 0 <= j < i && argv[j].eq == k then NUL else old(buf[k])
    {
      assert Ends(Exec(argv), argv[i].eq);
      buf[argv[i].eq] := NUL;
      i := i + 1;
    }
  }

  // ---- parsecmd --------------------------------------------------------------------------------------

  /** The C string at `q`: the characters up to the first NUL. */
  function CString(s: seq<char>, q: nat): string
    decreases |s| - q
  {
    if q >= |s| || s[q] == NUL then [] else [s[q]] + CString(s, q + 1)
  }

  lemma {:induction false} CStringIs(s: seq<char>, q: nat, eq: nat)
    requires q <= eq < |s| && s[eq] == NUL && forall k :: q <= k < eq ==> s[k] != NUL
    ensures CString(s, q) == s[q..eq]
    decreases eq - q
  {
    if q < eq {
      CStringIs(s, q + 1, eq);
      assert s[q..eq] == [s[q]] + s[q + 1..eq];
    }
  }

  lemma {:induction false} ArgEnds(argv: seq<Span>, k: int)
    ensures (exists i :: 0 <= i < |argv| && argv[i].eq == k) <==> exists w :: w in ArgSet(argv) && w.eq == k
    decreases |argv|
  {
    if argv != [] {
      ArgEnds(argv[1..], k);
      assert argv[0] in ArgSet(argv);
      assert forall i :: 0 < i < |argv| ==> argv[i] == argv[1..][i - 1];
    }
  }

  /** A word ends where some word that the tree holds ends. */
  lemma {:induction false} EndsWord(c: Cmd, k: int)
    ensures Ends(c, k) <==> exists w :: w in Words(c) && w.eq == k
  {
    match c
    case Exec(argv) => ArgEnds(argv, k);
    case Redir(d, r) => EndsWord(d, k);
    case Pipe(l, r) => EndsWord(l, k); EndsWord(r, k);
    case List(l, r) => EndsWord(l, k); EndsWord(r, k);
    case Back(d) => EndsWord(d, k);
  }

  /** No word's end falls inside another: each word reads back whole from the terminated buffer. */
  lemma WordReads(c: Cmd, line: string, before: seq<char>, after: seq<char>, w: Span)
    requires (forall v :: v in Words(c) ==> IsWord(line, v)) && w in Words(c)
    requires |line| < |before| && before[..|line|] == line && before[|line|] == NUL && NulFree(line)
    requires Terminated(c, before, after)
    ensures IsWord(line, w) && CString(after, w.q) == line[w.q..w.eq]
  {
    EndsWord(c, w.eq);
    assert IsWord(line, w);
    forall k | w.q <= k < w.eq ensures after[k] == line[k] {
      EndsWord(c, k);
      assert IsWordChar(line[k]) && before[k] == before[..|line|][k];
    }
    CStringIs(after, w.q, w.eq);
    assert after[w.q..w.eq] == line[w.q..w.eq];
  }

  lemma WordsFit(c: Cmd, line: string, n: nat)
    requires (forall v :: v in Words(c) ==> IsWord(line, v)) && |line| < n
    ensures Fits(c, n)
  {
    forall k | Ends(c, k) ensures 0 <= k < n {
      EndsWord(c, k);
    }
  }

  method Strlen(buf: array<char>) returns (n: nat)
    requires exists k :: 0 <= k < buf.Length && buf[k] == NUL
    ensures n < buf.Length && buf[n] == NUL && forall k :: 0 <= k < n ==> buf[k] != NUL
  {
    n := 0;
    while buf[n] != NUL
      invariant n < buf.Length && forall k :: 0 <= k < n ==> buf[k] != NUL
      decreases buf.Length - n
    {
      n := n + 1;
    }
  }

  /** Every line has a sequence of tokens. */
  lemma {:induction false} TokensExist(line: string, s: nat) returns (ts: seq<Token>)
    requires s <= |line|
    ensures Lexed(line, s, ts, 0)
    decreases |line| - s
  {
    var q := TextStart(line, s);
    if q == |line| {
      ts := [];
    } else {
      var t := TokenAt(line, q);
      var tail := TokensExist(line, End(t));
      ts := [t] + tail;
      LexedShift(line, End(t), tail, ts, 0);
    }
  }

  lemma {:induction false} TextStart(line: string, s: nat) returns (q: nat)
    requires s <= |line|
    ensures Blank(line, s, q) && AtText(line, q)
    decreases |line| - s
  {
    q := s;
    if s < |line| && IsBlank(line[s]) {
      q := TextStart(line, s + 1);
    }
  }

  lemma {:induction false} WordStop(line: string, q: nat, e: nat) returns (end: nat)
    requires q < e <= |line| && forall k :: q <= k < e ==> IsWordChar(line[k])
    ensures IsWord(line, Span(q, end))
    decreases |line| - e
  {
    end := e;
    if e < |line| && IsWordChar(line[e]) {
      end := WordStop(line, q, e + 1);
    }
  }

  lemma TokenAt(line: string, q: nat) returns (t: Token)
    requires q < |line| && !IsBlank(line[q])
    ensures TokenOk(line, t) && Start(t) == q && q < End(t) <= |line|
  {
    if IsWordChar(line[q]) {
      var e := WordStop(line, q, q + 1);
      t := Word(Span(q, e));
    } else {
      t := Sym(if line[q] == '>' && q + 1 < |line| && line[q + 1] == '>' then '+' else line[q], q);
    }
  }

  lemma {:induction false} LexedShift(line: string, s: nat, tail: seq<Token>, ts: seq<Token>, i: nat)
    requires i <= |tail| && |ts| == |tail| + 1 && ts[1..] == tail && Lexed(line, s, tail, i)
    ensures Lexed(line, s, ts, i + 1)
    decreases |tail| - i
  {
    if i < |tail| {
      assert ts[i + 1] == tail[i];
      LexedShift(line, End(tail[i]), tail, ts, i + 1);
    }
  }

  /**
   parsecmd: the whole line is parsed and its words are terminated in place. It succeeds
   exactly when the grammar derives the line's tokens with fewer than MAXARGS words to a
   command, and returns the one tree it derives. The tree holds exactly the line's words, and
   each word read as a C string from the buffer is the text of that word. On an error the
   buffer is as it was.
   */
  method ParseCmd(buf: array<char>) returns (r: Parsed, ghost line: string, ghost ts: seq<Token>)
    requires exists k :: 0 <= k < buf.Length && buf[k] == NUL
    modifies buf
    ensures |line| < buf.Length && line == old(buf[..])[..|line|] && old(buf[..])[|line|] == NUL && NulFree(line)
    ensures Lexed(line, 0, ts, 0)
    ensures r.Ok? ==> IsLine(r.cmd, ts) && P.Few(r.cmd) && Words(r.cmd) == WordsOf(ts)
    ensures r.Err? ==> buf[..] == old(buf[..]) && forall c :: IsLine(c, ts) ==> !P.Few(c)
    ensures r.Ok? ==> Terminated(r.cmd, old(buf[..]), buf[..])
    ensures r.Ok? ==> forall w :: w in Words(r.cmd) ==> IsWord(line, w) && CString(buf[..], w.q) == line[w.q..w.eq]
  {
    var n := Strlen(buf);
    var text := buf[..n];
    line := text;
    ts := TokensExist(line, 0);
    r := ParseLine(text, 0, ts, 0);
    if r.Ok? {
      var hit, s := Peek(text, r.s, "");
      PeekIs(line, r.s, s, ts, P.TakeLine(ts, 0).at);
      if s != n {
        r := Err(Leftovers);
      }
    }
    forall c ensures IsLine(c, ts) && P.Few(c) <==> r.Ok? && c == r.cmd {
      P.ParsesIff(ts, c);
    }
    if r.Err? {
      return;
    }
    LineWords(r.cmd, ts);
    LexedWords(line, 0, ts, 0);
    assert ts[0..] == ts;
    WordsFit(r.cmd, line, buf.Length);
    ghost var before := buf[..];
    NulTerminate(buf, r.cmd);
    forall w | w in Words(r.cmd) ensures CString(buf[..], w.q) == line[w.q..w.eq] {
      WordReads(r.cmd, line, before, buf[..], w);
    }
  }
}

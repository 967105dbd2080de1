/**
 The shell's parser as a function of a line's tokens, and that it accepts exactly what the
 grammar derives: it is sound, complete up to the limit on arguments, and so gives the one
 tree there is.
 */
module ShellParser {
  import opened ShellGrammar

  const MAXARGS: nat := 10

  // ---- Parsing functions -------------------------------------------------------------------------

  /** A command, redirections, or a command's words and redirections, up to token `at`. */
  datatype Result = Ok(cmd: Cmd, at: nat) | Fail
  datatype Redirs = Got(rs: seq<Redirect>, at: nat) | NoFile
  datatype Simple = Words(args: seq<Span>, rs: seq<Redirect>, at: nat) | Bad

  /** Token `i` is the symbol `c`. */
  predicate Is(ts: seq<Token>, i: nat, c: char) {
    i < |ts| && ts[i].Sym? && ts[i].c == c
  }

  /** The tokens end at `i`, or token `i` is one of the symbols. */
  predicate Stops(ts: seq<Token>, i: nat, symbols: string) {
    i == |ts| || (i < |ts| && ts[i].Sym? && ts[i].c in symbols)
  }

  /** Tokens `i` and `i + 1` are a redirection. */
  predicate IsRedir(ts: seq<Token>, i: nat) {
    i + 1 < |ts| && IsRedirSym(ts[i]) && ts[i + 1].Word?
  }

  function RedirAt(ts: seq<Token>, i: nat): Redirect
    requires IsRedir(ts, i)
  {
    RedirectOf(ts[i].c, ts[i + 1].span)
  }

  /** parseredirs. */
  function TakeRedirs(ts: seq<Token>, i: nat): (r: Redirs)
    requires i <= |ts|
    ensures r.Got? ==> i <= r.at <= |ts|
    decreases |ts| - i
  {
    if i == |ts| || !IsRedirSym(ts[i]) then Got([], i)
    else if !IsRedir(ts, i) then NoFile
    else
      var r := TakeRedirs(ts, i + 2);
      if r.NoFile? then NoFile else Got([RedirAt(ts, i)] + r.rs, r.at)
  }

  /** The words and redirections of a command that has `n` words so far. */
  function TakeSimple(ts: seq<Token>, i: nat, n: nat): (r: Simple)
    requires i <= |ts|
    ensures r.Words? ==> i <= r.at <= |ts|
    decreases |ts| - i
  {
    if Stops(ts, i, "|)&;") then Words([], [], i)
    else if ts[i].Word? then
      if n + 1 >= MAXARGS then Bad else
      var r := TakeSimple(ts, i + 1, n + 1);
      if r.Bad? then Bad else Words([ts[i].span] + r.args, r.rs, r.at)
    else if !IsRedir(ts, i) then Bad
    else
      var r := TakeSimple(ts, i + 2, n);
      if r.Bad? then Bad else Words(r.args, [RedirAt(ts, i)] + r.rs, r.at)
  }

  function TakeExec(ts: seq<Token>, i: nat): (r: Result)
    requires i <= |ts|
    ensures r.Ok? ==> i <= r.at <= |ts|
    decreases |ts| - i, 1
  {
    if Is(ts, i, '(') then TakeBlock(ts, i)
    else
      var r := TakeSimple(ts, i, 0);
      if r.Bad? then Fail else Ok(Wrap(Exec(r.args), r.rs), r.at)
  }

  function TakeBlock(ts: seq<Token>, i: nat): (r: Result)
    requires Is(ts, i, '(')
    ensures r.Ok? ==> i <= r.at <= |ts|
    decreases |ts| - i, 0
  {
    var inner := TakeLine(ts, i + 1);
    if inner.Fail? || !Is(ts, inner.at, ')') then Fail
    else
      var r := TakeRedirs(ts, inner.at + 1);
      if r.NoFile? then Fail else Ok(Wrap(inner.cmd, r.rs), r.at)
  }

  function TakePipe(ts: seq<Token>, i: nat): (r: Result)
    requires i <= |ts|
    ensures r.Ok? ==> i <= r.at <= |ts|
    decreases |ts| - i, 2
  {
    var left := TakeExec(ts, i);
    if left.Fail? || !Is(ts, left.at, '|') then left
    else
      var right := TakePipe(ts, left.at + 1);
      if right.Fail? then Fail else Ok(Pipe(left.cmd, right.cmd), right.at)
  }

  /** The "&"s after a pipeline. */
  function TakeBacks(c: Cmd, ts: seq<Token>, i: nat): (r: Result)
    requires i <= |ts|
    ensures r.Ok? && i <= r.at <= |ts| && !Is(ts, r.at, '&')
    decreases |ts| - i
  {
    if Is(ts, i, '&') then TakeBacks(Back(c), ts, i + 1) else Ok(c, i)
  }

  function TakeLine(ts: seq<Token>, i: nat): (r: Result)
    requires i <= |ts|
    ensures r.Ok? ==> i <= r.at <= |ts|
    decreases |ts| - i, 3
  {
    var first := TakePipe(ts, i);
    if first.Fail? then Fail
    else
      var left := TakeBacks(first.cmd, ts, first.at);
      if !Is(ts, left.at, ';') then left
      else
        var right := TakeLine(ts, left.at + 1);
        if right.Fail? then Fail else Ok(List(left.cmd, right.cmd), right.at)
  }

  // ---- Soundness ----------------------------------------------------------------------------------

  /** No command has as many as MAXARGS words. */
  predicate Few(c: Cmd) {
    match c
    case Exec(argv) => |argv| < MAXARGS
    case Redir(d, _) => Few(d)
    case Pipe(l, r) => Few(l) && Few(r)
    case List(l, r) => Few(l) && Few(r)
    case Back(d) => Few(d)
  }

  lemma {:induction false} WrapFew(c: Cmd, rs: seq<Redirect>)
    ensures Few(Wrap(c, rs)) == Few(c)
    decreases |rs|
  {
    if rs != [] {
      WrapFew(c, rs[..|rs| - 1]);
    }
  }

  lemma {:induction false} RedirsSound(ts: seq<Token>, i: nat)
    requires i <= |ts| && TakeRedirs(ts, i).Got?
    ensures IsSimple(ts[i..TakeRedirs(ts, i).at], [], TakeRedirs(ts, i).rs)
    decreases |ts| - i
  {
    if i < |ts| && IsRedirSym(ts[i]) {
      var r, tail := TakeRedirs(ts, i), TakeRedirs(ts, i + 2);
      RedirsSound(ts, i + 2);
      assert ts[i..r.at][2..] == ts[i + 2..r.at] && r.rs[1..] == tail.rs;
    }
  }

  lemma {:induction false} SimpleSound(ts: seq<Token>, i: nat, n: nat)
    requires i <= |ts| && TakeSimple(ts, i, n).Words? && n < MAXARGS
    ensures var r := TakeSimple(ts, i, n); IsSimple(ts[i..r.at], r.args, r.rs) && n + |r.args| < MAXARGS
    decreases |ts| - i
  {
    if !Stops(ts, i, "|)&;") {
      var r := TakeSimple(ts, i, n);
      if ts[i].Word? {
        var tail := TakeSimple(ts, i + 1, n + 1);
        SimpleSound(ts, i + 1, n + 1);
        assert ts[i..r.at][1..] == ts[i + 1..r.at] && r.args[1..] == tail.args;
      } else {
        var tail := TakeSimple(ts, i + 2, n);
        SimpleSound(ts, i + 2, n);
        assert ts[i..r.at][2..] == ts[i + 2..r.at] && r.rs[1..] == tail.rs;
      }
    }
  }

  lemma {:induction false} ExecSound(ts: seq<Token>, i: nat)
    requires i <= |ts| && TakeExec(ts, i).Ok?
    ensures var r := TakeExec(ts, i); IsExec(r.cmd, ts[i..r.at]) && Few(r.cmd)
    decreases |ts| - i, 1
  {
    if Is(ts, i, '(') {
      BlockSound(ts, i);
    } else {
      var r := TakeSimple(ts, i, 0);
      SimpleSound(ts, i, 0);
      WrapFew(Exec(r.args), r.rs);
    }
  }

  lemma SliceSlice<T>(s: seq<T>, i: nat, j: nat, a: nat, b: nat)
    requires i <= j <= |s| && a <= b <= j - i
    ensures s[i..j][a..b] == s[i + a..i + b]
  {
    var l, r := s[i..j][a..b], s[i + a..i + b];
    forall x | 0 <= x < b - a ensures l[x] == r[x] {
      assert l[x] == s[i..j][a + x];
    }
  }

  /** A stretch of tokens cut at a symbol. */
  lemma CutAt(ts: seq<Token>, i: nat, k: nat, j: nat, c: char)
    requires i <= k < j <= |ts| && Is(ts, k, c)
    ensures IsSplit(ts[i..j], ts[i..k], c, ts[k + 1..j])
  {
    SliceSlice(ts, i, j, 0, k - i);
    SliceSlice(ts, i, j, k - i + 1, j - i);
  }

  lemma BlockAt(ts: seq<Token>, i: nat, k: nat, j: nat, b: Cmd, rs: seq<Redirect>)
    requires i < k < j <= |ts| && Is(ts, i, '(') && Is(ts, k, ')')
    requires IsLine(b, ts[i + 1..k]) && IsSimple(ts[k + 1..j], [], rs)
    ensures IsExec(Wrap(b, rs), ts[i..j])
  {
    SliceSlice(ts, i, j, 1, k - i);
    SliceSlice(ts, i, j, k - i + 1, j - i);
    assert IsBracketed(ts[i..j], ts[i + 1..k], ts[k + 1..j]);
  }

  /** The parts of a bracketed line, and what they make. */
  lemma BlockParts(ts: seq<Token>, i: nat)
    requires Is(ts, i, '(') && TakeBlock(ts, i).Ok?
    ensures var inner := TakeLine(ts, i + 1);
            && inner.Ok? && Is(ts, inner.at, ')')
            && var r := TakeRedirs(ts, inner.at + 1); r.Got? && TakeBlock(ts, i) == Ok(Wrap(inner.cmd, r.rs), r.at)
  {
  }

  lemma BlockFrom(ts: seq<Token>, i: nat, b: Cmd, k: nat, rs: seq<Redirect>, j: nat)
    requires Is(ts, i, '(') && TakeLine(ts, i + 1) == Ok(b, k) && Is(ts, k, ')') && TakeRedirs(ts, k + 1) == Got(rs, j)
    ensures TakeExec(ts, i) == Ok(Wrap(b, rs), j)
  {
  }

  lemma {:induction false} BlockSound(ts: seq<Token>, i: nat)
    requires Is(ts, i, '(') && TakeBlock(ts, i).Ok?
    ensures var r := TakeBlock(ts, i); IsExec(r.cmd, ts[i..r.at]) && Few(r.cmd)
    decreases |ts| - i, 0
  {
    BlockParts(ts, i);
    var inner := TakeLine(ts, i + 1);
    LineSound(ts, i + 1);
    var k := inner.at;
    var r := TakeRedirs(ts, k + 1);
    RedirsSound(ts, k + 1);
    WrapFew(inner.cmd, r.rs);
    BlockAt(ts, i, k, r.at, inner.cmd, r.rs);
  }

  lemma {:induction false} PipeSound(ts: seq<Token>, i: nat)
    requires i <= |ts| && TakePipe(ts, i).Ok?
    ensures var r := TakePipe(ts, i); IsPipe(r.cmd, ts[i..r.at]) && Few(r.cmd)
    decreases |ts| - i, 2
  {
    var left := TakeExec(ts, i);
    ExecSound(ts, i);
    var k := left.at;
    if Is(ts, k, '|') {
      var right := TakePipe(ts, k + 1);
      PipeSound(ts, k + 1);
      CutAt(ts, i, k, right.at, '|');
      PipeIs(left.cmd, ts[i..k], right.cmd, ts[k + 1..right.at], ts[i..right.at]);
    }
  }

  lemma {:induction false} BacksSound(c: Cmd, ts: seq<Token>, i: nat, k: nat)
    requires i <= k <= |ts| && IsBacks(c, ts[i..k]) && Few(c)
    ensures var r := TakeBacks(c, ts, k); IsBacks(r.cmd, ts[i..r.at]) && Few(r.cmd)
    decreases |ts| - k
  {
    if Is(ts, k, '&') {
      CutAt(ts, i, k, k + 1, '&');
      assert ts[k + 1..k + 1] == [];
      BackIs(c, ts[i..k], ts[i..k + 1]);
      BacksSound(Back(c), ts, i, k + 1);
    }
  }

  /** What the parser returns, the grammar derives from the tokens it passed. */
  lemma {:induction false} LineSound(ts: seq<Token>, i: nat)
    requires i <= |ts| && TakeLine(ts, i).Ok?
    ensures var r := TakeLine(ts, i); IsLine(r.cmd, ts[i..r.at]) && Few(r.cmd)
    decreases |ts| - i, 3
  {
    var first := TakePipe(ts, i);
    PipeSound(ts, i);
    BacksSound(first.cmd, ts, i, first.at);
    var left := TakeBacks(first.cmd, ts, first.at);
    var k := left.at;
    if Is(ts, k, ';') {
      var right := TakeLine(ts, k + 1);
      LineSound(ts, k + 1);
      CutAt(ts, i, k, right.at, ';');
      ListIs(left.cmd, ts[i..k], right.cmd, ts[k + 1..right.at], ts[i..right.at]);
    }
  }

  // ---- Completeness -------------------------------------------------------------------------------

  lemma {:induction false} RedirsComplete(ts: seq<Token>, i: nat, j: nat, rs: seq<Redirect>)
    requires i <= j <= |ts| && IsSimple(ts[i..j], [], rs) && (j == |ts| || !IsRedirSym(ts[j]))
    ensures TakeRedirs(ts, i) == Got(rs, j)
    decreases j - i
  {
    if i < j {
      assert ts[i..j][2..] == ts[i + 2..j];
      RedirsComplete(ts, i + 2, j, rs[1..]);
      assert rs == [rs[0]] + rs[1..];
    }
  }

  lemma {:induction false} SimpleComplete(ts: seq<Token>, i: nat, j: nat, args: seq<Span>, rs: seq<Redirect>, n: nat)
    requires i <= j <= |ts| && IsSimple(ts[i..j], args, rs) && Stops(ts, j, "|)&;") && n + |args| < MAXARGS
    ensures TakeSimple(ts, i, n) == Words(args, rs, j)
    decreases j - i
  {
    if i < j {
      if ts[i].Word? {
        assert ts[i..j][1..] == ts[i + 1..j];
        SimpleComplete(ts, i + 1, j, args[1..], rs, n + 1);
        assert args == [args[0]] + args[1..];
      } else {
        assert ts[i..j][2..] == ts[i + 2..j];
        SimpleComplete(ts, i + 2, j, args, rs[1..], n);
        assert rs == [rs[0]] + rs[1..];
      }
    }
  }

  lemma {:induction false} ExecComplete(c: Cmd, ts: seq<Token>, i: nat, j: nat)
    requires i <= j <= |ts| && IsExec(c, ts[i..j]) && Few(c) && Stops(ts, j, "|)&;")
    ensures TakeExec(ts, i) == Ok(c, j)
    decreases j - i, 1
  {
    if IsBlock(c, ts[i..j]) {
      BlockComplete(c, ts, i, j);
    } else {
      var args, rs :| IsSimple(ts[i..j], args, rs) && c == Wrap(Exec(args), rs);
      WrapFew(Exec(args), rs);
      SimpleComplete(ts, i, j, args, rs, 0);
      assert i < j ==> ts[i..j][0] == ts[i];
    }
  }

  /** Where the closing bracket stands in a stretch of tokens. */
  lemma BracketAt(ts: seq<Token>, i: nat, j: nat, tb: seq<Token>, tr: seq<Token>) returns (k: nat)
    requires i <= j <= |ts| && IsBracketed(ts[i..j], tb, tr)
    ensures i < k < j && Is(ts, i, '(') && tb == ts[i + 1..k] && Is(ts, k, ')') && tr == ts[k + 1..j]
  {
    k := i + 1 + |tb|;
    SliceSlice(ts, i, j, 1, 1 + |tb|);
    SliceSlice(ts, i, j, 2 + |tb|, j - i);
  }

  lemma {:induction false} BlockComplete(c: Cmd, ts: seq<Token>, i: nat, j: nat)
    requires i <= j <= |ts| && IsBlock(c, ts[i..j]) && Few(c) && Stops(ts, j, "|)&;")
    ensures TakeExec(ts, i) == Ok(c, j)
    decreases j - i, 0
  {
    var b, rs, tb, tr :|
      |tb| < |ts[i..j]| && IsLine(b, tb) && IsSimple(tr, [], rs) && c == Wrap(b, rs) && IsBracketed(ts[i..j], tb, tr);
    WrapFew(b, rs);
    var k := BracketAt(ts, i, j, tb, tr);
    LineComplete(b, ts, i + 1, k);
    RedirsComplete(ts, k + 1, j, rs);
    BlockFrom(ts, i, b, k, rs, j);
  }

  /** Where a split cuts a stretch of tokens. */
  lemma SplitAt(ts: seq<Token>, i: nat, j: nat, l: seq<Token>, c: char, r: seq<Token>) returns (k: nat)
    requires i <= j <= |ts| && IsSplit(ts[i..j], l, c, r)
    ensures i <= k < j && l == ts[i..k] && Is(ts, k, c) && r == ts[k + 1..j]
  {
    k := i + |l|;
    SliceSlice(ts, i, j, 0, |l|);
    SliceSlice(ts, i, j, |l| + 1, j - i);
  }

  lemma {:induction false} PipeComplete(c: Cmd, ts: seq<Token>, i: nat, j: nat)
    requires i <= j <= |ts| && IsPipe(c, ts[i..j]) && Few(c) && Stops(ts, j, ")&;")
    ensures TakePipe(ts, i) == Ok(c, j)
    decreases j - i, 2
  {
    if IsExec(c, ts[i..j]) {
      ExecComplete(c, ts, i, j);
    } else {
      var l, r :| |l| < |ts[i..j]| && |r| < |ts[i..j]| && IsSplit(ts[i..j], l, '|', r) && IsExec(c.left, l) &&
        IsPipe(c.right, r);
      var k := SplitAt(ts, i, j, l, '|', r);
      ExecComplete(c.left, ts, i, k);
      PipeComplete(c.right, ts, k + 1, j);
    }
  }

  /** Taking a pipeline and its "&"s from `i` comes to taking "&"s for `c` from `j`. */
  lemma {:induction false} BacksComplete(c: Cmd, ts: seq<Token>, i: nat, j: nat)
    requires i <= j <= |ts| && IsBacks(c, ts[i..j]) && Few(c) && Stops(ts, j, ")&;")
    ensures var r := TakePipe(ts, i); r.Ok? && TakeBacks(r.cmd, ts, r.at) == TakeBacks(c, ts, j)
    decreases j - i, 3
  {
    if IsPipe(c, ts[i..j]) {
      PipeComplete(c, ts, i, j);
    } else {
      var l :| |l| < |ts[i..j]| && IsSplit(ts[i..j], l, '&', []) && IsBacks(c.cmd, l);
      var k := SplitAt(ts, i, j, l, '&', []);
      BacksComplete(c.cmd, ts, i, k);
    }
  }

  /** What the grammar derives, the parser returns, if no command has too many words. */
  lemma {:induction false} LineComplete(c: Cmd, ts: seq<Token>, i: nat, j: nat)
    requires i <= j <= |ts| && IsLine(c, ts[i..j]) && Few(c) && Stops(ts, j, ")")
    ensures TakeLine(ts, i) == Ok(c, j)
    decreases j - i, 4
  {
    if IsBacks(c, ts[i..j]) {
      BacksComplete(c, ts, i, j);
    } else {
      var l, r :| |l| < |ts[i..j]| && |r| < |ts[i..j]| && IsSplit(ts[i..j], l, ';', r) && IsBacks(c.left, l) &&
        IsLine(c.right, r);
      var k := SplitAt(ts, i, j, l, ';', r);
      BacksComplete(c.left, ts, i, k);
      LineComplete(c.right, ts, k + 1, j);
    }
  }

  /** The parser takes all the tokens as `c` exactly when the grammar derives them from `c`. */
  lemma ParsesIff(ts: seq<Token>, c: Cmd)
    ensures TakeLine(ts, 0) == Ok(c, |ts|) <==> IsLine(c, ts) && Few(c)
  {
    assert ts[0..|ts|] == ts;
    if TakeLine(ts, 0) == Ok(c, |ts|) {
      LineSound(ts, 0);
    }
    if IsLine(c, ts) && Few(c) {
      LineComplete(c, ts, 0, |ts|);
    }
  }

  /** No line has two trees. */
  lemma OneTree(ts: seq<Token>, c: Cmd, d: Cmd)
    requires IsLine(c, ts) && IsLine(d, ts) && Few(c) && Few(d)
    ensures c == d
  {
    ParsesIff(ts, c);
    ParsesIff(ts, d);
  }
}

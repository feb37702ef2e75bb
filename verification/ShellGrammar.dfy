/**
 The grammar of command lines: their tokens, their concrete syntax trees, the command that a
 tree denotes, and a parser over tokens that is proved to be the inverse of writing a tree
 out. Module ShellParser holds the code of the shell.
 */
module ShellGrammar {

  const MAXARGS := 10
  const O_RDONLY := 0x000
  const O_WRONLY := 0x001
  const O_CREATE := 0x200
  const O_TRUNC := 0x400

  // ------------------------------------------------------------------ tokens

  /** Kind 'a' is a word, '+' is ">>", any other kind is the symbol itself. */
  datatype Tok = Tok(kind: char, lo: nat, hi: nat)

  predicate IsSpace(c: char) { c in {' ', '\t', '\r', '\n', 11 as char} }

  predicate IsSymbol(c: char) { c in {'<', '|', '>', '&', ';', '(', ')'} }

  /** The first position from p on that is not white space. */
  function Skip(t: string, p: nat): (q: nat)
    requires p <= |t|
    ensures p <= q <= |t| && (q < |t| ==> !IsSpace(t[q])) && forall k | p <= k < q :: IsSpace(t[k])
    decreases |t| - p
  {
    if p < |t| && IsSpace(t[p]) then Skip(t, p + 1) else p
  }

  /** The end of the run of word characters at p. */
  function WordEnd(t: string, p: nat): (q: nat)
    requires p <= |t|
    ensures p <= q <= |t| && (q < |t| ==> IsSpace(t[q]) || IsSymbol(t[q]))
            && forall k | p <= k < q :: !IsSpace(t[k]) && !IsSymbol(t[k])
    decreases |t| - p
  {
    if p < |t| && !IsSpace(t[p]) && !IsSymbol(t[p]) then WordEnd(t, p + 1) else p
  }

  /** The token at p. */
  function TokAt(t: string, p: nat): (k: Tok)
    requires p < |t| && !IsSpace(t[p])
    ensures k.lo == p < k.hi <= |t|
  {
    if t[p] == '>' && p + 1 < |t| && t[p + 1] == '>' then Tok('+', p, p + 2)
    else if IsSymbol(t[p]) then Tok(t[p], p, p + 1)
    else Tok('a', p, WordEnd(t, p + 1))
  }

  /** The tokens of the text from p on. */
  function Lex(t: string, p: nat): seq<Tok>
    requires p <= |t|
    decreases |t| - p
  {
    var q := Skip(t, p);
    if q == |t| then [] else [TokAt(t, q)] + Lex(t, TokAt(t, q).hi)
  }

  // ----------------------------------------------------------------- grammar

  datatype Redir = Redir(op: Tok, file: Tok)

  datatype Word = Word(tok: Tok, redirs: seq<Redir>)

  datatype Exec = Simple(pre: seq<Redir>, words: seq<Word>) | Block(open: Tok, line: Line, close: Tok,
      redirs: seq<Redir>)

  datatype Pipe = One(exec: Exec) | Piped(exec: Exec, bar: Tok, rest: Pipe)

  datatype Line = Last(pipe: Pipe, amps: seq<Tok>) | Listed(pipe: Pipe, amps: seq<Tok>, semi: Tok, rest: Line)

  predicate IsRedir(k: Tok) { k.kind in {'<', '>', '+'} }

  /** A word may not follow here. */
  predicate Stops(k: Tok) { k.kind in {'|', ')', '&', ';'} }

  ghost predicate RedirsOk(rs: seq<Redir>) { forall i | 0 <= i < |rs| :: IsRedir(rs[i].op) && rs[i].file.kind == 'a' }

  ghost predicate WordsOk(ws: seq<Word>) { forall i | 0 <= i < |ws| :: ws[i].tok.kind == 'a' && RedirsOk(ws[i].redirs) }

  /** The tree obeys the grammar: list over background over pipe over block or simple command,
      both with redirections; a command has fewer than MAXARGS words. */
  ghost predicate ExecOk(e: Exec) {
    match e
    case Simple(pre, words) => RedirsOk(pre) && WordsOk(words) && |words| < MAXARGS
    case Block(open, line, close, redirs) => open.kind == '(' && LineOk(line) && close.kind == ')' && RedirsOk(redirs)
  }

  ghost predicate PipeOk(p: Pipe) {
    match p
    case One(e) => ExecOk(e)
    case Piped(e, bar, rest) => ExecOk(e) && bar.kind == '|' && PipeOk(rest)
  }

  ghost predicate LineOk(l: Line) {
    && PipeOk(l.pipe) && (forall i | 0 <= i < |l.amps| :: l.amps[i].kind == '&')
    && (l.Listed? ==> l.semi.kind == ';' && LineOk(l.rest))
  }

  // ------------------------------------------------ a tree written as tokens

  function RedirToks(rs: seq<Redir>, rest: seq<Tok>): seq<Tok> {
    if rs == [] then rest else [rs[0].op, rs[0].file] + RedirToks(rs[1..], rest)
  }

  function WordToks(ws: seq<Word>, rest: seq<Tok>): seq<Tok> {
    if ws == [] then rest else [ws[0].tok] + RedirToks(ws[0].redirs, WordToks(ws[1..], rest))
  }

  function AmpToks(amps: seq<Tok>, rest: seq<Tok>): seq<Tok> {
    if amps == [] then rest else [amps[0]] + AmpToks(amps[1..], rest)
  }

  function ExecToks(e: Exec, rest: seq<Tok>): seq<Tok> {
    match e
    case Simple(pre, words) => RedirToks(pre, WordToks(words, rest))
    case Block(open, line, close, redirs) => [open] + LineToks(line, [close] + RedirToks(redirs, rest))
  }

  function PipeToks(p: Pipe, rest: seq<Tok>): seq<Tok> {
    match p
    case One(e) => ExecToks(e, rest)
    case Piped(e, bar, more) => ExecToks(e, [bar] + PipeToks(more, rest))
  }

  /** The tokens of a line, followed by rest. */
  function LineToks(l: Line, rest: seq<Tok>): seq<Tok> {
    PipeToks(l.pipe, AmpToks(l.amps, if l.Last? then rest else [l.semi] + LineToks(l.rest, rest)))
  }

  // ------------------------------------------------------ the parser's choices

  datatype Res<T> = Fail | Ok(value: T, rest: seq<Tok>)

  function PRedirs(ts: seq<Tok>): (r: Res<seq<Redir>>)
    ensures r.Ok? ==> |r.rest| <= |ts|
  {
    if ts == [] || !IsRedir(ts[0]) then Ok([], ts)
    else if |ts| < 2 || ts[1].kind != 'a' then Fail
    else
      match PRedirs(ts[2..])
      case Fail => Fail
      case Ok(rs, rest) => Ok([Redir(ts[0], ts[1])] + rs, rest)
  }

  function PWords(ts: seq<Tok>, argc: nat): (r: Res<seq<Word>>)
    ensures r.Ok? ==> |r.rest| <= |ts|
    decreases |ts|
  {
    if ts == [] || Stops(ts[0]) then Ok([], ts)
    else if ts[0].kind != 'a' || argc + 1 >= MAXARGS then Fail
    else
      match PRedirs(ts[1..])
      case Fail => Fail
      case Ok(rs, rest) =>
        match PWords(rest, argc + 1)
        case Fail => Fail
        case Ok(ws, rest) => Ok([Word(ts[0], rs)] + ws, rest)
  }

  function PAmps(ts: seq<Tok>): (r: Res<seq<Tok>>)
    ensures r.Ok? && |r.rest| <= |ts|
  {
    if ts == [] || ts[0].kind != '&' then Ok([], ts) else Ok([ts[0]] + PAmps(ts[1..]).value, PAmps(ts[1..]).rest)
  }

  function PExec(ts: seq<Tok>): (r: Res<Exec>)
    ensures r.Ok? ==> |r.rest| <= |ts|
    decreases |ts|, 0
  {
    if ts != [] && ts[0].kind == '(' then
      match PLine(ts[1..])
      case Fail => Fail
      case Ok(line, rest) =>
        if rest == [] || rest[0].kind != ')' then Fail
        else
          match PRedirs(rest[1..])
          case Fail => Fail
          case Ok(rs, after) => Ok(Block(ts[0], line, rest[0], rs), after)
    else
      match PRedirs(ts)
      case Fail => Fail
      case Ok(rs, rest) =>
        match PWords(rest, 0)
        case Fail => Fail
        case Ok(ws, after) => Ok(Simple(rs, ws), after)
  }

  function PPipe(ts: seq<Tok>): (r: Res<Pipe>)
    ensures r.Ok? ==> |r.rest| <= |ts|
    decreases |ts|, 1
  {
    match PExec(ts)
    case Fail => Fail
    case Ok(e, rest) =>
      if rest == [] || rest[0].kind != '|' then Ok(One(e), rest)
      else
        match PPipe(rest[1..])
        case Fail => Fail
        case Ok(p, after) => Ok(Piped(e, rest[0], p), after)
  }

  function PLine(ts: seq<Tok>): (r: Res<Line>)
    ensures r.Ok? ==> |r.rest| <= |ts|
    decreases |ts|, 2
  {
    match PPipe(ts)
    case Fail => Fail
    case Ok(p, rest) =>
      var amps, next := PAmps(rest).value, PAmps(rest).rest;
      if next == [] || next[0].kind != ';' then Ok(Last(p, amps), next)
      else
        match PLine(next[1..])
        case Fail => Fail
        case Ok(l, after) => Ok(Listed(p, amps, next[0], l), after)
  }

  // --------------------------------------------------------------- soundness

  lemma {:induction false} RedirsSound(ts: seq<Tok>)
    ensures PRedirs(ts).Ok? ==>
              && RedirsOk(PRedirs(ts).value) && ts == RedirToks(PRedirs(ts).value, PRedirs(ts).rest)
              && (PRedirs(ts).rest != [] ==> !IsRedir(PRedirs(ts).rest[0]))
  {
    if PRedirs(ts).Ok? && ts != [] && IsRedir(ts[0]) {
      RedirsSound(ts[2..]);
      var rs := PRedirs(ts[2..]).value;
      assert ([Redir(ts[0], ts[1])] + rs)[1..] == rs;
    }
  }

  lemma {:induction false} WordsSound(ts: seq<Tok>, argc: nat)
    ensures PWords(ts, argc).Ok? ==>
              && WordsOk(PWords(ts, argc).value) && ts == WordToks(PWords(ts, argc).value, PWords(ts, argc).rest)
              && (argc < MAXARGS ==> argc + |PWords(ts, argc).value| < MAXARGS)
    decreases |ts|
  {
    if PWords(ts, argc).Ok? && ts != [] && !Stops(ts[0]) {
      RedirsSound(ts[1..]);
      var rs, rest := PRedirs(ts[1..]).value, PRedirs(ts[1..]).rest;
      WordsSound(rest, argc + 1);
      var ws := PWords(rest, argc + 1).value;
      assert ([Word(ts[0], rs)] + ws)[1..] == ws;
    }
  }

  lemma {:induction false} AmpsSound(ts: seq<Tok>)
    ensures (forall i | 0 <= i < |PAmps(ts).value| :: PAmps(ts).value[i].kind == '&')
            && ts == AmpToks(PAmps(ts).value, PAmps(ts).rest)
    ensures PAmps(ts).rest != [] ==> PAmps(ts).rest[0].kind != '&'
  {
    if ts != [] && ts[0].kind == '&' {
      AmpsSound(ts[1..]);
      var amps := PAmps(ts[1..]).value;
      assert ([ts[0]] + amps)[1..] == amps;
    }
  }

  lemma {:induction false} ExecSound(ts: seq<Tok>)
    ensures PExec(ts).Ok? ==> ExecOk(PExec(ts).value) && ts == ExecToks(PExec(ts).value, PExec(ts).rest)
    decreases |ts|, 0
  {
    if PExec(ts).Ok? {
      if ts != [] && ts[0].kind == '(' {
        LineSound(ts[1..]);
        var rest := PLine(ts[1..]).rest;
        RedirsSound(rest[1..]);
        assert ts == [ts[0]] + ts[1..] && rest == [rest[0]] + rest[1..];
      } else {
        RedirsSound(ts);
        WordsSound(PRedirs(ts).rest, 0);
      }
    }
  }

  lemma {:induction false} PipeSound(ts: seq<Tok>)
    ensures PPipe(ts).Ok? ==> PipeOk(PPipe(ts).value) && ts == PipeToks(PPipe(ts).value, PPipe(ts).rest)
    decreases |ts|, 1
  {
    ExecSound(ts);
    if PPipe(ts).Ok? && PPipe(ts).value.Piped? {
      var rest := PExec(ts).rest;
      PipeSound(rest[1..]);
      assert rest == [rest[0]] + rest[1..];
    }
  }

  /** Soundness: a parse that succeeds is a tree of the grammar, and its tokens are those read. */
  lemma {:induction false} LineSound(ts: seq<Tok>)
    ensures PLine(ts).Ok? ==> LineOk(PLine(ts).value) && ts == LineToks(PLine(ts).value, PLine(ts).rest)
    decreases |ts|, 2
  {
    PipeSound(ts);
    if PLine(ts).Ok? {
      AmpsSound(PPipe(ts).rest);
      if PLine(ts).value.Listed? {
        var next := PAmps(PPipe(ts).rest).rest;
        LineSound(next[1..]);
        assert next == [next[0]] + next[1..];
      }
    }
  }

  // ------------------------------------------------------------ completeness

  lemma {:induction false} RedirsComplete(rs: seq<Redir>, rest: seq<Tok>)
    requires RedirsOk(rs) && (rest != [] ==> !IsRedir(rest[0]))
    ensures PRedirs(RedirToks(rs, rest)) == Ok(rs, rest)
  {
    if rs != [] {
      assert RedirsOk(rs[1..]);
      RedirsComplete(rs[1..], rest);
      assert RedirToks(rs, rest)[2..] == RedirToks(rs[1..], rest);
      assert rs == [rs[0]] + rs[1..];
    }
  }

  /** What may follow the words of a command. */
  predicate Ends(rest: seq<Tok>) { rest == [] || Stops(rest[0]) }

  lemma {:induction false} WordsComplete(ws: seq<Word>, argc: nat, rest: seq<Tok>)
    requires WordsOk(ws) && argc + |ws| < MAXARGS && Ends(rest)
    ensures PWords(WordToks(ws, rest), argc) == Ok(ws, rest)
    ensures WordToks(ws, rest) != [] ==> !IsRedir(WordToks(ws, rest)[0]) && WordToks(ws, rest)[0].kind != '('
    decreases |ws|
  {
    if ws != [] {
      assert WordsOk(ws[1..]);
      WordsComplete(ws[1..], argc + 1, rest);
      var ts, more := WordToks(ws, rest), WordToks(ws[1..], rest);
      RedirsComplete(ws[0].redirs, more);
      assert ts[0] == ws[0].tok && ts[1..] == RedirToks(ws[0].redirs, more);
      assert PWords(ts, argc) == Ok([ws[0]] + ws[1..], rest);
      assert ws == [ws[0]] + ws[1..];
    }
  }

  lemma {:induction false} AmpsComplete(amps: seq<Tok>, rest: seq<Tok>)
    requires (forall i | 0 <= i < |amps| :: amps[i].kind == '&') && (rest != [] ==> rest[0].kind != '&')
    ensures PAmps(AmpToks(amps, rest)) == Ok(amps, rest)
  {
    if amps != [] {
      AmpsComplete(amps[1..], rest);
      assert AmpToks(amps, rest)[1..] == AmpToks(amps[1..], rest);
      assert amps == [amps[0]] + amps[1..];
    }
  }

  lemma {:induction false} ExecComplete(e: Exec, rest: seq<Tok>)
    requires ExecOk(e) && Ends(rest)
    ensures PExec(ExecToks(e, rest)) == Ok(e, rest)
    decreases e
  {
    match e
    case Simple(pre, words) =>
      WordsComplete(words, 0, rest);
      RedirsComplete(pre, WordToks(words, rest));
      assert ExecToks(e, rest) != [] ==> ExecToks(e, rest)[0].kind != '(';
    case Block(open, line, close, redirs) =>
      var after := [close] + RedirToks(redirs, rest);
      LineComplete(line, after);
      assert ExecToks(e, rest)[1..] == LineToks(line, after);
      RedirsComplete(redirs, rest);
      assert after[1..] == RedirToks(redirs, rest);
  }

  lemma {:induction false} PipeComplete(p: Pipe, rest: seq<Tok>)
    requires PipeOk(p) && Ends(rest) && (rest != [] ==> rest[0].kind != '|')
    ensures PPipe(PipeToks(p, rest)) == Ok(p, rest)
    decreases p
  {
    match p
    case One(e) => ExecComplete(e, rest);
    case Piped(e, bar, more) =>
      var after := [bar] + PipeToks(more, rest);
      ExecComplete(e, after);
      PipeComplete(more, rest);
      assert after[1..] == PipeToks(more, rest);
  }

  /** Completeness: the tokens of any tree of the grammar parse to that tree. */
  lemma {:induction false} LineComplete(l: Line, rest: seq<Tok>)
    requires LineOk(l) && (rest != [] ==> rest[0].kind == ')')
    ensures PLine(LineToks(l, rest)) == Ok(l, rest)
    decreases l
  {
    var next := if l.Last? then rest else [l.semi] + LineToks(l.rest, rest);
    AmpsComplete(l.amps, next);
    assert l.amps != [] ==> AmpToks(l.amps, next)[0].kind == '&';
    PipeComplete(l.pipe, AmpToks(l.amps, next));
    if l.Listed? {
      LineComplete(l.rest, rest);
      assert next[1..] == LineToks(l.rest, rest);
    }
  }

  /** The parser accepts exactly the sentences of the grammar, and the tree is the only one. */
  lemma AcceptsExactly(ts: seq<Tok>, l: Line)
    ensures (LineOk(l) && LineToks(l, []) == ts) <==> PLine(ts) == Ok(l, [])
  {
    LineSound(ts);
    if LineOk(l) {
      LineComplete(l, []);
    }
  }

  // ------------------------------------------------------------ its meaning

  datatype Span = Span(q: nat, eq: nat)

  datatype Cmd =
    | ExecCmd(argv: seq<Span>)
    | RedirCmd(cmd: Cmd, file: Span, mode: nat, fd: nat)
    | PipeCmd(left: Cmd, right: Cmd)
    | ListCmd(left: Cmd, right: Cmd)
    | BackCmd(cmd: Cmd)

  function SpanOf(k: Tok): Span { Span(k.lo, k.hi) }

  function ModeOf(kind: char): nat {
    if kind == '<' then O_RDONLY else if kind == '>' then O_WRONLY + O_CREATE + O_TRUNC else O_WRONLY + O_CREATE
  }

  function FdOf(kind: char): nat { if kind == '<' then 0 else 1 }

  /** The first redirection is the innermost. */
  function Redirected(c: Cmd, rs: seq<Redir>): Cmd
    decreases |rs|
  {
    if rs == [] then c else Redirected(RedirCmd(c, SpanOf(rs[0].file), ModeOf(rs[0].op.kind), FdOf(rs[0].op.kind)),
        rs[1..])
  }

  function Args(ws: seq<Word>): (a: seq<Span>)
    ensures |a| == |ws|
  {
    if ws == [] then [] else [SpanOf(ws[0].tok)] + Args(ws[1..])
  }

  function AllRedirs(ws: seq<Word>): seq<Redir> {
    if ws == [] then [] else ws[0].redirs + AllRedirs(ws[1..])
  }

  function Background(c: Cmd, n: nat): Cmd
    decreases n
  {
    if n == 0 then c else Background(BackCmd(c), n - 1)
  }

  function ExecMeans(e: Exec): Cmd {
    match e
    case Simple(pre, words) => Redirected(ExecCmd(Args(words)), pre + AllRedirs(words))
    case Block(_, line, _, redirs) => Redirected(LineMeans(line), redirs)
  }

  function PipeMeans(p: Pipe): Cmd {
    match p
    case One(e) => ExecMeans(e)
    case Piped(e, _, rest) => PipeCmd(ExecMeans(e), PipeMeans(rest))
  }

  /** The command that a tree denotes. */
  function LineMeans(l: Line): Cmd {
    var c := Background(PipeMeans(l.pipe), |l.amps|);
    if l.Last? then c else ListCmd(c, LineMeans(l.rest))
  }
}

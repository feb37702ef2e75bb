/**
 What a command line means, said once more without the parser: which characters make a token,
 and which commands a list of tokens may be read as, by splitting it. The parser's result is
 shown to be the one reading that there is.
 */
module ShellMeaning {
  import opened ShellGrammar

  // ------------------------------------------------------ characters to tokens

  predicate Blank(c: char) { c == ' ' || c == '\t' || c == '\r' || c == '\n' || c == 11 as char }

  predicate Special(c: char) { c == '<' || c == '|' || c == '>' || c == '&' || c == ';' || c == '(' || c == ')' }

  /** A token is ">>", another special character, or a whole word. */
  ghost predicate TokenAt(t: string, k: Tok) {
    && k.lo < k.hi <= |t|
    && (if k.kind == '+' then k.hi == k.lo + 2 && t[k.lo] == '>' && t[k.lo + 1] == '>'
        else if k.kind == 'a' then
          && (forall p | k.lo <= p < k.hi :: !Blank(t[p]) && !Special(t[p]))
          && (k.hi < |t| ==> Blank(t[k.hi]) || Special(t[k.hi]))
        else Special(k.kind) && k.hi == k.lo + 1 && t[k.lo] == k.kind
             && (k.kind == '>' && k.hi < |t| ==> t[k.hi] != '>'))
  }

  ghost predicate AllBlank(t: string, p: nat, q: nat) { p <= q <= |t| && forall k | p <= k < q :: Blank(t[k]) }

  /** These are the tokens of the text from p on: there are blanks between them and nothing else. */
  ghost predicate Tokens(t: string, p: nat, ts: seq<Tok>)
    decreases |ts|
  {
    if ts == [] then AllBlank(t, p, |t|)
    else TokenAt(t, ts[0]) && AllBlank(t, p, ts[0].lo) && Tokens(t, ts[0].hi, ts[1..])
  }

  lemma {:induction false} LexTokens(t: string, p: nat)
    requires p <= |t|
    ensures Tokens(t, p, Lex(t, p))
    decreases |t| - p
  {
    var q := Skip(t, p);
    if q < |t| {
      var k := TokAt(t, q);
      LexTokens(t, k.hi);
      assert Lex(t, p) == [k] + Lex(t, k.hi) && Lex(t, p)[1..] == Lex(t, k.hi);
    }
  }

  /** A text has only one list of tokens. */
  lemma {:induction false} OneTokenization(t: string, p: nat, ts: seq<Tok>)
    requires p <= |t| && Tokens(t, p, ts)
    ensures ts == Lex(t, p)
    decreases |ts|
  {
    var q := Skip(t, p);
    if ts != [] {
      var k := ts[0];
      assert !IsSpace(t[k.lo]) && q <= k.lo && !Blank(t[q]);
      assert k.lo == q;
      assert k == TokAt(t, q) by {
        if k.kind == 'a' {
          WordEndIs(t, q + 1, k.hi);
        }
      }
      OneTokenization(t, k.hi, ts[1..]);
      assert ts == [k] + ts[1..];
    }
  }

  lemma {:induction false} WordEndIs(t: string, p: nat, e: nat)
    requires p <= e <= |t| && (forall k | p <= k < e :: !IsSpace(t[k]) && !IsSymbol(t[k]))
    requires e < |t| ==> IsSpace(t[e]) || IsSymbol(t[e])
    ensures WordEnd(t, p) == e
    decreases e - p
  {
    if p < e {
      WordEndIs(t, p + 1, e);
    }
  }

  // ------------------------------------------------------- tokens to commands

  /** open(2)'s mode and the descriptor for each operator: O_RDONLY on 0; O_WRONLY, O_CREATE and
      O_TRUNC on 1; O_WRONLY and O_CREATE on 1. */
  ghost predicate Opens(op: Tok, mode: nat, fd: nat) {
    || (op.kind == '<' && mode == 0 && fd == 0)
    || (op.kind == '>' && mode == 0x601 && fd == 1)
    || (op.kind == '+' && mode == 0x201 && fd == 1)
  }

  ghost predicate Names(k: Tok, sp: Span) { k.kind == 'a' && sp == Span(k.lo, k.hi) }

  ghost predicate IsOp(k: Tok) { k.kind == '<' || k.kind == '>' || k.kind == '+' }

  ghost predicate AllWords(ts: seq<Tok>) { forall i | 0 <= i < |ts| :: ts[i].kind == 'a' }

  /** The redirection at k is the last: only words follow, or nothing if this is a block. */
  ghost predicate LastRedir(ts: seq<Tok>, k: nat) {
    && k + 1 < |ts| && IsOp(ts[k]) && (k > 0 ==> !IsOp(ts[k - 1])) && AllWords(ts[k + 1..])
    && (ts[0].kind == '(' ==> k + 2 == |ts|)
  }

  /** A simple command is its words, fewer than ten, in order; the last redirection is the outermost;
      a block is a line in parentheses. */
  ghost predicate ReadsExec(ts: seq<Tok>, c: Cmd)
    decreases |ts|, 0
  {
    || (c.ExecCmd? && |c.argv| == |ts| < 10 && forall i | 0 <= i < |ts| :: Names(ts[i], c.argv[i]))
    || (c.RedirCmd? && exists k: nat {:trigger LastRedir(ts, k)} ::
          && LastRedir(ts, k) && Opens(ts[k], c.mode, c.fd) && Names(ts[k + 1], c.file)
          && ReadsExec(ts[..k] + ts[k + 2..], c.cmd))
    || (|ts| >= 2 && ts[0].kind == '(' && ts[|ts| - 1].kind == ')' && ReadsLine(ts[1..|ts| - 1], c))
  }

  ghost predicate ReadsPipe(ts: seq<Tok>, c: Cmd)
    decreases |ts|, 1
  {
    || ReadsExec(ts, c)
    || (c.PipeCmd? && exists k: nat {:trigger ts[k]} ::
          k < |ts| && ts[k].kind == '|' && ReadsExec(ts[..k], c.left) && ReadsPipe(ts[k + 1..], c.right))
  }

  ghost predicate ReadsBack(ts: seq<Tok>, c: Cmd)
    decreases |ts|, 2
  {
    || ReadsPipe(ts, c)
    || (c.BackCmd? && |ts| > 0 && ts[|ts| - 1].kind == '&' && ReadsBack(ts[..|ts| - 1], c.cmd))
  }

  ghost predicate ReadsLine(ts: seq<Tok>, c: Cmd)
    decreases |ts|, 3
  {
    || ReadsBack(ts, c)
    || (c.ListCmd? && exists k: nat {:trigger ts[k]} ::
          k < |ts| && ts[k].kind == ';' && ReadsBack(ts[..k], c.left) && ReadsLine(ts[k + 1..], c.right))
  }

  // ------------------------------------------- trees written out are prefixes

  lemma {:induction false} RedirToksAre(rs: seq<Redir>, rest: seq<Tok>)
    ensures RedirToks(rs, rest) == RedirToks(rs, []) + rest
  {
    if rs != [] {
      RedirToksAre(rs[1..], rest);
    }
  }

  lemma {:induction false} WordToksAre(ws: seq<Word>, rest: seq<Tok>)
    ensures WordToks(ws, rest) == WordToks(ws, []) + rest
  {
    if ws != [] {
      WordToksAre(ws[1..], rest);
      RedirToksAre(ws[0].redirs, WordToks(ws[1..], rest));
      RedirToksAre(ws[0].redirs, WordToks(ws[1..], []));
    }
  }

  lemma {:induction false} AmpToksAre(amps: seq<Tok>, rest: seq<Tok>)
    ensures AmpToks(amps, rest) == amps + rest
  {
    if amps != [] {
      AmpToksAre(amps[1..], rest);
      assert amps == [amps[0]] + amps[1..];
    }
  }

  lemma {:induction false} ExecToksAre(e: Exec, rest: seq<Tok>)
    ensures ExecToks(e, rest) == ExecToks(e, []) + rest
    decreases e
  {
    match e
    case Simple(pre, words) =>
      WordToksAre(words, rest);
      RedirToksAre(pre, WordToks(words, rest));
      RedirToksAre(pre, WordToks(words, []));
    case Block(open, line, close, redirs) =>
      RedirToksAre(redirs, rest);
      LineToksAre(line, [close] + RedirToks(redirs, rest));
      LineToksAre(line, [close] + RedirToks(redirs, []));
  }

  lemma {:induction false} PipeToksAre(p: Pipe, rest: seq<Tok>)
    ensures PipeToks(p, rest) == PipeToks(p, []) + rest
    decreases p
  {
    match p
    case One(e) => ExecToksAre(e, rest);
    case Piped(e, bar, more) =>
      PipeToksAre(more, rest);
      ExecToksAre(e, [bar] + PipeToks(more, rest));
      ExecToksAre(e, [bar] + PipeToks(more, []));
  }

  lemma {:induction false} LineToksAre(l: Line, rest: seq<Tok>)
    ensures LineToks(l, rest) == LineToks(l, []) + rest
    decreases l
  {
    var a, b := rest, [];
    if l.Listed? {
      LineToksAre(l.rest, rest);
      a, b := [l.semi] + LineToks(l.rest, rest), [l.semi] + LineToks(l.rest, []);
    }
    assert a == b + rest;
    AmpToksAre(l.amps, a);
    AmpToksAre(l.amps, b);
    PipeToksAre(l.pipe, l.amps + a);
    PipeToksAre(l.pipe, l.amps + b);
  }

  // -------------------------------------------------- at the end of a command

  lemma {:induction false} RedirToksSnoc(rs: seq<Redir>, r: Redir)
    ensures RedirToks(rs + [r], []) == RedirToks(rs, []) + [r.op, r.file]
  {
    if rs == [] {
      assert RedirToks([r], []) == [r.op, r.file] + RedirToks([r][1..], []);
    } else {
      RedirToksSnoc(rs[1..], r);
      assert (rs + [r])[1..] == rs[1..] + [r];
    }
  }

  lemma {:induction false} WordToksSnoc(ws: seq<Word>, w: Word)
    ensures WordToks(ws + [w], []) == WordToks(ws, []) + [w.tok] + RedirToks(w.redirs, [])
  {
    if ws == [] {
      assert WordToks([w], []) == [w.tok] + RedirToks(w.redirs, WordToks([w][1..], []));
    } else {
      WordToksSnoc(ws[1..], w);
      assert (ws + [w])[1..] == ws[1..] + [w];
      RedirToksAre(ws[0].redirs, WordToks(ws[1..] + [w], []));
      RedirToksAre(ws[0].redirs, WordToks(ws[1..], []));
    }
  }

  lemma {:induction false} ArgsSnoc(ws: seq<Word>, w: Word)
    ensures Args(ws + [w]) == Args(ws) + [SpanOf(w.tok)] && AllRedirs(ws + [w]) == AllRedirs(ws) + w.redirs
  {
    if ws != [] {
      ArgsSnoc(ws[1..], w);
      assert (ws + [w])[1..] == ws[1..] + [w];
    } else {
      assert [w][1..] == [];
    }
  }

  lemma {:induction false} RedirectedSnoc(c: Cmd, rs: seq<Redir>, r: Redir)
    ensures Redirected(c, rs + [r]) ==
            RedirCmd(Redirected(c, rs), SpanOf(r.file), ModeOf(r.op.kind), FdOf(r.op.kind))
    decreases |rs|
  {
    if rs == [] {
      assert [r][1..] == [];
    } else {
      RedirectedSnoc(RedirCmd(c, SpanOf(rs[0].file), ModeOf(rs[0].op.kind), FdOf(rs[0].op.kind)), rs[1..], r);
      assert (rs + [r])[1..] == rs[1..] + [r];
    }
  }

  lemma {:induction false} BackgroundSnoc(c: Cmd, n: nat)
    requires n > 0
    ensures Background(c, n) == BackCmd(Background(c, n - 1))
    decreases n
  {
    if n > 1 {
      BackgroundSnoc(BackCmd(c), n - 1);
    }
  }

  ghost function SimpleToks(pre: seq<Redir>, ws: seq<Word>): seq<Tok> { RedirToks(pre, []) + WordToks(ws, []) }

  lemma SimpleToksAre(pre: seq<Redir>, ws: seq<Word>)
    ensures ExecToks(Simple(pre, ws), []) == SimpleToks(pre, ws)
  {
    RedirToksAre(pre, WordToks(ws, []));
  }

  lemma SimpleSnoc(pre: seq<Redir>, ws: seq<Word>, w: Word)
    ensures SimpleToks(pre, ws + [w]) == SimpleToks(pre, ws) + [w.tok] + RedirToks(w.redirs, [])
  {
    WordToksSnoc(ws, w);
  }

  /** Operators in a simple command are followed by words, so it does not end in one. */
  lemma {:induction false} RedirsEndInWord(rs: seq<Redir>)
    requires RedirsOk(rs)
    ensures RedirToks(rs, []) != [] ==> RedirToks(rs, [])[|RedirToks(rs, [])| - 1].kind == 'a'
    ensures RedirToks(rs, []) != [] ==> RedirToks(rs, [])[0].kind != '('
  {
    if rs != [] {
      assert RedirsOk(rs[1..]);
      RedirsEndInWord(rs[1..]);
    }
  }

  lemma SimpleEndsInWord(pre: seq<Redir>, ws: seq<Word>)
    requires RedirsOk(pre) && WordsOk(ws)
    ensures var ts := SimpleToks(pre, ws); ts != [] ==> ts[|ts| - 1].kind == 'a' && ts[0].kind != '('
  {
    RedirsEndInWord(pre);
    if ws != [] {
      var n := |ws| - 1;
      assert ws == ws[..n] + [ws[n]];
      SimpleSnoc(pre, ws[..n], ws[n]);
      RedirsEndInWord(ws[n].redirs);
      assert WordToks(ws, [])[0] == ws[0].tok;
    }
  }

  // ---------------------------------------------- the parser's result reads so

  lemma {:induction false} RedirFrom(pre: seq<Redir>, ws: seq<Word>)
    returns (pre': seq<Redir>, ws': seq<Word>, r: Redir, a: seq<Tok>, b: seq<Tok>)
    requires RedirsOk(pre) && WordsOk(ws) && pre + AllRedirs(ws) != []
    ensures RedirsOk(pre') && WordsOk(ws') && IsRedir(r.op) && r.file.kind == 'a' && |ws'| == |ws|
    ensures pre + AllRedirs(ws) == pre' + AllRedirs(ws') + [r] && Args(ws') == Args(ws)
    ensures SimpleToks(pre, ws) == a + [r.op, r.file] + b && SimpleToks(pre', ws') == a + b
    ensures AllWords(b) && (a != [] ==> a[|a| - 1].kind == 'a' && a[0].kind != '(')
    decreases |ws|
  {
    hide SimpleToks, Args, AllRedirs;
    if ws == [] {
      pre', r, a := RedirFromPre(pre);
      ws', b := [], [];
    } else {
      var n := |ws| - 1;
      var w := ws[n];
      assert ws == ws[..n] + [w];
      if w.redirs != [] {
        ws', r, a := RedirFromWord(pre, ws[..n], w);
        pre', b := pre, [];
      } else {
        var ws0, b0;
        ArgsSnoc(ws[..n], w);
        assert AllRedirs(ws[..n]) + [] == AllRedirs(ws[..n]);
        pre', ws0, r, a, b0 := RedirFrom(pre, ws[..n]);
        ws', b := RedirBefore(pre, ws[..n], w, pre', ws0, r, a, b0);
      }
    }
  }

  lemma RedirFromPre(pre: seq<Redir>) returns (pre': seq<Redir>, r: Redir, a: seq<Tok>)
    requires RedirsOk(pre) && pre + AllRedirs([]) != []
    ensures RedirsOk(pre') && IsRedir(r.op) && r.file.kind == 'a'
    ensures pre + AllRedirs([]) == pre' + AllRedirs([]) + [r]
    ensures SimpleToks(pre, []) == a + [r.op, r.file] + [] && SimpleToks(pre', []) == a + []
    ensures a != [] ==> a[|a| - 1].kind == 'a' && a[0].kind != '('
  {
    var n := |pre| - 1;
    pre', r, a := pre[..n], pre[n], SimpleToks(pre[..n], []);
    assert pre == pre' + [r];
    RedirToksSnoc(pre', r);
    SimpleEndsInWord(pre', []);
  }

  lemma RedirFromWord(pre: seq<Redir>, ws: seq<Word>, w: Word) returns (ws': seq<Word>, r: Redir, a: seq<Tok>)
    requires RedirsOk(pre) && WordsOk(ws + [w]) && w.redirs != []
    ensures WordsOk(ws') && IsRedir(r.op) && r.file.kind == 'a' && |ws'| == |ws| + 1
    ensures pre + AllRedirs(ws + [w]) == pre + AllRedirs(ws') + [r] && Args(ws') == Args(ws + [w])
    ensures SimpleToks(pre, ws + [w]) == a + [r.op, r.file] + [] && SimpleToks(pre, ws') == a + []
    ensures a != [] ==> a[|a| - 1].kind == 'a' && a[0].kind != '('
  {
    var m := |w.redirs| - 1;
    assert (ws + [w])[|ws|] == w;
    var w' := Word(w.tok, w.redirs[..m]);
    ws', r := ws + [w'], w.redirs[m];
    a := SimpleToks(pre, ws');
    assert w.redirs == w'.redirs + [r];
    forall i | 0 <= i < |ws'|
      ensures ws'[i].tok.kind == 'a' && RedirsOk(ws'[i].redirs)
    {
      assert i < |ws| ==> (ws + [w])[i] == ws[i];
    }
    ArgsSnoc(ws, w);
    ArgsSnoc(ws, w');
    SimpleSnoc(pre, ws, w);
    SimpleSnoc(pre, ws, w');
    RedirToksSnoc(w'.redirs, r);
    SimpleEndsInWord(pre, ws');
  }

  lemma RedirBefore(pre: seq<Redir>, ws: seq<Word>, w: Word, pre': seq<Redir>, ws0: seq<Word>, r: Redir, a: seq<Tok>,
                    b0: seq<Tok>) returns (ws': seq<Word>, b: seq<Tok>)
    requires WordsOk(ws + [w]) && w.redirs == [] && WordsOk(ws0) && |ws0| == |ws| && AllWords(b0)
    requires pre + AllRedirs(ws) == pre' + AllRedirs(ws0) + [r] && Args(ws0) == Args(ws)
    requires SimpleToks(pre, ws) == a + [r.op, r.file] + b0 && SimpleToks(pre', ws0) == a + b0
    ensures WordsOk(ws') && |ws'| == |ws| + 1 && AllWords(b)
    ensures pre + AllRedirs(ws + [w]) == pre' + AllRedirs(ws') + [r] && Args(ws') == Args(ws + [w])
    ensures SimpleToks(pre, ws + [w]) == a + [r.op, r.file] + b && SimpleToks(pre', ws') == a + b
  {
    assert (ws + [w])[|ws|] == w;
    ws', b := ws0 + [w], b0 + [w.tok];
    assert AllRedirs(ws) + [] == AllRedirs(ws) && AllRedirs(ws0) + [] == AllRedirs(ws0);
    ArgsSnoc(ws, w);
    ArgsSnoc(ws0, w);
    SimpleSnoc(pre, ws, w);
    SimpleSnoc(pre', ws0, w);
  }

  lemma OpensRight(r: Redir)
    requires IsRedir(r.op) && r.file.kind == 'a'
    ensures Opens(r.op, ModeOf(r.op.kind), FdOf(r.op.kind)) && Names(r.file, SpanOf(r.file)) && IsOp(r.op)
  {
  }

  lemma {:induction false} SimpleReads(pre: seq<Redir>, ws: seq<Word>, rs: seq<Redir>)
    requires RedirsOk(pre) && WordsOk(ws) && |ws| < MAXARGS && rs == pre + AllRedirs(ws)
    ensures ReadsExec(SimpleToks(pre, ws), Redirected(ExecCmd(Args(ws)), rs))
    decreases |rs|
  {
    var ts := SimpleToks(pre, ws);
    if rs == [] {
      NoRedirs(ws);
    } else {
      var pre', ws', r, a, b := RedirFrom(pre, ws);
      var rs' := pre' + AllRedirs(ws');
      SimpleReads(pre', ws', rs');
      RedirectedSnoc(ExecCmd(Args(ws)), rs', r);
      OpensRight(r);
      ReadsOneMore(ts, a, b, r, Redirected(ExecCmd(Args(ws)), rs'), Redirected(ExecCmd(Args(ws)), rs));
    }
  }

  lemma ReadsOneMore(ts: seq<Tok>, a: seq<Tok>, b: seq<Tok>, r: Redir, d: Cmd, c: Cmd)
    requires ts == a + [r.op, r.file] + b && AllWords(b) && (a != [] ==> !IsOp(a[|a| - 1]))
    requires (a != [] && a[0].kind == '(' ==> b == []) && IsOp(r.op)
    requires c.RedirCmd? && c.cmd == d && Opens(r.op, c.mode, c.fd) && Names(r.file, c.file) && ReadsExec(a + b, d)
    ensures ReadsExec(ts, c)
  {
    var k := |a|;
    assert ts[..k] == a && ts[k + 2..] == b && ts[k + 1..] == [r.file] + b;
    assert LastRedir(ts, k);
  }

  lemma {:induction false} NoRedirs(ws: seq<Word>)
    requires WordsOk(ws) && AllRedirs(ws) == []
    ensures |WordToks(ws, [])| == |ws| == |Args(ws)|
    ensures forall i | 0 <= i < |ws| :: Names(WordToks(ws, [])[i], Args(ws)[i])
  {
    if ws != [] {
      assert WordsOk(ws[1..]);
      NoRedirs(ws[1..]);
      assert ws[0].redirs == [];
      assert WordToks(ws, []) == [ws[0].tok] + WordToks(ws[1..], []);
    }
  }

  lemma {:induction false} BlockReads(open: Tok, line: Line, close: Tok, rs: seq<Redir>)
    requires open.kind == '(' && close.kind == ')' && RedirsOk(rs) && ReadsLine(LineToks(line, []), LineMeans(line))
    ensures ReadsExec([open] + LineToks(line, []) + [close] + RedirToks(rs, []), Redirected(LineMeans(line), rs))
    decreases |rs|
  {
    var inner := LineToks(line, []);
    var ts := [open] + inner + [close] + RedirToks(rs, []);
    if rs == [] {
      assert ts[1..|ts| - 1] == inner;
    } else {
      var n := |rs| - 1;
      var r, a := rs[n], [open] + inner + [close] + RedirToks(rs[..n], []);
      assert rs == rs[..n] + [r];
      BlockReads(open, line, close, rs[..n]);
      RedirToksSnoc(rs[..n], r);
      RedirectedSnoc(LineMeans(line), rs[..n], r);
      OpensRight(r);
      RedirsEndInWord(rs[..n]);
      assert a + [] == a && ts == a + [r.op, r.file] + [];
      ReadsOneMore(ts, a, [], r, Redirected(LineMeans(line), rs[..n]), Redirected(LineMeans(line), rs));
    }
  }

  lemma {:induction false} ExecReads(e: Exec)
    requires ExecOk(e)
    ensures ReadsExec(ExecToks(e, []), ExecMeans(e))
    decreases e
  {
    match e
    case Simple(pre, words) =>
      SimpleToksAre(pre, words);
      SimpleReads(pre, words, pre + AllRedirs(words));
    case Block(open, line, close, redirs) =>
      LineReads(line);
      BlockReads(open, line, close, redirs);
      LineToksAre(line, [close] + RedirToks(redirs, []));
      assert ExecToks(e, []) == [open] + LineToks(line, []) + [close] + RedirToks(redirs, []);
  }

  lemma {:induction false} PipeReads(p: Pipe)
    requires PipeOk(p)
    ensures ReadsPipe(PipeToks(p, []), PipeMeans(p))
    decreases p
  {
    match p
    case One(e) => ExecReads(e);
    case Piped(e, bar, rest) =>
      ExecReads(e);
      PipeReads(rest);
      var ts, k := PipeToks(p, []), |ExecToks(e, [])|;
      ExecToksAre(e, [bar] + PipeToks(rest, []));
      assert ts[..k] == ExecToks(e, []) && ts[k] == bar && ts[k + 1..] == PipeToks(rest, []);
  }

  lemma {:induction false} BackReads(p: Pipe, amps: seq<Tok>)
    requires ReadsPipe(PipeToks(p, []), PipeMeans(p)) && forall i | 0 <= i < |amps| :: amps[i].kind == '&'
    ensures ReadsBack(PipeToks(p, []) + amps, Background(PipeMeans(p), |amps|))
    decreases |amps|
  {
    var ts := PipeToks(p, []) + amps;
    if amps == [] {
      assert ts == PipeToks(p, []);
    } else {
      var n := |amps| - 1;
      BackReads(p, amps[..n]);
      BackgroundSnoc(PipeMeans(p), |amps|);
      assert ts[..|ts| - 1] == PipeToks(p, []) + amps[..n];
    }
  }

  /** What a tree denotes is a reading of its tokens. */
  lemma {:induction false} LineReads(l: Line)
    requires LineOk(l)
    ensures ReadsLine(LineToks(l, []), LineMeans(l))
    decreases l
  {
    hide PipeOk, PipeToks, PipeMeans, AmpToks, ReadsPipe, ReadsBack, Background;
    PipeReads(l.pipe);
    BackReads(l.pipe, l.amps);
    var front := PipeToks(l.pipe, []) + l.amps;
    if l.Last? {
      AmpToksAre(l.amps, []);
      PipeToksAre(l.pipe, AmpToks(l.amps, []));
      assert LineToks(l, []) == front;
    } else {
      LineReads(l.rest);
      var more := [l.semi] + LineToks(l.rest, []);
      AmpToksAre(l.amps, more);
      PipeToksAre(l.pipe, AmpToks(l.amps, more));
      var ts, k := LineToks(l, []), |front|;
      assert ts == front + more;
      assert ts[..k] == front && ts[k] == l.semi && ts[k + 1..] == LineToks(l.rest, []);
    }
  }

  // --------------------------------------------- every reading is a tree's

  lemma {:induction false} PlainWords(ts: seq<Tok>, argv: seq<Span>) returns (ws: seq<Word>)
    requires |argv| == |ts| && forall i | 0 <= i < |ts| :: Names(ts[i], argv[i])
    ensures WordsOk(ws) && |ws| == |ts| && AllRedirs(ws) == [] && Args(ws) == argv && WordToks(ws, []) == ts
  {
    if ts == [] {
      ws := [];
    } else {
      var more := PlainWords(ts[1..], argv[1..]);
      ws := [Word(ts[0], [])] + more;
      assert ws[1..] == more && ts == [ts[0]] + ts[1..] && argv == [argv[0]] + argv[1..];
    }
  }

  /** Behind a redirection the second last token is its operator. */
  lemma OpBeforeEnd(pre: seq<Redir>, ws: seq<Word>)
    requires RedirsOk(pre) && WordsOk(ws) && (if ws == [] then pre else ws[|ws| - 1].redirs) != []
    ensures var ts := SimpleToks(pre, ws); |ts| >= 2 && IsOp(ts[|ts| - 2])
  {
    hide RedirToks;
    var rs := if ws == [] then pre else ws[|ws| - 1].redirs;
    var n := |rs| - 1;
    assert rs == rs[..n] + [rs[n]] && IsRedir(rs[n].op);
    RedirToksSnoc(rs[..n], rs[n]);
    if ws != [] {
      var m := |ws| - 1;
      assert ws == ws[..m] + [ws[m]];
      SimpleSnoc(pre, ws[..m], ws[m]);
    }
  }

  lemma EndsInPlainWord(pre: seq<Redir>, ws: seq<Word>, a: seq<Tok>, b: seq<Tok>)
    requires RedirsOk(pre) && WordsOk(ws) && SimpleToks(pre, ws) == a + b && AllWords(b) && b != []
    requires a != [] ==> !IsOp(a[|a| - 1])
    ensures ws != [] && ws[|ws| - 1].redirs == []
  {
    if (if ws == [] then pre else ws[|ws| - 1].redirs) != [] {
      OpBeforeEnd(pre, ws);
    }
  }

  lemma {:induction false} AddToSimple(pre: seq<Redir>, ws: seq<Word>, a: seq<Tok>, b: seq<Tok>, r: Redir)
    returns (pre': seq<Redir>, ws': seq<Word>)
    requires RedirsOk(pre) && WordsOk(ws) && SimpleToks(pre, ws) == a + b && AllWords(b)
    requires (a != [] ==> !IsOp(a[|a| - 1])) && IsRedir(r.op) && r.file.kind == 'a'
    ensures RedirsOk(pre') && WordsOk(ws') && |ws'| == |ws| && Args(ws') == Args(ws)
    ensures pre' + AllRedirs(ws') == pre + AllRedirs(ws) + [r] && SimpleToks(pre', ws') == a + [r.op, r.file] + b
    decreases |b|
  {
    hide SimpleToks, AllRedirs, Args;
    if b == [] {
      pre', ws' := AddAtEnd(pre, ws, r);
      assert a + b == a && a + [r.op, r.file] + b == a + [r.op, r.file];
    } else {
      EndsInPlainWord(pre, ws, a, b);
      var n, m := |ws| - 1, |b| - 1;
      var w := ws[n];
      assert ws == ws[..n] + [w] && b == b[..m] + [b[m]];
      SimpleSnoc(pre, ws[..n], w);
      assert a + b == (a + b[..m]) + [b[m]];
      SnocIs(SimpleToks(pre, ws[..n]), w.tok, a + b[..m], b[m], a + b);
      var ws0;
      pre', ws0 := AddToSimple(pre, ws[..n], a, b[..m], r);
      ws' := ws0 + [w];
      AddedBefore(pre, ws[..n], w, pre', ws0, r);
      SimpleSnoc(pre', ws0, w);
      assert a + [r.op, r.file] + b == a + [r.op, r.file] + b[..m] + [w.tok];
    }
  }

  lemma SnocIs(x: seq<Tok>, u: Tok, y: seq<Tok>, v: Tok, z: seq<Tok>)
    requires z == x + [u] && z == y + [v]
    ensures x == y && u == v
  {
    assert x == z[..|z| - 1] == y && u == z[|z| - 1] == v;
  }

  lemma AddedBefore(pre: seq<Redir>, ws: seq<Word>, w: Word, pre': seq<Redir>, ws0: seq<Word>, r: Redir)
    requires w.redirs == [] && Args(ws0) == Args(ws) && pre' + AllRedirs(ws0) == pre + AllRedirs(ws) + [r]
    ensures Args(ws0 + [w]) == Args(ws + [w])
    ensures pre' + AllRedirs(ws0 + [w]) == pre + AllRedirs(ws + [w]) + [r]
  {
    ArgsSnoc(ws, w);
    ArgsSnoc(ws0, w);
    assert AllRedirs(ws) + [] == AllRedirs(ws) && AllRedirs(ws0) + [] == AllRedirs(ws0);
  }

  lemma AddAtEnd(pre: seq<Redir>, ws: seq<Word>, r: Redir) returns (pre': seq<Redir>, ws': seq<Word>)
    requires RedirsOk(pre) && WordsOk(ws) && IsRedir(r.op) && r.file.kind == 'a'
    ensures RedirsOk(pre') && WordsOk(ws') && |ws'| == |ws| && Args(ws') == Args(ws)
    ensures pre' + AllRedirs(ws') == pre + AllRedirs(ws) + [r]
    ensures SimpleToks(pre', ws') == SimpleToks(pre, ws) + [r.op, r.file]
  {
    if ws == [] {
      pre', ws' := pre + [r], [];
      RedirToksSnoc(pre, r);
    } else {
      var n := |ws| - 1;
      var w := ws[n];
      var w' := Word(w.tok, w.redirs + [r]);
      pre', ws' := pre, ws[..n] + [w'];
      assert ws == ws[..n] + [w];
      ArgsSnoc(ws[..n], w);
      ArgsSnoc(ws[..n], w');
      SimpleSnoc(pre, ws[..n], w);
      SimpleSnoc(pre, ws[..n], w');
      RedirToksSnoc(w.redirs, r);
    }
  }

  /** One more redirection, after everything but words. */
  lemma AddRedir(e: Exec, a: seq<Tok>, b: seq<Tok>, r: Redir, c: Cmd) returns (e': Exec)
    requires ExecOk(e) && ExecToks(e, []) == a + b && AllWords(b) && (a != [] ==> !IsOp(a[|a| - 1]))
             && (a != [] && a[0].kind == '(' ==> b == [])
    requires IsOp(r.op) && r.file.kind == 'a' && c.RedirCmd? && c.cmd == ExecMeans(e)
             && Opens(r.op, c.mode, c.fd) && Names(r.file, c.file)
    ensures ExecOk(e') && ExecToks(e', []) == a + [r.op, r.file] + b && ExecMeans(e') == c
  {
    assert c == RedirCmd(ExecMeans(e), SpanOf(r.file), ModeOf(r.op.kind), FdOf(r.op.kind));
    match e
    case Simple(pre, words) =>
      SimpleToksAre(pre, words);
      var pre', words' := AddToSimple(pre, words, a, b, r);
      e' := Simple(pre', words');
      SimpleToksAre(pre', words');
      RedirectedSnoc(ExecCmd(Args(words)), pre + AllRedirs(words), r);
    case Block(open, line, close, redirs) =>
      assert (a + b)[0] == open;
      assert a != [];
      e' := Block(open, line, close, redirs + [r]);
      RedirToksSnoc(redirs, r);
      RedirectedSnoc(LineMeans(line), redirs, r);
      LineToksAre(line, [close] + RedirToks(redirs, []));
      LineToksAre(line, [close] + RedirToks(redirs + [r], []));
      assert a + b == a && a + [r.op, r.file] + b == a + [r.op, r.file];
      assert a == [open] + (LineToks(line, []) + ([close] + RedirToks(redirs, [])));
      assert ExecToks(e', []) == a + [r.op, r.file];
  }

  lemma WordsTree(ts: seq<Tok>, argv: seq<Span>) returns (e: Exec)
    requires |argv| == |ts| < 10 && forall i | 0 <= i < |ts| :: Names(ts[i], argv[i])
    ensures ExecOk(e) && ExecToks(e, []) == ts && ExecMeans(e) == ExecCmd(argv)
  {
    var ws := PlainWords(ts, argv);
    e := Simple([], ws);
    assert [] + AllRedirs(ws) == [];
  }

  lemma BlockTree(ts: seq<Tok>, l: Line) returns (e: Exec)
    requires |ts| >= 2 && ts[0].kind == '(' && ts[|ts| - 1].kind == ')' && LineOk(l)
             && LineToks(l, []) == ts[1..|ts| - 1]
    ensures ExecOk(e) && ExecToks(e, []) == ts && ExecMeans(e) == LineMeans(l)
  {
    var close := ts[|ts| - 1];
    e := Block(ts[0], l, close, []);
    LineToksAre(l, [close]);
    assert [close] + RedirToks([], []) == [close];
    assert ts == [ts[0]] + (ts[1..|ts| - 1] + [close]);
  }

  lemma RedirTree(ts: seq<Tok>, c: Cmd, k: nat, e0: Exec) returns (e: Exec)
    requires c.RedirCmd? && LastRedir(ts, k) && Opens(ts[k], c.mode, c.fd) && Names(ts[k + 1], c.file)
    requires ExecOk(e0) && ExecToks(e0, []) == ts[..k] + ts[k + 2..] && ExecMeans(e0) == c.cmd
    ensures ExecOk(e) && ExecToks(e, []) == ts && ExecMeans(e) == c
  {
    var b := ts[k + 2..];
    forall i | 0 <= i < |b|
      ensures b[i].kind == 'a'
    {
      assert b[i] == ts[k + 1..][i + 1];
    }
    e := AddRedir(e0, ts[..k], b, Redir(ts[k], ts[k + 1]), c);
    assert ts == ts[..k] + [ts[k], ts[k + 1]] + b;
  }

  lemma {:induction false} ExecTree(ts: seq<Tok>, c: Cmd) returns (e: Exec)
    requires ReadsExec(ts, c)
    ensures ExecOk(e) && ExecToks(e, []) == ts && ExecMeans(e) == c
    decreases |ts|, 0
  {
    hide ExecOk, ExecToks, ExecMeans, LineOk, LineToks, LineMeans, Opens, Names;
    if c.ExecCmd? && |c.argv| == |ts| < 10 && forall i | 0 <= i < |ts| :: Names(ts[i], c.argv[i]) {
      e := WordsTree(ts, c.argv);
    } else if |ts| >= 2 && ts[0].kind == '(' && ts[|ts| - 1].kind == ')' && ReadsLine(ts[1..|ts| - 1], c) {
      var l := LineTree(ts[1..|ts| - 1], c);
      e := BlockTree(ts, l);
    } else {
      var k: nat :| LastRedir(ts, k) && Opens(ts[k], c.mode, c.fd) && Names(ts[k + 1], c.file)
        && ReadsExec(ts[..k] + ts[k + 2..], c.cmd);
      var e0 := ExecTree(ts[..k] + ts[k + 2..], c.cmd);
      e := RedirTree(ts, c, k, e0);
    }
  }

  lemma {:induction false} PipeTree(ts: seq<Tok>, c: Cmd) returns (p: Pipe)
    requires ReadsPipe(ts, c)
    ensures PipeOk(p) && PipeToks(p, []) == ts && PipeMeans(p) == c
    decreases |ts|, 1
  {
    hide ExecOk, ExecToks, ExecMeans, PipeOk, PipeToks, PipeMeans, ReadsExec;
    if ReadsExec(ts, c) {
      var e := ExecTree(ts, c);
      p := One(e);
      OneIs(e);
    } else {
      var k: nat :| k < |ts| && ts[k].kind == '|' && ReadsExec(ts[..k], c.left) && ReadsPipe(ts[k + 1..], c.right);
      var e := ExecTree(ts[..k], c.left);
      var rest := PipeTree(ts[k + 1..], c.right);
      p := Piped(e, ts[k], rest);
      PipedIs(e, ts[k], rest);
      assert ts == ts[..k] + [ts[k]] + ts[k + 1..];
    }
  }

  lemma OneIs(e: Exec)
    ensures (PipeOk(One(e)) <==> ExecOk(e)) && PipeToks(One(e), []) == ExecToks(e, [])
            && PipeMeans(One(e)) == ExecMeans(e)
  {
  }

  lemma PipedIs(e: Exec, bar: Tok, rest: Pipe)
    requires ExecOk(e) && bar.kind == '|' && PipeOk(rest)
    ensures var p := Piped(e, bar, rest);
            && PipeOk(p) && PipeToks(p, []) == ExecToks(e, []) + [bar] + PipeToks(rest, [])
            && PipeMeans(p) == PipeCmd(ExecMeans(e), PipeMeans(rest))
  {
    ExecToksAre(e, [bar] + PipeToks(rest, []));
  }

  lemma {:induction false} BackTree(ts: seq<Tok>, c: Cmd) returns (p: Pipe, amps: seq<Tok>)
    requires ReadsBack(ts, c)
    ensures PipeOk(p) && (forall i | 0 <= i < |amps| :: amps[i].kind == '&')
    ensures PipeToks(p, []) + amps == ts && Background(PipeMeans(p), |amps|) == c
    decreases |ts|, 2
  {
    if ReadsPipe(ts, c) {
      p := PipeTree(ts, c);
      amps := [];
    } else {
      var n := |ts| - 1;
      p, amps := BackTree(ts[..n], c.cmd);
      amps := amps + [ts[n]];
      BackgroundSnoc(PipeMeans(p), |amps|);
      assert ts == ts[..n] + [ts[n]];
    }
  }

  lemma {:induction false} LineTree(ts: seq<Tok>, c: Cmd) returns (l: Line)
    requires ReadsLine(ts, c)
    ensures LineOk(l) && LineToks(l, []) == ts && LineMeans(l) == c
    decreases |ts|, 3
  {
    hide LineOk, LineToks, LineMeans, PipeToks, PipeMeans, Background;
    if ReadsBack(ts, c) {
      var p, amps := BackTree(ts, c);
      l := Last(p, amps);
      LastIs(p, amps);
    } else {
      var k: nat :| k < |ts| && ts[k].kind == ';' && ReadsBack(ts[..k], c.left) && ReadsLine(ts[k + 1..], c.right);
      var p, amps := BackTree(ts[..k], c.left);
      var rest := LineTree(ts[k + 1..], c.right);
      l := Listed(p, amps, ts[k], rest);
      ListedIs(p, amps, ts[k], rest);
      assert ts == ts[..k] + [ts[k]] + ts[k + 1..];
    }
  }

  lemma LastIs(p: Pipe, amps: seq<Tok>)
    requires PipeOk(p) && forall i | 0 <= i < |amps| :: amps[i].kind == '&'
    ensures LineOk(Last(p, amps)) && LineToks(Last(p, amps), []) == PipeToks(p, []) + amps
            && LineMeans(Last(p, amps)) == Background(PipeMeans(p), |amps|)
  {
    AmpToksAre(amps, []);
    PipeToksAre(p, amps);
    assert amps + [] == amps;
  }

  lemma ListedIs(p: Pipe, amps: seq<Tok>, semi: Tok, rest: Line)
    requires PipeOk(p) && (forall i | 0 <= i < |amps| :: amps[i].kind == '&') && semi.kind == ';' && LineOk(rest)
    ensures var l := Listed(p, amps, semi, rest);
            && LineOk(l) && LineToks(l, []) == PipeToks(p, []) + amps + [semi] + LineToks(rest, [])
            && LineMeans(l) == ListCmd(Background(PipeMeans(p), |amps|), LineMeans(rest))
  {
    var more := [semi] + LineToks(rest, []);
    AmpToksAre(amps, more);
    PipeToksAre(p, amps + more);
  }

  /** The parser accepts exactly the lines that can be read, and finds the only reading. */
  lemma OneReading(ts: seq<Tok>, c: Cmd)
    ensures ReadsLine(ts, c) <==> PLine(ts).Ok? && PLine(ts).rest == [] && c == LineMeans(PLine(ts).value)
  {
    if ReadsLine(ts, c) {
      var l := LineTree(ts, c);
      AcceptsExactly(ts, l);
    }
    if PLine(ts).Ok? && PLine(ts).rest == [] {
      var l := PLine(ts).value;
      AcceptsExactly(ts, l);
      LineReads(l);
    }
  }

  // ------------------------------------------------ redirections in the text

  /** Some operator of this list, with the file right after it, opens so. */
  ghost predicate Paired(ts: seq<Tok>, file: Span, mode: nat, fd: nat) {
    exists k: nat :: k + 1 < |ts| && Opens(ts[k], mode, fd) && Names(ts[k + 1], file)
  }

  ghost predicate AllPaired(ts: seq<Tok>, c: Cmd) {
    match c
    case ExecCmd(_) => true
    case RedirCmd(d, file, mode, fd) => Paired(ts, file, mode, fd) && AllPaired(ts, d)
    case PipeCmd(left, right) => AllPaired(ts, left) && AllPaired(ts, right)
    case ListCmd(left, right) => AllPaired(ts, left) && AllPaired(ts, right)
    case BackCmd(d) => AllPaired(ts, d)
  }

  /** Every operator of us is in ts, with the same token after it. */
  ghost predicate Embeds(us: seq<Tok>, ts: seq<Tok>) {
    forall k: nat | k + 1 < |us| && IsOp(us[k]) :: Adjacent(ts, us[k], us[k + 1])
  }

  ghost predicate Adjacent(ts: seq<Tok>, x: Tok, y: Tok) {
    exists m: nat :: m + 1 < |ts| && ts[m] == x && ts[m + 1] == y
  }

  lemma {:induction false} PairedMore(us: seq<Tok>, ts: seq<Tok>, c: Cmd)
    requires AllPaired(us, c) && Embeds(us, ts)
    ensures AllPaired(ts, c)
    decreases c
  {
    match c
    case ExecCmd(_) =>
    case RedirCmd(d, file, mode, fd) =>
      PairedMore(us, ts, d);
      var k: nat :| k + 1 < |us| && Opens(us[k], mode, fd) && Names(us[k + 1], file);
      assert Adjacent(ts, us[k], us[k + 1]);
      var m: nat :| m + 1 < |ts| && ts[m] == us[k] && ts[m + 1] == us[k + 1];
    case PipeCmd(left, right) =>
      PairedMore(us, ts, left);
      PairedMore(us, ts, right);
    case ListCmd(left, right) =>
      PairedMore(us, ts, left);
      PairedMore(us, ts, right);
    case BackCmd(d) => PairedMore(us, ts, d);
  }

  lemma SliceEmbeds(ts: seq<Tok>, i: nat, j: nat)
    requires i <= j <= |ts|
    ensures Embeds(ts[i..j], ts)
  {
    forall k: nat | k + 1 < |ts[i..j]| && IsOp(ts[i..j][k])
      ensures Adjacent(ts, ts[i..j][k], ts[i..j][k + 1])
    {
      assert ts[i + k] == ts[i..j][k];
    }
  }

  lemma WithoutEmbeds(ts: seq<Tok>, k: nat)
    requires LastRedir(ts, k)
    ensures Embeds(ts[..k] + ts[k + 2..], ts)
  {
    var us := ts[..k] + ts[k + 2..];
    forall n: nat | n + 1 < |us| && IsOp(us[n])
      ensures Adjacent(ts, us[n], us[n + 1])
    {
      OpBefore(ts, k, n);
      assert us[n] == ts[n] && us[n + 1] == ts[n + 1];
    }
  }

  lemma OpBefore(ts: seq<Tok>, k: nat, n: nat)
    requires LastRedir(ts, k) && n + 1 < |ts[..k] + ts[k + 2..]|
    ensures IsOp((ts[..k] + ts[k + 2..])[n]) ==> n + 1 < k
  {
    if n >= k {
      assert (ts[..k] + ts[k + 2..])[n] == ts[k + 1..][n + 1 - k];
    }
  }

  lemma {:induction false} ExecPaired(ts: seq<Tok>, c: Cmd)
    requires ReadsExec(ts, c)
    ensures AllPaired(ts, c)
    decreases |ts|, 0
  {
    hide AllPaired, Embeds;
    if |ts| >= 2 && ts[0].kind == '(' && ts[|ts| - 1].kind == ')' && ReadsLine(ts[1..|ts| - 1], c) {
      LinePaired(ts[1..|ts| - 1], c);
      SliceEmbeds(ts, 1, |ts| - 1);
      PairedMore(ts[1..|ts| - 1], ts, c);
    } else if c.RedirCmd? {
      var k: nat :| LastRedir(ts, k) && Opens(ts[k], c.mode, c.fd) && Names(ts[k + 1], c.file)
        && ReadsExec(ts[..k] + ts[k + 2..], c.cmd);
      ExecPaired(ts[..k] + ts[k + 2..], c.cmd);
      WithoutEmbeds(ts, k);
      PairedMore(ts[..k] + ts[k + 2..], ts, c.cmd);
      PairedIs(ts, c);
    } else {
      PairedIs(ts, c);
    }
  }

  lemma PairedIs(ts: seq<Tok>, c: Cmd)
    ensures c.ExecCmd? ==> AllPaired(ts, c)
    ensures c.RedirCmd? && Paired(ts, c.file, c.mode, c.fd) && AllPaired(ts, c.cmd) ==> AllPaired(ts, c)
    ensures (c.PipeCmd? || c.ListCmd?) && AllPaired(ts, c.left) && AllPaired(ts, c.right) ==> AllPaired(ts, c)
    ensures c.BackCmd? && AllPaired(ts, c.cmd) ==> AllPaired(ts, c)
  {
  }

  lemma {:induction false} PipePaired(ts: seq<Tok>, c: Cmd)
    requires ReadsPipe(ts, c)
    ensures AllPaired(ts, c)
    decreases |ts|, 1
  {
    hide AllPaired, Embeds;
    if ReadsExec(ts, c) {
      ExecPaired(ts, c);
    } else {
      var k: nat :| k < |ts| && ts[k].kind == '|' && ReadsExec(ts[..k], c.left) && ReadsPipe(ts[k + 1..], c.right);
      ExecPaired(ts[..k], c.left);
      PipePaired(ts[k + 1..], c.right);
      BothPaired(ts, c, k);
    }
  }

  lemma BothPaired(ts: seq<Tok>, c: Cmd, k: nat)
    requires k < |ts| && (c.PipeCmd? || c.ListCmd?) && AllPaired(ts[..k], c.left) && AllPaired(ts[k + 1..], c.right)
    ensures AllPaired(ts, c)
  {
    assert ts[..k] == ts[0..k] && ts[k + 1..] == ts[k + 1..|ts|];
    SliceEmbeds(ts, 0, k);
    SliceEmbeds(ts, k + 1, |ts|);
    PairedMore(ts[..k], ts, c.left);
    PairedMore(ts[k + 1..], ts, c.right);
  }

  lemma {:induction false} BackPaired(ts: seq<Tok>, c: Cmd)
    requires ReadsBack(ts, c)
    ensures AllPaired(ts, c)
    decreases |ts|, 2
  {
    hide AllPaired, Embeds;
    if ReadsPipe(ts, c) {
      PipePaired(ts, c);
    } else {
      var n := |ts| - 1;
      BackPaired(ts[..n], c.cmd);
      assert ts[..n] == ts[0..n];
      SliceEmbeds(ts, 0, n);
      PairedMore(ts[..n], ts, c.cmd);
      PairedIs(ts, c);
    }
  }

  lemma {:induction false} LinePaired(ts: seq<Tok>, c: Cmd)
    requires ReadsLine(ts, c)
    ensures AllPaired(ts, c)
    decreases |ts|, 3
  {
    hide AllPaired, Embeds;
    if ReadsBack(ts, c) {
      BackPaired(ts, c);
    } else {
      var k: nat :| k < |ts| && ts[k].kind == ';' && ReadsBack(ts[..k], c.left) && ReadsLine(ts[k + 1..], c.right);
      BackPaired(ts[..k], c.left);
      LinePaired(ts[k + 1..], c.right);
      BothPaired(ts, c, k);
    }
  }

  /** In the text, the file stands behind an operator that opens it so, with blanks between. */
  ghost predicate Redirects(t: string, file: Span, mode: nat, fd: nat) {
    exists op: Tok :: TokenAt(t, op) && Opens(op, mode, fd) && AllBlank(t, op.hi, file.q)
  }

  ghost predicate AllRedirect(t: string, c: Cmd) {
    match c
    case ExecCmd(_) => true
    case RedirCmd(d, file, mode, fd) => Redirects(t, file, mode, fd) && AllRedirect(t, d)
    case PipeCmd(left, right) => AllRedirect(t, left) && AllRedirect(t, right)
    case ListCmd(left, right) => AllRedirect(t, left) && AllRedirect(t, right)
    case BackCmd(d) => AllRedirect(t, d)
  }

  lemma {:induction false} TokensApart(t: string, p: nat, ts: seq<Tok>, k: nat)
    requires Tokens(t, p, ts) && k + 1 < |ts|
    ensures TokenAt(t, ts[k]) && AllBlank(t, ts[k].hi, ts[k + 1].lo)
    decreases k
  {
    if k > 0 {
      TokensApart(t, ts[0].hi, ts[1..], k - 1);
    }
  }

  lemma {:induction false} RedirectsFollow(t: string, ts: seq<Tok>, c: Cmd)
    requires Tokens(t, 0, ts) && AllPaired(ts, c)
    ensures AllRedirect(t, c)
    decreases c
  {
    match c
    case ExecCmd(_) =>
    case RedirCmd(d, file, mode, fd) =>
      RedirectsFollow(t, ts, d);
      var k: nat :| k + 1 < |ts| && Opens(ts[k], mode, fd) && Names(ts[k + 1], file);
      TokensApart(t, 0, ts, k);
    case PipeCmd(left, right) =>
      RedirectsFollow(t, ts, left);
      RedirectsFollow(t, ts, right);
    case ListCmd(left, right) =>
      RedirectsFollow(t, ts, left);
      RedirectsFollow(t, ts, right);
    case BackCmd(d) => RedirectsFollow(t, ts, d);
  }

  /** All that a reading of a line's tokens says of the line. */
  lemma ReadingIs(t: string, c: Cmd)
    requires ReadsLine(Lex(t, 0), c)
    ensures Tokens(t, 0, Lex(t, 0)) && AllRedirect(t, c)
  {
    LexTokens(t, 0);
    LinePaired(Lex(t, 0), c);
    RedirectsFollow(t, Lex(t, 0), c);
  }
}

/**
 The shell's recursive-descent parser over a line buffer, and its in-place termination of the
 tokens. A panic is `None`. The argument vector that parseexec fills while redirections already
 point to it is the innermost node of the command it returns.
 */
module ShellParser {
  import opened Options
  import opened ShellGrammar
  import opened ShellMeaning

  const NUL := 0 as char

  // ----------------------------------------------------- facts about tokens

  lemma {:induction false} SkipAgain(t: string, p: nat)
    requires p <= |t|
    ensures Skip(t, Skip(t, p)) == Skip(t, p) && Lex(t, Skip(t, p)) == Lex(t, p) && (p == |t| ==> Lex(t, p) == [])
  {
  }

  /** The first character of the next token tells its kind. */
  lemma HeadChar(t: string, p: nat)
    requires p <= |t|
    ensures Lex(t, p) == [] <==> Skip(t, p) == |t|
    ensures Lex(t, p) != [] ==>
              var k := Lex(t, p)[0];
              var c := t[Skip(t, p)];
              && k == TokAt(t, Skip(t, p)) && Lex(t, p)[1..] == Lex(t, k.hi)
              && (c in "<>" <==> IsRedir(k)) && (c in "|)&;" <==> Stops(k))
              && (c in "(" <==> k.kind == '(') && (c in ")" <==> k.kind == ')') && (c in "|" <==> k.kind == '|')
              && (c in "&" <==> k.kind == '&') && (c in ";" <==> k.kind == ';')
  {
  }

  lemma {:induction false} RedirectedBoth(c: Cmd, rs: seq<Redir>, ss: seq<Redir>)
    ensures Redirected(Redirected(c, rs), ss) == Redirected(c, rs + ss)
    decreases |rs|
  {
    if rs == [] {
      assert rs + ss == ss;
    } else {
      var d := RedirCmd(c, SpanOf(rs[0].file), ModeOf(rs[0].op.kind), FdOf(rs[0].op.kind));
      RedirectedBoth(d, rs[1..], ss);
      assert (rs + ss)[1..] == rs[1..] + ss;
    }
  }

  /** The execcmd at the bottom of a chain of redirections gets one more argument. */
  function PushArg(c: Cmd, a: Span): Cmd {
    match c
    case ExecCmd(argv) => ExecCmd(argv + [a])
    case RedirCmd(d, file, mode, fd) => RedirCmd(PushArg(d, a), file, mode, fd)
    case _ => c
  }

  lemma {:induction false} PushRedirected(c: Cmd, rs: seq<Redir>, a: Span)
    ensures PushArg(Redirected(c, rs), a) == Redirected(PushArg(c, a), rs)
    decreases |rs|
  {
    if rs != [] {
      PushRedirected(RedirCmd(c, SpanOf(rs[0].file), ModeOf(rs[0].op.kind), FdOf(rs[0].op.kind)), rs[1..], a);
    }
  }

  // ------------------------------------------------------- expected outcomes

  /** What parseredirs makes of cmd, given what the tokens hold. */
  ghost function RedirsMake(c: Cmd, r: Res<seq<Redir>>): Res<Cmd> {
    if r.Fail? then Fail else Ok(Redirected(c, r.value), r.rest)
  }

  /** What parseexec's loop makes of a command with arguments a and redirections rs. */
  ghost function WordsMake(a: seq<Span>, rs: seq<Redir>, r: Res<seq<Word>>): Res<Cmd> {
    if r.Fail? then Fail else Ok(Redirected(ExecCmd(a + Args(r.value)), rs + AllRedirs(r.value)), r.rest)
  }

  /** One argument and the redirections after it. */
  lemma WordsMakeOne(a: seq<Span>, rs: seq<Redir>, ts: seq<Tok>, argc: nat, r: Res<seq<Redir>>)
    requires ts != [] && ts[0].kind == 'a' && argc + 1 < MAXARGS && r == PRedirs(ts[1..])
    ensures r.Fail? ==> WordsMake(a, rs, PWords(ts, argc)) == Fail
    ensures r.Ok? ==>
              WordsMake(a, rs, PWords(ts, argc)) ==
                  WordsMake(a + [SpanOf(ts[0])], rs + r.value, PWords(r.rest, argc + 1))
  {
    if r.Ok? {
      WordsMakeMore(a, rs, Word(ts[0], r.value), PWords(r.rest, argc + 1));
    }
  }

  lemma WordsMakeMore(a: seq<Span>, rs: seq<Redir>, w: Word, r: Res<seq<Word>>)
    ensures r.Ok? ==> WordsMake(a, rs, Ok([w] + r.value, r.rest)) == WordsMake(a + [SpanOf(w.tok)], rs + w.redirs, r)
  {
    if r.Ok? {
      var ws := r.value;
      assert ([w] + ws)[1..] == ws;
      assert a + Args([w] + ws) == (a + [SpanOf(w.tok)]) + Args(ws);
      assert rs + AllRedirs([w] + ws) == (rs + w.redirs) + AllRedirs(ws);
    }
  }

  lemma RedirsMakeOne(c: Cmd, ts: seq<Tok>)
    requires ts != [] && IsRedir(ts[0])
    ensures |ts| < 2 || ts[1].kind != 'a' ==> RedirsMake(c, PRedirs(ts)) == Fail
    ensures |ts| >= 2 && ts[1].kind == 'a' ==>
              RedirsMake(c, PRedirs(ts)) == RedirsMake(RedirCmd(c, SpanOf(ts[1]), ModeOf(ts[0].kind),
                  FdOf(ts[0].kind)), PRedirs(ts[2..]))
  {
  }

  /** The result of a parsing method agrees with the outcome on tokens, and so does what is left. */
  ghost predicate Gives(r: Option<Cmd>, want: Res<Cmd>, left: seq<Tok>) {
    if want.Fail? then r.None? else r == Some(want.value) && left == want.rest
  }

  lemma WordsMakeNone(a: seq<Span>, rs: seq<Redir>, ts: seq<Tok>, argc: nat)
    requires ts == [] || Stops(ts[0])
    ensures WordsMake(a, rs, PWords(ts, argc)) == Ok(Redirected(ExecCmd(a), rs), ts)
  {
    assert a + Args([]) == a && rs + AllRedirs([]) == rs;
  }

  datatype Turn = Next | Break | Panic

  ghost function ExecMakes(r: Res<Exec>): Res<Cmd> { if r.Fail? then Fail else Ok(ExecMeans(r.value), r.rest) }

  ghost function PipeMakes(r: Res<Pipe>): Res<Cmd> { if r.Fail? then Fail else Ok(PipeMeans(r.value), r.rest) }

  ghost function LineMakes(r: Res<Line>): Res<Cmd> { if r.Fail? then Fail else Ok(LineMeans(r.value), r.rest) }

  lemma SimpleMakes(ts: seq<Tok>)
    requires (ts == [] || ts[0].kind != '(') && PRedirs(ts).Ok?
    ensures ExecMakes(PExec(ts)) == WordsMake([], PRedirs(ts).value, PWords(PRedirs(ts).rest, 0))
  {
  }

  lemma BlockMakes(ts: seq<Tok>, l: Res<Line>)
    requires ts != [] && ts[0].kind == '(' && l == PLine(ts[1..])
    ensures ExecMakes(PExec(ts)) == if l.Fail? || l.rest == [] || l.rest[0].kind != ')' then Fail
                                    else RedirsMake(LineMeans(l.value), PRedirs(l.rest[1..]))
  {
  }

  lemma AmpsMake(c: Cmd, ts: seq<Tok>)
    requires ts != [] && ts[0].kind == '&'
    ensures PAmps(ts).rest == PAmps(ts[1..]).rest
            && Background(c, |PAmps(ts).value|) == Background(BackCmd(c), |PAmps(ts[1..]).value|)
  {
  }

  // ------------------------------------------------------------ nulterminate

  ghost function SpanSet(a: seq<Span>): set<Span> { set sp | sp in a }

  /** The tokens that a command names: arguments and files. */
  ghost function Spans(c: Cmd): set<Span> {
    match c
    case ExecCmd(argv) => SpanSet(argv)
    case RedirCmd(d, file, _, _) => Spans(d) + {file}
    case PipeCmd(left, right) => Spans(left) + Spans(right)
    case ListCmd(left, right) => Spans(left) + Spans(right)
    case BackCmd(d) => Spans(d)
  }

  ghost predicate EndsOne(spans: set<Span>, k: nat) { exists sp :: sp in spans && sp.eq == k }

  /** The text with a NUL at the end of each of these tokens and nowhere else. */
  ghost predicate Terminated(t: string, spans: set<Span>, t': string) {
    |t'| == |t| && forall k: nat {:trigger t'[k]} | k < |t| :: t'[k] == if EndsOne(spans, k) then NUL else t[k]
  }

  lemma TerminatedOne(t: string, spans: set<Span>, u: string, sp: Span, v: string)
    requires Terminated(t, spans, u) && sp.eq < |u| && v == u[sp.eq := NUL]
    ensures Terminated(t, spans + {sp}, v)
  {
  }

  lemma TerminatedBoth(t: string, a: set<Span>, u: string, b: set<Span>, v: string)
    requires Terminated(t, a, u) && Terminated(u, b, v)
    ensures Terminated(t, a + b, v)
  {
  }

  /** The characters from q to the next NUL. */
  ghost function CString(t: string, q: nat): string
    decreases |t| - q
  {
    if q >= |t| || t[q] == NUL then [] else [t[q]] + CString(t, q + 1)
  }

  /** A maximal run of word characters. */
  ghost predicate IsWord(t: string, sp: Span) {
    && sp.q < sp.eq <= |t| && (forall k | sp.q <= k < sp.eq :: !IsSpace(t[k]) && !IsSymbol(t[k]))
    && (sp.eq < |t| ==> IsSpace(t[sp.eq]) || IsSymbol(t[sp.eq]))
  }

  lemma {:induction false} LexWords(t: string, p: nat, k: Tok)
    requires p <= |t| && k in Lex(t, p) && k.kind == 'a'
    ensures IsWord(t, SpanOf(k))
    decreases |t| - p
  {
    var q := Skip(t, p);
    if k != TokAt(t, q) {
      LexWords(t, TokAt(t, q).hi, k);
    }
  }

  lemma {:induction false} CStringIs(t: string, q: nat, e: nat)
    requires q <= e < |t| && t[e] == NUL && forall k | q <= k < e :: t[k] != NUL
    ensures CString(t, q) == t[q..e]
    decreases e - q
  {
    if q < e {
      CStringIs(t, q + 1, e);
      assert t[q..e] == [t[q]] + t[q + 1..e];
    }
  }

  /** No token's end lies inside a word, so a word survives the termination of all of them. */
  lemma WordReads(t: string, spans: set<Span>, u: string, v: string, sp: Span)
    requires sp in spans && IsWord(t, sp) && (forall x | x in spans :: IsWord(t, x))
    requires |t| < |u| && t == u[..|t|] && u[|t|] == NUL && (forall k | 0 <= k < |t| :: t[k] != NUL)
             && Terminated(u, spans, v)
    ensures CString(v, sp.q) == t[sp.q..sp.eq]
  {
    forall k: nat | sp.q <= k < sp.eq
      ensures v[k] == t[k]
    {
      assert !EndsOne(spans, k);
    }
    assert EndsOne(spans, sp.eq) && v[sp.eq] == NUL;
    CStringIs(v, sp.q, sp.eq);
    assert v[sp.q..sp.eq] == t[sp.q..sp.eq];
  }

  // ----------------------------------------------- what a command's spans are

  ghost predicate WordIn(sp: Span, ts: seq<Tok>) { exists k :: k in ts && k.kind == 'a' && SpanOf(k) == sp }

  ghost predicate AllIn(spans: set<Span>, ts: seq<Tok>) { forall sp | sp in spans :: WordIn(sp, ts) }

  lemma AllInMore(spans: set<Span>, ts: seq<Tok>, us: seq<Tok>)
    requires AllIn(spans, ts) && forall k | k in ts :: k in us
    ensures AllIn(spans, us)
  {
  }

  ghost predicate Within(rest: seq<Tok>, ts: seq<Tok>) {
    forall k {:trigger k in ts} {:trigger k in rest} | k in rest :: k in ts
  }

  lemma {:induction false} WordSpans(ws: seq<Word>, rest: seq<Tok>)
    requires WordsOk(ws)
    ensures Within(rest, WordToks(ws, rest)) && AllIn(SpanSet(Args(ws)), WordToks(ws, rest))
    ensures RedirsOk(AllRedirs(ws)) && FilesIn(AllRedirs(ws), WordToks(ws, rest))
  {
    if ws != [] {
      assert WordsOk(ws[1..]);
      var more := WordToks(ws[1..], rest);
      var ts := WordToks(ws, rest);
      WordSpans(ws[1..], rest);
      RedirFiles(ws[0].redirs, more);
      assert ts == [ws[0].tok] + RedirToks(ws[0].redirs, more);
      assert Within(more, ts);
      AllInMore(SpanSet(Args(ws[1..])), more, ts);
      assert ts[0] in ts && WordIn(SpanOf(ws[0].tok), ts);
      assert SpanSet(Args(ws)) == SpanSet(Args(ws[1..])) + {SpanOf(ws[0].tok)};
    }
  }

  /** The file names of redirections are among these tokens. */
  ghost predicate FilesIn(rs: seq<Redir>, ts: seq<Tok>) { forall i | 0 <= i < |rs| :: rs[i].file in ts }

  lemma {:induction false} RedirFiles(rs: seq<Redir>, rest: seq<Tok>)
    ensures FilesIn(rs, RedirToks(rs, rest)) && Within(rest, RedirToks(rs, rest))
  {
    if rs != [] {
      RedirFiles(rs[1..], rest);
      var ts := RedirToks(rs, rest);
      assert ts == [rs[0].op, rs[0].file] + RedirToks(rs[1..], rest);
      assert ts[1] in ts;
      forall i | 0 <= i < |rs|
        ensures rs[i].file in ts
      {
        assert i > 0 ==> rs[1..][i - 1].file in RedirToks(rs[1..], rest);
      }
    }
  }

  lemma {:induction false} RedirectedSpans(c: Cmd, rs: seq<Redir>, ts: seq<Tok>)
    requires RedirsOk(rs) && FilesIn(rs, ts) && AllIn(Spans(c), ts)
    ensures AllIn(Spans(Redirected(c, rs)), ts)
    decreases |rs|
  {
    if rs != [] {
      var d := RedirCmd(c, SpanOf(rs[0].file), ModeOf(rs[0].op.kind), FdOf(rs[0].op.kind));
      assert WordIn(SpanOf(rs[0].file), ts);
      RedirectedSpans(d, rs[1..], ts);
    }
  }

  lemma {:induction false} ExecSpans(e: Exec, rest: seq<Tok>)
    requires ExecOk(e)
    ensures AllIn(Spans(ExecMeans(e)), ExecToks(e, rest)) && Within(rest, ExecToks(e, rest))
    decreases e
  {
    match e
    case Simple(pre, words) =>
      var ts, more := ExecToks(e, rest), WordToks(words, rest);
      WordSpans(words, rest);
      RedirFiles(pre, more);
      AllInMore(SpanSet(Args(words)), more, ts);
      assert FilesIn(pre + AllRedirs(words), ts);
      RedirectedSpans(ExecCmd(Args(words)), pre + AllRedirs(words), ts);
    case Block(open, line, close, redirs) =>
      var ts, after := ExecToks(e, rest), [close] + RedirToks(redirs, rest);
      RedirFiles(redirs, rest);
      LineSpans(line, after);
      assert ts == [open] + LineToks(line, after);
      assert Within(LineToks(line, after), ts) && Within(after, ts) && Within(RedirToks(redirs, rest), after);
      AllInMore(Spans(LineMeans(line)), LineToks(line, after), ts);
      RedirectedSpans(LineMeans(line), redirs, ts);
  }

  lemma {:induction false} PipeSpans(p: Pipe, rest: seq<Tok>)
    requires PipeOk(p)
    ensures AllIn(Spans(PipeMeans(p)), PipeToks(p, rest)) && Within(rest, PipeToks(p, rest))
    decreases p
  {
    match p
    case One(e) => ExecSpans(e, rest);
    case Piped(e, bar, more) =>
      var after := [bar] + PipeToks(more, rest);
      ExecSpans(e, after);
      PipeSpans(more, rest);
      assert Within(PipeToks(more, rest), after);
      AllInMore(Spans(PipeMeans(more)), PipeToks(more, rest), PipeToks(p, rest));
  }

  lemma {:induction false} AmpsWithin(amps: seq<Tok>, rest: seq<Tok>)
    ensures Within(rest, AmpToks(amps, rest))
  {
    if amps != [] {
      AmpsWithin(amps[1..], rest);
      assert AmpToks(amps, rest) == [amps[0]] + AmpToks(amps[1..], rest);
    }
  }

  lemma {:induction false} BackgroundSpans(c: Cmd, n: nat)
    ensures Spans(Background(c, n)) == Spans(c)
    decreases n
  {
    if n > 0 {
      BackgroundSpans(BackCmd(c), n - 1);
    }
  }

  /** What a line names are words among its tokens. */
  lemma {:induction false} LineSpans(l: Line, rest: seq<Tok>)
    requires LineOk(l)
    ensures AllIn(Spans(LineMeans(l)), LineToks(l, rest)) && Within(rest, LineToks(l, rest))
    decreases l
  {
    var next := if l.Last? then rest else [l.semi] + LineToks(l.rest, rest);
    AmpsWithin(l.amps, next);
    PipeSpans(l.pipe, AmpToks(l.amps, next));
    BackgroundSpans(PipeMeans(l.pipe), |l.amps|);
    if l.Listed? {
      LineSpans(l.rest, rest);
      assert Within(LineToks(l.rest, rest), next);
      AllInMore(Spans(LineMeans(l.rest)), LineToks(l.rest, rest), LineToks(l, rest));
    }
  }

  lemma NamesWords(t: string, l: Line)
    requires LineOk(l) && LineToks(l, []) == Lex(t, 0)
    ensures forall sp | sp in Spans(LineMeans(l)) :: IsWord(t, sp)
  {
    LineSpans(l, []);
    forall sp | sp in Spans(LineMeans(l))
      ensures IsWord(t, sp)
    {
      assert WordIn(sp, Lex(t, 0));
      var k :| k in Lex(t, 0) && k.kind == 'a' && SpanOf(k) == sp;
      LexWords(t, 0, k);
    }
  }

  lemma Rejected(ts: seq<Tok>)
    requires PLine(ts).Fail? || PLine(ts).rest != []
    ensures !exists l :: LineOk(l) && LineToks(l, []) == ts
  {
    if l :| LineOk(l) && LineToks(l, []) == ts {
      AcceptsExactly(ts, l);
    }
  }

  lemma Accepted(ts: seq<Tok>)
    requires PLine(ts).Ok? && PLine(ts).rest == []
    ensures LineOk(PLine(ts).value) && LineToks(PLine(ts).value, []) == ts
  {
    LineSound(ts);
  }

  /** The commands that a line may be read as. */
  lemma ReadAsParsed(t: string)
    ensures var l := PLine(Lex(t, 0));
            && (forall ts, c :: Tokens(t, 0, ts) && ReadsLine(ts, c) ==>
                  l.Ok? && l.rest == [] && c == LineMeans(l.value) && AllRedirect(t, c))
            && (l.Ok? && l.rest == [] ==>
                  Tokens(t, 0, Lex(t, 0)) && ReadsLine(Lex(t, 0), LineMeans(l.value)))
  {
    var l := PLine(Lex(t, 0));
    forall ts, c | Tokens(t, 0, ts) && ReadsLine(ts, c)
      ensures l.Ok? && l.rest == [] && c == LineMeans(l.value) && AllRedirect(t, c)
    {
      OneTokenization(t, 0, ts);
      OneReading(ts, c);
      ReadingIs(t, c);
    }
    LexTokens(t, 0);
    if l.Ok? && l.rest == [] {
      OneReading(Lex(t, 0), LineMeans(l.value));
    }
  }

  class Parser {
    const buf: array<char>
    const es: nat
    var s: nat

    ghost predicate Valid()
      reads this, buf
    {
      s <= es < buf.Length && buf[es] == NUL && forall k | 0 <= k < es :: buf[k] != NUL
    }

    ghost function Text(): string
      reads this, buf
      requires es < buf.Length
    {
      buf[..es]
    }

    /** The tokens that the cursor has not passed. */
    ghost function Left(): seq<Tok>
      reads this, buf
      requires s <= es < buf.Length
    {
      Lex(Text(), s)
    }

    /** Where the whitespace at p ends. */
    method SkipSpace(p: nat) returns (q: nat)
      requires p <= es < buf.Length
      ensures q == Skip(Text(), p)
    {
      q := p;
      while q < es && IsSpace(buf[q])
        invariant p <= q <= es && Skip(Text(), p) == Skip(Text(), q)
      {
        q := q + 1;
      }
    }

    method SkipWord(p: nat) returns (q: nat)
      requires p <= es < buf.Length
      ensures q == WordEnd(Text(), p)
    {
      q := p;
      while q < es && !IsSpace(buf[q]) && !IsSymbol(buf[q])
        invariant p <= q <= es && WordEnd(Text(), p) == WordEnd(Text(), q)
      {
        q := q + 1;
      }
    }

    /** gettoken: the next token, or NUL at the end of the line. */
    method GetToken() returns (ret: char, q: nat, eq: nat)
      requires Valid()
      modifies this`s
      ensures Valid()
      ensures old(Left()) == [] ==> ret == NUL && Left() == [] && q == eq == es
      ensures old(Left()) != [] ==> Tok(ret, q, eq) == old(Left())[0] && Left() == old(Left())[1..]
    {
      hide Lex;
      HeadChar(Text(), s);
      q := SkipSpace(s);
      eq := q;
      ret := buf[q];
      if ret == NUL {
      } else if ret == '|' || ret == '(' || ret == ')' || ret == ';' || ret == '&' || ret == '<' {
        eq := eq + 1;
      } else if ret == '>' {
        eq := eq + 1;
        if buf[eq] == '>' {
          ret := '+';
          eq := eq + 1;
        }
      } else {
        ret := 'a';
        eq := SkipWord(q);
      }
      var p := SkipSpace(eq);
      SkipAgain(Text(), eq);
      s := p;
    }

    /** peek: whether the next token starts with one of these characters. */
    method Peek(toks: string) returns (b: bool)
      requires Valid()
      modifies this`s
      ensures Valid() && Left() == old(Left()) && s == Skip(Text(), old(s))
      ensures b <==> old(Left()) != [] && Text()[s] in toks
    {
      HeadChar(Text(), s);
      SkipAgain(Text(), s);
      s := SkipSpace(s);
      b := buf[s] != NUL && buf[s] in toks;
    }

    /** parseredirs. */
    method ParseRedirs(c: Cmd) returns (r: Option<Cmd>)
      requires Valid()
      modifies this`s
      ensures Valid() && Gives(r, RedirsMake(c, PRedirs(old(Left()))), Left())
    {
      var cmd := c;
      HeadChar(Text(), s);
      var more := Peek("<>");
      while more
        invariant Valid() && RedirsMake(cmd, PRedirs(Left())) == RedirsMake(c, PRedirs(old(Left())))
        invariant more <==> Left() != [] && IsRedir(Left()[0])
        decreases |Left()|
      {
        ghost var ts := Left();
        var tok, _, _ := GetToken();
        var ret, q, eq := GetToken();
        if ret != 'a' {
          return None;
        }
        RedirsMakeOne(cmd, ts);
        cmd := RedirCmd(cmd, Span(q, eq), ModeOf(tok), FdOf(tok));
        HeadChar(Text(), s);
        more := Peek("<>");
      }
      r := Some(cmd);
    }

    /** One turn of parseexec's loop: an argument and the redirections after it. */
    method ParseArg(ret: Cmd, argc: nat, ghost a: seq<Span>, ghost rs: seq<Redir>)
      returns (turn: Turn, ret': Cmd, ghost a': seq<Span>, ghost rs': seq<Redir>)
      requires Valid() && ret == Redirected(ExecCmd(a), rs) && argc == |a| && (Left() != [] ==> !Stops(Left()[0]))
      modifies this`s
      ensures Valid()
      ensures turn.Break? ==> old(Left()) == [] && Left() == [] && ret' == ret
      ensures turn.Panic? ==> WordsMake(a, rs, PWords(old(Left()), argc)) == Fail
      ensures turn.Next? ==>
                && ret' == Redirected(ExecCmd(a'), rs') && |a'| == argc + 1 && |Left()| < |old(Left())|
                && WordsMake(a', rs', PWords(Left(), argc + 1)) == WordsMake(a, rs, PWords(old(Left()), argc))
    {
      ghost var ts := Left();
      ret', a', rs' := ret, a, rs;
      var tok, q, eq := GetToken();
      if tok == NUL {
        return Break, ret', a', rs';
      }
      if tok != 'a' || argc + 1 >= MAXARGS {
        return Panic, ret', a', rs';
      }
      WordsMakeOne(a, rs, ts, argc, PRedirs(ts[1..]));
      PushRedirected(ExecCmd(a), rs, Span(q, eq));
      a' := a + [Span(q, eq)];
      var sub := ParseRedirs(PushArg(ret, Span(q, eq)));
      if sub.None? {
        return Panic, ret', a', rs';
      }
      ret' := sub.value;
      RedirectedBoth(ExecCmd(a'), rs, PRedirs(ts[1..]).value);
      rs' := rs + PRedirs(ts[1..]).value;
      turn := Next;
    }

    /** parseexec's loop over arguments and redirections. */
    method ParseArgs(c: Cmd, ghost rs: seq<Redir>) returns (r: Option<Cmd>)
      requires Valid() && c == Redirected(ExecCmd([]), rs)
      modifies this`s
      ensures Valid() && Gives(r, WordsMake([], rs, PWords(old(Left()), 0)), Left())
    {
      var ret, argc := c, 0;
      ghost var a: seq<Span>, redirs := [], rs;
      HeadChar(Text(), s);
      var stop := Peek("|)&;");
      while !stop
        invariant Valid() && ret == Redirected(ExecCmd(a), redirs) && argc == |a|
        invariant WordsMake(a, redirs, PWords(Left(), argc)) == WordsMake([], rs, PWords(old(Left()), 0))
        invariant stop <==> Left() != [] && Stops(Left()[0])
        decreases |Left()|
      {
        var turn, ret', a', rs' := ParseArg(ret, argc, a, redirs);
        if turn.Break? {
          break;
        } else if turn.Panic? {
          return None;
        }
        ret, argc, a, redirs := ret', argc + 1, a', rs';
        HeadChar(Text(), s);
        stop := Peek("|)&;");
      }
      WordsMakeNone(a, redirs, Left(), argc);
      r := Some(ret);
    }

    /** parseblock: the next token is '('. */
    method ParseBlock() returns (r: Option<Cmd>)
      requires Valid() && Left() != [] && Left()[0].kind == '('
      modifies this`s
      ensures Valid() && Gives(r, ExecMakes(PExec(old(Left()))), Left())
      decreases |Left()|, 0
    {
      ghost var ts := Left();
      BlockMakes(ts, PLine(ts[1..]));
      var _, _, _ := GetToken();
      var line := ParseLine();
      if line.None? {
        return None;
      }
      HeadChar(Text(), s);
      var close := Peek(")");
      if !close {
        return None;
      }
      var _, _, _ := GetToken();
      r := ParseRedirs(line.value);
    }

    /** parseexec. */
    method ParseExec() returns (r: Option<Cmd>)
      requires Valid()
      modifies this`s
      ensures Valid() && Gives(r, ExecMakes(PExec(old(Left()))), Left())
      decreases |Left()|, 1
    {
      HeadChar(Text(), s);
      var open := Peek("(");
      if open {
        r := ParseBlock();
        return;
      }
      ghost var ts := Left();
      var c := ParseRedirs(ExecCmd([]));
      if c.None? {
        return None;
      }
      r := ParseArgs(c.value, PRedirs(ts).value);
      SimpleMakes(ts);
    }

    /** parsepipe. */
    method ParsePipe() returns (r: Option<Cmd>)
      requires Valid()
      modifies this`s
      ensures Valid() && Gives(r, PipeMakes(PPipe(old(Left()))), Left())
      decreases |Left()|, 2
    {
      r := ParseExec();
      if r.None? {
        return;
      }
      HeadChar(Text(), s);
      var bar := Peek("|");
      if bar {
        var _, _, _ := GetToken();
        var right := ParsePipe();
        if right.None? {
          return None;
        }
        r := Some(PipeCmd(r.value, right.value));
      }
    }

    /** parseline's loop over '&'. */
    method ParseAmps(c: Cmd) returns (cmd: Cmd)
      requires Valid()
      modifies this`s
      ensures Valid() && cmd == Background(c, |PAmps(old(Left())).value|) && Left() == PAmps(old(Left())).rest
    {
      cmd := c;
      HeadChar(Text(), s);
      var amp := Peek("&");
      while amp
        invariant Valid() && (amp <==> Left() != [] && Left()[0].kind == '&')
                  && PAmps(Left()).rest == PAmps(old(Left())).rest
        invariant Background(cmd, |PAmps(Left()).value|) == Background(c, |PAmps(old(Left())).value|)
        decreases |Left()|
      {
        AmpsMake(cmd, Left());
        var _, _, _ := GetToken();
        cmd := BackCmd(cmd);
        HeadChar(Text(), s);
        amp := Peek("&");
      }
    }

    /** parseline. */
    method ParseLine() returns (r: Option<Cmd>)
      requires Valid()
      modifies this`s
      ensures Valid() && Gives(r, LineMakes(PLine(old(Left()))), Left())
      decreases |Left()|, 3
    {
      r := ParsePipe();
      if r.None? {
        return;
      }
      var cmd := ParseAmps(r.value);
      HeadChar(Text(), s);
      var semi := Peek(";");
      if semi {
        var _, _, _ := GetToken();
        var rest := ParseLine();
        if rest.None? {
          return None;
        }
        cmd := ListCmd(cmd, rest.value);
      }
      r := Some(cmd);
    }

    // ------------------------------------------------------------ nulterminate

    /** nulterminate writes a NUL at the end of every token that the command names. */
    method Nulterminate(c: Cmd)
      requires forall sp | sp in Spans(c) :: sp.eq < buf.Length
      modifies buf
      ensures Terminated(old(buf[..]), Spans(c), buf[..])
      decreases c
    {
      match c
      case ExecCmd(argv) =>
        var i := 0;
        while i < |argv|
          invariant 0 <= i <= |argv| && Terminated(old(buf[..]), SpanSet(argv[..i]), buf[..])
        {
          ghost var before := buf[..];
          buf[argv[i].eq] := NUL;
          TerminatedOne(old(buf[..]), SpanSet(argv[..i]), before, argv[i], buf[..]);
          assert argv[..i + 1] == argv[..i] + [argv[i]];
          i := i + 1;
        }
        assert argv[..i] == argv;
      case RedirCmd(d, file, _, _) =>
        Nulterminate(d);
        ghost var before := buf[..];
        buf[file.eq] := NUL;
        TerminatedOne(old(buf[..]), Spans(d), before, file, buf[..]);
      case PipeCmd(left, right) =>
        Nulterminate(left);
        ghost var before := buf[..];
        Nulterminate(right);
        TerminatedBoth(old(buf[..]), Spans(left), before, Spans(right), buf[..]);
      case ListCmd(left, right) =>
        Nulterminate(left);
        ghost var before := buf[..];
        Nulterminate(right);
        TerminatedBoth(old(buf[..]), Spans(left), before, Spans(right), buf[..]);
      case BackCmd(d) =>
        Nulterminate(d);
    }

    // ---------------------------------------------------------------- parsecmd

    /** A parser for the string in the buffer: es is its end, as strlen finds it. */
    constructor (buf: array<char>)
      requires exists k: nat :: k < buf.Length && buf[k] == NUL
      ensures Valid() && s == 0 && this.buf == buf
    {
      var n := 0;
      while buf[n] != NUL
        invariant n < buf.Length && forall k | 0 <= k < n :: buf[k] != NUL
        invariant exists k: nat :: n <= k < buf.Length && buf[k] == NUL
        decreases buf.Length - n
      {
        n := n + 1;
      }
      this.buf, es, s := buf, n, 0;
    }

    /** parsecmd: it succeeds exactly on the sentences of the grammar, and then returns what the
        sentence denotes; and although the line has been overwritten in place, every argument
        and file name reads as the token that was scanned. */
    method ParseCmd() returns (r: Option<Cmd>)
      requires Valid() && s == 0
      modifies this`s, buf
      ensures r.Some? <==> exists l :: LineOk(l) && LineToks(l, []) == Lex(old(Text()), 0)
      ensures r.Some? ==> exists l :: LineOk(l) && LineToks(l, []) == Lex(old(Text()), 0) && r.value == LineMeans(l)
      ensures r.Some? ==> forall sp | sp in Spans(r.value) ::
                            sp.q < sp.eq <= es && CString(buf[..], sp.q) == old(Text())[sp.q..sp.eq]
                                && IsWord(old(Text()), sp)
      ensures r.Some? <==> exists ts, c :: Tokens(old(Text()), 0, ts) && ReadsLine(ts, c)
      ensures r.Some? ==> forall ts, c :: Tokens(old(Text()), 0, ts) && ReadsLine(ts, c) ==> c == r.value
      ensures r.Some? ==> AllRedirect(old(Text()), r.value)
    {
      hide ReadsLine, Tokens, LineMeans, LineToks, LineOk, PLine;
      ghost var t, ts := Text(), Left();
      ReadAsParsed(t);
      r := ParseLine();
      if r.None? {
        Rejected(ts);
        return;
      }
      HeadChar(t, s);
      var _ := Peek("");
      if s != es {
        Rejected(ts);
        return None;
      }
      Accepted(ts);
      ghost var l := PLine(ts).value;
      assert Tokens(t, 0, ts) && ReadsLine(ts, r.value);
      NamesWords(t, l);
      Nulterminate(r.value);
      forall sp | sp in Spans(r.value)
        ensures CString(buf[..], sp.q) == t[sp.q..sp.eq]
      {
        WordReads(t, Spans(r.value), old(buf[..]), buf[..], sp);
      }
    }
  }
}

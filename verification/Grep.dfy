/**
 The regular expression matcher of grep, and its line reader, which edits one
 1024-byte buffer in place.
 */
module Grep {

  // ----------------------------------------------------- meaning of patterns

  /** One element of a pattern; '.' stands for any character. */
  datatype Item = One(c: char) | Star(c: char) | End

  /** How a pattern is read: a star binds to the character before it, even to '$', and
      '$' is an anchor only at the very end. */
  function Parse(re: string): seq<Item> {
    if re == [] then []
    else if |re| > 1 && re[1] == '*' then [Star(re[0])] + Parse(re[2..])
    else if re == "$" then [End]
    else [One(re[0])] + Parse(re[1..])
  }

  predicate Fits(c: char, d: char) { c == '.' || c == d }

  /** The item may stand for exactly text[p..q]. */
  ghost predicate Covers(item: Item, text: string, p: nat, q: nat) {
    && p <= q <= |text|
    && match item
       case One(c) => q == p + 1 && Fits(c, text[p])
       case Star(c) => forall i | p <= i < q :: Fits(c, text[i])
       case End => q == p == |text|
  }

  /** The text from p on can be cut into consecutive pieces, one for each item; what is
      left after the last piece does not matter. */
  ghost predicate Accepts(items: seq<Item>, text: string, p: nat) {
    exists cuts: seq<nat> :: IsCut(items, text, p, cuts)
  }

  ghost predicate IsCut(items: seq<Item>, text: string, p: nat, cuts: seq<nat>) {
    && |cuts| == |items| + 1
    && cuts[0] == p <= |text|
    && forall i | 0 <= i < |items| :: Covers(items[i], text, cuts[i], cuts[i + 1])
  }

  /** A leading '^' ties the match to the start of the text. */
  ghost predicate Means(re: string, text: string) {
    if re != [] && re[0] == '^' then Accepts(Parse(re[1..]), text, 0)
    else exists p: nat :: p <= |text| && Accepts(Parse(re), text, p)
  }

  lemma AcceptsNone(text: string, p: nat)
    requires p <= |text|
    ensures Accepts([], text, p)
  {
    assert IsCut([], text, p, [p]);
  }

  lemma AcceptsCons(item: Item, rest: seq<Item>, text: string, p: nat, q: nat)
    requires Covers(item, text, p, q) && Accepts(rest, text, q)
    ensures Accepts([item] + rest, text, p)
  {
    var cuts: seq<nat> :| IsCut(rest, text, q, cuts);
    assert IsCut([item] + rest, text, p, [p] + cuts);
  }

  lemma AcceptsSplit(item: Item, rest: seq<Item>, text: string, p: nat) returns (q: nat)
    requires Accepts([item] + rest, text, p)
    ensures Covers(item, text, p, q) && Accepts(rest, text, q)
  {
    var cuts: seq<nat> :| IsCut([item] + rest, text, p, cuts);
    q := cuts[1];
    assert Covers(([item] + rest)[0], text, p, q);
    forall i | 0 <= i < |rest|
      ensures Covers(rest[i], text, cuts[1..][i], cuts[1..][i + 1])
    {
      assert rest[i] == ([item] + rest)[i + 1];
    }
    assert IsCut(rest, text, q, cuts[1..]);
  }

  /** w stands at p in the text, where '.' stands for any character. */
  ghost predicate StandsAt(w: string, text: string, p: nat) {
    p + |w| <= |text| && forall i | 0 <= i < |w| :: w[i] == '.' || w[i] == text[p + i]
  }

  lemma {:induction false} StarFreeHere(w: string, dollar: bool, text: string, p: nat)
    requires p <= |text| && '*' !in w && (dollar || w == [] || w[|w| - 1] != '$')
    ensures Accepts(Parse(w + if dollar then "$" else ""), text, p) <==>
              StandsAt(w, text, p) && (dollar ==> p + |w| == |text|)
    decreases |w|
  {
    var e := if dollar then "$" else "";
    if w == [] {
      assert w + e == e;
      AcceptsNone(text, p);
      if dollar {
        assert Parse(e) == [End] + [];
        if p == |text| {
          AcceptsCons(End, [], text, p, p);
        }
        if Accepts([End] + [], text, p) {
          var q := AcceptsSplit(End, [], text, p);
        }
      }
    } else {
      assert (w + e)[1..] == w[1..] + e;
      assert Parse(w + e) == [One(w[0])] + Parse(w[1..] + e);
      if p < |text| {
        StarFreeHere(w[1..], dollar, text, p + 1);
        assert StandsAt(w, text, p) <==> (w[0] == '.' || w[0] == text[p]) && StandsAt(w[1..], text, p + 1);
        if (w[0] == '.' || w[0] == text[p]) && Accepts(Parse(w[1..] + e), text, p + 1) {
          AcceptsCons(One(w[0]), Parse(w[1..] + e), text, p, p + 1);
        }
      }
      if Accepts([One(w[0])] + Parse(w[1..] + e), text, p) {
        var q := AcceptsSplit(One(w[0]), Parse(w[1..] + e), text, p);
      }
    }
  }

  /** A pattern without stars means that its characters stand in the text, at the start under '^',
      at the end under '$', and anywhere under neither. */
  lemma StarFreeMeans(caret: bool, w: string, dollar: bool, text: string)
    requires '*' !in w && (dollar || w == [] || w[|w| - 1] != '$') && (caret || w == [] || w[0] != '^')
    ensures Means((if caret then "^" else "") + w + (if dollar then "$" else ""), text) <==>
              exists p: nat :: StandsAt(w, text, p) && (caret ==> p == 0) && (dollar ==> p + |w| == |text|)
  {
    var e := if dollar then "$" else "";
    var re := (if caret then "^" else "") + w + e;
    if caret {
      assert re[1..] == w + e;
      StarFreeHere(w, dollar, text, 0);
    } else {
      assert re == w + e;
      forall p: nat | p <= |text|
        ensures Accepts(Parse(re), text, p) <==> StandsAt(w, text, p) && (dollar ==> p + |w| == |text|)
      {
        StarFreeHere(w, dollar, text, p);
      }
    }
  }

  ghost predicate RunOf(c: char, text: string, p: nat, q: nat) {
    p <= q <= |text| && forall i | p <= i < q :: c == '.' || text[i] == c
  }

  /** c* stands for any run of c, or of anything if c is '.', also for none. */
  lemma StarMeans(c: char, re: string, text: string, p: nat)
    requires p <= |text|
    ensures Accepts(Parse([c, '*'] + re), text, p) <==>
              exists q: nat :: RunOf(c, text, p, q) && Accepts(Parse(re), text, q)
  {
    assert ([c, '*'] + re)[2..] == re;
    assert Parse([c, '*'] + re) == [Star(c)] + Parse(re);
    if Accepts([Star(c)] + Parse(re), text, p) {
      var q := AcceptsSplit(Star(c), Parse(re), text, p);
      assert RunOf(c, text, p, q);
    }
    if q: nat :| RunOf(c, text, p, q) && Accepts(Parse(re), text, q) {
      AcceptsCons(Star(c), Parse(re), text, p, q);
    }
  }

  // ------------------------------------------------------------ the matcher

  /** matchhere: the pattern at the beginning of the text. */
  method MatchHere(re: string, text: string, p: nat) returns (r: bool)
    requires p <= |text|
    ensures r <==> Accepts(Parse(re), text, p)
    decreases |re|, 0
  {
    if re == [] {
      AcceptsNone(text, p);
      return true;
    }
    if |re| > 1 && re[1] == '*' {
      r := MatchStar(re[0], re[2..], text, p);
      return;
    }
    if re == "$" {
      r := p == |text|;
      if r {
        AcceptsNone(text, p);
        AcceptsCons(End, [], text, p, p);
      } else if Accepts([End] + [], text, p) {
        var q := AcceptsSplit(End, [], text, p);
      }
      assert [End] + [] == Parse(re);
      return;
    }
    r := false;
    if p < |text| && (re[0] == '.' || re[0] == text[p]) {
      r := MatchHere(re[1..], text, p + 1);
      if r {
        AcceptsCons(One(re[0]), Parse(re[1..]), text, p, p + 1);
      }
    }
    if Accepts(Parse(re), text, p) {
      var q := AcceptsSplit(One(re[0]), Parse(re[1..]), text, p);
    }
  }

  /** matchstar: c* followed by the pattern, at the beginning of the text. */
  method MatchStar(c: char, re: string, text: string, p: nat) returns (r: bool)
    requires p <= |text|
    ensures r <==> Accepts([Star(c)] + Parse(re), text, p)
    decreases |re|, 1
  {
    var t := p;
    while true
      invariant p <= t <= |text|
      invariant forall i | p <= i < t :: Fits(c, text[i])
      invariant forall q | p <= q < t :: !Accepts(Parse(re), text, q)
      decreases |text| - t
    {
      var here := MatchHere(re, text, t);
      if here {
        AcceptsCons(Star(c), Parse(re), text, p, t);
        return true;
      }
      if !(t < |text| && (text[t] == c || c == '.')) {
        break;
      }
      t := t + 1;
    }
    r := false;
    if Accepts([Star(c)] + Parse(re), text, p) {
      var q := AcceptsSplit(Star(c), Parse(re), text, p);
    }
  }

  /** match: 1 exactly when the text has the meaning of the pattern. */
  method Match(re: string, text: string) returns (r: bool)
    ensures r <==> Means(re, text)
  {
    if re != [] && re[0] == '^' {
      r := MatchHere(re[1..], text, 0);
      return;
    }
    var t := 0;
    while true
      invariant 0 <= t <= |text|
      invariant forall p | 0 <= p < t :: !Accepts(Parse(re), text, p)
      decreases |text| - t
    {
      var here := MatchHere(re, text, t);
      if here {
        return true;
      }
      if t == |text| {
        break;
      }
      t := t + 1;
    }
    r := false;
  }

  // --------------------------------------------------------- what is printed

  const BUFSIZE: nat := 1024

  /** The first newline or NUL at or after p, or the length. */
  function Stop(s: string, p: nat): (k: nat)
    requires p <= |s|
    ensures p <= k <= |s|
    ensures forall i | p <= i < k :: s[i] != '\n' && s[i] != '\0'
    ensures k < |s| ==> s[k] == '\n' || s[k] == '\0'
    decreases |s| - p
  {
    if p == |s| || s[p] == '\n' || s[p] == '\0' then p else Stop(s, p + 1)
  }

  /** The line at the start of the input ends in a newline, holds no NUL and fits the buffer. */
  predicate GoodLine(input: string) {
    var k := Stop(input, 0);
    k < |input| && input[k] == '\n' && k + 1 < BUFSIZE
  }

  ghost function Printed(re: string, line: string): string {
    if Means(re, line) then line + "\n" else ""
  }

  /** What grep prints: the matching lines in order, up to the first line that has no
      newline, holds a NUL or does not fit the buffer. */
  ghost function Output(re: string, input: string): string
    decreases |input|
  {
    if !GoodLine(input) then ""
    else
      var k := Stop(input, 0);
      Printed(re, input[..k]) + Output(re, input[k + 1..])
  }

  /** Every newline-terminated line of the input, without the newlines. */
  function Lines(input: string): seq<string>
    decreases |input|
  {
    var k := NewLine(input);
    if k == |input| then [] else [input[..k]] + Lines(input[k + 1..])
  }

  function NewLine(s: string): (k: nat)
    ensures k <= |s|
    ensures forall i | 0 <= i < k :: s[i] != '\n'
    ensures k < |s| ==> s[k] == '\n'
  {
    if s == [] || s[0] == '\n' then 0 else 1 + NewLine(s[1..])
  }

  ghost function Select(re: string, lines: seq<string>): string {
    if lines == [] then "" else Printed(re, lines[0]) + Select(re, lines[1..])
  }

  /** A line that grep can handle: it fits the buffer with its newline, and holds no NUL. */
  predicate Good(line: string) { |line| + 1 < BUFSIZE && '\0' !in line }

  /** How many lines come before the first one that is not good. */
  function GoodPrefix(lines: seq<string>): (k: nat)
    ensures k <= |lines|
    ensures forall i | 0 <= i < k :: Good(lines[i])
    ensures k < |lines| ==> !Good(lines[k])
  {
    if lines == [] || !Good(lines[0]) then 0 else 1 + GoodPrefix(lines[1..])
  }

  /** The first line is the one that grep sees exactly when it is good. */
  lemma FirstLine(input: string)
    ensures GoodLine(input) <==> Lines(input) != [] && Good(Lines(input)[0])
    ensures GoodLine(input) ==> Stop(input, 0) == NewLine(input)
  {
    var n, k := NewLine(input), Stop(input, 0);
    assert k <= n;
    if n < |input| {
      assert Lines(input)[0] == input[..n];
      assert k < n ==> input[..n][k] == '\0';
    }
  }

  /** What is printed of the first k lines, and of the rest. */
  lemma SelectParts(re: string, lines: seq<string>, k: nat)
    requires k <= |lines|
    ensures Select(re, lines) == Select(re, lines[..k]) + Select(re, lines[k..])
  {
    assert lines[..k] + lines[k..] == lines;
    SelectAppend(re, lines[..k], lines[k..]);
  }

  lemma SelectFirst(re: string, lines: seq<string>, k: nat)
    requires 0 < k <= |lines|
    ensures Select(re, lines[..k]) == Printed(re, lines[0]) + Select(re, lines[1..][..k - 1])
  {
    assert lines[..k][1..] == lines[1..][..k - 1];
  }

  /** The output is that of the lines before the first one that is not good. */
  lemma {:induction false} OutputIsSelection(re: string, input: string)
    ensures Output(re, input) == Select(re, Lines(input)[..GoodPrefix(Lines(input))])
    decreases |input|
  {
    hide Stop, NewLine, Good, GoodLine, Printed;
    FirstLine(input);
    if GoodLine(input) {
      OutputIsSelection(re, input[NewLine(input) + 1..]);
      SelectFirst(re, Lines(input), GoodPrefix(Lines(input)));
    }
  }

  /** For one pattern, grep prints exactly the matching newline-terminated lines if and only if
      no matching line stands at or after the first line that is not good. */
  lemma SelectionIff(re: string, input: string)
    ensures var lines := Lines(input);
            Output(re, input) == Select(re, lines) <==> Select(re, lines[GoodPrefix(lines)..]) == ""
  {
    OutputIsSelection(re, input);
    SelectParts(re, Lines(input), GoodPrefix(Lines(input)));
  }

  /** grep prints exactly the matching lines, whatever the pattern, if and only if every line is
      good. */
  lemma ExactSelection(input: string)
    ensures (forall re :: Output(re, input) == Select(re, Lines(input))) <==>
              forall i | 0 <= i < |Lines(input)| :: Good(Lines(input)[i])
  {
    var lines := Lines(input);
    var good := GoodPrefix(lines);
    forall re
      ensures good == |lines| ==> Output(re, input) == Select(re, lines)
    {
      SelectionIff(re, input);
    }
    if good < |lines| {
      SelectionIff("", input);
      EmptyMatches(lines[good]);
      assert !Good(lines[good]);
    }
  }

  /** The empty pattern matches every line. */
  lemma EmptyMatches(line: string)
    ensures Means("", line)
  {
    AcceptsNone(line, 0);
    assert Parse("") == [];
    assert Accepts(Parse(""), line, 0);
  }

  /** A line of 1023 characters is lost, and so is a line that holds a NUL. */
  lemma GrepCanMiss(line: string)
    requires line == seq(1023, _ => 'a') || line == "a\0b"
    ensures Lines(line + "\n") == [line] && Output("", line + "\n") == ""
            && Select("", Lines(line + "\n")) == line + "\n"
  {
    var input := line + "\n";
    assert '\n' !in line;
    assert NewLine(input) == |line| by {
      assert input[|line|] == '\n';
    }
    assert input[..|line|] == line && input[|line| + 1..] == "";
    assert line == "a\0b" ==> line[1] == '\0';
    EmptyMatches(line);
    OutputIsSelection("", input);
  }

  lemma {:induction false} SelectAppend(re: string, a: seq<string>, b: seq<string>)
    ensures Select(re, a + b) == Select(re, a) + Select(re, b)
  {
    if a == [] {
      assert a + b == b;
    } else {
      assert (a + b)[1..] == a[1..] + b;
      SelectAppend(re, a[1..], b);
    }
  }

  lemma StopShift(s: string, p: nat, rest: string)
    requires p <= |s| && Stop(s, p) < |s|
    ensures Stop(s[p..] + rest, 0) == Stop(s, p) - p
  {
    var t, k := s[p..] + rest, Stop(s, p) - p;
    assert t[k] == s[Stop(s, p)];
    assert forall i | 0 <= i < k :: t[i] == s[p + i];
  }

  /** The output of the input, appended to what has been printed before. */
  ghost function Continue(re: string, out: string, input: string): string
    decreases |input|
  {
    if !GoodLine(input) then out
    else
      var k := Stop(input, 0);
      Continue(re, out + Printed(re, input[..k]), input[k + 1..])
  }

  lemma {:induction false} ContinueIsOutput(re: string, out: string, input: string)
    ensures Continue(re, out, input) == out + Output(re, input)
    decreases |input|
  {
    hide Stop, Printed;
    if GoodLine(input) {
      var k := Stop(input, 0);
      var line, more := Printed(re, input[..k]), Output(re, input[k + 1..]);
      ContinueIsOutput(re, out + line, input[k + 1..]);
      assert out + line + more == out + (line + more);
    } else {
      assert out + "" == out;
    }
  }

  /** Printing one finished line of the buffer leaves the rest to be printed. */
  lemma ContinueLine(re: string, w: string, p: nat, q: nat, rest: string, t: string, t': string, out: string)
    requires p <= q < |w| < BUFSIZE && q == Stop(w, p) && w[q] == '\n'
    requires t == w[p..] + rest && t' == w[q + 1..] + rest
    ensures Continue(re, out, t) == Continue(re, out + Printed(re, w[p..q]), t')
  {
    StopShift(w, p, rest);
    ContinueCons(re, out, t, q - p, w[p..q], t');
  }

  lemma ContinueCons(re: string, out: string, t: string, k: nat, line: string, more: string)
    requires k < |t| && k + 1 < BUFSIZE && Stop(t, 0) == k && t[k] == '\n'
    requires line == t[..k] && more == t[k + 1..]
    ensures Continue(re, out, t) == Continue(re, out + Printed(re, line), more)
  {
  }

  /** A buffer with an unfinished line that is full, or that nothing follows, prints nothing more. */
  lemma OutputStuck(re: string, out: string, w: string, rest: string)
    requires Stop(w, 0) == |w| || w[Stop(w, 0)] == '\0'
    requires rest == [] || |w| == BUFSIZE - 1
    ensures Continue(re, out, w + rest) == out
  {
    var t := w + rest;
    assert forall i | 0 <= i < Stop(w, 0) :: t[i] == w[i];
    if Stop(w, 0) < |w| {
      assert t[Stop(w, 0)] == '\0';
    }
  }

  lemma {:induction false} CStringIs(s: string, p: nat, q: nat, line: string)
    requires p <= q < |s| && s[q] == '\0' && line == s[p..q] && '\0' !in line
    ensures CString(s, p) == line
    decreases q - p
  {
  }

  lemma {:induction false} StopSame(s: string, w: string, p: nat)
    requires p <= |s| == |w|
    requires forall i | p <= i < |s| :: s[i] == w[i]
    ensures Stop(s, p) == Stop(w, p)
    decreases |s| - p
  {
  }

  lemma StopSuffix(w: string, p: nat)
    requires p <= |w|
    ensures Stop(w[p..], 0) == Stop(w, p) - p
  {
  }

  /** The C string at p: everything before the next NUL. */
  function CString(s: string, p: nat): (t: string)
    requires p <= |s|
    ensures |t| <= |s| - p && t == s[p..p + |t|] && '\0' !in t
    ensures p + |t| < |s| ==> s[p + |t|] == '\0'
    decreases |s| - p
  {
    if p == |s| || s[p] == '\0' then "" else [s[p]] + CString(s, p + 1)
  }

  // -------------------------------------------------------------- the reader

  /** An open file; each read returns some nonempty part of what is left. */
  class File {
    var data: string

    constructor (s: string)
      ensures data == s
    {
      data := s;
    }

    method Read(max: nat) returns (chunk: string)
      modifies this
      ensures |chunk| <= max && old(data) == chunk + data
      ensures chunk == [] <==> max == 0 || old(data) == []
    {
      var n := 0;
      if max > 0 && data != [] {
        var k: nat :| 1 <= k <= max && k <= |data|;
        n := k;
      }
      chunk, data := data[..n], data[n..];
    }
  }

  class Grepper {
    var buf: array<char>
    var out: string // what has been written to file descriptor 1

    constructor ()
      ensures buf.Length == BUFSIZE && out == "" && fresh(buf)
    {
      buf, out := new char[BUFSIZE], "";
    }

    /** strchr(buf + p, '\n'): -1 when a NUL comes first. */
    method FindNewline(p: nat, m: nat) returns (q: int)
      requires p <= m < buf.Length && buf[m] == '\0'
      ensures q == if Stop(buf[..m], p) < m && buf[Stop(buf[..m], p)] == '\n' then Stop(buf[..m], p) else -1
    {
      var s := p;
      while buf[s] != '\0'
        invariant p <= s <= m
        invariant Stop(buf[..m], p) == Stop(buf[..m], s)
        decreases m - s
      {
        if buf[s] == '\n' {
          return s;
        }
        s := s + 1;
      }
      q := -1;
    }

    /** The body of the inner loop: the line buf[p..q] is printed when it matches. */
    method PrintLine(re: string, p: nat, q: nat, ghost line: string)
      requires p <= q < buf.Length && buf[q] == '\n' && line == buf[p..q] && '\0' !in line
      modifies this`out, buf
      ensures forall i | q < i < buf.Length :: buf[i] == old(buf[i])
      ensures out == old(out) + Printed(re, line)
    {
      buf[q] := '\0';
      var text := CString(buf[..], p);
      CStringIs(buf[..], p, q, line);
      var matches := Match(re, text);
      if matches {
        buf[q] := '\n';
        assert buf[p..q + 1] == line + "\n";
        out := out + buf[p..q + 1];
      }
    }

    /** The inner loop: prints the matching lines of buf[..m] and returns where the
        unfinished rest begins. */
    method PrintLines(re: string, m: nat, ghost rest: string) returns (p: nat)
      requires m < buf.Length == BUFSIZE && buf[m] == '\0'
      modifies this`out, buf
      ensures p <= m && buf[p..m] == old(buf[p..m])
      ensures Stop(buf[p..m], 0) == m - p || buf[p..m][Stop(buf[p..m], 0)] == '\0'
      ensures Continue(re, out, buf[p..m] + rest) == Continue(re, old(out), old(buf[..m]) + rest)
    {
      hide Continue;
      ghost var w := buf[..m];
      p := 0;
      assert w[0..] == w;
      ghost var t := w + rest;
      while true
        invariant p <= m && buf[m] == '\0' && t == w[p..] + rest
        invariant forall i | p <= i < m :: buf[i] == w[i]
        invariant Continue(re, out, t) == Continue(re, old(out), w + rest)
        decreases m - p
      {
        StopSame(buf[..m], w, p);
        var q := FindNewline(p, m);
        if q < 0 {
          break;
        }
        ghost var t' := w[q + 1..] + rest;
        ContinueLine(re, w, p, q, rest, t, t', out);
        PrintLine(re, p, q, w[p..q]);
        p, t := q + 1, t';
      }
      assert buf[p..m] == w[p..];
      StopSuffix(w, p);
    }

    /** read(fd, buf+m, sizeof(buf)-m-1): the bytes go after the first m. */
    method ReadInto(fd: File, m: nat) returns (n: nat)
      requires m < buf.Length == BUFSIZE
      modifies buf, fd
      ensures m + n < BUFSIZE && buf[..m + n] + fd.data == old(buf[..m] + fd.data)
      ensures n == 0 <==> m == BUFSIZE - 1 || old(fd.data) == []
      ensures n == 0 ==> fd.data == old(fd.data) && buf[..] == old(buf[..])
    {
      var chunk := fd.Read(BUFSIZE - m - 1);
      n := |chunk|;
      forall i | 0 <= i < n {
        buf[m + i] := chunk[i];
      }
      assert buf[..m + n] == old(buf[..m]) + chunk;
    }

    /** grep: whatever sizes read returns, the output is that of the whole input. */
    method Grep(re: string, fd: File)
      requires buf.Length == BUFSIZE
      modifies this`out, buf, fd
      ensures out == old(out) + Output(re, old(fd.data))
    {
      hide Continue;
      var m := 0;
      assert buf[..0] + fd.data == fd.data;
      while true
        invariant m < BUFSIZE
        invariant Stop(buf[..m], 0) == m || buf[Stop(buf[..m], 0)] == '\0'
        invariant Continue(re, out, buf[..m] + fd.data) == Continue(re, old(out), old(fd.data))
        decreases |fd.data|
      {
        ghost var pending, before := buf[..m], fd.data;
        var n := ReadInto(fd, m);
        if n == 0 {
          OutputStuck(re, out, pending, before);
          break;
        }
        m := m + n;
        buf[m] := '\0';
        assert buf[..m] + fd.data == pending + before;
        var p := PrintLines(re, m, fd.data);
        ghost var kept := buf[p..m];
        forall i | 0 <= i < m - p {
          buf[i] := buf[p + i];
        }
        m := m - p;
        assert buf[..m] == kept;
      }
      ContinueIsOutput(re, old(out), old(fd.data));
    }
  }
}

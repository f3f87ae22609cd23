// The awk scanner of the comment stripper: a state machine fed one line at a time, the
// state carried from line to line.
module StripScanner {
  import opened Wrappers
  import opened StripLexer
  import opened StripStability

  datatype State = NORMAL | LINE | BLOCK | STRING | CHAR | VERBATIM

  // One iteration of the scanner on the rest of its buffer: what it prints, how many
  // characters it consumes, the state it goes to.
  datatype Move = Move(out: string, used: nat, next: State)

  function Advance(st: State, s: string): (m: Move)
    requires s != ""
    ensures 1 <= m.used <= |s|
  {
    var ch := s[0];
    match st
    case NORMAL =>
      if "//" <= s then Move("", 2, LINE)
      else if "/*" <= s then Move("", 2, BLOCK)
      else if TRIPLE <= s then Move(TRIPLE, 3, VERBATIM)
      else Move([ch], 1, if ch == '\"' then STRING else if ch == '\'' then CHAR else NORMAL)
    case LINE => if ch == '\n' then Move("\n", 1, NORMAL) else Move("", 1, LINE)
    case BLOCK =>
      if "*/" <= s then Move("", 2, NORMAL)
      else Move(if ch == '\n' then "\n" else "", 1, BLOCK)
    case STRING =>
      if ch == '\\' && |s| > 1 then Move(s[..2], 2, STRING)
      else Move([ch], 1, if ch == '\"' then NORMAL else STRING)
    case CHAR =>
      if ch == '\\' && |s| > 1 then Move(s[..2], 2, CHAR)
      else Move([ch], 1, if ch == '\'' then NORMAL else CHAR)
    case VERBATIM =>
      if TRIPLE <= s then Move(TRIPLE, 3, NORMAL) else Move([ch], 1, VERBATIM)
  }

  function Scan(st: State, s: string): (string, State)
    decreases |s|
  {
    if s == "" then ("", st)
    else
      var m := Advance(st, s);
      var (out, end) := Scan(m.next, s[m.used..]);
      (m.out + out, end)
  }

  // What the first `i` characters printed, followed by the scan of the rest, is the whole scan.
  ghost predicate Resumes(st: State, line: string, i: nat, out: string, now: State)
    requires i <= |line|
  {
    Scan(st, line) == (out + Scan(now, line[i..]).0, Scan(now, line[i..]).1)
  }

  lemma ResumesNext(st: State, line: string, i: nat, out: string, now: State)
    requires i < |line| && Resumes(st, line, i, out, now)
    ensures var m := Advance(now, line[i..]); Resumes(st, line, i + m.used, out + m.out, m.next)
  {
    var m := Advance(now, line[i..]);
    var rest := line[i + m.used..];
    assert line[i..][m.used..] == rest;
    Assoc(out, m.out, Scan(m.next, rest).0);
  }

  lemma ResumesStart(st: State, line: string)
    ensures Resumes(st, line, 0, "", st)
  {
    assert line[0..] == line && "" + Scan(st, line).0 == Scan(st, line).0;
  }

  lemma ResumesEnd(st: State, line: string, out: string, now: State)
    requires Resumes(st, line, |line|, out, now)
    ensures Scan(st, line) == (out, now)
  {
    assert line[|line|..] == "" && out + "" == out;
  }

  // ------------------------------------------------------------ the scanner loop

  // awk's substr(line, i + 1, k): whatever is there.
  function Substr(line: string, i: nat, k: nat): string
    requires i <= |line|
  {
    if i + k <= |line| then line[i..i + k] else line[i..]
  }

  lemma Lookahead(line: string, i: nat, p: string)
    requires i <= |line|
    ensures Substr(line, i, |p|) == p <==> p <= line[i..]
  {
    if i + |p| <= |line| { assert line[i..][..|p|] == line[i..i + |p|]; }
  }

  // The part of the loop body for text outside comments and literals.
  method StripCode(line: string, i: nat) returns (out: string, j: nat, end: State)
    requires i < |line|
    ensures i < j <= |line| && Move(out, j - i, end) == Advance(NORMAL, line[i..])
  {
    var ch := line[i];
    var nxt := Substr(line, i, 2);
    var three := Substr(line, i, 3);
    Lookahead(line, i, "//");
    Lookahead(line, i, "/*");
    Lookahead(line, i, TRIPLE);
    out, j, end := "", i, NORMAL;
    if nxt == "//" {
      end := LINE;
      j := i + 2;
    } else if nxt == "/*" {
      end := BLOCK;
      j := i + 2;
    } else if ch == '\"' {
      if three == TRIPLE {
        out := TRIPLE;
        j := i + 3;
        end := VERBATIM;
      } else {
        out := [ch];
        j := i + 1;
        end := STRING;
      }
    } else if ch == '\'' {
      out := [ch];
      j := i + 1;
      end := CHAR;
    } else {
      out := [ch];
      j := i + 1;
    }
  }

  // One pass through the loop body at position `i`.
  method StripAt(line: string, i: nat, state: State) returns (out: string, j: nat, end: State)
    requires i < |line|
    ensures i < j <= |line| && Move(out, j - i, end) == Advance(state, line[i..])
  {
    var ch := line[i];
    var nxt := Substr(line, i, 2);
    var three := Substr(line, i, 3);
    out, j, end := "", i, state;
    match state {
      case NORMAL => out, j, end := StripCode(line, i);
      case LINE =>
        if ch == '\n' {
          out := "\n";
          end := NORMAL;
        }
        j := i + 1;
      case BLOCK =>
        Lookahead(line, i, "*/");
        if nxt == "*/" {
          j := i + 2;
          end := NORMAL;
        } else {
          if ch == '\n' {
            out := "\n";
          }
          j := i + 1;
        }
      case STRING =>
        out := [ch];
        if ch == '\\' && i + 1 < |line| {
          out := out + [line[i + 1]];
          j := i + 2;
        } else {
          if ch == '\"' {
            end := NORMAL;
          }
          j := i + 1;
        }
      case CHAR =>
        out := [ch];
        if ch == '\\' && i + 1 < |line| {
          out := out + [line[i + 1]];
          j := i + 2;
        } else {
          if ch == '\'' {
            end := NORMAL;
          }
          j := i + 1;
        }
      case VERBATIM =>
        Lookahead(line, i, TRIPLE);
        if three == TRIPLE {
          out := TRIPLE;
          j := i + 3;
          end := NORMAL;
        } else {
          out := [ch];
          j := i + 1;
        }
    }
  }

  // One pass through the loop body, and the scan it belongs to.
  method StripNext(line: string, i: nat, state: State, ghost st: State, ghost printed: string)
    returns (out: string, j: nat, end: State)
    requires i < |line| && Resumes(st, line, i, printed, state)
    ensures i < j <= |line| && Resumes(st, line, j, printed + out, end)
  {
    ResumesNext(st, line, i, printed, state);
    out, j, end := StripAt(line, i, state);
  }

  method StripLine(record: string, state: State) returns (out: string, end: State)
    ensures (out, end) == Scan(state, record + "\n")
  {
    var line := record + "\n";
    var i, n := 0, |line|;
    out, end := "", state;
    ResumesStart(state, line);
    while i < n
      invariant 0 <= i <= n && Resumes(state, line, i, out, end)
    {
      var printed, j, next := StripNext(line, i, end, state, out);
      out, i, end := out + printed, j, next;
    }
    ResumesEnd(state, line, out, end);
  }

  // ------------------------------------------------------------ line by line

  predicate Terminated(s: string) {
    s == "" || s[|s| - 1] == '\n'
  }

  // The whole text as awk sees it: a missing final newline is supplied.
  function Whole(text: string): (w: string)
    ensures Terminated(w)
  {
    if Terminated(text) then text else text + "\n"
  }

  // awk's records.
  function Records(text: string): (rs: seq<string>)
    ensures rs == [] <==> text == ""
  {
    if text == "" then []
    else if text[0] == '\n' then [""] + Records(text[1..])
    else
      var rs := Records(text[1..]);
      if rs == [] then [text] else [[text[0]] + rs[0]] + rs[1..]
  }

  function Join(records: seq<string>): string {
    if records == [] then "" else records[0] + "\n" + Join(records[1..])
  }

  lemma JoinCons(r: string, rs: seq<string>)
    ensures Join([r] + rs) == r + "\n" + Join(rs)
  {
    assert ([r] + rs)[1..] == rs;
  }

  // A character in front of the first record.
  lemma JoinFront(c: char, rs: seq<string>)
    requires rs != []
    ensures Join([[c] + rs[0]] + rs[1..]) == [c] + Join(rs)
  {
    JoinCons([c] + rs[0], rs[1..]);
    assert [c] + rs[0] + "\n" == [c] + (rs[0] + "\n");
    Assoc([c], rs[0] + "\n", Join(rs[1..]));
  }

  lemma {:induction false} JoinRecords(text: string)
    ensures Join(Records(text)) == Whole(text)
  {
    if text != "" {
      var c, rest := text[0], text[1..];
      assert text == [c] + rest;
      JoinRecords(rest);
      if c == '\n' {
        JoinCons("", Records(rest));
        assert Whole(text) == [c] + Whole(rest);
      } else if rest == "" {
        JoinCons(text, []);
      } else {
        JoinFront(c, Records(rest));
        assert Whole(text) == [c] + Whole(rest);
      }
    }
  }

  // A newline ends every lookahead: one step does not see past it.
  lemma AdvanceLocal(st: State, a: string, b: string)
    requires a != "" && Terminated(a)
    ensures Advance(st, a + b) == Advance(st, a)
    ensures Terminated(a[Advance(st, a).used..])
  {
    var s := a + b;
    assert s[0] == a[0] && (|a| == 1 ==> a[0] == '\n');
    assert |a| > 1 ==> s[1] == a[1] && s[..2] == a[..2];
    assert |a| == 2 ==> s[1] == '\n' && !(TRIPLE <= s);
    assert |a| > 2 ==> s[..3] == a[..3];
  }

  // Scanning can be cut after any newline.
  lemma {:induction false} ScanConcat(st: State, a: string, b: string)
    requires Terminated(a)
    ensures Scan(st, a + b).0 == Scan(st, a).0 + Scan(Scan(st, a).1, b).0
    ensures Scan(st, a + b).1 == Scan(Scan(st, a).1, b).1
    decreases |a|
  {
    if a == "" {
      assert a + b == b;
    } else {
      AdvanceLocal(st, a, b);
      var m := Advance(st, a);
      var a' := a[m.used..];
      assert (a + b)[m.used..] == a' + b;
      ScanConcat(m.next, a', b);
      Assoc(m.out, Scan(m.next, a').0, Scan(Scan(m.next, a').1, b).0);
    }
  }

  // Feeding the scanner line by line with carried state is one scan of the whole text.
  method StripFile(text: string) returns (out: string)
    ensures out == Strip(text)
  {
    var records := Records(text);
    var state := NORMAL;
    out := "";
    JoinRecords(text);
    ghost var whole := Join(records);
    assert records[0..] == records;
    for i := 0 to |records|
      invariant Scan(NORMAL, whole).0 == out + Scan(state, Join(records[i..])).0
    {
      var printed, end := StripLine(records[i], state);
      ghost var line, rest := records[i] + "\n", Join(records[i + 1..]);
      assert records[i..][0] == records[i] && records[i..][1..] == records[i + 1..];
      ScanConcat(state, line, rest);
      Assoc(out, printed, Scan(end, rest).0);
      out, state := out + printed, end;
    }
    assert records[|records|..] == [] && out + "" == out;
  }

  function Strip(text: string): string {
    Scan(NORMAL, Whole(text)).0
  }

  // ------------------------------------------------------------ the scanner against the lexer

  lemma {:induction false} ScanLine(s: string)
    ensures Scan(LINE, s).0 == Scan(NORMAL, s[LineLen(s)..]).0
  {
    if s != "" && s[0] != '\n' {
      ScanLine(s[1..]);
      assert s[1..][LineLen(s[1..])..] == s[LineLen(s)..];
    } else if s != "" {
      assert !("//" <= s) && !("/*" <= s) && !(TRIPLE <= s);
    }
  }

  lemma ScanStep(st: State, s: string, m: Move)
    requires s != "" && Advance(st, s) == m
    ensures Scan(st, s).0 == m.out + Scan(m.next, s[m.used..]).0
  {}

  lemma BlockEnd(s: string)
    requires "*/" <= s
    ensures BlockLen(s) == 2 && Newlines(s[..2]) == ""
    ensures Scan(BLOCK, s).0 == Scan(NORMAL, s[2..]).0
  {
    assert s[..2] == "*/" && s[0] == '*' && s[1] == '/';
    NoNewlines(s[..2]);
  }

  lemma BlockStep(s: string)
    requires s != "" && !("*/" <= s)
    ensures BlockLen(s) == 1 + BlockLen(s[1..])
    ensures Scan(BLOCK, s).0 == (if s[0] == '\n' then "\n" else "") + Scan(BLOCK, s[1..]).0
  {
    assert |s| > 1 ==> s[..2] == [s[0], s[1]];
  }

  lemma {:induction false} ScanBlock(s: string)
    ensures Scan(BLOCK, s).0 == Newlines(s[..BlockLen(s)]) + Scan(NORMAL, s[BlockLen(s)..]).0
  {
    if s == "" {
    } else if "*/" <= s {
      BlockEnd(s);
    } else {
      var n := BlockLen(s);
      var rest := s[1..];
      BlockStep(s);
      ScanBlock(rest);
      assert s[..n][0] == s[0] && s[..n][1..] == rest[..n - 1] && rest[n - 1..] == s[n..];
      Assoc(if s[0] == '\n' then "\n" else "", Newlines(rest[..n - 1]), Scan(NORMAL, s[n..]).0);
    }
  }

  // One step inside a string or character literal, and whether the literal goes on.
  lemma QuoteStep(s: string, st: State, q: char) returns (k: nat, more: bool)
    requires (st == STRING && q == '\"') || (st == CHAR && q == '\'')
    requires s != ""
    ensures 1 <= k <= |s| && QuoteLen(s, q) == k + if more then QuoteLen(s[k..], q) else 0
    ensures Scan(st, s).0 == s[..k] + Scan(if more then st else NORMAL, s[k..]).0
  {
    var m := Advance(st, s);
    k, more := m.used, m.next != NORMAL;
    assert m.out == s[..k];
  }

  lemma {:induction false} ScanQuoted(s: string, st: State, q: char, n: nat)
    requires (st == STRING && q == '\"') || (st == CHAR && q == '\'')
    requires n == QuoteLen(s, q)
    ensures Scan(st, s).0 == s[..n] + Scan(NORMAL, s[n..]).0
  {
    if s != "" {
      var k, more := QuoteStep(s, st, q);
      if more {
        ScanQuoted(s[k..], st, q, n - k);
        CutTwice(s, k, n, Scan(NORMAL, s[n..]).0);
      } else {
        assert n == k;
      }
    } else {
      assert s[..n] == "" && s[n..] == "";
    }
  }

  // A piece of a text, and what comes after it.
  lemma CutTwice(s: string, k: nat, n: nat, after: string)
    requires k <= n <= |s|
    ensures s[k..][n - k..] == s[n..]
    ensures s[..k] + (s[k..][..n - k] + after) == s[..n] + after
  {
    assert s[..n] == s[..k] + s[k..][..n - k];
    Assoc(s[..k], s[k..][..n - k], after);
  }

  lemma {:induction false} ScanVerbatim(s: string)
    ensures Scan(VERBATIM, s).0 == s[..VerbatimLen(s)] + Scan(NORMAL, s[VerbatimLen(s)..]).0
  {
    var n := VerbatimLen(s);
    if s == "" {
    } else if TRIPLE <= s {
    } else {
      assert s[..n] == [s[0]] + s[1..][..n - 1] && s[1..][n - 1..] == s[n..];
      ScanVerbatim(s[1..]);
      Assoc([s[0]], s[1..][..n - 1], Scan(NORMAL, s[n..]).0);
    }
  }

  lemma ScanLineToken(s: string)
    requires s != "" && "//" <= s
    ensures Scan(NORMAL, s).0 == First(s).Kept() + Scan(NORMAL, Rest(s)).0
  {
    var body := s[2..];
    assert s[..2] == "//" && s[0] == '/' && s[1] == '/';
    assert s[1..][1..] == body && LineLen(s) == 2 + LineLen(body);
    AfterLineComment(s);
    ScanLine(body);
    assert body[LineLen(body)..] == Rest(s);
  }

  lemma ScanBlockToken(s: string)
    requires s != "" && !("//" <= s) && "/*" <= s
    ensures Scan(NORMAL, s).0 == First(s).Kept() + Scan(NORMAL, Rest(s)).0
  {
    var body, n := s[2..], BlockLen(s[2..]);
    assert First(s).Kept() == Newlines(body[..n]) && body[n..] == Rest(s) by {
      assert First(s).text == "/*" + body[..n];
      NewlinesConcat("/*", body[..n]);
      assert Newlines("/*"[1..]) == "";
    }
    ScanBlock(body);
  }

  function Inside(kind: LiteralKind): State {
    match kind case Str => STRING case Chr => CHAR case Verbatim => VERBATIM
  }

  function Extent(kind: LiteralKind, body: string): nat {
    match kind
    case Str => QuoteLen(body, '\"')
    case Chr => QuoteLen(body, '\'')
    case Verbatim => VerbatimLen(body)
  }

  lemma ScanInside(kind: LiteralKind, body: string, n: nat)
    requires n == Extent(kind, body)
    ensures n <= |body| && Scan(Inside(kind), body).0 == body[..n] + Scan(NORMAL, body[n..]).0
  {
    match kind {
      case Verbatim => ScanVerbatim(body);
      case Str => ScanQuoted(body, STRING, '\"', n);
      case Chr => ScanQuoted(body, CHAR, '\'', n);
    }
  }

  lemma ScanFromOpener(s: string, k: nat, kind: LiteralKind, n: nat)
    requires k <= |s| && n == k + Extent(kind, s[k..])
    ensures n <= |s| && s[..k] + Scan(Inside(kind), s[k..]).0 == s[..n] + Scan(NORMAL, s[n..]).0
  {
    var body := s[k..];
    assert s[..n] == s[..k] + body[..n - k] && body[n - k..] == s[n..];
    ScanInside(kind, body, n - k);
    Assoc(s[..k], body[..n - k], Scan(NORMAL, s[n..]).0);
  }

  // The opener and the extent of a literal, as the scanner sees them.
  lemma LiteralOpens(s: string) returns (k: nat, n: nat)
    requires s != "" && First(s).Literal?
    ensures k <= n <= |s| && n == k + Extent(First(s).kind, s[k..])
    ensures First(s).Kept() == s[..n] && Rest(s) == s[n..]
    ensures Scan(NORMAL, s).0 == s[..k] + Scan(Inside(First(s).kind), s[k..]).0
  {
    FirstByHead(s);
    assert !("//" <= s) && !("/*" <= s);
    n := |First(s).text|;
    var m := Advance(NORMAL, s);
    if TRIPLE <= s {
      k := 3;
      assert m == Move(TRIPLE, 3, VERBATIM) && s[..3] == TRIPLE;
    } else {
      k := 1;
      assert s[0] == '\"' || s[0] == '\'';
      assert m == Move([s[0]], 1, Inside(First(s).kind)) && s[..1] == [s[0]];
    }
  }

  lemma ScanLiteralToken(s: string)
    requires s != "" && First(s).Literal?
    ensures Scan(NORMAL, s).0 == First(s).Kept() + Scan(NORMAL, Rest(s)).0
  {
    var k, n := LiteralOpens(s);
    ScanFromOpener(s, k, First(s).kind, n);
  }

  // The state machine prints exactly the token-level stripped text.
  lemma {:induction false} ScanIsRender(s: string)
    ensures Scan(NORMAL, s).0 == Render(Lex(s))
    decreases |s|
  {
    if s != "" {
      if First(s).LineComment? {
        ScanLineToken(s);
      } else if First(s).BlockComment? {
        ScanBlockToken(s);
      } else if First(s).Literal? {
        ScanLiteralToken(s);
      }
      ScanIsRender(Rest(s));
      assert Lex(s)[0] == First(s) && Lex(s)[1..] == Lex(Rest(s));
    }
  }
}

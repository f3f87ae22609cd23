// What the comment stripper is for: the main results about whole texts.
module StripTheorems {
  import opened Wrappers
  import opened StripLexer
  import opened StripStability
  import opened StripScanner

  // The move that consumes the final newline prints it last.
  lemma LastMove(st: State, s: string)
    requires s != "" && s[|s| - 1] == '\n' && Advance(st, s).used == |s|
    ensures Advance(st, s).out != "" && Terminated(Advance(st, s).out) && Scan(st, s).0 == Advance(st, s).out
  {
    var m := Advance(st, s);
    assert s[m.used..] == "" && m.out + "" == m.out;
  }

  lemma {:induction false} EndsWithNewline(st: State, s: string)
    requires s != "" && Terminated(s)
    ensures Scan(st, s).0 != "" && Terminated(Scan(st, s).0)
    decreases |s|
  {
    var m := Advance(st, s);
    AdvanceLocal(st, s, "");
    if m.used == |s| {
      LastMove(st, s);
    } else {
      EndsWithNewline(m.next, s[m.used..]);
      var rest := Scan(m.next, s[m.used..]).0;
      assert (m.out + rest)[|m.out| + |rest| - 1] == rest[|rest| - 1];
    }
  }

  lemma StripIsRender(text: string)
    ensures Strip(text) == Render(Lex(Whole(text)))
    ensures Whole(Strip(text)) == Strip(text)
  {
    ScanIsRender(Whole(text));
    if Whole(text) != "" { EndsWithNewline(NORMAL, Whole(text)); }
  }

  // Nothing is added or reordered, and every newline stays.
  lemma StripKeepsLines(text: string)
    ensures Subsequence(Strip(text), Whole(text))
    ensures Newlines(Strip(text)) == Newlines(Whole(text))
  {
    var ts := Lex(Whole(text));
    StripIsRender(text);
    LexCoversText(Whole(text));
    RenderSubsequence(ts);
    LineNumbersPreserved(ts, |ts|);
    assert ts[..|ts|] == ts;
  }

  // The stripped text consists of the original tokens without the comments, if and only if
  // no empty string literal is glued to a quote.
  lemma StripPreservesTokens(text: string)
    ensures Lex(Strip(text)) == KeptTokens(Lex(Whole(text))) <==> !Glued(Lex(Whole(text)))
  {
    StripIsRender(text);
    TokensSurvive(Whole(text));
    GluedRecMeaning(Lex(Whole(text)));
  }

  function Literals(ts: seq<Token>): seq<Token> {
    if ts == [] then []
    else (if ts[0].Literal? then [ts[0]] else []) + Literals(ts[1..])
  }

  lemma {:induction false} LiteralsConcat(ts: seq<Token>, us: seq<Token>)
    ensures Literals(ts + us) == Literals(ts) + Literals(us)
  {
    if ts == [] {
      assert ts + us == us;
    } else {
      assert (ts + us)[1..] == ts[1..] + us;
      LiteralsConcat(ts[1..], us);
      Assoc(if ts[0].Literal? then [ts[0]] else [], Literals(ts[1..]), Literals(us));
    }
  }

  lemma {:induction false} NoLiteralsInCodes(s: string)
    ensures Literals(Codes(s)) == []
  {
    if s != "" { NoLiteralsInCodes(s[1..]); }
  }

  lemma {:induction false} LiteralsKept(ts: seq<Token>)
    ensures Literals(KeptTokens(ts)) == Literals(ts)
  {
    if ts != [] {
      LiteralsKept(ts[1..]);
      if ts[0].IsComment() {
        NoLiteralsInCodes(Newlines(ts[0].text));
        LiteralsConcat(Codes(Newlines(ts[0].text)), KeptTokens(ts[1..]));
      } else {
        LiteralsConcat([ts[0]], KeptTokens(ts[1..]));
      }
    }
  }

  // All literals survive verbatim and in order, and a second pass changes nothing.
  lemma StripIsIdempotent(text: string)
    requires !Glued(Lex(Whole(text)))
    ensures Literals(Lex(Strip(text))) == Literals(Lex(Whole(text)))
    ensures Strip(Strip(text)) == Strip(text)
  {
    var ts := Lex(Whole(text));
    StripIsRender(text);
    StripPreservesTokens(text);
    LiteralsKept(ts);
    StripIsRender(Strip(text));
    RenderKept(ts);
  }

  ghost predicate CommentFree(ts: seq<Token>) {
    forall i :: 0 <= i < |ts| ==> !ts[i].IsComment()
  }

  // A comment is longer than its newlines.
  lemma CommentShrinks(s: string)
    requires s != "" && First(s).IsComment()
    ensures |First(s).Kept()| < |First(s).Text()|
  {
    var text := First(s).text;
    assert text[0] == '/' by { assert text[0] == s[0] == s[..2][0]; }
    assert Newlines(text) == Newlines(text[1..]);
  }

  lemma {:induction false} RenderUnchangedIffCommentFree(s: string)
    ensures |Render(Lex(s))| <= |s|
    ensures Render(Lex(s)) == s <==> CommentFree(Lex(s))
    decreases |s|
  {
    if s != "" {
      var t, r := First(s), Rest(s);
      RenderUnchangedIffCommentFree(r);
      assert Lex(s) == [t] + Lex(r) && Lex(s)[1..] == Lex(r);
      assert forall i :: 0 <= i < |Lex(r)| ==> Lex(r)[i] == Lex(s)[i + 1];
      if t.IsComment() {
        CommentShrinks(s);
        assert Lex(s)[0].IsComment();
      } else {
        SamePrefix(t.Text(), Render(Lex(r)), r);
      }
    }
  }

  // A pass changes nothing if and only if the text ends its last line and holds no comment.
  lemma UnchangedIffCommentFree(text: string)
    ensures Strip(text) == text <==> Terminated(text) && CommentFree(Lex(text))
  {
    StripIsRender(text);
    RenderUnchangedIffCommentFree(text);
  }

  // So a second pass changes nothing if and only if the first has left no comment behind,
  // which gluing alone can make it do.
  lemma IdempotentIffNoCommentLeft(text: string)
    ensures Strip(Strip(text)) == Strip(text) <==> CommentFree(Lex(Strip(text)))
    ensures !Glued(Lex(Whole(text))) ==> CommentFree(Lex(Strip(text)))
  {
    StripIsRender(text);
    UnchangedIffCommentFree(Strip(text));
    if !Glued(Lex(Whole(text))) { StripIsIdempotent(text); }
  }

  // A character literal passes through.
  lemma {:induction false} ScanPlainChar(body: string, rest: string)
    requires forall i :: 0 <= i < |body| ==> body[i] != '\'' && body[i] != '\\'
    ensures Scan(CHAR, body + "'" + rest).0 == body + "'" + Scan(NORMAL, rest).0
  {
    var s := body + "'" + rest;
    if body == "" {
      assert s[1..] == rest;
      ScanStep(CHAR, s, Move("'", 1, NORMAL));
    } else {
      assert s[1..] == body[1..] + "'" + rest && [body[0]] + (body[1..] + "'") == body + "'";
      ScanPlainChar(body[1..], rest);
      ScanStep(CHAR, s, Move([body[0]], 1, CHAR));
      Assoc([body[0]], body[1..] + "'", Scan(NORMAL, rest).0);
    }
  }

  // An empty string, a comment, an empty string, a character literal: a second pass strips
  // what the first one kept inside the character literal.
  const GLUED := "\"\"/**/\"\"'\"\"\"//'\n"
  const ONCE := "\"\"\"\"'\"\"\"//'\n"
  const TWICE := "\"\"\"\"'\"\"\"\n"

  lemma KeepsQuotedChar(s: string, body: string, rest: string)
    requires s == "'" + body + "'" + rest
    requires forall i :: 0 <= i < |body| ==> body[i] != '\'' && body[i] != '\\'
    ensures Scan(NORMAL, s).0 == "'" + body + "'" + Scan(NORMAL, rest).0
  {
    assert s[1..] == body + "'" + rest && s[0] == '\'';
    ScanPlainChar(body, rest);
    ScanStep(NORMAL, s, Move("'", 1, CHAR));
    Assoc("'", body + "'", Scan(NORMAL, rest).0);
    Assoc("'", body, "'");
  }

  lemma KeepsNewline()
    ensures Scan(NORMAL, "\n").0 == "\n"
  {
    ScanStep(NORMAL, "\n", Move("\n", 1, NORMAL));
  }

  lemma OpensString(s: string)
    requires s != "" && s[0] == '\"' && !(TRIPLE <= s)
    ensures Scan(NORMAL, s).0 == "\"" + Scan(STRING, s[1..]).0
  {
    ScanStep(NORMAL, s, Move("\"", 1, STRING));
  }

  lemma ClosesString(s: string)
    requires s != "" && s[0] == '\"'
    ensures Scan(STRING, s).0 == "\"" + Scan(NORMAL, s[1..]).0
  {
    ScanStep(STRING, s, Move("\"", 1, NORMAL));
  }

  lemma KeepsEmptyString(s: string, rest: string)
    requires s == "\"\"" + rest && (rest == "" || rest[0] != '\"')
    ensures Scan(NORMAL, s).0 == "\"\"" + Scan(NORMAL, rest).0
  {
    assert s[1..] == "\"" + rest && s[1..][1..] == rest;
    assert |s| > 2 ==> s[2] == rest[0];
    OpensString(s);
    ClosesString(s[1..]);
  }

  lemma DropsEmptyComment(s: string, rest: string)
    requires s == "/**/" + rest
    ensures Scan(NORMAL, s).0 == Scan(NORMAL, rest).0
  {
    assert s[2..] == "*/" + rest && s[2..][2..] == rest && s[..2] == "/*";
    assert s[1] == '*' && !("//" <= s);
    ScanStep(BLOCK, s[2..], Move("", 2, NORMAL));
    ScanStep(NORMAL, s, Move("", 2, BLOCK));
  }

  lemma StripOnce()
    ensures Strip(GLUED) == ONCE
  {
    var quoted := "'\"\"\"//'\n";
    var s1 := "\"\"" + quoted;
    var s2 := "/**/" + s1;
    assert GLUED == "\"\"" + s2 && "\"\"" + ("\"\"" + quoted) == ONCE;
    assert quoted == "'" + "\"\"\"//" + "'" + "\n";
    KeepsNewline();
    KeepsQuotedChar(quoted, "\"\"\"//", "\n");
    KeepsEmptyString(s1, quoted);
    DropsEmptyComment(s2, s1);
    KeepsEmptyString(GLUED, s2);
  }

  lemma DropsLineComment(s: string)
    requires s == "//'\n"
    ensures Scan(NORMAL, s).0 == "\n"
  {
    var t, u := s[2..], s[2..][1..];
    assert t == "'\n" && u == "\n";
    ScanLine(t);
    assert LineLen(t) == 1;
    ScanStep(NORMAL, u, Move("\n", 1, NORMAL));
    ScanStep(NORMAL, s, Move("", 2, LINE));
  }

  lemma KeepsVerbatim(s: string, rest: string)
    requires s == TRIPLE + "\"'" + TRIPLE + rest
    ensures Scan(NORMAL, s).0 == TRIPLE + "\"'" + TRIPLE + Scan(NORMAL, rest).0
  {
    var t := s[3..];
    assert s[..3] == TRIPLE && t == "\"'" + TRIPLE + rest;
    VerbatimExtent(t, rest);
    assert t[..5] == "\"'" + TRIPLE && t[5..] == rest;
    ScanVerbatim(t);
    ScanStep(NORMAL, s, Move(TRIPLE, 3, VERBATIM));
    Assoc(TRIPLE, "\"'" + TRIPLE, Scan(NORMAL, rest).0);
    Assoc(TRIPLE, "\"'", TRIPLE);
  }

  lemma VerbatimExtent(t: string, rest: string)
    requires t == "\"'" + TRIPLE + rest
    ensures VerbatimLen(t) == 5
  {
    var u, v := t[1..], t[2..];
    assert u[1..] == v && t[1] == '\'' && u[0] == '\'' && v[..3] == TRIPLE;
    assert !(TRIPLE <= t) && !(TRIPLE <= u) && VerbatimLen(v) == 3;
  }

  lemma StripAgain()
    ensures Strip(ONCE) == TWICE
  {
    assert ONCE == TRIPLE + "\"'" + TRIPLE + "//'\n" && TWICE == TRIPLE + "\"'" + TRIPLE + "\n";
    DropsLineComment("//'\n");
    KeepsVerbatim(ONCE, "//'\n");
  }

  lemma GluedTextIsNotStable()
    ensures Glued(Lex(Whole(GLUED))) && Strip(Strip(GLUED)) != Strip(GLUED)
  {
    StripOnce();
    StripAgain();
    assert |ONCE| != |TWICE|;
    if !Glued(Lex(Whole(GLUED))) { StripIsIdempotent(GLUED); }
  }

  // Gluing does not always show in a second pass: here it finds no comment to strip.
  const HARMLESS := "\"\"/**/\"\"\n"

  lemma StripHarmless(h: string)
    requires h == HARMLESS
    ensures Strip(h) == TRIPLE + "\"\n" && Whole(h) == h
  {
    var nl := "\n";
    var s1 := "\"\"" + nl;
    var s2 := "/**/" + s1;
    assert h == "\"\"" + s2 && TRIPLE + "\"\n" == "\"\"" + s1;
    KeepsNewline();
    KeepsEmptyString(s1, nl);
    DropsEmptyComment(s2, s1);
    KeepsEmptyString(h, s2);
  }

  lemma OpenVerbatim(s: string, t: string)
    requires s == TRIPLE + t && |t| < 3 && t != "" && Terminated(t)
    ensures Strip(s) == s
  {
    assert s[..3] == TRIPLE && s[3..] == t && s[0] == '\"' && Whole(s) == s;
    assert !("//" <= s) && !("/*" <= s) && TRIPLE <= s;
    ShortVerbatim(t);
    ScanStep(NORMAL, s, Move(TRIPLE, 3, VERBATIM));
  }

  lemma FirstTokens(h: string, out: string)
    requires h == HARMLESS && out == TRIPLE + "\"\n"
    ensures First(h) == EMPTY_STRING && First(out).Literal? && First(out).kind == Verbatim
  {
    assert h[..2] == "\"\"" && h[1] == '\"' && h[2] == '/' && out[..3] == TRIPLE && out[0] == '\"';
    FirstByHead(h);
    FirstByHead(out);
    assert h[1..][0] == '\"';
  }

  // An empty string that has turned into the start of a verbatim literal was glued.
  lemma GluedBecause(h: string, out: string)
    requires h != "" && Whole(h) == h && Strip(h) == out != ""
    requires First(h) == EMPTY_STRING && First(out).Literal? && First(out).kind == Verbatim
    ensures Glued(Lex(Whole(h)))
  {
    StripPreservesTokens(h);
    assert Lex(h)[0] == EMPTY_STRING && KeptTokens(Lex(h))[0] == EMPTY_STRING;
    assert Lex(out)[0] == First(out);
  }

  lemma GluedTextMayBeStable(h: string)
    requires h == HARMLESS
    ensures Glued(Lex(Whole(h))) && Strip(Strip(h)) == Strip(h)
  {
    var t := "\"\n";
    var out := TRIPLE + t;
    StripHarmless(h);
    OpenVerbatim(out, t);
    FirstTokens(h, out);
    GluedBecause(h, out);
  }

  lemma ShortVerbatim(t: string)
    requires |t| < 3
    ensures Scan(VERBATIM, t).0 == t
    decreases |t|
  {
    if t != "" {
      ShortVerbatim(t[1..]);
      ScanStep(VERBATIM, t, Move([t[0]], 1, VERBATIM));
    }
  }
}

// When does stripped text read as the original tokens without their comments?  Exactly when
// no empty string literal gets glued to a following quote.
module StripStability {
  import opened Wrappers
  import opened StripLexer

  // ------------------------------------------------------------ extents are local

  lemma {:induction false} QuoteLenLocal(s: string, q: char, x: string)
    requires QuoteLen(s, q) < |s|
    ensures QuoteLen(s[..QuoteLen(s, q)] + x, q) == QuoteLen(s, q)
  {
    var n := QuoteLen(s, q);
    var t := s[..n] + x;
    if s[0] == '\\' && |s| > 1 {
      QuoteLenLocal(s[2..], q, x);
      assert t[2..] == s[2..][..n - 2] + x;
    } else if s[0] != q {
      QuoteLenLocal(s[1..], q, x);
      assert t[1..] == s[1..][..n - 1] + x;
    }
  }

  lemma {:induction false} VerbatimLenLocal(s: string, x: string)
    requires VerbatimLen(s) < |s|
    ensures VerbatimLen(s[..VerbatimLen(s)] + x) == VerbatimLen(s)
  {
    var n := VerbatimLen(s);
    var t := s[..n] + x;
    if TRIPLE <= s {
      assert t[..3] == s[..3];
    } else {
      VerbatimLenLocal(s[1..], x);
      assert t[1..] == s[1..][..n - 1] + x;
      VerbatimNeedsThree(s[1..]);
      assert t[..3] == s[..3];
    }
  }

  lemma {:induction false} VerbatimNeedsThree(s: string)
    requires VerbatimLen(s) < |s|
    ensures VerbatimLen(s) >= 3
  {
    if !(TRIPLE <= s) { VerbatimNeedsThree(s[1..]); }
  }

  // What `First` looks at, character by character.
  lemma FirstByHead(u: string)
    requires u != ""
    ensures u[0] == '\'' ==> First(u) == Literal(Chr, u[..1 + QuoteLen(u[1..], '\'')])
    ensures u[0] == '\"' && TRIPLE <= u ==> First(u) == Literal(Verbatim, u[..3 + VerbatimLen(u[3..])])
    ensures u[0] == '\"' && !(TRIPLE <= u) ==> First(u) == Literal(Str, u[..1 + QuoteLen(u[1..], '\"')])
    ensures u[0] == '/' && (|u| == 1 || (u[1] != '/' && u[1] != '*')) ==> First(u) == Code('/')
    ensures u[0] != '/' && u[0] != '\'' && u[0] != '\"' ==> First(u) == Code(u[0])
  {}

  lemma QuotedLocal(s: string, x: string, q: char)
    requires s != "" && s[0] == q && 1 + QuoteLen(s[1..], q) < |s|
    ensures var n := 1 + QuoteLen(s[1..], q);
      var u := s[..n] + x;
      u[..1 + QuoteLen(u[1..], q)] == s[..n]
  {
    var n := 1 + QuoteLen(s[1..], q);
    QuoteLenLocal(s[1..], q, x);
    assert (s[..n] + x)[1..] == s[1..][..n - 1] + x;
  }

  lemma TripleLocal(s: string, x: string)
    requires TRIPLE <= s && 3 + VerbatimLen(s[3..]) < |s|
    ensures var n := 3 + VerbatimLen(s[3..]);
      var u := s[..n] + x;
      TRIPLE <= u && u[..3 + VerbatimLen(u[3..])] == s[..n]
  {
    var n := 3 + VerbatimLen(s[3..]);
    VerbatimLenLocal(s[3..], x);
    assert (s[..n] + x)[3..] == s[3..][..n - 3] + x;
    assert (s[..n] + x)[..3] == s[..3];
  }

  // A string literal that is not glued to a quote opens as it did.
  lemma NotTriple(s: string, x: string)
    requires s != "" && s[0] == '\"' && !(TRIPLE <= s) && 1 + QuoteLen(s[1..], '\"') < |s|
    requires var t := s[..1 + QuoteLen(s[1..], '\"')]; t == "\"\"" ==> x == "" || x[0] != '\"'
    ensures !(TRIPLE <= s[..1 + QuoteLen(s[1..], '\"')] + x)
  {
    var n := 1 + QuoteLen(s[1..], '\"');
    var u := s[..n] + x;
    assert n >= 2 && u[1] == s[1];
    if n == 2 {
      assert s[..2] == [s[0], s[1]];
      if s[1] == '\"' && x != "" { assert u[2] == x[0]; }
    } else {
      assert s[1..][0] == s[1] != '\"';
    }
  }

  lemma CharLocal(s: string, x: string)
    requires s != "" && s[0] == '\'' && 1 + QuoteLen(s[1..], '\'') < |s|
    ensures var n := 1 + QuoteLen(s[1..], '\''); First(s[..n] + x) == Literal(Chr, s[..n])
  {
    QuotedLocal(s, x, '\'');
    FirstByHead(s[..1 + QuoteLen(s[1..], '\'')] + x);
  }

  lemma StringLocal(s: string, x: string)
    requires s != "" && s[0] == '\"' && !(TRIPLE <= s) && 1 + QuoteLen(s[1..], '\"') < |s|
    requires var t := s[..1 + QuoteLen(s[1..], '\"')]; t == "\"\"" ==> x == "" || x[0] != '\"'
    ensures var n := 1 + QuoteLen(s[1..], '\"'); First(s[..n] + x) == Literal(Str, s[..n])
  {
    NotTriple(s, x);
    QuotedLocal(s, x, '\"');
    FirstByHead(s[..1 + QuoteLen(s[1..], '\"')] + x);
  }

  lemma VerbatimLocal(s: string, x: string)
    requires TRIPLE <= s && 3 + VerbatimLen(s[3..]) < |s|
    ensures var n := 3 + VerbatimLen(s[3..]); First(s[..n] + x) == Literal(Verbatim, s[..n])
  {
    TripleLocal(s, x);
    var u := s[..3 + VerbatimLen(s[3..])] + x;
    assert u[0] == u[..3][0];
    FirstByHead(u);
  }

  // A literal is read the same whatever follows it, unless it is the empty string and a
  // quote follows.
  lemma LiteralLocal(s: string, x: string)
    requires s != "" && First(s).Literal? && Rest(s) != ""
    requires First(s) == EMPTY_STRING ==> x == "" || x[0] != '\"'
    ensures First(First(s).text + x) == First(s)
  {
    if TRIPLE <= s {
      VerbatimLocal(s, x);
    } else if s[0] == '\'' {
      CharLocal(s, x);
    } else {
      StringLocal(s, x);
    }
  }

  // ------------------------------------------------------------ what the rest renders to

  // The next thing to be rendered is a quoted literal.
  predicate QuoteNext(ts: seq<Token>) {
    ts != [] &&
    (ts[0].IsQuoted() || (ts[0].BlockComment? && Newlines(ts[0].text) == "" && QuoteNext(ts[1..])))
  }

  predicate StartsWith(s: string, c: char) {
    s != "" && s[0] == c
  }

  // The text behind a line comment starts with a newline, if there is any.
  lemma AfterLineComment(s: string)
    requires s != "" && First(s).LineComment?
    ensures Newlines(First(s).text) == ""
    ensures Rest(s) != "" ==> Rest(s)[0] == '\n' && First(Rest(s)) == Code('\n')
  {
    var n := LineLen(s);
    assert First(s).text == s[..n] && Rest(s) == s[n..];
    NoNewlines(s[..n]);
    if n < |s| { FirstByHead(s[n..]); }
  }

  lemma {:induction false} NoNewlines(s: string)
    requires forall i :: 0 <= i < |s| ==> s[i] != '\n'
    ensures Newlines(s) == ""
  {
    if s != "" { NoNewlines(s[1..]); }
  }

  lemma CommentStartsWith(text: string, x: string)
    ensures StartsWith(Newlines(text) + x, '\"') <==> Newlines(text) == "" && StartsWith(x, '\"')
  {
    var nl := Newlines(text);
    if nl == "" {
      assert nl + x == x;
    } else {
      assert nl[0] in nl;
    }
  }

  // One token and the rest.
  lemma LexUnfold(s: string)
    requires s != ""
    ensures Lex(s) != [] && Lex(s)[0] == First(s) && Lex(s)[1..] == Lex(Rest(s))
    ensures Render(Lex(s)) == First(s).Kept() + Render(Lex(Rest(s)))
  {
    assert Lex(s) == [First(s)] + Lex(Rest(s));
  }

  lemma LineCommentNoQuote(s: string)
    requires s != "" && First(s).LineComment?
    ensures !StartsWith(Render(Lex(s)), '\"')
  {
    var r := Rest(s);
    LexUnfold(s);
    AfterLineComment(s);
    assert "" + Render(Lex(r)) == Render(Lex(r));
    if r != "" {
      LexUnfold(r);
      assert First(r).Kept() == "\n";
    }
  }

  // What stands first in a token that is not a comment.
  lemma OpensWithQuote(s: string)
    requires s != "" && !First(s).IsComment()
    ensures First(s).Text() != "" && (First(s).Text()[0] == '\"' <==> First(s).IsQuoted())
  {
    FirstByHead(s);
    assert First(s).Text()[0] == s[0];
    if TRIPLE <= s { assert s[0] == s[..3][0] == TRIPLE[0]; }
  }

  lemma {:induction false} RenderStartsWithQuote(s: string)
    ensures StartsWith(Render(Lex(s)), '\"') <==> QuoteNext(Lex(s))
    decreases |s|
  {
    if s != "" {
      LexUnfold(s);
      if First(s).LineComment? {
        LineCommentNoQuote(s);
      } else if First(s).BlockComment? {
        RenderStartsWithQuote(Rest(s));
        CommentStartsWith(First(s).text, Render(Lex(Rest(s))));
      } else {
        OpensWithQuote(s);
      }
    }
  }

  // A token other than a comment renders to what it starts with.
  lemma RenderStartsLike(s: string)
    requires s != "" && !First(s).IsComment()
    ensures StartsWith(Render(Lex(s)), s[0])
  {
    assert Lex(s)[0] == First(s);
  }

  // ------------------------------------------------------------ gluing, recursively

  predicate GluedRec(ts: seq<Token>) {
    ts != [] && ((ts[0] == EMPTY_STRING && QuoteNext(ts[1..])) || GluedRec(ts[1..]))
  }

  lemma {:induction false} QuoteNextMeaning(ts: seq<Token>) returns (j: int)
    requires QuoteNext(ts)
    ensures 0 <= j < |ts| && ts[j].IsQuoted()
    ensures forall k :: 0 <= k < j ==> ts[k].BlockComment? && Newlines(ts[k].text) == ""
  {
    if ts[0].IsQuoted() {
      j := 0;
    } else {
      j := QuoteNextMeaning(ts[1..]);
      j := j + 1;
    }
  }

  lemma {:induction false} QuoteNextFrom(ts: seq<Token>, j: nat)
    requires j < |ts| && ts[j].IsQuoted()
    requires forall k :: 0 <= k < j ==> ts[k].BlockComment? && Newlines(ts[k].text) == ""
    ensures QuoteNext(ts)
  {
    if j > 0 { QuoteNextFrom(ts[1..], j - 1); }
  }

  lemma {:induction false} GluedRecMeaning(ts: seq<Token>)
    ensures GluedRec(ts) <==> Glued(ts)
  {
    if ts != [] {
      var us := ts[1..];
      GluedRecMeaning(us);
      if ts[0] == EMPTY_STRING && QuoteNext(us) {
        var j := QuoteNextMeaning(us);
        assert ts[j + 1] == us[j];
        assert forall k :: 0 < k < j + 1 ==> ts[k] == us[k - 1];
        assert GluedAt(ts, 0, j + 1);
      } else if Glued(us) {
        var i, j :| 0 <= i < j < |us| && GluedAt(us, i, j);
        assert forall k :: i + 1 <= k <= j + 1 ==> ts[k] == us[k - 1];
        assert GluedAt(ts, i + 1, j + 1);
      }
      if Glued(ts) && !GluedRec(us) {
        var i, j :| 0 <= i < j < |ts| && GluedAt(ts, i, j);
        assert forall k :: 0 <= k < |us| ==> us[k] == ts[k + 1];
        if i > 0 {
          assert GluedAt(us, i - 1, j - 1);
        } else {
          QuoteNextFrom(us, j - 1);
        }
      }
    }
  }

  // ------------------------------------------------------------ relexing

  // Lexing a token's text in front of something it does not combine with.
  lemma LexCons(t: Token, x: string)
    requires t.Text() != "" && First(t.Text() + x) == t
    ensures Lex(t.Text() + x) == [t] + Lex(x)
  {
    assert Rest(t.Text() + x) == x;
  }

  lemma LexNewline(u: string)
    requires u != "" && u[0] == '\n'
    ensures Lex(u) == [Code('\n')] + Lex(u[1..])
  {
    FirstByHead(u);
  }

  lemma {:induction false} LexNewlines(nl: string, x: string, u: string)
    requires u == nl + x && forall i :: 0 <= i < |nl| ==> nl[i] == '\n'
    ensures Lex(u) == Codes(nl) + Lex(x)
  {
    if nl == "" {
      assert u == x;
    } else {
      assert u[1..] == nl[1..] + x && u[0] == '\n';
      LexNewlines(nl[1..], x, u[1..]);
      LexNewline(u);
      Assoc([Code('\n')], Codes(nl[1..]), Lex(x));
    }
  }

  lemma CodeLocal(s: string)
    requires s != "" && First(s).Code?
    ensures var x := Render(Lex(Rest(s))); First([s[0]] + x) == First(s)
  {
    FirstByHead(s);
    var r := Rest(s);
    var u := [s[0]] + Render(Lex(r));
    FirstByHead(u);
    if s[0] == '/' && r != "" {
      assert s[1] == r[0];
      SlashThenNoComment(s);
      FirstByHead(r);
      RenderStartsLike(r);
      assert u[1] == r[0];
    }
  }

  lemma SlashThenNoComment(s: string)
    requires |s| > 1 && s[0] == '/' && First(s).Code?
    ensures s[1] != '/' && s[1] != '*'
  {
    var two := s[..2];
    assert two == [s[0], s[1]] && !("//" <= s) && !("/*" <= s);
    assert two != "//" && two != "/*";
  }

  // The empty string literal reads on into a quote that follows it.
  lemma GluedReadsOn(x: string)
    requires StartsWith(x, '\"')
    ensures Lex("\"\"" + x) != [] && Lex("\"\"" + x)[0].kind == Verbatim
  {
    var u := "\"\"" + x;
    assert u[..3] == TRIPLE;
    assert First(u).Literal?;
  }

  ghost predicate Survives(s: string) {
    Lex(Render(Lex(s))) == KeptTokens(Lex(s))
  }

  lemma CommentSurvives(s: string)
    requires s != "" && First(s).IsComment()
    ensures Survives(s) <==> Survives(Rest(s))
  {
    var nl, us := Newlines(First(s).text), Lex(Rest(s));
    assert Lex(s)[0] == First(s) && Lex(s)[1..] == us;
    assert forall i :: 0 <= i < |nl| ==> nl[i] in nl;
    LexNewlines(nl, Render(us), nl + Render(us));
    SamePrefix(Codes(nl), Lex(Render(us)), KeptTokens(us));
  }

  lemma TokenSurvives(s: string)
    requires s != "" && !First(s).IsComment()
    requires First(s) == EMPTY_STRING ==> !QuoteNext(Lex(Rest(s)))
    ensures Survives(s) <==> Survives(Rest(s))
  {
    var t, r := First(s), Rest(s);
    var us := Lex(r);
    var x := Render(us);
    assert Lex(s)[0] == t && Lex(s)[1..] == us;
    RenderStartsWithQuote(r);
    if t.Code? {
      CodeLocal(s);
    } else if r != "" {
      LiteralLocal(s, x);
    } else {
      assert t.Text() + x == s;
    }
    LexCons(t, x);
    SamePrefix([t], Lex(x), KeptTokens(us));
  }

  lemma GluedDoesNot(s: string)
    requires s != "" && First(s) == EMPTY_STRING && QuoteNext(Lex(Rest(s)))
    ensures !Survives(s)
  {
    var us := Lex(Rest(s));
    assert Lex(s)[0] == EMPTY_STRING && Lex(s)[1..] == us;
    RenderStartsWithQuote(Rest(s));
    GluedReadsOn(Render(us));
    assert KeptTokens(Lex(s))[0] == EMPTY_STRING;
  }

  // The stripped text reads as the original tokens minus comments if and only if nothing is glued.
  lemma {:induction false} TokensSurvive(s: string)
    ensures Survives(s) <==> !GluedRec(Lex(s))
    decreases |s|
  {
    if s != "" {
      TokensSurvive(Rest(s));
      assert Lex(s)[0] == First(s) && Lex(s)[1..] == Lex(Rest(s));
      if First(s).IsComment() {
        CommentSurvives(s);
      } else if First(s) == EMPTY_STRING && QuoteNext(Lex(Rest(s))) {
        GluedDoesNot(s);
      } else {
        TokenSurvives(s);
      }
    }
  }

  lemma SamePrefix<T>(p: seq<T>, a: seq<T>, b: seq<T>)
    ensures p + a == p + b <==> a == b
  {
    if p + a == p + b {
      assert a == (p + a)[|p|..] && b == (p + b)[|p|..];
    }
  }

  lemma {:induction false} RenderCodes(s: string)
    ensures Render(Codes(s)) == s
  {
    if s != "" { RenderCodes(s[1..]); }
  }

  lemma {:induction false} RenderConcat(ts: seq<Token>, us: seq<Token>)
    ensures Render(ts + us) == Render(ts) + Render(us)
  {
    if ts == [] {
      assert ts + us == us;
    } else {
      assert (ts + us)[0] == ts[0] && (ts + us)[1..] == ts[1..] + us;
      RenderConcat(ts[1..], us);
      Assoc(ts[0].Kept(), Render(ts[1..]), Render(us));
    }
  }

  // Nothing is left to strip among the kept tokens.
  lemma {:induction false} RenderKept(ts: seq<Token>)
    ensures Render(KeptTokens(ts)) == Render(ts)
  {
    if ts != [] {
      RenderKept(ts[1..]);
      if ts[0].IsComment() {
        var nl := Newlines(ts[0].text);
        RenderConcat(Codes(nl), KeptTokens(ts[1..]));
        RenderCodes(nl);
      } else {
        RenderConcat([ts[0]], KeptTokens(ts[1..]));
      }
    }
  }
}

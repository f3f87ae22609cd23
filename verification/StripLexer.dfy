// A token-level reference for the comment stripper: what the text consists of, and what
// stripping it means.
module StripLexer {
  import opened Wrappers

  datatype LiteralKind = Str | Chr | Verbatim

  datatype Token =
    | Code(c: char)
    | LineComment(text: string)
    | BlockComment(text: string)
    | Literal(kind: LiteralKind, text: string)
  {
    function Text(): string {
      if Code? then [c] else text
    }

    predicate IsComment() {
      LineComment? || BlockComment?
    }

    // What stripping leaves of the token: comments keep only their newlines.
    function Kept(): string {
      if IsComment() then Newlines(text) else Text()
    }

    predicate IsQuoted() {
      Literal? && kind != Chr
    }
  }

  const TRIPLE := "\"\"\""
  const EMPTY_STRING := Literal(Str, "\"\"")

  function Newlines(s: string): (r: string)
    ensures |r| <= |s| && forall c :: c in r ==> c == '\n'
  {
    if s == "" then "" else (if s[0] == '\n' then "\n" else "") + Newlines(s[1..])
  }

  // ------------------------------------------------------------ extents of tokens

  // Length of a line comment: everything before the newline.
  function LineLen(s: string): (n: nat)
    ensures n <= |s|
    ensures forall i :: 0 <= i < n ==> s[i] != '\n'
    ensures n < |s| ==> s[n] == '\n'
  {
    if s == "" || s[0] == '\n' then 0 else 1 + LineLen(s[1..])
  }

  // Length of the rest of a block comment, its closer included.
  function BlockLen(s: string): (n: nat)
    ensures n <= |s|
  {
    if s == "" then 0
    else if s[0] == '*' && |s| > 1 && s[1] == '/' then 2
    else 1 + BlockLen(s[1..])
  }

  // Length of the rest of a literal closed by `q`, where a backslash protects what follows it.
  function QuoteLen(s: string, q: char): (n: nat)
    ensures n <= |s|
    ensures s != "" ==> n >= 1
  {
    if s == "" then 0
    else if s[0] == '\\' && |s| > 1 then 2 + QuoteLen(s[2..], q)
    else if s[0] == q then 1
    else 1 + QuoteLen(s[1..], q)
  }

  function VerbatimLen(s: string): (n: nat)
    ensures n <= |s|
  {
    if s == "" then 0 else if TRIPLE <= s then 3 else 1 + VerbatimLen(s[1..])
  }

  function First(s: string): (t: Token)
    requires s != ""
    ensures t.Text() <= s && t.Text() != ""
  {
    if "//" <= s then LineComment(s[..LineLen(s)])
    else if "/*" <= s then BlockComment(s[..2 + BlockLen(s[2..])])
    else if TRIPLE <= s then Literal(Verbatim, s[..3 + VerbatimLen(s[3..])])
    else if s[0] == '\"' then Literal(Str, s[..1 + QuoteLen(s[1..], '\"')])
    else if s[0] == '\'' then Literal(Chr, s[..1 + QuoteLen(s[1..], '\'')])
    else Code(s[0])
  }

  function Rest(s: string): (r: string)
    requires s != ""
    ensures |r| < |s| && s == First(s).Text() + r
  {
    s[|First(s).Text()|..]
  }

  function Lex(s: string): seq<Token>
    decreases |s|
  {
    if s == "" then [] else [First(s)] + Lex(Rest(s))
  }

  function Texts(ts: seq<Token>): string {
    if ts == [] then "" else ts[0].Text() + Texts(ts[1..])
  }

  // The stripped text.
  function Render(ts: seq<Token>): string {
    if ts == [] then "" else ts[0].Kept() + Render(ts[1..])
  }

  // The tokens one would like to see in the stripped text.
  function Codes(s: string): seq<Token> {
    if s == "" then [] else [Code(s[0])] + Codes(s[1..])
  }

  function KeptTokens(ts: seq<Token>): seq<Token> {
    if ts == [] then []
    else (if ts[0].IsComment() then Codes(Newlines(ts[0].text)) else [ts[0]]) + KeptTokens(ts[1..])
  }

  // An empty string literal separated from a following quote only by block comments
  // without a newline: stripping glues the three quotes together.
  ghost predicate Glued(ts: seq<Token>) {
    exists i, j :: 0 <= i < j < |ts| && GluedAt(ts, i, j)
  }

  ghost predicate GluedAt(ts: seq<Token>, i: int, j: int)
    requires 0 <= i < j < |ts|
  {
    && ts[i] == EMPTY_STRING && ts[j].IsQuoted()
    && forall k :: i < k < j ==> ts[k].BlockComment? && Newlines(ts[k].text) == ""
  }

  // ------------------------------------------------------------ what the tokens are

  // How many backslashes stand directly before position `i`.
  function Backslashes(s: string, i: nat): (n: nat)
    requires i <= |s|
  {
    if i > 0 && s[i - 1] == '\\' then 1 + Backslashes(s, i - 1) else 0
  }

  // An odd number of backslashes stands before position `i`.
  ghost predicate Escaped(s: string, i: nat) {
    i <= |s| && Backslashes(s, i) % 2 == 1
  }

  // Where no escape is open the text can be cut.
  lemma {:induction false} BackslashesCut(s: string, k: nat, i: nat)
    requires k <= i <= |s| && !Escaped(s, k)
    ensures Escaped(s, i) <==> Escaped(s[k..], i - k)
    decreases i
  {
    if i > k && s[i - 1] == '\\' {
      BackslashesCut(s, k, i - 1);
    }
  }

  // Every quote before the last character is escaped, and a literal that ends before the text
  // does ends at a quote that is not.
  ghost predicate EndsAtQuote(s: string, q: char, n: nat) {
    && (forall i :: 0 <= i < n - 1 && i < |s| && s[i] == q ==> Escaped(s, i))
    && (n < |s| ==> n >= 1 && s[n - 1] == q && !Escaped(s, n - 1))
  }

  lemma EndsLater(s: string, q: char, k: nat, n: nat)
    requires k <= n <= |s| && !Escaped(s, k) && EndsAtQuote(s[k..], q, n - k)
    requires n == k ==> n == |s|
    requires forall i :: 0 <= i < k && s[i] == q ==> Escaped(s, i)
    ensures EndsAtQuote(s, q, n)
  {
    forall i | 0 <= i < n - 1 && s[i] == q ensures Escaped(s, i) {
      if i >= k {
        BackslashesCut(s, k, i);
        assert s[k..][i - k] == q;
      }
    }
    if n < |s| { BackslashesCut(s, k, n - 1); }
  }

  lemma {:induction false} QuoteLenMeaning(s: string, q: char)
    requires q != '\\'
    ensures EndsAtQuote(s, q, QuoteLen(s, q))
  {
    if s == "" {
    } else if s[0] == '\\' && |s| > 1 {
      QuoteLenMeaning(s[2..], q);
      assert Escaped(s, 1) && !Escaped(s, 2) by { assert Backslashes(s, 1) == 1; }
      EndsLater(s, q, 2, QuoteLen(s, q));
    } else if s[0] != q && |s| > 1 {
      QuoteLenMeaning(s[1..], q);
      EndsLater(s, q, 1, QuoteLen(s, q));
    }
  }

  predicate ClosesAt(s: string, i: int) {
    0 <= i < |s| - 1 && s[i] == '*' && s[i + 1] == '/'
  }

  // A block comment ends with the first closer.
  lemma {:induction false} BlockLenMeaning(s: string)
    ensures var n := BlockLen(s);
      && (forall i :: i < n - 2 ==> !ClosesAt(s, i))
      && (n < |s| ==> ClosesAt(s, n - 2))
  {
    if s != "" && !ClosesAt(s, 0) {
      BlockLenMeaning(s[1..]);
      assert forall i :: i > 0 ==> (ClosesAt(s, i) <==> ClosesAt(s[1..], i - 1));
    }
  }

  predicate TripleAt(s: string, i: int) {
    0 <= i < |s| - 2 && s[i] == '\"' && s[i + 1] == '\"' && s[i + 2] == '\"'
  }

  lemma TripleByHead(s: string)
    ensures TRIPLE <= s <==> TripleAt(s, 0)
  {
    if |s| >= 3 { assert s[..3] == [s[0], s[1], s[2]]; }
  }

  // A triple-quoted literal ends with the first three quotes in a row.
  lemma {:induction false} VerbatimLenMeaning(s: string)
    ensures var n := VerbatimLen(s);
      && (forall i :: i < n - 3 ==> !TripleAt(s, i))
      && (n < |s| ==> TripleAt(s, n - 3))
  {
    TripleByHead(s);
    if s != "" && !TripleAt(s, 0) {
      VerbatimLenMeaning(s[1..]);
      assert forall i :: i > 0 ==> (TripleAt(s, i) <==> TripleAt(s[1..], i - 1));
    }
  }

  predicate PairAt(s: string, a: char, b: char) {
    |s| > 1 && s[0] == a && s[1] == b
  }

  lemma PairByHead(s: string)
    ensures "//" <= s <==> PairAt(s, '/', '/')
    ensures "/*" <= s <==> PairAt(s, '/', '*')
  {
    if |s| > 1 { assert s[..2] == [s[0], s[1]]; }
  }

  // Which token comes first, and where it ends, character by character.
  lemma FirstMeaning(s: string)
    requires s != ""
    ensures var t := First(s);
      && (t.LineComment? <==> PairAt(s, '/', '/'))
      && (t.BlockComment? <==> PairAt(s, '/', '*'))
      && (t.Literal? && t.kind == Verbatim <==> TripleAt(s, 0))
      && (t.Literal? && t.kind == Str <==> s[0] == '\"' && !TripleAt(s, 0))
      && (t.Literal? && t.kind == Chr <==> s[0] == '\'')
      && (t.Code? ==> t.c == s[0])
    ensures var t := First(s); var n := |t.Text()|; t.Text() == s[..n]
    ensures var t := First(s); var n := |t.Text()|;
      && (t.LineComment? ==> (forall i :: 0 <= i < n ==> s[i] != '\n') && (n < |s| ==> s[n] == '\n'))
      && (t.BlockComment? ==>
            n >= 2 && (forall i :: i < n - 4 ==> !ClosesAt(s[2..], i)) && (n < |s| ==> ClosesAt(s[2..], n - 4)))
      && (t.Literal? && t.kind == Verbatim ==>
            n >= 3 && (forall i :: i < n - 6 ==> !TripleAt(s[3..], i)) && (n < |s| ==> TripleAt(s[3..], n - 6)))
      && (t.Literal? && t.kind != Verbatim ==> n >= 1 && EndsAtQuote(s[1..], s[0], n - 1))
  {
    PairByHead(s);
    TripleByHead(s);
    if PairAt(s, '/', '/') {
    } else if PairAt(s, '/', '*') {
      BlockLenMeaning(s[2..]);
    } else if TripleAt(s, 0) {
      VerbatimLenMeaning(s[3..]);
    } else if s[0] == '\"' || s[0] == '\'' {
      QuoteLenMeaning(s[1..], s[0]);
    }
  }

  // ------------------------------------------------------------ elementary facts

  lemma {:induction false} LexCoversText(s: string)
    ensures Texts(Lex(s)) == s
    decreases |s|
  {
    if s != "" {
      LexCoversText(Rest(s));
    }
  }

  lemma {:induction false} NewlinesConcat(a: string, b: string)
    ensures Newlines(a + b) == Newlines(a) + Newlines(b)
  {
    if a == "" {
      assert a + b == b;
    } else {
      assert (a + b)[1..] == a[1..] + b;
      NewlinesConcat(a[1..], b);
      Assoc(if a[0] == '\n' then "\n" else "", Newlines(a[1..]), Newlines(b));
    }
  }

  lemma {:induction false} NewlinesOfNewlines(s: string)
    ensures Newlines(Newlines(s)) == Newlines(s)
  {
    if s != "" {
      NewlinesOfNewlines(s[1..]);
      NewlinesConcat(if s[0] == '\n' then "\n" else "", Newlines(s[1..]));
    }
  }

  // Up to any token, the stripped text has exactly the newlines of the original: line
  // numbers are preserved.
  lemma {:induction false} LineNumbersPreserved(ts: seq<Token>, i: nat)
    requires i <= |ts|
    ensures Newlines(Render(ts[..i])) == Newlines(Texts(ts[..i]))
    decreases i
  {
    if i > 0 {
      var us := ts[..i];
      assert us[1..] == ts[1..][..i - 1];
      LineNumbersPreserved(ts[1..], i - 1);
      NewlinesConcat(us[0].Kept(), Render(us[1..]));
      NewlinesConcat(us[0].Text(), Texts(us[1..]));
      if us[0].IsComment() { NewlinesOfNewlines(us[0].text); }
    }
  }

  ghost predicate Subsequence(a: string, b: string) {
    if a == "" then true
    else if b == "" then false
    else (a[0] == b[0] && Subsequence(a[1..], b[1..])) || Subsequence(a, b[1..])
  }

  lemma {:induction false} SubsequenceConcat(a: string, a': string, b: string, b': string)
    requires Subsequence(a, a') && Subsequence(b, b')
    ensures Subsequence(a + b, a' + b')
    decreases |a'|
  {
    if a' == "" {
      assert a + b == b && a' + b' == b';
    } else {
      assert (a' + b')[1..] == a'[1..] + b';
      if a != "" && a[0] == a'[0] && Subsequence(a[1..], a'[1..]) {
        SubsequenceConcat(a[1..], a'[1..], b, b');
        assert (a + b)[1..] == a[1..] + b;
      } else {
        SubsequenceConcat(a, a'[1..], b, b');
      }
    }
  }

  lemma {:induction false} SubsequenceSelf(a: string)
    ensures Subsequence(a, a)
  {
    if a != "" { SubsequenceSelf(a[1..]); }
  }

  lemma {:induction false} NewlinesSubsequence(a: string)
    ensures Subsequence(Newlines(a), a)
  {
    if a != "" {
      NewlinesSubsequence(a[1..]);
      if a[0] == '\n' { assert Newlines(a)[1..] == Newlines(a[1..]); } else { assert Newlines(a) == Newlines(a[1..]); }
    }
  }

  lemma {:induction false} RenderSubsequence(ts: seq<Token>)
    ensures Subsequence(Render(ts), Texts(ts))
  {
    if ts != [] {
      RenderSubsequence(ts[1..]);
      if ts[0].IsComment() { NewlinesSubsequence(ts[0].text); } else { SubsequenceSelf(ts[0].Text()); }
      SubsequenceConcat(ts[0].Kept(), ts[0].Text(), Render(ts[1..]), Texts(ts[1..]));
    }
  }
}

// Character and string helpers shared by the modules of this project: ASCII case folding and
// white space trimming.
module Text {
  function LowerChar(c: char): char {
    if 'A' <= c <= 'Z' then c - 'A' + 'a' else c
  }

  function Lower(s: string): (r: string)
    ensures |r| == |s|
  {
    if s == "" then "" else [LowerChar(s[0])] + Lower(s[1..])
  }

  predicate IsBlank(c: char) {
    c == ' ' || c == '\t'
  }

  // ASCII white space.
  predicate IsSpace(c: char) {
    IsBlank(c) || c == '\n' || c == '\r' || c as int == 12
  }

  function TrimLeft(s: string, space: char -> bool): string {
    if s != "" && space(s[0]) then TrimLeft(s[1..], space) else s
  }

  function TrimRight(s: string, space: char -> bool): string {
    if s != "" && space(s[|s| - 1]) then TrimRight(s[..|s| - 1], space) else s
  }

  function Trim(s: string, space: char -> bool): string {
    TrimRight(TrimLeft(s, space), space)
  }

  function Stripped(s: string): string {
    Trim(s, IsSpace)
  }

  lemma {:induction false} TrimLeftBlank(s: string, space: char -> bool)
    ensures var r := TrimLeft(s, space);
      && (r == "" ==> forall i :: 0 <= i < |s| ==> space(s[i]))
      && (r != "" ==> !space(r[0]))
      && |r| <= |s| && r == s[|s| - |r|..]
      && forall i :: 0 <= i < |s| - |r| ==> space(s[i])
  {
    if s != "" && space(s[0]) { TrimLeftBlank(s[1..], space); }
  }

  lemma {:induction false} TrimRightBlank(s: string, space: char -> bool)
    ensures var r := TrimRight(s, space);
      && r <= s && (r != "" ==> !space(r[|r| - 1]))
      && forall i :: |r| <= i < |s| ==> space(s[i])
    decreases |s|
  {
    if s != "" && space(s[|s| - 1]) { TrimRightBlank(s[..|s| - 1], space); }
  }

  lemma AllSpaceTrims(s: string, space: char -> bool)
    ensures Trim(s, space) == "" <==> forall i :: 0 <= i < |s| ==> space(s[i])
  {
    TrimLeftBlank(s, space);
    var r := TrimLeft(s, space);
    TrimRightBlank(r, space);
    assert r != "" ==> !space(r[0]);
  }

  ghost predicate AllSpace(s: string, space: char -> bool) {
    forall i :: 0 <= i < |s| ==> space(s[i])
  }

  lemma {:induction false} TrimLeftPast(a: string, s: string, space: char -> bool)
    requires AllSpace(a, space)
    ensures TrimLeft(a + s, space) == TrimLeft(s, space)
  {
    if a == "" {
      assert a + s == s;
    } else {
      assert (a + s)[1..] == a[1..] + s;
      TrimLeftPast(a[1..], s, space);
    }
  }

  lemma {:induction false} TrimRightPast(s: string, b: string, space: char -> bool)
    requires AllSpace(b, space)
    ensures TrimRight(s + b, space) == TrimRight(s, space)
    decreases |b|
  {
    if b == "" {
      assert s + b == s;
    } else {
      var n := |b| - 1;
      assert (s + b)[..|s + b| - 1] == s + b[..n];
      TrimRightPast(s, b[..n], space);
    }
  }

  // Trimming takes off exactly the white space around a word.
  lemma TrimMeaning(a: string, word: string, b: string, space: char -> bool)
    requires AllSpace(a, space) && AllSpace(b, space)
    requires word != "" ==> !space(word[0]) && !space(word[|word| - 1])
    ensures Trim(a + word + b, space) == word
  {
    if word == "" {
      assert AllSpace(a + word + b, space);
      AllSpaceTrims(a + word + b, space);
    } else {
      assert a + word + b == a + (word + b);
      TrimLeftPast(a, word + b, space);
      assert (word + b)[0] == word[0];
      TrimRightPast(word, b, space);
    }
  }

  // What trimming takes off.
  lemma TrimParts(s: string, space: char -> bool) returns (before: string, after: string)
    ensures AllSpace(before, space) && AllSpace(after, space) && s == before + Trim(s, space) + after
    ensures var word := Trim(s, space); word != "" ==> !space(word[0]) && !space(word[|word| - 1])
  {
    TrimLeftBlank(s, space);
    var l := TrimLeft(s, space);
    TrimRightBlank(l, space);
    var word := TrimRight(l, space);
    before, after := s[..|s| - |l|], l[|word|..];
    assert s == before + l && l == word + after;
  }

  // So white space around a text makes no difference.
  lemma TrimAround(a: string, s: string, b: string, space: char -> bool)
    requires AllSpace(a, space) && AllSpace(b, space)
    ensures Trim(a + s + b, space) == Trim(s, space)
  {
    var before, after := TrimParts(s, space);
    var word := Trim(s, space);
    assert a + s + b == (a + before) + word + (after + b);
    TrimMeaning(a + before, word, after + b, space);
  }
}

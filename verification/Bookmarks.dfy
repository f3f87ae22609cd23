// The explorer's bookmark file: one line per bookmark, a file URI and optionally a name.
module Bookmarks {
  import opened Text

  datatype Bookmark = Bookmark(uri: string, name: string)

  const SCHEME := "file://"

  // The text starts with the scheme, character by character.
  predicate IsFile(s: string) {
    && |s| >= 7 && s[0] == 'f' && s[1] == 'i' && s[2] == 'l' && s[3] == 'e'
    && s[4] == ':' && s[5] == '/' && s[6] == '/'
  }

  lemma IsFileMeaning(s: string)
    ensures IsFile(s) <==> SCHEME <= s
  {
    if |s| >= 7 {
      var p := s[..7];
      assert p == [s[0], s[1], s[2], s[3], s[4], s[5], s[6]];
      assert SCHEME <= s <==> p == SCHEME;
    }
  }

  // The name shown for a URI that has none: an input of the model.
  type Namer = string -> string

  // ------------------------------------------------------------ writing

  function NewlinesToSpaces(s: string): (r: string)
    ensures |r| == |s|
    ensures forall i :: 0 <= i < |s| ==> r[i] == if s[i] == '\n' then ' ' else s[i]
  {
    if s == "" then "" else [if s[0] == '\n' then ' ' else s[0]] + NewlinesToSpaces(s[1..])
  }

  function Clean(name: string): string {
    Stripped(NewlinesToSpaces(name))
  }

  function Line(b: Bookmark): string {
    b.uri + if Clean(b.name) != "" then " " + Clean(b.name) else ""
  }

  function Written(bs: seq<Bookmark>): string {
    if bs == [] then ""
    else (if IsFile(bs[0].uri) then Line(bs[0]) + "\n" else "") + Written(bs[1..])
  }

  // ------------------------------------------------------------ reading

  function Lines(text: string): (ls: seq<string>)
    ensures ls != []
  {
    if text == "" then [""]
    else if text[0] == '\n' then [""] + Lines(text[1..])
    else
      var rest := Lines(text[1..]);
      [[text[0]] + rest[0]] + rest[1..]
  }

  // Position of the first space, or the length.
  function SpaceAt(s: string): (n: nat)
    ensures n <= |s| && (n < |s| ==> s[n] == ' ')
    ensures forall i :: 0 <= i < n ==> s[i] != ' '
  {
    if s == "" || s[0] == ' ' then 0 else 1 + SpaceAt(s[1..])
  }

  function ReadLine(line: string, namer: Namer): seq<Bookmark> {
    ReadTrimmed(Stripped(line), namer)
  }

  function ReadTrimmed(trimmed: string, namer: Namer): seq<Bookmark> {
    if !IsFile(trimmed) then []
    else
      var n := SpaceAt(trimmed);
      var uri := trimmed[..n];
      var name := if n < |trimmed| then Stripped(trimmed[n + 1..]) else "";
      [Bookmark(uri, if name == "" then namer(uri) else name)]
  }

  function ReadLines(ls: seq<string>, namer: Namer): seq<Bookmark> {
    if ls == [] then [] else ReadLine(ls[0], namer) + ReadLines(ls[1..], namer)
  }

  function Read(text: string, namer: Namer): seq<Bookmark> {
    ReadLines(Lines(text), namer)
  }

  // ------------------------------------------------------------ lines and text

  lemma {:induction false} LinesSplit(line: string, rest: string, text: string)
    requires text == line + "\n" + rest && forall i :: 0 <= i < |line| ==> line[i] != '\n'
    ensures Lines(text) == [line] + Lines(rest)
  {
    if line == "" {
      assert text[1..] == rest;
    } else {
      assert text[1..] == line[1..] + "\n" + rest;
      LinesSplit(line[1..], rest, text[1..]);
      assert [text[0]] + line[1..] == line;
    }
  }

  lemma ReadCons(line: string, rest: string, namer: Namer)
    requires OneLine(line)
    ensures Read(line + "\n" + rest, namer) == ReadLine(line, namer) + Read(rest, namer)
  {
    LinesSplit(line, rest, line + "\n" + rest);
    assert ([line] + Lines(rest))[1..] == Lines(rest);
  }

  lemma ReadNothing(namer: Namer)
    ensures Read("", namer) == []
  {
    var ls := Lines("");
    assert ls[1..] == [] && Stripped("") == "" && ReadLine(ls[0], namer) == [];
  }

  lemma {:induction false} ReadWritten(bs: seq<Bookmark>, namer: Namer)
    requires forall i :: 0 <= i < |bs| ==> OneLine(bs[i].uri)
    ensures Read(Written(bs), namer) == Reread(bs, namer)
  {
    if bs == [] {
      ReadNothing(namer);
    } else {
      ReadWritten(bs[1..], namer);
      if IsFile(bs[0].uri) {
        LineIsOne(bs[0]);
        ReadCons(Line(bs[0]), Written(bs[1..]), namer);
      } else {
        assert "" + Written(bs[1..]) == Written(bs[1..]);
      }
    }
  }

  // What reading makes of the lines written.
  function Reread(bs: seq<Bookmark>, namer: Namer): seq<Bookmark> {
    if bs == [] then []
    else (if IsFile(bs[0].uri) then ReadLine(Line(bs[0]), namer) else []) + Reread(bs[1..], namer)
  }

  ghost predicate OneLine(s: string) {
    forall i :: 0 <= i < |s| ==> s[i] != '\n'
  }

  ghost predicate Spaceless(s: string) {
    forall i :: 0 <= i < |s| ==> s[i] != ' ' && s[i] != '\n'
  }

  // ------------------------------------------------------------ stripping

  lemma StripFacts(s: string)
    ensures var r := Stripped(s);
      && (r != "" ==> !IsSpace(r[0]) && !IsSpace(r[|r| - 1]))
      && forall c :: c in r ==> c in s
  {
    TrimLeftBlank(s, IsSpace);
    var l := TrimLeft(s, IsSpace);
    TrimRightBlank(l, IsSpace);
    var r := TrimRight(l, IsSpace);
    assert r == l[..|r|];
    forall c | c in r ensures c in s {
      var i :| 0 <= i < |r| && r[i] == c;
      assert l[i] == c && c in l;
    }
  }

  lemma StripKeeps(s: string)
    requires s != "" ==> !IsSpace(s[0]) && !IsSpace(s[|s| - 1])
    ensures Stripped(s) == s
  {}

  // A clean name has no newline and no outer white space; cleaning it again changes nothing.
  lemma CleanFacts(name: string)
    ensures OneLine(Clean(name)) && Stripped(Clean(name)) == Clean(name) && Clean(Clean(name)) == Clean(name)
  {
    var t := NewlinesToSpaces(name);
    var r := Clean(name);
    StripFacts(t);
    assert forall i :: 0 <= i < |r| ==> r[i] in r;
    StripKeeps(r);
    assert NewlinesToSpaces(r) == r;
  }

  lemma LineIsOne(b: Bookmark)
    requires OneLine(b.uri)
    ensures OneLine(Line(b))
  {
    CleanFacts(b.name);
  }

  // ------------------------------------------------------------ one bookmark

  // A URI as bookmarks hold them; its last character matters only when no name follows.
  ghost predicate Readable(b: Bookmark) {
    && IsFile(b.uri) && Spaceless(b.uri)
    && (Clean(b.name) == "" ==> !IsSpace(b.uri[|b.uri| - 1]))
  }

  lemma {:induction false} SpaceAfter(uri: string, tail: string, s: string)
    requires s == uri + tail && (tail == "" || tail[0] == ' ') && Spaceless(uri)
    ensures SpaceAt(s) == |uri|
  {
    if uri != "" {
      SpaceAfter(uri[1..], tail, s[1..]);
    }
  }

  // Reading a written line gives the URI back, and the cleaned name if there is one left.
  lemma ReadWrittenLine(b: Bookmark, namer: Namer)
    requires Readable(b)
    ensures ReadLine(Line(b), namer) == [Bookmark(b.uri, if Clean(b.name) != "" then Clean(b.name) else namer(b.uri))]
  {
    var n := Clean(b.name);
    var line := Line(b);
    CleanFacts(b.name);
    StripFacts(NewlinesToSpaces(b.name));
    assert line[0] == b.uri[0] == 'f';
    if n != "" {
      assert line[|line| - 1] == n[|n| - 1];
    }
    StripKeeps(line);
    ReadParts(b.uri, n, line, namer);
  }

  lemma ReadParts(uri: string, n: string, line: string, namer: Namer)
    requires IsFile(uri) && Spaceless(uri) && line == uri + if n != "" then " " + n else ""
    requires Stripped(n) == n
    ensures ReadTrimmed(line, namer) == [Bookmark(uri, if n != "" then n else namer(uri))]
  {
    SpaceAfter(uri, if n != "" then " " + n else "", line);
    assert forall i :: 0 <= i < |uri| ==> line[i] == uri[i];
    assert line[..|uri|] == uri && (n != "" ==> line[|uri| + 1..] == n);
    SplitLine(uri, n, line, namer);
  }

  lemma SplitLine(uri: string, n: string, line: string, namer: Namer)
    requires IsFile(line) && SpaceAt(line) == |uri| && line[..|uri|] == uri
    requires if |uri| < |line| then line[|uri| + 1..] == n && n != "" else n == ""
    requires Stripped(n) == n
    ensures ReadTrimmed(line, namer) == [Bookmark(uri, if n != "" then n else namer(uri))]
  {
    var name := if |uri| < |line| then Stripped(line[|uri| + 1..]) else "";
    assert name == n;
    assert ReadTrimmed(line, namer) == [Bookmark(uri, if name == "" then namer(uri) else name)];
  }

  // The URI part of a stripped line, and the name part if there is one.
  lemma UriPart(trimmed: string, n: nat)
    requires IsFile(trimmed) && OneLine(trimmed) && n == SpaceAt(trimmed)
    ensures IsFile(trimmed[..n]) && Spaceless(trimmed[..n])
    ensures n == |trimmed| ==> trimmed[..n] == trimmed
  {
    SpaceBeyondScheme(trimmed);
    assert forall i :: 0 <= i < n ==> trimmed[..n][i] == trimmed[i];
    SpacelessPrefix(trimmed, n);
  }

  lemma SpacelessPrefix(s: string, n: nat)
    requires OneLine(s) && n == SpaceAt(s)
    ensures Spaceless(s[..n])
  {
    forall i | 0 <= i < n ensures s[..n][i] != ' ' && s[..n][i] != '\n' {
      assert s[..n][i] == s[i];
    }
  }

  lemma NamePart(trimmed: string, n: nat)
    requires n + 1 < |trimmed| && !IsSpace(trimmed[|trimmed| - 1]) && OneLine(trimmed)
    ensures var name := Stripped(trimmed[n + 1..]); name != "" && Clean(name) == name
  {
    var rest := trimmed[n + 1..];
    assert rest != "" && rest[|rest| - 1] == trimmed[|trimmed| - 1];
    NotAllSpace(rest);
    ExplicitName(rest);
  }

  lemma SpaceBeyondScheme(s: string)
    requires IsFile(s)
    ensures SpaceAt(s) >= 7
  {
    var n := SpaceAt(s);
    assert n < |s| ==> s[n] == ' ';
  }

  // A name is either one the file gave, stripped and on one line, or the default.
  ghost predicate ExplicitOrDefault(b: Bookmark, namer: Namer) {
    (b.name != "" && Clean(b.name) == b.name) || b.name == namer(b.uri)
  }

  // A stripped line with a name part, and one without.
  lemma NamedLine(trimmed: string, n: nat, namer: Namer)
    requires IsFile(trimmed) && OneLine(trimmed) && !IsSpace(trimmed[|trimmed| - 1])
    requires n == SpaceAt(trimmed) < |trimmed|
    ensures var b := Bookmark(trimmed[..n], Stripped(trimmed[n + 1..]));
      ReadTrimmed(trimmed, namer) == [b] && b.name != "" && Clean(b.name) == b.name && Readable(b)
  {
    UriPart(trimmed, n);
    NamePart(trimmed, n);
    ReadableNamed(Bookmark(trimmed[..n], Stripped(trimmed[n + 1..])));
  }

  lemma ReadableNamed(b: Bookmark)
    requires IsFile(b.uri) && Spaceless(b.uri) && Clean(b.name) != ""
    ensures Readable(b)
  {}

  lemma BareLine(trimmed: string, namer: Namer)
    requires IsFile(trimmed) && OneLine(trimmed) && !IsSpace(trimmed[|trimmed| - 1])
    requires SpaceAt(trimmed) == |trimmed|
    ensures var b := Bookmark(trimmed, namer(trimmed));
      ReadTrimmed(trimmed, namer) == [b] && Readable(b)
  {
    UriPart(trimmed, |trimmed|);
    ReadableBare(Bookmark(trimmed, namer(trimmed)));
  }

  lemma ReadableBare(b: Bookmark)
    requires IsFile(b.uri) && Spaceless(b.uri) && !IsSpace(b.uri[|b.uri| - 1])
    ensures Readable(b)
  {}

  lemma StrippedLine(line: string)
    requires OneLine(line)
    ensures OneLine(Stripped(line)) && (Stripped(line) != "" ==> !IsSpace(Stripped(line)[|Stripped(line)| - 1]))
  {
    var trimmed := Stripped(line);
    StripFacts(line);
    forall i | 0 <= i < |trimmed| ensures trimmed[i] != '\n' { assert trimmed[i] in trimmed; }
  }

  // The line gives a name of its own.
  predicate HasName(line: string) {
    var trimmed := Stripped(line);
    IsFile(trimmed) && SpaceAt(trimmed) < |trimmed|
  }

  // A bookmark that reading has produced is readable again; a name the line gave is clean.
  lemma ReadIsReadable(line: string, namer: Namer)
    requires OneLine(line)
    ensures forall b :: b in ReadLine(line, namer) ==> Readable(b) && ExplicitOrDefault(b, namer)
    ensures HasName(line) ==> forall b :: b in ReadLine(line, namer) ==> b.name != "" && Clean(b.name) == b.name
  {
    var trimmed := Stripped(line);
    StrippedLine(line);
    if IsFile(trimmed) {
      var n := SpaceAt(trimmed);
      if n < |trimmed| { NamedLine(trimmed, n, namer); } else { BareLine(trimmed, namer); }
    }
  }

  // White space around a line, such as a carriage return, makes no difference to it.
  lemma OuterSpaceIsIgnored(a: string, line: string, b: string, namer: Namer)
    requires AllSpace(a, IsSpace) && AllSpace(b, IsSpace)
    ensures ReadLine(a + line + b, namer) == ReadLine(line, namer)
  {
    TrimAround(a, line, b, IsSpace);
  }

  lemma NotAllSpace(s: string)
    requires s != "" && !IsSpace(s[|s| - 1])
    ensures Stripped(s) != ""
  {
    AllSpaceTrims(s, IsSpace);
  }

  // A name read from the file is written again as it is.
  lemma ExplicitName(rest: string)
    requires Stripped(rest) != "" && OneLine(rest)
    ensures Clean(Stripped(rest)) == Stripped(rest)
  {
    var n := Stripped(rest);
    StripFacts(rest);
    forall i | 0 <= i < |n| ensures n[i] != '\n' { assert n[i] in n; }
    assert NewlinesToSpaces(n) == n;
    StripKeeps(n);
  }

  // ------------------------------------------------------------ whole files

  ghost predicate AllReadable(bs: seq<Bookmark>) {
    forall i :: 0 <= i < |bs| ==> Readable(bs[i])
  }

  // What one write and read does to a bookmark.
  function Settle(b: Bookmark, namer: Namer): Bookmark {
    Bookmark(b.uri, if Clean(b.name) != "" then Clean(b.name) else namer(b.uri))
  }

  function SettleAll(bs: seq<Bookmark>, namer: Namer): (r: seq<Bookmark>)
    ensures |r| == |bs| && forall i :: 0 <= i < |bs| ==> r[i] == Settle(bs[i], namer)
  {
    if bs == [] then []
    else
      var (b, rest) := (Settle(bs[0], namer), SettleAll(bs[1..], namer));
      assert forall i :: 0 < i < |bs| ==> ([b] + rest)[i] == rest[i - 1] && bs[1..][i - 1] == bs[i];
      [b] + rest
  }

  lemma {:induction false} RereadSettles(bs: seq<Bookmark>, namer: Namer)
    requires AllReadable(bs)
    ensures Reread(bs, namer) == SettleAll(bs, namer)
  {
    if bs != [] {
      RereadSettles(bs[1..], namer);
      ReadWrittenLine(bs[0], namer);
    }
  }

  lemma WriteThenRead(bs: seq<Bookmark>, namer: Namer)
    requires AllReadable(bs)
    ensures Read(Written(bs), namer) == SettleAll(bs, namer)
  {
    ReadWritten(bs, namer);
    RereadSettles(bs, namer);
  }

  // The name is clean, or nothing is left of it and it is the default one.
  ghost predicate IsSettled(b: Bookmark, namer: Namer) {
    b.name == if Clean(b.name) != "" then Clean(b.name) else namer(b.uri)
  }

  lemma SettledIsFixed(b: Bookmark, namer: Namer)
    ensures Settle(b, namer) == b <==> IsSettled(b, namer)
  {}

  // Reading undoes writing if and only if every name is either clean or the default one.
  lemma ReadUndoesWriteIffSettled(bs: seq<Bookmark>, namer: Namer)
    requires AllReadable(bs)
    ensures Read(Written(bs), namer) == bs <==> forall i :: 0 <= i < |bs| ==> IsSettled(bs[i], namer)
  {
    WriteThenRead(bs, namer);
    AllSettledIsFixed(bs, namer);
  }

  lemma AllSettledIsFixed(bs: seq<Bookmark>, namer: Namer)
    ensures SettleAll(bs, namer) == bs <==> forall i :: 0 <= i < |bs| ==> IsSettled(bs[i], namer)
  {
    var r := SettleAll(bs, namer);
    forall i | 0 <= i < |bs| ensures r[i] == bs[i] <==> IsSettled(bs[i], namer) {
      SettledIsFixed(bs[i], namer);
    }
  }

  // In particular for explicit, stripped, one-line names.
  lemma ReadUndoesWrite(bs: seq<Bookmark>, namer: Namer)
    requires forall i :: 0 <= i < |bs| ==>
      && IsFile(bs[i].uri) && Spaceless(bs[i].uri)
      && bs[i].name != "" && Stripped(bs[i].name) == bs[i].name && OneLine(bs[i].name)
    ensures Read(Written(bs), namer) == bs
  {
    forall i | 0 <= i < |bs| ensures Clean(bs[i].name) == bs[i].name {
      assert NewlinesToSpaces(bs[i].name) == bs[i].name;
    }
    ReadUndoesWriteIffSettled(bs, namer);
  }

  lemma {:induction false} LinesAreOneLine(text: string)
    ensures forall i :: 0 <= i < |Lines(text)| ==> OneLine(Lines(text)[i])
  {
    if text != "" { LinesAreOneLine(text[1..]); }
  }

  lemma {:induction false} ReadLinesReadable(ls: seq<string>, namer: Namer)
    requires forall i :: 0 <= i < |ls| ==> OneLine(ls[i])
    ensures AllReadable(ReadLines(ls, namer))
    ensures forall b :: b in ReadLines(ls, namer) ==> ExplicitOrDefault(b, namer)
  {
    if ls != [] {
      ReadLinesReadable(ls[1..], namer);
      ReadIsReadable(ls[0], namer);
      var h := ReadLine(ls[0], namer);
      assert forall i :: 0 <= i < |h| ==> h[i] in h;
    }
  }

  lemma ReadIsAllReadable(text: string, namer: Namer)
    ensures AllReadable(Read(text, namer))
    ensures forall b :: b in Read(text, namer) ==> ExplicitOrDefault(b, namer)
  {
    LinesAreOneLine(text);
    ReadLinesReadable(Lines(text), namer);
  }

  // A name that survives rewriting: clean, or so blank that the default takes its place.
  predicate Survives(name: string) {
    Clean(name) == name || Clean(name) == ""
  }

  // For any file text, rewriting what was read keeps every URI and every name the file gave; a
  // default name is kept if and only if it is clean or blank.
  lemma RewriteKeepsUrisAndNames(text: string, namer: Namer)
    ensures var before := Read(text, namer);
      var after := Read(Written(before), namer);
      && |after| == |before|
      && forall i :: 0 <= i < |before| ==> RewrittenWell(before[i], after[i], namer)
  {
    var before := Read(text, namer);
    ReadIsAllReadable(text, namer);
    WriteThenRead(before, namer);
    forall i | 0 <= i < |before| ensures RewrittenWell(before[i], Settle(before[i], namer), namer) {
      assert before[i] in before;
      SettleOne(before[i], namer);
    }
  }

  // The URI stays; the name stays if it survives, and can only change if it was the default.
  ghost predicate RewrittenWell(before: Bookmark, after: Bookmark, namer: Namer) {
    && after.uri == before.uri
    && (after.name == before.name <==> Survives(before.name))
    && (after.name == before.name || before.name == namer(before.uri))
  }

  const PADDED := "file:///x%20"

  // A file name may end in a space, and so may the default name made of it: rewriting cuts it.
  lemma PaddedNameIsCut(uri: string, namer: Namer)
    requires Plain(uri) && namer(uri) == "x "
    ensures var before := Read(uri, namer);
      before == [Bookmark(uri, "x ")] && Read(Written(before), namer) == [Bookmark(uri, "x")]
  {
    var before := [Bookmark(uri, "x ")];
    LastLine(uri, namer);
    StripKeeps(uri);
    ReadParts(uri, "", uri, namer);
    CleanPadded();
    WriteThenRead(before, namer);
    assert SettleAll(before, namer)[0] == Bookmark(uri, "x");
  }

  ghost predicate Plain(uri: string) {
    IsFile(uri) && Spaceless(uri) && !IsSpace(uri[0]) && !IsSpace(uri[|uri| - 1])
  }

  // One such file.
  lemma DefaultNameMayChange(uri: string, namer: Namer)
    requires uri == PADDED && namer(uri) == "x "
    ensures Read(Written(Read(uri, namer)), namer) != Read(uri, namer)
  {
    PaddedIsPlain(uri);
    PaddedNameIsCut(uri, namer);
  }

  lemma PaddedIsPlain(uri: string)
    requires uri == PADDED
    ensures Plain(uri)
  {
  }

  lemma CleanPadded()
    ensures Clean("x ") == "x"
  {
    var s := "x ";
    assert NewlinesToSpaces(s) == s && s[..1] == "x";
    assert TrimRight(s, IsSpace) == TrimRight("x", IsSpace) == "x";
  }

  // A text without a newline is one line.
  lemma LastLine(line: string, namer: Namer)
    requires OneLine(line)
    ensures Read(line, namer) == ReadLine(line, namer)
  {
    OnlyLine(line);
    var ls := [line];
    assert ls[1..] == [] && ReadLines(ls[1..], namer) == [];
    assert ReadLine(line, namer) + [] == ReadLine(line, namer);
  }

  lemma {:induction false} OnlyLine(line: string)
    requires OneLine(line)
    ensures Lines(line) == [line]
  {
    if line != "" {
      OnlyLine(line[1..]);
      assert [line[0]] + line[1..] == line;
    }
  }

  // What rewriting leaves of each line: a line with a name of its own is kept as it was.
  function RereadLines(ls: seq<string>, namer: Namer): seq<Bookmark> {
    if ls == [] then []
    else
      var read := ReadLine(ls[0], namer);
      (if HasName(ls[0]) then read else SettleAll(read, namer)) + RereadLines(ls[1..], namer)
  }

  lemma SettleConcat(a: seq<Bookmark>, b: seq<Bookmark>, namer: Namer)
    ensures SettleAll(a + b, namer) == SettleAll(a, namer) + SettleAll(b, namer)
  {
    var all, r := a + b, SettleAll(a + b, namer);
    var p, q := SettleAll(a, namer), SettleAll(b, namer);
    forall i | 0 <= i < |all| ensures r[i] == (p + q)[i] {
      assert all[i] == if i < |a| then a[i] else b[i - |a|];
    }
    assert r == p + q;
  }

  lemma CleanNamesSettle(bs: seq<Bookmark>, namer: Namer)
    requires forall b :: b in bs ==> b.name != "" && Clean(b.name) == b.name
    ensures SettleAll(bs, namer) == bs
  {
    var r := SettleAll(bs, namer);
    forall i | 0 <= i < |bs| ensures r[i] == bs[i] { assert bs[i] in bs; }
  }

  lemma {:induction false} SettleByLine(ls: seq<string>, namer: Namer)
    requires forall i :: 0 <= i < |ls| ==> OneLine(ls[i])
    ensures SettleAll(ReadLines(ls, namer), namer) == RereadLines(ls, namer)
  {
    if ls != [] {
      var read := ReadLine(ls[0], namer);
      SettleByLine(ls[1..], namer);
      SettleConcat(read, ReadLines(ls[1..], namer), namer);
      ReadIsReadable(ls[0], namer);
      if HasName(ls[0]) { CleanNamesSettle(read, namer); }
    }
  }

  // For any file text, every line with a name of its own reads after rewriting as it did before;
  // of the others only the name may change.
  lemma RewriteKeepsNamedLines(text: string, namer: Namer)
    ensures Read(Written(Read(text, namer)), namer) == RereadLines(Lines(text), namer)
  {
    ReadIsAllReadable(text, namer);
    WriteThenRead(Read(text, namer), namer);
    LinesAreOneLine(text);
    SettleByLine(Lines(text), namer);
  }

  lemma SettleOne(b: Bookmark, namer: Namer)
    requires ExplicitOrDefault(b, namer)
    ensures Settle(Settle(b, namer), namer) == Settle(b, namer)
    ensures Settle(b, namer) == b <==> Survives(b.name)
  {
    CleanFacts(b.name);
  }

  // Settling what was read is settling it once.
  lemma SettleTwice(bs: seq<Bookmark>, namer: Namer)
    requires forall b :: b in bs ==> ExplicitOrDefault(b, namer)
    ensures SettleAll(SettleAll(bs, namer), namer) == SettleAll(bs, namer)
    ensures SettleAll(bs, namer) == bs <==> forall i :: 0 <= i < |bs| ==> Survives(bs[i].name)
  {
    var once := SettleAll(bs, namer);
    var twice := SettleAll(once, namer);
    forall i | 0 <= i < |bs| ensures twice[i] == once[i] && (once[i] == bs[i] <==> Survives(bs[i].name)) {
      assert bs[i] in bs && once[i] == Settle(bs[i], namer) && twice[i] == Settle(once[i], namer);
      SettleOne(bs[i], namer);
    }
  }

  function Without(bs: seq<Bookmark>, uri: string): seq<Bookmark> {
    if bs == [] then [] else (if bs[0].uri == uri then [] else [bs[0]]) + Without(bs[1..], uri)
  }

  // What is left has every other bookmark, as often and in the order it was, and none with the URI.
  lemma {:induction false} WithoutConcat(a: seq<Bookmark>, b: seq<Bookmark>, uri: string)
    ensures Without(a + b, uri) == Without(a, uri) + Without(b, uri)
  {
    if a == [] {
      assert a + b == b;
    } else {
      assert (a + b)[1..] == a[1..] + b;
      WithoutConcat(a[1..], b, uri);
    }
  }

  lemma {:induction false} WithoutMeaning(bs: seq<Bookmark>, uri: string)
    ensures !Has(Without(bs, uri), uri)
    ensures forall b: Bookmark :: b.uri != uri ==> multiset(Without(bs, uri))[b] == multiset(bs)[b]
  {
    if bs != [] {
      WithoutMeaning(bs[1..], uri);
      assert bs == [bs[0]] + bs[1..];
    }
  }

  predicate Has(bs: seq<Bookmark>, uri: string) {
    exists i :: 0 <= i < |bs| && bs[i].uri == uri
  }

  lemma {:induction false} WithoutLast(bs: seq<Bookmark>, b: Bookmark)
    requires !Has(bs, b.uri)
    ensures Without(bs + [b], b.uri) == bs
  {
    if bs == [] {
      assert ([b])[1..] == [];
    } else {
      assert forall i :: 0 <= i < |bs[1..]| ==> bs[1..][i] == bs[i + 1];
      WithoutLast(bs[1..], b);
      assert (bs + [b])[1..] == bs[1..] + [b];
    }
  }

  function Added(text: string, uri: string, name: string, namer: Namer): string {
    if Has(Read(text, namer), uri) then text else Written(Read(text, namer) + [Bookmark(uri, name)])
  }

  function Removed(text: string, uri: string, namer: Namer): string {
    Written(Without(Read(text, namer), uri))
  }

  lemma SettleSnoc(bs: seq<Bookmark>, b: Bookmark, namer: Namer)
    ensures SettleAll(bs + [b], namer) == SettleAll(bs, namer) + [Settle(b, namer)]
  {
    var all := bs + [b];
    var r := SettleAll(all, namer);
    assert forall i :: 0 <= i < |bs| ==> all[i] == bs[i];
    assert r == SettleAll(bs, namer) + [Settle(b, namer)];
  }

  // Adding an absent URI and removing it again leaves what rewriting the file would have left:
  // the same URIs, and the list as it was if and only if every name survives rewriting.
  lemma AddThenRemoveRestores(text: string, uri: string, name: string, namer: Namer)
    requires Readable(Bookmark(uri, name)) && !Has(Read(text, namer), uri)
    ensures var before := Read(text, namer);
      var after := Read(Removed(Added(text, uri, name, namer), uri, namer), namer);
      && after == Read(Written(before), namer)
      && (after == before <==> forall i :: 0 <= i < |before| ==> Survives(before[i].name))
  {
    ReadIsAllReadable(text, namer);
    AddThenRemoveWrites(text, Bookmark(uri, name), namer);
    SettledIff(Read(text, namer), namer);
  }

  // Writing what settling leaves, and reading it back.
  lemma SettledIff(before: seq<Bookmark>, namer: Namer)
    requires AllReadable(before) && forall b :: b in before ==> ExplicitOrDefault(b, namer)
    ensures var after := Read(Written(SettleAll(before, namer)), namer);
      && after == Read(Written(before), namer)
      && (after == before <==> forall i :: 0 <= i < |before| ==> Survives(before[i].name))
  {
    SettledReadable(before, namer);
    WriteThenRead(SettleAll(before, namer), namer);
    WriteThenRead(before, namer);
    SettleTwice(before, namer);
  }

  // The file that adding and removing leaves.
  lemma AddThenRemoveWrites(text: string, b: Bookmark, namer: Namer)
    requires Readable(b) && !Has(Read(text, namer), b.uri)
    ensures Removed(Added(text, b.uri, b.name, namer), b.uri, namer) == Written(SettleAll(Read(text, namer), namer))
  {
    var before := Read(text, namer);
    var settled := SettleAll(before, namer);
    ReadIsAllReadable(text, namer);
    AddedIsRead(before, b, namer);
    assert !Has(settled, b.uri) by {
      forall i | 0 <= i < |settled| ensures settled[i].uri != b.uri { assert before[i].uri != b.uri; }
    }
    WithoutLast(settled, Settle(b, namer));
  }

  lemma SettledReadable(bs: seq<Bookmark>, namer: Namer)
    requires AllReadable(bs)
    ensures AllReadable(SettleAll(bs, namer))
  {
    forall i | 0 <= i < |bs| ensures Readable(Settle(bs[i], namer)) { SettleReadable(bs[i], namer); }
  }

  lemma SettleReadable(b: Bookmark, namer: Namer)
    requires Readable(b)
    ensures Readable(Settle(b, namer))
  {
    CleanFacts(b.name);
  }

  lemma AddedIsRead(before: seq<Bookmark>, b: Bookmark, namer: Namer)
    requires AllReadable(before) && Readable(b)
    ensures Read(Written(before + [b]), namer) == SettleAll(before, namer) + [Settle(b, namer)]
  {
    WriteThenRead(before + [b], namer);
    SettleSnoc(before, b, namer);
  }

  lemma AddedReads(before: seq<Bookmark>, b: Bookmark, text: string, namer: Namer)
    requires before == Read(text, namer)
    ensures Readable(b) ==> Read(Written(before + [b]), namer) == SettleAll(before, namer) + [Settle(b, namer)]
  {
    ReadIsAllReadable(text, namer);
    if Readable(b) { AddedIsRead(before, b, namer); }
  }

  lemma {:induction false} WithoutReadable(bs: seq<Bookmark>, uri: string)
    requires AllReadable(bs)
    ensures AllReadable(Without(bs, uri))
  {
    if bs != [] {
      assert forall i :: 0 <= i < |bs[1..]| ==> bs[1..][i] == bs[i + 1];
      WithoutReadable(bs[1..], uri);
    }
  }

  lemma RemovedReads(text: string, uri: string, namer: Namer)
    ensures var left := Without(Read(text, namer), uri); var after := Read(Removed(text, uri, namer), namer);
      after == SettleAll(left, namer) && !Has(after, uri)
  {
    var before := Read(text, namer);
    ReadIsAllReadable(text, namer);
    WithoutReadable(before, uri);
    WithoutMeaning(before, uri);
    WriteThenRead(Without(before, uri), namer);
    SettleKeepsAbsence(Without(before, uri), uri, namer);
  }

  lemma SettleKeepsAbsence(bs: seq<Bookmark>, uri: string, namer: Namer)
    requires !Has(bs, uri)
    ensures !Has(SettleAll(bs, namer), uri)
  {
    var r := SettleAll(bs, namer);
    forall i | 0 <= i < |r| ensures r[i].uri != uri { assert bs[i].uri != uri; }
  }

  // ------------------------------------------------------------ one more element

  lemma {:induction false} ReadLinesSnoc(ls: seq<string>, i: nat, namer: Namer)
    requires i < |ls|
    ensures ReadLines(ls[..i + 1], namer) == ReadLines(ls[..i], namer) + ReadLine(ls[i], namer)
  {
    if i == 0 {
      assert ls[..1] == [ls[0]] && ls[..1][1..] == [];
    } else {
      assert ls[..i + 1][1..] == ls[1..][..i] && ls[..i][1..] == ls[1..][..i - 1];
      ReadLinesSnoc(ls[1..], i - 1, namer);
    }
  }

  lemma {:induction false} WrittenSnoc(bs: seq<Bookmark>, i: nat)
    requires i < |bs|
    ensures Written(bs[..i + 1]) == Written(bs[..i]) + if IsFile(bs[i].uri) then Line(bs[i]) + "\n" else ""
  {
    if i == 0 {
      assert bs[..1] == [bs[0]] && bs[..1][1..] == [];
    } else {
      assert bs[..i + 1][1..] == bs[1..][..i] && bs[..i][1..] == bs[1..][..i - 1];
      WrittenSnoc(bs[1..], i - 1);
    }
  }

  lemma {:induction false} WithoutSnoc(bs: seq<Bookmark>, uri: string, i: nat)
    requires i < |bs|
    ensures Without(bs[..i + 1], uri) == Without(bs[..i], uri) + if bs[i].uri == uri then [] else [bs[i]]
  {
    if i == 0 {
      assert bs[..1] == [bs[0]] && bs[..1][1..] == [];
    } else {
      assert bs[..i + 1][1..] == bs[1..][..i] && bs[..i][1..] == bs[1..][..i - 1];
      WithoutSnoc(bs[1..], uri, i - 1);
    }
  }

  // ------------------------------------------------------------ the bookmark file

  class BookmarkFile {
    var text: string  // empty when there is no file
    const namer: Namer

    constructor (text: string, namer: Namer)
      ensures this.text == text && this.namer == namer
    {
      this.text, this.namer := text, namer;
    }

    method ReadBookmarks() returns (items: seq<Bookmark>)
      ensures items == Read(text, namer)
    {
      var lines := Lines(text);
      items := [];
      for i := 0 to |lines|
        invariant items == ReadLines(lines[..i], namer)
      {
        ReadLinesSnoc(lines, i, namer);
        var read := ParseLine(lines[i]);
        items := items + read;
      }
      assert lines[..|lines|] == lines;
    }

    method ParseLine(line: string) returns (read: seq<Bookmark>)
      ensures read == ReadLine(line, namer)
    {
      var trimmed := Stripped(line);
      if |trimmed| == 0 || !IsFile(trimmed) {
        return [];
      }
      var b := ParseTrimmed(trimmed);
      read := [b];
    }

    method ParseTrimmed(trimmed: string) returns (b: Bookmark)
      requires IsFile(trimmed)
      ensures [b] == ReadTrimmed(trimmed, namer)
    {
      SpaceBeyondScheme(trimmed);
      var uri, name := trimmed, "";
      var space := SpaceAt(trimmed);
      if 0 < space < |trimmed| {
        uri := trimmed[..space];
        name := Stripped(trimmed[space + 1..]);
      } else {
        assert trimmed[..space] == trimmed;
      }
      if |name| == 0 {
        name := namer(uri);
      }
      b := Bookmark(uri, name);
    }

    method WriteBookmarks(items: seq<Bookmark>)
      modifies this
      ensures text == Written(items)
    {
      var out := "";
      for i := 0 to |items|
        invariant out == Written(items[..i])
      {
        WrittenSnoc(items, i);
        var b := items[i];
        if IsFile(b.uri) {
          var line := FormatLine(b);
          out := out + (line + "\n");
        }
      }
      assert items[..|items|] == items;
      text := out;
    }

    method FormatLine(b: Bookmark) returns (line: string)
      ensures line == Line(b)
    {
      line := b.uri;
      var n := Stripped(NewlinesToSpaces(b.name));
      if |n| > 0 {
        line := line + (" " + n);
      }
    }

    // An absent URI comes last, with its name or, if that is blank, the default one; the others
    // stay as rewriting leaves them.
    method AddCurrent(uri: string, name: string)
      modifies this
      ensures text == Added(old(text), uri, name, namer)
      ensures Has(Read(old(text), namer), uri) ==> text == old(text)
      ensures !Has(Read(old(text), namer), uri) && Readable(Bookmark(uri, name)) ==>
        Read(text, namer) == SettleAll(Read(old(text), namer), namer) + [Settle(Bookmark(uri, name), namer)]
    {
      var items := ReadBookmarks();
      if Has(items, uri) {
        return;
      }
      WriteBookmarks(items + [Bookmark(uri, name)]);
      AddedReads(items, Bookmark(uri, name), old(text), namer);
    }

    // No bookmark with the URI is left; the others stay, in order, as rewriting leaves them.
    method RemoveCurrent(uri: string)
      modifies this
      ensures text == Removed(old(text), uri, namer)
      ensures Read(text, namer) == SettleAll(Without(Read(old(text), namer), uri), namer)
      ensures !Has(Read(text, namer), uri)
    {
      var items := ReadBookmarks();
      var kept := [];
      for i := 0 to |items|
        invariant kept == Without(items[..i], uri)
      {
        WithoutSnoc(items, uri, i);
        if items[i].uri != uri {
          kept := kept + [items[i]];
        }
      }
      assert items[..|items|] == items;
      WriteBookmarks(kept);
      RemovedReads(old(text), uri, namer);
    }
  }
}

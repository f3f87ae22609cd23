// Mapping a freedesktop category list to one of eight buckets: the dock's and the panel's
// pointer-scanning form against the settings' split-and-strip form.
module Categories {
  import opened Text
  import opened Wrappers

  datatype Bucket = Development | Games | Graphics | Multimedia | Office | Utilities | System | Network

  function BucketName(b: Bucket): string {
    match b
    case Development => "Development"
    case Games => "Games"
    case Graphics => "Graphics"
    case Multimedia => "Multimedia"
    case Office => "Office"
    case Utilities => "Utilities"
    case System => "System"
    case Network => "Network"
  }

  const DEVELOPMENT := ["development", "ide", "programming", "debugger", "profiling", "revisioncontrol", "translation"]
  const GAMES := ["game", "games"]
  const GRAPHICS := ["graphics", "2dgraphics", "3dgraphics", "photography", "rastergraphics", "vectorgraphics"]
  const MULTIMEDIA := ["audiovideo", "audio", "video", "player", "recorder", "music", "tv"]
  const OFFICE := ["education", "science", "math", "astronomy", "biology", "chemistry", "physics", "geography",
                   "history", "office", "wordprocessor", "spreadsheet", "presentation"]
  const UTILITIES := ["utility", "utilities", "accessories"]
  const SYSTEM := ["system", "settings", "preferences", "monitor", "security", "packagemanager"]
  const NETWORK := ["network", "webbrowser", "email", "chat", "ircclient", "filetransfer", "p2p",
                    "instantmessaging", "remoteaccess"]

  // ASCII-case-insensitive lookup, which is what both strcasecmp and casefolding do here.
  function MapToken(tok: string): (b: Option<Bucket>)
    ensures b.Some? ==> 0 < |tok| < TOKEN_SIZE
  {
    var t := Lower(tok);
    if t in DEVELOPMENT then Some(Development)
    else if t in GAMES then Some(Games)
    else if t in GRAPHICS then Some(Graphics)
    else if t in MULTIMEDIA then Some(Multimedia)
    else if t in OFFICE then Some(Office)
    else if t in UTILITIES then Some(Utilities)
    else if t in SYSTEM then Some(System)
    else if t in NETWORK then Some(Network)
    else None
  }

  const TOKEN_SIZE := 63  // the scanners' token buffer holds 63 characters

  // ------------------------------------------------------------ splitting and stripping

  function Split(s: string): (parts: seq<string>)
    ensures parts != []
  {
    if s == "" then [""]
    else if s[0] == ';' then [""] + Split(s[1..])
    else
      var rest := Split(s[1..]);
      [[s[0]] + rest[0]] + rest[1..]
  }

  // The first part that maps, after trimming.
  function FirstMapped(parts: seq<string>, space: char -> bool): Option<Bucket> {
    if parts == [] then None
    else
      var b := MapToken(Trim(parts[0], space));
      if b.Some? then b else FirstMapped(parts[1..], space)
  }

  function OrSystem(b: Option<Bucket>): Bucket {
    if b.None? then System else b.value
  }

  // Split at semicolons, strip, take the first that maps.
  function PickSplit(s: string): Bucket {
    OrSystem(FirstMapped(Split(s), IsSpace))
  }

  method PickMapped(s: string) returns (b: Bucket)
    ensures b == PickSplit(s)
  {
    if Stripped(s) == "" {
      BlankMapsNothing(s);
      return System;
    }
    var parts := Split(s);
    assert parts[0..] == parts;
    for i := 0 to |parts|
      invariant FirstMapped(parts, IsSpace) == FirstMapped(parts[i..], IsSpace)
    {
      var token := Stripped(parts[i]);
      assert parts[i..][0] == parts[i] && parts[i..][1..] == parts[i + 1..];
      if |token| > 0 {
        var mapped := MapToken(token);
        if mapped.Some? {
          return mapped.value;
        }
      }
    }
    return System;
  }

  // A blank list has no semicolon, so it is a single blank part.
  lemma {:induction false} NoSemicolonIsOnePart(s: string)
    requires forall i :: 0 <= i < |s| ==> s[i] != ';'
    ensures Split(s) == [s]
  {
    if s != "" {
      NoSemicolonIsOnePart(s[1..]);
      assert s == [s[0]] + s[1..];
    }
  }

  lemma BlankMapsNothing(s: string)
    requires Stripped(s) == ""
    ensures FirstMapped(Split(s), IsSpace) == None
  {
    AllSpaceTrims(s, IsSpace);
    NoSemicolonIsOnePart(s);
    assert [s][1..] == [];
  }

  // ------------------------------------------------------------ the scanning form

  function PickTrimmed(s: string): Option<Bucket> {
    FirstMapped(Split(s), IsBlank)
  }

  // A leading blank or semicolon can be skipped.
  lemma SkipLeading(s: string)
    requires s != "" && (IsBlank(s[0]) || s[0] == ';')
    ensures PickTrimmed(s) == PickTrimmed(s[1..])
  {
    var rest := Split(s[1..]);
    if s[0] == ';' {
      assert ([""] + rest)[1..] == rest;
    } else {
      var first := [s[0]] + rest[0];
      assert first[1..] == rest[0] && ([first] + rest[1..])[1..] == rest[1..];
    }
  }

  // A part runs up to the next semicolon.
  lemma {:induction false} FirstPart(s: string, n: nat)
    requires n <= |s| && (forall i :: 0 <= i < n ==> s[i] != ';') && (n < |s| ==> s[n] == ';')
    ensures Split(s) == [s[..n]] + if n < |s| then Split(s[n + 1..]) else []
  {
    if n == 0 {
    } else {
      FirstPart(s[1..], n - 1);
      assert s[1..][..n - 1] == s[1..n] && [s[0]] + s[1..n] == s[..n];
      if n < |s| { assert s[1..][n..] == s[n + 1..]; }
    }
  }

  lemma PickFirstPart(s: string, n: nat, tok: string)
    requires n <= |s| && (forall i :: 0 <= i < n ==> s[i] != ';') && (n < |s| ==> s[n] == ';')
    requires tok == Trim(s[..n], IsBlank)
    ensures var b := MapToken(tok);
      PickTrimmed(s) == if b.Some? then b else if n < |s| then PickTrimmed(s[n + 1..]) else None
  {
    FirstPart(s, n);
    var tail := if n < |s| then Split(s[n + 1..]) else [];
    assert Split(s)[0] == s[..n] && Split(s)[1..] == tail;
    assert tail == [] ==> FirstMapped(tail, IsBlank) == None;
  }

  lemma {:induction false} TrimRightIs(s: string, n: nat)
    requires n <= |s| && (n > 0 ==> !IsBlank(s[n - 1])) && forall i :: n <= i < |s| ==> IsBlank(s[i])
    ensures TrimRight(s, IsBlank) == s[..n]
    decreases |s|
  {
    if n < |s| {
      TrimRightIs(s[..|s| - 1], n);
      assert s[..|s| - 1][..n] == s[..n];
    }
  }

  // Cutting a token at the buffer's size never makes it, nor keeps it from, mapping.
  lemma CutTokensDoNotMap(tok: string)
    ensures MapToken(if |tok| >= TOKEN_SIZE + 1 then tok[..TOKEN_SIZE] else tok) == MapToken(tok)
  {}

  method SkipBlanks(cats: string, from: nat) returns (p: nat)
    requires from <= |cats|
    ensures from <= p <= |cats| && PickTrimmed(cats[from..]) == PickTrimmed(cats[p..])
    ensures p < |cats| ==> !IsBlank(cats[p]) && cats[p] != ';'
  {
    p := from;
    while p < |cats| && (IsBlank(cats[p]) || cats[p] == ';')
      invariant from <= p <= |cats| && PickTrimmed(cats[from..]) == PickTrimmed(cats[p..])
      decreases |cats| - p
    {
      SkipLeading(cats[p..]);
      assert cats[p..][1..] == cats[p + 1..];
      p := p + 1;
    }
  }

  // The token that starts at `start` ends before `p`, its trailing blanks at `end`.
  method TakeToken(cats: string, start: nat) returns (p: nat, end: nat)
    requires start < |cats| && !IsBlank(cats[start]) && cats[start] != ';'
    ensures start < end <= p <= |cats| && (p < |cats| ==> cats[p] == ';')
    ensures forall i :: start <= i < p ==> cats[i] != ';'
    ensures Trim(cats[start..p], IsBlank) == cats[start..end]
  {
    p := start;
    while p < |cats| && cats[p] != ';'
      invariant start <= p <= |cats| && forall i :: start <= i < p ==> cats[i] != ';'
      decreases |cats| - p
    {
      p := p + 1;
    }
    end := p;
    while end > start && IsBlank(cats[end - 1])
      invariant start < end <= p && forall i :: end <= i < p ==> IsBlank(cats[i])
    {
      end := end - 1;
    }
    ghost var part := cats[start..p];
    assert part[..end - start] == cats[start..end];
    TrimRightIs(part, end - start);
  }

  lemma AfterToken(cats: string, start: nat, p: nat, end: nat)
    requires start < end <= p <= |cats| && (p < |cats| ==> cats[p] == ';')
    requires forall i :: start <= i < p ==> cats[i] != ';'
    requires Trim(cats[start..p], IsBlank) == cats[start..end]
    ensures var b := MapToken(cats[start..end]);
      PickTrimmed(cats[start..]) == if b.Some? then b else if p < |cats| then PickTrimmed(cats[p + 1..]) else None
  {
    var rest := cats[start..];
    assert rest[..p - start] == cats[start..p];
    if p < |cats| { assert rest[p - start + 1..] == cats[p + 1..]; }
    PickFirstPart(rest, p - start, cats[start..end]);
  }

  // The token goes through a buffer that holds its first characters only.
  method MapBuffered(tok: string) returns (b: Option<Bucket>)
    ensures b == MapToken(tok)
  {
    var n := |tok|;
    if n >= TOKEN_SIZE + 1 {
      n := TOKEN_SIZE;
    }
    CutTokensDoNotMap(tok);
    assert tok[..|tok|] == tok;
    b := MapToken(tok[..n]);
  }

  // Maps the token at `start` through the fixed-size buffer; `p` is where it stopped.
  method MapNext(cats: string, start: nat) returns (p: nat, mapped: Option<Bucket>)
    requires start < |cats| && !IsBlank(cats[start]) && cats[start] != ';'
    ensures start < p <= |cats| && (p < |cats| ==> cats[p] == ';')
    ensures PickTrimmed(cats[start..])
         == if mapped.Some? then mapped else if p < |cats| then PickTrimmed(cats[p + 1..]) else None
  {
    var end: nat;
    p, end := TakeToken(cats, start);
    AfterToken(cats, start, p, end);
    mapped := MapBuffered(cats[start..end]);
  }

  method ScanCategories(cats: string) returns (b: Bucket)
    ensures b == OrSystem(PickTrimmed(cats))
  {
    EmptyMapsNothing();
    if |cats| == 0 {
      return System;
    }
    var p := 0;
    ghost var rest := cats;
    while p < |cats|
      invariant p <= |cats| && rest == cats[p..] && PickTrimmed(cats) == PickTrimmed(rest)
    {
      var start := SkipBlanks(cats, p);
      if start == |cats| {
        assert cats[start..] == "";
        return System;
      }
      var mapped: Option<Bucket>;
      p, mapped := MapNext(cats, start);
      if mapped.Some? {
        return mapped.value;
      }
      if p < |cats| {
        p := p + 1;
      }
      rest := cats[p..];
      assert p == |cats| ==> rest == "";
    }
    assert rest == "";
    return System;
  }

  lemma EmptyMapsNothing()
    ensures PickTrimmed("") == None
  {
    assert Split("")[1..] == [];
  }

  // ------------------------------------------------------------ the two forms agree

  ghost predicate OnlyBlanks(s: string) {
    forall i :: 0 <= i < |s| ==> (IsSpace(s[i]) ==> IsBlank(s[i]))
  }

  lemma {:induction false} TrimsAgree(s: string)
    requires OnlyBlanks(s)
    ensures Trim(s, IsBlank) == Trim(s, IsSpace)
    decreases |s|
  {
    if s != "" && IsBlank(s[0]) {
      TrimsAgree(s[1..]);
    } else {
      TrimRightsAgree(s);
    }
  }

  lemma {:induction false} TrimRightsAgree(s: string)
    requires OnlyBlanks(s)
    ensures TrimRight(s, IsBlank) == TrimRight(s, IsSpace)
    decreases |s|
  {
    if s != "" && IsBlank(s[|s| - 1]) {
      TrimRightsAgree(s[..|s| - 1]);
    }
  }

  lemma {:induction false} SplitKeepsCharacters(s: string)
    requires OnlyBlanks(s)
    ensures forall k :: 0 <= k < |Split(s)| ==> OnlyBlanks(Split(s)[k])
  {
    if s != "" {
      SplitKeepsCharacters(s[1..]);
    }
  }

  // No name on any list starts or ends with white space.
  ghost predicate Edgeless(t: string) {
    t != "" && !IsSpace(t[0]) && !IsSpace(t[|t| - 1])
  }

  lemma DevelopmentEdgeless(t: string)
    requires t in DEVELOPMENT
    ensures Edgeless(t)
  {}

  lemma GamesEdgeless(t: string)
    requires t in GAMES || t in UTILITIES
    ensures Edgeless(t)
  {}

  lemma GraphicsEdgeless(t: string)
    requires t in GRAPHICS
    ensures Edgeless(t)
  {}

  lemma MultimediaEdgeless(t: string)
    requires t in MULTIMEDIA
    ensures Edgeless(t)
  {}

  lemma OfficeEdgeless(t: string)
    requires t in OFFICE
    ensures Edgeless(t)
  {}

  lemma SystemEdgeless(t: string)
    requires t in SYSTEM
    ensures Edgeless(t)
  {}

  lemma NetworkEdgeless(t: string)
    requires t in NETWORK
    ensures Edgeless(t)
  {}

  lemma MappedIsEdgeless(tok: string)
    requires MapToken(tok).Some?
    ensures Edgeless(Lower(tok))
  {
    var t := Lower(tok);
    if t in DEVELOPMENT { DevelopmentEdgeless(t); }
    else if t in GAMES || t in UTILITIES { GamesEdgeless(t); }
    else if t in GRAPHICS { GraphicsEdgeless(t); }
    else if t in MULTIMEDIA { MultimediaEdgeless(t); }
    else if t in OFFICE { OfficeEdgeless(t); }
    else if t in SYSTEM { SystemEdgeless(t); }
    else { NetworkEdgeless(t); }
  }

  lemma {:induction false} LowerKeepsSpaces(s: string, i: nat)
    requires i < |s|
    ensures Lower(s)[i] == LowerChar(s[i]) && (IsSpace(Lower(s)[i]) <==> IsSpace(s[i]))
  {
    if i > 0 { LowerKeepsSpaces(s[1..], i - 1); }
  }

  // Blank-trimming leaves a word with no white space at its edges only if stripping would too.
  lemma {:induction false} TrimmedToWord(s: string)
    requires var t := Trim(s, IsBlank); t != "" && !IsSpace(t[0]) && !IsSpace(t[|t| - 1])
    ensures Trim(s, IsSpace) == Trim(s, IsBlank)
  {
    if s != "" && IsBlank(s[0]) {
      TrimmedToWord(s[1..]);
    } else {
      TrimRightBlank(s, IsBlank);
      assert s[0] == Trim(s, IsBlank)[0];
      TrimmedRightToWord(s);
    }
  }

  lemma {:induction false} TrimmedRightToWord(s: string)
    requires var t := TrimRight(s, IsBlank); t != "" && !IsSpace(t[|t| - 1])
    ensures TrimRight(s, IsSpace) == TrimRight(s, IsBlank)
    decreases |s|
  {
    if s != "" && IsBlank(s[|s| - 1]) {
      TrimmedRightToWord(s[..|s| - 1]);
    }
  }

  // A part that maps once its blanks are trimmed maps to the same bucket once stripped.
  lemma TrimmedMapsAsStripped(part: string)
    requires MapToken(Trim(part, IsBlank)).Some?
    ensures Trim(part, IsSpace) == Trim(part, IsBlank)
  {
    var t := Trim(part, IsBlank);
    MappedIsEdgeless(t);
    LowerKeepsSpaces(t, 0);
    LowerKeepsSpaces(t, |t| - 1);
    TrimmedToWord(part);
  }

  // The first part that maps once stripped, or the number of parts.
  function FirstStripped(parts: seq<string>): (k: nat)
    ensures k <= |parts|
    ensures forall j :: 0 <= j < k ==> MapToken(Stripped(parts[j])).None?
    ensures k < |parts| ==> MapToken(Stripped(parts[k])).Some?
  {
    if parts == [] then 0
    else if MapToken(Stripped(parts[0])).Some? then 0
    else 1 + FirstStripped(parts[1..])
  }

  lemma {:induction false} PicksFrom(parts: seq<string>)
    ensures var k := FirstStripped(parts);
      && FirstMapped(parts, IsBlank) == FirstMapped(parts[k..], IsBlank)
      && FirstMapped(parts, IsSpace) == if k < |parts| then MapToken(Stripped(parts[k])) else None
  {
    var k := FirstStripped(parts);
    if k == 0 {
      assert parts[0..] == parts;
    } else {
      PicksFrom(parts[1..]);
      assert parts[1..][k - 1..] == parts[k..];
      if MapToken(Trim(parts[0], IsBlank)).Some? { TrimmedMapsAsStripped(parts[0]); }
    }
  }

  // Where the split form takes `part`, and the scan goes on with `more` if it does not.
  lemma AgreeAt(part: string, more: seq<string>, bucket: Bucket)
    requires MapToken(Stripped(part)) == Some(bucket)
    ensures OrSystem(FirstMapped([part] + more, IsBlank)) == bucket <==>
      MapToken(Trim(part, IsBlank)).Some? || OrSystem(FirstMapped(more, IsBlank)) == bucket
  {
    assert ([part] + more)[1..] == more;
    if MapToken(Trim(part, IsBlank)).Some? { TrimmedMapsAsStripped(part); }
  }

  // The split form picks the bucket of the first part that maps once stripped, System if none does.
  lemma PickSplitMeaning(s: string)
    ensures var parts := Split(s); var k := FirstStripped(parts);
      PickSplit(s) == if k < |parts| then MapToken(Stripped(parts[k])).value else System
  {
    PicksFrom(Split(s));
  }

  // The two forms pick the same bucket if and only if no part maps once stripped, or the first
  // that does also maps with only its blanks trimmed, or what the scan finds after it happens
  // to be its bucket.
  lemma FormsAgreeIff(s: string)
    ensures var parts := Split(s); var k := FirstStripped(parts);
      OrSystem(PickTrimmed(s)) == PickSplit(s) <==>
        || k == |parts|
        || MapToken(Trim(parts[k], IsBlank)).Some?
        || OrSystem(FirstMapped(parts[k + 1..], IsBlank)) == MapToken(Stripped(parts[k])).value
  {
    var parts := Split(s);
    var k := FirstStripped(parts);
    PicksFrom(parts);
    if k < |parts| {
      assert parts[k..] == [parts[k]] + parts[k + 1..];
      AgreeAt(parts[k], parts[k + 1..], MapToken(Stripped(parts[k])).value);
    } else {
      assert parts[k..] == [];
    }
  }

  // In particular on every list whose only white space is spaces and tabs.
  lemma FormsAgree(s: string)
    requires OnlyBlanks(s)
    ensures OrSystem(PickTrimmed(s)) == PickSplit(s)
  {
    var parts := Split(s);
    var k := FirstStripped(parts);
    FormsAgreeIff(s);
    SplitKeepsCharacters(s);
    if k < |parts| { TrimsAgree(parts[k]); }
  }

  // Other white space tells them apart.
  lemma NewlineTellsApart()
    ensures OrSystem(PickTrimmed("\ntv")) == System && PickSplit("\ntv") == Multimedia
  {
    var s := "\ntv";
    NoSemicolonIsOnePart(s);
    var parts := [s];
    assert parts[1..] == [];
    TrimRightIs(s, 3);
    assert Trim(s, IsBlank) == s[..3] == s;
    NewlineDoesNotMap(s);
    assert Trim(s, IsSpace) == "tv" by { assert s[1..] == "tv"; }
    TvMaps();
  }

  lemma TvMaps()
    ensures MapToken("tv") == Some(Multimedia)
  {
    var t := "tv";
    assert Lower(t[1..]) == "v" by { assert t[1..] == "v"; }
    assert Lower(t) == "tv" && MULTIMEDIA[6] == "tv";
  }

  lemma NewlineDoesNotMap(tok: string)
    requires tok != "" && tok[0] == '\n'
    ensures MapToken(tok) == None
  {
    LowerKeepsSpaces(tok, 0);
    if MapToken(tok).Some? { MappedIsEdgeless(tok); }
  }

  // ------------------------------------------------------------ which names go where

  // The names of a bucket.
  function Names(b: Bucket): seq<string> {
    match b
    case Development => DEVELOPMENT
    case Games => GAMES
    case Graphics => GRAPHICS
    case Multimedia => MULTIMEDIA
    case Office => OFFICE
    case Utilities => UTILITIES
    case System => SYSTEM
    case Network => NETWORK
  }

  // A name is in one bucket's list only, whatever its case, and maps to that bucket.
  lemma NamesMap(tok: string, b: Bucket)
    ensures MapToken(tok) == Some(b) <==> Lower(tok) in Names(b)
  {
    var t := Lower(tok);
    if t in DEVELOPMENT { OnlyDevelopment(t); }
    if t in GAMES { OnlyGames(t); }
    if t in GRAPHICS { OnlyGraphics(t); }
    if t in MULTIMEDIA { OnlyMultimedia(t); }
    if t in OFFICE { OnlyOffice(t); }
    if t in UTILITIES { OnlyUtilities(t); }
    if t in SYSTEM { OnlySystem(t); }
  }

  lemma OnlyDevelopment(t: string)
    requires t in DEVELOPMENT
    ensures t !in GAMES && t !in GRAPHICS && t !in MULTIMEDIA && t !in OFFICE && t !in UTILITIES && t !in SYSTEM
    ensures t !in NETWORK
  {}

  lemma OnlyGames(t: string)
    requires t in GAMES
    ensures t !in GRAPHICS && t !in MULTIMEDIA && t !in OFFICE && t !in UTILITIES && t !in SYSTEM && t !in NETWORK
  {}

  lemma OnlyGraphics(t: string)
    requires t in GRAPHICS
    ensures t !in MULTIMEDIA && t !in OFFICE && t !in UTILITIES && t !in SYSTEM && t !in NETWORK
  {}

  lemma OnlyMultimedia(t: string)
    requires t in MULTIMEDIA
    ensures t !in OFFICE && t !in UTILITIES && t !in SYSTEM && t !in NETWORK
  {}

  lemma OnlyOffice(t: string)
    requires t in OFFICE
    ensures t !in UTILITIES && t !in SYSTEM && t !in NETWORK
  {}

  lemma OnlyUtilities(t: string)
    requires t in UTILITIES
    ensures t !in SYSTEM && t !in NETWORK
  {}

  lemma OnlySystem(t: string)
    requires t in SYSTEM
    ensures t !in NETWORK
  {}

  // A list of one name that maps gives its bucket in both forms.
  lemma OneNameGivesItsBucket(name: string, b: Bucket)
    requires MapToken(name) == Some(b) && forall i :: 0 <= i < |name| ==> name[i] != ';'
    ensures PickSplit(name) == b && OrSystem(PickTrimmed(name)) == b
  {
    MappedIsEdgeless(name);
    EdgelessTrims(name);
    NoSemicolonIsOnePart(name);
    FirstOfOne(name, IsSpace, b);
    FirstOfOne(name, IsBlank, b);
  }

  lemma EdgelessTrims(name: string)
    requires Edgeless(Lower(name))
    ensures Trim(name, IsSpace) == name && Trim(name, IsBlank) == name
  {
    LowerKeepsSpaces(name, 0);
    LowerKeepsSpaces(name, |name| - 1);
    assert "" + name + "" == name;
    TrimMeaning("", name, "", IsSpace);
    TrimMeaning("", name, "", IsBlank);
  }

  lemma FirstOfOne(part: string, space: char -> bool, b: Bucket)
    requires Trim(part, space) == part && MapToken(part) == Some(b)
    ensures FirstMapped([part], space) == Some(b)
  {}

  // Every bucket by some of its names.
  lemma NamesByExample()
    ensures "development" in Names(Development) && "ide" in Names(Development) && "game" in Names(Games)
    ensures "graphics" in Names(Graphics) && "audio" in Names(Multimedia) && "video" in Names(Multimedia)
    ensures "office" in Names(Office) && "education" in Names(Office) && "utility" in Names(Utilities)
    ensures "system" in Names(System) && "settings" in Names(System)
    ensures "network" in Names(Network) && "webbrowser" in Names(Network)
  {
    assert DEVELOPMENT[0] == "development" && DEVELOPMENT[1] == "ide" && GAMES[0] == "game";
    assert GRAPHICS[0] == "graphics" && MULTIMEDIA[1] == "audio" && MULTIMEDIA[2] == "video";
    assert OFFICE[9] == "office" && OFFICE[0] == "education" && UTILITIES[0] == "utility";
    assert SYSTEM[0] == "system" && SYSTEM[1] == "settings" && NETWORK[0] == "network" && NETWORK[1] == "webbrowser";
  }
}

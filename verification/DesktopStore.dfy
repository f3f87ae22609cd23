// The settings' table of desktop entries, keyed by file name: system synchronisation, user
// preferences and deletion as transitions on the table.
module DesktopStore {
  import opened Wrappers
  import Categories
  import Text

  // The columns that come from the system.
  datatype Content = Content(name: string, exec: string, categories: string, icon: string,
                             category: string, source: string)

  datatype Overrides = Overrides(name: Option<string>, exec: Option<string>, categories: Option<string>)

  datatype Row = Row(content: Content, overrides: Overrides, managed: bool, enabled: bool,
                     addToDock: bool, deleted: bool, updatedAt: int)

  datatype Entry = Entry(filename: string, content: Content)

  type Table = map<string, Row>

  const NO_OVERRIDES := Overrides(None, None, None)

  // A row that was never there before.
  function Imported(c: Content, ts: int): Row {
    Row(c, NO_OVERRIDES, false, true, false, false, ts)
  }

  // The upsert of one entry: a live row with the same content is left alone; otherwise the
  // system columns are refreshed, and a deleted row comes back enabled and off the dock.
  function Upserted(old_row: Option<Row>, c: Content, ts: int): Row {
    match old_row
    case None => Imported(c, ts)
    case Some(r) =>
      if !r.deleted && r.content == c then r
      else Row(c, r.overrides, r.managed,
               if r.deleted then true else r.enabled,
               if r.deleted then false else r.addToDock, false, ts)
  }

  function Lookup(t: Table, f: string): Option<Row> {
    if f in t then Some(t[f]) else None
  }

  function Synced(t: Table, es: seq<Entry>, ts: int): Table {
    if es == [] then t
    else
      var before, e := Synced(t, es[..|es| - 1], ts), es[|es| - 1];
      before[e.filename := Upserted(Lookup(before, e.filename), e.content, ts)]
  }

  // ------------------------------------------------------------ one file at a time

  ghost predicate Mentions(es: seq<Entry>, f: string) {
    exists i :: 0 <= i < |es| && es[i].filename == f
  }

  // The last entry for `f`.
  function LastFor(es: seq<Entry>, f: string): (c: Content)
    requires Mentions(es, f)
    ensures exists i :: 0 <= i < |es| && es[i] == Entry(f, c)
  {
    var n := |es| - 1;
    if es[n].filename == f then es[n].content
    else
      assert exists i :: 0 <= i < n && es[..n][i].filename == f by {
        var i :| 0 <= i < |es| && es[i].filename == f;
        assert es[..n][i].filename == f;
      }
      LastFor(es[..n], f)
  }

  lemma MentionsSnoc(es: seq<Entry>, f: string)
    requires es != []
    ensures Mentions(es, f) <==> Mentions(es[..|es| - 1], f) || es[|es| - 1].filename == f
  {
    var n := |es| - 1;
    if Mentions(es, f) && es[n].filename != f {
      var i :| 0 <= i < |es| && es[i].filename == f;
      assert es[..n][i].filename == f;
    }
    if Mentions(es[..n], f) {
      var i :| 0 <= i < n && es[..n][i].filename == f;
      assert es[i].filename == f;
    }
  }

  // Rows outside the batch are untouched; rows in it are live and carry the last content given;
  // user overrides survive, and so do `enabled` and `add_to_dock` unless the row was deleted.
  lemma {:induction false} SyncKeepsUserChoices(t: Table, es: seq<Entry>, ts: int, f: string)
    ensures !Mentions(es, f) ==> Lookup(Synced(t, es, ts), f) == Lookup(t, f)
    ensures Mentions(es, f) ==>
      var r := Lookup(Synced(t, es, ts), f);
      && r.Some? && !r.value.deleted && r.value.content == LastFor(es, f)
      && (f !in t ==>
            && r.value.overrides == NO_OVERRIDES && !r.value.managed && r.value.enabled && !r.value.addToDock
            && r.value.updatedAt == ts)
      && (f in t && t[f].deleted ==> r.value.updatedAt == ts)
      && (f in t ==> r.value.overrides == t[f].overrides && r.value.managed == t[f].managed)
      && (f in t && !t[f].deleted ==> r.value.enabled == t[f].enabled && r.value.addToDock == t[f].addToDock)
      && (f in t && t[f].deleted ==> r.value.enabled && !r.value.addToDock)
  {
    if es != [] {
      SyncKeepsUserChoices(t, es[..|es| - 1], ts, f);
      MentionsSnoc(es, f);
    }
  }

  // ------------------------------------------------------------ synchronising twice

  // No file appears with two different contents.
  ghost predicate Consistent(es: seq<Entry>) {
    forall i, j :: 0 <= i < |es| && 0 <= j < |es| && es[i].filename == es[j].filename ==> es[i].content == es[j].content
  }

  // Every entry is already in the table as it stands.
  ghost predicate Matches(t: Table, es: seq<Entry>) {
    forall i :: 0 <= i < |es| ==>
      es[i].filename in t && !t[es[i].filename].deleted && t[es[i].filename].content == es[i].content
  }

  lemma {:induction false} SyncMatchingIsIdentity(t: Table, es: seq<Entry>, ts: int)
    requires Matches(t, es)
    ensures Synced(t, es, ts) == t
  {
    if es != [] {
      SyncMatchingIsIdentity(t, es[..|es| - 1], ts);
      var e := es[|es| - 1];
      assert t[e.filename := t[e.filename]] == t;
    }
  }

  // A live row is either as it was, or stamped; it is stamped once an entry differs from it.
  lemma {:induction false} DifferenceIsStamped(t: Table, es: seq<Entry>, ts: int, f: string)
    requires f in t && !t[f].deleted
    ensures f in Synced(t, es, ts) && !Synced(t, es, ts)[f].deleted
    ensures Synced(t, es, ts)[f].updatedAt == ts || Synced(t, es, ts)[f] == t[f]
    ensures (exists i :: 0 <= i < |es| && es[i].filename == f && es[i].content != t[f].content) ==>
      Synced(t, es, ts)[f].updatedAt == ts
  {
    if es != [] {
      var n := |es| - 1;
      DifferenceIsStamped(t, es[..n], ts, f);
      if exists i :: 0 <= i < |es| && es[i].filename == f && es[i].content != t[f].content {
        var i :| 0 <= i < |es| && es[i].filename == f && es[i].content != t[f].content;
        assert i < n ==> es[..n][i] == es[i];
      }
    }
  }

  lemma {:induction false} SyncSplit(t: Table, as_: seq<Entry>, bs: seq<Entry>, ts: int)
    ensures Synced(t, as_ + bs, ts) == Synced(Synced(t, as_, ts), bs, ts)
    decreases |bs|
  {
    var all := as_ + bs;
    if bs == [] {
      assert all == as_;
    } else {
      var n := |bs| - 1;
      SyncSplit(t, as_, bs[..n], ts);
      assert all[..|all| - 1] == as_ + bs[..n] && all[|all| - 1] == bs[n];
    }
  }

  // In a batch that disagrees about a file, a first run leaves that file's row stamped.
  lemma DisagreementIsStamped(t: Table, es: seq<Entry>, ts: int, i: nat, j: nat)
    requires i < |es| && j < |es| && es[i].filename == es[j].filename && es[i].content != es[j].content
    ensures var f := es[i].filename; var r := Lookup(Synced(t, es, ts), f);
      r.Some? && !r.value.deleted && r.value.updatedAt == ts
  {
    if j < i {
      DisagreementIsStamped(t, es, ts, j, i);
    } else {
      var head, tail := es[..i + 1], es[i + 1..];
      var mid := Synced(t, head, ts);
      var e := es[i];
      SyncSplit(t, head, tail, ts);
      assert es == head + tail && head[|head| - 1] == e && tail[j - i - 1] == es[j];
      assert mid[e.filename].content == e.content && !mid[e.filename].deleted;
      DifferenceIsStamped(mid, tail, ts, e.filename);
    }
  }

  // A live row that no entry differs from stays as it was.
  lemma {:induction false} AgreementIsKept(t: Table, es: seq<Entry>, ts: int, f: string)
    requires f in t && !t[f].deleted
    requires forall i :: 0 <= i < |es| && es[i].filename == f ==> es[i].content == t[f].content
    ensures Lookup(Synced(t, es, ts), f) == Some(t[f])
  {
    if es != [] {
      AgreementIsKept(t, es[..|es| - 1], ts, f);
    }
  }

  // A second run stamps the same rows as the first, those the batch disagrees about.
  lemma SecondRun(t: Table, es: seq<Entry>, ts: int, later: int, f: string)
    ensures var once := Synced(t, es, ts); var twice := Synced(once, es, later);
      Lookup(twice, f) == Lookup(once, f) || (
        && Lookup(once, f).Some? && Lookup(once, f).value.updatedAt == ts
        && Lookup(twice, f) == Some(Lookup(once, f).value.(updatedAt := later)))
  {
    var once := Synced(t, es, ts);
    SyncKeepsUserChoices(t, es, ts, f);
    SyncKeepsUserChoices(once, es, later, f);
    if Mentions(es, f) {
      if exists i :: 0 <= i < |es| && es[i].filename == f && es[i].content != once[f].content {
        var i: nat :| i < |es| && es[i].filename == f && es[i].content != once[f].content;
        var j: nat :| j < |es| && es[j] == Entry(f, LastFor(es, f));
        DisagreementIsStamped(t, es, ts, i, j);
        DisagreementIsStamped(once, es, later, i, j);
      } else {
        AgreementIsKept(once, es, later, f);
      }
    }
  }

  // A second run changes nothing - not even a time stamp - if and only if the batch does not
  // disagree with itself about a file, or both runs fall in the same second.
  lemma SyncTwiceIsOnceIffConsistent(t: Table, es: seq<Entry>, ts: int, later: int)
    ensures Synced(Synced(t, es, ts), es, later) == Synced(t, es, ts) <==> Consistent(es) || ts == later
  {
    var once := Synced(t, es, ts);
    var twice := Synced(once, es, later);
    if Consistent(es) {
      forall i | 0 <= i < |es|
        ensures es[i].filename in once && !once[es[i].filename].deleted && once[es[i].filename].content == es[i].content
      {
        SyncKeepsUserChoices(t, es, ts, es[i].filename);
      }
      SyncMatchingIsIdentity(once, es, later);
    } else if ts == later {
      forall f: string ensures Lookup(twice, f) == Lookup(once, f) {
        SecondRun(t, es, ts, later, f);
      }
      SameLookups(once, twice);
    } else {
      var i, j :| 0 <= i < |es| && 0 <= j < |es| && es[i].filename == es[j].filename && es[i].content != es[j].content;
      DisagreementIsStamped(t, es, ts, i, j);
      DisagreementIsStamped(once, es, later, i, j);
    }
  }

  lemma SameLookups(t: Table, u: Table)
    requires forall f: string :: Lookup(u, f) == Lookup(t, f)
    ensures u == t
  {
    forall f: string ensures (f in u <==> f in t) && (f in t ==> u[f] == t[f]) {
      assert Lookup(u, f) == Lookup(t, f);
    }
  }

  // Two entries for one file that disagree: every run stamps its row anew.
  lemma DisagreeingBatchIsNotStable(f: string, a: Content, b: Content, ts: int, later: int)
    requires a != b && ts != later
    ensures var es := [Entry(f, a), Entry(f, b)]; var once := Synced(map[], es, ts);
      once == map[f := Imported(b, ts)] && Synced(once, es, later) == map[f := Imported(b, later)]
  {
    var es := [Entry(f, a), Entry(f, b)];
    assert es[..1] == [Entry(f, a)] && es[..1][..0] == [];
    var once := Synced(map[], es, ts);
    assert Synced(map[], es[..1], ts) == map[f := Imported(a, ts)];
    assert once == map[f := Imported(b, ts)];
    assert Synced(once, es[..1], later) == map[f := Imported(a, later)];
  }

  // ------------------------------------------------------------ deletion and preferences

  function Deleted(t: Table, f: string, ts: int): Table {
    if f !in t then t
    else t[f := t[f].(deleted := true, enabled := false, addToDock := false, overrides := NO_OVERRIDES,
                      updatedAt := ts)]
  }

  // A deleted row is off, off the dock and without overrides; it keeps what the system said of it.
  lemma DeletedMeaning(t: Table, f: string, ts: int, g: string)
    requires g in t
    ensures g in Deleted(t, f, ts)
    ensures g != f ==> Deleted(t, f, ts)[g] == t[g]
    ensures g == f ==>
      var r := Deleted(t, f, ts)[g];
      && r.deleted && !r.enabled && !r.addToDock && r.updatedAt == ts
      && r.overrides.name == r.overrides.exec == r.overrides.categories == None
      && r.content == t[g].content && r.managed == t[g].managed
  {}

  // Deleting and synchronising again amounts to a fresh import, except for `managed`.
  lemma DeleteThenSyncIsFreshImport(t: Table, es: seq<Entry>, deletedAt: int, ts: int, f: string)
    requires f in t && Mentions(es, f)
    ensures Deleted(t, f, deletedAt)[f].deleted
    ensures var r := Synced(Deleted(t, f, deletedAt), es, ts);
      f in r && r[f] == Imported(LastFor(es, f), ts).(managed := t[f].managed)
    ensures var i := Synced(map[], es, ts); f in i && i[f] == Imported(LastFor(es, f), ts)
  {
    SyncKeepsUserChoices(Deleted(t, f, deletedAt), es, ts, f);
    SyncKeepsUserChoices(map[], es, ts, f);
  }

  // A text that says something: not missing, and not only white space.
  ghost predicate Says(s: Option<string>) {
    s.Some? && exists i :: 0 <= i < |s.value| && !Text.IsSpace(s.value[i])
  }

  function NonBlank(s: Option<string>): (r: Option<string>)
    ensures r == s || r == None
    ensures r.Some? <==> Says(s)
  {
    if s.Some? then
      Text.AllSpaceTrims(s.value, Text.IsSpace);
      if Text.Stripped(s.value) == "" then None else s
    else None
  }

  function WithPrefs(t: Table, f: string, enabled: bool, addToDock: bool, user: Overrides, ts: int): Table {
    if f !in t then t
    else
      var mine := NonBlank(user.categories);
      var effective := if mine.Some? then mine.value else t[f].content.categories;
      var content := t[f].content.(category := Categories.BucketName(Categories.PickSplit(effective)));
      t[f := t[f].(content := content, enabled := enabled, addToDock := addToDock, updatedAt := ts,
                   overrides := Overrides(NonBlank(user.name), NonBlank(user.exec), mine))]
  }

  // The user's choices are what the row says afterwards; its category is that of the user's
  // categories if they say something, and of the system's otherwise.
  lemma PrefsMeaning(t: Table, f: string, enabled: bool, addToDock: bool, user: Overrides, ts: int, g: string)
    requires g in t
    ensures var u := WithPrefs(t, f, enabled, addToDock, user, ts);
      && g in u && (g != f ==> u[g] == t[g])
      && (g == f ==>
            && u[g].enabled == enabled && u[g].addToDock == addToDock && u[g].updatedAt == ts
            && u[g].deleted == t[g].deleted && u[g].managed == t[g].managed
            && u[g].overrides.name == (if Says(user.name) then user.name else None)
            && u[g].overrides.exec == (if Says(user.exec) then user.exec else None)
            && u[g].overrides.categories == (if Says(user.categories) then user.categories else None)
            && u[g].content == t[g].content.(category := u[g].content.category)
            && u[g].content.category == Categories.BucketName(Categories.PickSplit(
                 if Says(user.categories) then user.categories.value else t[g].content.categories)))
  {}

  // A later synchronisation keeps the user's overrides and flags, but not the category they
  // implied: that goes back to the system's.
  lemma SyncKeepsPrefsButNotCategory(t: Table, es: seq<Entry>, f: string, enabled: bool, addToDock: bool,
                                     user: Overrides, at: int, ts: int)
    requires f in t && !t[f].deleted && Mentions(es, f)
    ensures var r := Lookup(Synced(WithPrefs(t, f, enabled, addToDock, user, at), es, ts), f);
      && r.Some? && r.value.enabled == enabled && r.value.addToDock == addToDock
      && r.value.overrides == Overrides(NonBlank(user.name), NonBlank(user.exec), NonBlank(user.categories))
      && r.value.content.category == LastFor(es, f).category
  {
    SyncKeepsUserChoices(WithPrefs(t, f, enabled, addToDock, user, at), es, ts, f);
  }

  // ------------------------------------------------------------ the store

  class Store {
    var table: Table

    constructor ()
      ensures table == map[]
    {
      table := map[];
    }

    method SyncSystemEntries(es: seq<Entry>, ts: int)
      modifies this
      ensures table == Synced(old(table), es, ts)
    {
      for i := 0 to |es|
        invariant table == Synced(old(table), es[..i], ts)
      {
        var e := es[i];
        assert es[..i + 1][..i] == es[..i];
        if e.filename !in table {
          table := table[e.filename := Row(e.content, NO_OVERRIDES, false, true, false, false, ts)];
        } else {
          var r := table[e.filename];
          if r.deleted || r.content != e.content {
            var enabled := if r.deleted then true else r.enabled;
            var addToDock := if r.deleted then false else r.addToDock;
            r := r.(content := e.content, enabled := enabled, addToDock := addToDock, deleted := false,
                updatedAt := ts);
          }
          table := table[e.filename := r];
        }
      }
      assert es[..|es|] == es;
    }

    method DeleteEntry(f: string, ts: int)
      modifies this
      ensures table == Deleted(old(table), f, ts)
    {
      if f in table {
        table := table[f := table[f].(deleted := true, enabled := false, addToDock := false,
                                      overrides := NO_OVERRIDES, updatedAt := ts)];
      }
    }

    method SetUserPrefs(f: string, enabled: bool, addToDock: bool, user: Overrides, ts: int)
      modifies this
      ensures table == WithPrefs(old(table), f, enabled, addToDock, user, ts)
    {
      var systemCategories := "";
      if f in table {
        systemCategories := table[f].content.categories;
      }
      var mine := NonBlank(user.categories);
      var effective := if mine.Some? then mine.value else systemCategories;
      var mapped := Categories.PickMapped(effective);
      if f in table {
        var r := table[f];
        table := table[f := r.(content := r.content.(category := Categories.BucketName(mapped)),
                               enabled := enabled, addToDock := addToDock, updatedAt := ts,
                               overrides := Overrides(NonBlank(user.name), NonBlank(user.exec), mine))];
      }
    }
  }
}

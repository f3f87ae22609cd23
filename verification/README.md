# Nizam desktop: a verified model of its stateful logic

Nizam is a small X11 desktop: a dock, a panel, a file explorer, a settings program and build
tools. Most of it talks to X11, GTK, D-Bus or SQLite. Between those calls sit a few
self-contained pieces of state and arithmetic, and this project models those and proves what they
are for.

- **Icon caches.** `Lru` is an abstract least-recently-used cache, run over a trace of requests.
  `DockIconCache` (heap entries on a doubly linked list plus a hash map) and `PanelIconCache`
  (slot indices threaded through a fixed array, with cairo reference counts) both refine it: after
  every operation the concrete contents and counters equal the abstract run over all requests so
  far. What is proved about runs therefore holds of both. The panel also conserves references:
  each surface has as many as there are slots and callers holding it.
- **The comment stripper.** `StripScanner` is the awk state machine, line by line; `StripLexer` is
  a token-level reference; `StripStability` and `StripTheorems` connect them: one pass prints
  exactly the tokens with each comment reduced to its newlines, line feeding is one scan, and the
  result reads as the original tokens without comments if and only if no empty string literal gets
  glued to a following quote.
- **The dock's event loop.** `DockLoop` is the auto-hide machine with its deadlines, suppression
  windows, debounce, menu state, poll timeouts and redraw coalescing. The clock moves as it likes;
  the events, the pointer and whatever else a turn meets are its environment, and a run takes any
  sequence of these. The invariant speaks of the whole history of shows, hides and polls; each turn
  reports which events it handled and why a passed deadline did not hide the dock.
- **The explorer.** `Explorer` has the token-and-cancel protocol of directory loads under any
  interleaving, and the two history stacks as a list with a cursor. `Bookmarks` has the bookmark
  file's reader and writer.
- **Dock layout.** `DockLayout` has the drawing loops and the hit tests, which compute positions
  separately, and shows that they agree.
- **Tray menus, desktop entries, categories.** `MenuFlatten` flattens a dbusmenu layout through a
  growing buffer; `DesktopStore` is the entry table with its upsert; `Categories` compares the C
  and the Vala category pickers.

`Text` and `Wrappers` hold shared helpers. A method is proved against a function of its inputs or of
the old state; what the source promises is then proved about that function.

## Main results

- Over any run the caches hold exactly the most recently requested keys (`Lru.RunHoldsMostRecent`),
  each hit returns what was stored (`Lru.HitsReturnStoredSurface`), a larger capacity never has
  fewer hits (`Lru.Inclusion`); both implementations are such runs
  (`DockIconCache.IconCache.Get`, `PanelIconCache.IconCache.LoadIcon`), references conserved.
- The stripper's output reads as the original tokens without comments exactly when nothing is glued
  (`StripTheorems.StripPreservesTokens`), and feeding it lines is one scan
  (`StripScanner.StripFile`).
- Every run of the dock's loop keeps its whole history sound, and every turn that runs to its end
  handles its events in order and hides the dock when a deadline has passed, unless for one of the
  stated reasons (`DockLoop.Dock.Run`, `DockLoop.TogglesAlternate`).
- Any interleaving of loads commits in request order and settles on the newest
  (`Explorer.Window.Session`, `Explorer.WhenSettled`); the history is a list with a cursor
  (`Explorer.HistoryIsListWithCursor`, `Explorer.Window.Browse`).
- Hit tests agree with what was drawn (`DockLayout.HitDrawn`, `DockLayout.HitDrawnTray`,
  `DockLayout.HitAnchor`).
- Menu lists by depth (`MenuFlatten.FlattenByDepth`), bookmarks read and written
  (`Bookmarks.RewriteKeepsNamedLines`), synchronisation of entries
  (`DesktopStore.SyncKeepsUserChoices`), agreement of the category pickers
  (`Categories.FormsAgreeIff`).

Where the code does not keep a promise on all inputs, the exact condition is proved, and an input
on which it fails is given:

- stripping keeps the tokens exactly when nothing is glued (`StripPreservesTokens`); when nothing is
  glued a second pass changes nothing, and when something is it may or may not
  (`GluedTextIsNotStable`, `GluedTextMayBeStable`). The exact condition for the second pass is one on
  the first pass's output, that it holds no comment (`IdempotentIffNoCommentLeft`); on the input
  only the sufficient half is stated;
- a menu's flat list determines its forest exactly when no shown node has id zero
  (`DeterminedIffNamed`, `RebuildInvertsIffNamed`; `UnnamedLeafLeavesNoTrace`);
- reading undoes writing of bookmarks exactly when the names are clean or the default ones
  (`ReadUndoesWriteIffSettled`), and a default name survives rewriting exactly when it is clean or
  blank (`RewriteKeepsUrisAndNames`, `AddThenRemoveRestores`; `DefaultNameMayChange`);
- synchronising desktop entries twice is synchronising once exactly when the batch does not
  disagree with itself about a file or both runs fall in the same second
  (`SyncTwiceIsOnceIffConsistent`; `DisagreeingBatchIsNotStable`);
- a Back or Forward keeps the visited list exactly when its load succeeds
  (`BackKeepsListIffLoadSucceeds`, `ForwardKeepsListIffLoadSucceeds`; `FailedBackLosesPlace`);
- the category pickers agree exactly under the condition of `FormsAgreeIff`, always so when the only
  white space is spaces and tabs (`FormsAgree`; `NewlineTellsApart`).

Two branches of the source turn out never to run. After an eviction the panel always finds a free
slot (`PanelIconCache.IconCache.MakeRoom`). A finished load that has not been cancelled is always
the newest, so the explorer's comparison of tokens never fires, wrap-around of the 32-bit token
included (`Explorer.Window.FinishLoad`).

The dialog text of the settings program suggests that deleted entries stay deleted; the SQL revives
them on the next synchronisation, and the model follows the SQL (`DeleteThenSyncIsFreshImport`).

## Model

The main results come first; the steps they rest on follow, module by module.

| member | source | states |
|---|---|---|
| Lru.RunHoldsMostRecent | nizam-dock/src/icon_surface_cache.c:243-309 | over any run the cache is, in recency order, exactly the max(1, capacity) most recently requested distinct keys since the last clear whose request yielded a surface |
| Lru.HitsReturnStoredSurface | nizam-dock/src/icon_surface_cache.c:262-266 | over any run every hit returns the surface stored when its key was inserted, and every cached entry goes back to such an insertion |
| Lru.CountersBalance | nizam-dock/src/icon_surface_cache.c:263-306 | after any run misses = evictions + size + failed loads + entries dropped by clear |
| Lru.Inclusion | nizam-dock/src/icon_surface_cache.c:243-309 | a larger capacity never has fewer hits: each hit of the smaller cache is the same hit of the larger |
| DockIconCache.CacheHoldsMostRecent | nizam-dock/src/icon_surface_cache.c:218-309 | after any run of get and clear list, map and counters hold exactly the most recently requested keys, one surface alive for each, and misses balance |
| DockIconCache.IconCache.Get | nizam-dock/src/icon_surface_cache.c:243-309 | a cached key gives the surface stored for it, any other what its load yields, blank names nothing; list, map and counters stay equal to the abstract run over the longer trace |
| DockIconCache.IconCache.Clear | nizam-dock/src/icon_surface_cache.c:218-232 | leaves an empty consistent cache with no surface alive: the abstract clear |
| PanelIconCache.CacheHoldsMostRecent | nizam-panel/src/main.c:347-420 | after any run the slots in use hold exactly the 64 most recently requested distinct keys in recency order, and misses balance |
| PanelIconCache.WalkVisitsEverySlotInUse | nizam-panel/src/main.c:288-330 | following next from head visits every slot in use exactly once, prev from tail is its inverse, used is the length |
| PanelIconCache.IconCache.LoadIcon | nizam-panel/src/main.c:1191-1212 | the answer is the surface of the slot in use that has the key, or else what the load yields; the caller gets exactly one reference to it, references stay conserved, and the cache stays equal to the abstract run, so keys stay distinct |
| PanelIconCache.IconCache.MakeRoom | nizam-panel/src/main.c:380-393 | after at most one eviction there is a free slot: the branch that gives up is unreachable |
| StripTheorems.StripPreservesTokens | tools/strip_comments.sh:11-66 | the output reads as the original tokens without comments, if and only if nothing is glued |
| StripTheorems.StripIsIdempotent | tools/strip_comments.sh:11-66 | if nothing is glued, all literals survive in order and a second pass changes nothing |
| StripTheorems.StripKeepsLines | tools/strip_comments.sh:11-66 | the output is a subsequence of the input with every newline in it |
| StripTheorems.IdempotentIffNoCommentLeft | tools/strip_comments.sh:68-73 | a second pass changes nothing if and only if the output of the first holds no comment, as it does whenever nothing was glued |
| StripScanner.StripFile | tools/strip_comments.sh:15-66 | feeding the records one by one with carried state prints the scan of the whole text |
| DockLoop.Dock.Run | nizam-dock/src/xcb_app.c:2137-2300 | after any number of turns every hide came min(hide_delay, 30000) ms after it was scheduled with no cancel since, the delay being the initial or the default one; toggles alternate, the panel is in place, every poll was sound. Each turn that ran to its end, from where the one before had left the dock, handled its events in order and hid the dock if a deadline had passed, unless a menu, a suppression window, the pointer or the debounce kept it. With auto-hide off a shown dock stays shown |
| DockLoop.TogglesAlternate | nizam-dock/src/xcb_app.c:965-1318 | over a whole run every hide is justified, shows and hides strictly alternate, hides first, and are at least 200 ms apart for each step between them |
| DockLoop.Dock.PollTimeout | nizam-dock/src/xcb_app.c:2196-2223 | the timeout is the earliest pending deadline: never late, zero for a redraw, infinite only when nothing is pending |
| Explorer.Window.Session | nizam-explorer/src/window.vala:866-957 | any requests, clicks, successes and failures in any order leave commits, history, outstanding loads and directory as the state machine over these steps has them; the committed history is only extended, and with none outstanding the actions are enabled and the directory is the newest target if it succeeded |
| Explorer.WhenSettled | nizam-explorer/src/window.vala:901-957 | once the newest load is over the actions are enabled and the current directory is its target if it succeeded, else the last committed one |
| Explorer.CommitsInRequestOrder | nizam-explorer/src/window.vala:901-957 | any two commits are in the order of their requests, none twice |
| Explorer.AnswersInAnyOrder | nizam-explorer/src/window.vala:901-957 | once no more is asked for, answers in any order, late or repeated, matter only in the first one to the newest request: it commits or fails, all others change nothing |
| Explorer.HistoryIsListWithCursor | nizam-explorer/src/window.vala:866-878 | over any settled actions the two stacks are the visited list with a cursor, and no two neighbours are equal |
| Explorer.Window.Browse | nizam-explorer/src/window.vala:866-957 | any sequence of actions whose loads succeed leaves the window with exactly the list and cursor of the abstract history, no two neighbours equal |
| Explorer.BackKeepsListIffLoadSucceeds | nizam-explorer/src/window.vala:866-871 | a Back keeps the list if and only if its load succeeds |
| Explorer.ForwardKeepsListIffLoadSucceeds | nizam-explorer/src/window.vala:873-878 | a Forward keeps the list if and only if its load succeeds |
| DockLayout.RowsAreCategories | nizam-dock/src/config.c:723-735 | after the sort two launchers share a row exactly when their categories are equal ignoring case |
| DockLayout.HitDrawn | nizam-dock/src/xcb_app.c:1320-1332 | on what was drawn the hit test answers i exactly for the points of rectangle i |
| DockLayout.RectsWithinPadding | nizam-dock/src/xcb_app.c:1680-1720 | the width computed apart from the drawing keeps every rectangle within the padding |
| DockLayout.DrawTray | nizam-dock/src/cairo_draw.c:319-409 | the embedded icons, where their window and its own layout put them, and the item icons, where the drawing loop puts them, form one evenly spaced row inside the panel, at its bottom right |
| DockLayout.HitDrawnTray | nizam-dock/src/xcb_app.c:1334-1357 | on what was drawn the hit test answers i exactly on the span of item icon i, its bottom line included |
| DockLayout.HitAnchor | nizam-dock/src/xcb_app.c:1377-1381 | the point a menu is anchored at is the centre of the icon as drawn, and hit-testing it gives back the icon |
| MenuFlatten.FlattenByDepth | nizam-dock/src/sni.c:1804-1898 | the flat list holds for each depth 0 to 4 exactly the named nodes at that depth in order, the depth as level, and nothing deeper |
| MenuFlatten.RebuildInverts | nizam-dock/src/sni.c:1804-1898 | with all ids nonzero a rebuild function reads the pruned forest back off the flat list |
| MenuFlatten.DeterminedIffNamed | nizam-dock/src/sni.c:1804-1898 | among layouts that alike name all shown nodes or alike do not, the flat list determines the pruned forest if and only if they are all named |
| Bookmarks.ReadUndoesWriteIffSettled | nizam-explorer/src/window.vala:765-864 | reading undoes writing if and only if every name is clean or the default one |
| Bookmarks.RewriteKeepsNamedLines | nizam-explorer/src/window.vala:765-864 | for any file text, after rewriting every line that gives a name of its own reads exactly as before |
| Bookmarks.RewriteKeepsUrisAndNames | nizam-explorer/src/window.vala:765-864 | for any file text read-write-read keeps all URIs, changes no name but a default one, and keeps a name if and only if it is clean or blank |
| Bookmarks.AddThenRemoveRestores | nizam-explorer/src/window.vala:2330-2359 | adding and removing an absent URI leaves what rewriting leaves: the list itself if and only if every name survives that |
| DesktopStore.SyncKeepsUserChoices | nizam-settings/src/applications/DesktopEntryStore.vala:40-93 | a sync leaves other rows alone, gives the rows it mentions their last content, never touches overrides, keeps enabled and add_to_dock on undeleted rows, and makes new and revived rows enabled, off the dock and freshly stamped |
| DesktopStore.SyncTwiceIsOnceIffConsistent | nizam-settings/src/applications/DesktopEntryStore.vala:40-93 | a second sync changes nothing, time stamps included, if and only if the batch does not disagree about a file or both fall in the same second |
| DesktopStore.DeleteThenSyncIsFreshImport | nizam-settings/src/applications/DesktopEntryStore.vala:136-147 | delete then sync gives exactly a fresh import, time stamp included, except for managed |
| Categories.FormsAgreeIff | nizam-panel/src/menu.c:388-423 | on any list scanning and splitting pick the same bucket if and only if no part maps once stripped, or the first that does maps with only blanks trimmed too, or the rest of the scan happens to find its bucket |
| Categories.FormsAgree | nizam-panel/src/menu.c:388-423 | in particular whenever the only white space is spaces and tabs |
| Lru.RecencyMeaning | nizam-dock/src/icon_surface_cache.c:96-102 | the reference recency list holds each requested key once, ordered by last request |
| Lru.YieldsIgnoreCapacity | nizam-dock/src/icon_surface_cache.c:262-274 | when loading a key always has the same outcome, which requests yield a surface does not depend on the capacity |
| Lru.CachePrefix | nizam-dock/src/icon_surface_cache.c:262-306 | on the same requests the smaller cache's contents are a prefix of the larger's |
| Lru.FetchedKeys | nizam-dock/src/icon_surface_cache.c:261-306 | one request turns the front of the old recency list into the front of the new one, whether hit, load or failure |
| Lru.ResultMeaning | nizam-dock/src/icon_surface_cache.c:261-308 | a request is a hit exactly if the key is cached and then gives a surface stored for it; otherwise it gives what the load yields |
| Lru.EveryFetchCounts | nizam-dock/src/icon_surface_cache.c:262-267 | over any run each request counts once, as a hit or as a miss |
| DockIconCache.IconCache.Unlink | nizam-dock/src/icon_surface_cache.c:64-80 | takes one entry out of a well-linked list and leaves the rest linked in order |
| DockIconCache.IconCache.LinkHead | nizam-dock/src/icon_surface_cache.c:82-94 | puts an unlisted entry in front of a well-linked list |
| DockIconCache.IconCache.Touch | nizam-dock/src/icon_surface_cache.c:96-102 | moves an entry to the front and keeps the order of the others |
| DockIconCache.IconCache.EvictTail | nizam-dock/src/icon_surface_cache.c:276-283 | drops the least recently used entry from list, map and counts, which stay consistent, and gives back its surface |
| DockIconCache.IconCache.Fetch | nizam-dock/src/icon_surface_cache.c:255-309 | gives back the surface stored for the key, or else what the load yields; list, map, answer and counters are those of one abstract request |
| DockIconCache.IconCache.DestroyAll | nizam-dock/src/icon_surface_cache.c:222-227 | the walk from the head gives back the surface of each listed entry exactly once, in order |
| DockIconCache.HitRefines | nizam-dock/src/icon_surface_cache.c:262-266 | moving the entry found to the front is the abstract hit |
| DockIconCache.LoadRefines | nizam-dock/src/icon_surface_cache.c:276-306 | dropping the tail of a full list and linking the new entry first is the abstract load |
| PanelIconCache.BothWaysRound | nizam-panel/src/main.c:288-305 | the two link directions spell out the same list and stop there |
| PanelIconCache.SpliceThreads | nizam-panel/src/main.c:288-296 | clearing an index's links and joining its neighbours removes it from the list, whatever its place |
| PanelIconCache.PushThreads | nizam-panel/src/main.c:298-305 | the writes of linking put an unlisted index in front |
| PanelIconCache.Pigeonhole | nizam-panel/src/main.c:380-393 | distinct slot indices fill the array exactly when there are 64, so no free slot means a full list |
| PanelIconCache.HitRefines | nizam-panel/src/main.c:355-364 | moving the slot that matches to the front is the abstract hit |
| PanelIconCache.LoadRefines | nizam-panel/src/main.c:380-417 | filling the freed slot and linking it first is the abstract load |
| PanelIconCache.IconCache.Unlink | nizam-panel/src/main.c:288-296 | the list without that index; keys, surfaces and references untouched |
| PanelIconCache.IconCache.LinkHead | nizam-panel/src/main.c:298-305 | the list with that index in front; keys, surfaces and references untouched |
| PanelIconCache.IconCache.Touch | nizam-panel/src/main.c:307-311 | moves one index to the front and keeps the order of the others |
| PanelIconCache.IconCache.EvictTail | nizam-panel/src/main.c:313-330 | frees the least recently used slot; the list stays exactly the slots in use |
| PanelIconCache.IconCache.Place | nizam-panel/src/main.c:380-419 | an insertion of an absent key is the abstract load, evicting only from a full cache |
| PanelIconCache.IconCache.Insert | nizam-panel/src/main.c:371-420 | refuses empty names and paths; otherwise the abstract load, given that the key is absent |
| PanelIconCache.IconCache.Lookup | nizam-panel/src/main.c:347-369 | hit or miss exactly as the abstract cache; paths touch nothing; a miss proves the key absent |
| PanelIconCache.IconCache.Release | nizam-panel/src/menu.c:1327-1330 | a caller dropping the reference it was given keeps references conserved |
| PanelIconCache.IconCache.DestroyAll | nizam-panel/src/main.c:332-345 | the abstract clear: empty list, no slot in use, only callers hold references |
| PanelIconCache.ReferencesCount | nizam-panel/src/main.c:313-420 | a surface has exactly as many references as there are slots in use holding it plus callers owning one |
| StripLexer.LexCoversText | tools/strip_comments.sh:24-63 | the tokens are the text, nothing left out |
| StripLexer.LineNumbersPreserved | tools/strip_comments.sh:39-49 | up to any token, output and input have the same newlines: line numbers are kept |
| StripLexer.RenderSubsequence | tools/strip_comments.sh:24-63 | stripping only deletes characters |
| StripLexer.QuoteLenMeaning | tools/strip_comments.sh:46-58 | a quoted literal ends at its first quote with an even number of backslashes directly before it |
| StripLexer.FirstMeaning | tools/strip_comments.sh:28-63 | which two or three characters begin which token, and where each ends: a line comment before the newline, a block comment with its first closer, a raw string with its first triple quote, a literal with its first quote not escaped |
| StripScanner.StripAt | tools/strip_comments.sh:24-63 | one pass through the loop body prints, consumes and moves as one step of the scan |
| StripScanner.StripLine | tools/strip_comments.sh:15-64 | one record, newline supplied, prints and ends as the scan from the carried state |
| StripScanner.JoinRecords | tools/strip_comments.sh:20-21 | the records with a newline each make up the text, its last newline supplied if missing |
| StripScanner.AdvanceLocal | tools/strip_comments.sh:24-63 | one step never looks past a newline |
| StripScanner.ScanConcat | tools/strip_comments.sh:15-66 | scanning can be cut after any newline, the state carried over |
| StripScanner.ScanIsRender | tools/strip_comments.sh:24-63 | the state machine prints exactly the tokens with each comment reduced to its newlines |
| StripStability.LiteralLocal | tools/strip_comments.sh:31-35 | a literal reads the same whatever follows it, unless it is the empty string before a quote |
| StripStability.CodeLocal | tools/strip_comments.sh:29-37 | removing comments never creates a comment opener |
| StripStability.RenderStartsWithQuote | tools/strip_comments.sh:31-35 | the stripped rest starts with a quote exactly when a quoted literal comes next, past newline-free block comments only |
| StripStability.GluedRecMeaning | tools/strip_comments.sh:31-35 | the recursive test for gluing is: some empty string, then only newline-free block comments, then a quoted literal |
| StripStability.TokensSurvive | tools/strip_comments.sh:15-66 | lexing the output gives the kept tokens if and only if nothing is glued |
| StripTheorems.StripIsRender | tools/strip_comments.sh:11-66 | one pass is the token-level stripping of the text, every literal verbatim, and ends in a newline |
| StripTheorems.UnchangedIffCommentFree | tools/strip_comments.sh:68-73 | a pass leaves a file alone if and only if it ends its last line and holds no comment |
| StripTheorems.GluedTextIsNotStable | tools/strip_comments.sh:31-35 | a concrete glued text that a second pass changes |
| StripTheorems.GluedTextMayBeStable | tools/strip_comments.sh:31-35 | a concrete glued text that a second pass leaves alone |
| DockLoop.SlideIsMonotone | nizam-dock/src/xcb_app.c:952-963 | the truncating slide ends exactly at its target, never overshoots, never turns back |
| DockLoop.Dock.ScheduleHide | nizam-dock/src/xcb_app.c:244-263 | arms a deadline min(hide_delay, 30000) ms ahead and records that delay, unless hidden, a menu is open or hiding is off |
| DockLoop.Dock.SlideWindow | nizam-dock/src/xcb_app.c:952-963 | ten truncating steps end exactly at the target |
| DockLoop.Dock.ShowDock | nizam-dock/src/xcb_app.c:965-992 | shows a hidden dock at its visible position and records it; declines only within the debounce time |
| DockLoop.Dock.HideDock | nizam-dock/src/xcb_app.c:1280-1318 | hides only with no menu, the pointer outside, no suppression and no cancel for min(hide_delay, 30000) ms, and records that; declines only for a suppression window, the pointer or the debounce |
| DockLoop.Dock.ChangeGeometry | nizam-dock/src/xcb_app.c:1715-1737 | new monitor or panel width keeps the panel exactly where its state says |
| DockLoop.Dock.OnPointer | nizam-dock/src/xcb_app.c:746-778 | pointer events show but never hide; leaving arms the deadline |
| DockLoop.Dock.OnPress | nizam-dock/src/xcb_app.c:779-840 | a press closes the open menu; a right press on a tray item opens that item's menu if it can be fetched, and nothing else opens one; a press on the dock cancels the hide and suppresses the next for 250 ms, an opened menu for 60 s |
| DockLoop.Dock.OnRelease | nizam-dock/src/xcb_app.c:841-906 | a release off the menu closes it; a left one on a tray item with a menu opens it if it can be fetched; nothing else opens one; the pending hide stays as it was |
| DockLoop.Dock.ProcessEvent | nizam-dock/src/xcb_app.c:685-935 | any event keeps the invariant, does to pointer, press and release state what those events ask, may show but never hide, and never loses a redraw |
| DockLoop.Dock.ExpireRaise | nizam-dock/src/xcb_app.c:2187-2194 | a raise suppression ends exactly when its time has come, with a forced redraw of a shown dock |
| DockLoop.Dock.ArmStep | nizam-dock/src/xcb_app.c:2270-2278 | outside the suppression window the pointer decides: inside disarms, outside arms |
| DockLoop.Dock.FireStep | nizam-dock/src/xcb_app.c:2280-2286 | a passed deadline is spent; a hide it causes owes a forced redraw |
| DockLoop.Dock.HideStep | nizam-dock/src/xcb_app.c:2269-2287 | a passed deadline hides the dock unless a menu, the suppression window, the pointer or the debounce keeps it; otherwise the hide is armed under the same exceptions; only a shown dock hides |
| DockLoop.Dock.MaybeDraw | nizam-dock/src/xcb_app.c:2126-2135 | draws exactly when forced, never drawn before, or 50 ms have passed |
| DockLoop.Dock.DrawStep | nizam-dock/src/xcb_app.c:2288-2296 | no forced redraw, nor a closed menu's, is left undrawn, and any other redraw asked for is drawn once 50 ms have passed since the last |
| DockLoop.Dock.DrainEvents | nizam-dock/src/xcb_app.c:2244-2266 | handles every event, in order, each from where the one before had left the dock, and does what it asks |
| DockLoop.Dock.Turn | nizam-dock/src/xcb_app.c:2146-2298 | a turn that runs to its end has handled its events in order, looked at the deadline and drawn what was owed; it keeps the whole history sound, and an interrupted poll leaves everything pending |
| DockLoop.Dock.Reload | nizam-dock/src/xcb_app.c:2149-2167 | the defaults, the panel in place, a forced redraw; a disabled dock stops |
| Explorer.BackMovesCursor | nizam-explorer/src/window.vala:866-871 | a Back whose load succeeds leaves the list unchanged and moves the cursor one back |
| Explorer.ForwardMovesCursor | nizam-explorer/src/window.vala:873-878 | a Forward whose load succeeds leaves the list unchanged and moves the cursor one on |
| Explorer.ForwardUndoesBack | nizam-explorer/src/window.vala:866-878 | Forward undoes Back and Back undoes Forward |
| Explorer.VisitTruncates | nizam-explorer/src/window.vala:946-951 | visiting another directory drops what lay ahead of the cursor |
| Explorer.History.PopBack | nizam-explorer/src/history.vala:27-32 | undoes the last push, or nothing on an empty stack |
| Explorer.History.PopForward | nizam-explorer/src/history.vala:34-39 | undoes the last push, or nothing on an empty stack |
| Explorer.Window.CancelCurrent | nizam-explorer/src/window.vala:904-906 | afterwards every outstanding load is cancelled |
| Explorer.Window.StartLoad | nizam-explorer/src/window.vala:901-912 | the new load is the only one not cancelled; actions are disabled, history untouched |
| Explorer.Window.FinishLoad | nizam-explorer/src/window.vala:914-957 | under any interleaving only the newest request has any effect on directory, history or actions |
| Explorer.Window.BackClicked | nizam-explorer/src/window.vala:866-871 | moves the stacks and starts a load of the popped directory, also while others are outstanding |
| Explorer.Window.ForwardClicked | nizam-explorer/src/window.vala:873-878 | moves the stacks and starts a load of the popped directory, also while others are outstanding |
| Explorer.Window.Settle | nizam-explorer/src/window.vala:866-957 | an action whose load succeeds moves the history as the list with a cursor does, whatever stale loads are about |
| Explorer.FailedBackLosesPlace | nizam-explorer/src/window.vala:866-871 | a concrete failed Back after which a place has disappeared from the list |
| Bookmarks.ReadWrittenLine | nizam-explorer/src/window.vala:828-860 | reading one written line gives the URI and the cleaned name back |
| Bookmarks.OuterSpaceIsIgnored | nizam-explorer/src/window.vala:828-831 | white space around a line, such as a carriage return, makes no difference to what is read |
| Bookmarks.WriteThenRead | nizam-explorer/src/window.vala:765-864 | reading a written file gives every bookmark back with its cleaned or default name |
| Bookmarks.ReadUndoesWrite | nizam-explorer/src/window.vala:765-864 | reading undoes writing for file URIs without spaces and non-empty, stripped, one-line names |
| Bookmarks.BookmarkFile.ReadBookmarks | nizam-explorer/src/window.vala:818-864 | reads every line of the file that starts with the scheme, in order |
| Bookmarks.BookmarkFile.ParseLine | nizam-explorer/src/window.vala:828-847 | splits at the first space; a blank name gives way to the default |
| Bookmarks.BookmarkFile.WriteBookmarks | nizam-explorer/src/window.vala:765-794 | writes one line for each file URI, others dropped |
| Bookmarks.BookmarkFile.AddCurrent | nizam-explorer/src/window.vala:2321-2345 | an absent URI is read back last, with its name or else the default one, after the others as rewriting leaves them; a present one leaves the file alone |
| Bookmarks.BookmarkFile.RemoveCurrent | nizam-explorer/src/window.vala:2347-2359 | the URI is gone and the others read back in order, as rewriting leaves them |
| Bookmarks.WithoutMeaning | nizam-explorer/src/window.vala:2352-2355 | removing a URI removes every bookmark with it and keeps each other as often as it was |
| Bookmarks.PaddedNameIsCut | nizam-explorer/src/window.vala:777-847 | a default name that ends in a space loses it when the file is rewritten |
| Bookmarks.DefaultNameMayChange | nizam-explorer/src/window.vala:841-847 | a concrete file that does not read the same after rewriting |
| DockLayout.MaxLaunchersPerCategory | nizam-dock/src/xcb_app.c:1620-1643 | the answer is the length of the widest drawn row, attained by one |
| DockLayout.DrawLaunchers | nizam-dock/src/cairo_draw.c:263-317 | the nested loops put every launcher in its category's row, one stride apart |
| DockLayout.RectsStepByStep | nizam-dock/src/cairo_draw.c:263-317 | the first icon lies below the information lines and its label; the next one beside it, or for a new category at the left below its own label |
| DockLayout.RectsDisjoint | nizam-dock/src/cairo_draw.c:263-317 | no point lies in two launcher rectangles |
| DockLayout.PanelWidth | nizam-dock/src/xcb_app.c:1680-1720 | between the paddings the panel is exactly as wide as the widest of the least width, the longest row, the tray, the longest label and the longest information line |
| DockLayout.HitTestLauncher | nizam-dock/src/xcb_app.c:1320-1332 | the first rectangle containing the point, -1 exactly when none does |
| DockLayout.LayoutEmbedded | nizam-dock/src/xcb_app.c:1553-1598 | the embedding window's own layout has the same stride and ends with its last icon |
| DockLayout.HitTestTray | nizam-dock/src/xcb_app.c:1334-1357 | answers i exactly on drawn icon i, its bottom line included |
| DockLayout.TrayIconsApart | nizam-dock/src/cairo_draw.c:402-406 | icons of an evenly spaced row do not overlap |
| DockLayout.PlaceTray | nizam-dock/src/cairo_draw.c:325-401 | the first item icon comes one stride after the last place of the embedded ones, the whole tray fits the panel and, where there is room, ends at the padding of its right and bottom edges |
| MenuFlatten.RebuildInvertsIffNamed | nizam-dock/src/sni.c:1874-1876 | the rebuild function recovers the pruned forest if and only if no shown node has id zero |
| MenuFlatten.ItemMeaning | nizam-dock/src/sni.c:1817-1872 | an item is a separator exactly if typed so or invisible, a submenu exactly if displayed so, enabled as the last property about it says, and its caption is the text of the last label, cut at 127, or empty if none or made invisible since |
| MenuFlatten.ChildrenMeaning | nizam-dock/src/sni.c:1877-1897 | a variant of something else among the children leaves no trace, any other type ends them |
| MenuFlatten.MenuBuilder.Push | nizam-dock/src/sni.c:1780-1803 | appends through any number of doublings, from eight on |
| MenuFlatten.ParseNode | nizam-dock/src/sni.c:1804-1898 | appends the node's flattening to the buffer |
| MenuFlatten.ParseChildren | nizam-dock/src/sni.c:1877-1897 | appends the children's, skipping variants of other things and stopping at any other type |
| MenuFlatten.FetchMenu | nizam-dock/src/sni.c:2026-2066 | the whole layout's flattening, an empty one being a failure |
| MenuFlatten.UnnamedIsLost | nizam-dock/src/sni.c:1874-1876 | for any layout that shows a node with id zero there is another with the same flat list and a different pruned forest |
| MenuFlatten.UnnamedLeafLeavesNoTrace | nizam-dock/src/sni.c:1874-1876 | a concrete unnamed node that, put in front of any layout, leaves its flat list as it was |
| DesktopStore.SyncKeepsPrefsButNotCategory | nizam-settings/src/applications/DesktopEntryStore.vala:161-201 | a sync keeps the user's flags and overrides but puts back the system's category |
| DesktopStore.Store.SyncSystemEntries | nizam-settings/src/applications/DesktopEntryStore.vala:71-92 | the loop of upserts is the batch transition on the table |
| DesktopStore.Store.DeleteEntry | nizam-settings/src/applications/DesktopEntryStore.vala:136-147 | marks one row deleted and clears its overrides and flags |
| DesktopStore.Store.SetUserPrefs | nizam-settings/src/applications/DesktopEntryStore.vala:161-201 | sets flags and non-blank overrides and the category they imply |
| DesktopStore.DeletedMeaning | nizam-settings/src/applications/DesktopEntryStore.vala:136-147 | the row is deleted, disabled, off the dock, without overrides and stamped; content, managed and all other rows stay |
| DesktopStore.PrefsMeaning | nizam-settings/src/applications/DesktopEntryStore.vala:161-201 | flags are set, an override is kept exactly if it says something, and the category is that of the override or else of the entry's own list; other rows stay |
| DesktopStore.SecondRun | nizam-settings/src/applications/DesktopEntryStore.vala:40-93 | a second sync leaves each row alone or only renews the stamp that the first has set |
| DesktopStore.DisagreeingBatchIsNotStable | nizam-settings/src/applications/DesktopEntryStore.vala:52-67 | a concrete batch that every sync stamps anew |
| Categories.PickMapped | nizam-settings/src/applications/DesktopEntryUtils.vala:81-93 | the bucket of the first part that maps once stripped, System if none does |
| Categories.PickSplitMeaning | nizam-settings/src/applications/DesktopEntryUtils.vala:81-93 | the split form picks by the first part that maps, no earlier and no later |
| Categories.TakeToken | nizam-dock/src/config.c:227-234 | the pointers delimit exactly the trimmed part up to the next semicolon |
| Categories.CutTokensDoNotMap | nizam-dock/src/config.c:237-243 | cutting a token to 63 characters never changes its bucket |
| Categories.MapNext | nizam-dock/src/config.c:227-249 | one round of the scan decides the first part and leaves the rest |
| Categories.ScanCategories | nizam-dock/src/config.c:206-255 | the dock's scan picks the bucket of the first trimmed part that maps |
| Categories.NamesMap | nizam-dock/src/config.c:146-204 | each bucket is mapped to by exactly the names on its own list, whatever their case |
| Categories.OneNameGivesItsBucket | nizam-dock/src/config.c:206-255 | a list of one name that maps gives its bucket in both forms |
| Categories.NewlineTellsApart | nizam-panel/src/menu.c:388-423 | a concrete list with a newline on which they differ |
| Categories.TrimmedMapsAsStripped | nizam-dock/src/config.c:227-247 | a part that maps with its blanks trimmed maps to the same bucket once stripped |

## Left out

- X11, cairo, D-Bus, SQLite and file access: their results are inputs of the model, their effects on other programs are not modelled.
- Icon search, decoding, the SVG fallback and icon name normalisation: one loader that succeeds or fails, and an uninterpreted key function; allocation is assumed to succeed.
- Integer widths: counters, coordinates, time stamps and serial numbers are unbounded; only the explorer's 32-bit load token wraps around in the model.
- The wall clock: `gettimeofday` is assumed never to go back, on which the debounce and the deadlines rely.
- `DockLoop.Dock.Run`: does not claim that a dock left alone eventually hides, since nothing wakes the loop when a suppression window ends, nor that every redraw is drawn, since one that is not forced is dropped within 50 ms of the last. A turn whose poll is interrupted looks at no deadline.
- `DockLoop.Dock.Reload`: does not claim promptness, since the flag is set without waking the poll; launcher loading is an input.
- `DockLoop.Dock.OnPress`: leaves out launching commands, menu item events and the second `menu_hide` of a right press, which never finds a menu open after the first.
- `DockLoop.Dock.OnMotion`: hover bookkeeping is reduced to whether the hovered icon changed; stacking order of windows is not modelled.
- `DockLoop.Dock.DrainEvents`: takes the events in the order in which the source processes them, after it has merged neighbouring motions; any number in any order is allowed.
- `StripTheorems.IdempotentIffNoCommentLeft`: a condition on the first pass's output; an exact one on the input would have to lex the glued text anew, and gluing alone does not decide it (`StripTheorems.GluedTextMayBeStable`).
- `Categories.CutTokensDoNotMap`: case folding is ASCII only, while the Vala form folds Unicode; strings are sequences of characters and contain no NUL.
- `MenuFlatten.ParseProps`: labels are cut at 127 characters where the source cuts at 127 bytes; property values are already decoded.
- `MenuFlatten.DeterminedIffNamed`: compares a layout with others of its kind only; against all layouts no list determines its forest, since an unnamed leaf can be put in front without a trace (`MenuFlatten.UnnamedLeafLeavesNoTrace`).
- `MenuFlatten.FetchMenu`: the call and the checks of the reply's outer types are inputs; the layout starts at the root's children.
- `Explorer.Window.FinishLoad`: the busy indicator is cleared by any completion, as in the source, so it promises nothing more; sensitivity of single buttons, trees and status texts are left out.
- `Explorer.HistoryIsListWithCursor`: speaks of actions whose load succeeds before the next; a Back or Forward moves the stacks before its result is known, so the law cannot hold of others (`Explorer.BackKeepsListIffLoadSucceeds`, `Explorer.ForwardKeepsListIffLoadSucceeds`).
- `Bookmarks.BookmarkFile.ReadBookmarks`: a missing file reads as empty text; the default name, file type and icon of a URI are inputs or left out; write errors are ignored as in the source.
- `Bookmarks.AddThenRemoveRestores`: the URI added is a file URI without spaces or newlines, as percent-encoded URIs are, and ends in no other white space if no name follows.
- `DesktopStore.Store.SyncSystemEntries`: SQL NULL and the empty string count as the same content, as the comparisons in the SQL make them; SQL errors are left out, as are `load_entries` and its ordering, and `set_user_flags`.
- `DockLayout.RowsAreCategories`: takes the sorted order as given; the sorting itself and the order within a category, which no position depends on beyond its index, are left out.
- `DockLayout.PanelWidth`: the lengths of the longest label and information line are inputs.
- The panel's own menu: it sorts ignoring case but groups case-sensitively, so one row for each category does not hold of it.
- The explorer's pixbuf cache: it stores the unscaled image but returns a scaled one on first load, so agreement does not hold of it.
- GTK pages and dialogs, editor and terminal windows, theme scanning, pekwm files, schema creation and build scripts: user interface, input and output, or straight-line code.

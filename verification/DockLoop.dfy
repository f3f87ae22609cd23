// The dock's event loop: auto-hide with deadlines, suppression windows and debounce, menu
// state, poll timeouts and redraw coalescing.  The clock moves on arbitrarily at every step; what
// else the environment does in a turn - the pointer, the events, what the tray items answer - is given.
module DockLoop {
  import opened Wrappers

  // ------------------------------------------------------------ what is recorded

  // A completed show or hide, with what held when it started.
  datatype Toggle =
    | Show(start: int)
    | Hide(start: int, menuOpen: bool, pointerInside: bool, suppressedUntil: int,
           scheduledAt: int, configured: int, lastCancel: int)

  // The delay a hide waits for, given the configured one.
  function Wait(configured: int): (w: int)
    ensures w <= configured && w <= MAX_DELAY && (w == configured || w == MAX_DELAY)
  {
    if configured > MAX_DELAY then MAX_DELAY else configured
  }

  // The hide delays a run can see: the one it started with, and after a reload the default.
  ghost predicate Known(configured: int, initial: int) {
    configured == initial || configured == DEFAULT_HIDE_DELAY
  }

  // Every hide happens with no menu open, the pointer outside, the suppression window over,
  // and no cancel since it was scheduled, which was at least min(hide delay, 30000) ms ago.
  ghost predicate Justified(t: Toggle, initial: int) {
    t.Hide? ==>
      && !t.menuOpen && !t.pointerInside
      && (t.suppressedUntil == 0 || t.suppressedUntil <= t.start)
      && t.lastCancel <= t.scheduledAt
      && 0 < t.configured && Known(t.configured, initial)
      && t.scheduledAt + Wait(t.configured) <= t.start
  }

  // Shows and hides alternate, hides first, and start at least `DEBOUNCE` ms apart.
  ghost predicate SafeToggles(ts: seq<Toggle>, initial: int) {
    && (forall i {:trigger JustifiedAt(ts, i, initial)} :: JustifiedAt(ts, i, initial))
    && (ts != [] ==> ts[0].Hide?)
    && (forall i {:trigger Apart(ts, i)} :: Apart(ts, i))
  }

  ghost predicate JustifiedAt(ts: seq<Toggle>, i: int, initial: int) {
    0 <= i < |ts| ==> Justified(ts[i], initial)
  }

  ghost predicate Apart(ts: seq<Toggle>, i: int) {
    0 < i < |ts| ==> ts[i].Hide? != ts[i - 1].Hide? && ts[i - 1].start + DEBOUNCE <= ts[i].start
  }

  lemma SafeTogglesSnoc(ts: seq<Toggle>, t: Toggle, initial: int)
    requires SafeToggles(ts, initial) && Justified(t, initial)
    requires if ts == [] then t.Hide? else t.Hide? != ts[|ts| - 1].Hide? && ts[|ts| - 1].start + DEBOUNCE <= t.start
    ensures SafeToggles(ts + [t], initial)
  {
    forall i {:trigger JustifiedAt(ts + [t], i, initial)} ensures JustifiedAt(ts + [t], i, initial) {
      assert JustifiedAt(ts, i, initial);
    }
    forall i {:trigger Apart(ts + [t], i)} ensures Apart(ts + [t], i) {
      assert Apart(ts, i);
    }
  }

  // Over a whole run: every hide is justified, the i-th toggle is a hide exactly when i is
  // even, and any two toggles are apart by the debounce time for each step between them.
  lemma {:induction false} TogglesAlternate(ts: seq<Toggle>, initial: int, i: nat, j: nat)
    requires SafeToggles(ts, initial) && i <= j < |ts|
    ensures Justified(ts[j], initial)
    ensures ts[j].Hide? <==> j % 2 == 0
    ensures ts[i].start + DEBOUNCE * (j - i) <= ts[j].start
    decreases j
  {
    assert JustifiedAt(ts, j, initial);
    if j > 0 {
      assert Apart(ts, j);
      TogglesAlternate(ts, initial, if i < j then i else j - 1, j - 1);
    }
  }

  // What the loop knows when it polls, and the timeout it chooses.
  datatype Poll = Poll(timeout: int, redraw: bool, needsSniPoll: bool,
                       hidePending: bool, hideLeft: int, raisePending: bool, raiseLeft: int)

  function Clamp(left: int): (c: int)
    ensures 0 <= c <= INT32_MAX && (0 <= left <= INT32_MAX ==> c == left) && (left < 0 ==> c == 0)
  {
    if left < 0 then 0 else if left > INT32_MAX then INT32_MAX else left
  }

  // The timeout is the earliest of the pending deadlines, and infinite only if there is none.
  ghost predicate SoundPoll(p: Poll) {
    && (p.redraw ==> p.timeout == 0)
    && (p.needsSniPoll ==> 0 <= p.timeout <= SNI_POLL_MS)
    && (p.hidePending ==> 0 <= p.timeout <= Clamp(p.hideLeft))
    && (p.raisePending ==> 0 <= p.timeout <= Clamp(p.raiseLeft))
    && (p.timeout < 0 <==> !(p.redraw || p.needsSniPoll || p.hidePending || p.raisePending))
    && (p.timeout >= 0 ==>
         || (p.redraw && p.timeout == 0)
         || (p.needsSniPoll && p.timeout == SNI_POLL_MS)
         || (p.hidePending && p.timeout == Clamp(p.hideLeft))
         || (p.raisePending && p.timeout == Clamp(p.raiseLeft)))
  }

  ghost predicate AllSound(ps: seq<Poll>) {
    forall i {:trigger SoundAt(ps, i)} :: SoundAt(ps, i)
  }

  ghost predicate SoundAt(ps: seq<Poll>, i: int) {
    0 <= i < |ps| ==> SoundPoll(ps[i])
  }

  lemma AllSoundSnoc(ps: seq<Poll>, p: Poll)
    requires AllSound(ps) && SoundPoll(p)
    ensures AllSound(ps + [p])
  {
    forall i {:trigger SoundAt(ps + [p], i)} ensures SoundAt(ps + [p], i) {
      assert SoundAt(ps, i);
    }
  }

  const MAX_DELAY := 30000
  const DEBOUNCE := 200
  const SNI_POLL_MS := 1000
  const INT32_MAX := 0x7FFF_FFFF
  const DEFAULT_HIDE_DELAY := 800

  // ------------------------------------------------------------ sliding

  // C's division truncates toward zero.
  function TruncDiv(a: int, b: int): int
    requires b > 0
  {
    if a >= 0 then a / b else -((-a) / b)
  }

  function SlideX(fromX: int, toX: int, i: int): int {
    fromX + TruncDiv((toX - fromX) * i, 10)
  }

  // The slide ends exactly at its target, never overshoots and never turns back.
  lemma SlideIsMonotone(fromX: int, toX: int, i: int)
    requires 0 <= i < 10
    ensures SlideX(fromX, toX, 0) == fromX && SlideX(fromX, toX, 10) == toX
    ensures fromX <= toX ==> fromX <= SlideX(fromX, toX, i) <= SlideX(fromX, toX, i + 1) <= toX
    ensures toX <= fromX ==> toX <= SlideX(fromX, toX, i + 1) <= SlideX(fromX, toX, i) <= fromX
  {
    var d := toX - fromX;
    assert d * (i + 1) == d * i + d;
    if d >= 0 {
      DivSteps(d, i);
    } else {
      assert (-d) * i == -(d * i);
      DivSteps(-d, i);
    }
  }

  lemma DivSteps(d: int, i: int)
    requires d >= 0 && 0 <= i < 10
    ensures 0 <= d * i && 0 <= d * i / 10 <= (d * i + d) / 10 <= d
  {
    assert d * i >= 0;
    assert d * i + d == d * (i + 1) <= d * 10 by { assert d * 10 - d * (i + 1) == d * (9 - i); }
  }

  // ------------------------------------------------------------ events

  datatype Target = DockWindow | Strip | MenuWindow | TrayWindow | Elsewhere

  datatype Geometry = Geometry(monX: int, monW: int, panelW: int)

  // What the tray item under a button press or release offers and how it answers.
  datatype Item = Item(hasMenu: bool, menuFetched: bool, isMenu: bool, menuFetchedLater: bool, hasContext: bool,
                       hasXayatana: bool, xayatanaActs: bool, hasSecondary: bool, secondaryActs: bool,
                       hasActivate: bool, activateActs: bool)

  datatype Event =
    | ScreenChange(geometry: Geometry)
    | RootProperty(pixmapChanged: bool)
    | TrayClients(geometry: Geometry)
    | Enter(target: Target)
    | Motion(target: Target, hoverChanged: bool)
    | Leave(target: Target, toInferior: bool)
    | FocusOut(target: Target)
    | ButtonPress(target: Target, button: int, onTray: bool, item: Item)
    | ButtonRelease(target: Target, button: int, onTray: bool, item: Item)
    | Expose(target: Target)
    | Visibility(target: Target, obscured: bool)
    | Ignored

  datatype PollResult = Ready | Interrupted | Broken

  datatype Reloaded = Reloaded(enabled: bool, geometry: Geometry)

  // Whether the pointer is found inside when a turn arms or disarms the hide, and when it hides.
  datatype Pointer = Pointer(atArm: bool, atHide: bool)

  // What one turn of the loop meets: a configuration reload, the state of the tray service, how
  // the poll ends, a change among the tray items, the events that are waiting, and the pointer.
  datatype Env = Env(reload: Option<Reloaded>, sniPollable: bool, sniEnabled: bool, polled: PollResult,
                     sni: Option<Geometry>, events: seq<Event>, pointer: Pointer)

  predicate Disabled(env: Env) {
    env.reload.Some? && !env.reload.value.enabled
  }

  predicate GoesOn(env: Env) {
    !Disabled(env) && env.polled != Broken
  }

  // ------------------------------------------------------------ what a turn must do

  // The dock at one moment.
  datatype View = View(clock: int, hidden: bool, pending: bool, deadline: int, menu: bool, suppress: int,
                       lastToggle: int, redraw: bool, owes: bool, hideDelay: int)

  // Time may pass and redraws may be asked for, and nothing else has happened.
  predicate Follows(v: View, w: View) {
    && w == v.(clock := w.clock, redraw := w.redraw, owes := w.owes, hideDelay := w.hideDelay)
    && v.clock <= w.clock && (v.redraw ==> w.redraw) && (v.owes ==> w.owes)
  }

  predicate Recent(b: View, lastToggle: int) {
    lastToggle != 0 && b.clock < lastToggle + DEBOUNCE
  }

  datatype Handled = Handled(e: Event, before: View, after: View)

  // Events may show the dock and never hide it, and lose no redraw.
  predicate Harmless(b: View, a: View) {
    && b.clock <= a.clock && (a.hidden ==> b.hidden) && (b.owes ==> a.owes) && (b.redraw ==> a.redraw)
  }

  // What displays and pointer events do.
  predicate PointerObeyed(e: Event, b: View, a: View, noAutohide: bool, hasStrip: bool) {
    && (e.ScreenChange? || e.TrayClients? || ((e.Expose? || e.Visibility?) && e.target == DockWindow) ==> a.owes)
    && (e == RootProperty(true) || e == Motion(DockWindow, true) ==> a.redraw)
    && (e == Enter(DockWindow) ==> !a.pending)
    && (hasStrip && (e == Enter(Strip) || (e.Motion? && e.target == Strip)) ==> !a.hidden || Recent(b, a.lastToggle))
    && (Leaves(e) && !noAutohide && b.hideDelay > 0 && !b.hidden && !b.menu ==>
          a.pending && b.clock + Wait(b.hideDelay) <= a.deadline <= a.clock + Wait(b.hideDelay))
  }

  predicate Leaves(e: Event) {
    e == Leave(DockWindow, false) || e == FocusOut(DockWindow)
  }

  // What a press does: it closes the open menu, a right press on a tray item opens its menu.
  predicate PressObeyed(e: Event, b: View, a: View) {
    e.ButtonPress? ==>
      var onMenu := b.menu && e.target == MenuWindow;
      && a.menu == (!onMenu && e.button == 3 && e.onTray && e.item.menuFetched)
      && (e.target == DockWindow ==> !a.pending)
      && (e.target == DockWindow || b.menu ==> a.suppress >= b.clock + 250)
      && (a.menu ==> a.suppress >= b.clock + 60000)
  }

  // What a release does: off the menu it closes it, a left one on a tray item opens its menu.
  predicate ReleaseObeyed(e: Event, b: View, a: View) {
    e.ButtonRelease? ==>
      var stays := b.menu && !(e.button != 3 && e.target != MenuWindow);
      var opens := e.button == 1 && e.onTray && e.item.hasMenu && e.item.menuFetched;
      && (stays || opens ==> a.menu) && (opens ==> a.suppress >= b.clock + 60000)
      && (a.menu && !stays && !opens ==> e.button == 1 && e.onTray && e.item.isMenu && e.item.menuFetchedLater)
      && (e.target == DockWindow ==> a.suppress >= b.clock + 250)
      && a.pending == b.pending
  }

  predicate Obeyed(h: Handled, noAutohide: bool, hasStrip: bool) {
    && Harmless(h.before, h.after) && PointerObeyed(h.e, h.before, h.after, noAutohide, hasStrip)
    && PressObeyed(h.e, h.before, h.after) && ReleaseObeyed(h.e, h.before, h.after)
  }

  // The events were handled in order, each from where the one before had left the dock.
  predicate Chain(v: View, log: seq<Handled>, w: View) {
    if log == [] then Follows(v, w)
    else Chain(v, log[..|log| - 1], log[|log| - 1].before) && Follows(log[|log| - 1].after, w)
  }

  ghost predicate HandledAll(log: seq<Handled>, events: seq<Event>, noAutohide: bool, hasStrip: bool) {
    |log| == |events| && forall i {:trigger HandledAt(log, events, i, noAutohide, hasStrip)} ::
      HandledAt(log, events, i, noAutohide, hasStrip)
  }

  ghost predicate HandledAt(log: seq<Handled>, events: seq<Event>, i: int, noAutohide: bool, hasStrip: bool)
    requires |log| == |events|
  {
    0 <= i < |log| ==> log[i].e == events[i] && Obeyed(log[i], noAutohide, hasStrip)
  }

  lemma HandledSnoc(log: seq<Handled>, events: seq<Event>, h: Handled, noAutohide: bool, hasStrip: bool)
    requires HandledAll(log, events, noAutohide, hasStrip) && Obeyed(h, noAutohide, hasStrip)
    ensures HandledAll(log + [h], events + [h.e], noAutohide, hasStrip)
  {
    forall i {:trigger HandledAt(log + [h], events + [h.e], i, noAutohide, hasStrip)}
      ensures HandledAt(log + [h], events + [h.e], i, noAutohide, hasStrip)
    {
      assert HandledAt(log, events, i, noAutohide, hasStrip);
    }
  }

  lemma ChainSnoc(v: View, log: seq<Handled>, h: Handled, w: View)
    requires Chain(v, log, h.before) && Follows(h.after, w)
    ensures Chain(v, log + [h], w)
  {
    assert (log + [h])[..|log|] == log;
  }

  lemma {:induction false} ChainFollows(v: View, log: seq<Handled>, w: View, x: View)
    requires Chain(v, log, w) && Follows(w, x)
    ensures Chain(v, log, x)
  {}

  lemma {:induction false} FollowsChain(u: View, v: View, log: seq<Handled>, w: View)
    requires Follows(u, v) && Chain(v, log, w)
    ensures Chain(u, log, w)
  {
    if log != [] { FollowsChain(u, v, log[..|log| - 1], log[|log| - 1].before); }
  }

  // The look at the hide deadline that ends a turn.
  datatype Review = Review(before: View, after: View)

  // A deadline that had passed hides the dock, unless there was a reason to stay; otherwise the
  // hide is armed, unless there was a reason not to.
  predicate Reviewed(r: Review, pointer: Pointer, noAutohide: bool) {
    var b, a := r.before, r.after;
    var due := b.pending && b.clock >= b.deadline;
    var suppressed := b.suppress != 0 && b.clock < b.suppress;
    && b.clock <= a.clock && (b.hidden ==> a.hidden) && a.menu == b.menu && (b.owes ==> a.owes)
    && (due && !noAutohide ==>
          a.hidden || a.menu || suppressed || pointer.atArm || pointer.atHide || Recent(b, b.lastToggle))
    && (!due && !noAutohide && b.hideDelay > 0 && !suppressed ==>
          a.hidden || a.menu || a.pending || pointer.atArm || pointer.atHide || Recent(b, b.lastToggle))
    && (!b.hidden && a.hidden ==> !pointer.atHide)
    && (!b.hidden && a.hidden ==> b.pending && b.deadline <= a.clock && a.owes && !a.menu)
  }

  // A turn that ran to its end.
  datatype Report = Report(start: View, log: seq<Handled>, review: Review)

  ghost predicate Sound(r: Report, env: Env, noAutohide: bool, hasStrip: bool) {
    && HandledAll(r.log, env.events, noAutohide, hasStrip)
    && Chain(r.start, r.log, r.review.before)
    && Reviewed(r.review, env.pointer, noAutohide)
  }

  // Nothing has happened but the passing of time, drawing, and what is asked to be drawn.
  predicate Carries(v: View, w: View) {
    && w == v.(clock := w.clock, redraw := w.redraw, owes := w.owes, hideDelay := w.hideDelay)
    && v.clock <= w.clock
  }

  // Each report starts where the one before had left the dock.
  predicate Linked(v: View, reports: seq<Report>, w: View) {
    if reports == [] then Carries(v, w)
    else
      var last := reports[|reports| - 1];
      Linked(v, reports[..|reports| - 1], last.start) && Carries(last.review.after, w)
  }

  lemma {:induction false} LinkedNext(v: View, reports: seq<Report>, w: View, report: Report, drew: bool, x: View)
    requires Linked(v, reports, w)
    requires drew ==> report.start == w
    requires Carries(if drew then report.review.after else w, x)
    ensures Linked(v, if drew then reports + [report] else reports, x)
  {
    if drew { assert (reports + [report])[..|reports|] == reports; }
  }

  // The environments of the turns that ran to their end.
  function Completed(envs: seq<Env>): seq<Env> {
    if envs == [] then []
    else
      var last := envs[|envs| - 1];
      Completed(envs[..|envs| - 1]) + if GoesOn(last) && last.polled == Ready then [last] else []
  }

  ghost predicate AllReported(reports: seq<Report>, envs: seq<Env>, noAutohide: bool, hasStrip: bool) {
    |reports| == |envs| && forall i {:trigger ReportedAt(reports, envs, i, noAutohide, hasStrip)} ::
      ReportedAt(reports, envs, i, noAutohide, hasStrip)
  }

  ghost predicate ReportedAt(reports: seq<Report>, envs: seq<Env>, i: int, noAutohide: bool, hasStrip: bool)
    requires |reports| == |envs|
  {
    0 <= i < |reports| ==> Sound(reports[i], envs[i], noAutohide, hasStrip)
  }

  lemma ReportedSnoc(reports: seq<Report>, envs: seq<Env>, r: Report, env: Env, noAutohide: bool, hasStrip: bool)
    requires AllReported(reports, envs, noAutohide, hasStrip) && Sound(r, env, noAutohide, hasStrip)
    ensures AllReported(reports + [r], envs + [env], noAutohide, hasStrip)
  {
    forall i {:trigger ReportedAt(reports + [r], envs + [env], i, noAutohide, hasStrip)}
      ensures ReportedAt(reports + [r], envs + [env], i, noAutohide, hasStrip)
    {
      assert ReportedAt(reports, envs, i, noAutohide, hasStrip);
    }
  }

  // Every turn that ran to its end did its work, from where the turns before had left the dock.
  ghost predicate Told(v: View, reports: seq<Report>, envs: seq<Env>, w: View, noAutohide: bool, hasStrip: bool) {
    AllReported(reports, Completed(envs), noAutohide, hasStrip) && Linked(v, reports, w)
  }

  // The reports with that of one more turn, if it ran to its end.
  lemma NextTold(v: View, reports: seq<Report>, envs: seq<Env>, w: View, env: Env, report: Report, x: View,
                 noAutohide: bool, hasStrip: bool)
    requires Told(v, reports, envs, w, noAutohide, hasStrip) && GoesOn(env)
    requires env.polled == Ready ==> report.start == w && Sound(report, env, noAutohide, hasStrip)
    requires Carries(if env.polled == Ready then report.review.after else w, x)
    ensures Told(v, if env.polled == Ready then reports + [report] else reports, envs + [env], x, noAutohide, hasStrip)
  {
    assert (envs + [env])[..|envs|] == envs;
    LinkedNext(v, reports, w, report, env.polled == Ready, x);
    if env.polled == Ready {
      ReportedSnoc(reports, Completed(envs), report, env, noAutohide, hasStrip);
    } else {
      assert Completed(envs) + [] == Completed(envs);
    }
  }

  // ------------------------------------------------------------ the dock

  class Dock {
    const noAutohide: bool
    const hasStrip: bool
    ghost const initialDelay: int  // the hide delay configured at the start

    var isHidden: bool
    var hidePending: bool
    var hideDeadline: int
    var lastToggle: int
    var suppressHideUntil: int
    var suppressRaiseUntil: int
    var menuVisible: bool
    var menuDirty: bool
    var panelX: int
    var xVisible: int
    var xHidden: int
    var redrawPending: bool
    var redrawForce: bool
    var lastDraw: int
    var hideDelay: int

    // The environment.
    var clock: int

    // History.
    ghost var toggles: seq<Toggle>
    ghost var polls: seq<Poll>
    ghost var scheduledAt: int
    ghost var configured: int  // the hide delay when the deadline was set
    ghost var lastCancel: int
    ghost var owesDraw: bool  // a forced redraw was requested and no draw has happened since

    ghost predicate TogglesMatch()
      reads this`toggles, this`isHidden, this`lastToggle
    {
      && SafeToggles(toggles, initialDelay)
      && isHidden == (toggles != [] && toggles[|toggles| - 1].Hide?)
      && lastToggle == (if toggles == [] then 0 else toggles[|toggles| - 1].start)
      && (toggles != [] ==> lastToggle > 0)
    }

    // Between events the panel is exactly where its state says.
    ghost predicate Placed()
      reads this`isHidden, this`panelX, this`xHidden, this`xVisible
    {
      panelX == if isHidden then xHidden else xVisible
    }

    ghost predicate Armed()
      reads this`hidePending, this`hideDeadline, this`scheduledAt, this`configured, this`lastCancel, this`hideDelay
    {
      && Known(hideDelay, initialDelay)
      && (hidePending ==>
            && 0 < configured && Known(configured, initialDelay)
            && hideDeadline == scheduledAt + Wait(configured)
            && 0 < scheduledAt && lastCancel <= scheduledAt)
    }

    ghost predicate Past()
      reads this`clock, this`lastToggle, this`lastCancel, this`scheduledAt
    {
      0 < clock && 0 <= lastToggle <= clock && lastCancel <= clock && scheduledAt <= clock
    }

    // A forced redraw request stays set until a draw is performed.
    ghost predicate DrawsOwed()
      reads this`owesDraw, this`redrawPending, this`redrawForce
    {
      (owesDraw ==> redrawForce) && (redrawForce ==> redrawPending)
    }

    ghost predicate PollsSound()
      reads this`polls
    {
      AllSound(polls)
    }

    ghost predicate Valid()
      reads this
    {
      TogglesMatch() && Placed() && Armed() && Past() && DrawsOwed() && PollsSound()
    }

    ghost function Seen(): View
      reads this`clock, this`isHidden, this`hidePending, this`hideDeadline, this`menuVisible, this`suppressHideUntil,
            this`lastToggle, this`redrawPending, this`owesDraw, this`hideDelay
    {
      View(clock, isHidden, hidePending, hideDeadline, menuVisible, suppressHideUntil, lastToggle, redrawPending,
           owesDraw, hideDelay)
    }

    // As left by the window setup: shown, with an 8 s grace period.
    constructor (noAutohide: bool, hasStrip: bool, geometry: Geometry, clock: int, hideDelay: int)
      requires clock > 0
      ensures Valid() && !isHidden && toggles == [] && polls == [] && initialDelay == hideDelay
    {
      this.noAutohide, this.hasStrip := noAutohide, hasStrip;
      this.isHidden, this.hidePending, this.hideDeadline, this.lastToggle := false, false, 0, 0;
      this.suppressHideUntil, this.suppressRaiseUntil := clock + 8000, 0;
      this.menuVisible, this.menuDirty := false, false;
      this.xHidden := geometry.monX + geometry.monW;
      this.xVisible := geometry.monX + geometry.monW - geometry.panelW;
      this.panelX := geometry.monX + geometry.monW - geometry.panelW;
      this.redrawPending, this.redrawForce, this.lastDraw := false, false, 0;
      this.hideDelay, this.initialDelay := hideDelay, hideDelay;
      this.clock := clock;
      this.toggles, this.polls, this.owesDraw := [], [], false;
      this.scheduledAt, this.configured, this.lastCancel := 0, 0, 0;
    }

    // Time passes.
    method Elapse()
      requires Valid()
      modifies this`clock
      ensures Valid() && clock >= old(clock)
    {
      var later :| later >= clock;
      clock := later;
    }

    method Now() returns (t: int)
      requires Valid()
      modifies this`clock
      ensures Valid() && clock >= old(clock) && t == clock
    {
      Elapse();
      t := clock;
    }

    method CancelHide()
      requires Valid()
      modifies this`hidePending, this`hideDeadline, this`lastCancel
      ensures Valid() && !hidePending && hideDeadline == 0 && lastCancel == clock
    {
      hidePending := false;
      hideDeadline := 0;
      lastCancel := clock;
    }

    method ScheduleHide()
      requires Valid()
      modifies this`hidePending, this`hideDeadline, this`scheduledAt, this`configured, this`clock
      ensures Valid() && clock >= old(clock)
      ensures noAutohide || isHidden || menuVisible || hideDelay <= 0 ==>
        hidePending == old(hidePending) && hideDeadline == old(hideDeadline)
      ensures !(noAutohide || isHidden || menuVisible || hideDelay <= 0) ==>
        && hidePending && scheduledAt == clock && configured == hideDelay
        && hideDeadline == clock + Wait(hideDelay)
    {
      if noAutohide {
        return;
      }
      if isHidden || menuVisible {
        return;
      }
      if hideDelay <= 0 {
        return;
      }
      var now := Now();
      var wait := hideDelay;
      if wait < 0 {
        wait := 0;
      }
      if wait > MAX_DELAY {
        wait := MAX_DELAY;
      }
      hidePending := true;
      hideDeadline := now + wait;
      scheduledAt, configured := now, hideDelay;
    }

    method ScheduleRedraw(force: bool)
      requires Valid()
      modifies this`redrawPending, this`redrawForce, this`owesDraw
      ensures Valid() && redrawPending && redrawForce == (old(redrawForce) || force)
      ensures owesDraw == (old(owesDraw) || force)
    {
      redrawPending := true;
      if force {
        redrawForce := true;
        owesDraw := true;
      }
    }

    // Ten steps of a tenth of the way each; time passes meanwhile.
    method SlideWindow(fromX: int, toX: int)
      modifies this`panelX, this`clock
      ensures panelX == toX && clock >= old(clock)
    {
      for i := 1 to 11
        invariant i > 1 ==> panelX == SlideX(fromX, toX, i - 1)
        invariant clock >= old(clock)
      {
        panelX := fromX + TruncDiv((toX - fromX) * i, 10);
        clock := clock + 16;
      }
      SlideIsMonotone(fromX, toX, 0);
    }

    // The history follows the state that a show or hide has just set.
    ghost method RecordToggle(t: Toggle)
      requires SafeToggles(toggles, initialDelay) && Justified(t, initialDelay) && t.start == lastToggle > 0
          && isHidden == t.Hide?
      requires if toggles == [] then t.Hide? else
        t.Hide? != toggles[|toggles| - 1].Hide? && toggles[|toggles| - 1].start + DEBOUNCE <= t.start
      modifies this`toggles
      ensures TogglesMatch() && toggles == old(toggles) + [t]
    {
      SafeTogglesSnoc(toggles, t, initialDelay);
      toggles := toggles + [t];
    }

    method SlideIn(now: int)
      requires Valid() && isHidden && 0 < now <= clock && lastToggle + DEBOUNCE <= now
      modifies this`isHidden, this`hidePending, this`lastToggle, this`panelX, this`toggles, this`clock
      ensures Valid() && clock >= old(clock) && !isHidden && !hidePending && lastToggle == now
      ensures toggles == old(toggles) + [Show(now)]
    {
      SlideWindow(xHidden, xVisible);
      isHidden := false;
      hidePending := false;
      lastToggle := now;
      RecordToggle(Show(now));
    }

    method SlideOut(now: int, ghost toggle: Toggle)
      requires Valid() && !isHidden && 0 < now <= clock && (lastToggle == 0 || lastToggle + DEBOUNCE <= now)
      requires toggle.Hide? && toggle.start == now && Justified(toggle, initialDelay)
      modifies this`isHidden, this`hidePending, this`lastToggle, this`panelX, this`toggles, this`clock
      ensures Valid() && clock >= old(clock) && isHidden && !hidePending && lastToggle == now
      ensures toggles == old(toggles) + [toggle]
    {
      SlideWindow(xVisible, xHidden);
      isHidden := true;
      hidePending := false;
      lastToggle := now;
      RecordToggle(toggle);
    }

    method ShowDock() returns (shown: bool)
      requires Valid()
      modifies this`isHidden, this`hidePending, this`lastToggle, this`panelX, this`toggles, this`clock
      ensures Valid() && clock >= old(clock)
      ensures shown ==>
        && old(isHidden) && !isHidden && !hidePending && panelX == xVisible
        && toggles == old(toggles) + [Show(lastToggle)] && old(clock) <= lastToggle
      ensures !shown ==>
        && isHidden == old(isHidden) && hidePending == old(hidePending)
        && toggles == old(toggles) && lastToggle == old(lastToggle)
      ensures !shown && old(isHidden) ==> old(lastToggle) != 0 && old(clock) < old(lastToggle) + DEBOUNCE
    {
      if !isHidden {
        return false;
      }
      var now := Now();
      if lastToggle != 0 && now - lastToggle < DEBOUNCE {
        return false;
      }
      panelX := xHidden;
      SlideIn(now);
      return true;
    }

    method HideDock(inside: bool) returns (hidden: bool)
      requires Valid() && 0 < configured && Known(configured, initialDelay)
      requires scheduledAt + Wait(configured) <= clock && lastCancel <= scheduledAt
      modifies this`isHidden, this`hidePending, this`lastToggle, this`panelX, this`toggles, this`clock
      ensures Valid() && clock >= old(clock)
      ensures hidden ==>
        && !old(isHidden) && isHidden && !hidePending && panelX == xHidden
        && !noAutohide && !menuVisible && !inside && old(clock) <= lastToggle
        && toggles == old(toggles)
             + [Hide(lastToggle, menuVisible, false, suppressHideUntil, scheduledAt, configured, lastCancel)]
      ensures !hidden ==>
        && isHidden == old(isHidden) && hidePending == old(hidePending)
        && toggles == old(toggles) && lastToggle == old(lastToggle)
      ensures !hidden && !old(isHidden) && !noAutohide && !menuVisible ==>
        || (suppressHideUntil != 0 && old(clock) < suppressHideUntil) || inside
        || (old(lastToggle) != 0 && old(clock) < old(lastToggle) + DEBOUNCE)
    {
      if isHidden {
        return false;
      }
      if noAutohide {
        return false;
      }
      if menuVisible {
        return false;
      }
      var now := Now();
      if suppressHideUntil != 0 && now < suppressHideUntil {
        return false;
      }
      if inside {
        return false;
      }
      if lastToggle != 0 && now - lastToggle < DEBOUNCE {
        return false;
      }
      ghost var toggle := Hide(now, menuVisible, inside, suppressHideUntil, scheduledAt, configured, lastCancel);
      SlideOut(now, toggle);
      return true;
    }

    method ChangeGeometry(g: Geometry)
      requires Valid()
      modifies this`xVisible, this`xHidden, this`panelX
      ensures Valid() && xHidden == g.monX + g.monW && xVisible == xHidden - g.panelW
    {
      xVisible := g.monX + g.monW - g.panelW;
      xHidden := g.monX + g.monW;
      panelX := if isHidden then xHidden else xVisible;
    }

    method HideMenu()
      requires Valid()
      modifies this`menuVisible, this`menuDirty, this`suppressRaiseUntil, this`suppressHideUntil,
               this`clock
      ensures Valid() && !menuVisible && clock >= old(clock)
      ensures old(menuVisible) ==> menuDirty && suppressRaiseUntil == 0 && suppressHideUntil == clock + 250
      ensures !old(menuVisible) ==>
        && menuDirty == old(menuDirty)
        && suppressRaiseUntil == old(suppressRaiseUntil) && suppressHideUntil == old(suppressHideUntil)
    {
      if menuVisible {
        CloseMenu();
      }
    }

    method CloseMenu()
      requires Valid()
      modifies this`menuVisible, this`menuDirty, this`suppressRaiseUntil, this`suppressHideUntil,
               this`clock
      ensures Valid() && !menuVisible && clock >= old(clock)
      ensures menuDirty && suppressRaiseUntil == 0 && suppressHideUntil == clock + 250
    {
      var now := Now();
      menuVisible := false;
      suppressRaiseUntil := 0;
      suppressHideUntil := now + 250;
      menuDirty := true;
    }

    method ShowMenu(fetched: bool) returns (shown: bool)
      requires Valid()
      modifies this`menuVisible, this`suppressHideUntil, this`clock
      ensures Valid() && shown == fetched && clock >= old(clock)
      ensures shown ==> menuVisible && suppressHideUntil == clock + 60000
      ensures !shown ==> menuVisible == old(menuVisible) && suppressHideUntil == old(suppressHideUntil)
    {
      if !fetched {
        return false;
      }
      menuVisible := true;
      var now := Now();
      suppressHideUntil := now + 60000;
      return true;
    }

    method LowerForPopup(duration: int)
      requires Valid()
      modifies this`suppressRaiseUntil, this`clock
      ensures Valid() && clock >= old(clock)
      ensures isHidden ==> suppressRaiseUntil == old(suppressRaiseUntil)
      ensures !isHidden ==>
        var until := clock + if duration < 0 then 0 else duration;
        suppressRaiseUntil == if until > old(suppressRaiseUntil) then until else old(suppressRaiseUntil)
    {
      if isHidden {
        return;
      }
      var wait := if duration < 0 then 0 else duration;
      var now := Now();
      var until := now + wait;
      if until > suppressRaiseUntil {
        suppressRaiseUntil := until;
      }
    }

    // A press or release on the dock itself keeps it from hiding for a moment.
    method Hold()
      requires Valid()
      modifies this`suppressHideUntil, this`clock
      ensures Valid() && clock >= old(clock) && suppressHideUntil == clock + 250
    {
      var now := Now();
      suppressHideUntil := now + 250;
    }

    // The right-button menu of a tray item, or its own context menu.
    method OpenItemMenu(item: Item)
      requires Valid()
      modifies this`menuVisible, this`suppressHideUntil, this`suppressRaiseUntil, this`clock
      ensures Valid() && clock >= old(clock)
      ensures menuVisible == (old(menuVisible) || item.menuFetched)
      ensures !item.menuFetched ==> suppressHideUntil == old(suppressHideUntil)
      ensures item.menuFetched ==> suppressHideUntil >= old(clock) + 60000
    {
      var shown := ShowMenu(item.menuFetched);
      if !shown && item.hasContext {
        LowerForPopup(8000);
      }
    }

    method Press(target: Target, button: int, onTray: bool, item: Item)
      requires Valid()
      modifies this`hidePending, this`hideDeadline, this`lastCancel, this`menuVisible, this`menuDirty,
               this`suppressHideUntil, this`suppressRaiseUntil, this`clock
      ensures Valid() && clock >= old(clock)
      ensures hidePending ==> old(hidePending)
      // Whatever menu was open is closed; a right press on a tray item may open another.
      ensures old(menuVisible) ==> menuDirty
      ensures menuVisible ==
        (button == 3 && onTray && item.menuFetched && !(old(menuVisible) && target == MenuWindow))
      ensures target == DockWindow ==> !hidePending && lastCancel >= old(clock)
      ensures target == DockWindow || old(menuVisible) ==> suppressHideUntil >= old(clock) + 250
      ensures menuVisible ==> suppressHideUntil >= old(clock) + 60000
    {
      if menuVisible && target == MenuWindow {
        HideMenu();
      } else {
        PressElsewhere(target, button, onTray, item);
      }
    }

    // A press that is not on the open menu.
    method PressElsewhere(target: Target, button: int, onTray: bool, item: Item)
      requires Valid()
      modifies this`hidePending, this`hideDeadline, this`lastCancel, this`menuVisible, this`menuDirty,
               this`suppressHideUntil, this`suppressRaiseUntil, this`clock
      ensures Valid() && clock >= old(clock)
      ensures hidePending ==> old(hidePending)
      ensures old(menuVisible) ==> menuDirty
      ensures menuVisible == (button == 3 && onTray && item.menuFetched)
      ensures target == DockWindow ==> !hidePending && lastCancel >= old(clock)
      ensures target == DockWindow || old(menuVisible) ==> suppressHideUntil >= old(clock) + 250
      ensures menuVisible ==> suppressHideUntil >= old(clock) + 60000
    {
      HideMenu();
      if target == DockWindow {
        HoldDock();
      }
      if button == 3 && onTray {
        OpenItemMenu(item);
      }
    }

    method HoldDock()
      requires Valid()
      modifies this`hidePending, this`hideDeadline, this`lastCancel, this`suppressHideUntil, this`clock
      ensures Valid() && clock >= old(clock)
      ensures !hidePending && lastCancel >= old(clock) && suppressHideUntil >= old(clock) + 250
    {
      Hold();
      CancelHide();
    }

    // What a left click on a tray item does besides opening a fetched menu.
    method ActivateItem(item: Item)
      requires Valid()
      modifies this`menuVisible, this`suppressHideUntil, this`suppressRaiseUntil, this`clock
      ensures Valid() && clock >= old(clock)
      ensures menuVisible ==> old(menuVisible) || (item.isMenu && item.menuFetchedLater)
      ensures old(menuVisible) ==> menuVisible
      ensures suppressHideUntil == old(suppressHideUntil) || suppressHideUntil >= old(clock) + 60000
      ensures suppressRaiseUntil >= old(suppressRaiseUntil)
    {
      var acted := false;
      if item.hasXayatana {
        LowerForPopup(3000);
        acted := acted || item.xayatanaActs;
      }
      if item.hasSecondary {
        LowerForPopup(8000);
        acted := acted || item.secondaryActs;
      }
      if !acted && item.hasActivate {
        LowerForPopup(8000);
        acted := item.activateActs;
      }
      if !acted && item.isMenu {
        acted := ShowMenu(item.menuFetchedLater);
        if !acted {
          LowerForPopup(8000);
        }
      }
    }

    // A release off the menu closes it; one on the dock itself holds the dock.
    method Dismiss(target: Target, closes: bool)
      requires Valid()
      modifies this`menuVisible, this`menuDirty, this`suppressHideUntil, this`suppressRaiseUntil,
               this`clock
      ensures Valid() && clock >= old(clock)
      ensures target == DockWindow ==> suppressHideUntil >= old(clock) + 250
      ensures menuVisible == (old(menuVisible) && !(closes && target != MenuWindow))
      ensures old(menuVisible) && !menuVisible ==> menuDirty
    {
      if menuVisible && closes && target != MenuWindow {
        HideMenu();
      }
      if target == DockWindow {
        Hold();
      }
    }

    method Release(target: Target, button: int, onTray: bool, item: Item)
      requires Valid()
      modifies this`menuVisible, this`menuDirty, this`suppressHideUntil, this`suppressRaiseUntil,
               this`clock
      ensures Valid() && clock >= old(clock)
      ensures target == DockWindow ==> suppressHideUntil >= old(clock) + 250
      ensures old(menuVisible) && button != 3 && target != MenuWindow ==> menuDirty
      ensures old(menuVisible) && button != 3 && target != MenuWindow && !(button == 1 && onTray) ==> !menuVisible
      ensures button == 1 && onTray && item.hasMenu && item.menuFetched ==>
        menuVisible && suppressHideUntil >= old(clock) + 60000
      ensures old(menuVisible) && !(button != 3 && target != MenuWindow) ==> menuVisible
      ensures menuVisible && !(old(menuVisible) && !(button != 3 && target != MenuWindow)) ==>
        button == 1 && onTray && ((item.hasMenu && item.menuFetched) || (item.isMenu && item.menuFetchedLater))
      ensures menuVisible && !old(menuVisible) ==>
        button == 1 && onTray && ((item.hasMenu && item.menuFetched) || (item.isMenu && item.menuFetchedLater))
    {
      Dismiss(target, button != 3);
      if button == 1 && onTray {
        ClickItem(item);
      }
    }

    method ClickItem(item: Item)
      requires Valid()
      modifies this`menuVisible, this`suppressHideUntil, this`suppressRaiseUntil, this`clock
      ensures Valid() && clock >= old(clock)
      ensures item.hasMenu && item.menuFetched ==> menuVisible && suppressHideUntil >= old(clock) + 60000
      ensures menuVisible ==>
        old(menuVisible) || (item.hasMenu && item.menuFetched) || (item.isMenu && item.menuFetchedLater)
      ensures old(menuVisible) ==> menuVisible
      ensures suppressHideUntil == old(suppressHideUntil) || suppressHideUntil >= old(clock) + 60000
    {
      if item.hasMenu {
        var shown := ShowMenu(item.menuFetched);
        if shown {
          return;
        }
      }
      ActivateItem(item);
    }

    // Reaching the strip brings a hidden dock back.
    method Reveal()
      requires Valid()
      modifies this`isHidden, this`hidePending, this`lastToggle, this`panelX, this`toggles, this`clock,
               this`redrawPending, this`redrawForce, this`owesDraw
      ensures Valid() && clock >= old(clock) && old(toggles) <= toggles
      ensures isHidden ==> old(isHidden)
      ensures hidePending ==> old(hidePending)
      ensures !old(isHidden) ==> toggles == old(toggles)
      ensures isHidden ==> lastToggle != 0 && old(clock) < lastToggle + DEBOUNCE
      ensures old(isHidden) && !isHidden ==> owesDraw
      ensures (old(owesDraw) ==> owesDraw) && (old(redrawPending) ==> redrawPending)
    {
      var shown := ShowDock();
      if shown {
        ScheduleRedraw(true);
      }
    }

    method OnEnter(target: Target)
      requires Valid()
      modifies this`isHidden, this`hidePending, this`hideDeadline, this`lastCancel, this`lastToggle, this`panelX,
               this`toggles, this`clock, this`redrawPending, this`redrawForce, this`owesDraw
      ensures Valid() && clock >= old(clock) && old(toggles) <= toggles
      ensures isHidden ==> old(isHidden)
      ensures !old(isHidden) ==> toggles == old(toggles)
      ensures (old(owesDraw) ==> owesDraw) && (old(redrawPending) ==> redrawPending)
      ensures target == DockWindow ==> !hidePending
      ensures hasStrip && target == Strip ==> !isHidden || (lastToggle != 0 && old(clock) < lastToggle + DEBOUNCE)
    {
      if target == DockWindow {
        CancelHide();
      }
      if isHidden && hasStrip && target == Strip {
        Reveal();
      }
    }

    method OnMotion(target: Target, hoverChanged: bool)
      requires Valid()
      modifies this`isHidden, this`hidePending, this`lastToggle, this`panelX,
               this`toggles, this`clock, this`redrawPending, this`redrawForce, this`owesDraw
      ensures Valid() && clock >= old(clock) && old(toggles) <= toggles
      ensures isHidden ==> old(isHidden)
      ensures !old(isHidden) ==> toggles == old(toggles)
      ensures (old(owesDraw) ==> owesDraw) && (old(redrawPending) ==> redrawPending)
      ensures hasStrip && target == Strip ==> !isHidden || (lastToggle != 0 && old(clock) < lastToggle + DEBOUNCE)
      ensures target == DockWindow && hoverChanged ==> redrawPending
    {
      if isHidden && hasStrip && target == Strip {
        Reveal();
      } else if target == DockWindow && hoverChanged {
        ScheduleRedraw(false);
      }
    }

    // Leaving the dock, or losing the focus, arms the hide.
    method OnLeave(e: Event)
      requires Valid() && (e.Leave? || e.FocusOut?)
      modifies this`hidePending, this`hideDeadline, this`scheduledAt, this`configured, this`clock
      ensures Valid() && clock >= old(clock)
      ensures Obeyed(Handled(e, old(Seen()), Seen()), noAutohide, hasStrip)
    {
      if Leaves(e) {
        ScheduleHide();
      }
    }

    method OnEnterOrMotion(e: Event)
      requires Valid() && (e.Enter? || e.Motion?)
      modifies this`isHidden, this`hidePending, this`hideDeadline, this`lastToggle, this`panelX,
               this`redrawPending, this`redrawForce, this`clock,
               this`toggles, this`scheduledAt, this`configured, this`lastCancel, this`owesDraw
      ensures Valid() && clock >= old(clock) && old(toggles) <= toggles
      ensures isHidden ==> old(isHidden)
      ensures !old(isHidden) ==> toggles == old(toggles)
      ensures Obeyed(Handled(e, old(Seen()), Seen()), noAutohide, hasStrip)
    {
      if e.Enter? {
        OnEnter(e.target);
      } else {
        OnMotion(e.target, e.hoverChanged);
      }
    }

    method OnPointer(e: Event)
      requires Valid() && (e.Enter? || e.Motion? || e.Leave? || e.FocusOut?)
      modifies this`isHidden, this`hidePending, this`hideDeadline, this`lastToggle, this`panelX,
               this`redrawPending, this`redrawForce, this`clock,
               this`toggles, this`scheduledAt, this`configured, this`lastCancel, this`owesDraw
      ensures Valid() && clock >= old(clock) && old(toggles) <= toggles
      ensures isHidden ==> old(isHidden)
      ensures !old(isHidden) ==> toggles == old(toggles)
      ensures Obeyed(Handled(e, old(Seen()), Seen()), noAutohide, hasStrip)
    {
      if e.Enter? || e.Motion? {
        OnEnterOrMotion(e);
      } else {
        OnLeave(e);
      }
    }

    // Geometry changes and exposures ask for a redraw.
    method OnDisplay(e: Event)
      requires Valid() && (e.ScreenChange? || e.RootProperty? || e.TrayClients? || e.Expose? || e.Visibility?)
      modifies this`panelX, this`xVisible, this`xHidden, this`redrawPending, this`redrawForce, this`owesDraw
      ensures Valid() && (old(owesDraw) ==> owesDraw) && (old(redrawPending) ==> redrawPending)
      ensures e.ScreenChange? || e.TrayClients? || ((e.Expose? || e.Visibility?) && e.target == DockWindow) ==> owesDraw
      ensures e.ScreenChange? || e.TrayClients? ==>
        xHidden == e.geometry.monX + e.geometry.monW && xVisible == xHidden - e.geometry.panelW
      ensures e == RootProperty(true) ==> redrawPending
      ensures Obeyed(Handled(e, old(Seen()), Seen()), noAutohide, hasStrip)
    {
      match e {
        case ScreenChange(g) =>
          ScreenChanged(g);
        case RootProperty(changed) =>
          if changed {
            ScheduleRedraw(false);
          }
        case TrayClients(g) =>
          ScreenChanged(g);
        case Expose(target) =>
          if target == DockWindow {
            ScheduleRedraw(true);
          }
        case Visibility(target, _) =>
          if target == DockWindow {
            ScheduleRedraw(true);
          }
      }
    }

    method OnPress(e: Event)
      requires Valid() && e.ButtonPress?
      modifies this`hidePending, this`hideDeadline, this`lastCancel, this`menuVisible, this`menuDirty,
               this`suppressHideUntil, this`suppressRaiseUntil, this`clock
      ensures Valid() && clock >= old(clock)
      ensures Obeyed(Handled(e, old(Seen()), Seen()), noAutohide, hasStrip)
    {
      Press(e.target, e.button, e.onTray, e.item);
    }

    method OnRelease(e: Event)
      requires Valid() && e.ButtonRelease?
      modifies this`menuVisible, this`menuDirty, this`suppressHideUntil, this`suppressRaiseUntil,
               this`clock
      ensures Valid() && clock >= old(clock)
      ensures Obeyed(Handled(e, old(Seen()), Seen()), noAutohide, hasStrip)
    {
      Release(e.target, e.button, e.onTray, e.item);
    }

    method ProcessEvent(e: Event)
      requires Valid()
      modifies this`isHidden, this`hidePending, this`hideDeadline, this`lastToggle, this`suppressHideUntil,
               this`suppressRaiseUntil, this`menuVisible, this`menuDirty, this`panelX, this`xVisible, this`xHidden,
               this`redrawPending, this`redrawForce, this`clock,
               this`toggles, this`scheduledAt, this`configured, this`lastCancel, this`owesDraw
      ensures Valid() && clock >= old(clock) && old(toggles) <= toggles
      // Events show the dock but never hide it, and never lose a forced redraw.
      ensures isHidden ==> old(isHidden)
      ensures !old(isHidden) ==> toggles == old(toggles)
      ensures (old(owesDraw) ==> owesDraw) && (old(redrawPending) ==> redrawPending)
      ensures e.ScreenChange? || e.TrayClients? ==>
        xHidden == e.geometry.monX + e.geometry.monW && xVisible == xHidden - e.geometry.panelW
      ensures Obeyed(Handled(e, old(Seen()), Seen()), noAutohide, hasStrip)
    {
      if e.Enter? || e.Motion? || e.Leave? || e.FocusOut? {
        OnPointer(e);
      } else if e.ButtonPress? {
        OnPress(e);
      } else if e.ButtonRelease? {
        OnRelease(e);
      } else if !e.Ignored? {
        OnDisplay(e);
      }
    }

    // ---------------------------------------------------------- one turn of the loop

    // Ends a raise suppression whose time has come.
    method ExpireRaise() returns (now: int)
      requires Valid()
      modifies this`suppressRaiseUntil, this`redrawPending, this`redrawForce, this`owesDraw, this`clock
      ensures Valid() && old(clock) <= now == clock
      ensures var ended := old(suppressRaiseUntil) != 0 && now >= old(suppressRaiseUntil);
        suppressRaiseUntil == if ended then 0 else old(suppressRaiseUntil)
      ensures (old(owesDraw) ==> owesDraw) && (old(redrawPending) ==> redrawPending)
      ensures old(suppressRaiseUntil) != 0 && suppressRaiseUntil == 0 && !isHidden && !menuVisible ==> owesDraw
    {
      now := Now();
      if suppressRaiseUntil != 0 && now >= suppressRaiseUntil {
        suppressRaiseUntil := 0;
        if !isHidden && !menuVisible {
          ScheduleRedraw(true);
        }
      }
    }

    // `now` was read before; the hide deadline is compared with a fresh reading.
    method PollTimeout(now: int, sniPollable: bool, sniEnabled: bool) returns (timeout: int)
      requires Valid() && (suppressRaiseUntil == 0 || now < suppressRaiseUntil)
      modifies this`polls, this`clock
      ensures Valid() && clock >= old(clock)
      ensures polls == old(polls) + [Poll(timeout, redrawPending, !sniPollable && sniEnabled, hidePending,
                hideDeadline - clock, suppressRaiseUntil != 0, suppressRaiseUntil - now)]
    {
      timeout := if redrawPending then 0 else -1;
      if !sniPollable && sniEnabled && timeout < 0 {
        timeout := SNI_POLL_MS;
      }
      var now2 := Now();
      if hidePending && hideDeadline > 0 {
        var left := hideDeadline - now2;
        if left < 0 {
          left := 0;
        }
        if left > INT32_MAX {
          left := INT32_MAX;
        }
        if timeout < 0 || left < timeout {
          timeout := left;
        }
      }
      if suppressRaiseUntil != 0 && now < suppressRaiseUntil {
        var left := suppressRaiseUntil - now;
        if left < 0 {
          left := 0;
        }
        if left > INT32_MAX {
          left := INT32_MAX;
        }
        if timeout < 0 || left < timeout {
          timeout := left;
        }
      }
      ghost var p := Poll(timeout, redrawPending, !sniPollable && sniEnabled, hidePending,
                          hideDeadline - now2, suppressRaiseUntil != 0, suppressRaiseUntil - now);
      AllSoundSnoc(polls, p);
      polls := polls + [p];
    }

    // The pointer disarms or arms the hide, outside the suppression window.
    method ArmStep(nowh: int, inside: bool)
      requires Valid()
      modifies this`hidePending, this`hideDeadline, this`scheduledAt, this`configured, this`lastCancel,
               this`clock
      ensures Valid() && clock >= old(clock)
      ensures isHidden || menuVisible || (suppressHideUntil != 0 && nowh < suppressHideUntil) ==>
        hidePending == old(hidePending) && hideDeadline == old(hideDeadline)
      ensures !(isHidden || menuVisible || (suppressHideUntil != 0 && nowh < suppressHideUntil)) ==>
        if inside then !hidePending
        else hidePending == (old(hidePending) || (!noAutohide && hideDelay > 0))
      ensures old(hidePending) && hidePending ==> hideDeadline == old(hideDeadline)
      ensures hidePending && !old(hidePending) ==>
        && scheduledAt >= old(clock)
        && configured == hideDelay && hideDeadline == scheduledAt + Wait(hideDelay)
    {
      if !isHidden && !menuVisible && (suppressHideUntil == 0 || nowh >= suppressHideUntil) {
        if inside {
          CancelHide();
        } else if !hidePending {
          ScheduleHide();
        }
      }
    }

    // A deadline that has passed is spent, whether or not the dock then hides.
    method FireStep(nowh: int, inside: bool)
      requires Valid() && nowh <= clock
      modifies this`isHidden, this`hidePending, this`hideDeadline, this`lastToggle, this`panelX, this`toggles,
               this`redrawPending, this`redrawForce, this`owesDraw, this`clock
      ensures Valid() && clock >= old(clock) && old(toggles) <= toggles
      ensures old(isHidden) ==> isHidden
      ensures !old(isHidden) && isHidden ==>
        && old(hidePending) && nowh >= old(hideDeadline)
        && owesDraw && !hidePending && !menuVisible && !inside
      ensures (old(owesDraw) ==> owesDraw) && (old(redrawPending) ==> redrawPending)
      ensures hidePending == (old(hidePending) && nowh < old(hideDeadline))
      // The dock stays only for one of the reasons it may.
      ensures old(hidePending) && nowh >= old(hideDeadline) && !isHidden && !noAutohide && !menuVisible ==>
        || (suppressHideUntil != 0 && old(clock) < suppressHideUntil) || inside
        || (old(lastToggle) != 0 && old(clock) < old(lastToggle) + DEBOUNCE)
      ensures old(isHidden) || noAutohide ==> toggles == old(toggles)
    {
      if hidePending && hideDeadline > 0 && nowh >= hideDeadline {
        hidePending := false;
        hideDeadline := 0;
        Fire(inside);
      }
    }

    // Hides the dock if it may; a hide owes a forced redraw.
    method Fire(inside: bool)
      requires Valid() && !hidePending && 0 < configured && Known(configured, initialDelay)
      requires scheduledAt + Wait(configured) <= clock && lastCancel <= scheduledAt
      modifies this`isHidden, this`hidePending, this`lastToggle, this`panelX, this`toggles,
               this`redrawPending, this`redrawForce, this`owesDraw, this`clock
      ensures Valid() && clock >= old(clock) && old(toggles) <= toggles
      ensures old(isHidden) ==> isHidden
      ensures !old(isHidden) && isHidden ==> owesDraw && !menuVisible && !inside
      ensures (old(owesDraw) ==> owesDraw) && (old(redrawPending) ==> redrawPending)
      ensures !hidePending
      ensures !isHidden && !noAutohide && !menuVisible ==>
        || (suppressHideUntil != 0 && old(clock) < suppressHideUntil) || inside
        || (old(lastToggle) != 0 && old(clock) < old(lastToggle) + DEBOUNCE)
      ensures old(isHidden) || noAutohide ==> toggles == old(toggles)
    {
      var hidden := HideDock(inside);
      if hidden {
        ScheduleRedraw(true);
      }
    }

    method HideStep(pointer: Pointer) returns (ghost review: Review)
      requires Valid()
      modifies this`isHidden, this`hidePending, this`hideDeadline, this`lastToggle, this`panelX, this`toggles,
               this`scheduledAt, this`configured, this`lastCancel, this`redrawPending, this`redrawForce, this`owesDraw,
               this`clock
      ensures Valid() && clock >= old(clock) && old(toggles) <= toggles
      ensures old(isHidden) || noAutohide ==> toggles == old(toggles)
      ensures old(redrawPending) ==> redrawPending
      ensures review == Review(old(Seen()), Seen()) && Reviewed(review, pointer, noAutohide)
    {
      ghost var before := Seen();
      var nowh := Now();
      ArmStep(nowh, pointer.atArm);
      FireStep(nowh, pointer.atHide);
      review := Review(before, Seen());
    }

    // There was a draw since `since`, or the one before was too fresh for another.
    ghost predicate Drawn(last: int, since: int)
      reads this`lastDraw, this`clock
    {
      since <= lastDraw || (lastDraw == last != 0 && clock - last < 50)
    }

    method MaybeDraw(force: bool)
      requires Valid()
      modifies this`lastDraw, this`owesDraw, this`clock
      ensures Valid() && clock >= old(clock)
      // A redraw that is not forced is dropped within 50 ms of the last one.
      ensures var drawn := force || old(lastDraw) == 0 || clock - old(lastDraw) >= 50;
        lastDraw == (if drawn then clock else old(lastDraw)) && owesDraw == (old(owesDraw) && !drawn)
    {
      var now := Now();
      if !force {
        if lastDraw != 0 && now - lastDraw < 50 {
          return;
        }
      }
      lastDraw := now;
      owesDraw := false;
    }

    // The end of a turn: whatever forced redraw was requested has been drawn.
    method DrawStep()
      requires Valid()
      modifies this`menuDirty, this`redrawPending, this`redrawForce, this`lastDraw, this`owesDraw, this`clock
      ensures Valid() && clock >= old(clock)
      ensures !owesDraw && !redrawPending && !redrawForce && !menuDirty
      ensures old(owesDraw) || old(menuDirty) ==> lastDraw >= old(clock)
      ensures old(redrawPending) ==> Drawn(old(lastDraw), old(clock))
    {
      if menuDirty {
        menuDirty := false;
        ScheduleRedraw(true);
      }
      if redrawPending {
        DrawPending();
      }
    }

    method DrawPending()
      requires Valid() && redrawPending
      modifies this`redrawPending, this`redrawForce, this`lastDraw, this`owesDraw, this`clock
      ensures Valid() && clock >= old(clock)
      ensures !owesDraw && !redrawPending && !redrawForce
      ensures old(owesDraw) || old(redrawForce) ==> lastDraw >= old(clock)
      ensures Drawn(old(lastDraw), old(clock))
    {
      MaybeDraw(redrawForce);
      redrawPending := false;
      redrawForce := false;
    }

    // A configuration reload falls back to the defaults; false means the dock is disabled.
    method Reload(enabled: bool, g: Geometry) returns (go: bool)
      requires Valid()
      modifies this`hideDelay, this`xVisible, this`xHidden, this`panelX, this`redrawPending, this`redrawForce,
               this`owesDraw
      ensures Valid() && go == enabled && hideDelay == DEFAULT_HIDE_DELAY
      ensures go ==> owesDraw && xHidden == g.monX + g.monW && xVisible == xHidden - g.panelW
      ensures (old(owesDraw) ==> owesDraw) && (old(redrawPending) ==> redrawPending)
    {
      hideDelay := DEFAULT_HIDE_DELAY;
      if !enabled {
        return false;
      }
      ChangeGeometry(g);
      ScheduleRedraw(true);
      return true;
    }

    // Handles the waiting events in order.
    method DrainEvents(events: seq<Event>) returns (ghost log: seq<Handled>)
      requires Valid()
      modifies this`isHidden, this`hidePending, this`hideDeadline, this`lastToggle, this`suppressHideUntil,
               this`suppressRaiseUntil, this`menuVisible, this`menuDirty, this`panelX, this`xVisible, this`xHidden,
               this`redrawPending, this`redrawForce, this`clock,
               this`toggles, this`scheduledAt, this`configured, this`lastCancel, this`owesDraw
      ensures Valid() && clock >= old(clock) && old(toggles) <= toggles
      ensures isHidden ==> old(isHidden)
      ensures !old(isHidden) ==> toggles == old(toggles)
      ensures (old(owesDraw) ==> owesDraw) && (old(redrawPending) ==> redrawPending)
      ensures HandledAll(log, events, noAutohide, hasStrip) && Chain(old(Seen()), log, Seen())
    {
      log := [];
      for k := 0 to |events|
        invariant Valid() && clock >= old(clock) && old(toggles) <= toggles
        invariant isHidden ==> old(isHidden)
        invariant !old(isHidden) ==> toggles == old(toggles)
        invariant (old(owesDraw) ==> owesDraw) && (old(redrawPending) ==> redrawPending)
        invariant HandledAll(log, events[..k], noAutohide, hasStrip) && Chain(old(Seen()), log, Seen())
      {
        ghost var h := HandleNext(events[k], old(Seen()), log);
        HandledSnoc(log, events[..k], h, noAutohide, hasStrip);
        assert events[..k + 1] == events[..k] + [h.e];
        log := log + [h];
      }
      assert events[..|events|] == events;
    }

    method HandleNext(e: Event, ghost start: View, ghost log: seq<Handled>) returns (ghost h: Handled)
      requires Valid() && Chain(start, log, Seen())
      modifies this`isHidden, this`hidePending, this`hideDeadline, this`lastToggle, this`suppressHideUntil,
               this`suppressRaiseUntil, this`menuVisible, this`menuDirty, this`panelX, this`xVisible, this`xHidden,
               this`redrawPending, this`redrawForce, this`clock,
               this`toggles, this`scheduledAt, this`configured, this`lastCancel, this`owesDraw
      ensures Valid() && clock >= old(clock) && old(toggles) <= toggles
      ensures isHidden ==> old(isHidden)
      ensures !old(isHidden) ==> toggles == old(toggles)
      ensures (old(owesDraw) ==> owesDraw) && (old(redrawPending) ==> redrawPending)
      ensures h.e == e && Obeyed(h, noAutohide, hasStrip) && Chain(start, log + [h], Seen())
    {
      ghost var was := Seen();
      Elapse();
      ghost var before := Seen();
      ChainFollows(start, log, was, before);
      ProcessEvent(e);
      h := Handled(e, before, Seen());
      ChainSnoc(start, log, h, Seen());
    }

    // Up to and including the computation of the poll timeout.
    method Prepare(env: Env)
      requires Valid()
      modifies this`hideDelay, this`xVisible, this`xHidden, this`panelX, this`redrawPending, this`redrawForce,
               this`owesDraw, this`suppressRaiseUntil, this`polls, this`clock
      ensures Valid() && clock >= old(clock) && old(polls) <= polls
      ensures (old(owesDraw) ==> owesDraw) && (old(redrawPending) ==> redrawPending)
      ensures |polls| == |old(polls)| + if Disabled(env) then 0 else 1
      ensures Follows(old(Seen()), Seen())
    {
      if env.reload.Some? {
        var go := Reload(env.reload.value.enabled, env.reload.value.geometry);
      }
      if !Disabled(env) {
        PreparePoll(env);
      }
    }

    method PreparePoll(env: Env)
      requires Valid()
      modifies this`redrawPending, this`redrawForce, this`owesDraw, this`suppressRaiseUntil, this`polls,
               this`clock
      ensures Valid() && clock >= old(clock) && old(polls) <= polls && |polls| == |old(polls)| + 1
      ensures Follows(old(Seen()), Seen())
    {
      var now := ExpireRaise();
      var timeout := PollTimeout(now, env.sniPollable, env.sniEnabled);
    }

    method ScreenChanged(g: Geometry)
      requires Valid()
      modifies this`xVisible, this`xHidden, this`panelX, this`redrawPending, this`redrawForce, this`owesDraw
      ensures Valid() && owesDraw && redrawPending
      ensures xHidden == g.monX + g.monW && xVisible == xHidden - g.panelW
    {
      ChangeGeometry(g);
      ScheduleRedraw(true);
    }

    // One turn of the loop, whatever the environment does.  After an interrupted poll whatever was
    // pending is still pending.  A turn that runs to its end has handled every event in order, has
    // looked at the hide deadline and has drawn what was to be drawn.
    method Turn(env: Env) returns (go: bool, drew: bool, ghost report: Report)
      requires Valid()
      modifies this
      ensures Valid() && clock >= old(clock)
      ensures old(toggles) <= toggles && old(polls) <= polls
      ensures go == GoesOn(env) && drew == (go && env.polled == Ready)
      ensures |polls| == |old(polls)| + if Disabled(env) then 0 else 1
      ensures drew ==> !owesDraw && !redrawPending
      ensures drew && old(owesDraw) ==> lastDraw >= old(clock)
      ensures drew && old(redrawPending) ==> Drawn(old(lastDraw), old(clock))
      ensures !drew ==> (old(owesDraw) ==> owesDraw) && (old(redrawPending) ==> redrawPending)
      ensures noAutohide && !old(isHidden) ==> !isHidden && toggles == old(toggles)
      ensures drew ==> report.start == old(Seen()) && Sound(report, env, noAutohide, hasStrip)
      ensures Carries(if drew then report.review.after else old(Seen()), Seen())
    {
      drew := false;
      report := Report(Seen(), [], Review(Seen(), Seen()));
      ghost var start := Seen();
      Prepare(env);
      go := GoesOn(env);
      if go && env.polled == Ready {
        ghost var prepared := Seen();
        report := React(env);
        FollowsChain(start, prepared, report.log, report.review.before);
        report := report.(start := start);
        drew := true;
      }
    }

    // What a turn does once the poll has something to report.
    method React(env: Env) returns (ghost report: Report)
      requires Valid()
      modifies this`isHidden, this`hidePending, this`hideDeadline, this`lastToggle, this`suppressHideUntil,
               this`suppressRaiseUntil, this`menuVisible, this`menuDirty, this`panelX, this`xVisible, this`xHidden,
               this`redrawPending, this`redrawForce, this`lastDraw, this`clock,
               this`toggles, this`scheduledAt, this`configured, this`lastCancel, this`owesDraw
      ensures Valid() && clock >= old(clock)
      ensures old(toggles) <= toggles
      ensures !owesDraw && !redrawPending
      ensures old(owesDraw) ==> lastDraw >= old(clock)
      ensures old(redrawPending) ==> Drawn(old(lastDraw), old(clock))
      ensures noAutohide && !old(isHidden) ==> !isHidden && toggles == old(toggles)
      ensures report.start == old(Seen()) && Sound(report, env, noAutohide, hasStrip)
      ensures Carries(report.review.after, Seen())
    {
      ghost var start := Seen();
      Notice(env);
      ghost var changed := Seen();
      ghost var log := DrainEvents(env.events);
      FollowsChain(start, changed, log, Seen());
      ghost var review := HideAndDraw(env.pointer);
      report := Report(start, log, review);
    }

    // A change among the tray items changes the geometry.
    method Notice(env: Env)
      requires Valid()
      modifies this`xVisible, this`xHidden, this`panelX, this`redrawPending, this`redrawForce, this`owesDraw
      ensures Valid() && Follows(old(Seen()), Seen())
      ensures env.sni.Some? ==>
        owesDraw && xHidden == env.sni.value.monX + env.sni.value.monW && xVisible == xHidden - env.sni.value.panelW
    {
      if env.sni.Some? {
        ScreenChanged(env.sni.value);
      }
    }

    method HideAndDraw(pointer: Pointer) returns (ghost review: Review)
      requires Valid()
      modifies this`isHidden, this`hidePending, this`hideDeadline, this`lastToggle, this`panelX, this`toggles,
               this`menuDirty, this`scheduledAt, this`configured, this`lastCancel, this`redrawPending,
               this`redrawForce, this`owesDraw, this`lastDraw, this`clock
      ensures Valid() && clock >= old(clock) && old(toggles) <= toggles
      ensures !owesDraw && !redrawPending && (old(owesDraw) ==> lastDraw >= old(clock))
      ensures old(redrawPending) ==> Drawn(old(lastDraw), old(clock))
      ensures noAutohide && !old(isHidden) ==> !isHidden && toggles == old(toggles)
      ensures review.before == old(Seen()) && Reviewed(review, pointer, noAutohide)
      ensures Carries(review.after, Seen())
    {
      review := HideStep(pointer);
      DrawStep();
    }

    // The loop, until a turn ends it.
    method Run(envs: seq<Env>) returns (ran: nat, ghost reports: seq<Report>)
      requires Valid()
      modifies this
      ensures Valid() && clock >= old(clock)
      ensures old(toggles) <= toggles && old(polls) <= polls
      ensures noAutohide && !old(isHidden) ==> !isHidden && toggles == old(toggles)
      // It stops at the first environment that ends it, and polls once in every turn.
      ensures ran <= |envs| && (forall k :: 0 <= k < ran ==> GoesOn(envs[k])) && (ran < |envs| ==> !GoesOn(envs[ran]))
      ensures |polls| == |old(polls)| + ran + if ran < |envs| && !Disabled(envs[ran]) then 1 else 0
      ensures Told(old(Seen()), reports, envs[..ran], Seen(), noAutohide, hasStrip)
    {
      Begin();
      ran, reports := 0, [];
      while ran < |envs|
        invariant Valid() && clock >= old(clock) && old(toggles) <= toggles && old(polls) <= polls
        invariant noAutohide && !old(isHidden) ==> !isHidden && toggles == old(toggles)
        invariant ran <= |envs| && (forall k :: 0 <= k < ran ==> GoesOn(envs[k]))
        invariant |polls| == |old(polls)| + ran
        invariant Told(old(Seen()), reports, envs[..ran], Seen(), noAutohide, hasStrip)
        decreases |envs| - ran
      {
        var go: bool;
        go, reports := NextTurn(envs[ran], old(Seen()), reports, envs[..ran]);
        if !go {
          return;
        }
        assert envs[..ran + 1] == envs[..ran] + [envs[ran]];
        ran := ran + 1;
      }
    }

    // One more turn, put on record.
    method NextTurn(env: Env, ghost start: View, ghost before: seq<Report>, ghost done: seq<Env>)
      returns (go: bool, ghost reports: seq<Report>)
      requires Valid() && Told(start, before, done, Seen(), noAutohide, hasStrip)
      modifies this
      ensures Valid() && clock >= old(clock)
      ensures old(toggles) <= toggles && old(polls) <= polls
      ensures go == GoesOn(env) && |polls| == |old(polls)| + if Disabled(env) then 0 else 1
      ensures noAutohide && !old(isHidden) ==> !isHidden && toggles == old(toggles)
      ensures Told(start, reports, if go then done + [env] else done, Seen(), noAutohide, hasStrip)
    {
      ghost var was := Seen();
      var drew: bool;
      ghost var report: Report;
      go, drew, report := Turn(env);
      if go {
        NextTold(start, before, done, was, env, report, Seen(), noAutohide, hasStrip);
        reports := if drew then before + [report] else before;
      } else {
        LinkedNext(start, before, was, report, false, Seen());
        reports := before;
      }
    }

    // Nothing is pending but the first draw, which is made at once.
    method Begin()
      requires Valid()
      modifies this`lastDraw, this`redrawPending, this`redrawForce, this`owesDraw, this`clock
      ensures Valid() && clock >= old(clock) && lastDraw == clock && !redrawPending && !redrawForce && !owesDraw
    {
      lastDraw := 0;
      redrawPending := false;
      redrawForce := false;
      owesDraw := false;
      MaybeDraw(true);
    }
  }
}

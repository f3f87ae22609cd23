// The explorer's asynchronous directory loads and its back/forward history.
module Explorer {
  import opened Wrappers

  type File = string

  // ------------------------------------------------------------ history as values

  // Back stack, current directory, forward stack; the tops of the stacks come last.
  datatype Nav = Nav(back: seq<File>, current: Option<File>, forward: seq<File>)

  // Clicking Back or Forward moves the stacks at once; the load comes later.
  function BackIssued(n: Nav): Nav {
    if n.back == [] then n
    else n.(back := n.back[..|n.back| - 1],
            forward := n.forward + if n.current.Some? then [n.current.value] else [])
  }

  function ForwardIssued(n: Nav): Nav {
    if n.forward == [] then n
    else n.(forward := n.forward[..|n.forward| - 1],
            back := n.back + if n.current.Some? then [n.current.value] else [])
  }

  // A load that succeeds.
  function Committed(n: Nav, dir: File, push: bool): Nav {
    if push && n.current.Some? && dir != n.current.value
    then Nav(n.back + [n.current.value], Some(dir), [])
    else n.(current := Some(dir))
  }

  // What the user does, each load finishing before the next action.
  datatype Action = Visit(dir: File) | GoBack | GoForward | Reload

  function Settled(n: Nav, a: Action): Nav {
    match a
    case Visit(dir) => Committed(n, dir, true)
    case GoBack => if n.back == [] then n else Committed(BackIssued(n), n.back[|n.back| - 1], false)
    case GoForward => if n.forward == [] then n else Committed(ForwardIssued(n), n.forward[|n.forward| - 1], false)
    case Reload => if n.current.None? then n else Committed(n, n.current.value, false)
  }

  function SettledRun(actions: seq<Action>): Nav {
    if actions == [] then Nav([], None, [])
    else Settled(SettledRun(actions[..|actions| - 1]), actions[|actions| - 1])
  }

  // ------------------------------------------------------------ the abstract browser history

  // The visited places with a cursor.
  datatype Places = Places(list: seq<File>, at: nat)

  function Moved(p: Places, a: Action): Places {
    match a
    case Visit(dir) =>
      if p.list == [] then Places([dir], 0)
      else if p.at < |p.list| && p.list[p.at] == dir then p
      else Places(Take(p.list, p.at + 1) + [dir], p.at + 1)
    case GoBack => if p.at == 0 then p else p.(at := p.at - 1)
    case GoForward => if p.at + 1 >= |p.list| then p else p.(at := p.at + 1)
    case Reload => p
  }

  function MovedRun(actions: seq<Action>): Places {
    if actions == [] then Places([], 0)
    else Moved(MovedRun(actions[..|actions| - 1]), actions[|actions| - 1])
  }

  function Reverse(s: seq<File>): (r: seq<File>)
    ensures |r| == |s|
  {
    if s == [] then [] else [s[|s| - 1]] + Reverse(s[..|s| - 1])
  }

  function Zipped(n: Nav): seq<File> {
    n.back + (if n.current.Some? then [n.current.value] else []) + Reverse(n.forward)
  }

  // Neighbouring places differ.
  ghost predicate NoStutter(s: seq<File>) {
    forall i {:trigger Differ(s, i)} :: Differ(s, i)
  }

  ghost predicate Differ(s: seq<File>, i: int) {
    0 < i < |s| ==> s[i - 1] != s[i]
  }

  ghost predicate Reachable(n: Nav) {
    && (n.current.None? ==> n.back == [] && n.forward == [])
    && NoStutter(Zipped(n))
  }

  lemma ReverseSnoc(s: seq<File>, x: File)
    ensures Reverse(s + [x]) == [x] + Reverse(s)
  {
    assert (s + [x])[..|s|] == s;
  }

  // Back and Forward only move the cursor.
  lemma BackMovesCursor(n: Nav)
    requires n.back != [] && n.current.Some?
    ensures Zipped(Settled(n, GoBack)) == Zipped(n)
    ensures |Settled(n, GoBack).back| == |n.back| - 1
  {
    ReverseSnoc(n.forward, n.current.value);
  }

  lemma ForwardMovesCursor(n: Nav)
    requires n.forward != [] && n.current.Some?
    ensures Zipped(Settled(n, GoForward)) == Zipped(n)
    ensures |Settled(n, GoForward).back| == |n.back| + 1
  {
    var top := n.forward[|n.forward| - 1];
    var rest := n.forward[..|n.forward| - 1];
    assert Reverse(n.forward) == [top] + Reverse(rest);
  }

  // Forward undoes Back, and Back undoes Forward.
  lemma ForwardUndoesBack(n: Nav)
    requires n.current.Some?
    ensures n.back != [] ==> Settled(Settled(n, GoBack), GoForward) == n
    ensures n.forward != [] ==> Settled(Settled(n, GoForward), GoBack) == n
  {
    if n.back != [] { assert n.back[..|n.back| - 1] + [n.back[|n.back| - 1]] == n.back; }
    if n.forward != [] { assert n.forward[..|n.forward| - 1] + [n.forward[|n.forward| - 1]] == n.forward; }
  }

  // Visiting somewhere else drops what lay ahead of the cursor.
  lemma VisitTruncates(n: Nav, dir: File)
    requires n.current.Some? && dir != n.current.value
    ensures Zipped(Settled(n, Visit(dir))) == Zipped(n)[..|n.back| + 1] + [dir]
  {}

  lemma NoStutterCut(s: seq<File>, k: nat, dir: File)
    requires NoStutter(s) && k < |s| && s[k] != dir
    ensures NoStutter(s[..k + 1] + [dir])
  {
    forall i {:trigger Differ(s[..k + 1] + [dir], i)} ensures Differ(s[..k + 1] + [dir], i) {
      assert Differ(s, i);
    }
  }

  // The two stacks are a list with a cursor, over any sequence of settled actions, and no two
  // neighbouring places are ever equal.
  lemma {:induction false} HistoryIsListWithCursor(actions: seq<Action>)
    ensures var n, p := SettledRun(actions), MovedRun(actions);
      && Zipped(n) == p.list && |n.back| == p.at && Reachable(n)
  {
    if actions != [] {
      var before, a := actions[..|actions| - 1], actions[|actions| - 1];
      HistoryIsListWithCursor(before);
      var n := SettledRun(before);
      match a {
        case Visit(dir) =>
          if n.current.None? {
            assert Zipped(Settled(n, a)) == [dir];
          } else if dir != n.current.value {
            VisitTruncates(n, dir);
            NoStutterCut(Zipped(n), |n.back|, dir);
          }
        case GoBack => if n.back != [] { BackMovesCursor(n); }
        case GoForward => if n.forward != [] { ForwardMovesCursor(n); }
        case Reload =>
      }
    }
  }

  // A Back whose load fails does not keep the list: the stacks have already moved.  Among
  // reachable states the list is kept if and only if the load succeeds.
  lemma BackKeepsListIffLoadSucceeds(n: Nav, succeeds: bool)
    requires Reachable(n) && n.back != []
    ensures var prev := n.back[|n.back| - 1];
      var after := if succeeds then Committed(BackIssued(n), prev, false) else BackIssued(n);
      Zipped(after) == Zipped(n) <==> succeeds
  {
    if succeeds {
      BackMovesCursor(n);
    } else {
      var k := |n.back| - 1;
      assert Differ(Zipped(n), k + 1);
      assert Zipped(n)[k] == n.back[k] && Zipped(n)[k + 1] == n.current.value;
      assert Zipped(BackIssued(n))[k] == n.current.value;
    }
  }

  // The same of a Forward.
  lemma ForwardKeepsListIffLoadSucceeds(n: Nav, succeeds: bool)
    requires Reachable(n) && n.forward != []
    ensures var next := n.forward[|n.forward| - 1];
      var after := if succeeds then Committed(ForwardIssued(n), next, false) else ForwardIssued(n);
      Zipped(after) == Zipped(n) <==> succeeds
  {
    if succeeds {
      ForwardMovesCursor(n);
    } else {
      FailedForwardRepeats(n);
    }
  }

  // A Forward that fails puts the current place where the next one was.
  lemma FailedForwardRepeats(n: Nav)
    requires Reachable(n) && n.forward != []
    ensures Zipped(ForwardIssued(n)) != Zipped(n)
  {
    var k, here := |n.back|, n.current.value;
    var rest, next := n.forward[..|n.forward| - 1], n.forward[|n.forward| - 1];
    assert n.forward == rest + [next];
    ReverseSnoc(rest, next);
    assert Zipped(n) == n.back + [here] + ([next] + Reverse(rest));
    assert Differ(Zipped(n), k + 1);
    assert Zipped(n)[k] == here && Zipped(n)[k + 1] == next;
    assert Zipped(ForwardIssued(n)) == n.back + [here] + [here] + Reverse(rest);
  }

  // From `a` to `b`, then a Back that fails: `b` has taken the place of `a`.
  lemma FailedBackLosesPlace(a: File, b: File)
    requires a != b
    ensures var n := SettledRun([Visit(a), Visit(b)]);
      Zipped(n) == [a, b] && Zipped(BackIssued(n)) == [b, b]
  {
    var none: seq<Action> := [];
    assert [Visit(a), Visit(b)] == [Visit(a)] + [Visit(b)] && [Visit(a)] == none + [Visit(a)];
    assert ([Visit(a)] + [Visit(b)])[..1] == [Visit(a)] && (none + [Visit(a)])[..0] == none;
    var n := SettledRun([Visit(a), Visit(b)]);
    assert SettledRun([Visit(a)]) == Nav([], Some(a), []);
    assert n == Nav([a], Some(b), []);
    assert Reverse([]) == [];
    ReverseSnoc([], b);
    assert [] + [b] == [b];
  }

  // ------------------------------------------------------------ the two stacks

  class History {
    var backStack: seq<File>
    var forwardStack: seq<File>

    constructor ()
      ensures backStack == [] && forwardStack == []
    {
      backStack, forwardStack := [], [];
    }

    method ClearForward()
      modifies this`forwardStack
      ensures forwardStack == []
    {
      forwardStack := [];
    }

    method PushBack(dir: File)
      modifies this`backStack
      ensures backStack == old(backStack) + [dir]
    {
      backStack := backStack + [dir];
    }

    method PushForward(dir: File)
      modifies this`forwardStack
      ensures forwardStack == old(forwardStack) + [dir]
    {
      forwardStack := forwardStack + [dir];
    }

    method PopBack() returns (dir: Option<File>)
      modifies this`backStack
      ensures old(backStack) == [] ==> dir == None && backStack == []
      ensures old(backStack) != [] ==> dir.Some? && old(backStack) == backStack + [dir.value]
    {
      if backStack == [] {
        return None;
      }
      dir := Some(backStack[|backStack| - 1]);
      backStack := backStack[..|backStack| - 1];
    }

    method PopForward() returns (dir: Option<File>)
      modifies this`forwardStack
      ensures old(forwardStack) == [] ==> dir == None && forwardStack == []
      ensures old(forwardStack) != [] ==> dir.Some? && old(forwardStack) == forwardStack + [dir.value]
    {
      if forwardStack == [] {
        return None;
      }
      dir := Some(forwardStack[|forwardStack| - 1]);
      forwardStack := forwardStack[..|forwardStack| - 1];
    }
  }

  // ------------------------------------------------------------ loads

  const TOKENS := 0x1_0000_0000  // load tokens are 32-bit and wrap around

  class Cancellable {
    var cancelled: bool

    constructor ()
      ensures !cancelled
    {
      cancelled := false;
    }
  }

  // A load waiting for its directory listing.  `serial` counts loads without wrapping.
  datatype Load = Load(token: nat, serial: nat, dir: File, push: bool, cancellable: Cancellable)

  datatype Status = Idle | Outstanding | Succeeded | Failed

  datatype Commit = Commit(serial: nat, dir: File)

  // Commits happen in strictly increasing order.
  ghost predicate Increasing(cs: seq<Commit>) {
    forall i {:trigger Later(cs, i)} :: Later(cs, i)
  }

  ghost predicate Later(cs: seq<Commit>, i: int) {
    0 < i < |cs| ==> cs[i - 1].serial < cs[i].serial
  }

  lemma IncreasingSnoc(cs: seq<Commit>, c: Commit)
    requires Increasing(cs) && (cs == [] || cs[|cs| - 1].serial < c.serial)
    ensures Increasing(cs + [c])
  {
    forall i {:trigger Later(cs + [c], i)} ensures Later(cs + [c], i) {
      assert Later(cs, i);
    }
  }

  // Any two commits are in the order of their requests, none twice.
  lemma {:induction false} CommitsInRequestOrder(cs: seq<Commit>, i: nat, j: nat)
    requires Increasing(cs) && i < j < |cs|
    ensures cs[i].serial < cs[j].serial
    decreases j
  {
    assert Later(cs, j);
    if i + 1 < j { CommitsInRequestOrder(cs, i, j - 1); }
  }

  lemma OpenWith(pending: set<Load>, load: Load)
    ensures Open(pending + {load}) == Open(pending) + {load.serial}
  {}

  lemma OpenWithout(pending: set<Load>, load: Load)
    requires load in pending && OnePerSerial(pending)
    ensures Open(pending - {load}) == Open(pending) - {load.serial}
  {
    forall n | n in Open(pending) - {load.serial} ensures n in Open(pending - {load}) {
      var l :| l in pending && l.serial == n;
      assert l in pending - {load};
    }
    forall n | n in Open(pending - {load}) ensures n in Open(pending) - {load.serial} {
      var l :| l in pending - {load} && l.serial == n;
    }
  }

  lemma OneMore(pending: set<Load>, load: Load)
    requires OnePerSerial(pending) && forall l :: l in pending ==> l.serial < load.serial
    ensures OnePerSerial(pending + {load})
  {}

  // The serials of the loads under way.
  ghost function Open(pending: set<Load>): set<nat> {
    set l | l in pending :: l.serial
  }

  ghost predicate OnePerSerial(pending: set<Load>) {
    forall l, m :: l in pending && m in pending && l.serial == m.serial ==> l == m
  }

  // ------------------------------------------------------------ the protocol as values

  // The history, the loads under way, what the newest was asked for and how it stands.
  datatype Flow = Flow(nav: Nav, serial: nat, open: set<nat>, dir: File, push: bool, status: Status,
                       commits: seq<Commit>)

  datatype Step = Request(dir: File, push: bool) | Back | Forward | Answer(serial: nat, failed: bool)

  function Started(f: Flow, dir: File, push: bool): Flow {
    Flow(f.nav, f.serial + 1, f.open + {f.serial + 1}, dir, push, Outstanding, f.commits)
  }

  function Flowed(f: Flow, s: Step): Flow {
    match s
    case Request(dir, push) => Started(f, dir, push)
    case Back =>
      if f.nav.back == [] then f
      else Started(f.(nav := BackIssued(f.nav)), f.nav.back[|f.nav.back| - 1], false)
    case Forward =>
      if f.nav.forward == [] then f
      else Started(f.(nav := ForwardIssued(f.nav)), f.nav.forward[|f.nav.forward| - 1], false)
    case Answer(n, failed) =>
      if n !in f.open then f
      else if n != f.serial then f.(open := f.open - {n})
      else if failed then f.(open := f.open - {n}, status := Failed)
      else f.(open := f.open - {n}, status := Succeeded, nav := Committed(f.nav, f.dir, f.push),
              commits := f.commits + [Commit(n, f.dir)])
  }

  function FlowRun(f: Flow, steps: seq<Step>): Flow {
    if steps == [] then f
    else Flowed(FlowRun(f, steps[..|steps| - 1]), steps[|steps| - 1])
  }

  // Requests are only added, and commits never taken back.
  lemma {:induction false} FlowOnlyGrows(f: Flow, steps: seq<Step>)
    ensures f.serial <= FlowRun(f, steps).serial && f.commits <= FlowRun(f, steps).commits
  {
    if steps != [] {
      var before := FlowRun(f, steps[..|steps| - 1]);
      FlowOnlyGrows(f, steps[..|steps| - 1]);
      FlowGrows(before, steps[|steps| - 1]);
    }
  }

  lemma FlowGrows(f: Flow, s: Step)
    ensures f.serial <= Flowed(f, s).serial && f.commits <= Flowed(f, s).commits
  {}

  // How the load `n` was first answered, if it was.
  function FirstAnswer(steps: seq<Step>, n: nat): Option<bool> {
    if steps == [] then None
    else
      var before, s := FirstAnswer(steps[..|steps| - 1], n), steps[|steps| - 1];
      if before.Some? then before
      else if s.Answer? && s.serial == n then Some(s.failed) else None
  }

  // Once no more is asked for, the answers may come in any order, late or twice: what counts is
  // the first answer to the newest request.
  lemma {:induction false} AnswersInAnyOrder(f: Flow, steps: seq<Step>)
    requires f.serial in f.open && forall i :: 0 <= i < |steps| ==> steps[i].Answer?
    ensures var r, a := FlowRun(f, steps), FirstAnswer(steps, f.serial);
      && r.serial == f.serial && r.dir == f.dir && r.push == f.push
      && (a.None? ==> r.serial in r.open && r.nav == f.nav && r.status == f.status && r.commits == f.commits)
      && (a.Some? ==> r.serial !in r.open)
      && (a == Some(true) ==> r.nav == f.nav && r.status == Failed && r.commits == f.commits)
      && (a == Some(false) ==>
            && r.nav == Committed(f.nav, f.dir, f.push) && r.status == Succeeded
            && r.commits == f.commits + [Commit(f.serial, f.dir)])
  {
    if steps != [] {
      AnswersInAnyOrder(f, steps[..|steps| - 1]);
    }
  }

  class Window {
    const history: History
    var loadToken: nat
    var listCancellable: Cancellable?
    var currentDir: Option<File>
    var busy: bool
    var actionsEnabled: bool
    var serial: nat  // loads started so far, for the specification: the source keeps only the token
    var pending: set<Load>  // loads whose listing has not come back

    ghost var newest: Option<Load>  // the load started last
    ghost var status: Status  // how it stands
    ghost var commits: seq<Commit>
    ghost var repr: set<Cancellable>

    // Every pending load but the newest has been cancelled, and no two share a cancellable.
    ghost predicate PendingOk()
      reads this`pending, this`serial, this`newest, this`repr, repr
    {
      && (forall l :: l in pending ==>
            && 1 <= l.serial <= serial && l.cancellable in repr
            && l.cancellable.cancelled == (l.serial < serial)
            && (l.serial == serial ==> newest == Some(l)))
      && OnePerSerial(pending)
    }

    ghost predicate NewestOk()
      reads this`newest, this`serial, this`loadToken, this`listCancellable, this`status, this`pending, this`repr, repr
    {
      && loadToken < TOKENS
      && (newest.None? <==> serial == 0) && (status.Idle? <==> serial == 0)
      && (newest.None? ==> listCancellable == null && pending == {})
      && (newest.Some? ==>
            && newest.value.serial == serial && newest.value.token == loadToken
            && listCancellable == newest.value.cancellable && listCancellable in repr
            && !newest.value.cancellable.cancelled
            && (status.Outstanding? <==> newest.value in pending))
    }

    // The current directory is the last committed one; the newest load is among the commits
    // exactly when it succeeded.
    ghost predicate CommitsOk()
      reads this`commits, this`serial, this`status, this`newest, this`currentDir
    {
      && Increasing(commits)
      && (commits != [] ==> 1 <= commits[|commits| - 1].serial <= serial)
      && currentDir == (if commits == [] then None else Some(commits[|commits| - 1].dir))
      && (status.Succeeded? <==> commits != [] && commits[|commits| - 1].serial == serial)
      && (status.Succeeded? && newest.Some? ==> commits[|commits| - 1].dir == newest.value.dir)
    }

    ghost predicate Valid()
      reads this, repr
    {
      && PendingOk() && NewestOk() && CommitsOk()
      && (serial > 0 ==> actionsEnabled == !status.Outstanding?)
    }

    ghost function Flows(): Flow
      reads this`currentDir, this`serial, this`pending, this`newest, this`status, this`commits, history
    {
      Flow(Here(), serial, Open(pending), if newest.Some? then newest.value.dir else "",
           newest.Some? && newest.value.push, status, commits)
    }

    ghost function Here(): Nav
      reads this`currentDir, history
    {
      Nav(history.backStack, currentDir, history.forwardStack)
    }

    constructor ()
      ensures Valid() && fresh(history) && fresh(repr) && Here() == SettledRun([])
      ensures serial == 0 && pending == {} && commits == []
    {
      history := new History();
      loadToken, listCancellable, currentDir, busy, actionsEnabled := 0, null, None, false, true;
      serial, pending, newest, status, commits, repr := 0, {}, None, Idle, [], {};
    }

    // Afterwards every pending load is cancelled.
    method CancelCurrent()
      requires PendingOk() && (listCancellable == null ==> pending == {})
      requires listCancellable != null ==>
        listCancellable in repr && newest.Some? && newest.value.cancellable == listCancellable
      modifies repr
      ensures forall l :: l in pending ==> l.cancellable in repr && l.cancellable.cancelled
    {
      if listCancellable != null {
        listCancellable.cancelled := true;
      }
    }

    // Starts a load and cancels the one before it.
    method StartLoad(dir: File, push: bool) returns (load: Load)
      requires Valid()
      modifies this`loadToken, this`listCancellable, this`busy, this`actionsEnabled, this`serial, this`pending,
               this`newest, this`status, this`repr, repr
      ensures Valid() && fresh(repr - old(repr))
      ensures serial == old(serial) + 1 && pending == old(pending) + {load} && newest == Some(load)
      ensures load.dir == dir && load.push == push && load.serial == serial
      ensures status == Outstanding && !actionsEnabled && busy
    {
      loadToken := (loadToken + 1) % TOKENS;
      CancelCurrent();
      var cancellable := new Cancellable();
      listCancellable := cancellable;
      load := Enqueue(loadToken, dir, push, cancellable);
    }

    // The new load joins the pending ones, all of them cancelled by now.
    method Enqueue(token: nat, dir: File, push: bool, cancellable: Cancellable) returns (load: Load)
      requires CommitsOk() && !cancellable.cancelled && token == loadToken < TOKENS && listCancellable == cancellable
      requires OnePerSerial(pending) && forall l :: l in pending ==>
        l.serial <= serial && 1 <= l.serial && l.cancellable in repr && l.cancellable.cancelled
      modifies this`serial, this`pending, this`newest, this`status, this`repr, this`busy, this`actionsEnabled
      ensures Valid() && repr == old(repr) + {cancellable}
      ensures serial == old(serial) + 1 && pending == old(pending) + {load} && newest == Some(load)
      ensures load == Load(token, serial, dir, push, cancellable) && status == Outstanding && !actionsEnabled && busy
    {
      serial := serial + 1;
      load := Load(token, serial, dir, push, cancellable);
      Register(load);
      busy := true;
      actionsEnabled := false;
    }

    method Register(load: Load)
      requires Increasing(commits) && (commits != [] ==> 1 <= commits[|commits| - 1].serial < serial)
      requires currentDir == if commits == [] then None else Some(commits[|commits| - 1].dir)
      requires !load.cancellable.cancelled && load.token == loadToken < TOKENS && listCancellable == load.cancellable
      requires load.serial == serial > 0
      requires OnePerSerial(pending) && forall l :: l in pending ==>
        1 <= l.serial < serial && l.cancellable in repr && l.cancellable.cancelled
      modifies this`pending, this`newest, this`status, this`repr
      ensures PendingOk() && NewestOk() && CommitsOk() && repr == old(repr) + {load.cancellable}
      ensures pending == old(pending) + {load} && newest == Some(load) && status == Outstanding
    {
      OneMore(pending, load);
      pending, newest, status := pending + {load}, Some(load), Outstanding;
      repr := repr + {load.cancellable};
    }

    // A listing comes back, or fails; only the newest load has any effect.
    method FinishLoad(load: Load, failed: bool)
      requires Valid() && load in pending
      modifies this`busy, this`actionsEnabled, this`currentDir, this`pending, this`status, this`commits, history
      ensures Valid() && !busy && pending == old(pending) - {load}
      ensures load.serial != serial || failed ==> commits == old(commits) && Here() == old(Here())
      ensures load.serial != serial ==> status == old(status) && actionsEnabled == old(actionsEnabled)
      ensures load.serial == serial && failed ==> status == Failed
      ensures load.serial == serial && !failed ==>
        && status == Succeeded && commits == old(commits) + [Commit(serial, load.dir)]
        && Here() == Committed(old(Here()), load.dir, load.push)
    {
      if failed {
        LoadFailed(load);
      } else {
        LoadSucceeded(load);
      }
    }

    method LoadFailed(load: Load)
      requires Valid() && load in pending
      modifies this`busy, this`actionsEnabled, this`pending, this`status
      ensures Valid() && !busy && pending == old(pending) - {load}
      ensures load.serial != serial ==> status == old(status) && actionsEnabled == old(actionsEnabled)
      ensures load.serial == serial ==> status == Failed
    {
      Retire(load);
      if load.cancellable.cancelled {
        busy := false;
        return;
      }
      assert load.token == loadToken;  // so the source's token test never fires here
      busy := false;
      actionsEnabled := true;
    }

    method LoadSucceeded(load: Load)
      requires Valid() && load in pending
      modifies this`busy, this`actionsEnabled, this`currentDir, this`pending, this`status, this`commits, history
      ensures Valid() && !busy && pending == old(pending) - {load}
      ensures load.serial != serial ==>
        && commits == old(commits) && Here() == old(Here())
        && status == old(status) && actionsEnabled == old(actionsEnabled)
      ensures load.serial == serial ==>
        && status == Succeeded && commits == old(commits) + [Commit(serial, load.dir)]
        && Here() == Committed(old(Here()), load.dir, load.push)
    {
      Retire(load);
      if load.cancellable.cancelled {
        busy := false;
      } else {
        assert load.token == loadToken;  // nor here
        EnableAndCommit(load);
      }
    }

    method EnableAndCommit(load: Load)
      requires PendingOk() && NewestOk() && CommitsOk()
      requires serial > 0 && status.Failed? && newest == Some(load) && load.serial == serial
      modifies this`busy, this`actionsEnabled, this`currentDir, this`status, this`commits, history
      ensures Valid() && !busy && status == Succeeded && commits == old(commits) + [Commit(serial, load.dir)]
      ensures Here() == Committed(old(Here()), load.dir, load.push)
    {
      busy := false;
      actionsEnabled := true;
      CommitLoad(load);
    }

    // The load is no longer pending; the newest one counts as failed until it is committed.
    method Retire(load: Load)
      requires Valid() && load in pending
      modifies this`pending, this`status
      ensures PendingOk() && NewestOk() && CommitsOk() && pending == old(pending) - {load}
      ensures load.cancellable.cancelled <==> load.serial != serial
      ensures load.serial == serial ==> status == Failed && newest == Some(load) && load.token == loadToken
      ensures load.serial != serial ==> status == old(status)
    {
      pending := pending - {load};
      if load.serial == serial {
        status := Failed;
      }
    }

    // The newest load takes effect.
    method CommitLoad(load: Load)
      requires CommitsOk() && serial > 0 && status.Failed? && newest == Some(load) && load.serial == serial
      modifies this`currentDir, this`status, this`commits, history
      ensures CommitsOk() && status == Succeeded && commits == old(commits) + [Commit(serial, load.dir)]
      ensures Here() == Committed(old(Here()), load.dir, load.push)
    {
      if load.push && currentDir.Some? && load.dir != currentDir.value {
        history.PushBack(currentDir.value);
        history.ClearForward();
      }
      currentDir := Some(load.dir);
      IncreasingSnoc(commits, Commit(serial, load.dir));
      status := Succeeded;
      commits := commits + [Commit(serial, load.dir)];
    }

    method BackClicked() returns (load: Option<Load>)
      requires Valid()
      modifies this`loadToken, this`listCancellable, this`busy, this`actionsEnabled, this`serial, this`pending,
               this`newest, this`status, this`repr, repr, history
      ensures Valid() && fresh(repr - old(repr)) && Here() == BackIssued(old(Here()))
      ensures load.Some? <==> old(Here()).back != []
      ensures serial == old(serial) + if load.Some? then 1 else 0
      ensures load.None? ==> status == old(status) && newest == old(newest) && pending == old(pending)
      ensures load.Some? ==>
        && pending == old(pending) + {load.value} && load.value.serial == serial
        && load == newest && status == Outstanding && !load.value.push
        && load.value.dir == old(Here()).back[|old(Here()).back| - 1]
    {
      var prev := history.PopBack();
      if prev.None? {
        return None;
      }
      if currentDir.Some? {
        history.PushForward(currentDir.value);
      }
      var started := StartLoad(prev.value, false);
      load := Some(started);
    }

    method ForwardClicked() returns (load: Option<Load>)
      requires Valid()
      modifies this`loadToken, this`listCancellable, this`busy, this`actionsEnabled, this`serial, this`pending,
               this`newest, this`status, this`repr, repr, history
      ensures Valid() && fresh(repr - old(repr)) && Here() == ForwardIssued(old(Here()))
      ensures load.Some? <==> old(Here()).forward != []
      ensures serial == old(serial) + if load.Some? then 1 else 0
      ensures load.None? ==> status == old(status) && newest == old(newest) && pending == old(pending)
      ensures load.Some? ==>
        && pending == old(pending) + {load.value} && load.value.serial == serial
        && load == newest && status == Outstanding && !load.value.push
        && load.value.dir == old(Here()).forward[|old(Here()).forward| - 1]
    {
      var next := history.PopForward();
      if next.None? {
        return None;
      }
      if currentDir.Some? {
        history.PushBack(currentDir.value);
      }
      var started := StartLoad(next.value, false);
      load := Some(started);
    }

    // One action whose load succeeds before anything else happens: with whatever stale loads
    // are still about, the history moves as the settled action says.
    method Settle(a: Action)
      requires Valid()
      modifies this, repr, history
      ensures Valid() && fresh(repr - old(repr)) && Here() == Settled(old(Here()), a)
      ensures status != Outstanding || (status == old(status) && newest == old(newest))
    {
      match a {
        case Visit(dir) =>
          var load := StartLoad(dir, true);
          FinishLoad(load, false);
        case GoBack =>
          var load := BackClicked();
          if load.Some? {
            FinishLoad(load.value, false);
          }
        case GoForward =>
          var load := ForwardClicked();
          if load.Some? {
            FinishLoad(load.value, false);
          }
        case Reload =>
          if currentDir.Some? {
            var load := StartLoad(currentDir.value, false);
            FinishLoad(load, false);
          }
      }
    }

    // A whole sequence of such actions moves the window as it moves the list with a cursor.
    method Browse(actions: seq<Action>)
      requires Valid() && Here() == SettledRun([])
      modifies this, repr, history
      ensures Valid() && fresh(repr - old(repr)) && Here() == SettledRun(actions)
      ensures var p := MovedRun(actions); Zipped(Here()) == p.list && |Here().back| == p.at && NoStutter(p.list)
    {
      for i := 0 to |actions|
        invariant Valid() && fresh(repr - old(repr)) && Here() == SettledRun(actions[..i])
      {
        assert actions[..i + 1][..i] == actions[..i];
        Settle(actions[i]);
      }
      assert actions[..|actions|] == actions;
      HistoryIsListWithCursor(actions);
    }

    // Any clicks, requests and answers, in any order: the window goes through the protocol's states.
    method Session(steps: seq<Step>)
      requires Valid()
      modifies this, repr, history
      ensures Valid() && fresh(repr - old(repr)) && Flows() == FlowRun(old(Flows()), steps)
      ensures old(commits) <= commits && serial >= old(serial)
      ensures pending == {} && serial > 0 ==> actionsEnabled && (status.Succeeded? || status.Failed?)
      ensures pending == {} && status.Succeeded? ==> currentDir == Some(newest.value.dir)
    {
      for k := 0 to |steps|
        invariant Valid() && fresh(repr - old(repr)) && Flows() == FlowRun(old(Flows()), steps[..k])
      {
        assert steps[..k + 1][..k] == steps[..k];
        OneStep(steps[k]);
      }
      assert steps[..|steps|] == steps;
      FlowOnlyGrows(old(Flows()), steps);
    }

    method OneStep(s: Step)
      requires Valid()
      modifies this, repr, history
      ensures Valid() && fresh(repr - old(repr)) && Flows() == Flowed(old(Flows()), s)
    {
      match s {
        case Request(dir, push) => Ask(dir, push);
        case Back => ClickBack();
        case Forward => ClickForward();
        case Answer(n, failed) => AnswerTo(n, failed);
      }
    }

    method Ask(dir: File, push: bool)
      requires Valid()
      modifies this, repr
      ensures Valid() && fresh(repr - old(repr)) && Flows() == Started(old(Flows()), dir, push)
    {
      ghost var before := pending;
      var load := StartLoad(dir, push);
      OpenWith(before, load);
    }

    method ClickBack()
      requires Valid()
      modifies this, repr, history
      ensures Valid() && fresh(repr - old(repr)) && Flows() == Flowed(old(Flows()), Back)
    {
      ghost var before := pending;
      var load := BackClicked();
      if load.Some? { OpenWith(before, load.value); }
    }

    method ClickForward()
      requires Valid()
      modifies this, repr, history
      ensures Valid() && fresh(repr - old(repr)) && Flows() == Flowed(old(Flows()), Forward)
    {
      ghost var before := pending;
      var load := ForwardClicked();
      if load.Some? { OpenWith(before, load.value); }
    }

    // The listing of load `n`, if it is under way.
    method AnswerTo(n: nat, failed: bool)
      requires Valid()
      modifies this, history
      ensures Valid() && repr == old(repr) && Flows() == Flowed(old(Flows()), Answer(n, failed))
    {
      if load: Load :| load in pending && load.serial == n {
        OpenWithout(pending, load);
        FinishLoad(load, failed);
      }
    }
  }

  // Once the newest load is over - in particular when none is outstanding - the actions are
  // enabled and the current directory is the newest request's target if it succeeded, and
  // otherwise the last directory committed.
  lemma WhenSettled(w: Window)
    requires w.Valid() && w.serial > 0
    requires w.newest.value !in w.pending
    ensures w.actionsEnabled
    ensures w.status == Succeeded ==> w.currentDir == Some(w.newest.value.dir)
    ensures w.status == Failed ==>
      && (forall i :: 0 <= i < |w.commits| ==> w.commits[i].serial < w.serial)
      && w.currentDir == if w.commits == [] then None else Some(w.commits[|w.commits| - 1].dir)
    ensures w.status == Succeeded || w.status == Failed
  {
    if w.status == Failed && w.commits != [] {
      var last := |w.commits| - 1;
      assert w.commits[last].serial != w.serial;
      forall i | 0 <= i < last ensures w.commits[i].serial < w.serial {
        CommitsInRequestOrder(w.commits, i, last);
      }
    }
  }
}

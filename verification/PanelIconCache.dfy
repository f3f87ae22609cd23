// The panel's icon cache: a recency list of slot indices threaded through a fixed array,
// with cairo reference counts.  It refines the same abstract cache as the dock's.
module PanelIconCache {
  import opened Wrappers
  import Lru

  type Surface = nat

  const SLOTS: nat := 64
  const ICON_PX := 16
  const ICON_SCALE := 1
  const VARIANT_NORMAL := 0

  datatype IconKey = IconKey(name: string, size: int, scale: int, variant: int)

  datatype Slot = Slot(inUse: bool, key: IconKey, surface: Surface, prev: int, next: int)

  const EMPTY_KEY := IconKey("", 0, 0, 0)

  // ------------------------------------------------------------ the threaded list

  ghost predicate InRange(slots: seq<Slot>, order: seq<int>) {
    forall a :: 0 <= a < |order| ==> 0 <= order[a] < |slots|
  }

  // The links between the list's neighbours at positions `a` and `a + 1`.
  ghost predicate Joined(slots: seq<Slot>, order: seq<int>, a: int)
    requires InRange(slots, order)
  {
    0 <= a < |order| - 1 ==>
      slots[order[a]].next == order[a + 1] && slots[order[a + 1]].prev == order[a]
  }

  // The links, head and tail spell out `order`.
  ghost predicate Threaded(slots: seq<Slot>, head: int, tail: int, order: seq<int>) {
    && InRange(slots, order)
    && Lru.Distinct(order)
    && head == (if order == [] then -1 else order[0])
    && tail == (if order == [] then -1 else order[|order| - 1])
    && (forall a {:trigger Joined(slots, order, a)} :: Joined(slots, order, a))
    && (order != [] ==> slots[order[0]].prev == -1 && slots[order[|order| - 1]].next == -1)
  }

  // The slots reached by following `next` for `n` steps.
  function Walk(slots: seq<Slot>, from: int, n: nat): seq<int>
    decreases n
  {
    if n == 0 || !(0 <= from < |slots|) then []
    else [from] + Walk(slots, slots[from].next, n - 1)
  }

  function WalkBack(slots: seq<Slot>, from: int, n: nat): seq<int>
    decreases n
  {
    if n == 0 || !(0 <= from < |slots|) then []
    else WalkBack(slots, slots[from].prev, n - 1) + [from]
  }

  lemma {:induction false} WalkOn(slots: seq<Slot>, head: int, tail: int, order: seq<int>, a: nat, n: nat)
    requires Threaded(slots, head, tail, order) && a < |order| && n >= |order| - a
    ensures Walk(slots, order[a], n) == order[a..]
    decreases n
  {
    assert Joined(slots, order, a);
    if a + 1 < |order| {
      WalkOn(slots, head, tail, order, a + 1, n - 1);
    }
  }

  lemma {:induction false} WalkOff(slots: seq<Slot>, head: int, tail: int, order: seq<int>, a: nat, n: nat)
    requires Threaded(slots, head, tail, order) && a < |order| && n > a
    ensures WalkBack(slots, order[a], n) == order[..a + 1]
    decreases n
  {
    if a > 0 {
      assert Joined(slots, order, a - 1);
      WalkOff(slots, head, tail, order, a - 1, n - 1);
    }
  }

  // Following `next` from head and `prev` from tail both spell out the whole list, and stop there.
  lemma BothWaysRound(slots: seq<Slot>, head: int, tail: int, order: seq<int>, n: nat)
    requires Threaded(slots, head, tail, order) && n >= |order|
    ensures Walk(slots, head, n) == order == WalkBack(slots, tail, n)
  {
    if order != [] {
      WalkOn(slots, head, tail, order, 0, n);
      WalkOff(slots, head, tail, order, |order| - 1, n);
    }
  }

  // Splicing an index out of the list: its neighbours are joined, its own links cleared.
  ghost predicate Spliced(slots: seq<Slot>, slots': seq<Slot>, idx: int)
    requires 0 <= idx < |slots|
  {
    var e := slots[idx];
    && |slots'| == |slots|
    && forall i :: 0 <= i < |slots| ==>
      && SamePayload(slots'[i], slots[i])
      && slots'[i].next == (if i == idx then -1 else if i == e.prev then e.next else slots[i].next)
      && slots'[i].prev == (if i == idx then -1 else if i == e.next then e.prev else slots[i].prev)
  }

  lemma SpliceThreads(slots: seq<Slot>, slots': seq<Slot>, head: int, tail: int, order: seq<int>, a: nat)
    requires Threaded(slots, head, tail, order) && a < |order| && Spliced(slots, slots', order[a])
    ensures var idx := order[a];
      Threaded(slots', if head == idx then slots[idx].next else head,
               if tail == idx then slots[idx].prev else tail, order[..a] + order[a + 1..])
  {
    var idx, order' := order[a], order[..a] + order[a + 1..];
    assert forall b :: 0 <= b < |order'| ==> order'[b] == if b < a then order[b] else order[b + 1];
    assert Joined(slots, order, a - 1) && Joined(slots, order, a);
    forall b {:trigger Joined(slots', order', b)} ensures Joined(slots', order', b) {
      assert Joined(slots, order, b) && Joined(slots, order, b + 1);
    }
  }

  // Linking an unlisted index in front of the list.
  lemma PushThreads(slots: seq<Slot>, slots': seq<Slot>, head: int, tail: int, order: seq<int>, idx: int)
    requires Threaded(slots, head, tail, order) && 0 <= idx < |slots| == |slots'| && idx !in order
    requires slots'[idx].prev == -1 && slots'[idx].next == head
    requires forall i :: 0 <= i < |slots| && i != idx ==>
      slots'[i].next == slots[i].next && slots'[i].prev == if i == head then idx else slots[i].prev
    ensures Threaded(slots', idx, if tail == -1 then idx else tail, [idx] + order)
  {
    var order' := [idx] + order;
    assert forall b :: 0 < b < |order'| ==> order'[b] == order[b - 1] && order[b - 1] in order;
    forall b {:trigger Joined(slots', order', b)} ensures Joined(slots', order', b) {
      assert Joined(slots, order, b - 1);
    }
  }

  // Only the links of listed slots matter.
  lemma ThreadedElsewhere(slots: seq<Slot>, slots': seq<Slot>, head: int, tail: int, order: seq<int>)
    requires Threaded(slots, head, tail, order) && |slots'| == |slots|
    requires forall a :: 0 <= a < |order| ==>
      slots'[order[a]].next == slots[order[a]].next && slots'[order[a]].prev == slots[order[a]].prev
    ensures Threaded(slots', head, tail, order)
  {
    forall b {:trigger Joined(slots', order, b)} ensures Joined(slots', order, b) {
      assert Joined(slots, order, b);
    }
  }

  // ------------------------------------------------------------ what the slots hold

  ghost predicate Listed(slots: seq<Slot>, order: seq<int>, i: int) {
    0 <= i < |slots| && slots[i].inUse ==> i in order
  }

  // The list is exactly the slots in use.
  ghost predicate Covers(slots: seq<Slot>, order: seq<int>) {
    && (forall a :: 0 <= a < |order| ==> 0 <= order[a] < |slots| && slots[order[a]].inUse)
    && (forall i {:trigger Listed(slots, order, i)} :: Listed(slots, order, i))
  }

  function EntriesOf(slots: seq<Slot>, order: seq<int>): seq<Lru.Entry<IconKey, Surface>>
    requires forall a :: 0 <= a < |order| ==> 0 <= order[a] < |slots|
  {
    seq(|order|, a requires 0 <= a < |order| => Lru.Entry(slots[order[a]].key, slots[order[a]].surface))
  }

  function HeldBySlot(slot: Slot): multiset<Surface> {
    if slot.inUse then multiset{slot.surface} else multiset{}
  }

  // How many of the slots from `i` on hold each surface.
  function HeldFrom(slots: seq<Slot>, i: nat): multiset<Surface>
    decreases |slots| - i
  {
    if i >= |slots| then multiset{} else HeldBySlot(slots[i]) + HeldFrom(slots, i + 1)
  }

  function HeldBySlots(slots: seq<Slot>): multiset<Surface> {
    HeldFrom(slots, 0)
  }

  lemma Regroup(first: multiset<Surface>, a: multiset<Surface>, b: multiset<Surface>, c: multiset<Surface>,
      d: multiset<Surface>)
    requires a + b == c + d
    ensures first + a + b == first + c + d
  {
    assert first + a + b == first + (a + b);
    assert first + c + d == first + (c + d);
  }

  lemma Exchange(a: multiset<Surface>, b: multiset<Surface>, c: multiset<Surface>)
    ensures a + b + c == c + b + a
  {}

  lemma {:induction false} HeldUpdateFrom(slots: seq<Slot>, k: nat, i: nat, slot: Slot)
    requires k <= |slots| && i < |slots|
    ensures k <= i ==>
      HeldFrom(slots[i := slot], k) + HeldBySlot(slots[i]) == HeldFrom(slots, k) + HeldBySlot(slot)
    ensures i < k ==> HeldFrom(slots[i := slot], k) == HeldFrom(slots, k)
    decreases |slots| - k
  {
    if k < |slots| {
      var slots' := slots[i := slot];
      HeldUpdateFrom(slots, k + 1, i, slot);
      if k < i {
        Regroup(HeldBySlot(slots[k]), HeldFrom(slots', k + 1), HeldBySlot(slots[i]), HeldFrom(slots, k + 1),
            HeldBySlot(slot));
      } else if k == i {
        Exchange(HeldBySlot(slot), HeldFrom(slots, k + 1), HeldBySlot(slots[i]));
      }
    }
  }

  lemma HeldUpdate(slots: seq<Slot>, i: nat, slot: Slot)
    requires i < |slots|
    ensures HeldBySlots(slots[i := slot]) + HeldBySlot(slots[i]) == HeldBySlots(slots) + HeldBySlot(slot)
  {
    HeldUpdateFrom(slots, 0, i, slot);
  }

  lemma {:induction false} HeldSameFrom(slots: seq<Slot>, slots': seq<Slot>, k: nat)
    requires Reordered(slots, slots') && k <= |slots|
    ensures HeldFrom(slots', k) == HeldFrom(slots, k)
    decreases |slots| - k
  {
    if k < |slots| {
      HeldSameFrom(slots, slots', k + 1);
    }
  }

  lemma HeldSame(slots: seq<Slot>, slots': seq<Slot>)
    requires Reordered(slots, slots')
    ensures HeldBySlots(slots') == HeldBySlots(slots)
  {
    HeldSameFrom(slots, slots', 0);
  }

  // Only links differ.
  ghost predicate Reordered(slots: seq<Slot>, slots': seq<Slot>) {
    |slots| == |slots'| && forall i :: 0 <= i < |slots| ==> SamePayload(slots'[i], slots[i])
  }

  ghost predicate SamePayload(s: Slot, t: Slot) {
    s.inUse == t.inUse && s.key == t.key && s.surface == t.surface
  }

  ghost function Upto(n: nat): (r: set<int>)
    ensures forall i :: i in r <==> 0 <= i < n
    ensures |r| == n
  {
    if n == 0 then {} else Upto(n - 1) + {n - 1}
  }

  ghost function Image(order: seq<int>): (r: set<int>)
    ensures forall i :: i in r <==> i in order
  {
    set i | i in order
  }

  lemma {:induction false} ImageSize(order: seq<int>)
    requires Lru.Distinct(order)
    ensures |Image(order)| == |order|
  {
    if order != [] {
      var n := |order| - 1;
      ImageSize(order[..n]);
      assert order == order[..n] + [order[n]];
      assert Image(order) == Image(order[..n]) + {order[n]};
    }
  }

  lemma SubsetSize<T>(s: set<T>, t: set<T>)
    requires s <= t
    ensures |s| <= |t| && (|s| == |t| <==> s == t)
  {
    assert t == s + (t - s);
    assert s != t ==> t - s != {};
  }

  // Distinct indices below `n` number at most `n`, and exactly `n` only when they are all there.
  lemma Pigeonhole(order: seq<int>, n: nat)
    requires forall a :: 0 <= a < |order| ==> 0 <= order[a] < n
    requires Lru.Distinct(order)
    ensures |order| <= n
    ensures (forall i :: 0 <= i < n ==> i in order) <==> |order| == n
  {
    ImageSize(order);
    SubsetSize(Image(order), Upto(n));
    if forall i :: 0 <= i < n ==> i in order {
      assert Image(order) == Upto(n);
    }
    if |order| == n {
      forall i | 0 <= i < n ensures i in order { assert i in Image(order); }
    }
  }

  function Freed(slot: Slot): Slot {
    slot.(inUse := false, surface := 0, key := IconKey("", 0, 0, slot.key.variant))
  }

  function Cleaned(slot: Slot): Slot {
    slot.(inUse := false, surface := 0, key := slot.key.(name := ""))
  }

  lemma GiveBack(refs: multiset<Surface>, slots: multiset<Surface>, slots': multiset<Surface>,
                 held: multiset<Surface>, s: Surface)
    requires refs == slots + held && slots' + multiset{s} == slots + multiset{}
    ensures refs - multiset{s} == slots' + held
  {
    assert slots == slots' + multiset{s};
  }

  lemma {:induction false} AllFree(slots: seq<Slot>, k: nat)
    requires k <= |slots| && forall i :: 0 <= i < |slots| ==> !slots[i].inUse
    ensures HeldFrom(slots, k) == multiset{}
    decreases |slots| - k
  {
    if k < |slots| {
      AllFree(slots, k + 1);
    }
  }

  // Freeing the last listed slot leaves the rest covered.
  lemma CoversInit(slots: seq<Slot>, slots': seq<Slot>, order: seq<int>)
    requires Covers(slots, order) && order != [] && |slots| == |slots'|
    requires Lru.Distinct(order)
    requires forall i :: 0 <= i < |slots| ==>
      slots'[i].inUse == if i == order[|order| - 1] then false else slots[i].inUse
    ensures Covers(slots', order[..|order| - 1])
  {
    var order' := order[..|order| - 1];
    forall i {:trigger Listed(slots', order', i)} ensures Listed(slots', order', i) {
      if 0 <= i < |slots'| && slots'[i].inUse {
        assert Listed(slots, order, i);
        var a :| 0 <= a < |order| && order[a] == i;
        assert order'[a] == i;
      }
    }
  }

  lemma CoversDropped(slots: seq<Slot>, unlinked: seq<Slot>, slots': seq<Slot>, order: seq<int>)
    requires Covers(slots, order) && Lru.Distinct(order) && order != [] && Reordered(slots, unlinked)
    requires var idx := order[|order| - 1];
      0 <= idx < |unlinked| && slots' == unlinked[idx := Freed(unlinked[idx])]
    ensures Covers(slots', order[..|order| - 1])
  {
    CoversReordered(slots, unlinked, order);
    CoversInit(unlinked, slots', order);
  }

  lemma TakeOver(refs: multiset<Surface>, slots: multiset<Surface>, slots': multiset<Surface>,
                 held: multiset<Surface>, s: Surface)
    requires refs == slots + held && slots' + multiset{} == slots + multiset{s} && s in held
    ensures refs == slots' + (held - multiset{s})
  {
    assert held == held - multiset{s} + multiset{s};
    assert slots' == slots + multiset{s};
  }

  // A caller gives up, or is handed, one reference.
  lemma HeldLess(refs: multiset<Surface>, slots: multiset<Surface>, held: multiset<Surface>, s: Surface)
    requires refs == slots + held && s in held
    ensures refs - multiset{s} == slots + (held - multiset{s})
  {}

  lemma PutBack(held: multiset<Surface>, s: Surface)
    ensures held + multiset{s} - multiset{s} == held
  {}

  lemma HeldMore(refs: multiset<Surface>, slots: multiset<Surface>, held: multiset<Surface>, s: Surface)
    requires refs == slots + held
    ensures refs + multiset{s} == slots + (held + multiset{s})
  {}

  // Filling a free slot and listing it first keeps the list exactly the slots in use.
  lemma CoversFront(slots: seq<Slot>, slots': seq<Slot>, order: seq<int>, idx: int)
    requires Covers(slots, order) && |slots| == |slots'| && 0 <= idx < |slots|
    requires forall i :: 0 <= i < |slots| ==> slots'[i].inUse == (i == idx || slots[i].inUse)
    ensures Covers(slots', [idx] + order)
  {
    forall i {:trigger Listed(slots', [idx] + order, i)} ensures Listed(slots', [idx] + order, i) {
      assert Listed(slots, order, i);
    }
  }

  lemma CoversFilled(slots: seq<Slot>, filled: seq<Slot>, slots': seq<Slot>, order: seq<int>, idx: int)
    requires Covers(slots, order) && 0 <= idx < |slots| == |filled| && Reordered(filled, slots')
    requires filled[idx].inUse && filled == slots[idx := filled[idx]]
    ensures Covers(slots', [idx] + order)
  {
    CoversFront(slots, filled, order, idx);
    CoversReordered(filled, slots', [idx] + order);
  }

  lemma NotListed(slots: seq<Slot>, order: seq<int>, i: int)
    requires Covers(slots, order) && 0 <= i < |slots| && !slots[i].inUse
    ensures i !in order
  {}

  lemma CoversReordered(slots: seq<Slot>, slots': seq<Slot>, order: seq<int>)
    requires Covers(slots, order) && Reordered(slots, slots')
    ensures Covers(slots', order)
  {
    forall i {:trigger Listed(slots', order, i)} ensures Listed(slots', order, i) {
      assert Listed(slots, order, i);
    }
  }

  lemma CoversMoved(slots: seq<Slot>, slots': seq<Slot>, order: seq<int>, a: nat)
    requires Covers(slots, order) && Reordered(slots, slots') && a < |order|
    ensures Covers(slots', [order[a]] + order[..a] + order[a + 1..])
  {
    var order' := [order[a]] + order[..a] + order[a + 1..];
    forall b | 0 <= b < |order'| ensures 0 <= order'[b] < |slots'| && slots'[order'[b]].inUse {
      assert order'[b] in order;
    }
    forall i {:trigger Listed(slots', order', i)} ensures Listed(slots', order', i) {
      assert Listed(slots, order, i);
      if 0 <= i < |slots'| && slots'[i].inUse {
        var b :| 0 <= b < |order| && order[b] == i;
        assert order[b] == order'[if b == a then 0 else if b < a then b + 1 else b];
      }
    }
  }

  // ------------------------------------------------------------ refinement steps

  function Answer(o: Lru.Outcome<IconKey, Surface>): Option<Surface> {
    if o.Failed? then None else Some(o.surface)
  }

  ghost predicate Uses(slots: seq<Slot>, i: int, key: IconKey) {
    0 <= i < |slots| && slots[i].inUse && slots[i].key == key
  }

  // What a lookup finds in the slots, or else the loader's answer.
  ghost predicate Answers(slots: seq<Slot>, key: IconKey, loaded: Option<Surface>, r: Option<Surface>) {
    && (forall i {:trigger Uses(slots, i, key)} :: Uses(slots, i, key) ==> r == Some(slots[i].surface))
    && ((forall i :: !Uses(slots, i, key)) ==> r == loaded)
  }

  // The abstract answer is the one the slots give.
  lemma AnswersMeaning(slots: seq<Slot>, order: seq<int>, key: IconKey, loaded: Option<Surface>)
    requires Covers(slots, order) && Lru.Distinct(Lru.Keys(EntriesOf(slots, order)))
    ensures Answers(slots, key, loaded, Answer(Lru.Result(EntriesOf(slots, order), key, loaded)))
  {
    var c := EntriesOf(slots, order);
    var k := Lru.Index(c, key);
    forall i {:trigger Uses(slots, i, key)} | Uses(slots, i, key)
      ensures k < |c| && c[k].surface == slots[i].surface
    {
      assert Listed(slots, order, i);
      var a :| 0 <= a < |order| && order[a] == i;
      assert c[a].key == key && Lru.Keys(c)[a] == key;
      assert Lru.Keys(c)[k] == key;
    }
    if k < |c| { assert Uses(slots, order[k], key); }
  }

  lemma HitRefines(slots: seq<Slot>, slots': seq<Slot>, order: seq<int>, a: nat, loaded: Option<Surface>)
    requires InRange(slots, order) && Reordered(slots, slots') && a < |order|
    requires Lru.Distinct(Lru.Keys(EntriesOf(slots, order)))
    ensures var c, k := EntriesOf(slots, order), slots[order[a]].key;
      && InRange(slots', [order[a]] + order[..a] + order[a + 1..])
      && Lru.Result(c, k, loaded) == Lru.Hit(k, slots[order[a]].surface)
      && EntriesOf(slots', [order[a]] + order[..a] + order[a + 1..]) == Lru.Fetched(c, SLOTS, k, loaded)
  {
    var c, k := EntriesOf(slots, order), slots[order[a]].key;
    var i := Lru.Index(c, k);
    assert i == a by {
      assert Lru.Keys(c)[a] == k;
      if i < |c| { assert Lru.Keys(c)[i] == k; }
    }
    var order' := [order[a]] + order[..a] + order[a + 1..];
    forall b | 0 <= b < |order'| ensures order'[b] == order[if b == 0 then a else if b <= a then b - 1 else b] {}
    assert EntriesOf(slots', order') == [c[a]] + c[..a] + c[a + 1..];
  }

  lemma MissRefines(slots: seq<Slot>, order: seq<int>, key: IconKey)
    requires Covers(slots, order) && forall i :: !Uses(slots, i, key)
    ensures Lru.Index(EntriesOf(slots, order), key) == |order|
  {
    var c := EntriesOf(slots, order);
    assert forall a :: 0 <= a < |order| ==> !Uses(slots, order[a], key);
  }

  ghost predicate KeepsListed(slots: seq<Slot>, slots': seq<Slot>, order: seq<int>) {
    && InRange(slots, order) && |slots| == |slots'|
    && forall a :: 0 <= a < |order| ==> SamePayload(slots'[order[a]], slots[order[a]])
  }

  // What is left of the list once there is room for one more.
  function Kept(order: seq<int>): (kept: seq<int>)
    ensures kept <= order
  {
    if |order| == SLOTS then order[..|order| - 1] else order
  }

  // A load drops the last entry first when all slots were taken.
  lemma LoadRefines(slots: seq<Slot>, mid: seq<Slot>, slots': seq<Slot>, order: seq<int>, kept: seq<int>,
                    idx: int, slot: Slot)
    requires InRange(slots, order) && |order| <= SLOTS && 0 <= idx < |mid|
    requires Lru.Index(EntriesOf(slots, order), slot.key) == |order|
    requires kept == Kept(order) && KeepsListed(slots, mid, kept) && idx !in kept
    requires Reordered(mid[idx := slot], slots')
    ensures InRange(slots', [idx] + kept)
    ensures EntriesOf(slots', [idx] + kept) == Lru.Fetched(EntriesOf(slots, order), SLOTS, slot.key, Some(slot.surface))
  {
    var c := EntriesOf(slots, order);
    var e := Lru.Entry(slot.key, slot.surface);
    KeptEntries(slots, mid, slots', kept, idx, slot);
    assert EntriesOf(slots, kept) == c[..|kept|];
    assert [e] + c[..|kept|] == Take([e] + c, SLOTS);
  }

  lemma KeptEntries(slots: seq<Slot>, mid: seq<Slot>, slots': seq<Slot>, kept: seq<int>, idx: int, slot: Slot)
    requires 0 <= idx < |mid| && KeepsListed(slots, mid, kept) && idx !in kept && Reordered(mid[idx := slot], slots')
    ensures InRange(slots', [idx] + kept)
    ensures EntriesOf(slots', [idx] + kept) == [Lru.Entry(slot.key, slot.surface)] + EntriesOf(slots, kept)
  {
    var order' := [idx] + kept;
    forall a | 0 <= a < |order'|
      ensures 0 <= order'[a] < |slots'|
      ensures a > 0 ==> SamePayload(slots'[order'[a]], slots[kept[a - 1]])
      ensures a == 0 ==> SamePayload(slots'[order'[a]], slot)
    {
      if a > 0 {
        assert order'[a] == kept[a - 1] && kept[a - 1] in kept;
        assert SamePayload(mid[kept[a - 1]], slots[kept[a - 1]]);
      }
    }
  }

  // ------------------------------------------------------------ the cache itself

  class IconCache {
    const entries: array<Slot>
    var head: int
    var tail: int
    var used: int
    var hits: nat
    var misses: nat
    var evictions: nat
    var refs: multiset<Surface>  // cairo's reference counts

    // Icon name normalisation, an input of the model.
    const normalize: string -> string

    ghost var order: seq<int>  // the recency list, head first
    ghost var held: multiset<Surface>  // the references callers own
    ghost var trace: seq<Lru.Request<IconKey, Surface>>
    ghost var model: Lru.State<IconKey, Surface>

    ghost predicate Linked()
      reads this`head, this`tail, this`order, entries
    {
      entries.Length == SLOTS && Threaded(entries[..], head, tail, order)
    }

    ghost predicate Consistent()
      reads this`head, this`tail, this`order, this`used, entries
    {
      Linked() && Covers(entries[..], order) && used == |order|
    }

    // Every reference is owned: by a slot or by a caller.
    ghost predicate Conserved()
      reads this`refs, this`held, entries
    {
      refs == HeldBySlots(entries[..]) + held
    }

    ghost function Contents(): seq<Lru.Entry<IconKey, Surface>>
      reads this`head, this`tail, this`order, entries
      requires Linked()
    {
      EntriesOf(entries[..], order)
    }

    ghost predicate Valid()
      reads this, entries
    {
      && Consistent() && Conserved()
      && model == Lru.Run(SLOTS, trace)
      && Contents() == model.cache
      && hits == model.hits && misses == model.misses && evictions == model.evictions
    }

    // The writes that take an index out.
    method Splice(idx: int)
      requires 0 <= idx < entries.Length
      requires var e := entries[idx]; -1 <= e.prev < entries.Length && -1 <= e.next < entries.Length
      requires var e := entries[idx]; e.prev != idx && e.next != idx && (e.prev == e.next ==> e.prev == -1)
      modifies this`head, this`tail, entries
      ensures Spliced(old(entries[..]), entries[..], idx)
      ensures head == if old(head) == idx then old(entries[idx].next) else old(head)
      ensures tail == if old(tail) == idx then old(entries[idx].prev) else old(tail)
    {
      var e := entries[idx];
      if e.prev != -1 {
        entries[e.prev] := entries[e.prev].(next := e.next);
      }
      if e.next != -1 {
        entries[e.next] := entries[e.next].(prev := e.prev);
      }
      if head == idx {
        head := e.next;
      }
      if tail == idx {
        tail := e.prev;
      }
      entries[idx] := entries[idx].(prev := -1, next := -1);
    }

    method Unlink(idx: int, ghost a: nat)
      requires Linked() && a < |order| && order[a] == idx
      modifies this`head, this`tail, this`order, entries
      ensures Linked() && order == old(order)[..a] + old(order)[a + 1..]
      ensures Reordered(old(entries[..]), entries[..])
      ensures HeldBySlots(entries[..]) == old(HeldBySlots(entries[..]))
    {
      ghost var slots := entries[..];
      assert Joined(slots, order, a - 1) && Joined(slots, order, a);
      Splice(idx);
      SpliceThreads(slots, entries[..], old(head), old(tail), order, a);
      HeldSame(slots, entries[..]);
      order := order[..a] + order[a + 1..];
    }

    method LinkHead(idx: int)
      requires Linked() && 0 <= idx < SLOTS && idx !in order
      modifies this`head, this`tail, this`order, entries
      ensures Linked() && order == [idx] + old(order)
      ensures Reordered(old(entries[..]), entries[..])
      ensures HeldBySlots(entries[..]) == old(HeldBySlots(entries[..]))
    {
      ghost var slots := entries[..];
      entries[idx] := entries[idx].(prev := -1, next := head);
      if head != -1 {
        entries[head] := entries[head].(prev := idx);
      }
      head := idx;
      if tail == -1 {
        tail := idx;
      }
      PushThreads(slots, entries[..], old(head), old(tail), order, idx);
      HeldSame(slots, entries[..]);
      order := [idx] + order;
    }

    method Touch(idx: int, ghost a: nat)
      requires Linked() && a < |order| && order[a] == idx
      modifies this`head, this`tail, this`order, entries
      ensures Linked() && order == [idx] + old(order)[..a] + old(order)[a + 1..]
      ensures Reordered(old(entries[..]), entries[..])
      ensures HeldBySlots(entries[..]) == old(HeldBySlots(entries[..]))
    {
      if idx == head {
        return;
      }
      Unlink(idx, a);
      LinkHead(idx);
    }

    constructor (normalize: string -> string)
      ensures Valid() && trace == [] && order == [] && held == multiset{}
      ensures this.normalize == normalize
    {
      var slots := new Slot[SLOTS](_ => Slot(false, EMPTY_KEY, 0, -1, -1));
      this.entries := slots;
      this.head, this.tail, this.used := -1, -1, 0;
      this.hits, this.misses, this.evictions := 0, 0, 0;
      this.refs, this.held := multiset{}, multiset{};
      this.normalize := normalize;
      this.order, this.trace, this.model := [], [], Lru.Run(SLOTS, []);
      new;
      AllFree(entries[..], 0);
    }

    // Empties a slot and gives its reference back.
    method Free(idx: int)
      requires entries.Length == SLOTS && 0 <= idx < SLOTS && entries[idx].inUse && Conserved()
      modifies this`used, this`evictions, this`refs, entries
      ensures Conserved() && used == old(used) - 1 && evictions == old(evictions) + 1
      ensures entries[..] == old(entries[..])[idx := Freed(old(entries[idx]))]
    {
      ghost var slots := entries[..];
      var e := entries[idx];
      refs := refs - multiset{e.surface};
      entries[idx] := Freed(e);
      used := used - 1;
      evictions := evictions + 1;
      assert entries[..] == slots[idx := Freed(e)];
      HeldUpdate(slots, idx, Freed(e));
      GiveBack(old(refs), HeldBySlots(slots), HeldBySlots(entries[..]), held, e.surface);
    }

    // Drops the least recently used slot and its reference.
    method EvictTail()
      requires Consistent() && Conserved()
      modifies this`head, this`tail, this`used, this`evictions, this`refs, this`order, entries
      ensures Consistent() && Conserved()
      ensures old(order) == [] ==> order == [] && evictions == old(evictions)
      ensures old(order) != [] ==>
        && order == old(order)[..|old(order)| - 1] && evictions == old(evictions) + 1
        && !entries[old(tail)].inUse
      ensures KeepsListed(old(entries[..]), entries[..], order)
    {
      if tail != -1 {
        DropTail();
      }
    }

    method DropTail()
      requires Consistent() && Conserved() && order != []
      modifies this`head, this`tail, this`used, this`evictions, this`refs, this`order, entries
      ensures Consistent() && Conserved()
      ensures order == old(order)[..|old(order)| - 1] && evictions == old(evictions) + 1
      ensures !entries[old(tail)].inUse
      ensures KeepsListed(old(entries[..]), entries[..], order)
    {
      var idx := tail;
      ghost var slots := entries[..];
      Unlink(idx, |order| - 1);
      assert order == old(order)[..|old(order)| - 1];
      ghost var unlinked := entries[..];
      Free(idx);
      CoversDropped(slots, unlinked, entries[..], old(order));
      ThreadedElsewhere(unlinked, entries[..], head, tail, order);
    }

    // The first free slot, or -1.
    method FirstFree() returns (idx: int)
      requires entries.Length == SLOTS
      ensures -1 <= idx < SLOTS
      ensures idx >= 0 ==> !entries[idx].inUse
      ensures idx == -1 ==> forall i :: 0 <= i < SLOTS ==> entries[i].inUse
    {
      for i := 0 to SLOTS
        invariant forall j :: 0 <= j < i ==> entries[j].inUse
      {
        if !entries[i].inUse {
          return i;
        }
      }
      return -1;
    }

    method Store(idx: int, slot: Slot)
      requires entries.Length == SLOTS && Conserved() && 0 <= idx < SLOTS && !entries[idx].inUse
      requires slot.inUse && slot.surface in held
      modifies this`held, entries
      ensures Conserved() && held == old(held) - multiset{slot.surface}
      ensures entries[..] == old(entries[..])[idx := slot]
    {
      ghost var slots := entries[..];
      entries[idx] := slot;
      assert entries[..] == slots[idx := slot];
      HeldUpdate(slots, idx, slot);
      TakeOver(refs, HeldBySlots(slots), HeldBySlots(entries[..]), held, slot.surface);
      held := held - multiset{slot.surface};
    }

    // Fills a free slot with a surface whose reference passes from `held` to the slot.
    method Fill(idx: int, key: IconKey, surface: Surface)
      requires Consistent() && Conserved() && 0 <= idx < SLOTS && !entries[idx].inUse && surface in held
      modifies this`head, this`tail, this`used, this`order, this`held, entries
      ensures Consistent() && Conserved()
      ensures order == [idx] + old(order) && held == old(held) - multiset{surface}
      ensures Reordered(old(entries[..])[idx := Slot(true, key, surface, -1, -1)], entries[..])
    {
      ghost var slots := entries[..];
      NotListed(slots, order, idx);
      Store(idx, Slot(true, key, surface, -1, -1));
      ListFilled(idx, slots);
    }

    // Puts a slot that has just been filled at the front of the list.
    method ListFilled(idx: int, ghost slots: seq<Slot>)
      requires |slots| == SLOTS == entries.Length && Threaded(slots, head, tail, order) && Covers(slots, order)
      requires used == |order| && 0 <= idx < SLOTS && idx !in order
      requires entries[idx].inUse && entries[..] == slots[idx := entries[idx]]
      modifies this`head, this`tail, this`used, this`order, entries
      ensures Consistent() && order == [idx] + old(order)
      ensures Reordered(old(entries[..]), entries[..]) && HeldBySlots(entries[..]) == old(HeldBySlots(entries[..]))
    {
      ghost var filled := entries[..];
      ThreadedElsewhere(slots, filled, head, tail, order);
      LinkHead(idx);
      CoversFilled(slots, filled, entries[..], old(order), idx);
      used := used + 1;
    }

    // Finds a free slot, evicting if there is none; after an eviction there always is one.
    method MakeRoom() returns (free: int)
      requires Consistent() && Conserved()
      modifies this`head, this`tail, this`used, this`evictions, this`refs, this`order, entries
      ensures Consistent() && Conserved() && 0 <= free < SLOTS && !entries[free].inUse && free !in order
      ensures |old(order)| <= SLOTS
      ensures order == Kept(old(order))
      ensures evictions == old(evictions) + if |old(order)| == SLOTS then 1 else 0
      ensures KeepsListed(old(entries[..]), entries[..], order)
    {
      free := FirstFree();
      Pigeonhole(order, SLOTS);
      if free == -1 {
        forall i | 0 <= i < SLOTS ensures i in order { assert Listed(entries[..], order, i); }
        EvictTail();
        free := FirstFree();
        assert free != -1;
        NotListed(entries[..], order, free);
      } else {
        assert free !in order;
      }
    }

    // Stores a surface under a key that is not listed yet.
    method Place(key: IconKey, surface: Surface)
      requires Consistent() && Conserved() && surface in held
      requires Lru.Index(Contents(), key) == |order|
      modifies this`head, this`tail, this`used, this`evictions, this`refs, this`order, this`held, entries
      ensures Consistent() && Conserved() && held == old(held) - multiset{surface}
      ensures Contents() == Lru.Fetched(old(Contents()), SLOTS, key, Some(surface))
      ensures evictions == old(evictions) + if |old(order)| == SLOTS then 1 else 0
    {
      ghost var slots := entries[..];
      var free := MakeRoom();
      ghost var mid, kept := entries[..], order;
      Fill(free, key, surface);
      LoadRefines(slots, mid, entries[..], old(order), kept, free, Slot(true, key, surface, -1, -1));
    }

    // Stores a loaded surface.  The caller has looked the key up before, so it is not here yet.
    method Insert(name: string, size: int, scale: int, variant: int, surface: Surface) returns (ok: bool)
      requires Consistent() && Conserved() && surface in held
      requires name != "" && '/' !in name ==>
        Lru.Index(Contents(), IconKey(normalize(name), size, ICON_SCALE, variant)) == |order|
      modifies this`head, this`tail, this`used, this`evictions, this`refs, this`order, this`held, entries
      ensures Consistent() && Conserved()
      ensures ok <==> name != "" && '/' !in name
      ensures !ok ==>
        && held == old(held) && order == old(order) && entries[..] == old(entries[..])
        && evictions == old(evictions)
      ensures ok ==>
        var key := IconKey(normalize(name), size, ICON_SCALE, variant);
        && held == old(held) - multiset{surface}
        && Contents() == Lru.Fetched(old(Contents()), SLOTS, key, Some(surface))
        && evictions == old(evictions) + if |old(order)| == SLOTS then 1 else 0
    {
      if name == "" || '/' in name {
        return false;
      }
      Place(IconKey(normalize(name), size, ICON_SCALE, variant), surface);
      return true;
    }

    // A lookup that finds its slot.
    method HitSlot(i: int, ghost loaded: Option<Surface>)
      requires Consistent() && Conserved() && Lru.Distinct(Lru.Keys(Contents()))
      requires 0 <= i < SLOTS && entries[i].inUse
      modifies this`head, this`tail, this`hits, this`refs, this`order, this`held, entries
      ensures Consistent() && Conserved() && hits == old(hits) + 1 && |order| == |old(order)|
      ensures Contents() == Lru.Fetched(old(Contents()), SLOTS, old(entries[i]).key, loaded)
      ensures Lru.Result(old(Contents()), old(entries[i]).key, loaded)
          == Lru.Hit(old(entries[i]).key, entries[i].surface)
      ensures held == old(held) + multiset{entries[i].surface}
    {
      hits := hits + 1;
      Promote(i, loaded);
      Reference(entries[i].surface);
    }

    // The slot moves to the front; nothing but the order changes.
    method Promote(i: int, ghost loaded: Option<Surface>)
      requires Consistent() && Lru.Distinct(Lru.Keys(Contents()))
      requires 0 <= i < SLOTS && entries[i].inUse
      modifies this`head, this`tail, this`order, entries
      ensures Consistent() && |order| == |old(order)|
      ensures HeldBySlots(entries[..]) == old(HeldBySlots(entries[..]))
      ensures Contents() == Lru.Fetched(old(Contents()), SLOTS, old(entries[i]).key, loaded)
      ensures Lru.Result(old(Contents()), old(entries[i]).key, loaded)
          == Lru.Hit(old(entries[i]).key, entries[i].surface)
    {
      ghost var slots := entries[..];
      assert Listed(slots, order, i);
      ghost var a: nat :| a < |order| && order[a] == i;
      Touch(i, a);
      HitRefines(slots, entries[..], old(order), a, loaded);
      CoversMoved(slots, entries[..], old(order), a);
    }

    // Hands the caller one more reference.
    method Reference(surface: Surface)
      requires Conserved()
      modifies this`refs, this`held
      ensures Conserved() && refs == old(refs) + multiset{surface} && held == old(held) + multiset{surface}
    {
      HeldMore(refs, HeldBySlots(entries[..]), held, surface);
      refs := refs + multiset{surface};
      held := held + multiset{surface};
    }

    // Looks a key up by scanning the slots; a hit moves to the front and gives the caller a
    // reference.  The loader's later answer `loaded` makes no difference to a hit.
    method Lookup(name: string, size: int, scale: int, variant: int, ghost loaded: Option<Surface>)
      returns (r: Option<Surface>)
      requires Consistent() && Conserved() && Lru.Distinct(Lru.Keys(Contents()))
      modifies this`head, this`tail, this`hits, this`misses, this`refs, this`order, this`held, entries
      ensures Consistent() && Conserved()
      ensures name == "" || '/' in name ==> r == None && hits == old(hits) && misses == old(misses)
      ensures name != "" && '/' !in name ==>
        var key := IconKey(normalize(name), size, ICON_SCALE, variant);
        if r.Some? then
          && Contents() == Lru.Fetched(old(Contents()), SLOTS, key, loaded)
          && Lru.Result(old(Contents()), key, loaded) == Lru.Hit(key, r.value)
          && hits == old(hits) + 1 && misses == old(misses)
        else
          && Lru.Index(Contents(), key) == |order|
          && hits == old(hits) && misses == old(misses) + 1
      ensures held == old(held) + if r.Some? then multiset{r.value} else multiset{}
      ensures r.None? ==> order == old(order) && entries[..] == old(entries[..])
    {
      if name == "" || '/' in name {
        return None;
      }
      var key := IconKey(normalize(name), size, ICON_SCALE, variant);
      for i := 0 to SLOTS
        invariant forall j :: 0 <= j < i ==> !Uses(entries[..], j, key)
        invariant Consistent() && Conserved() && unchanged(this) && unchanged(entries)
      {
        if entries[i].inUse && entries[i].key == key {
          HitSlot(i, loaded);
          return Some(entries[i].surface);
        }
      }
      MissRefines(entries[..], order, key);
      misses := misses + 1;
      return None;
    }

    // A caller drops a reference it owns.
    method Release(surface: Surface)
      requires Valid() && surface in held
      modifies this`refs, this`held
      ensures Valid() && held == old(held) - multiset{surface}
    {
      GiveUp(surface);
    }

    method GiveUp(surface: Surface)
      requires Conserved() && surface in held
      modifies this`refs, this`held
      ensures Conserved() && held == old(held) - multiset{surface}
    {
      HeldLess(refs, HeldBySlots(entries[..]), held, surface);
      refs := refs - multiset{surface};
      held := held - multiset{surface};
    }

    ghost method Record(r: Lru.Request<IconKey, Surface>)
      requires model == Lru.Run(SLOTS, trace)
      modifies this`model, this`trace
      ensures trace == old(trace) + [r] && model == Lru.Run(SLOTS, trace)
      ensures model == Lru.Step(SLOTS, old(model), r)
    {
      Lru.RunSnoc(SLOTS, trace, r);
      model := Lru.Step(SLOTS, model, r);
      trace := trace + [r];
    }

    // A plain name, one without a slash, goes through the cache.
    method LoadPlain(name: string, loaded: Option<Surface>) returns (r: Option<Surface>)
      requires Consistent() && Conserved() && Lru.Distinct(Lru.Keys(Contents()))
      requires name != "" && '/' !in name
      modifies this`head, this`tail, this`used, this`hits, this`misses, this`evictions, this`refs, this`order,
               this`held, entries
      ensures Consistent() && Conserved()
      ensures var key := IconKey(normalize(name), ICON_PX, ICON_SCALE, VARIANT_NORMAL);
        var o := Lru.Result(old(Contents()), key, loaded);
        && r == Answer(o)
        && Contents() == Lru.Fetched(old(Contents()), SLOTS, key, loaded)
        && hits == old(hits) + (if o.Hit? then 1 else 0)
        && misses == old(misses) + (if o.Hit? then 0 else 1)
        && evictions == old(evictions) + if o.Loaded? && |old(order)| == SLOTS then 1 else 0
      ensures held == old(held) + if r.Some? then multiset{r.value} else multiset{}
    {
      r := Lookup(name, ICON_PX, ICON_SCALE, VARIANT_NORMAL, loaded);
      if r.None? {
        r := LoadMissed(name, loaded);
      }
    }

    // The part after a lookup that found nothing.
    method LoadMissed(name: string, loaded: Option<Surface>) returns (r: Option<Surface>)
      requires Consistent() && Conserved() && name != "" && '/' !in name
      requires Lru.Index(Contents(), IconKey(normalize(name), ICON_PX, ICON_SCALE, VARIANT_NORMAL)) == |order|
      modifies this`head, this`tail, this`used, this`evictions, this`refs, this`order, this`held, entries
      ensures Consistent() && Conserved() && r == loaded
      ensures Contents() ==
        Lru.Fetched(old(Contents()), SLOTS, IconKey(normalize(name), ICON_PX, ICON_SCALE, VARIANT_NORMAL), loaded)
      ensures evictions == old(evictions) + if loaded.Some? && |old(order)| == SLOTS then 1 else 0
      ensures held == old(held) + if r.Some? then multiset{r.value} else multiset{}
    {
      if loaded.None? {
        return None;
      }
      Reference(loaded.value);  // the loader hands over a surface with one reference
      var ok := Insert(name, ICON_PX, ICON_SCALE, VARIANT_NORMAL, loaded.value);
      PutBack(old(held), loaded.value);
      if ok {
        Reference(loaded.value);
      }
      return loaded;
    }

    // Neither lookup nor insertion takes an empty name or a path; the caller owns what was loaded.
    method LoadUncached(name: string, loaded: Option<Surface>) returns (r: Option<Surface>)
      requires Consistent() && Conserved() && Lru.Distinct(Lru.Keys(Contents()))
      requires name == "" || '/' in name
      modifies this`head, this`tail, this`used, this`hits, this`misses, this`evictions, this`refs, this`order,
               this`held, entries
      ensures Consistent() && Conserved() && order == old(order) && entries[..] == old(entries[..])
      ensures hits == old(hits) && misses == old(misses) && evictions == old(evictions)
      ensures r == if name == "" then None else loaded
      ensures held == old(held) + if r.Some? then multiset{r.value} else multiset{}
    {
      var cached := Lookup(name, ICON_PX, ICON_SCALE, VARIANT_NORMAL, loaded);
      if name == "" || loaded.None? {
        return None;
      }
      HandOut(name, loaded.value);
      return loaded;
    }

    // What was loaded for a path goes to the caller alone.
    method HandOut(name: string, surface: Surface)
      requires Consistent() && Conserved() && '/' in name
      modifies this`head, this`tail, this`used, this`evictions, this`refs, this`order, this`held, entries
      ensures Consistent() && Conserved() && order == old(order) && entries[..] == old(entries[..])
      ensures evictions == old(evictions) && held == old(held) + multiset{surface}
    {
      Reference(surface);
      var ok := Insert(name, ICON_PX, ICON_SCALE, VARIANT_NORMAL, surface);
    }

    // `loaded` is what the uncached loader answers; it is consulted for paths and on a miss.
    method LoadIcon(name: string, loaded: Option<Surface>) returns (r: Option<Surface>)
      requires Valid()
      modifies this, entries
      ensures Valid()
      ensures held == old(held) + if r.Some? then multiset{r.value} else multiset{}
      ensures name == "" ==> r == None && trace == old(trace) && order == old(order)
      ensures name != "" && '/' in name ==> r == loaded && trace == old(trace) && order == old(order)
      ensures name != "" && '/' !in name ==>
        var key := IconKey(normalize(name), ICON_PX, ICON_SCALE, VARIANT_NORMAL);
        && trace == old(trace) + [Lru.Fetch(key, loaded)]
        && r == Answer(Lru.Result(old(Contents()), key, loaded))
        && Answers(old(entries[..]), key, loaded, r)
    {
      Lru.RunHoldsMostRecent(SLOTS, trace);
      if name == "" || '/' in name {
        r := LoadUncached(name, loaded);
      } else {
        AnswersMeaning(entries[..], order, IconKey(normalize(name), ICON_PX, ICON_SCALE, VARIANT_NORMAL), loaded);
        r := Serve(name, loaded);
      }
    }

    // A plain name's load goes on record.
    method Serve(name: string, loaded: Option<Surface>) returns (r: Option<Surface>)
      requires Valid() && name != "" && '/' !in name
      modifies this, entries
      ensures Valid() && held == old(held) + if r.Some? then multiset{r.value} else multiset{}
      ensures var key := IconKey(normalize(name), ICON_PX, ICON_SCALE, VARIANT_NORMAL);
        && trace == old(trace) + [Lru.Fetch(key, loaded)]
        && r == Answer(Lru.Result(old(Contents()), key, loaded))
    {
      Lru.RunHoldsMostRecent(SLOTS, trace);
      r := LoadPlain(name, loaded);
      Record(Lru.Fetch(IconKey(normalize(name), ICON_PX, ICON_SCALE, VARIANT_NORMAL), loaded));
    }

    // Empties every slot; the links of unused slots stay as they are.
    method DestroyAll()
      requires Valid()
      modifies this`head, this`tail, this`used, this`refs, this`order, this`trace, this`model, entries
      ensures Valid() && order == [] && held == old(held) && trace == old(trace) + [Lru.Clear]
      ensures refs == held
    {
      Empty();
      Record(Lru.Clear);
    }

    method Empty()
      requires entries.Length == SLOTS && Conserved()
      modifies this`head, this`tail, this`used, this`refs, this`order, entries
      ensures Consistent() && Conserved() && order == [] && Contents() == [] && refs == held
    {
      CleanAll();
      Reset();
    }

    // With no slot in use, the empty list is the right one.
    method Reset()
      requires entries.Length == SLOTS && Covers(entries[..], [])
      modifies this`head, this`tail, this`used, this`order
      ensures Consistent() && order == []
    {
      head := -1;
      tail := -1;
      used := 0;
      order := [];
    }

    method CleanAll()
      requires entries.Length == SLOTS && Conserved()
      modifies this`refs, entries
      ensures Conserved() && refs == held && Covers(entries[..], [])
    {
      for i := 0 to SLOTS
        invariant Conserved() && forall j :: 0 <= j < i ==> !entries[j].inUse
      {
        if entries[i].inUse {
          Clean(i);
        }
      }
      AllFree(entries[..], 0);
    }

    method Clean(idx: int)
      requires entries.Length == SLOTS && 0 <= idx < SLOTS && entries[idx].inUse && Conserved()
      modifies this`refs, entries
      ensures Conserved() && entries[..] == old(entries[..])[idx := Cleaned(old(entries[idx]))]
    {
      ghost var slots := entries[..];
      var e := entries[idx];
      refs := refs - multiset{e.surface};
      entries[idx] := Cleaned(e);
      assert entries[..] == slots[idx := Cleaned(e)];
      HeldUpdate(slots, idx, Cleaned(e));
      GiveBack(old(refs), HeldBySlots(slots), HeldBySlots(entries[..]), held, e.surface);
    }
  }

  // Following `next` from the head visits every slot in use exactly once, `prev` from the
  // tail undoes it, and `used` is the length.
  lemma WalkVisitsEverySlotInUse(cache: IconCache)
    requires cache.Valid()
    ensures var w := Walk(cache.entries[..], cache.head, SLOTS);
      && w == WalkBack(cache.entries[..], cache.tail, SLOTS)
      && |w| == cache.used && Lru.Distinct(w)
      && forall i :: 0 <= i < SLOTS ==> (i in w <==> cache.entries[i].inUse)
  {
    var slots := cache.entries[..];
    Pigeonhole(cache.order, SLOTS);
    BothWaysRound(slots, cache.head, cache.tail, cache.order, SLOTS);
    forall i | 0 <= i < SLOTS ensures i in cache.order <==> slots[i].inUse {
      assert Listed(slots, cache.order, i);
    }
  }

  ghost function Holding(slots: seq<Slot>, i: nat, s: Surface): set<int> {
    set k | i <= k < |slots| && slots[k].inUse && slots[k].surface == s
  }

  // The slots' share of a surface's references is the number of slots holding it.
  lemma {:induction false} HeldFromCounts(slots: seq<Slot>, i: nat, s: Surface)
    requires i <= |slots|
    ensures HeldFrom(slots, i)[s] == |Holding(slots, i, s)|
    decreases |slots| - i
  {
    if i < |slots| {
      HeldFromCounts(slots, i + 1, s);
      var here: set<int> := if slots[i].inUse && slots[i].surface == s then {i as int} else {};
      assert Holding(slots, i, s) == here + Holding(slots, i + 1, s);
    } else {
      assert Holding(slots, i, s) == {};
    }
  }

  // A surface has as many references as there are slots holding it, plus those callers own.
  lemma ReferencesCount(cache: IconCache, s: Surface)
    requires cache.Valid()
    ensures cache.refs[s] == |Holding(cache.entries[..], 0, s)| + cache.held[s]
  {
    HeldFromCounts(cache.entries[..], 0, s);
  }

  // The panel's cache after any run is what the dock's would be with 64 entries.
  lemma CacheHoldsMostRecent(cache: IconCache)
    requires cache.Valid()
    ensures var run := Lru.Run(SLOTS, cache.trace);
      && Lru.Keys(cache.Contents()) == Take(Lru.Recency(Lru.Yields(run.log)), SLOTS)
      && Lru.Distinct(Lru.Keys(cache.Contents()))
      && cache.used == |cache.Contents()| <= SLOTS
      && cache.misses == cache.evictions + cache.used + run.failed + run.dropped
  {
    Lru.RunHoldsMostRecent(SLOTS, cache.trace);
    Lru.CountersBalance(SLOTS, cache.trace);
  }
}

// The dock's icon surface cache: heap entries on a doubly linked recency list, indexed by
// a hash map.  It refines the abstract cache of module Lru.
module DockIconCache {
  import opened Wrappers
  import Lru

  type Surface = nat

  datatype IconKey = IconKey(name: string, sizePx: int, scale: int)

  function Answer(o: Lru.Outcome<IconKey, Surface>): Option<Surface> {
    if o.Failed? then None else Some(o.surface)
  }

  class IconEntry {
    const key: IconKey
    const surface: Surface
    var prev: IconEntry?
    var next: IconEntry?

    constructor (key: IconKey, surface: Surface)
      ensures this.key == key && this.surface == surface && prev == null && next == null
    {
      this.key, this.surface, this.prev, this.next := key, surface, null, null;
    }
  }

  function Surfaces(es: seq<IconEntry>): seq<Surface> {
    seq(|es|, i requires 0 <= i < |es| => es[i].surface)
  }

  // The abstract view of a recency list.
  function EntriesOf(es: seq<IconEntry>): seq<Lru.Entry<IconKey, Surface>> {
    seq(|es|, i requires 0 <= i < |es| => Lru.Entry(es[i].key, es[i].surface))
  }

  // The list after a hit at position `i`.
  lemma HitRefines(es: seq<IconEntry>, i: nat, capacity: int, loaded: Option<Surface>)
    requires i < |es| && Lru.Distinct(Lru.Keys(EntriesOf(es)))
    ensures var c, k := EntriesOf(es), es[i].key;
      && Lru.Result(c, k, loaded) == Lru.Hit(k, es[i].surface)
      && EntriesOf([es[i]] + es[..i] + es[i + 1..]) == Lru.Fetched(c, capacity, k, loaded)
  {
    var c := EntriesOf(es);
    FoundAt(c, es[i].key, i);
    assert EntriesOf([es[i]] + es[..i] + es[i + 1..]) == [c[i]] + c[..i] + c[i + 1..];
  }

  lemma MissRefines(es: seq<IconEntry>, key: IconKey, loaded: Option<Surface>)
    requires forall i :: 0 <= i < |es| ==> es[i].key != key
    ensures Lru.Index(EntriesOf(es), key) == |es|
    ensures Lru.Result(EntriesOf(es), key, loaded)
         == if loaded.None? then Lru.Failed(key) else Lru.Loaded(key, loaded.value)
  {
    NotFound(EntriesOf(es), key);
  }

  // The list after a load, with the last entry dropped first when the cache was full.
  lemma LoadRefines(es: seq<IconEntry>, e: IconEntry, capacity: int)
    requires |es| <= Lru.Room(capacity) && forall i :: 0 <= i < |es| ==> es[i].key != e.key
    ensures var kept := if |es| >= Lru.Room(capacity) then es[..|es| - 1] else es;
      EntriesOf([e] + kept) == Lru.Fetched(EntriesOf(es), capacity, e.key, Some(e.surface))
  {
    var c := EntriesOf(es);
    NotFound(c, e.key);
    var kept := if |es| >= Lru.Room(capacity) then es[..|es| - 1] else es;
    assert EntriesOf([e] + kept) == Take([Lru.Entry(e.key, e.surface)] + c, Lru.Room(capacity));
  }

  lemma FoundAt(c: seq<Lru.Entry<IconKey, Surface>>, key: IconKey, i: nat)
    requires i < |c| && c[i].key == key && Lru.Distinct(Lru.Keys(c))
    ensures Lru.Index(c, key) == i
  {
    var j := Lru.Index(c, key);
    assert Lru.Keys(c)[i] == key;
    if j < |c| { assert Lru.Keys(c)[j] == key; }
  }

  lemma NotFound(c: seq<Lru.Entry<IconKey, Surface>>, key: IconKey)
    requires forall i :: 0 <= i < |c| ==> c[i].key != key
    ensures Lru.Index(c, key) == |c|
  {}

  ghost predicate Finds(index: map<IconKey, IconEntry>, order: seq<IconEntry>, k: IconKey) {
    k in index ==> index[k] in order && index[k].key == k
  }

  ghost predicate IndexedBy(index: map<IconKey, IconEntry>, order: seq<IconEntry>) {
    && (forall i :: 0 <= i < |order| ==> order[i].key in index && index[order[i].key] == order[i])
    && (forall k {:trigger Finds(index, order, k)} :: Finds(index, order, k))
  }

  ghost predicate AllDifferent(es: seq<IconEntry>) {
    forall i, j :: 0 <= i < j < |es| ==> es[i] != es[j]
  }

  // The links between the list's neighbours at positions `i` and `i + 1`.
  ghost predicate Joined(order: seq<IconEntry>, i: int)
    reads order
  {
    0 <= i < |order| - 1 ==> order[i].next == order[i + 1] && order[i + 1].prev == order[i]
  }

  lemma IndexDropLast(index: map<IconKey, IconEntry>, order: seq<IconEntry>)
    requires IndexedBy(index, order) && order != []
    requires AllDifferent(order)
    ensures IndexedBy(index - {order[|order| - 1].key}, order[..|order| - 1])
  {
    var n := |order| - 1;
    var index' := index - {order[n].key};
    forall k ensures Finds(index', order[..n], k) {
      if k in index' {
        assert Finds(index, order, k);
        var i :| 0 <= i < |order| && order[i] == index[k];
        assert order[..n][i] == index[k];
      }
    }
  }

  lemma IndexAddFront(index: map<IconKey, IconEntry>, order: seq<IconEntry>, e: IconEntry)
    requires IndexedBy(index, order) && e.key !in index
    ensures IndexedBy(index[e.key := e], [e] + order)
  {
    forall k {:trigger Finds(index[e.key := e], [e] + order, k)} ensures Finds(index[e.key := e], [e] + order, k) {
      assert Finds(index, order, k);
    }
  }

  lemma IndexMoveFront(index: map<IconKey, IconEntry>, order: seq<IconEntry>, i: nat)
    requires IndexedBy(index, order) && i < |order|
    ensures IndexedBy(index, [order[i]] + order[..i] + order[i + 1..])
  {
    var order' := [order[i]] + order[..i] + order[i + 1..];
    forall j | 0 <= j < |order'| ensures order'[j].key in index && index[order'[j].key] == order'[j] {
      assert order'[j] in order;
    }
    forall k ensures Finds(index, order', k) {
      assert Finds(index, order, k);
      if k in index {
        var a :| 0 <= a < |order| && order[a] == index[k];
        assert order[a] == order'[if a == i then 0 else if a < i then a + 1 else a];
      }
    }
  }

  class IconCache {
    var index: map<IconKey, IconEntry>
    var head: IconEntry?
    var tail: IconEntry?
    var size: int
    const capacity: int
    const iconPx: int
    const scale: int
    var hits: nat
    var misses: nat
    var evictions: nat
    var aliveSurfaces: int

    // Icon name normalisation, an input of the model.
    const normalize: string -> string

    ghost var released: seq<Surface>  // every surface given back, oldest first
    ghost var order: seq<IconEntry>  // the recency list, head first
    ghost var trace: seq<Lru.Request<IconKey, Surface>>  // every request since creation
    ghost var model: Lru.State<IconKey, Surface>  // what the abstract cache becomes under `trace`

    // The prev/next links, head and tail spell out `order`.
    ghost predicate Linked()
      reads this`order, this`head, this`tail, order
    {
      && AllDifferent(order)
      && head == (if order == [] then null else order[0])
      && tail == (if order == [] then null else order[|order| - 1])
      && (forall i {:trigger Joined(order, i)} :: Joined(order, i))
      && (order != [] ==> order[0].prev == null && order[|order| - 1].next == null)
    }

    // The hash map finds exactly the listed entries, each under its own key.
    ghost predicate Indexed()
      reads this`index, this`order
    {
      IndexedBy(index, order)
    }

    ghost function Contents(): seq<Lru.Entry<IconKey, Surface>>
      reads this`order
    {
      EntriesOf(order)
    }

    ghost predicate Consistent()
      reads this, order
    {
      Linked() && Indexed() && size == |order| && aliveSurfaces == |order|
    }

    ghost predicate Valid()
      reads this, order
    {
      && Consistent()
      && model == Lru.Run(capacity, trace)
      && Contents() == model.cache
      && hits == model.hits && misses == model.misses && evictions == model.evictions
      && |order| <= Lru.Room(capacity)
    }

    constructor (capacity: int, iconPx: int, scale: int, normalize: string -> string)
      ensures Valid() && trace == [] && released == []
      ensures this.capacity == capacity && this.iconPx == iconPx && this.scale == scale
      ensures this.normalize == normalize
    {
      this.index, this.head, this.tail, this.size := map[], null, null, 0;
      this.capacity, this.iconPx, this.scale := capacity, iconPx, scale;
      this.hits, this.misses, this.evictions, this.aliveSurfaces := 0, 0, 0, 0;
      this.normalize := normalize;
      this.released, this.order, this.trace, this.model := [], [], [], Lru.Run(capacity, []);
    }

    method Unlink(entry: IconEntry, ghost i: nat)
      requires Linked() && i < |order| && order[i] == entry
      modifies this`head, this`tail, this`order, order
      ensures Linked() && order == old(order)[..i] + old(order)[i + 1..]
      ensures entry.prev == null && entry.next == null
    {
      assert Joined(order, i - 1) && Joined(order, i);
      label before:
      if entry.prev != null {
        entry.prev.next := entry.next;
      } else {
        head := entry.next;
      }
      if entry.next != null {
        entry.next.prev := entry.prev;
      } else {
        tail := entry.prev;
      }
      entry.prev := null;
      entry.next := null;
      order := order[..i] + order[i + 1..];
      forall a {:trigger Joined(order, a)} ensures Joined(order, a) {
        assert old@before(Joined(order, a)) && old@before(Joined(order, a + 1));
      }
    }

    method LinkHead(entry: IconEntry)
      requires Linked() && entry !in order
      modifies this`head, this`tail, this`order, order, entry
      ensures Linked() && order == [entry] + old(order)
    {
      entry.prev := null;
      entry.next := head;
      if head != null {
        head.prev := entry;
      } else {
        tail := entry;
      }
      head := entry;
      order := [entry] + order;
      forall a {:trigger Joined(order, a)} ensures Joined(order, a) {
        assert old(Joined(order, a - 1));
      }
    }

    method Touch(entry: IconEntry, ghost i: nat)
      requires Linked() && i < |order| && order[i] == entry
      modifies this`head, this`tail, this`order, order
      ensures Linked() && order == [entry] + old(order)[..i] + old(order)[i + 1..]
    {
      if head == entry {
        return;
      }
      Unlink(entry, i);
      LinkHead(entry);
    }

    // Releases the entry's surface; the entry itself becomes garbage.
    method Destroy(entry: IconEntry)
      modifies this`aliveSurfaces, this`released
      ensures aliveSurfaces == old(aliveSurfaces) - 1 && released == old(released) + [entry.surface]
    {
      aliveSurfaces := aliveSurfaces - 1;
      released := released + [entry.surface];
    }

    // Drops the least recently used entry.
    method EvictTail()
      requires Consistent() && order != []
      modifies this`head, this`tail, this`order, this`index, this`evictions, this`size, this`aliveSurfaces,
               this`released, order
      ensures Consistent() && order == old(order)[..|old(order)| - 1]
      ensures evictions == old(evictions) + 1
      ensures released == old(released) + [old(order)[|old(order)| - 1].surface]
      ensures forall k :: k in index ==> k in old(index)
    {
      var victim := tail;
      IndexDropLast(index, order);
      Unlink(victim, |order| - 1);
      assert order == old(order)[..|old(order)| - 1];
      index := index - {victim.key};
      evictions := evictions + 1;
      size := size - 1;
      Destroy(victim);
    }

    // Puts a freshly loaded surface in front.
    method Insert(key: IconKey, surface: Surface) returns (entry: IconEntry)
      requires Consistent() && key !in index
      modifies this`head, this`tail, this`order, this`index, this`size, this`aliveSurfaces,
               this`released, order
      ensures Consistent() && fresh(entry) && entry.key == key && entry.surface == surface
      ensures order == [entry] + old(order)
    {
      entry := new IconEntry(key, surface);
      IndexAddFront(index, order, entry);
      aliveSurfaces := aliveSurfaces + 1;
      LinkHead(entry);
      index := index[key := entry];
      size := size + 1;
    }

    // A lookup that finds its entry.
    method HitEntry(entry: IconEntry, ghost loaded: Option<Surface>)
      requires Consistent() && entry in order
      requires Lru.Distinct(Lru.Keys(Contents()))
      modifies this`head, this`tail, this`order, this`hits, order
      ensures Consistent() && |order| == |old(order)| && hits == old(hits) + 1
      ensures Contents() == Lru.Fetched(old(Contents()), capacity, entry.key, loaded)
      ensures Lru.Result(old(Contents()), entry.key, loaded) == Lru.Hit(entry.key, entry.surface)
    {
      hits := hits + 1;
      ghost var i: nat :| i < |order| && order[i] == entry;
      HitRefines(order, i, capacity, loaded);
      IndexMoveFront(index, order, i);
      Touch(entry, i);
    }

    ghost method Record(r: Lru.Request<IconKey, Surface>)
      requires model == Lru.Run(capacity, trace)
      modifies this`model, this`trace
      ensures trace == old(trace) + [r] && model == Lru.Run(capacity, trace)
      ensures model == Lru.Step(capacity, old(model), r)
    {
      Lru.RunSnoc(capacity, trace, r);
      model := Lru.Step(capacity, model, r);
      trace := trace + [r];
    }

    // The fetch of a normalised key, `loaded` being what the loader would answer on a miss.
    method Fetch(key: IconKey, loaded: Option<Surface>) returns (r: Option<Surface>)
      requires Consistent() && |order| <= Lru.Room(capacity) && Lru.Distinct(Lru.Keys(Contents()))
      modifies this`head, this`tail, this`order, this`index, this`hits, this`misses, this`evictions,
               this`size, this`aliveSurfaces,
               this`released, order
      ensures Consistent() && |order| <= Lru.Room(capacity)
      ensures Contents() == Lru.Fetched(old(Contents()), capacity, key, loaded)
      ensures r == Answer(Lru.Result(old(Contents()), key, loaded))
      ensures r == if key in old(index) then Some(old(index[key].surface)) else loaded
      ensures var o := Lru.Result(old(Contents()), key, loaded);
        && hits == old(hits) + (if o.Hit? then 1 else 0)
        && misses == old(misses) + (if o.Hit? then 0 else 1)
        && evictions == old(evictions) + if o.Loaded? && |old(order)| >= Lru.Room(capacity) then 1 else 0
    {
      assert Finds(index, order, key);
      if key in index {
        var entry := index[key];
        HitEntry(entry, loaded);
        return Some(entry.surface);
      }
      misses := misses + 1;
      MissRefines(order, key, loaded);
      if loaded.None? {
        return None;
      }
      LoadEntry(key, loaded.value);
      return loaded;
    }

    // A surface loaded for a key that is not cached: makes room and puts it in front.
    method LoadEntry(key: IconKey, surface: Surface)
      requires Consistent() && |order| <= Lru.Room(capacity) && key !in index
      requires forall i :: 0 <= i < |order| ==> order[i].key != key
      modifies this`head, this`tail, this`order, this`index, this`evictions, this`size, this`aliveSurfaces,
               this`released, order
      ensures Consistent() && |order| <= Lru.Room(capacity)
      ensures Contents() == Lru.Fetched(old(Contents()), capacity, key, Some(surface))
      ensures evictions == old(evictions) + if |old(order)| >= Lru.Room(capacity) then 1 else 0
    {
      ghost var es := order;
      if size >= capacity && tail != null {
        EvictTail();
      }
      var entry := Insert(key, surface);
      LoadRefines(es, entry, capacity);
    }

    // Fetches an icon by name; nothing happens for a name that is or normalises to nothing.
    method Get(nameOrPath: string, loaded: Option<Surface>) returns (r: Option<Surface>)
      requires Valid()
      modifies this, order
      ensures Valid()
      ensures nameOrPath == "" || normalize(nameOrPath) == "" ==>
                r == None && trace == old(trace) && order == old(order)
      ensures nameOrPath != "" && normalize(nameOrPath) != "" ==>
                var key := IconKey(normalize(nameOrPath), iconPx, scale);
                && trace == old(trace) + [Lru.Fetch(key, loaded)]
                && r == Answer(Lru.Result(old(Contents()), key, loaded))
                && r == if key in old(index) then Some(old(index[key].surface)) else loaded
    {
      if nameOrPath == "" {
        return None;
      }
      var norm := normalize(nameOrPath);
      if norm == "" {
        return None;
      }
      r := Serve(IconKey(norm, iconPx, scale), loaded);
    }

    // A fetch that goes on record.
    method Serve(key: IconKey, loaded: Option<Surface>) returns (r: Option<Surface>)
      requires Valid()
      modifies this, order
      ensures Valid() && trace == old(trace) + [Lru.Fetch(key, loaded)]
      ensures r == Answer(Lru.Result(old(Contents()), key, loaded))
      ensures r == if key in old(index) then Some(old(index[key].surface)) else loaded
    {
      Lru.RunHoldsMostRecent(capacity, trace);
      r := Fetch(key, loaded);
      Record(Lru.Fetch(key, loaded));
    }

    // Walks the list from the head and releases every surface on it.
    method DestroyAll()
      requires Linked()
      modifies this`aliveSurfaces, this`released
      ensures aliveSurfaces == old(aliveSurfaces) - |order|
      ensures released == old(released) + Surfaces(order)
    {
      var entry := head;
      ghost var i := 0;
      while entry != null
        invariant 0 <= i <= |order| && entry == if i == |order| then null else order[i]
        invariant aliveSurfaces == old(aliveSurfaces) - i
        invariant released == old(released) + Surfaces(order)[..i]
        decreases |order| - i
      {
        assert order[i] == entry && Joined(order, i);
        var next := entry.next;
        Destroy(entry);
        entry := next;
        i := i + 1;
      }
    }

    method Clear()
      requires Valid()
      modifies this
      ensures Valid() && order == [] && trace == old(trace) + [Lru.Clear]
      ensures released == old(released) + Surfaces(old(order))
    {
      DestroyAll();
      Reset();
      Record(Lru.Clear);
    }

    // Forgets the list and the index, whose entries are gone.
    method Reset()
      requires aliveSurfaces == 0
      modifies this`head, this`tail, this`size, this`index, this`order
      ensures Consistent() && order == []
    {
      head := null;
      tail := null;
      size := 0;
      index := map[];
      order := [];
    }
  }

  // What any run of requests leaves in the concrete cache: the most recently requested keys in
  // order, one surface alive for each, and counters that balance.
  lemma CacheHoldsMostRecent(cache: IconCache)
    requires cache.Valid()
    ensures var run := Lru.Run(cache.capacity, cache.trace);
      && Lru.Keys(cache.Contents()) == Take(Lru.Recency(Lru.Yields(run.log)), Lru.Room(cache.capacity))
      && Lru.Distinct(Lru.Keys(cache.Contents()))
      && cache.aliveSurfaces == cache.size == |cache.Contents()| <= Lru.Room(cache.capacity)
      && cache.misses == cache.evictions + cache.size + run.failed + run.dropped
  {
    Lru.RunHoldsMostRecent(cache.capacity, cache.trace);
    Lru.CountersBalance(cache.capacity, cache.trace);
  }
}

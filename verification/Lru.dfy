// The abstract least-recently-used cache that both icon caches refine.  A cache is a
// sequence of entries, most recently used first.
module Lru {
  import opened Wrappers

  datatype Entry<K, V> = Entry(key: K, surface: V)

  // One request against a cache: fetch a key, where `loaded` is what the loader would
  // give if it were asked, or drop everything.
  datatype Request<K, V> = Fetch(key: K, loaded: Option<V>) | Clear

  // What a fetch did.
  datatype Outcome<K, V> = Hit(key: K, surface: V) | Loaded(key: K, surface: V) | Failed(key: K)

  function Keys<K, V>(c: seq<Entry<K, V>>): (ks: seq<K>)
    ensures |ks| == |c| && forall i :: 0 <= i < |c| ==> ks[i] == c[i].key
  {
    seq(|c|, i requires 0 <= i < |c| => c[i].key)
  }

  ghost predicate Distinct<K(!new)>(ks: seq<K>) {
    forall i, j :: 0 <= i < j < |ks| ==> ks[i] != ks[j]
  }

  function Remove<K(==)>(ks: seq<K>, k: K): seq<K> {
    if ks == [] then [] else if ks[0] == k then Remove(ks[1..], k) else [ks[0]] + Remove(ks[1..], k)
  }

  // A capacity below one still lets a single entry in: the eviction test needs a tail.
  function Room(capacity: int): (n: nat)
    ensures n >= 1
  {
    if capacity < 1 then 1 else capacity
  }

  // Position of `k`, or |c| when it is absent.
  function Index<K(==), V>(c: seq<Entry<K, V>>, k: K): (i: nat)
    ensures i <= |c|
    ensures forall j :: 0 <= j < i ==> c[j].key != k
    ensures i < |c| ==> c[i].key == k
  {
    if c == [] then 0 else if c[0].key == k then 0 else 1 + Index(c[1..], k)
  }

  // The abstract fetch: a hit moves its entry to the front; a miss puts a new entry there
  // and lets whatever exceeds the capacity fall off the end.
  function Fetched<K(==), V>(c: seq<Entry<K, V>>, capacity: int, k: K, loaded: Option<V>): seq<Entry<K, V>> {
    var i := Index(c, k);
    if i < |c| then [c[i]] + c[..i] + c[i + 1..]
    else if loaded.None? then c
    else Take([Entry(k, loaded.value)] + c, Room(capacity))
  }

  function Result<K(==), V>(c: seq<Entry<K, V>>, k: K, loaded: Option<V>): Outcome<K, V> {
    var i := Index(c, k);
    if i < |c| then Hit(k, c[i].surface)
    else if loaded.None? then Failed(k)
    else Loaded(k, loaded.value)
  }

  // ---------------------------------------------------------------- whole runs

  // The cache together with what happened since the last clear, oldest first, and the
  // running counters.
  datatype State<K, V> = State(cache: seq<Entry<K, V>>, log: seq<Outcome<K, V>>,
                               hits: nat, misses: nat, evictions: nat, failed: nat, dropped: nat)

  function Step<K(==), V>(capacity: int, s: State<K, V>, r: Request<K, V>): State<K, V> {
    match r
    case Clear => s.(cache := [], log := [], dropped := s.dropped + |s.cache|)
    case Fetch(k, loaded) =>
      var c' := Fetched(s.cache, capacity, k, loaded);
      var o := Result(s.cache, k, loaded);
      var s' := s.(cache := c', log := s.log + [o]);
      match o
      case Hit(_, _) => s'.(hits := s.hits + 1)
      case Failed(_) => s'.(misses := s.misses + 1, failed := s.failed + 1)
      case Loaded(_, _) =>
        s'.(misses := s.misses + 1,
            evictions := s.evictions + if |s.cache| >= Room(capacity) then 1 else 0)
  }

  function Run<K(==), V>(capacity: int, trace: seq<Request<K, V>>): State<K, V> {
    if trace == [] then State([], [], 0, 0, 0, 0, 0)
    else Step(capacity, Run(capacity, trace[..|trace| - 1]), trace[|trace| - 1])
  }

  lemma RunSnoc<K, V>(capacity: int, trace: seq<Request<K, V>>, r: Request<K, V>)
    ensures Run(capacity, trace + [r]) == Step(capacity, Run(capacity, trace), r)
  {
    assert (trace + [r])[..|trace|] == trace;
  }

  // The keys whose requests yielded a surface, oldest first.
  function Yields<K, V>(log: seq<Outcome<K, V>>): seq<K> {
    if log == [] then []
    else
      var o := log[|log| - 1];
      Yields(log[..|log| - 1]) + if o.Failed? then [] else [o.key]
  }

  // The distinct keys of a request sequence, most recently requested first.
  function Recency<K(==)>(ys: seq<K>): seq<K> {
    if ys == [] then []
    else
      var k := ys[|ys| - 1];
      [k] + Remove(Recency(ys[..|ys| - 1]), k)
  }

  ghost predicate LastAt<K(!new)>(ys: seq<K>, k: K, i: nat) {
    i < |ys| && ys[i] == k && forall j :: i < j < |ys| ==> ys[j] != k
  }

  // --- what Remove does

  lemma {:induction false} RemoveMeaning<K(!new)>(ks: seq<K>, k: K)
    requires Distinct(ks)
    ensures var r := Remove(ks, k); k !in r && Distinct(r) && forall x :: x in r <==> x in ks && x != k
    ensures k !in ks ==> Remove(ks, k) == ks
  {
    if ks == [] {
    } else {
      assert ks == [ks[0]] + ks[1..];
      assert Distinct(ks[1..]) && ks[0] !in ks[1..];
      RemoveMeaning(ks[1..], k);
    }
  }

  lemma {:induction false} RemoveAt<K(!new)>(ks: seq<K>, i: nat)
    requires Distinct(ks) && i < |ks|
    ensures Remove(ks, ks[i]) == ks[..i] + ks[i + 1..]
  {
    if i == 0 {
      RemoveMeaning(ks[1..], ks[0]);
    } else {
      RemoveAt(ks[1..], i - 1);
      assert ks[1..][..i - 1] == ks[1..i] && ks[1..][i..] == ks[i + 1..];
    }
  }

  // Removal keeps the relative order.
  lemma {:induction false} RemoveOrder<K(!new)>(ks: seq<K>, k: K, i: nat, j: nat) returns (i': nat, j': nat)
    requires Distinct(ks) && i < j < |Remove(ks, k)|
    ensures i' < j' < |ks| && ks[i'] == Remove(ks, k)[i] && ks[j'] == Remove(ks, k)[j]
  {
    if ks[0] == k {
      i', j' := RemoveOrder(ks[1..], k, i, j);
      i', j' := i' + 1, j' + 1;
    } else if i == 0 {
      RemoveMeaning(ks[1..], k);
      var x := Remove(ks, k)[j];
      assert x in Remove(ks[1..], k);
      i' := 0;
      j' :| 0 < j' < |ks| && ks[j'] == x;
    } else {
      i', j' := RemoveOrder(ks[1..], k, i - 1, j - 1);
      i', j' := i' + 1, j' + 1;
    }
  }

  // The last request for a key other than `k` is the same with or without a final request for `k`.
  lemma LastBefore<K(!new)>(before: seq<K>, k: K, x: K, p: nat)
    requires LastAt(before + [k], x, p)
    ensures x == k ==> p == |before|
    ensures x != k ==> LastAt(before, x, p)
  {
    var ys := before + [k];
    assert ys[|before|] == k;
    if x != k {
      assert p < |before| && before[p] == ys[p];
      forall j | p < j < |before| ensures before[j] != x { assert ys[j] == before[j]; }
    }
  }

  // Putting `k` in front of a recency list keeps the order of the last requests.
  lemma RecencyOrder<K(!new)>(before: seq<K>, k: K, i: nat, j: nat, p: nat, q: nat)
    requires Distinct(Recency(before)) && OrderedByLast(before, Recency(before))
    requires var r := [k] + Remove(Recency(before), k);
      i < j < |r| && (if i == 0 then p == |before| else LastAt(before, r[i], p)) && LastAt(before, r[j], q)
    ensures p > q
  {
    if i > 0 {
      var i', j' := RemoveOrder(Recency(before), k, i - 1, j - 1);
    }
  }

  ghost predicate OrderedByLast<K(!new)>(ys: seq<K>, r: seq<K>) {
    forall i, j, p: nat, q: nat :: 0 <= i < j < |r| && LastAt(ys, r[i], p) && LastAt(ys, r[j], q) ==> p > q
  }

  // `Recency` means what its name says: the distinct keys, ordered by last request.
  lemma {:induction false} RecencyMeaning<K(!new)>(ys: seq<K>)
    ensures Distinct(Recency(ys))
    ensures forall k :: k in Recency(ys) <==> k in ys
    ensures OrderedByLast(ys, Recency(ys))
  {
    if ys == [] {
    } else {
      var before, k := ys[..|ys| - 1], ys[|ys| - 1];
      assert ys == before + [k];
      RecencyMeaning(before);
      RemoveMeaning(Recency(before), k);
      var r := Recency(ys);
      forall i, j, p: nat, q: nat | 0 <= i < j < |r| && LastAt(ys, r[i], p) && LastAt(ys, r[j], q)
        ensures p > q
      {
        LastBefore(before, k, r[i], p);
        LastBefore(before, k, r[j], q);
        assert forall t :: 1 <= t < |r| ==> r[t] in Remove(Recency(before), k);
        RecencyOrder(before, k, i, j, p, q);
      }
    }
  }

  // Removing a key that is not among the first `n` leaves those alone.
  lemma {:induction false} RemoveBeyond<K(!new)>(ks: seq<K>, k: K, n: nat)
    requires n <= |ks| && k !in ks[..n]
    ensures n <= |Remove(ks, k)| && Remove(ks, k)[..n] == ks[..n]
  {
    if n == 0 {
    } else {
      assert ks[..n] == [ks[0]] + ks[1..][..n - 1];
      RemoveBeyond(ks[1..], k, n - 1);
    }
  }

  // ---------------------------------------------------------------- the main results

  ghost predicate HoldsMostRecent<K(!new), V>(capacity: int, s: State<K, V>) {
    Keys(s.cache) == Take(Recency(Yields(s.log)), Room(capacity))
  }

  lemma YieldsSnoc<K, V>(log: seq<Outcome<K, V>>, o: Outcome<K, V>)
    ensures Yields(log + [o]) == Yields(log) + if o.Failed? then [] else [o.key]
  {
    assert (log + [o])[..|log|] == log;
  }

  lemma RecencySnoc<K>(ys: seq<K>, k: K)
    ensures Recency(ys + [k]) == [k] + Remove(Recency(ys), k)
  {
    assert (ys + [k])[..|ys|] == ys;
  }

  lemma KeysMoved<K, V>(c: seq<Entry<K, V>>, i: nat)
    requires i < |c|
    ensures var ks := Keys(c); Keys([c[i]] + c[..i] + c[i + 1..]) == [ks[i]] + (ks[..i] + ks[i + 1..])
  {}

  lemma TakeMoved<K>(r: seq<K>, n: nat, i: nat)
    requires i < |Take(r, n)|
    ensures var t := Take(r, n); [t[i]] + (t[..i] + t[i + 1..]) == Take([r[i]] + (r[..i] + r[i + 1..]), n)
  {}

  // A hit: moving entry `i` to the front is moving its key to the front of the recency list.
  lemma HitKeepsMostRecent<K(!new), V>(n: nat, r: seq<K>, c: seq<Entry<K, V>>, i: nat)
    requires Keys(c) == Take(r, n) && Distinct(r) && i < |c|
    ensures Keys([c[i]] + c[..i] + c[i + 1..]) == Take([r[i]] + Remove(r, r[i]), n)
  {
    RemoveAt(r, i);
    KeysMoved(c, i);
    TakeMoved(r, n, i);
  }

  lemma KeysInFront<K, V>(e: Entry<K, V>, c: seq<Entry<K, V>>, n: nat)
    ensures Keys(Take([e] + c, n)) == Take([e.key] + Keys(c), n)
  {}

  // In front of a list only its first `n - 1` matter.
  lemma TakeInFront<K>(x: K, r: seq<K>, rest: seq<K>, n: nat)
    requires n >= 1 && Take(rest, n - 1) == Take(r, n - 1)
    ensures Take([x] + Take(r, n), n) == Take([x] + rest, n)
  {
    assert Take([x] + Take(r, n), n) == [x] + Take(r, n - 1);
    assert Take([x] + rest, n) == [x] + Take(rest, n - 1);
  }

  // A load: the new key goes in front and the least recent one may fall off.
  lemma LoadKeepsMostRecent<K(!new), V>(n: nat, r: seq<K>, c: seq<Entry<K, V>>, e: Entry<K, V>)
    requires n >= 1 && Keys(c) == Take(r, n) && Distinct(r) && e.key !in Keys(c)
    ensures Keys(Take([e] + c, n)) == Take([e.key] + Remove(r, e.key), n)
  {
    if |r| < n {
      RemoveMeaning(r, e.key);
    } else {
      assert r[..n - 1] == Keys(c)[..n - 1];
      RemoveBeyond(r, e.key, n - 1);
    }
    KeysInFront(e, c, n);
    TakeInFront(e.key, r, Remove(r, e.key), n);
  }

  // What a fetch does to a cache that holds the front of the recency list `r`.
  lemma FetchedKeys<K(!new), V>(capacity: int, r: seq<K>, c: seq<Entry<K, V>>, k: K, loaded: Option<V>)
    requires Keys(c) == Take(r, Room(capacity)) && Distinct(r)
    ensures Keys(Fetched(c, capacity, k, loaded))
         == Take(if Result(c, k, loaded).Failed? then r else [k] + Remove(r, k), Room(capacity))
  {
    var i := Index(c, k);
    if i < |c| {
      assert Keys(c)[i] == r[i] == k;
      HitKeepsMostRecent(Room(capacity), r, c, i);
    } else if loaded.Some? {
      LoadKeepsMostRecent(Room(capacity), r, c, Entry(k, loaded.value));
    }
  }

  // One request keeps the cache equal to the most recently yielding keys.
  lemma FetchHoldsMostRecent<K(!new), V>(capacity: int, s: State<K, V>, k: K, loaded: Option<V>)
    requires HoldsMostRecent(capacity, s)
    ensures HoldsMostRecent(capacity, Step(capacity, s, Fetch(k, loaded)))
  {
    var ys, o := Yields(s.log), Result(s.cache, k, loaded);
    RecencyMeaning(ys);
    YieldsSnoc(s.log, o);
    FetchedKeys(capacity, Recency(ys), s.cache, k, loaded);
    if o.Failed? {
      assert ys + [] == ys;
    } else {
      RecencySnoc(ys, k);
    }
  }

  // Over any run, in recency order the cache holds exactly the `Room(capacity)` most
  // recently requested distinct keys, since the last clear, whose request yielded a surface.
  lemma {:induction false} RunHoldsMostRecent<K(!new), V>(capacity: int, trace: seq<Request<K, V>>)
    ensures HoldsMostRecent(capacity, Run(capacity, trace))
    ensures |Run(capacity, trace).cache| <= Room(capacity)
    ensures Distinct(Keys(Run(capacity, trace).cache))
  {
    RecencyMeaning(Yields(Run(capacity, trace).log));
    if trace == [] {
    } else {
      var r := trace[|trace| - 1];
      RunHoldsMostRecent(capacity, trace[..|trace| - 1]);
      if r.Fetch? {
        FetchHoldsMostRecent(capacity, Run(capacity, trace[..|trace| - 1]), r.key, r.loaded);
      }
    }
  }

  // The entry was put in by the load at some position, and every later request for its key
  // was a hit that returned the very same surface.
  ghost predicate StoredBy<K(!new), V>(log: seq<Outcome<K, V>>, e: Entry<K, V>) {
    exists i :: 0 <= i < |log| && log[i] == Loaded(e.key, e.surface)
      && forall j :: i < j < |log| && log[j].key == e.key ==> log[j] == Hit(e.key, e.surface)
  }

  lemma StoredBySnoc<K(!new), V>(log: seq<Outcome<K, V>>, e: Entry<K, V>, o: Outcome<K, V>)
    requires StoredBy(log, e)
    requires o.key == e.key ==> o == Hit(e.key, e.surface)
    ensures StoredBy(log + [o], e)
  {
    var i :| 0 <= i < |log| && log[i] == Loaded(e.key, e.surface)
      && forall j :: i < j < |log| && log[j].key == e.key ==> log[j] == Hit(e.key, e.surface);
    assert (log + [o])[i] == Loaded(e.key, e.surface);
  }

  ghost predicate Traced<K(!new), V>(s: State<K, V>) {
    && (forall e :: e in s.cache ==> StoredBy(s.log, e))
    && (forall t :: 0 <= t < |s.log| && s.log[t].Hit? ==>
          StoredBy(s.log[..t], Entry(s.log[t].key, s.log[t].surface)))
  }

  lemma FetchKeepsTraced<K(!new), V>(capacity: int, s: State<K, V>, k: K, loaded: Option<V>)
    requires Traced(s) && Distinct(Keys(s.cache))
    ensures Traced(Step(capacity, s, Fetch(k, loaded)))
  {
    var o := Result(s.cache, k, loaded);
    var s' := Step(capacity, s, Fetch(k, loaded));
    var i := Index(s.cache, k);
    forall e | e in s'.cache ensures StoredBy(s'.log, e) {
      if e in s.cache {
        var a :| 0 <= a < |s.cache| && s.cache[a] == e;
        assert Keys(s.cache)[a] == e.key;
        assert e.key == k ==> a == i by {
          if e.key == k && i < |s.cache| { assert Keys(s.cache)[i] == k; }
        }
        StoredBySnoc(s.log, e, o);
      } else {
        assert s'.log[|s.log|] == o == Loaded(e.key, e.surface);
      }
    }
    forall t | 0 <= t < |s'.log| && s'.log[t].Hit?
      ensures StoredBy(s'.log[..t], Entry(s'.log[t].key, s'.log[t].surface))
    {
      assert s'.log[..t] == s.log[..t];
      if t == |s.log| {
        assert s.log[..t] == s.log && s.cache[i] in s.cache;
      }
    }
  }

  // Every cached entry, and every hit ever answered, goes back to the insertion of its key.
  lemma {:induction false} HitsReturnStoredSurface<K(!new), V>(capacity: int, trace: seq<Request<K, V>>)
    ensures Traced(Run(capacity, trace))
  {
    if trace == [] {
    } else {
      var before, r := trace[..|trace| - 1], trace[|trace| - 1];
      HitsReturnStoredSurface(capacity, before);
      RunHoldsMostRecent(capacity, before);
      if r.Fetch? {
        FetchKeepsTraced(capacity, Run(capacity, before), r.key, r.loaded);
      }
    }
  }

  ghost predicate Balanced<K(!new), V>(s: State<K, V>) {
    s.misses == s.evictions + |s.cache| + s.failed + s.dropped
  }

  lemma StepKeepsBalance<K(!new), V>(capacity: int, s: State<K, V>, r: Request<K, V>)
    requires Balanced(s) && |s.cache| <= Room(capacity)
    ensures Balanced(Step(capacity, s, r))
  {
    if r.Fetch? {
      var c, i := s.cache, Index(s.cache, r.key);
      if i < |c| {
        assert |[c[i]] + c[..i] + c[i + 1..]| == |c|;
      } else if r.loaded.Some? {
        assert |[Entry(r.key, r.loaded.value)] + c| == |c| + 1;
      }
    }
  }

  // The books balance after every run.
  lemma {:induction false} CountersBalance<K(!new), V>(capacity: int, trace: seq<Request<K, V>>)
    ensures var s := Run(capacity, trace);
      s.misses == s.evictions + |s.cache| + s.failed + s.dropped
  {
    if trace == [] {
    } else {
      var before, r := trace[..|trace| - 1], trace[|trace| - 1];
      RunHoldsMostRecent(capacity, before);
      CountersBalance(capacity, before);
      StepKeepsBalance(capacity, Run(capacity, before), r);
    }
  }

  // What a fetch answers, going by what is cached and what the loader would give.
  lemma ResultMeaning<K(!new), V(!new)>(c: seq<Entry<K, V>>, k: K, loaded: Option<V>)
    ensures var o := Result(c, k, loaded);
      && o.key == k
      && (o.Hit? <==> k in Keys(c)) && (o.Hit? ==> Entry(k, o.surface) in c)
      && (o.Failed? <==> k !in Keys(c) && loaded.None?)
      && (o.Loaded? ==> loaded == Some(o.surface))
  {
    var i := Index(c, k);
    if i < |c| {
      assert Keys(c)[i] == k && c[i] == Entry(k, c[i].surface) && c[i] in c;
    }
  }

  function Fetches<K, V>(trace: seq<Request<K, V>>): nat {
    if trace == [] then 0
    else Fetches(trace[..|trace| - 1]) + if trace[|trace| - 1].Fetch? then 1 else 0
  }

  // Every fetch is counted, as a hit or as a miss.
  lemma {:induction false} EveryFetchCounts<K(!new), V>(capacity: int, trace: seq<Request<K, V>>)
    ensures var s := Run(capacity, trace); s.hits + s.misses == Fetches(trace)
  {
    if trace == [] {
    } else {
      EveryFetchCounts(capacity, trace[..|trace| - 1]);
    }
  }

  // ---------------------------------------------------------------- inclusion

  // Loading a key always has the same outcome.
  ghost predicate Repeatable<K(!new), V(!new)>(trace: seq<Request<K, V>>, load: K -> Option<V>) {
    forall i :: 0 <= i < |trace| && trace[i].Fetch? ==> trace[i].loaded == load(trace[i].key)
  }

  // The keys yielded since the last clear, whatever the capacity.
  function Yielding<K, V>(trace: seq<Request<K, V>>): seq<K> {
    if trace == [] then []
    else
      var before := Yielding(trace[..|trace| - 1]);
      match trace[|trace| - 1]
      case Clear => []
      case Fetch(k, loaded) => if loaded.None? then before else before + [k]
  }

  ghost predicate Faithful<K(!new), V(!new)>(c: seq<Entry<K, V>>, load: K -> Option<V>) {
    forall i :: 0 <= i < |c| ==> load(c[i].key) == Some(c[i].surface)
  }

  lemma FetchFaithful<K(!new), V(!new)>(c: seq<Entry<K, V>>, capacity: int, k: K, load: K -> Option<V>)
    requires Faithful(c, load)
    ensures Faithful(Fetched(c, capacity, k, load(k)), load)
    ensures Result(c, k, load(k)).Failed? <==> load(k).None?
  {
    var c' := Fetched(c, capacity, k, load(k));
    var i := Index(c, k);
    forall j | 0 <= j < |c'| ensures load(c'[j].key) == Some(c'[j].surface) {
      if i < |c| {
        assert c'[j] == if j == 0 then c[i] else if j <= i then c[j - 1] else c[j];
      } else if load(k).Some? {
        assert j > 0 ==> c'[j] == c[j - 1];
      }
    }
  }

  lemma {:induction false} YieldsIgnoreCapacity<K(!new), V(!new)>(capacity: int, trace: seq<Request<K, V>>,
      load: K -> Option<V>)
    requires Repeatable(trace, load)
    ensures Yields(Run(capacity, trace).log) == Yielding(trace)
    ensures Faithful(Run(capacity, trace).cache, load)
  {
    if trace == [] {
    } else {
      var before, r := trace[..|trace| - 1], trace[|trace| - 1];
      YieldsIgnoreCapacity(capacity, before, load);
      if r.Fetch? {
        var s := Run(capacity, before);
        assert r.loaded == load(r.key);
        FetchFaithful(s.cache, capacity, r.key, load);
        YieldsSnoc(s.log, Result(s.cache, r.key, r.loaded));
      }
    }
  }

  lemma CachePrefix<K(!new), V(!new)>(small: int, large: int, trace: seq<Request<K, V>>, load: K -> Option<V>)
    requires small <= large && Repeatable(trace, load)
    ensures Run(small, trace).cache <= Run(large, trace).cache
  {
    var c, d := Run(small, trace).cache, Run(large, trace).cache;
    RunHoldsMostRecent(small, trace);
    RunHoldsMostRecent(large, trace);
    YieldsIgnoreCapacity(small, trace, load);
    YieldsIgnoreCapacity(large, trace, load);
    FaithfulPrefix(c, d, load);
  }

  // Repeatable loads: the keys say everything about the entries.
  lemma FaithfulPrefix<K(!new), V(!new)>(c: seq<Entry<K, V>>, d: seq<Entry<K, V>>, load: K -> Option<V>)
    requires Keys(c) <= Keys(d) && Faithful(c, load) && Faithful(d, load)
    ensures c <= d
  {
    forall i | 0 <= i < |c| ensures c[i] == d[i] {
      assert Keys(c)[i] == Keys(d)[i];
      assert load(c[i].key) == Some(c[i].surface) && load(d[i].key) == Some(d[i].surface);
    }
  }

  lemma IndexInPrefix<K, V>(c: seq<Entry<K, V>>, d: seq<Entry<K, V>>, k: K)
    requires c <= d && Index(c, k) < |c|
    ensures Index(d, k) == Index(c, k)
  {
    var i, j := Index(c, k), Index(d, k);
    assert d[i] == c[i];
    assert j < |c| ==> d[j] == c[j];
  }

  // On the same requests the smaller cache is a prefix of the larger one, so each of its
  // hits is the same hit of the larger, and the larger never has fewer.
  lemma {:induction false} Inclusion<K(!new), V(!new)>(small: int, large: int, trace: seq<Request<K, V>>,
      load: K -> Option<V>)
    requires small <= large && Repeatable(trace, load)
    ensures var s, l := Run(small, trace), Run(large, trace);
      && s.cache <= l.cache
      && s.hits <= l.hits
      && |s.log| == |l.log|
      && forall t :: 0 <= t < |s.log| && s.log[t].Hit? ==> l.log[t] == s.log[t]
  {
    CachePrefix(small, large, trace, load);
    if trace == [] {
    } else {
      var before, r := trace[..|trace| - 1], trace[|trace| - 1];
      Inclusion(small, large, before, load);
      var s, l := Run(small, before), Run(large, before);
      if r.Fetch? {
        if Index(s.cache, r.key) < |s.cache| {
          IndexInPrefix(s.cache, l.cache, r.key);
        }
      }
    }
  }
}

/** The map-tile cache of app/app.py: an insertion-ordered dict used as an LRU, with two locked sections around an
    unlocked fetch. */
module TileCache {
  import opened Wrappers
  import opened Sequences

  datatype Key = Key(z: nat, x: nat, y: nat)
  type Body = seq<int>

  datatype Entry = Entry(key: Key, body: Body)

  /** A dict in insertion order. */
  type Cache = seq<Entry>

  const CACHE_MAX: nat := 512

  function Keys(c: Cache): seq<Key> {
    seq(|c|, i requires 0 <= i < |c| => c[i].key)
  }

  /** The grid check in front of the cache. */
  predicate InGrid(k: Key) {
    k.z <= 19 && k.x < Power2(k.z) && k.y < Power2(k.z)
  }

  function Power2(n: nat): nat { if n == 0 then 1 else 2 * Power2(n - 1) }

  function Find(c: Cache, k: Key): Option<Body> {
    if c == [] then None else if c[0].key == k then Some(c[0].body) else Find(c[1..], k)
  }

  /** `dict.pop(key)` */
  function Without(c: Cache, k: Key): Cache {
    if c == [] then [] else if c[0].key == k then Without(c[1..], k) else [c[0]] + Without(c[1..], k)
  }

  /** `dict[key] = body`: in place for a present key, at the end for a new one. */
  function Assign(c: Cache, k: Key, b: Body): Cache {
    if c == [] then [Entry(k, b)]
    else if c[0].key == k then [Entry(k, b)] + c[1..]
    else [c[0]] + Assign(c[1..], k, b)
  }

  function LastN<T>(s: seq<T>, n: nat): seq<T> {
    if |s| <= n then s else s[|s| - n..]
  }

  /** The first locked section: a hit moves to the end. */
  function Touch(c: Cache, k: Key): Cache {
    match Find(c, k)
    case None => c
    case Some(b) => Without(c, k) + [Entry(k, b)]
  }

  /** The second locked section: store, then drop the oldest beyond the limit. */
  function Put(c: Cache, k: Key, b: Body): Cache {
    LastN(Assign(c, k, b), CACHE_MAX)
  }

  class Tiles {
    var cache: Cache

    constructor ()
      ensures cache == []
    {
      cache := [];
    }

    method LookUp(k: Key) returns (body: Option<Body>)
      modifies this
      ensures body == Find(old(cache), k) && cache == Touch(old(cache), k)
    {
      body := Find(cache, k);
      if body.Some? {
        cache := Without(cache, k);
        cache := cache + [Entry(k, body.value)];
      }
    }

    method Store(k: Key, body: Body)
      modifies this
      ensures cache == Put(old(cache), k, body)
    {
      cache := Assign(cache, k, body);
      ghost var filled := cache;
      while |cache| > CACHE_MAX
        invariant |cache| <= |filled| && cache == LastN(filled, |cache|)
        invariant |filled| <= CACHE_MAX ==> cache == filled
        invariant |filled| > CACHE_MAX ==> |cache| >= CACHE_MAX
      {
        cache := cache[1..];
      }
    }

    /** One request start to finish, `upstream` being what a fetch would bring. */
    method Serve(k: Key, upstream: Option<Body>) returns (response: Option<Body>)
      modifies this
      ensures response == Response(old(cache), Request(k, upstream))
      ensures cache == After(old(cache), Request(k, upstream))
    {
      if !InGrid(k) { return None; }
      var body := LookUp(k);
      if body.Some? { return body; }
      if upstream.None? { return None; }
      Store(k, upstream.value);
      return upstream;
    }
  }

  datatype Request = Request(key: Key, upstream: Option<Body>)

  function Response(c: Cache, r: Request): Option<Body> {
    if !InGrid(r.key) then None else if Find(c, r.key).Some? then Find(c, r.key) else r.upstream
  }

  function After(c: Cache, r: Request): Cache {
    if !InGrid(r.key) then c
    else if Find(c, r.key).Some? then Touch(c, r.key)
    else if r.upstream.Some? then Put(c, r.key, r.upstream.value)
    else c
  }

  /* --- the reference: most recently used keys --- */

  function Remove(s: seq<Key>, k: Key): seq<Key> {
    if s == [] then [] else if s[0] == k then Remove(s[1..], k) else [s[0]] + Remove(s[1..], k)
  }

  /** The distinct keys of a history in the order of their last use. */
  function Recency(used: seq<Key>): seq<Key> {
    if used == [] then [] else Remove(Recency(used[..|used| - 1]), used[|used| - 1]) + [used[|used| - 1]]
  }

  function Run(reqs: seq<Request>): Cache {
    if reqs == [] then [] else After(Run(reqs[..|reqs| - 1]), reqs[|reqs| - 1])
  }

  /** The keys of the requests that were answered with a tile, in order. */
  function Used(reqs: seq<Request>): seq<Key> {
    if reqs == [] then []
    else
      var before, last := reqs[..|reqs| - 1], reqs[|reqs| - 1];
      Used(before) + if Response(Run(before), last).Some? then [last.key] else []
  }

  /** The body of the last fetch that was stored for a key. */
  function LastFetch(reqs: seq<Request>, k: Key): Option<Body> {
    if reqs == [] then None
    else
      var before, last := reqs[..|reqs| - 1], reqs[|reqs| - 1];
      if last.key == k && InGrid(k) && Find(Run(before), k).None? && last.upstream.Some? then last.upstream
      else LastFetch(before, k)
  }

  /* --- facts about the dict --- */

  lemma {:induction false} FindMember(c: Cache, k: Key)
    ensures Find(c, k).Some? <==> k in Keys(c)
  {
    if c != [] {
      FindMember(c[1..], k);
      assert Keys(c) == [c[0].key] + Keys(c[1..]);
    }
  }

  lemma {:induction false} WithoutKeys(c: Cache, k: Key)
    ensures Keys(Without(c, k)) == Remove(Keys(c), k)
  {
    if c != [] {
      WithoutKeys(c[1..], k);
      assert Keys(c)[1..] == Keys(c[1..]);
      assert c[0].key != k ==> Keys(Without(c, k)) == [c[0].key] + Keys(Without(c[1..], k));
    } else {
      assert Keys(c) == [];
    }
  }

  lemma {:induction false} AssignKeys(c: Cache, k: Key, b: Body)
    ensures Keys(Assign(c, k, b)) == if k in Keys(c) then Keys(c) else Keys(c) + [k]
  {
    if c != [] {
      AssignKeys(c[1..], k, b);
      KeysCons(c[0], c[1..]);
      assert c == [c[0]] + c[1..];
      if c[0].key == k {
        KeysCons(Entry(k, b), c[1..]);
      } else {
        KeysCons(c[0], Assign(c[1..], k, b));
      }
      hide Keys;
    } else {
      assert Keys(c) == [];
    }
  }

  lemma KeysCons(e: Entry, rest: Cache)
    ensures Keys([e] + rest) == [e.key] + Keys(rest)
  {
  }

  lemma {:induction false} RemoveFacts(s: seq<Key>, k: Key)
    requires NoRepeats(s)
    ensures NoRepeats(Remove(s, k)) && k !in Remove(s, k)
    ensures forall x :: x in Remove(s, k) <==> x in s && x != k
    ensures |Remove(s, k)| == if k in s then |s| - 1 else |s|
    ensures k !in s ==> Remove(s, k) == s
  {
    if s != [] {
      RemoveFacts(s[1..], k);
      assert s == [s[0]] + s[1..];
      assert s[0] !in s[1..];
    }
  }

  lemma {:induction false} RemoveConcat(s: seq<Key>, t: seq<Key>, k: Key)
    ensures Remove(s + t, k) == Remove(s, k) + Remove(t, k)
  {
    if s == [] {
      assert s + t == t;
    } else {
      RemoveConcat(s[1..], t, k);
      assert (s + t)[1..] == s[1..] + t;
    }
  }

  lemma {:induction false} RecencyDistinct(used: seq<Key>)
    ensures NoRepeats(Recency(used))
    ensures forall x :: x in Recency(used) <==> x in used
  {
    if used != [] {
      RecencyDistinct(used[..|used| - 1]);
      RemoveFacts(Recency(used[..|used| - 1]), used[|used| - 1]);
      assert used == used[..|used| - 1] + [used[|used| - 1]];
    }
  }

  lemma LastNSuffix(p: seq<Key>, w: seq<Key>, n: nat)
    requires |w| <= n && (p == [] || |w| == n)
    ensures LastN(p + w, n) == w
  {
  }

  lemma LastNBeyond(p: seq<Key>, w: seq<Key>, n: nat)
    requires |w| >= n
    ensures LastN(p + w, n) == LastN(w, n)
  {
  }

  lemma LastNSplit(m: seq<Key>, n: nat) returns (p: seq<Key>)
    ensures m == p + LastN(m, n) && |LastN(m, n)| <= n && (p == [] || |LastN(m, n)| == n)
  {
    p := m[..|m| - |LastN(m, n)|];
  }

  lemma Assoc(a: seq<Key>, b: seq<Key>, c: seq<Key>)
    ensures a + b + c == a + (b + c)
  {
  }

  lemma {:induction false} UseCached(p: seq<Key>, s: seq<Key>, k: Key, n: nat)
    requires NoRepeats(p) && NoRepeats(s) && k !in p && k in s && |s| <= n && (p == [] || |s| == n)
    ensures LastN(Remove(p + s, k) + [k], n) == Remove(s, k) + [k]
  {
    hide LastN, NoRepeats, Remove;
    RemoveConcat(p, s, k);
    RemoveFacts(p, k);
    RemoveFacts(s, k);
    Assoc(p, Remove(s, k), [k]);
    LastNSuffix(p, Remove(s, k) + [k], n);
  }

  lemma {:induction false} UseUncached(p: seq<Key>, s: seq<Key>, k: Key, n: nat)
    requires NoRepeats(p) && NoRepeats(s) && k !in s && |s| <= n && (p == [] || |s| == n)
    ensures LastN(Remove(p + s, k) + [k], n) == LastN(s + [k], n)
  {
    hide LastN, NoRepeats, Remove;
    RemoveConcat(p, s, k);
    RemoveFacts(p, k);
    RemoveFacts(s, k);
    Assoc(Remove(p, k), s, [k]);
    if p == [] {
      assert |Remove(p, k)| == 0;
      assert Remove(p, k) + (s + [k]) == s + [k];
    } else {
      LastNBeyond(Remove(p, k), s + [k], n);
    }
  }

  /** One more use, on the last `n` keys only. */
  lemma {:induction false} UseSuffix(m: seq<Key>, k: Key, n: nat)
    requires NoRepeats(m) && n > 0
    ensures LastN(Remove(m, k) + [k], n) ==
            if k in LastN(m, n) then Remove(LastN(m, n), k) + [k] else LastN(LastN(m, n) + [k], n)
  {
    hide LastN, NoRepeats, Remove;
    var p := LastNSplit(m, n);
    var s := LastN(m, n);
    PartsDistinct(p, s);
    if k in s { UseCached(p, s, k, n); } else { UseUncached(p, s, k, n); }
  }

  lemma PartsDistinct(p: seq<Key>, s: seq<Key>)
    requires NoRepeats(p + s)
    ensures NoRepeats(p) && NoRepeats(s) && forall x :: x in p ==> x !in s
  {
    var m := p + s;
    assert forall i :: 0 <= i < |p| ==> m[i] == p[i];
    assert forall i :: 0 <= i < |s| ==> m[|p| + i] == s[i];
  }

  lemma KeysLastN(c: Cache)
    ensures Keys(LastN(c, CACHE_MAX)) == LastN(Keys(c), CACHE_MAX)
  {
  }

  lemma {:induction false} AnsweredStep(c: Cache, m: seq<Key>, r: Request)
    requires NoRepeats(m) && Keys(c) == LastN(m, CACHE_MAX) && Response(c, r).Some?
    ensures Keys(After(c, r)) == LastN(Remove(m, r.key) + [r.key], CACHE_MAX)
  {
    hide InGrid, Find, Without, Assign, Remove, LastN;
    var k := r.key;
    FindMember(c, k);
    UseSuffix(m, k, CACHE_MAX);
    if k in Keys(c) {
      WithoutKeys(c, k);
      KeysAppend(Without(c, k), Entry(k, Find(c, k).value));
    } else {
      AssignKeys(c, k, r.upstream.value);
      KeysLastN(Assign(c, k, r.upstream.value));
    }
  }

  lemma KeysAppend(c: Cache, e: Entry)
    ensures Keys(c + [e]) == Keys(c) + [e.key]
  {
  }

  /** LRU refinement: after any sequence of requests the cache holds exactly the 512 most recently used distinct
      keys, oldest first. */
  lemma {:induction false} CacheIsMostRecent(reqs: seq<Request>)
    ensures Keys(Run(reqs)) == LastN(Recency(Used(reqs)), CACHE_MAX)
  {
    hide InGrid, Find, Without, Assign, Remove, LastN, After, Response;
    if reqs == [] {
      NothingCached();
    } else {
      var before, last := reqs[..|reqs| - 1], reqs[|reqs| - 1];
      CacheIsMostRecent(before);
      var m := Recency(Used(before));
      RecencyDistinct(Used(before));
      if Response(Run(before), last).Some? {
        AnsweredStep(Run(before), m, last);
        assert Used(reqs)[..|Used(before)|] == Used(before);
        assert Recency(Used(reqs)) == Remove(m, last.key) + [last.key];
      } else {
        assert Used(reqs) == Used(before);
        UnansweredKeeps(Run(before), last);
      }
    }
  }

  lemma NothingCached()
    ensures Keys([]) == LastN(Recency([]), CACHE_MAX)
  {
  }

  lemma UnansweredKeeps(c: Cache, r: Request)
    requires Response(c, r).None?
    ensures After(c, r) == c
  {
  }

  /* --- bodies --- */

  lemma {:induction false} FindWithout(c: Cache, k: Key, j: Key)
    ensures Find(Without(c, k), j) == if j == k then None else Find(c, j)
  {
    if c != [] { FindWithout(c[1..], k, j); }
  }

  lemma {:induction false} FindAppend(c: Cache, e: Entry, j: Key)
    ensures Find(c + [e], j) == if Find(c, j).Some? then Find(c, j) else if e.key == j then Some(e.body) else None
  {
    if c == [] {
      assert c + [e] == [e];
    } else {
      assert (c + [e])[1..] == c[1..] + [e];
      FindAppend(c[1..], e, j);
    }
  }

  lemma {:induction false} FindAssign(c: Cache, k: Key, b: Body, j: Key)
    ensures Find(Assign(c, k, b), j) == if j == k then Some(b) else Find(c, j)
  {
    if c != [] { FindAssign(c[1..], k, b, j); }
  }

  lemma {:induction false} FindLastN(c: Cache, n: nat, j: Key)
    requires NoRepeats(Keys(c))
    ensures Find(LastN(c, n), j).Some? ==> Find(LastN(c, n), j) == Find(c, j)
    decreases |c|
  {
    if |c| > n {
      assert LastN(c, n) == LastN(c[1..], n);
      assert Keys(c[1..]) == Keys(c)[1..];
      FindLastN(c[1..], n, j);
      FindMember(c[1..], j);
      assert Keys(c)[0] !in Keys(c)[1..];
    }
  }

  lemma {:induction false} CacheDistinct(reqs: seq<Request>)
    ensures NoRepeats(Keys(Run(reqs))) && |Run(reqs)| <= CACHE_MAX
  {
    CacheIsMostRecent(reqs);
    RecencyDistinct(Used(reqs));
  }

  lemma {:induction false} PutFind(c: Cache, k: Key, b: Body, j: Key)
    requires NoRepeats(Keys(c))
    ensures Find(Put(c, k, b), j).Some? ==> Find(Put(c, k, b), j) == if j == k then Some(b) else Find(c, j)
  {
    hide Find, Assign, LastN;
    AssignKeys(c, k, b);
    FindAssign(c, k, b, j);
    FindLastN(Assign(c, k, b), CACHE_MAX, j);
  }

  /** What the cache answers for a key is the last tile fetched for it. */
  lemma {:induction false} CachedBodyIsLastFetch(reqs: seq<Request>, k: Key)
    ensures Find(Run(reqs), k).Some? ==> Find(Run(reqs), k) == LastFetch(reqs, k)
  {
    hide Find, Put, InGrid, Without;
    if reqs == [] {
      NothingFound(k);
    } else {
      var before, last := reqs[..|reqs| - 1], reqs[|reqs| - 1];
      CachedBodyIsLastFetch(before, k);
      CacheDistinct(before);
      var c := Run(before);
      if InGrid(last.key) && Find(c, last.key).Some? {
        FindWithout(c, last.key, k);
        FindAppend(Without(c, last.key), Entry(last.key, Find(c, last.key).value), k);
      } else if InGrid(last.key) && last.upstream.Some? {
        PutFind(c, last.key, last.upstream.value, k);
      }
    }
  }

  lemma NothingFound(k: Key)
    ensures Find([], k).None?
  {
  }

  /* --- requests interleaved at their two locked sections --- */

  datatype Step = Begin(thread: nat, key: Key) | Finish(thread: nat, upstream: Option<Body>)

  /** The cache, the key each missing thread is fetching, and everything upstream ever returned. */
  datatype Shared = Shared(cache: Cache, fetching: map<nat, Key>, fetched: set<(Key, Body)>)

  const IDLE := Shared([], map[], {})

  function Next(s: Shared, step: Step): Shared {
    match step
    case Begin(thread, k) =>
      if thread in s.fetching || !InGrid(k) then s
      else if Find(s.cache, k).Some? then s.(cache := Touch(s.cache, k))
      else s.(fetching := s.fetching[thread := k])
    case Finish(thread, upstream) =>
      if thread !in s.fetching then s
      else
        var k := s.fetching[thread];
        var rest := s.(fetching := s.fetching - {thread});
        if upstream.None? then rest
        else rest.(cache := Put(s.cache, k, upstream.value), fetched := s.fetched + {(k, upstream.value)})
  }

  function Interleaving(steps: seq<Step>): Shared {
    if steps == [] then IDLE else Next(Interleaving(steps[..|steps| - 1]), steps[|steps| - 1])
  }

  ghost predicate CacheOk(c: Cache, fetched: set<(Key, Body)>) {
    && |c| <= CACHE_MAX && NoRepeats(Keys(c))
    && forall k :: Find(c, k).Some? ==> (k, Find(c, k).value) in fetched
  }

  lemma {:induction false} TouchOk(c: Cache, fetched: set<(Key, Body)>, k: Key)
    requires CacheOk(c, fetched) && Find(c, k).Some?
    ensures CacheOk(Touch(c, k), fetched)
  {
    hide Find, Without;
    WithoutKeys(c, k);
    RemoveFacts(Keys(c), k);
    FindMember(c, k);
    KeysAppend(Without(c, k), Entry(k, Find(c, k).value));
    forall j ensures Find(Touch(c, k), j) == Find(c, j) {
      FindWithout(c, k, j);
      FindAppend(Without(c, k), Entry(k, Find(c, k).value), j);
    }
  }

  lemma {:induction false} PutOk(c: Cache, fetched: set<(Key, Body)>, k: Key, b: Body)
    requires CacheOk(c, fetched)
    ensures CacheOk(Put(c, k, b), fetched + {(k, b)})
  {
    AssignKeys(c, k, b);
    KeysLastN(Assign(c, k, b));
    hide Find, Assign;
    forall j | Find(Put(c, k, b), j).Some? ensures (j, Find(Put(c, k, b), j).value) in fetched + {(k, b)} {
      PutFind(c, k, b, j);
    }
  }

  /** Under every interleaving the cache stays within its limit after each section, holds a key once, and holds
      for each key a tile that upstream returned for that key. */
  lemma {:induction false} InterleavingOk(steps: seq<Step>)
    ensures CacheOk(Interleaving(steps).cache, Interleaving(steps).fetched)
  {
    hide CacheOk, Put, Touch, InGrid;
    if steps == [] {
      assert CacheOk([], {}) by { EmptyOk(); }
    } else {
      var s, step := Interleaving(steps[..|steps| - 1]), steps[|steps| - 1];
      InterleavingOk(steps[..|steps| - 1]);
      match step
      case Begin(thread, k) =>
        if Find(s.cache, k).Some? { TouchOk(s.cache, s.fetched, k); }
      case Finish(thread, upstream) =>
        if thread in s.fetching && upstream.Some? { PutOk(s.cache, s.fetched, s.fetching[thread], upstream.value); }
    }
  }

  lemma EmptyOk()
    ensures CacheOk([], {})
  {
    assert Keys([]) == [];
  }

  /** A store leaves its key cached, and makes it the most recently used one exactly when it was absent or already
      was: after a second thread has stored the same key meanwhile, its place is not refreshed. */
  lemma {:induction false} StoreRefreshesExactly(c: Cache, k: Key, b: Body)
    requires |c| <= CACHE_MAX && NoRepeats(Keys(c))
    ensures var keys := Keys(Put(c, k, b));
            && k in keys
            && (keys[|keys| - 1] == k <==> k !in Keys(c) || Keys(c)[|c| - 1] == k)
  {
    AssignKeys(c, k, b);
    KeysLastN(Assign(c, k, b));
  }

  lemma NextStep(steps: seq<Step>, step: Step)
    ensures Interleaving(steps + [step]) == Next(Interleaving(steps), step)
  {
    assert (steps + [step])[..|steps|] == steps;
  }

  /** It happens: two requests miss one tile, the first stores it, a third request stores another tile, and when the
      second request stores its tile again, the most recent store is first in line to be dropped. */
  lemma {:induction false} StaleStore(b: Body)
    ensures var k, j := Key(1, 0, 0), Key(1, 0, 1);
            var steps := [Begin(1, k), Begin(2, k), Finish(1, Some(b)), Begin(3, j), Finish(3, Some(b)), Finish(2, Some(b))];
            Keys(Interleaving(steps).cache) == [k, j]
  {
    var k, j := Key(1, 0, 0), Key(1, 0, 1);
    var a := Begin(1, k);
    var s2 := [a, Begin(2, k)];
    var s3 := s2 + [Finish(1, Some(b))];
    var s4 := s3 + [Begin(3, j)];
    var s5 := s4 + [Finish(3, Some(b))];
    var s6 := s5 + [Finish(2, Some(b))];
    TwoMisses(k);
    assert InGrid(j) by { assert Power2(1) == 2; }
    hide Interleaving, InGrid, Find, Put;
    NextStep(s2, Finish(1, Some(b)));
    StoreFirst(k, b);
    assert Interleaving(s3).cache == [Entry(k, b)];
    NextStep(s3, Begin(3, j));
    NextStep(s4, Finish(3, Some(b)));
    StoreSecond(k, j, b);
    NextStep(s5, Finish(2, Some(b)));
    assert s6 == [a, Begin(2, k), Finish(1, Some(b)), Begin(3, j), Finish(3, Some(b)), Finish(2, Some(b))];
  }

  lemma TwoMisses(k: Key)
    requires k == Key(1, 0, 0)
    ensures Interleaving([Begin(1, k), Begin(2, k)]) == Shared([], map[1 := k, 2 := k], {})
  {
    assert Power2(1) == 2;
    assert [] + [Begin(1, k)] == [Begin(1, k)] && [Begin(1, k)] + [Begin(2, k)] == [Begin(1, k), Begin(2, k)];
    NextStep([], Begin(1, k));
    NextStep([Begin(1, k)], Begin(2, k));
  }

  lemma StoreFirst(k: Key, b: Body)
    ensures Find([], k).None? && Put([], k, b) == [Entry(k, b)]
  {
  }

  lemma StoreSecond(k: Key, j: Key, b: Body)
    requires k != j
    ensures Find([Entry(k, b)], j).None? && Put([Entry(k, b)], j, b) == [Entry(k, b), Entry(j, b)]
    ensures Put([Entry(k, b), Entry(j, b)], k, b) == [Entry(k, b), Entry(j, b)]
  {
    assert [Entry(k, b)][1..] == [];
    assert Assign([], j, b) == [Entry(j, b)];
  }

  /** The grid has one tile at zoom 0, four for every tile at the next zoom, and ends at zoom 19. */
  lemma {:induction false} GridExact(z: nat, x: nat, y: nat)
    ensures InGrid(Key(0, x, y)) <==> x == 0 && y == 0
    ensures InGrid(Key(z + 1, x, y)) <==> z < 19 && InGrid(Key(z, x / 2, y / 2))
  {
    assert Power2(0) == 1 && Power2(z + 1) == 2 * Power2(z);
  }

  /** What a request is answered: nothing off the grid, the last tile fetched for it if it is among the 512 most recently
      used keys, and otherwise whatever is fetched now. */
  lemma {:induction false} AnswerExact(reqs: seq<Request>, r: Request)
    ensures Response(Run(reqs), r) ==
            if !InGrid(r.key) then None
            else if r.key in LastN(Recency(Used(reqs)), 512) then LastFetch(reqs, r.key)
            else r.upstream
  {
    hide InGrid, LastFetch, Recency, Used, Run, Find;
    CacheIsMostRecent(reqs);
    CachedBodyIsLastFetch(reqs, r.key);
    FindMember(Run(reqs), r.key);
  }

  /** The `n` last of a list. */
  lemma LastNExact<T>(s: seq<T>, n: nat)
    ensures |LastN(s, n)| == (if |s| < n then |s| else n)
    ensures s == s[..|s| - |LastN(s, n)|] + LastN(s, n)
  {
  }
}

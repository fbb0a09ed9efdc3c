/** The in-memory view-count repository (inmemoryRepo) as a state value and
    functions on it. The map and both heaps refer to the same records: the
    heaps hold ids and read each record's fields through the map, so an
    increment of a record is seen by all three, and only heap order needs
    repair afterwards.

    The repository's methods all return a nil error, so the functions here
    return only their values. Go's `time.Now()` is a logical clock that the
    state carries and that every increment advances. */
module RepoSpec {
  import opened Videos
  import opened HeapSpec

  /** inmemoryRepo's fields (the mutex aside) and the logical clock. */
  datatype RepoState = RepoState(
    data: map<string, VideoData>,
    viewHeap: seq<string>,
    timeHeap: seq<string>,
    clock: nat)

  /** What holds of every reachable state: each key's record carries that key,
      a positive count and a distinct timestamp no later than the clock; each
      heap holds exactly the map's keys, each once, in max-heap order. */
  ghost predicate Inv(s: RepoState)
  {
    && (forall id :: id in s.data ==> RecordOk(s, id))
    && (forall a, b :: a in s.data && b in s.data && a != b ==> s.data[a].lastUpdated != s.data[b].lastUpdated)
    && multiset(s.viewHeap) == multiset(s.data.Keys)
    && multiset(s.timeHeap) == multiset(s.data.Keys)
    && IsHeap(s.data, ByViews, s.viewHeap)
    && IsHeap(s.data, ByTime, s.timeHeap)
  }

  ghost predicate RecordOk(s: RepoState, id: string)
    requires id in s.data
  {
    s.data[id].id == id && s.data[id].views >= 1 && 1 <= s.data[id].lastUpdated <= s.clock
  }

  /** NewInmemoryRepo: an empty map, two empty heaps. */
  function NewInmemoryRepo(): (s: RepoState)
    ensures Inv(s)
    ensures s.data == map[] && s.viewHeap == [] && s.timeHeap == []
  {
    RepoState(map[], [], [], 0)
  }

  /** GetView: the stored count, or 0 for an absent id (the record the source
      builds for that case is never stored). */
  function GetView(s: RepoState, id: string): nat
  {
    if id in s.data then s.data[id].views else 0
  }

  /** GetAllViews as the map the callers compare it with: one entry per key,
      carrying that key's count. The order of the source's list (Go map
      iteration order) is left to InmemoryRepo.GetAllViews. */
  function GetAllViews(s: RepoState): (m: map<string, nat>)
    ensures m.Keys == s.data.Keys
    ensures forall id :: id in m ==> m[id] == GetView(s, id)
  {
    map id | id in s.data :: s.data[id].views
  }

  /** The record Increment stores under id: the existing one or a new one
      with count 0, with its count bumped and stamped with the next tick. */
  function Bumped(s: RepoState, id: string): VideoData
  {
    var video := if id in s.data then s.data[id] else VideoData(id, 0, 0);
    video.(views := video.views + 1, lastUpdated := s.clock + 1)
  }

  /** Increment: create the record with count 0 or take the existing one, bump
      its count, stamp it with the next tick, store it; then push a new id into
      both heaps, or run the scan-and-Fix loop over each heap for an existing
      one.

      The source's second loop (inmemory.go:119) calls heap.Fix on viewHeap
      with an index into timeHeap, so timeHeap is never repaired. This
      function repairs timeHeap, as the interface comment and the
      recent-videos test expect; IncrementAsWritten keeps the source's loop. */
  function Increment(s: RepoState, id: string): RepoState
  {
    var present := id in s.data;
    var clock := s.clock + 1;
    var data := s.data[id := Bumped(s, id)];
    if !present then
      RepoState(data, Push(data, ByViews, s.viewHeap, id), Push(data, ByTime, s.timeHeap, id), clock)
    else
      RepoState(data, FixEach(data, ByViews, s.viewHeap, id, 0), FixEach(data, ByTime, s.timeHeap, id, 0), clock)
  }

  /** Increments ids in order. */
  function IncrementAll(s: RepoState, ids: seq<string>): RepoState
    decreases |ids|
  {
    if ids == [] then s else IncrementAll(Increment(s, ids[0]), ids[1..])
  }

  /** The entry a query reports for an id: the id and its count. */
  function Info(data: map<string, VideoData>, id: string): (v: VideoInfo)
  {
    VideoInfo(id, if id in data then data[id].views else 0)
  }

  function Infos(data: map<string, VideoData>, ids: seq<string>): (r: seq<VideoInfo>)
    ensures |r| == |ids| && forall i :: 0 <= i < |ids| ==> r[i] == Info(data, ids[i])
  {
    seq(|ids|, i requires 0 <= i < |ids| => Info(data, ids[i]))
  }

  /** Infos grows by one entry when the ids grow by one. */
  lemma InfosSnoc(data: map<string, VideoData>, ids: seq<string>, x: string)
    ensures Infos(data, ids + [x]) == Infos(data, ids) + [Info(data, x)]
  {
    assert (ids + [x])[|ids|] == x;
    forall k | 0 <= k < |ids| ensures (ids + [x])[k] == ids[k] {}
  }

  /** GetTopVideos(n): clamp n to the heap's length, then pop that many from a
      copy of viewHeap. A negative n makes the source's `make` panic, so it
      is excluded. */
  function GetTopVideos(s: RepoState, n: int): seq<VideoInfo>
    requires n >= 0
  {
    var m := if n > |s.viewHeap| then |s.viewHeap| else n;
    Infos(s.data, PopN(s.data, ByViews, s.viewHeap, m).0)
  }

  /** GetRecentVideos(n): the same over a copy of timeHeap. */
  function GetRecentVideos(s: RepoState, n: int): seq<VideoInfo>
    requires n >= 0
  {
    var m := if n > |s.timeHeap| then |s.timeHeap| else n;
    Infos(s.data, PopN(s.data, ByTime, s.timeHeap, m).0)
  }

  // ---------------------------------------------------------------------
  // What the repository guarantees

  /** A heap holding exactly a set's elements, each once, has the set's size,
      no repetition, and the set's members. */
  lemma PermOfKeys(h: seq<string>, keys: set<string>)
    requires multiset(h) == multiset(keys)
    ensures |h| == |keys| && Distinct(h)
    ensures forall x :: x in h <==> x in keys
  {
    forall p, q | 0 <= p < q < |h| ensures h[p] != h[q] {
      if h[p] == h[q] {
        TwoOccurrences(h, p, q);
      }
    }
    forall x ensures x in h <==> x in keys {
      assert x in h <==> x in multiset(h);
    }
    assert |multiset(h)| == |h|;
    SetMultisetSize(keys);
  }

  lemma {:induction false} SetMultisetSize(keys: set<string>)
    ensures |multiset(keys)| == |keys|
    decreases |keys|
  {
    if keys != {} {
      var x :| x in keys;
      var rest := keys - {x};
      SetMultisetSize(rest);
      assert keys == rest + {x};
      assert multiset(keys) == multiset(rest) + multiset{x};
    }
  }

  /** A heap stays a heap under records that give its ids the same keys. */
  lemma SameKeysHeap(data0: map<string, VideoData>, data: map<string, VideoData>, ord: Order, h: seq<string>)
    requires IsHeap(data0, ord, h)
    requires forall k :: 0 <= k < |h| ==> KeyOf(data, ord, h[k]) == KeyOf(data0, ord, h[k])
    ensures IsHeap(data, ord, h)
  {
    forall k | 0 < k < |h| ensures ParentOk(data, ord, h, k) {
      assert ParentOk(data0, ord, h, k);
    }
  }

  /** Increment keeps the invariant: both heaps hold exactly the map's
      records, each once, in order, and timestamps stay distinct. */
  lemma IncrementPreservesInv(s: RepoState, id: string)
    requires Inv(s)
    ensures Inv(Increment(s, id))
  {
    IncrementRecords(s, id);
    PermOfKeys(s.viewHeap, s.data.Keys);
    PermOfKeys(s.timeHeap, s.data.Keys);
    if id !in s.data {
      IncrementNewHeaps(s, id);
    } else {
      IncrementExistingHeaps(s, id);
    }
  }

  /** The records part of Inv: the new stamp is later than every old one. */
  lemma IncrementRecords(s: RepoState, id: string)
    requires Inv(s)
    ensures var s' := Increment(s, id);
      && (forall x :: x in s'.data ==> RecordOk(s', x))
      && (forall a, b :: a in s'.data && b in s'.data && a != b ==> s'.data[a].lastUpdated != s'.data[b].lastUpdated)
  {
    var s' := Increment(s, id);
    forall x | x in s'.data ensures RecordOk(s', x) {
      if x != id {
        assert RecordOk(s, x);
      }
    }
    forall a, b | a in s'.data && b in s'.data && a != b
      ensures s'.data[a].lastUpdated != s'.data[b].lastUpdated
    {
      if a == id {
        assert RecordOk(s, b);
      } else if b == id {
        assert RecordOk(s, a);
      } else {
        DistinctStamps(s, a, b);
      }
    }
  }

  /** A new id is pushed onto heaps that do not hold it. */
  lemma IncrementNewHeaps(s: RepoState, id: string)
    requires Inv(s) && id !in s.data
    requires forall x :: x in s.viewHeap <==> x in s.data.Keys
    requires forall x :: x in s.timeHeap <==> x in s.data.Keys
    ensures var s' := Increment(s, id);
      && multiset(s'.viewHeap) == multiset(s'.data.Keys)
      && multiset(s'.timeHeap) == multiset(s'.data.Keys)
      && IsHeap(s'.data, ByViews, s'.viewHeap)
      && IsHeap(s'.data, ByTime, s'.timeHeap)
  {
    var s' := Increment(s, id);
    assert s'.data.Keys == s.data.Keys + {id};
    assert multiset(s'.data.Keys) == multiset(s.data.Keys) + multiset{id};
    SameKeysHeap(s.data, s'.data, ByViews, s.viewHeap);
    SameKeysHeap(s.data, s'.data, ByTime, s.timeHeap);
    PushKeepsHeap(s'.data, ByViews, s.viewHeap, id);
    PushKeepsHeap(s'.data, ByTime, s.timeHeap, id);
    PushPermutes(s'.data, ByViews, s.viewHeap, id);
    PushPermutes(s'.data, ByTime, s.timeHeap, id);
  }

  /** An existing id has its slot fixed in heaps that hold it once. */
  lemma IncrementExistingHeaps(s: RepoState, id: string)
    requires Inv(s) && id in s.data
    requires Distinct(s.viewHeap) && Distinct(s.timeHeap)
    requires forall x :: x in s.viewHeap <==> x in s.data.Keys
    requires forall x :: x in s.timeHeap <==> x in s.data.Keys
    ensures var s' := Increment(s, id);
      && multiset(s'.viewHeap) == multiset(s'.data.Keys)
      && multiset(s'.timeHeap) == multiset(s'.data.Keys)
      && IsHeap(s'.data, ByViews, s'.viewHeap)
      && IsHeap(s'.data, ByTime, s'.timeHeap)
  {
    var s' := Increment(s, id);
    assert s'.data.Keys == s.data.Keys;
    FixEachRestoresHeap(s.data, s'.data, ByViews, s.viewHeap, id, 0);
    FixEachRestoresHeap(s.data, s'.data, ByTime, s.timeHeap, id, 0);
    FixEachPermutes(s'.data, ByViews, s.viewHeap, id, 0);
    FixEachPermutes(s'.data, ByTime, s.timeHeap, id, 0);
  }

  lemma {:induction false} IncrementAllPreservesInv(s: RepoState, ids: seq<string>)
    requires Inv(s)
    ensures Inv(IncrementAll(s, ids))
    decreases |ids|
  {
    if ids != [] {
      IncrementPreservesInv(s, ids[0]);
      IncrementAllPreservesInv(Increment(s, ids[0]), ids[1..]);
    }
  }

  /** Every state reached from a new repository by increments satisfies Inv. */
  lemma ReachableInv(ids: seq<string>)
    ensures Inv(IncrementAll(NewInmemoryRepo(), ids))
  {
    IncrementAllPreservesInv(NewInmemoryRepo(), ids);
  }

  /** One Increment adds one to id's count and changes no other count. */
  lemma IncrementCounts(s: RepoState, id: string, x: string)
    ensures GetView(Increment(s, id), x) == GetView(s, x) + (if x == id then 1 else 0)
  {
  }

  /** After increments, each id's count has grown by the number of times it
      was incremented; from a new repository, the count is that number. */
  lemma {:induction false} IncrementAllCounts(s: RepoState, ids: seq<string>, x: string)
    ensures GetView(IncrementAll(s, ids), x) == GetView(s, x) + multiset(ids)[x]
    decreases |ids|
  {
    if ids != [] {
      IncrementCounts(s, ids[0], x);
      IncrementAllCounts(Increment(s, ids[0]), ids[1..], x);
      assert ids == [ids[0]] + ids[1..];
    }
  }

  lemma CountsFromNew(ids: seq<string>, x: string)
    ensures GetView(IncrementAll(NewInmemoryRepo(), ids), x) == multiset(ids)[x]
  {
    IncrementAllCounts(NewInmemoryRepo(), ids, x);
  }

  lemma IncrementKeys(s: RepoState, id: string)
    ensures Increment(s, id).data.Keys == s.data.Keys + {id}
  {
    assert Increment(s, id).data == s.data[id := Bumped(s, id)];
  }

  /** The stored ids are the ones there before and the ones incremented. */
  lemma {:induction false} IncrementAllKeys(s: RepoState, ids: seq<string>)
    ensures IncrementAll(s, ids).data.Keys == s.data.Keys + set x | x in ids
    decreases |ids|
  {
    if ids != [] {
      var s1 := Increment(s, ids[0]);
      IncrementKeys(s, ids[0]);
      IncrementAllKeys(s1, ids[1..]);
      assert IncrementAll(s, ids) == IncrementAll(s1, ids[1..]);
      SetOfCons(ids);
    }
  }

  /** From a new repository, the snapshot maps each incremented id to the
      number of times it was incremented, and holds no other id. */
  lemma AllViewsFromNew(ids: seq<string>)
    ensures GetAllViews(IncrementAll(NewInmemoryRepo(), ids)) == map x | x in ids :: multiset(ids)[x]
  {
    var s := IncrementAll(NewInmemoryRepo(), ids);
    IncrementAllKeys(NewInmemoryRepo(), ids);
    forall x | x in ids
      ensures GetAllViews(s)[x] == multiset(ids)[x]
    {
      CountsFromNew(ids, x);
    }
  }

  lemma SetOfCons(ids: seq<string>)
    requires ids != []
    ensures (set x | x in ids) == {ids[0]} + set x | x in ids[1..]
  {
    assert forall x :: x in ids <==> x == ids[0] || x in ids[1..];
  }

  /** Increment adds id to the GetAllViews snapshot if absent, bumps its
      entry otherwise, and leaves every other entry alone. */
  lemma AllViewsAfterIncrement(s: RepoState, id: string)
    ensures GetAllViews(Increment(s, id)) == GetAllViews(s)[id := GetView(s, id) + 1]
  {
    var s' := Increment(s, id);
    var m := GetAllViews(s)[id := GetView(s, id) + 1];
    assert s'.data == s.data[id := Bumped(s, id)];
    assert GetAllViews(s').Keys == m.Keys;
    forall k | k in m
      ensures GetAllViews(s')[k] == m[k]
    {
    }
  }

  /** The ids a query reported. */
  function Ids(r: seq<VideoInfo>): set<string>
  {
    set i | 0 <= i < |r| :: r[i].id
  }

  /** GetTopVideos(n) reports min(n, number of ids) distinct stored ids with
      their counts, in non-increasing count order, and no id left out has a
      larger count than any reported one. */
  lemma TopVideosAreTop(s: RepoState, n: int)
    requires Inv(s) && n >= 0
    ensures var r := GetTopVideos(s, n);
      && |r| == (if n < |s.data| then n else |s.data|)
      && (forall i :: 0 <= i < |r| ==> r[i].id in s.data && r[i].views == s.data[r[i].id].views)
      && (forall i, j :: 0 <= i < j < |r| ==> r[i].id != r[j].id && r[i].views >= r[j].views)
      && (forall id, i :: id in s.data && id !in Ids(r) && 0 <= i < |r| ==> s.data[id].views <= r[i].views)
  {
    PermOfKeys(s.viewHeap, s.data.Keys);
    var m := if n > |s.viewHeap| then |s.viewHeap| else n;
    var out := Popped(s.data, ByViews, s.viewHeap, m);
    var r := GetTopVideos(s, n);
    assert r == Infos(s.data, out);
    InfosIds(s.data, out);
    forall i, j | 0 <= i < j < |r| ensures r[i].views >= r[j].views {
      assert KeyOf(s.data, ByViews, out[i]) >= KeyOf(s.data, ByViews, out[j]);
    }
    forall id, i | id in s.data && id !in Ids(r) && 0 <= i < |r| ensures s.data[id].views <= r[i].views {
      assert KeyOf(s.data, ByViews, id) <= KeyOf(s.data, ByViews, out[i]);
    }
  }

  /** GetRecentVideos(n) reports min(n, number of ids) distinct stored ids with
      their counts, latest update first, each strictly later than the next,
      and every id left out was updated before every reported one. */
  lemma RecentVideosAreRecent(s: RepoState, n: int)
    requires Inv(s) && n >= 0
    ensures var r := GetRecentVideos(s, n);
      && |r| == (if n < |s.data| then n else |s.data|)
      && (forall i :: 0 <= i < |r| ==> r[i].id in s.data && r[i].views == s.data[r[i].id].views)
      && (forall i, j :: 0 <= i < j < |r| ==> s.data[r[i].id].lastUpdated > s.data[r[j].id].lastUpdated)
      && (forall id, i :: id in s.data && id !in Ids(r) && 0 <= i < |r| ==> s.data[id].lastUpdated < s.data[r[i].id].lastUpdated)
  {
    RecentShape(s, n);
    RecentOrder(s, n);
  }

  lemma RecentShape(s: RepoState, n: int)
    requires Inv(s) && n >= 0
    ensures var r := GetRecentVideos(s, n);
      && |r| == (if n < |s.data| then n else |s.data|)
      && (forall i :: 0 <= i < |r| ==> r[i].id in s.data && r[i].views == s.data[r[i].id].views)
  {
    PermOfKeys(s.timeHeap, s.data.Keys);
    var m := if n > |s.timeHeap| then |s.timeHeap| else n;
    var out := Popped(s.data, ByTime, s.timeHeap, m);
    assert GetRecentVideos(s, n) == Infos(s.data, out);
  }

  lemma RecentOrder(s: RepoState, n: int)
    requires Inv(s) && n >= 0
    ensures var r := GetRecentVideos(s, n);
      && (forall i :: 0 <= i < |r| ==> r[i].id in s.data)
      && (forall i, j :: 0 <= i < j < |r| ==> s.data[r[i].id].lastUpdated > s.data[r[j].id].lastUpdated)
      && (forall id, i :: id in s.data && id !in Ids(r) && 0 <= i < |r| ==> s.data[id].lastUpdated < s.data[r[i].id].lastUpdated)
  {
    RecentShape(s, n);
    PermOfKeys(s.timeHeap, s.data.Keys);
    var m := if n > |s.timeHeap| then |s.timeHeap| else n;
    var out := Popped(s.data, ByTime, s.timeHeap, m);
    assert GetRecentVideos(s, n) == Infos(s.data, out);
    InfosIds(s.data, out);
    RecentOrderOf(s, out);
  }

  /** The ids popped from a heap holding exactly the map's keys: distinct
      stored ids, in non-increasing key order, none with a smaller key than an
      id not popped. */
  lemma Popped(data: map<string, VideoData>, ord: Order, h: seq<string>, m: nat) returns (out: seq<string>)
    requires multiset(h) == multiset(data.Keys) && IsHeap(data, ord, h) && m <= |h|
    ensures out == PopN(data, ord, h, m).0 && |out| == m
    ensures Distinct(out) && forall i :: 0 <= i < |out| ==> out[i] in data
    ensures SortedDesc(data, ord, out)
    ensures forall id, i :: id in data && id !in out && 0 <= i < |out| ==> KeyOf(data, ord, id) <= KeyOf(data, ord, out[i])
  {
    PopNIsTopN(data, ord, h, m);
    PopNPermutes(data, ord, h, m);
    out := PopN(data, ord, h, m).0;
    TopKFacts(data, ord, out, PopN(data, ord, h, m).1);
  }

  /** The popped ids, turned into answers: each strictly later than the next,
      and later than every id not popped. */
  lemma RecentOrderOf(s: RepoState, out: seq<string>)
    requires Inv(s) && Distinct(out) && (forall i :: 0 <= i < |out| ==> out[i] in s.data)
    requires SortedDesc(s.data, ByTime, out)
    requires forall id, i :: id in s.data && id !in out && 0 <= i < |out| ==> KeyOf(s.data, ByTime, id) <= KeyOf(s.data, ByTime, out[i])
    requires forall x :: x in Ids(Infos(s.data, out)) <==> x in out
    ensures var r := Infos(s.data, out);
      && (forall i, j :: 0 <= i < j < |r| ==> s.data[r[i].id].lastUpdated > s.data[r[j].id].lastUpdated)
      && (forall id, i :: id in s.data && id !in Ids(r) && 0 <= i < |r| ==> s.data[id].lastUpdated < s.data[r[i].id].lastUpdated)
  {
    var r := Infos(s.data, out);
    forall i, j | 0 <= i < j < |r| ensures s.data[r[i].id].lastUpdated > s.data[r[j].id].lastUpdated {
      assert r[i].id == out[i] && r[j].id == out[j] && out[i] != out[j];
      assert KeyOf(s.data, ByTime, out[i]) >= KeyOf(s.data, ByTime, out[j]);
      DistinctStamps(s, out[i], out[j]);
    }
    forall id, i | id in s.data && id !in Ids(r) && 0 <= i < |r|
      ensures s.data[id].lastUpdated < s.data[r[i].id].lastUpdated
    {
      assert r[i].id == out[i] && id != out[i];
      assert KeyOf(s.data, ByTime, id) <= KeyOf(s.data, ByTime, out[i]);
      DistinctStamps(s, id, out[i]);
    }
  }

  lemma DistinctStamps(s: RepoState, a: string, b: string)
    requires Inv(s) && a in s.data && b in s.data && a != b
    ensures s.data[a].lastUpdated != s.data[b].lastUpdated
  {
  }

  /** Infos keeps the ids, in order. */
  lemma InfosIds(data: map<string, VideoData>, ids: seq<string>)
    ensures forall x :: x in Ids(Infos(data, ids)) <==> x in ids
  {
    var r := Infos(data, ids);
    forall x ensures x in Ids(r) <==> x in ids {
      if x in ids {
        var k :| 0 <= k < |ids| && ids[k] == x;
        assert r[k].id == x;
      }
    }
  }

  /** What both queries share: the ids popped from a heap that holds exactly
      the map's keys are distinct stored ids, and every id not popped has a
      key no larger than every popped one. */
  lemma TopKFacts(data: map<string, VideoData>, ord: Order, out: seq<string>, rest: seq<string>)
    requires multiset(out) + multiset(rest) == multiset(data.Keys)
    requires Dominates(data, ord, out, rest)
    ensures Distinct(out) && forall i :: 0 <= i < |out| ==> out[i] in data
    ensures forall id, i :: id in data && id !in out && 0 <= i < |out| ==> KeyOf(data, ord, id) <= KeyOf(data, ord, out[i])
  {
    assert multiset(out + rest) == multiset(out) + multiset(rest);
    PermOfKeys(out + rest, data.Keys);
    forall i | 0 <= i < |out| ensures out[i] in data {
      assert (out + rest)[i] == out[i];
    }
    forall i, j | 0 <= i < j < |out| ensures out[i] != out[j] {
      assert (out + rest)[i] == out[i] && (out + rest)[j] == out[j];
    }
    forall id, i | id in data && id !in out && 0 <= i < |out|
      ensures KeyOf(data, ord, id) <= KeyOf(data, ord, out[i])
    {
      assert id in out + rest;
      var k :| 0 <= k < |out + rest| && (out + rest)[k] == id;
      assert rest[k - |out|] == id;
    }
  }

  /** The id just incremented is the root of timeHeap, so it is the single
      answer of GetRecentVideos(1). */
  lemma IncrementedIsMostRecent(s: RepoState, id: string)
    requires Inv(s)
    ensures var s' := Increment(s, id);
      && |s'.timeHeap| > 0 && s'.timeHeap[0] == id
      && GetRecentVideos(s', 1) == [VideoInfo(id, s'.data[id].views)]
  {
    var s' := Increment(s, id);
    IncrementPreservesInv(s, id);
    PermOfKeys(s'.timeHeap, s'.data.Keys);
    var root := s'.timeHeap[0];
    RootIsMaxOf(s'.data, ByTime, s'.timeHeap, id);
    assert root == id;
    assert PopN(s'.data, ByTime, s'.timeHeap, 1).0 == [Pop(s'.data, ByTime, s'.timeHeap).0];
    PopKeepsHeap(s'.data, ByTime, s'.timeHeap);
  }

  // ---------------------------------------------------------------------
  // Increment as the source writes it

  /** The source's second loop: ranges over timeHeap, and wherever it finds id
      at index i calls heap.Fix on viewHeap at that i. */
  function FixViewHeapAtTimeIndices(data: map<string, VideoData>, viewHeap: seq<string>, timeHeap: seq<string>, id: string, i: nat): (r: seq<string>)
    requires |timeHeap| == |viewHeap| && i <= |viewHeap|
    ensures |r| == |viewHeap|
    decreases |viewHeap| - i
  {
    if i == |viewHeap| then viewHeap
    else if timeHeap[i] == id then FixViewHeapAtTimeIndices(data, Fix(data, ByViews, viewHeap, i), timeHeap, id, i + 1)
    else FixViewHeapAtTimeIndices(data, viewHeap, timeHeap, id, i + 1)
  }

  /** Increment exactly as inmemory.go:92-124 is written: for an existing id,
      timeHeap is left as it was. */
  function IncrementAsWritten(s: RepoState, id: string): (r: RepoState)
    requires |s.viewHeap| == |s.timeHeap|
    ensures |r.viewHeap| == |r.timeHeap|
  {
    var present := id in s.data;
    var clock := s.clock + 1;
    var data := s.data[id := Bumped(s, id)];
    if !present then
      RepoState(data, Push(data, ByViews, s.viewHeap, id), Push(data, ByTime, s.timeHeap, id), clock)
    else
      var vh := FixEach(data, ByViews, s.viewHeap, id, 0);
      RepoState(data, FixViewHeapAtTimeIndices(data, vh, s.timeHeap, id, 0), s.timeHeap, clock)
  }

  /** Increments ids in order, each as the source writes it. */
  function IncrementAllAsWritten(s: RepoState, ids: seq<string>): (r: RepoState)
    requires |s.viewHeap| == |s.timeHeap|
    ensures |r.viewHeap| == |r.timeHeap|
    decreases |ids|
  {
    if ids == [] then s else IncrementAllAsWritten(IncrementAsWritten(s, ids[0]), ids[1..])
  }
}

/** The in-memory store of repository/viewrepository/inmemory.go as objects:
    each heap slice is an array whose first `len` slots the container/heap
    loops rearrange in place, and the store is a class whose methods update
    its map, its two heaps and its clock. Every method is proved to compute
    what the functions of HeapSpec and RepoSpec say. */
module Inmemory {
  import opened Videos
  import HeapSpec
  import RepoSpec

  /** Go's parent index (j - 1) / 2: the division truncates toward zero, so
      the root (j == 0) is its own parent, which ends Up's loop. */
  function Parent(j: nat): (i: nat)
    ensures j == 0 ==> i == 0
    ensures j > 0 ==> j == 2 * i + 1 || j == 2 * i + 2
  {
    if j == 0 then 0 else (j - 1) / 2
  }

  /** A heap slice (VideoViewHeap when ord is ByViews, VideoTimeHeap when it
      is ByTime) with the five methods container/heap needs and the
      container/heap operations on it. The ids stand for the record pointers;
      Less looks their records up in the store's map. */
  class VideoHeap {
    var a: array<string>
    var len: nat
    const ord: Order

    ghost predicate Valid()
      reads this
    {
      len <= a.Length
    }

    /** The slice's elements. */
    ghost function Contents(): seq<string>
      reads this, a
      requires Valid()
    {
      a[..len]
    }

    /** make(VideoViewHeap, 0) or make(VideoTimeHeap, 0). */
    constructor (ord: Order)
      ensures Valid() && fresh(a) && Contents() == [] && this.ord == ord
    {
      this.ord := ord;
      a := new string[0];
      len := 0;
    }

    /** The query's temporary heap: a new slice with the capacity of src,
        then append(tempHeap, src...). */
    constructor Copy(src: VideoHeap)
      requires src.Valid()
      ensures Valid() && fresh(a) && Contents() == src.Contents() && ord == src.ord
    {
      var b := new string[src.len];
      var k := 0;
      while k < src.len
        invariant 0 <= k <= src.len
        invariant b[..k] == src.a[..k]
      {
        b[k] := src.a[k];
        k := k + 1;
      }
      a := b;
      len := src.len;
      ord := src.ord;
    }

    /** Less(i, j): the record at slot i has the strictly greater key. */
    predicate Less(data: map<string, VideoData>, i: nat, j: nat)
      reads this, a
      requires Valid() && i < len && j < len
      ensures Less(data, i, j) == HeapSpec.Less(data, ord, Contents(), i, j)
    {
      KeyOf(data, ord, a[i]) > KeyOf(data, ord, a[j])
    }

    /** Swap(i, j). */
    method Swap(i: nat, j: nat)
      requires Valid() && i < len && j < len
      modifies a
      ensures Contents() == HeapSpec.Swap(old(Contents()), i, j)
    {
      a[i], a[j] := a[j], a[i];
    }

    /** The heap type's Push: append, growing the backing array when it is
        full. */
    method Append(x: string)
      requires Valid()
      modifies this, a
      ensures Valid() && (a == old(a) || fresh(a))
      ensures Contents() == old(Contents()) + [x]
    {
      if len == a.Length {
        var b := new string[2 * a.Length + 1];
        var k := 0;
        while k < len
          invariant 0 <= k <= len
          invariant b[..k] == a[..k]
          modifies b
        {
          b[k] := a[k];
          k := k + 1;
        }
        a := b;
      }
      a[len] := x;
      len := len + 1;
    }

    /** The heap type's Pop: removes and returns the last element. */
    method RemoveLast() returns (x: string)
      requires Valid() && len > 0
      modifies this`len
      ensures Valid()
      ensures x == old(Contents())[old(len) - 1] && Contents() == old(Contents())[..old(len) - 1]
    {
      len := len - 1;
      x := a[len];
    }

    /** container/heap's up(h, j). */
    method Up(data: map<string, VideoData>, j0: nat)
      requires Valid() && j0 < len
      modifies a
      ensures Contents() == HeapSpec.Up(data, ord, old(Contents()), j0)
    {
      var j: nat := j0;
      while true
        invariant j < len
        invariant HeapSpec.Up(data, ord, Contents(), j) == HeapSpec.Up(data, ord, old(Contents()), j0)
        decreases j
      {
        var i := Parent(j);
        if i == j || !Less(data, j, i) {
          break;
        }
        Swap(i, j);
        j := i;
      }
    }

    /** container/heap's down(h, i0, n); the result says whether the element
        moved. */
    method Down(data: map<string, VideoData>, i0: nat, n: nat) returns (moved: bool)
      requires Valid() && i0 < len && n <= len
      modifies a
      ensures Contents() == HeapSpec.Down(data, ord, old(Contents()), i0, n).0
      ensures moved == (HeapSpec.Down(data, ord, old(Contents()), i0, n).1 > i0)
    {
      var i: nat := i0;
      while true
        invariant i0 <= i < len
        invariant HeapSpec.Down(data, ord, Contents(), i, n) == HeapSpec.Down(data, ord, old(Contents()), i0, n)
        decreases len - i
      {
        ghost var h := Contents();
        var j1 := 2 * i + 1;
        if j1 >= n {
          break;
        }
        var j := j1;
        var j2 := j1 + 1;
        if j2 < n && Less(data, j2, j1) {
          j := j2;
        }
        HeapSpec.DownStep(data, ord, h, i, n, j);
        if !Less(data, j, i) {
          break;
        }
        Swap(i, j);
        assert Contents() == HeapSpec.Swap(h, i, j);
        i := j;
      }
      moved := i > i0;
    }

    /** container/heap's Fix(h, i). */
    method Fix(data: map<string, VideoData>, i: nat)
      requires Valid() && i < len
      modifies a
      ensures Contents() == HeapSpec.Fix(data, ord, old(Contents()), i)
    {
      var moved := Down(data, i, len);
      if !moved {
        Up(data, i);
      }
    }

    /** container/heap's Push(h, x). */
    method Push(data: map<string, VideoData>, x: string)
      requires Valid()
      modifies this, a
      ensures Valid() && (a == old(a) || fresh(a))
      ensures Contents() == HeapSpec.Push(data, ord, old(Contents()), x)
    {
      Append(x);
      Up(data, len - 1);
    }

    /** container/heap's Pop(h). */
    method Pop(data: map<string, VideoData>) returns (x: string)
      requires Valid() && len > 0
      modifies this`len, a
      ensures Valid()
      ensures (x, Contents()) == HeapSpec.Pop(data, ord, old(Contents()))
    {
      var n := len - 1;
      Swap(0, n);
      var moved := Down(data, 0, n);
      x := RemoveLast();
    }
  }

  /** inmemoryRepo: the map from ids to records, the two heaps over the same
      records, and the clock that stands for time.Now(). */
  class InmemoryRepo {
    var data: map<string, VideoData>
    var viewHeap: VideoHeap
    var timeHeap: VideoHeap
    var clock: nat
    ghost var Repr: set<object>

    ghost predicate Valid()
      reads this, Repr
    {
      && this in Repr && viewHeap in Repr && timeHeap in Repr
      && viewHeap.a in Repr && timeHeap.a in Repr
      && viewHeap != timeHeap && viewHeap.a != timeHeap.a
      && viewHeap.ord == ByViews && timeHeap.ord == ByTime
      && viewHeap.Valid() && timeHeap.Valid()
      && RepoSpec.Inv(State())
    }

    /** The store as a value. */
    ghost function State(): RepoSpec.RepoState
      reads this, viewHeap, timeHeap, viewHeap.a, timeHeap.a
      requires viewHeap.Valid() && timeHeap.Valid()
    {
      RepoSpec.RepoState(data, viewHeap.Contents(), timeHeap.Contents(), clock)
    }

    /** NewInmemoryRepo. */
    constructor ()
      ensures Valid() && fresh(Repr)
      ensures State() == RepoSpec.NewInmemoryRepo()
    {
      data := map[];
      viewHeap := new VideoHeap(ByViews);
      timeHeap := new VideoHeap(ByTime);
      clock := 0;
      new;
      Repr := {this, viewHeap, timeHeap, viewHeap.a, timeHeap.a};
    }

    /** GetView: the stored count, or the count 0 of a record built for an
        absent id and never stored. */
    method GetView(id: string) returns (views: nat)
      requires Valid()
      ensures views == RepoSpec.GetView(State(), id)
    {
      var video: VideoData;
      if id in data {
        video := data[id];
      } else {
        video := VideoData(id, 0, 0);
      }
      views := video.views;
    }

    /** GetAllViews: one entry per stored id, with its count, in the order Go's
        map iteration happens to take (any order: each step picks some id not
        yet listed). */
    method GetAllViews() returns (info: seq<VideoInfo>)
      ensures |info| == |data|
      ensures forall i :: 0 <= i < |info| ==> info[i].id in data && info[i].views == data[info[i].id].views
      ensures forall i, j :: 0 <= i < j < |info| ==> info[i].id != info[j].id
      ensures forall id :: id in data ==> exists i :: 0 <= i < |info| && info[i].id == id
    {
      var out := new VideoInfo[|data|];
      var keys := data.Keys;
      var c := 0;
      ghost var acc: seq<VideoInfo> := [];
      while keys != {}
        invariant keys <= data.Keys && c + |keys| == |data| && c == |acc|
        invariant out[..c] == acc
        invariant forall i :: 0 <= i < |acc| ==> acc[i].id in data && acc[i].id !in keys && acc[i].views == data[acc[i].id].views
        invariant forall i, j :: 0 <= i < j < |acc| ==> acc[i].id != acc[j].id
        invariant forall id :: id in data && id !in keys ==> exists i :: 0 <= i < |acc| && acc[i].id == id
        decreases |keys|
      {
        var k :| k in keys;
        ghost var prev := acc;
        out[c] := VideoInfo(k, data[k].views);
        acc := acc + [VideoInfo(k, data[k].views)];
        keys := keys - {k};
        assert out[..c + 1] == out[..c] + [out[c]];
        c := c + 1;
        assert acc[|prev|].id == k;
        assert forall i :: 0 <= i < |prev| ==> acc[i] == prev[i];
      }
      info := out[..];
      assert info == out[..c];
    }

    /** GetTopVideos: clamp n to the heap size, pop n records off a copy of
        viewHeap, report each popped id with its count. */
    method GetTopVideos(n: int) returns (top: seq<VideoInfo>)
      requires Valid() && n >= 0
      ensures top == RepoSpec.GetTopVideos(State(), n)
    {
      top := PopInfos(viewHeap, n);
    }

    /** GetRecentVideos: the same over a copy of timeHeap. */
    method GetRecentVideos(n: int) returns (recent: seq<VideoInfo>)
      requires Valid() && n >= 0
      ensures recent == RepoSpec.GetRecentVideos(State(), n)
    {
      recent := PopInfos(timeHeap, n);
    }

    /** The common body of the two queries. */
    method PopInfos(h: VideoHeap, n: int) returns (r: seq<VideoInfo>)
      requires h.Valid() && n >= 0
      ensures var m := if n > h.len then h.len else n;
        r == RepoSpec.Infos(data, HeapSpec.PopN(data, h.ord, h.Contents(), m).0)
    {
      var m := n;
      if m > h.len {
        m := h.len;
      }
      ghost var h0 := h.Contents();
      var temp := new VideoHeap.Copy(h);
      r := [];
      var i := 0;
      while i < m
        invariant 0 <= i <= m <= |h0| && temp.Valid() && temp.ord == h.ord && fresh(temp) && fresh(temp.a)
        invariant temp.Contents() == HeapSpec.PopN(data, h.ord, h0, i).1
        invariant r == RepoSpec.Infos(data, HeapSpec.PopN(data, h.ord, h0, i).0)
      {
        ghost var before := HeapSpec.PopN(data, h.ord, h0, i);
        var video := temp.Pop(data);
        ghost var p := HeapSpec.Pop(data, h.ord, before.1);
        assert video == p.0 && temp.Contents() == p.1;
        assert HeapSpec.PopN(data, h.ord, h0, i + 1) == (before.0 + [p.0], p.1);
        RepoSpec.InfosSnoc(data, before.0, video);
        r := r + [RepoSpec.Info(data, video)];
        i := i + 1;
      }
    }

    /** Increment, with the timeHeap loop repaired (see RepoSpec.Increment). */
    method Increment(id: string)
      requires Valid()
      modifies Repr
      ensures Valid() && fresh(Repr - old(Repr))
      ensures State() == RepoSpec.Increment(old(State()), id)
    {
      ghost var s0 := State();
      Update(id);
      Repr := {this, viewHeap, timeHeap, viewHeap.a, timeHeap.a};
      assert State() == RepoSpec.Increment(s0, id);
      RepoSpec.IncrementPreservesInv(s0, id);
    }

    /** Increment's statements, proved to compute RepoSpec.Increment. */
    method Update(id: string)
      requires viewHeap.Valid() && timeHeap.Valid()
      requires viewHeap != timeHeap && viewHeap.a != timeHeap.a
      requires viewHeap.ord == ByViews && timeHeap.ord == ByTime
      modifies this, viewHeap, timeHeap, viewHeap.a, timeHeap.a
      ensures viewHeap == old(viewHeap) && timeHeap == old(timeHeap)
      ensures viewHeap.Valid() && timeHeap.Valid() && viewHeap.a != timeHeap.a
      ensures viewHeap.a == old(viewHeap.a) || fresh(viewHeap.a)
      ensures timeHeap.a == old(timeHeap.a) || fresh(timeHeap.a)
      ensures State() == RepoSpec.Increment(old(State()), id)
    {
      ghost var s0 := State();
      var present := id in data;
      var video := if present then data[id] else VideoData(id, 0, 0);
      clock := clock + 1;
      video := video.(views := video.views + 1, lastUpdated := clock);
      assert video == RepoSpec.Bumped(s0, id);
      data := data[id := video];
      if !present {
        viewHeap.Push(data, id);
        timeHeap.Push(data, id);
      } else {
        FixAll(viewHeap, id);
        FixAll(timeHeap, id);
      }
    }

    /** The increment's scan over a heap: heap.Fix at every slot that holds
        id, reading each slot as the loop reaches it. */
    method FixAll(h: VideoHeap, id: string)
      requires h.Valid()
      modifies h.a
      ensures h.Contents() == HeapSpec.FixEach(data, h.ord, old(h.Contents()), id, 0)
    {
      var i := 0;
      while i < h.len
        invariant 0 <= i <= h.len
        invariant HeapSpec.FixEach(data, h.ord, h.Contents(), id, i) == HeapSpec.FixEach(data, h.ord, old(h.Contents()), id, 0)
      {
        if h.a[i] == id {
          h.Fix(data, i);
        }
        i := i + 1;
      }
    }
  }
}

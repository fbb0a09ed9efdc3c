# videoViewCounter: the in-memory view-count store, its service and its command line

videoViewCounter counts views of videos. Its in-memory repository
(`inmemoryRepo`) keeps three things. The first is a map from video id to a
record with the id, the view count and the time of the last increment.
The other two are binary max-heaps over the same records: `viewHeap`,
ordered by count, and `timeHeap`, ordered by last update. `Increment`
creates or bumps a record. A new record is pushed into both heaps; for an
existing one, each heap is scanned and `heap.Fix` is called where the id
sits. `GetTopVideos(n)` and `GetRecentVideos(n)` pop up to `n` records off
a copy of the matching heap. The `viewservice` layer rejects an empty id
on `Increment` and `GetView` and passes everything else to the store. The
command line (`cli.Execute`) splits a line into fields and checks the
argument counts. It reads the `n` of `top`/`recent` with `strconv.Atoi`
and calls the service.

The project has seven modules:

- `Videos` (videos.dfy): the records.
- `HeapSpec` (heap_spec.dfy): Go's `container/heap` algorithm, written
  out as functions on a sequence of ids, with the heap and permutation
  lemmas. The keys come from the store's map.
- `RepoSpec` (repo_spec.dfy): the store as a state value. It holds the
  invariant every reachable state keeps, and the properties of the store's
  operations.
- `Inmemory` (inmemory.dfy): the store as objects. `VideoHeap` holds an
  array and a length that the heap loops rearrange in place.
  `InmemoryRepo` holds the map, the two heaps and a logical clock. Each
  method is proved to compute what the `HeapSpec` and `RepoSpec` functions
  say.
- `ViewService` (service.dfy): the validation layer, as functions over the
  store state.
- `Cli` (commands.dfy): `strings.Fields`, `strconv.Atoi` (its fast path and
  `ParseInt`/`ParseUint`), `Execute`'s parsing as a function from the line
  to a command or an error, and the dispatch into the service.
- `Scenarios` (scenarios.dfy): the increment sequences of the unit tests,
  evaluated step by step on the model.

Design points:

- The heaps hold ids where the source holds record pointers. Each heap
  reads a record's key through the map, so an increment is seen by the map
  and by both heaps at once, as with the shared pointer. Only the heap
  order then needs repair.
- `time.Now()` is a clock that `Increment` advances by one and stamps on
  the record, so stamps are distinct and increase.
- The scan-and-Fix loops read slot `i` after the earlier `Fix` calls have
  rearranged the slice. Go's `range` over a slice reads the same backing
  array that `heap.Fix` swaps in place, so the model reads it the same way.

The second scan at inmemory.go:116-121 calls `heap.Fix` on `viewHeap`
with an index into `timeHeap`, so `timeHeap` is never repaired (see
Findings). The store's contract ("updates the heap"), repo.go:20, and the
recent-videos test both expect `timeHeap` to be repaired. The model's
`Increment` (`RepoSpec.Increment`, `Inmemory.InmemoryRepo.Increment`)
fixes `timeHeap` there. `RepoSpec.IncrementAsWritten` keeps the source's
loop.

The top-videos test expects a different order. It increments video1,
video2, video3, video3, video3 and expects `[video3:3, video2:1,
video1:1]` (inmemoryUnit_test.go:124-133), and so does the service's test
(viewservice/service_test.go:133-142). Go's `container/heap`, followed
step by step, pops video1 before video2: `Scenarios.TopThree` proves the
answer is `[video3:3, video1:1, video2:1]`. video1 and video2 have equal
counts, and the source promises no order among ties. The model keeps the
algorithm's order.

## Model

| member | source | states |
|---|---|---|
| Inmemory.VideoHeap.constructor | repository/viewrepository/inmemory.go:33-34 | `make(VideoViewHeap, 0)` / `make(VideoTimeHeap, 0)`: a fresh, empty heap of the requested order |
| Inmemory.VideoHeap.Copy | repository/viewrepository/inmemory.go:134-135 | the query's temporary heap is a fresh array holding exactly the live heap's elements in the same slots, so popping it cannot touch the live heap |
| Inmemory.VideoHeap.Less | repository/viewrepository/inmemory.go:42 | `Less(i, j)` holds exactly when the record at slot i has the strictly greater key (Views for viewHeap, LastUpdated for timeHeap, line 54) |
| Inmemory.VideoHeap.Swap | repository/viewrepository/inmemory.go:43 | the slice afterwards is the old slice with slots i and j exchanged (the same for timeHeap, line 55) |
| Inmemory.VideoHeap.Append | repository/viewrepository/inmemory.go:44 | the heap type's Push: the slice afterwards is the old slice with x appended, in the same or a fresh backing array |
| Inmemory.VideoHeap.RemoveLast | repository/viewrepository/inmemory.go:45-51 | the heap type's Pop returns the last element and leaves the slice without it |
| Inmemory.VideoHeap.Up | repository/viewrepository/inmemory.go:106-107 | the sift-up loop that heap.Push runs rearranges the slice in place exactly as container/heap's up does |
| Inmemory.VideoHeap.Down | repository/viewrepository/inmemory.go:140 | the sift-down loop that heap.Pop and heap.Fix run computes container/heap's down, and reports whether the element moved |
| Inmemory.VideoHeap.Fix | repository/viewrepository/inmemory.go:112 | heap.Fix: down and, when nothing moved, up, as container/heap's Fix |
| Inmemory.VideoHeap.Push | repository/viewrepository/inmemory.go:106-107 | heap.Push: append, then sift the new last slot up |
| Inmemory.VideoHeap.Pop | repository/viewrepository/inmemory.go:140 | heap.Pop: swap the root with the last slot, sift down over the rest, return the removed last element |
| Inmemory.InmemoryRepo.constructor | repository/viewrepository/inmemory.go:30-36 | NewInmemoryRepo: the store's invariant holds, with an empty map and two empty heaps |
| Inmemory.InmemoryRepo.GetView | repository/viewrepository/inmemory.go:66-74 | the stored count of a present id, 0 for an absent one; nothing changes (no modifies clause), so the record built for an absent id is never stored |
| Inmemory.InmemoryRepo.GetAllViews | repository/viewrepository/inmemory.go:76-90 | one entry per stored id, each with that id's count, no id twice, every id present, `len(data)` entries; the order is whatever the map iteration takes |
| Inmemory.InmemoryRepo.GetTopVideos | repository/viewrepository/inmemory.go:126-149 | the answer popped from a copy of viewHeap, clamped to its length; the live store is left unchanged (no modifies clause) |
| Inmemory.InmemoryRepo.GetRecentVideos | repository/viewrepository/inmemory.go:151-171 | the same over a copy of timeHeap; the live store is left unchanged |
| Inmemory.InmemoryRepo.PopInfos | repository/viewrepository/inmemory.go:137-146 | the pop loop reports, in order, the ids that n successive heap.Pop calls return, each with its count |
| Inmemory.InmemoryRepo.Increment | repository/viewrepository/inmemory.go:92-124 | the store keeps its invariant and its new state is the repaired Increment of the old one |
| Inmemory.InmemoryRepo.Update | repository/viewrepository/inmemory.go:95-121 | Increment's statements (bump, stamp, store, then Push into both heaps or Fix-scan both) compute the repaired Increment |
| Inmemory.InmemoryRepo.FixAll | repository/viewrepository/inmemory.go:109-114 | the increment's scan, calling heap.Fix at each slot that holds the id, leaves exactly the slice that HeapSpec.FixEach describes |
| HeapSpec.SwapExchanges | repository/viewrepository/inmemory.go:43 | Swap exchanges exactly slots i and j and leaves every other slot alone |
| HeapSpec.UpPermutes | repository/viewrepository/inmemory.go:106-107 | sift-up only rearranges: the multiset of ids is unchanged |
| HeapSpec.DownPermutes | repository/viewrepository/inmemory.go:140 | sift-down within n only rearranges, and leaves the slots from n on alone |
| HeapSpec.FixPermutes | repository/viewrepository/inmemory.go:112 | heap.Fix only rearranges the heap |
| HeapSpec.PushPermutes | repository/viewrepository/inmemory.go:106-107 | heap.Push adds exactly the one pushed id |
| HeapSpec.PopPermutes | repository/viewrepository/inmemory.go:140 | heap.Pop returns one element of the heap and leaves all the others |
| HeapSpec.PopNPermutes | repository/viewrepository/inmemory.go:139-146 | the popped ids and what remains of the heap together are the original heap's ids |
| HeapSpec.FixEachPermutes | repository/viewrepository/inmemory.go:109-114 | the scan-and-Fix loop only rearranges the heap |
| HeapSpec.UpRestoresHeap | repository/viewrepository/inmemory.go:106-107 | sift-up turns a heap that is broken only above slot j into a max-heap |
| HeapSpec.DownRestoresHeap | repository/viewrepository/inmemory.go:140 | sift-down turns a heap that is broken only below slot i into a max-heap on the first n slots |
| HeapSpec.FixRestoresHeap | repository/viewrepository/inmemory.go:112 | after the key at slot i changed either way, heap.Fix(i) restores the max-heap order |
| HeapSpec.KeyChangeAt | repository/viewrepository/inmemory.go:100-101 | a heap whose keys changed only at one slot is a heap except at that slot |
| HeapSpec.HeapIsHeapExceptAt | repository/viewrepository/inmemory.go:112 | a max-heap is in particular a heap except at any slot, so Fix on an unchanged key is safe |
| HeapSpec.FixEachKeepsHeap | repository/viewrepository/inmemory.go:109-114 | the scan-and-Fix loop keeps a max-heap a max-heap |
| HeapSpec.FixEachRestoresHeap | repository/viewrepository/inmemory.go:109-114 | on a heap holding id once, whose only changed key is id's, the scan-and-Fix loop restores the max-heap order |
| HeapSpec.PushKeepsHeap | repository/viewrepository/inmemory.go:106-107 | heap.Push keeps the max-heap order |
| HeapSpec.RootIsMax | repository/viewrepository/inmemory.go:42 | the root of a max-heap has a key at least every other slot's (greatest Views; latest LastUpdated for line 54) |
| HeapSpec.RootIsMaxOf | repository/viewrepository/inmemory.go:54 | the root's key is at least the key of any id in the heap |
| HeapSpec.PopShape | repository/viewrepository/inmemory.go:140 | heap.Pop returns the old root and leaves the first n-1 slots of the sift-down's result |
| HeapSpec.PopKeepsHeap | repository/viewrepository/inmemory.go:140 | heap.Pop of a max-heap returns its root and leaves a max-heap |
| HeapSpec.PopNIsTopN | repository/viewrepository/inmemory.go:139-146 | n pops of a max-heap come out in non-increasing key order, what remains is a max-heap, and every popped key is at least every remaining one |
| HeapSpec.PopNFirst | repository/viewrepository/inmemory.go:140 | the first id of n pops is what a single heap.Pop returns |
| RepoSpec.NewInmemoryRepo | repository/viewrepository/inmemory.go:30-36 | a new repository has an empty map and two empty heaps, and satisfies the store's invariant |
| RepoSpec.GetAllViews | repository/viewrepository/inmemory.go:76-90 | the snapshot has exactly the stored ids as keys, each mapped to the count GetView reports |
| RepoSpec.PermOfKeys | repository/viewrepository/inmemory.go:95-107 | a heap holding exactly the map's keys holds each once and has `len(data)` slots |
| RepoSpec.IncrementPreservesInv | repository/viewrepository/inmemory.go:92-124 | Increment keeps the invariant: records keyed by their own id with positive counts and distinct stamps, both heaps exactly the map's ids, both in max-heap order |
| RepoSpec.IncrementRecords | repository/viewrepository/inmemory.go:95-102 | after Increment every record is still keyed by its id with a positive count, and the new stamp is distinct from all others |
| RepoSpec.IncrementNewHeaps | repository/viewrepository/inmemory.go:105-107 | pushing a new id into both heaps keeps each heap exactly the map's ids and in max-heap order |
| RepoSpec.IncrementExistingHeaps | repository/viewrepository/inmemory.go:108-121 | the scan-and-Fix of an existing id over both heaps keeps each exactly the map's ids and restores both orders |
| RepoSpec.IncrementAllPreservesInv | repository/viewrepository/inmemory.go:92-124 | any sequence of increments keeps the invariant |
| RepoSpec.ReachableInv | repository/viewrepository/inmemory.go:30-36 | every state reached from a new repository by increments satisfies the invariant |
| RepoSpec.IncrementCounts | repository/viewrepository/inmemory.go:95-102 | one Increment adds one to that id's count (a new id starts from 0) and changes no other count |
| RepoSpec.IncrementAllCounts | repository/viewrepository/inmemory.go:95-102 | after a sequence of increments each id's count has grown by the number of times it occurs in the sequence |
| RepoSpec.CountsFromNew | repository/viewrepository/inmemoryUnit_test.go:17-47 | from a new repository, k increments of an id give GetView == k (the test's 3 after 3) |
| RepoSpec.IncrementKeys | repository/viewrepository/inmemory.go:102 | Increment adds the id to the stored ids and removes none |
| RepoSpec.IncrementAllKeys | repository/viewrepository/inmemory.go:102 | the stored ids after increments are the earlier ones plus the incremented ones |
| RepoSpec.AllViewsFromNew | repository/viewrepository/inmemoryUnit_test.go:49-92 | from a new repository, the snapshot maps exactly the incremented ids, each to the number of its increments |
| RepoSpec.AllViewsAfterIncrement | repository/viewrepository/inmemory.go:76-102 | Increment changes the snapshot only at the id, which then maps to its old count plus one |
| RepoSpec.TopVideosAreTop | repository/viewrepository/inmemory.go:126-149 | GetTopVideos(n) reports min(n, number of ids) distinct stored ids with their counts, in non-increasing count order, none below any id left out |
| RepoSpec.RecentVideosAreRecent | repository/viewrepository/inmemory.go:151-171 | GetRecentVideos(n) reports min(n, number of ids) distinct stored ids with their counts, each updated strictly later than the next, and later than every id left out |
| RepoSpec.Popped | repository/viewrepository/inmemory.go:139-146 | the ids popped from a heap holding the map's keys are distinct stored ids, in non-increasing key order, none below any id left out |
| RepoSpec.IncrementedIsMostRecent | repository/viewrepository/inmemory.go:101 | after Increment the id just incremented is timeHeap's root, and GetRecentVideos(1) reports exactly it |
| RepoSpec.FixViewHeapAtTimeIndices | repository/viewrepository/inmemory.go:116-121 | the second loop as written: heap.Fix on viewHeap at the indices where timeHeap holds the id; viewHeap keeps its length |
| RepoSpec.IncrementAsWritten | repository/viewrepository/inmemory.go:92-124 | Increment as written keeps the two heaps the same length; what it does to timeHeap is shown by Scenarios.AsWrittenRecentCounterexample |
| RepoSpec.IncrementAllAsWritten | repository/viewrepository/inmemory.go:92-124 | a sequence of as-written increments keeps the two heaps the same length |
| ViewService.IncrementValidates | viewservice/service.go:48-54 | Increment reports ErrInvalidArgument exactly for the empty id and then leaves the store untouched; any other id gets exactly the store's Increment |
| ViewService.GetViewValidates | viewservice/service.go:56-62 | GetView is (0, ErrInvalidArgument) exactly for the empty id; any other id gets the store's count with no error |
| ViewService.IncrementThenGetView | viewservice/service.go:48-62 | through the service, an increment keeps the store's invariant and adds one to GetView of that non-empty id only |
| ViewService.QueriesPassThrough | viewservice/service.go:64-74 | GetAllViews, GetTopVideos and GetRecentVideos answer exactly as the store does, with no check of n |
| Cli.Word | cli/commands.go:16 | the longest prefix without white space, followed by white space or the end of the line |
| Cli.Fields | cli/commands.go:16 | every field strings.Fields returns is non-empty and free of white space |
| Cli.FieldsEmptyIff | cli/commands.go:16-19 | the line has no fields exactly when it is empty or all white space |
| Cli.FieldsOfJoin | cli/commands.go:16 | fields without white space, joined by single spaces, split back into themselves |
| Cli.ParseUint | cli/commands.go:41 | strconv.ParseUint(s, 10, 64) stays within 64 unsigned bits |
| Cli.ParseInt | cli/commands.go:41 | strconv.ParseInt(s, 10, 64) stays within 64 signed bits |
| Cli.UintDigitsInRange | cli/commands.go:41 | digits whose value fits in 64 bits parse to that value without error |
| Cli.UintDigitsOutOfRange | cli/commands.go:41 | digits whose value exceeds 64 bits give ErrRange and the largest value |
| Cli.FastDigitsAgree | cli/commands.go:41 | Atoi's fast loop agrees with ParseUint's loop on inputs short enough not to overflow |
| Cli.AtoiIsParseInt | cli/commands.go:41 | strconv.Atoi agrees with ParseInt on every input: the fast path is only a shortcut |
| Cli.AtoiOfItoa | cli/commands.go:45 | Atoi reads every 64-bit integer's numeral back to it, without error |
| Cli.AtoiNotNumber | cli/commands.go:41 | input that does not start with a digit after an optional sign is (0, ErrSyntax) |
| Cli.AtoiClamps | cli/commands.go:45 | a numeral too large for 64 bits is clamped to the 64-bit bound with ErrRange |
| Cli.RunNeverFails | cli/commands.go:55-103 | a dispatched command never returns an error: the helpers print the service's error instead |
| Cli.FailsOnlyInParse | cli/commands.go:13-53 | Execute returns an error exactly when parsing the line produces it |
| Cli.ParseNoCommand | cli/commands.go:16-19 | parsing yields "no command provided" exactly when the line has no fields |
| Cli.NoCommandIff | cli/commands.go:16-19 | Execute fails with "no command provided" exactly for an empty or all-white-space line, and then leaves the store alone |
| Cli.ArgumentCountChecked | cli/commands.go:25-38 | getView and incre with other than one argument fail with their own message and leave the store unchanged |
| Cli.GetAllIgnoresArguments | cli/commands.go:31-32 | getAll with any arguments returns nil with the service's snapshot |
| Cli.CountArgument | cli/commands.go:40-46 | top and recent with no argument panic on args[0]; otherwise their count is Atoi of the first argument, error ignored |
| Cli.NonNumericCount | cli/commands.go:40-46 | a count that does not start with a digit or sign means n = 0: nil and an empty list |
| Cli.UnknownCommand | cli/commands.go:48-49 | any other first field fails with "unknown command: " followed by that field, and the store is unchanged |
| Cli.KnownCommandReturnsNil | cli/commands.go:52 | a parsed command with a non-negative count returns nil, and getView and incre then get no service error |
| Cli.ParsedIdIsField | cli/commands.go:29 | the id a parsed getView or incre hands to the service is a field, hence never empty |
| Cli.RunDone | cli/commands.go:55-83 | a command with a non-empty id and a non-negative count returns nil with no service error |
| Cli.ExecuteEffect | cli/commands.go:34-38 | only a parsed incre changes the store, and then exactly by the store's Increment; the invariant survives every line |
| Cli.RunEffect | cli/commands.go:76-83 | a dispatched command changes the store only when it is incre, and then by the store's Increment |
| Cli.ParseOfRender | cli/commands.go:16-46 | the typed line of every command (one-field id, 64-bit count) parses back to that command |
| Scenarios.TopThree | repository/viewrepository/inmemoryUnit_test.go:115-151 | after video1, video2, video3, video3, video3, GetTopVideos(3) is [video3:3, video1:1, video2:1] |
| Scenarios.RecentFour | repository/viewrepository/inmemoryUnit_test.go:153-190 | after video1, video2, video3, video4, video2, GetRecentVideos(4) is the test's [video2:2, video4:1, video3:1, video1:1] |
| Scenarios.AsWrittenNewId | repository/viewrepository/inmemory.go:105-107 | for an id not yet stored, Increment as written and the repaired one agree |
| Scenarios.AsWrittenRecentCounterexample | repository/viewrepository/inmemory.go:116-121 | with the loop as written, the same five increments leave timeHeap out of order and GetRecentVideos(4) reports video4 first although video2 was updated later |
| Scenarios.WrittenNotInv | repository/viewrepository/inmemory.go:119 | the as-written state breaks the max-heap order of timeHeap, with video2 stamped after video4 |
| Scenarios.ServiceGetView | viewservice/service_test.go:21-53 | three increments of video1, then the service's GetView is (3, no error) |
| Scenarios.ServiceGetAllViews | viewservice/service_test.go:55-99 | three increments of video1 and one of video2 give the snapshot {video1: 3, video2: 1} |
| Scenarios.ServiceIncrement | viewservice/service_test.go:101-121 | the service's Increment of video1 on a new store reports no error |
| Scenarios.ServiceTopThree | viewservice/service_test.go:123-160 | the service's top three after the test's increments are the store's: [video3:3, video1:1, video2:1] |

## Left out

- The mutex (`sync.RWMutex`): every method holds the lock for its whole body, so the store is modelled sequentially.
- `time.Time`: the stamp is a natural-number clock that each Increment advances by one. Wall-clock values, equal times and clock skew are not modelled.
- Inmemory.InmemoryRepo.Increment: counts are unbounded naturals, so the wrap-around of Go's `int` count after 2^63 - 1 increments is not modelled.
- Record pointers: the heaps hold ids and read records through the map. The aliasing this stands for is exact, because the map and both heaps share one record per id. The redundant assignments `repo.viewHeap[i].Views = video.Views` (lines 111 and 118) write the shared record's own value back, so they have no counterpart.
- The two heap types: both are one class, `Inmemory.VideoHeap`, whose `ord` field selects the compared field.
- Slice growth: `Inmemory.VideoHeap.Append` grows a full array to twice its size plus one. Go's `append` growth policy differs, but no caller can observe capacities.
- Inmemory.InmemoryRepo.GetTopVideos / GetRecentVideos: the answer is built by appending each entry to a sequence. The source assigns into a slice preallocated with `make([]model.VideoInfo, n)`. The contents are the same; the preallocation is not modelled.
- Inmemory.InmemoryRepo.GetAllViews: Go's map iteration order is unspecified, so the model picks each next id arbitrarily, and its contract holds for every order.
- Negative n: the store's `make` panics on a negative length. RepoSpec, ViewService and the query methods therefore require n >= 0. The command line, which can pass a negative n, models that panic as an outcome (`Panicked`).
- The context arguments and the always-nil error results of the store are dropped.
- The `Repository` interface (repo.go) is not modelled as an interface. The service and command line are written directly over the in-memory store.
- The command line's printing (`fmt.Printf`, `fmt.Println`) is not modelled. The reply each helper would print is returned instead. The package-level `viewService` assignment (commands.go:14) becomes the store state passed in and out.
- Strings are sequences of Unicode characters: invalid UTF-8 input and its replacement characters are not modelled. Go's byte length of a string, which decides Atoi's fast path, is computed from the characters.
- Postgres, HTTP transport, endpoints, logging and metrics decorators, main.go and the mocks are not part of this model.

## Findings

| source | as written | input that shows it | evidently intended | confidence | as-written member | corrected member |
|---|---|---|---|---|---|---|
| repository/viewrepository/inmemory.go:119 | inside the loop over `timeHeap`, `heap.Fix(&repo.viewHeap, i)` fixes `viewHeap` at a `timeHeap` index, so `timeHeap` is never repaired after an existing id is re-incremented | Increment video1, video2, video3, video4, video2: timeHeap becomes [video4, video3, video2, video1], video2 sits below video4 though stamped later, and GetRecentVideos(4) starts with video4 | `heap.Fix(&repo.timeHeap, i)`, so that timeHeap stays a heap and the recent-videos test's [video2, video4, video3, video1] comes out | high, not executed | Scenarios.AsWrittenRecentCounterexample | RepoSpec.IncrementPreservesInv |

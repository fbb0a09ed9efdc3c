/** The increment sequences of the in-memory store's unit tests
    (inmemoryUnit_test.go), evaluated on the model step by step: the state
    after each Increment, and what the queries then return. */
module Scenarios {
  import opened Videos
  import opened HeapSpec
  import opened RepoSpec
  import ViewService

  const V1: string := "video1"
  const V2: string := "video2"
  const V3: string := "video3"
  const V4: string := "video4"

  // ---------------------------------------------------------------------
  // video1, video2, video3: three new ids

  function D1(): map<string, VideoData> { map[V1 := VideoData(V1, 1, 1)] }
  function D2(): map<string, VideoData> { D1()[V2 := VideoData(V2, 1, 2)] }
  function D3(): map<string, VideoData> { D2()[V3 := VideoData(V3, 1, 3)] }

  function S1(): RepoState { RepoState(D1(), [V1], [V1], 1) }
  function S2(): RepoState { RepoState(D2(), [V1, V2], [V2, V1], 2) }
  /** Equal counts leave viewHeap in arrival order; timeHeap has the latest on top. */
  function S3(): RepoState { RepoState(D3(), [V1, V2, V3], [V3, V1, V2], 3) }

  lemma Step1()
    ensures Increment(NewInmemoryRepo(), V1) == S1()
  {
  }

  lemma Step2()
    ensures Increment(S1(), V2) == S2()
  {
    var d := D2();
    assert Up(d, ByTime, [V1, V2], 1) == Up(d, ByTime, [V2, V1], 0);
  }

  lemma Step3()
    ensures Increment(S2(), V3) == S3()
  {
    var d := D3();
    assert Up(d, ByViews, [V1, V2, V3], 2) == [V1, V2, V3];
    assert Up(d, ByTime, [V2, V1, V3], 2) == Up(d, ByTime, [V3, V1, V2], 0);
  }

  // ---------------------------------------------------------------------
  // Test_IM_GetTopVideos: video1, video2, video3, video3, video3

  function D4Top(): map<string, VideoData> { D3()[V3 := VideoData(V3, 2, 4)] }
  function D5Top(): map<string, VideoData> { D4Top()[V3 := VideoData(V3, 3, 5)] }
  function S4Top(): RepoState { RepoState(D4Top(), [V3, V2, V1], [V3, V1, V2], 4) }
  function S5Top(): RepoState { RepoState(D5Top(), [V3, V2, V1], [V3, V1, V2], 5) }

  lemma Step4TopViews()
    ensures FixEach(D4Top(), ByViews, [V1, V2, V3], V3, 0) == [V3, V2, V1]
  {
    var d := D4Top();
    var h := [V1, V2, V3];
    assert Up(d, ByViews, h, 2) == Up(d, ByViews, Swap(h, 0, 2), 0);
    assert Fix(d, ByViews, h, 2) == [V3, V2, V1];
    assert FixEach(d, ByViews, h, V3, 0) == FixEach(d, ByViews, h, V3, 2);
    assert FixEach(d, ByViews, h, V3, 2) == FixEach(d, ByViews, [V3, V2, V1], V3, 3);
  }

  lemma Step4TopTimes()
    ensures FixEach(D4Top(), ByTime, [V3, V1, V2], V3, 0) == [V3, V1, V2]
  {
    var d := D4Top();
    var t := [V3, V1, V2];
    assert Fix(d, ByTime, t, 0) == t;
    assert FixEach(d, ByTime, t, V3, 0) == FixEach(d, ByTime, t, V3, 1);
    assert FixEach(d, ByTime, t, V3, 1) == FixEach(d, ByTime, t, V3, 2);
    assert FixEach(d, ByTime, t, V3, 2) == FixEach(d, ByTime, t, V3, 3);
  }

  lemma Step4Top()
    ensures Increment(S3(), V3) == S4Top()
  {
    Step4TopViews();
    Step4TopTimes();
  }

  lemma Step5TopViews()
    ensures FixEach(D5Top(), ByViews, [V3, V2, V1], V3, 0) == [V3, V2, V1]
  {
    var d := D5Top();
    var h := [V3, V2, V1];
    assert Fix(d, ByViews, h, 0) == h;
    assert FixEach(d, ByViews, h, V3, 0) == FixEach(d, ByViews, h, V3, 1);
    assert FixEach(d, ByViews, h, V3, 1) == FixEach(d, ByViews, h, V3, 2);
    assert FixEach(d, ByViews, h, V3, 2) == FixEach(d, ByViews, h, V3, 3);
  }

  lemma Step5TopTimes()
    ensures FixEach(D5Top(), ByTime, [V3, V1, V2], V3, 0) == [V3, V1, V2]
  {
    var d := D5Top();
    var t := [V3, V1, V2];
    assert Fix(d, ByTime, t, 0) == t;
    assert FixEach(d, ByTime, t, V3, 0) == FixEach(d, ByTime, t, V3, 1);
    assert FixEach(d, ByTime, t, V3, 1) == FixEach(d, ByTime, t, V3, 2);
    assert FixEach(d, ByTime, t, V3, 2) == FixEach(d, ByTime, t, V3, 3);
  }

  lemma Step5Top()
    ensures Increment(S4Top(), V3) == S5Top()
  {
    Step5TopViews();
    Step5TopTimes();
  }

  lemma TopReached()
    ensures IncrementAll(NewInmemoryRepo(), [V1, V2, V3, V3, V3]) == S5Top()
  {
    Step1(); Step2(); Step3(); Step4Top(); Step5Top();
    Then(S4Top(), V3, []);
    Then(S3(), V3, [V3]);
    Then(S2(), V3, [V3, V3]);
    Then(S1(), V2, [V3, V3, V3]);
    Then(NewInmemoryRepo(), V1, [V2, V3, V3, V3]);
  }

  lemma PopTop1()
    ensures Pop(D5Top(), ByViews, [V3, V2, V1]) == (V3, [V1, V2])
  {
    var h1 := [V1, V2, V3];
    assert Swap([V3, V2, V1], 0, 2) == h1;
    assert Down(D5Top(), ByViews, h1, 0, 2) == (h1, 0);
    assert h1[..2] == [V1, V2];
  }

  lemma PopTop2()
    ensures Pop(D5Top(), ByViews, [V1, V2]) == (V1, [V2])
  {
    var h1 := [V2, V1];
    assert Swap([V1, V2], 0, 1) == h1;
    assert Down(D5Top(), ByViews, h1, 0, 1) == (h1, 0);
    assert h1[..1] == [V2];
  }

  lemma PopTop3()
    ensures Pop(D5Top(), ByViews, [V2]) == (V2, [])
  {
    assert Swap([V2], 0, 0) == [V2];
  }

  lemma PopTopTwo()
    ensures PopN(D5Top(), ByViews, [V3, V2, V1], 2) == ([V3, V1], [V2])
  {
    var d, h := D5Top(), [V3, V2, V1];
    PopTop1();
    PopStep(d, ByViews, h, 1, [], h, V3, [V1, V2]);
    assert [] + [V3] == [V3];
    PopTop2();
    PopStep(d, ByViews, h, 2, [V3], [V1, V2], V1, [V2]);
    assert [V3] + [V1] == [V3, V1];
  }

  /** Popping all three from the final viewHeap [video3, video2, video1]. */
  lemma PopTopThree()
    ensures PopN(D5Top(), ByViews, [V3, V2, V1], 3) == ([V3, V1, V2], [])
  {
    PopTopTwo();
    PopTop3();
    PopStep(D5Top(), ByViews, [V3, V2, V1], 3, [V3, V1], [V2], V2, []);
    assert [V3, V1] + [V2] == [V3, V1, V2];
  }

  lemma TopThreeOfFinal()
    ensures GetTopVideos(S5Top(), 3) == [VideoInfo(V3, 3), VideoInfo(V1, 1), VideoInfo(V2, 1)]
  {
    PopTopThree();
    var d := D5Top();
    assert GetTopVideos(S5Top(), 3) == Infos(d, [V3, V1, V2]);
    Infos3(d, V3, V1, V2);
    assert Info(d, V3) == VideoInfo(V3, 3);
    assert Info(d, V1) == VideoInfo(V1, 1);
    assert Info(d, V2) == VideoInfo(V2, 1);
  }

  /** GetTopVideos(3) after video1, video2, video3, video3, video3: video3
      first with 3, then the two ids with count 1 in the order the heap
      leaves them, video1 before video2. */
  lemma TopThree()
    ensures GetTopVideos(IncrementAll(NewInmemoryRepo(), [V1, V2, V3, V3, V3]), 3)
         == [VideoInfo(V3, 3), VideoInfo(V1, 1), VideoInfo(V2, 1)]
  {
    TopReached();
    TopThreeOfFinal();
  }

  lemma Infos3(data: map<string, VideoData>, a: string, b: string, c: string)
    ensures Infos(data, [a, b, c]) == [Info(data, a), Info(data, b), Info(data, c)]
  {
  }

  // ---------------------------------------------------------------------
  // Test_IM_GetRecentVideos: video1, video2, video3, video4, video2

  function D4Recent(): map<string, VideoData> { D3()[V4 := VideoData(V4, 1, 4)] }
  function D5Recent(): map<string, VideoData> { D4Recent()[V2 := VideoData(V2, 2, 5)] }
  function S4Recent(): RepoState { RepoState(D4Recent(), [V1, V2, V3, V4], [V4, V3, V2, V1], 4) }
  function S5Recent(): RepoState { RepoState(D5Recent(), [V2, V1, V3, V4], [V2, V3, V4, V1], 5) }

  /** The keys the heaps compare in the two recent-test states. */
  lemma Keys4Recent()
    ensures KeyOf(D4Recent(), ByViews, V1) == 1 && KeyOf(D4Recent(), ByTime, V1) == 1
    ensures KeyOf(D4Recent(), ByViews, V2) == 1 && KeyOf(D4Recent(), ByTime, V2) == 2
    ensures KeyOf(D4Recent(), ByViews, V3) == 1 && KeyOf(D4Recent(), ByTime, V3) == 3
    ensures KeyOf(D4Recent(), ByViews, V4) == 1 && KeyOf(D4Recent(), ByTime, V4) == 4
  {
  }

  lemma Keys5Recent()
    ensures KeyOf(D5Recent(), ByViews, V1) == 1 && KeyOf(D5Recent(), ByTime, V1) == 1
    ensures KeyOf(D5Recent(), ByViews, V2) == 2 && KeyOf(D5Recent(), ByTime, V2) == 5
    ensures KeyOf(D5Recent(), ByViews, V3) == 1 && KeyOf(D5Recent(), ByTime, V3) == 3
    ensures KeyOf(D5Recent(), ByViews, V4) == 1 && KeyOf(D5Recent(), ByTime, V4) == 4
  {
  }

  lemma Step4RecentTimesUp3()
    ensures Up(D4Recent(), ByTime, [V3, V1, V2, V4], 3) == Up(D4Recent(), ByTime, [V3, V4, V2, V1], 1)
  {
    Keys4Recent();
    assert Swap([V3, V1, V2, V4], 1, 3) == [V3, V4, V2, V1];
  }

  lemma Step4RecentTimesUp1()
    ensures Up(D4Recent(), ByTime, [V3, V4, V2, V1], 1) == [V4, V3, V2, V1]
  {
    Keys4Recent();
    assert Swap([V3, V4, V2, V1], 0, 1) == [V4, V3, V2, V1];
  }

  lemma Step4RecentTimes()
    ensures Push(D4Recent(), ByTime, [V3, V1, V2], V4) == [V4, V3, V2, V1]
  {
    assert [V3, V1, V2] + [V4] == [V3, V1, V2, V4];
    Step4RecentTimesUp3();
    Step4RecentTimesUp1();
  }

  lemma Step4Recent()
    ensures Increment(S3(), V4) == S4Recent()
  {
    Keys4Recent();
    var d := D4Recent();
    assert [V1, V2, V3] + [V4] == [V1, V2, V3, V4];
    assert Up(d, ByViews, [V1, V2, V3, V4], 3) == [V1, V2, V3, V4];
    Step4RecentTimes();
  }

  lemma Step5RecentViewsDown()
    ensures Down(D5Recent(), ByViews, [V1, V2, V3, V4], 1, 4) == ([V1, V2, V3, V4], 1)
  {
    Keys5Recent();
  }

  lemma Step5RecentViewsUp()
    ensures Up(D5Recent(), ByViews, [V1, V2, V3, V4], 1) == [V2, V1, V3, V4]
  {
    Keys5Recent();
    assert Swap([V1, V2, V3, V4], 0, 1) == [V2, V1, V3, V4];
  }

  lemma Step5RecentViewsTail()
    ensures FixEach(D5Recent(), ByViews, [V2, V1, V3, V4], V2, 2) == [V2, V1, V3, V4]
  {
    var d := D5Recent();
    var h' := [V2, V1, V3, V4];
    assert FixEach(d, ByViews, h', V2, 2) == FixEach(d, ByViews, h', V2, 3);
    assert FixEach(d, ByViews, h', V2, 3) == FixEach(d, ByViews, h', V2, 4);
  }

  lemma Step5RecentViews()
    ensures FixEach(D5Recent(), ByViews, [V1, V2, V3, V4], V2, 0) == [V2, V1, V3, V4]
  {
    var d := D5Recent();
    var h := [V1, V2, V3, V4];
    Step5RecentViewsDown();
    Step5RecentViewsUp();
    assert Fix(d, ByViews, h, 1) == [V2, V1, V3, V4];
    assert FixEach(d, ByViews, h, V2, 0) == FixEach(d, ByViews, h, V2, 1);
    Step5RecentViewsTail();
  }

  lemma Step5RecentTimes()
    ensures FixEach(D5Recent(), ByTime, [V4, V3, V2, V1], V2, 0) == [V2, V3, V4, V1]
  {
    Keys5Recent();
    var d := D5Recent();
    var t := [V4, V3, V2, V1];
    var t' := [V2, V3, V4, V1];
    assert Down(d, ByTime, t, 2, 4) == (t, 2);
    assert Swap(t, 0, 2) == t';
    assert Up(d, ByTime, t, 2) == Up(d, ByTime, t', 0);
    assert Fix(d, ByTime, t, 2) == t';
    assert FixEach(d, ByTime, t, V2, 0) == FixEach(d, ByTime, t, V2, 1);
    assert FixEach(d, ByTime, t, V2, 1) == FixEach(d, ByTime, t, V2, 2);
    assert FixEach(d, ByTime, t, V2, 2) == FixEach(d, ByTime, t', V2, 3);
    assert FixEach(d, ByTime, t', V2, 3) == FixEach(d, ByTime, t', V2, 4);
  }

  lemma Step5Recent()
    ensures Increment(S4Recent(), V2) == S5Recent()
  {
    Step5RecentViews();
    Step5RecentTimes();
  }

  lemma RecentReached()
    ensures IncrementAll(NewInmemoryRepo(), [V1, V2, V3, V4, V2]) == S5Recent()
  {
    Step1(); Step2(); Step3(); Step4Recent(); Step5Recent();
    Then(S4Recent(), V2, []);
    Then(S3(), V4, [V2]);
    Then(S2(), V3, [V4, V2]);
    Then(S1(), V2, [V3, V4, V2]);
    Then(NewInmemoryRepo(), V1, [V2, V3, V4, V2]);
  }

  lemma PopRecent1Down()
    ensures Down(D5Recent(), ByTime, [V1, V3, V4, V2], 0, 3) == ([V4, V3, V1, V2], 2)
  {
    Keys5Recent();
    assert Swap([V1, V3, V4, V2], 0, 2) == [V4, V3, V1, V2];
    assert Down(D5Recent(), ByTime, [V4, V3, V1, V2], 2, 3) == ([V4, V3, V1, V2], 2);
  }

  lemma PopRecent1Pass()
    ensures Down(D5Recent(), ByTime, Swap([V2, V3, V4, V1], 0, 3), 0, 3).0 == [V4, V3, V1, V2]
  {
    assert Swap([V2, V3, V4, V1], 0, 3) == [V1, V3, V4, V2];
    PopRecent1Down();
  }

  lemma PopRecent1()
    ensures Pop(D5Recent(), ByTime, [V2, V3, V4, V1]) == (V2, [V4, V3, V1])
  {
    PopRecent1Pass();
    PopBy(D5Recent(), ByTime, [V2, V3, V4, V1], [V4, V3, V1, V2]);
    assert [V4, V3, V1, V2][..3] == [V4, V3, V1];
  }

  lemma PopRecent2()
    ensures Pop(D5Recent(), ByTime, [V4, V3, V1]) == (V4, [V3, V1])
  {
    Keys5Recent();
    var d := D5Recent();
    var h0 := [V1, V3, V4];
    var h1 := [V3, V1, V4];
    assert Swap([V4, V3, V1], 0, 2) == h0;
    assert Swap(h0, 0, 1) == h1;
    assert Down(d, ByTime, h0, 0, 2) == Down(d, ByTime, h1, 1, 2);
    assert Down(d, ByTime, h1, 1, 2) == (h1, 1);
    assert h1[..2] == [V3, V1];
  }

  lemma PopRecent3()
    ensures Pop(D5Recent(), ByTime, [V3, V1]) == (V3, [V1])
  {
    Keys5Recent();
    var h1 := [V1, V3];
    assert Swap([V3, V1], 0, 1) == h1;
    assert Down(D5Recent(), ByTime, h1, 0, 1) == (h1, 0);
    assert h1[..1] == [V1];
  }

  lemma PopRecent4()
    ensures Pop(D5Recent(), ByTime, [V1]) == (V1, [])
  {
    assert Swap([V1], 0, 0) == [V1];
  }

  lemma PopRecentTwo()
    ensures PopN(D5Recent(), ByTime, [V2, V3, V4, V1], 2) == ([V2, V4], [V3, V1])
  {
    var d, h := D5Recent(), [V2, V3, V4, V1];
    PopRecent1();
    PopStep(d, ByTime, h, 1, [], h, V2, [V4, V3, V1]);
    assert [] + [V2] == [V2];
    PopRecent2();
    PopStep(d, ByTime, h, 2, [V2], [V4, V3, V1], V4, [V3, V1]);
    assert [V2] + [V4] == [V2, V4];
  }

  lemma PopRecentFour()
    ensures PopN(D5Recent(), ByTime, [V2, V3, V4, V1], 4) == ([V2, V4, V3, V1], [])
  {
    var d, h := D5Recent(), [V2, V3, V4, V1];
    PopRecentTwo();
    PopRecent3();
    PopStep(d, ByTime, h, 3, [V2, V4], [V3, V1], V3, [V1]);
    assert [V2, V4] + [V3] == [V2, V4, V3];
    PopRecent4();
    PopStep(d, ByTime, h, 4, [V2, V4, V3], [V1], V1, []);
    assert [V2, V4, V3] + [V1] == [V2, V4, V3, V1];
  }

  lemma RecentFourOfFinal()
    ensures GetRecentVideos(S5Recent(), 4)
         == [VideoInfo(V2, 2), VideoInfo(V4, 1), VideoInfo(V3, 1), VideoInfo(V1, 1)]
  {
    Keys5Recent();
    PopRecentFour();
    var d := D5Recent();
    assert GetRecentVideos(S5Recent(), 4) == Infos(d, [V2, V4, V3, V1]);
    Infos4(d, V2, V4, V3, V1);
    assert Info(d, V2) == VideoInfo(V2, 2);
    assert Info(d, V4) == VideoInfo(V4, 1);
    assert Info(d, V3) == VideoInfo(V3, 1);
    assert Info(d, V1) == VideoInfo(V1, 1);
  }

  /** GetRecentVideos(4) after video1, video2, video3, video4, video2: the
      re-incremented video2 first with 2, then video4, video3, video1 — the
      answer the test expects, given the repaired timeHeap loop. */
  lemma RecentFour()
    ensures GetRecentVideos(IncrementAll(NewInmemoryRepo(), [V1, V2, V3, V4, V2]), 4)
         == [VideoInfo(V2, 2), VideoInfo(V4, 1), VideoInfo(V3, 1), VideoInfo(V1, 1)]
  {
    RecentReached();
    RecentFourOfFinal();
  }

  // ---------------------------------------------------------------------
  // The same sequence under IncrementAsWritten

  /** For a new id the source's Increment and the repaired one agree. */
  lemma AsWrittenNewId(s: RepoState, id: string)
    requires |s.viewHeap| == |s.timeHeap| && id !in s.data
    ensures IncrementAsWritten(s, id) == Increment(s, id)
  {
  }

  function S5Written(): RepoState { RepoState(D5Recent(), [V2, V1, V3, V4], [V4, V3, V2, V1], 5) }

  lemma Step5WrittenViews()
    ensures FixViewHeapAtTimeIndices(D5Recent(), [V2, V1, V3, V4], [V4, V3, V2, V1], V2, 0) == [V2, V1, V3, V4]
  {
    Keys5Recent();
    var d := D5Recent();
    var h := [V2, V1, V3, V4];
    var t := [V4, V3, V2, V1];
    assert Down(d, ByViews, h, 2, 4) == (h, 2);
    assert Up(d, ByViews, h, 2) == h;
    assert Fix(d, ByViews, h, 2) == h;
    assert FixViewHeapAtTimeIndices(d, h, t, V2, 0) == FixViewHeapAtTimeIndices(d, h, t, V2, 1);
    assert FixViewHeapAtTimeIndices(d, h, t, V2, 1) == FixViewHeapAtTimeIndices(d, h, t, V2, 2);
    assert FixViewHeapAtTimeIndices(d, h, t, V2, 2) == FixViewHeapAtTimeIndices(d, h, t, V2, 3);
    assert FixViewHeapAtTimeIndices(d, h, t, V2, 3) == FixViewHeapAtTimeIndices(d, h, t, V2, 4);
  }

  lemma Step5Written()
    ensures IncrementAsWritten(S4Recent(), V2) == S5Written()
  {
    Step5RecentViews();
    Step5WrittenViews();
  }

  lemma WrittenFirstPopDown()
    ensures Down(D5Recent(), ByTime, [V1, V3, V2, V4], 0, 3) == ([V2, V3, V1, V4], 2)
  {
    Keys5Recent();
    assert Swap([V1, V3, V2, V4], 0, 2) == [V2, V3, V1, V4];
    assert Down(D5Recent(), ByTime, [V2, V3, V1, V4], 2, 3) == ([V2, V3, V1, V4], 2);
  }

  lemma WrittenFirstPop()
    ensures Pop(D5Recent(), ByTime, [V4, V3, V2, V1]).0 == V4
  {
    assert Swap([V4, V3, V2, V1], 0, 3) == [V1, V3, V2, V4];
    WrittenFirstPopDown();
  }

  lemma WrittenReached()
    ensures IncrementAllAsWritten(NewInmemoryRepo(), [V1, V2, V3, V4, V2]) == S5Written()
  {
    Step1(); Step2(); Step3(); Step4Recent();
    AsWrittenNewId(NewInmemoryRepo(), V1);
    AsWrittenNewId(S1(), V2);
    AsWrittenNewId(S2(), V3);
    AsWrittenNewId(S3(), V4);
    Step5Written();
    ThenAsWritten(S4Recent(), V2, []);
    ThenAsWritten(S3(), V4, [V2]);
    ThenAsWritten(S2(), V3, [V4, V2]);
    ThenAsWritten(S1(), V2, [V3, V4, V2]);
    ThenAsWritten(NewInmemoryRepo(), V1, [V2, V3, V4, V2]);
  }

  lemma WrittenRecentFirst()
    ensures GetRecentVideos(S5Written(), 4)[0] == VideoInfo(V4, 1)
  {
    var d := D5Recent();
    WrittenFirstPop();
    PopNFirst(d, ByTime, [V4, V3, V2, V1], 4);
    assert GetRecentVideos(S5Written(), 4)[0] == Info(d, V4);
  }

  /** With the source's loop, after video1, video2, video3, video4, video2 the
      timeHeap is no longer a heap (video2, updated last, sits below video4),
      and GetRecentVideos(4) reports video4 first although video2 was
      updated after it. */
  lemma AsWrittenRecentCounterexample()
    ensures var s := IncrementAllAsWritten(NewInmemoryRepo(), [V1, V2, V3, V4, V2]);
      && s == S5Written()
      && !Inv(s)
      && s.data[V2].lastUpdated > s.data[V4].lastUpdated
      && GetRecentVideos(s, 4)[0] == VideoInfo(V4, 1)
  {
    WrittenReached();
    WrittenRecentFirst();
    WrittenNotInv();
  }

  lemma WrittenNotInv()
    ensures !Inv(S5Written())
    ensures S5Written().data[V2].lastUpdated > S5Written().data[V4].lastUpdated
  {
    Keys5Recent();
    assert !ParentOk(D5Recent(), ByTime, S5Written().timeHeap, 2);
  }

  /** One step of IncrementAllAsWritten on a literal sequence. */
  lemma ThenAsWritten(s: RepoState, x: string, xs: seq<string>)
    requires |s.viewHeap| == |s.timeHeap|
    ensures IncrementAllAsWritten(s, [x] + xs) == IncrementAllAsWritten(IncrementAsWritten(s, x), xs)
  {
    assert ([x] + xs)[1..] == xs;
  }

  lemma Infos4(data: map<string, VideoData>, a: string, b: string, c: string, e: string)
    ensures Infos(data, [a, b, c, e]) == [Info(data, a), Info(data, b), Info(data, c), Info(data, e)]
  {
  }

  /** Pop, given what its down pass produces. */
  lemma PopBy(data: map<string, VideoData>, ord: Order, h: seq<string>, h1: seq<string>)
    requires |h| > 0 && Down(data, ord, Swap(h, 0, |h| - 1), 0, |h| - 1).0 == h1
    ensures |h1| == |h| && Pop(data, ord, h) == (h1[|h| - 1], h1[..|h| - 1])
  {
  }

  /** One step of PopN: the n-th Pop, taken from what the first n-1 left. */
  lemma PopStep(data: map<string, VideoData>, ord: Order, h: seq<string>, n: nat,
                xs: seq<string>, h1: seq<string>, x: string, h2: seq<string>)
    requires 0 < n <= |h|
    requires PopN(data, ord, h, n - 1) == (xs, h1) && Pop(data, ord, h1) == (x, h2)
    ensures PopN(data, ord, h, n) == (xs + [x], h2)
  {
  }

  /** One step of IncrementAll on a literal sequence. */
  lemma Then(s: RepoState, x: string, xs: seq<string>)
    ensures IncrementAll(s, [x] + xs) == IncrementAll(Increment(s, x), xs)
  {
    assert ([x] + xs)[1..] == xs;
  }

  // ---------------------------------------------------------------------
  // The service's tests (service_test.go) over the in-memory store

  /** Three increments of video1, then the service's GetView: 3, no error. */
  lemma ServiceGetView()
    ensures ViewService.GetView(IncrementAll(NewInmemoryRepo(), [V1, V1, V1]), V1) == (3, None)
  {
    CountsFromNew([V1, V1, V1], V1);
  }

  /** Three increments of video1 and one of video2: the service's snapshot is
      {video1: 3, video2: 1}. */
  lemma ServiceGetAllViews()
    ensures ViewService.GetAllViews(IncrementAll(NewInmemoryRepo(), [V1, V1, V1, V2])) == map[V1 := 3, V2 := 1]
  {
    AllViewsFromNew([V1, V1, V1, V2]);
    CountsMap();
  }

  lemma CountsMap()
    ensures (map x | x in [V1, V1, V1, V2] :: multiset([V1, V1, V1, V2])[x]) == map[V1 := 3, V2 := 1]
  {
    var ids := [V1, V1, V1, V2];
    assert multiset(ids)[V1] == 3 && multiset(ids)[V2] == 1;
    assert (set x | x in ids) == {V1, V2};
  }

  /** The service's Increment on a new store reports no error. */
  lemma ServiceIncrement()
    ensures ViewService.Increment(NewInmemoryRepo(), V1).0 == None
  {
  }

  /** The service's top three are the store's. */
  lemma ServiceTopThree()
    ensures ViewService.GetTopVideos(IncrementAll(NewInmemoryRepo(), [V1, V2, V3, V3, V3]), 3)
         == [VideoInfo(V3, 3), VideoInfo(V1, 1), VideoInfo(V2, 1)]
  {
    TopThree();
  }
}

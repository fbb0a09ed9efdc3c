/** The validation service of viewservice/service.go over the in-memory
    store: Increment and GetView reject an empty id before touching the
    store; GetAllViews, GetTopVideos and GetRecentVideos hand their call
    straight to it. The store is passed in and out as a RepoSpec.RepoState. */
module ViewService {
  import opened Videos
  import RepoSpec

  /** ErrInvalidArgument. */
  datatype ServiceError = ErrInvalidArgument

  /** The error's text. */
  function Message(e: ServiceError): string
  {
    match e
    case ErrInvalidArgument => "Invalid Argument"
  }

  /** Increment: an empty id is an error and the store is left as it was;
      any other id goes to the store. */
  function Increment(s: RepoSpec.RepoState, videoId: string): (Option<ServiceError>, RepoSpec.RepoState)
  {
    if |videoId| < 1 then (Some(ErrInvalidArgument), s)
    else (None, RepoSpec.Increment(s, videoId))
  }

  /** GetView: an empty id is (0, ErrInvalidArgument); any other id is the
      store's count. */
  function GetView(s: RepoSpec.RepoState, videoId: string): (nat, Option<ServiceError>)
  {
    if |videoId| < 1 then (0, Some(ErrInvalidArgument))
    else (RepoSpec.GetView(s, videoId), None)
  }

  function GetAllViews(s: RepoSpec.RepoState): map<string, nat>
  {
    RepoSpec.GetAllViews(s)
  }

  /** No check on n: a negative n reaches the store, which requires n >= 0
      (Go's make panics on a negative length). */
  function GetTopVideos(s: RepoSpec.RepoState, n: int): seq<VideoInfo>
    requires n >= 0
  {
    RepoSpec.GetTopVideos(s, n)
  }

  function GetRecentVideos(s: RepoSpec.RepoState, n: int): seq<VideoInfo>
    requires n >= 0
  {
    RepoSpec.GetRecentVideos(s, n)
  }

  /** The service's Increment reports an error exactly for the empty id, and
      then leaves the store unchanged; otherwise it is the store's Increment. */
  lemma IncrementValidates(s: RepoSpec.RepoState, videoId: string)
    ensures Increment(s, videoId).0.Some? <==> videoId == []
    ensures videoId == [] ==> Increment(s, videoId) == (Some(ErrInvalidArgument), s)
    ensures videoId != [] ==> Increment(s, videoId).1 == RepoSpec.Increment(s, videoId)
  {
  }

  /** The service's GetView is (0, ErrInvalidArgument) exactly for the empty
      id; otherwise it is the store's count with no error. */
  lemma GetViewValidates(s: RepoSpec.RepoState, videoId: string)
    ensures GetView(s, videoId).1.Some? <==> videoId == []
    ensures videoId == [] ==> GetView(s, videoId) == (0, Some(ErrInvalidArgument))
    ensures videoId != [] ==> GetView(s, videoId) == (RepoSpec.GetView(s, videoId), None)
  {
  }

  /** Through the service, an increment keeps the store's invariant and adds
      one to the count the service's GetView reports for that id, and only
      for that id; an empty id changes nothing. */
  lemma IncrementThenGetView(s: RepoSpec.RepoState, videoId: string, x: string)
    requires RepoSpec.Inv(s)
    ensures RepoSpec.Inv(Increment(s, videoId).1)
    ensures GetView(Increment(s, videoId).1, x).0 == GetView(s, x).0 + (if x == videoId && x != [] then 1 else 0)
  {
    if videoId != [] {
      RepoSpec.IncrementPreservesInv(s, videoId);
      RepoSpec.IncrementCounts(s, videoId, x);
    }
  }

  /** The queries pass through: the service answers exactly as the store. */
  lemma QueriesPassThrough(s: RepoSpec.RepoState, n: int)
    requires n >= 0
    ensures GetAllViews(s) == RepoSpec.GetAllViews(s)
    ensures GetTopVideos(s, n) == RepoSpec.GetTopVideos(s, n)
    ensures GetRecentVideos(s, n) == RepoSpec.GetRecentVideos(s, n)
  {
  }
}

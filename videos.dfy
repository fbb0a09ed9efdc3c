/** The records shared by the repository, the service and the command line. */
module Videos {

  /** The store's per-video record (videoData): its id, its view count and the
      logical time of its last increment (the model's stand-in for time.Time). */
  datatype VideoData = VideoData(id: string, views: nat, lastUpdated: nat)

  /** One entry of a query result (model.VideoInfo). */
  datatype VideoInfo = VideoInfo(id: string, views: nat)

  /** Which of the two heaps: viewHeap orders by Views, timeHeap by LastUpdated. */
  datatype Order = ByViews | ByTime

  datatype Option<T> = None | Some(value: T)

  /** The field a heap of the given order compares. */
  function Key(v: VideoData, ord: Order): nat
  {
    match ord
    case ByViews => v.views
    case ByTime => v.lastUpdated
  }

  /** The key of the record that `id` refers to. Both heaps hold only ids that
      the map holds, so the fallback 0 is never compared; it keeps the heap
      functions total. */
  function KeyOf(data: map<string, VideoData>, ord: Order, id: string): nat
  {
    if id in data then Key(data[id], ord) else 0
  }
}

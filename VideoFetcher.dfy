/**
  The video fetcher of main.py: channel totals with absent counts defaulted
  to 0, and the paginated fetch-and-cap loop that turns the uploads playlist
  into at most `MaxVideosToFetch` video records.

  The HTTP calls are replaced by a page oracle: `pages[k]` is the response
  to the k-th playlistItems request, together with the videos response for
  the ids that page lists.
 */
module VideoFetcher {
  import opened Wrappers

  // ---------------------------------------------------------------------
  // Channel totals (main.py:46-49)
  // ---------------------------------------------------------------------

  /** The `statistics` object of the channel response, counts already parsed. */
  datatype ChannelStatistics = ChannelStatistics(
    subscriberCount: Option<int>,
    viewCount: Option<int>,
    videoCount: Option<int>)

  datatype ChannelTotals = ChannelTotals(subscribers: int, views: int, videos: int)

  /** `channel.get(key, 0)`: an absent count reads as 0. */
  function CountOrZero(c: Option<int>): (r: int)
    ensures c.Some? ==> r == c.value
    ensures r == 0 <==> c == None || c == Some(0)
  {
    match c
    case Some(n) => n
    case None => 0
  }

  /** The subscriber, view and video totals of the channel, each absent count read as 0. */
  function Totals(s: ChannelStatistics): (t: ChannelTotals)
    ensures s.subscriberCount.Some? ==> t.subscribers == s.subscriberCount.value
    ensures s.viewCount.Some? ==> t.views == s.viewCount.value
    ensures s.videoCount.Some? ==> t.videos == s.videoCount.value
    ensures s.subscriberCount.None? ==> t.subscribers == 0
    ensures s.viewCount.None? ==> t.views == 0
    ensures s.videoCount.None? ==> t.videos == 0
  {
    ChannelTotals(CountOrZero(s.subscriberCount), CountOrZero(s.viewCount), CountOrZero(s.videoCount))
  }

  // ---------------------------------------------------------------------
  // Responses and records
  // ---------------------------------------------------------------------

  /** The cap on the number of records one run collects. */
  const MaxVideosToFetch: nat := 20

  /** The marker stored for a statistic the videos response does not carry. */
  const NotAvailable: string := "N/A"

  /**
    The three counts of a video's `statistics` object that a record keeps
    (`viewCount`, `likeCount`, `commentCount`), each of which the response
    may leave out. The API sends counts as strings.
   */
  datatype Statistics = Statistics(viewCount: Option<string>, likeCount: Option<string>, commentCount: Option<string>)

  /** One item of a videos response: its `id`, `snippet.title` and `statistics`. */
  datatype Video = Video(id: string, title: string, statistics: Statistics)

  /**
    One playlistItems response: the `contentDetails.videoId` of each item,
    the items of the videos response requested for those ids, and the
    `nextPageToken`, if the response has one.
   */
  datatype Page = Page(itemVideoIds: seq<string>, videos: seq<Video>, nextPageToken: Option<string>)

  /** The `video_info` record built for each video; every field is always present. */
  datatype VideoRecord = VideoRecord(
    dateFetched: string,
    title: string,
    videoId: string,
    views: string,
    likes: string,
    comments: string)

  /** A request issued to the API, in issue order. */
  datatype Request =
    | PlaylistItems(pageToken: Option<string>)
    | Videos(ids: seq<string>)

  /** `statistics.get(key, 'N/A')` */
  function OrNotAvailable(s: Option<string>): string {
    match s
    case Some(v) => v
    case None => NotAvailable
  }

  /** The record of one video, stamped with the run's single fetch date. */
  function MakeRecord(date: string, v: Video): (r: VideoRecord)
    ensures r.dateFetched == date && r.title == v.title && r.videoId == v.id
    ensures v.statistics.viewCount.Some? ==> r.views == v.statistics.viewCount.value
    ensures v.statistics.likeCount.Some? ==> r.likes == v.statistics.likeCount.value
    ensures v.statistics.commentCount.Some? ==> r.comments == v.statistics.commentCount.value
    ensures v.statistics.viewCount.None? ==> r.views == NotAvailable
    ensures v.statistics.likeCount.None? ==> r.likes == NotAvailable
    ensures v.statistics.commentCount.None? ==> r.comments == NotAvailable
  {
    VideoRecord(
      date, v.title, v.id,
      OrNotAvailable(v.statistics.viewCount),
      OrNotAvailable(v.statistics.likeCount),
      OrNotAvailable(v.statistics.commentCount))
  }

  /** A record field read back as a statistic: the marker reads as absent. */
  function ReadBack(field: string): Option<string> {
    if field == NotAvailable then None else Some(field)
  }

  /** The statistics a record holds, read back from its three count fields. */
  function RecordStatistics(r: VideoRecord): Statistics {
    Statistics(ReadBack(r.views), ReadBack(r.likes), ReadBack(r.comments))
  }

  /** No count the response carries is itself the literal marker. */
  predicate NoMarker(s: Statistics) {
    s.viewCount != Some(NotAvailable) && s.likeCount != Some(NotAvailable)
    && s.commentCount != Some(NotAvailable)
  }

  /**
    Building a record loses no statistic and invents none: reading the record
    back gives exactly the statistics the video carried, as long as no count
    is itself the literal marker.
   */
  lemma RecordKeepsStatistics(date: string, v: Video)
    requires NoMarker(v.statistics)
    ensures RecordStatistics(MakeRecord(date, v)) == v.statistics
  {
  }

  /** The records of a sequence of videos, in the same order. */
  function Records(date: string, vs: seq<Video>): (rs: seq<VideoRecord>)
    ensures |rs| == |vs|
    decreases |vs|
  {
    if |vs| == 0 then [] else Records(date, vs[..|vs| - 1]) + [MakeRecord(date, vs[|vs| - 1])]
  }

  /** The i-th record is the record of the i-th video: nothing is reordered, dropped or merged. */
  lemma {:induction false} RecordsAt(date: string, vs: seq<Video>, i: nat)
    requires i < |vs|
    ensures Records(date, vs)[i] == MakeRecord(date, vs[i])
    decreases |vs|
  {
    if i < |vs| - 1 {
      RecordsAt(date, vs[..|vs| - 1], i);
    }
  }

  /** Records are built video by video, so the records of a concatenation concatenate. */
  lemma RecordsConcat(date: string, a: seq<Video>, b: seq<Video>)
    ensures Records(date, a + b) == Records(date, a) + Records(date, b)
  {
    var l, r := Records(date, a + b), Records(date, a) + Records(date, b);
    forall i | 0 <= i < |l| ensures l[i] == r[i] {
      RecordsAt(date, a + b, i);
      if i < |a| {
        RecordsAt(date, a, i);
      } else {
        RecordsAt(date, b, i - |a|);
      }
    }
  }

  // ---------------------------------------------------------------------
  // The pagination specification (main.py:55-120)
  // ---------------------------------------------------------------------

  /** The videos a page contributes: a videos request is made only when the page lists an item. */
  function PageVideos(p: Page): seq<Video> {
    if |p.itemVideoIds| == 0 then [] else p.videos
  }

  /** The videos of the first n pages, page after page, in response order. */
  function FlatVideos(pages: seq<Page>, n: nat): seq<Video>
    requires n <= |pages|
    decreases n
  {
    if n == 0 then [] else FlatVideos(pages, n - 1) + PageVideos(pages[n - 1])
  }

  /** The number of videos of the first n pages: what `video_count` would reach without the cap. */
  function VideosUpTo(pages: seq<Page>, n: nat): nat
    requires n <= |pages|
    decreases n
  {
    if n == 0 then 0 else VideosUpTo(pages, n - 1) + |PageVideos(pages[n - 1])|
  }

  /** The count is the length of the videos of those pages. */
  lemma {:induction false} FlatVideosLength(pages: seq<Page>, n: nat)
    requires n <= |pages|
    ensures |FlatVideos(pages, n)| == VideosUpTo(pages, n)
    decreases n
  {
    if n > 0 {
      FlatVideosLength(pages, n - 1);
    }
  }

  /** The count only grows from page to page. */
  lemma {:induction false} VideosUpToMonotonic(pages: seq<Page>, j: nat, n: nat)
    requires j <= n <= |pages|
    ensures VideosUpTo(pages, j) <= VideosUpTo(pages, n)
    decreases n
  {
    if j < n {
      VideosUpToMonotonic(pages, j, n - 1);
    }
  }

  /** The first n elements of s, or all of s when it is shorter. */
  function Take<T>(s: seq<T>, n: nat): seq<T> {
    if |s| <= n then s else s[..n]
  }

  /** A finite token chain: at least one response, and the last one has no continuation token. */
  predicate ValidChain(pages: seq<Page>) {
    |pages| > 0 && pages[|pages| - 1].nextPageToken.None?
  }

  /**
    The loop stops after the k-th response (0-based) when the videos of the
    first k + 1 pages reach the cap or that response carries no token.
   */
  predicate StopsAfter(pages: seq<Page>, k: nat)
    requires k < |pages|
  {
    VideosUpTo(pages, k + 1) >= MaxVideosToFetch || pages[k].nextPageToken.None?
  }

  /** The first response at or after `from` after which the loop stops. */
  function FirstStop(pages: seq<Page>, from: nat): (r: nat)
    requires ValidChain(pages) && from < |pages|
    ensures from <= r < |pages|
    ensures StopsAfter(pages, r)
    decreases |pages| - from
  {
    if StopsAfter(pages, from) then from else FirstStop(pages, from + 1)
  }

  /** No response between `from` and the first stop stops the loop. */
  lemma {:induction false} FirstStopIsFirst(pages: seq<Page>, from: nat, k: nat)
    requires ValidChain(pages) && from <= k < |pages| && k < FirstStop(pages, from)
    ensures !StopsAfter(pages, k)
    decreases |pages| - from
  {
    if from < k {
      FirstStopIsFirst(pages, from + 1, k);
    }
  }

  /** A response that stops the loop, with none before it from `from` on, is the first stop. */
  lemma {:induction false} FirstStopAt(pages: seq<Page>, from: nat, k: nat)
    requires ValidChain(pages) && from <= k < |pages|
    requires StopsAfter(pages, k)
    requires forall j :: from <= j < k ==> !StopsAfter(pages, j)
    ensures FirstStop(pages, from) == k
    decreases k - from
  {
    if from < k {
      FirstStopAt(pages, from + 1, k);
    }
  }

  /**
    The number of playlistItems requests a run makes: the loop stops after
    the last of them.
   */
  function PagesRequested(pages: seq<Page>): (n: nat)
    requires ValidChain(pages)
    ensures 1 <= n <= |pages|
    ensures StopsAfter(pages, n - 1)
  {
    FirstStop(pages, 0) + 1
  }

  /**
    The records a run collects: those of the first `MaxVideosToFetch` videos
    of the requested pages, in fetch order, without deduplication.
   */
  function Collected(pages: seq<Page>, date: string): (rs: seq<VideoRecord>)
    requires ValidChain(pages)
    ensures |rs| <= MaxVideosToFetch
    ensures var all := FlatVideos(pages, PagesRequested(pages));
            |rs| == if |all| < MaxVideosToFetch then |all| else MaxVideosToFetch
  {
    Records(date, Take(FlatVideos(pages, PagesRequested(pages)), MaxVideosToFetch))
  }

  /** `if next_page_token:`: the token is sent only when it is a non-empty string. */
  function PageTokenParam(t: Option<string>): Option<string> {
    if t.Some? && t.value != "" then t else None
  }

  /** The value of `next_page_token` when the k-th page (0-based) is requested. */
  function TokenBefore(pages: seq<Page>, k: nat): Option<string>
    requires k < |pages|
  {
    if k == 0 then None else pages[k - 1].nextPageToken
  }

  /** The requests issued for the k-th page. */
  function PageRequests(pages: seq<Page>, k: nat): seq<Request>
    requires k < |pages|
  {
    [PlaylistItems(PageTokenParam(TokenBefore(pages, k)))]
    + (if |pages[k].itemVideoIds| == 0 then [] else [Videos(pages[k].itemVideoIds)])
  }

  /** The requests issued for the first n pages, in issue order. */
  function RequestTrace(pages: seq<Page>, n: nat): seq<Request>
    requires n <= |pages|
    decreases n
  {
    if n == 0 then [] else RequestTrace(pages, n - 1) + PageRequests(pages, n - 1)
  }

  /** Consuming a page up to the cap keeps exactly the first `MaxVideosToFetch` videos. */
  lemma TakeAtCap(before: seq<Video>, page: seq<Video>, consumed: nat)
    requires consumed <= |page| && |before| + consumed <= MaxVideosToFetch
    requires consumed == |page| || |before| + consumed == MaxVideosToFetch
    ensures Take(before + page, MaxVideosToFetch) == before + page[..consumed]
  {
    if consumed < |page| {
      assert (before + page)[..MaxVideosToFetch] == before + page[..consumed];
    } else {
      assert page[..consumed] == page;
    }
  }

  /**
    One page of the loop: when the records so far are those of the first k
    pages and the k-th page is consumed up to the cap, the records are those
    of the first `MaxVideosToFetch` videos of the first k + 1 pages.
   */
  lemma PageStep(pages: seq<Page>, date: string, k: nat, consumed: nat)
    requires k < |pages|
    requires consumed <= |PageVideos(pages[k])|
    requires |FlatVideos(pages, k)| + consumed <= MaxVideosToFetch
    requires consumed == |PageVideos(pages[k])| || |FlatVideos(pages, k)| + consumed == MaxVideosToFetch
    ensures Records(date, Take(FlatVideos(pages, k + 1), MaxVideosToFetch))
         == Records(date, FlatVideos(pages, k)) + Records(date, PageVideos(pages[k])[..consumed])
  {
    TakeAtCap(FlatVideos(pages, k), PageVideos(pages[k]), consumed);
    RecordsConcat(date, FlatVideos(pages, k), PageVideos(pages[k])[..consumed]);
  }

  /** The loop's stopping point is the first response after which it stops. */
  lemma StopIsFirst(pages: seq<Page>, k: nat)
    requires ValidChain(pages) && k < PagesRequested(pages)
    requires StopsAfter(pages, k)
    ensures PagesRequested(pages) == k + 1
  {
    if k + 1 < PagesRequested(pages) {
      FirstStopIsFirst(pages, 0, k);
      assert false;
    }
  }

  /** The loop goes on past a response after which it does not stop. */
  lemma ContinuesPast(pages: seq<Page>, k: nat)
    requires ValidChain(pages) && k < PagesRequested(pages)
    requires !StopsAfter(pages, k)
    ensures k + 1 < PagesRequested(pages)
  {
  }

  /** The result of a run: `all_videos` and the requests issued. */
  datatype Outcome = Outcome(records: seq<VideoRecord>, requests: seq<Request>)

  /** The records after one page: its videos are appended until the count reaches the cap. */
  function StepRecords(date: string, records: seq<VideoRecord>, page: Page): seq<VideoRecord>
    requires |records| <= MaxVideosToFetch
  {
    records + Records(date, Take(PageVideos(page), MaxVideosToFetch - |records|))
  }

  /**
    The requests after one page: the playlistItems request with the token
    to send, then the videos request when the page lists an item.
   */
  function StepRequests(requests: seq<Request>, token: Option<string>, page: Page): seq<Request> {
    requests + [PlaylistItems(PageTokenParam(token))]
    + (if |page.itemVideoIds| == 0 then [] else [Videos(page.itemVideoIds)])
  }

  /**
    The loop as the source runs it, from the k-th response on, given the
    records and requests so far and the token to send: it goes on only
    while under the cap and the response carries a token.
   */
  function Run(pages: seq<Page>, date: string, k: nat, records: seq<VideoRecord>,
               requests: seq<Request>, token: Option<string>): Outcome
    requires ValidChain(pages) && k < |pages| && |records| < MaxVideosToFetch
    decreases |pages| - k
  {
    var records' := StepRecords(date, records, pages[k]);
    var requests' := StepRequests(requests, token, pages[k]);
    if |records'| < MaxVideosToFetch && pages[k].nextPageToken.Some? then
      Run(pages, date, k + 1, records', requests', pages[k].nextPageToken)
    else
      Outcome(records', requests')
  }

  /** The run after a page under the cap whose response carries a token goes on from the next page. */
  lemma RunGoesOn(pages: seq<Page>, date: string, k: nat, records: seq<VideoRecord>,
                  requests: seq<Request>, token: Option<string>,
                  records': seq<VideoRecord>, requests': seq<Request>)
    requires ValidChain(pages) && k < |pages| && |records| < MaxVideosToFetch
    requires records' == StepRecords(date, records, pages[k])
    requires requests' == StepRequests(requests, token, pages[k])
    requires |records'| < MaxVideosToFetch && pages[k].nextPageToken.Some?
    ensures k + 1 < |pages|
    ensures Run(pages, date, k, records, requests, token)
         == Run(pages, date, k + 1, records', requests', pages[k].nextPageToken)
  {
  }

  /** The run ends after a page that reaches the cap or carries no token. */
  lemma RunStops(pages: seq<Page>, date: string, k: nat, records: seq<VideoRecord>,
                 requests: seq<Request>, token: Option<string>,
                 records': seq<VideoRecord>, requests': seq<Request>)
    requires ValidChain(pages) && k < |pages| && |records| < MaxVideosToFetch
    requires records' == StepRecords(date, records, pages[k])
    requires requests' == StepRequests(requests, token, pages[k])
    requires |records'| >= MaxVideosToFetch || pages[k].nextPageToken.None?
    ensures Run(pages, date, k, records, requests, token) == Outcome(records', requests')
  {
  }

  /** One step on the closed form of the records. */
  lemma RecordsStep(pages: seq<Page>, date: string, k: nat)
    requires k < |pages| && |FlatVideos(pages, k)| < MaxVideosToFetch
    ensures StepRecords(date, Records(date, FlatVideos(pages, k)), pages[k])
         == Records(date, Take(FlatVideos(pages, k + 1), MaxVideosToFetch))
  {
    var room := MaxVideosToFetch - |FlatVideos(pages, k)|;
    var consumed := if |PageVideos(pages[k])| <= room then |PageVideos(pages[k])| else room;
    PageStep(pages, date, k, consumed);
    assert Take(PageVideos(pages[k]), room) == PageVideos(pages[k])[..consumed];
  }

  /** One step on the request trace. */
  lemma RequestsStep(pages: seq<Page>, k: nat)
    requires k < |pages|
    ensures StepRequests(RequestTrace(pages, k), TokenBefore(pages, k), pages[k])
         == RequestTrace(pages, k + 1)
  {
  }

  /** Where the loop goes on, one step of the run moves one page further along the closed form. */
  lemma ClosedGoesOn(pages: seq<Page>, date: string, k: nat)
    requires ValidChain(pages) && k < |pages|
    requires |FlatVideos(pages, k)| < MaxVideosToFetch
    requires !StopsAfter(pages, k)
    ensures k + 1 < |pages| && |FlatVideos(pages, k + 1)| < MaxVideosToFetch
    ensures Run(pages, date, k, Records(date, FlatVideos(pages, k)), RequestTrace(pages, k), TokenBefore(pages, k))
         == Run(pages, date, k + 1, Records(date, FlatVideos(pages, k + 1)), RequestTrace(pages, k + 1),
                TokenBefore(pages, k + 1))
  {
    FlatVideosLength(pages, k + 1);
    RecordsStep(pages, date, k);
    RequestsStep(pages, k);
    assert Take(FlatVideos(pages, k + 1), MaxVideosToFetch) == FlatVideos(pages, k + 1);
    RunGoesOn(pages, date, k, Records(date, FlatVideos(pages, k)), RequestTrace(pages, k), TokenBefore(pages, k),
              Records(date, FlatVideos(pages, k + 1)), RequestTrace(pages, k + 1));
  }

  /** Where the loop stops, the run ends with the closed form's records and request trace. */
  lemma ClosedStops(pages: seq<Page>, date: string, k: nat)
    requires ValidChain(pages) && k + 1 == PagesRequested(pages)
    requires |FlatVideos(pages, k)| < MaxVideosToFetch
    requires StopsAfter(pages, k)
    ensures Run(pages, date, k, Records(date, FlatVideos(pages, k)), RequestTrace(pages, k), TokenBefore(pages, k))
         == Outcome(Collected(pages, date), RequestTrace(pages, PagesRequested(pages)))
  {
    FlatVideosLength(pages, k + 1);
    RecordsStep(pages, date, k);
    RequestsStep(pages, k);
    RunStops(pages, date, k, Records(date, FlatVideos(pages, k)), RequestTrace(pages, k), TokenBefore(pages, k),
             Collected(pages, date), RequestTrace(pages, PagesRequested(pages)));
  }

  /**
    The step-by-step run and the closed form agree: from any point the loop
    actually reaches, running on yields the first `MaxVideosToFetch` records
    of the requested pages and the request trace of exactly those pages.
   */
  lemma {:induction false} RunFrom(pages: seq<Page>, date: string, k: nat)
    requires ValidChain(pages) && k < PagesRequested(pages)
    requires |FlatVideos(pages, k)| < MaxVideosToFetch
    ensures Run(pages, date, k, Records(date, FlatVideos(pages, k)), RequestTrace(pages, k), TokenBefore(pages, k))
         == Outcome(Collected(pages, date), RequestTrace(pages, PagesRequested(pages)))
    decreases |pages| - k
  {
    if StopsAfter(pages, k) {
      StopIsFirst(pages, k);
      ClosedStops(pages, date, k);
    } else {
      ContinuesPast(pages, k);
      ClosedGoesOn(pages, date, k);
      RunFrom(pages, date, k + 1);
    }
  }

  // ---------------------------------------------------------------------
  // The loop itself
  // ---------------------------------------------------------------------

  /**
    The inner `for video in videos_data['items']` loop: append one record
    per video, in response order, until the count reaches the cap; the rest
    of the response is dropped.
   */
  method AppendVideos(allVideos: seq<VideoRecord>, videoCount: nat, items: seq<Video>, currentDate: string)
    returns (allVideos': seq<VideoRecord>, videoCount': nat, consumed: nat)
    requires videoCount == |allVideos| <= MaxVideosToFetch
    ensures consumed == if |items| <= MaxVideosToFetch - videoCount then |items| else MaxVideosToFetch - videoCount
    ensures videoCount' == |allVideos'| == videoCount + consumed <= MaxVideosToFetch
    ensures allVideos' == allVideos + Records(currentDate, Take(items, MaxVideosToFetch - videoCount))
  {
    allVideos', videoCount' := allVideos, videoCount;
    var i := 0;
    while i < |items|
      invariant 0 <= i <= |items|
      invariant videoCount' == |allVideos'| == videoCount + i <= MaxVideosToFetch
      invariant allVideos' == allVideos + Records(currentDate, items[..i])
    {
      if videoCount' >= MaxVideosToFetch {
        break;
      }
      assert items[..i + 1][..i] == items[..i];
      allVideos' := allVideos' + [MakeRecord(currentDate, items[i])];
      videoCount' := videoCount' + 1;
      i := i + 1;
    }
    consumed := i;
    assert Take(items, MaxVideosToFetch - videoCount) == items[..consumed];
  }

  /**
    One pass of the outer loop body before its stopping test: request the
    page with the current token, and when it lists items, request their
    details and append their records.
   */
  method FetchPage(allVideos: seq<VideoRecord>, videoCount: nat, requests: seq<Request>,
                   nextPageToken: Option<string>, searchData: Page, currentDate: string)
    returns (allVideos': seq<VideoRecord>, videoCount': nat, requests': seq<Request>)
    requires videoCount == |allVideos| <= MaxVideosToFetch
    ensures videoCount' == |allVideos'| <= MaxVideosToFetch
    ensures allVideos' == StepRecords(currentDate, allVideos, searchData)
    ensures requests' == StepRequests(requests, nextPageToken, searchData)
  {
    requests' := requests + [PlaylistItems(PageTokenParam(nextPageToken))];
    var videoIds := searchData.itemVideoIds;
    if |videoIds| > 0 {
      requests' := requests' + [Videos(videoIds)];
      var consumed;
      allVideos', videoCount', consumed := AppendVideos(allVideos, videoCount, searchData.videos, currentDate);
    } else {
      allVideos', videoCount' := allVideos, videoCount;
      assert requests' + [] == requests';
      assert Records(currentDate, Take(PageVideos(searchData), MaxVideosToFetch - videoCount)) == [];
    }
  }

  /**
    The top-level `while` loop of main.py with the page oracle in place of
    the HTTP calls. It returns `all_videos`, the final `video_count` and the
    requests it issued.
   */
  method FetchVideos(pages: seq<Page>, currentDate: string)
    returns (allVideos: seq<VideoRecord>, videoCount: nat, requests: seq<Request>)
    requires ValidChain(pages)
    ensures videoCount == |allVideos| <= MaxVideosToFetch
    ensures allVideos == Collected(pages, currentDate)
    ensures requests == RequestTrace(pages, PagesRequested(pages))
  {
    var nextPageToken: Option<string> := None;
    videoCount := 0;
    allVideos := [];
    requests := [];
    RunFrom(pages, currentDate, 0);
    ghost var outcome := Run(pages, currentDate, 0, allVideos, requests, nextPageToken);
    var fetched: nat := 0;
    while videoCount < MaxVideosToFetch
      invariant fetched < |pages|
      invariant videoCount == |allVideos| < MaxVideosToFetch
      invariant Run(pages, currentDate, fetched, allVideos, requests, nextPageToken) == outcome
      decreases |pages| - fetched
    {
      var searchData := pages[fetched];
      ghost var recordsBefore, requestsBefore := allVideos, requests;
      allVideos, videoCount, requests := FetchPage(allVideos, videoCount, requests, nextPageToken, searchData, currentDate);
      if videoCount < MaxVideosToFetch && searchData.nextPageToken.Some? {
        RunGoesOn(pages, currentDate, fetched, recordsBefore, requestsBefore, nextPageToken, allVideos, requests);
        nextPageToken := searchData.nextPageToken;
        fetched := fetched + 1;
      } else {
        RunStops(pages, currentDate, fetched, recordsBefore, requestsBefore, nextPageToken, allVideos, requests);
        break;
      }
    }
  }

  // ---------------------------------------------------------------------
  // What a run collects
  // ---------------------------------------------------------------------

  /** Pages are consumed one after another: the videos of fewer pages are a prefix of those of more. */
  lemma {:induction false} FlatVideosPrefix(pages: seq<Page>, j: nat, n: nat)
    requires j <= n <= |pages|
    ensures FlatVideos(pages, j) <= FlatVideos(pages, n)
    decreases n
  {
    if j < n {
      FlatVideosPrefix(pages, j, n - 1);
    }
  }

  /** The i-th video of the j-th page sits right after the videos of the pages before it. */
  lemma FlatVideosAt(pages: seq<Page>, j: nat, n: nat, i: nat)
    requires j < n <= |pages| && i < |PageVideos(pages[j])|
    ensures |FlatVideos(pages, j)| + i < |FlatVideos(pages, n)|
    ensures FlatVideos(pages, n)[|FlatVideos(pages, j)| + i] == PageVideos(pages[j])[i]
  {
    FlatVideosPrefix(pages, j + 1, n);
  }

  /**
    Records are in fetch order, page after page: the i-th video of the j-th
    requested page gives the collected record at offset
    |FlatVideos(pages, j)| + i, when that offset is under the cap.
   */
  lemma CollectedInFetchOrder(pages: seq<Page>, date: string, j: nat, i: nat)
    requires ValidChain(pages) && j < PagesRequested(pages) && i < |PageVideos(pages[j])|
    requires |FlatVideos(pages, j)| + i < MaxVideosToFetch
    ensures |FlatVideos(pages, j)| + i < |Collected(pages, date)|
    ensures Collected(pages, date)[|FlatVideos(pages, j)| + i] == MakeRecord(date, PageVideos(pages[j])[i])
  {
    var all := FlatVideos(pages, PagesRequested(pages));
    FlatVideosAt(pages, j, PagesRequested(pages), i);
    RecordsAt(date, Take(all, MaxVideosToFetch), |FlatVideos(pages, j)| + i);
  }

  /** Every collected record is the record of a fetched video, in the same position. */
  lemma CollectedRecordAt(pages: seq<Page>, date: string, i: nat)
    requires ValidChain(pages) && i < |Collected(pages, date)|
    ensures i < |FlatVideos(pages, PagesRequested(pages))|
    ensures Collected(pages, date)[i] == MakeRecord(date, FlatVideos(pages, PagesRequested(pages))[i])
  {
    RecordsAt(date, Take(FlatVideos(pages, PagesRequested(pages)), MaxVideosToFetch), i);
  }

  /** Every record carries the single date computed before the loop. */
  lemma CollectedSameDate(pages: seq<Page>, date: string)
    requires ValidChain(pages)
    ensures forall r :: r in Collected(pages, date) ==> r.dateFetched == date
  {
    forall r | r in Collected(pages, date)
      ensures r.dateFetched == date
    {
      var i :| 0 <= i < |Collected(pages, date)| && Collected(pages, date)[i] == r;
      CollectedRecordAt(pages, date, i);
    }
  }

  /** The loop stops after the first response that reaches the cap or carries no token. */
  lemma StopsAtFirst(pages: seq<Page>, k: nat)
    requires ValidChain(pages) && k < |pages|
    requires StopsAfter(pages, k)
    requires forall j :: 0 <= j < k ==> !StopsAfter(pages, j)
    ensures PagesRequested(pages) == k + 1
  {
    FirstStopAt(pages, 0, k);
  }

  /**
    Another page is requested exactly when the videos so far are under the
    cap and the current response carries a token.
   */
  lemma NextPageRequested(pages: seq<Page>, k: nat)
    requires ValidChain(pages) && k < PagesRequested(pages)
    ensures k + 1 < PagesRequested(pages)
        <==> |FlatVideos(pages, k + 1)| < MaxVideosToFetch && pages[k].nextPageToken.Some?
  {
    FlatVideosLength(pages, k + 1);
    if StopsAfter(pages, k) {
      StopIsFirst(pages, k);
    } else {
      ContinuesPast(pages, k);
    }
  }

  /** Pages that carry a token and stay under the cap do not stop the loop. */
  /** Pages that carry a token and keep the count under the cap do not stop the loop. */
  lemma NoStopBefore(pages: seq<Page>, k: nat)
    requires k <= |pages|
    requires forall j :: 0 <= j < k ==> pages[j].nextPageToken.Some?
    requires VideosUpTo(pages, k) < MaxVideosToFetch
    ensures forall j :: 0 <= j < k ==> !StopsAfter(pages, j)
  {
    forall j | 0 <= j < k
      ensures !StopsAfter(pages, j)
    {
      VideosUpToMonotonic(pages, j + 1, k);
    }
  }

  /** Equal video sequences give equal records (stated once, so that callers need not unfold `Records`). */
  lemma RecordsOfSame(date: string, a: seq<Video>, b: seq<Video>)
    requires a == b
    ensures Records(date, a) == Records(date, b)
  {
  }

  /** Taking at least as many elements as there are keeps them all. */
  lemma TakeAll<T>(s: seq<T>, n: nat)
    requires |s| <= n
    ensures Take(s, n) == s
  {
  }

  /** Under the cap, a run that requests n pages collects the records of all their videos. */
  lemma CollectedAll(pages: seq<Page>, date: string, n: nat)
    requires ValidChain(pages) && PagesRequested(pages) == n
    requires VideosUpTo(pages, n) < MaxVideosToFetch
    ensures Collected(pages, date) == Records(date, FlatVideos(pages, n))
  {
    FlatVideosLength(pages, n);
    TakeAll(FlatVideos(pages, n), MaxVideosToFetch);
    RecordsOfSame(date, Take(FlatVideos(pages, n), MaxVideosToFetch), FlatVideos(pages, n));
  }

  /** The records collected by a run that requests n pages. */
  lemma CollectedOf(pages: seq<Page>, date: string, n: nat)
    requires ValidChain(pages) && PagesRequested(pages) == n
    ensures Collected(pages, date) == Records(date, Take(FlatVideos(pages, n), MaxVideosToFetch))
  {
  }

  /** A page that brings the count to the cap, with tokens all along before it, stops the loop there. */
  lemma CapStops(pages: seq<Page>, k: nat)
    requires ValidChain(pages) && k < |pages|
    requires forall j :: 0 <= j < k ==> pages[j].nextPageToken.Some?
    requires VideosUpTo(pages, k) < MaxVideosToFetch <= VideosUpTo(pages, k + 1)
    ensures PagesRequested(pages) == k + 1
  {
    NoStopBefore(pages, k);
    StopsAtFirst(pages, k);
  }

  /**
    When the cap is reached partway through the k-th page, exactly the
    videos needed to fill the cap are taken from it, the rest of it is
    dropped and no further page is requested.
   */
  lemma CapCutsPage(pages: seq<Page>, date: string, k: nat)
    requires ValidChain(pages) && k < |pages|
    requires forall j :: 0 <= j < k ==> pages[j].nextPageToken.Some?
    requires VideosUpTo(pages, k) < MaxVideosToFetch <= VideosUpTo(pages, k + 1)
    ensures PagesRequested(pages) == k + 1
    ensures |Collected(pages, date)| == MaxVideosToFetch
    ensures var room := MaxVideosToFetch - VideosUpTo(pages, k);
            0 < room <= |PageVideos(pages[k])|
            && Collected(pages, date) == Records(date, FlatVideos(pages, k) + PageVideos(pages[k])[..room])
  {
    CapStops(pages, k);
    CollectedOf(pages, date, k + 1);
    FlatVideosLength(pages, k);
    FlatVideosLength(pages, k + 1);
    var before, page := FlatVideos(pages, k), PageVideos(pages[k]);
    var room := MaxVideosToFetch - VideosUpTo(pages, k);
    assert FlatVideos(pages, k + 1) == before + page;
    TakeAtCap(before, page, room);
    RecordsOfSame(date, Take(FlatVideos(pages, k + 1), MaxVideosToFetch), before + page[..room]);
  }

  /** A chain that ends at the m-th page before the cap stops the loop there. */
  lemma ChainEndStops(pages: seq<Page>, m: nat)
    requires ValidChain(pages) && m < |pages|
    requires forall j :: 0 <= j < m ==> pages[j].nextPageToken.Some?
    requires pages[m].nextPageToken.None?
    requires VideosUpTo(pages, m + 1) < MaxVideosToFetch
    ensures PagesRequested(pages) == m + 1
  {
    NoStopBefore(pages, m);
    StopsAtFirst(pages, m);
  }

  /**
    When the token chain ends at the m-th page before the cap is reached,
    every page up to it is requested and every video of them is collected.
   */
  lemma ShortChainCollectsAll(pages: seq<Page>, date: string, m: nat)
    requires ValidChain(pages) && m < |pages|
    requires forall j :: 0 <= j < m ==> pages[j].nextPageToken.Some?
    requires pages[m].nextPageToken.None?
    requires VideosUpTo(pages, m + 1) < MaxVideosToFetch
    ensures PagesRequested(pages) == m + 1
    ensures Collected(pages, date) == Records(date, FlatVideos(pages, m + 1))
  {
    ChainEndStops(pages, m);
    CollectedAll(pages, date, m + 1);
  }

  /**
    A page without playlist items adds no video and no videos request, and
    its token is still followed while the cap is not reached.
   */
  lemma EmptyPageAddsNothing(pages: seq<Page>, k: nat)
    requires k < |pages| && |pages[k].itemVideoIds| == 0
    ensures FlatVideos(pages, k + 1) == FlatVideos(pages, k)
    ensures PageRequests(pages, k) == [PlaylistItems(PageTokenParam(TokenBefore(pages, k)))]
    ensures |FlatVideos(pages, k)| < MaxVideosToFetch && pages[k].nextPageToken.Some? ==> !StopsAfter(pages, k)
  {
    assert FlatVideos(pages, k) + [] == FlatVideos(pages, k);
    FlatVideosLength(pages, k + 1);
  }

  // ---------------------------------------------------------------------
  // What a run requests
  // ---------------------------------------------------------------------

  /** The number of playlistItems requests in a request log. */
  function PlaylistRequests(rs: seq<Request>): nat
    decreases |rs|
  {
    if |rs| == 0 then 0
    else PlaylistRequests(rs[..|rs| - 1]) + (if rs[|rs| - 1].PlaylistItems? then 1 else 0)
  }

  /** Counting playlistItems requests distributes over concatenation. */
  lemma {:induction false} PlaylistRequestsConcat(a: seq<Request>, b: seq<Request>)
    ensures PlaylistRequests(a + b) == PlaylistRequests(a) + PlaylistRequests(b)
    decreases |b|
  {
    if |b| > 0 {
      assert (a + b)[..|a + b| - 1] == a + b[..|b| - 1];
      PlaylistRequestsConcat(a, b[..|b| - 1]);
    } else {
      assert a + b == a;
    }
  }

  /** One playlistItems request per page: a run makes exactly `PagesRequested` of them. */
  lemma {:induction false} OnePlaylistRequestPerPage(pages: seq<Page>, n: nat)
    requires n <= |pages|
    ensures PlaylistRequests(RequestTrace(pages, n)) == n
    decreases n
  {
    if n > 0 {
      OnePlaylistRequestPerPage(pages, n - 1);
      PlaylistRequestsConcat(RequestTrace(pages, n - 1), PageRequests(pages, n - 1));
      var items := [PlaylistItems(PageTokenParam(TokenBefore(pages, n - 1)))];
      if |pages[n - 1].itemVideoIds| == 0 {
        assert PageRequests(pages, n - 1) == items;
      } else {
        PlaylistRequestsConcat(items, [Videos(pages[n - 1].itemVideoIds)]);
      }
    }
  }

  /** The first request carries no page token, and no videos request is made for an empty list of ids. */
  lemma {:induction false} TraceShape(pages: seq<Page>, n: nat)
    requires 0 < n <= |pages|
    ensures RequestTrace(pages, n)[0] == PlaylistItems(None)
    ensures forall r :: r in RequestTrace(pages, n) && r.Videos? ==> |r.ids| > 0
    decreases n
  {
    if n > 1 {
      TraceShape(pages, n - 1);
    }
  }

  /**
    The token is tested for its truth value, not for presence: a response
    whose token is the empty string is followed, yet the next request goes
    out without a page token, exactly like the first request.
   */
  lemma EmptyTokenNotSent(pages: seq<Page>, k: nat)
    requires k + 1 < |pages| && pages[k].nextPageToken == Some("")
    ensures PageRequests(pages, k + 1)[0] == PlaylistItems(None) == PageRequests(pages, 0)[0]
  {
  }
}

# YouTube video fetcher — a verified model

This project models the core of `main.py` in youtube-analytics-scraper.
That core is the paginated fetch-and-cap loop. It walks a channel's uploads
playlist one playlistItems page at a time, asks the videos endpoint for the
details of the ids on each page, and builds one `video_info` record per video.
It stops once `max_videos_to_fetch` (20) records exist or no `nextPageToken`
is left. The model also covers the channel summary, where an absent
`subscriberCount`, `viewCount` or `videoCount` reads as 0.

The HTTP calls are replaced by a page oracle. `pages[k]` is the k-th
playlistItems response, plus the videos response for the ids it lists. A page
holds its item video ids, the returned videos (id, title, statistics) and an
optional continuation token. All runs are over a finite token chain: the last
page has no token (`ValidChain`).

The model has two layers:

- **Closed form.** `Collected` is the records a run yields: those of the first
  20 videos of the requested pages, in fetch order. `PagesRequested` is how
  many pages the run requests. `RequestTrace` is the requests it issues.
- **Operational form.** `Run` is the loop as the source executes it, step by
  step.

`RunFrom` proves that the two layers agree. The imperative methods mirror the
source's loops:

- `FetchVideos` is the outer `while`.
- `FetchPage` is one pass of its body.
- `AppendVideos` is the inner `for` with its cap check.

Each method is proved against the specification functions. The property
lemmas are stated about those functions.

Files:

- `Wrappers.dfy` holds `Option`, used for JSON fields that may be absent.
- `VideoFetcher.dfy` holds the rest.

## Model

| member | source | states |
|---|---|---|
| VideoFetcher.CountOrZero | main.py:47 | a present count is kept, an absent one reads as 0; the result is 0 exactly when the count is absent or is 0 |
| VideoFetcher.Totals | main.py:47-49 | each of the subscriber, view and video totals equals the channel's count when present and 0 when absent |
| VideoFetcher.MakeRecord | main.py:94-101 | a record carries the run's date, the video's title and id; views, likes and comments equal the statistic when the response has it and "N/A" otherwise, so no field is ever missing |
| VideoFetcher.RecordKeepsStatistics | main.py:98-100 | reading the three count fields back ("N/A" as absent) gives exactly the video's statistics, as long as no count is literally "N/A": nothing is lost or invented |
| VideoFetcher.RecordsAt | main.py:90-103 | the i-th record built from a videos response is the record of its i-th video: no reordering, dropping or merging |
| VideoFetcher.RecordsConcat | main.py:102 | records are appended one at a time, so the records of two batches in a row are the records of the first followed by those of the second |
| VideoFetcher.FirstStop | main.py:111-120 | the search for the stopping response ends inside the chain, at a response after which the loop stops (count at the cap or no token) |
| VideoFetcher.FirstStopIsFirst | main.py:111-112 | no response before the first stop stops the loop |
| VideoFetcher.FirstStopAt | main.py:111-120 | a response that stops the loop, with none stopping it before, is the first stop |
| VideoFetcher.PagesRequested | main.py:64-120 | a run requests between 1 and all pages of the chain, and the loop stops after the last page it requests |
| VideoFetcher.Collected | main.py:62-103 | a run collects at most 20 records: all videos of the requested pages when they are fewer than 20, otherwise exactly 20 |
| VideoFetcher.FlatVideosLength | main.py:103 | the number of videos of the first n pages is the length of their concatenated videos |
| VideoFetcher.StopIsFirst | main.py:116-120 | once the loop reaches a response after which it stops, that response is the last one requested |
| VideoFetcher.ContinuesPast | main.py:111-112 | when a reached response does not stop the loop, the next page is requested too |
| VideoFetcher.RunGoesOn | main.py:111-112 | after a page that leaves the count under the cap and carries a token, the run goes on from the next page with that token |
| VideoFetcher.RunStops | main.py:116-120 | after a page that brings the count to the cap or carries no token, the run ends with that page's records and requests |
| VideoFetcher.RecordsStep | main.py:90-103 | appending one page's videos up to the cap to the records of the pages before it gives the first 20 records of the pages so far |
| VideoFetcher.RequestsStep | main.py:66-86 | one page's requests extend the request trace of the pages before it by that page's requests |
| VideoFetcher.ClosedGoesOn | main.py:111-112 | where the loop goes on, one step of the run moves one page along the closed form |
| VideoFetcher.ClosedStops | main.py:116-120 | where the loop stops, the run ends with the collected records and the request trace of the requested pages |
| VideoFetcher.RunFrom | main.py:64-120 | from any page the loop reaches, the step-by-step run yields exactly `Collected` and the request trace of exactly `PagesRequested` pages |
| VideoFetcher.AppendVideos | main.py:90-103 | the inner loop appends, in response order, the records of the first (20 - count) videos and drops the rest; the count stays equal to the list length and never exceeds 20 |
| VideoFetcher.FetchPage | main.py:66-103 | one pass of the body issues the playlistItems request (with the token only when it is non-empty), issues the videos request only when the page lists an item, and appends that page's records up to the cap |
| VideoFetcher.FetchVideos | main.py:55-120 | the loop ends with `video_count == len(all_videos) <= 20`, `all_videos` equal to `Collected`, and the requests equal to the trace of the `PagesRequested` pages |
| VideoFetcher.FlatVideosPrefix | main.py:102 | `all_videos` is append-only: the videos of fewer pages are a prefix of those of more pages |
| VideoFetcher.VideosUpToMonotonic | main.py:103 | `video_count` only grows from page to page |
| VideoFetcher.FlatVideosAt | main.py:90-103 | the i-th video of page j sits right after the videos of the pages before j |
| VideoFetcher.CollectedInFetchOrder | main.py:90-103 | the i-th video of the j-th requested page gives the record at offset (videos before page j) + i, whenever that offset is under the cap |
| VideoFetcher.CollectedRecordAt | main.py:94-102 | every collected record is the record of the fetched video at the same position |
| VideoFetcher.CollectedSameDate | main.py:95 | every collected record carries the single date computed before the loop |
| VideoFetcher.StopsAtFirst | main.py:111-120 | the loop requests exactly up to the first response that brings the count to the cap or has no token |
| VideoFetcher.NextPageRequested | main.py:111-112 | another page is requested if and only if the count so far is under the cap and the current response carries a token |
| VideoFetcher.NoStopBefore | main.py:111-112 | pages that all carry a token and keep the count under the cap never stop the loop |
| VideoFetcher.CollectedAll | main.py:90-103 | under the cap, the records are those of every video of the requested pages |
| VideoFetcher.CapStops | main.py:91-92 | a page that brings the count to the cap, after pages that all carried a token, is the last page requested |
| VideoFetcher.CapCutsPage | main.py:91-92 | when the cap is reached partway through a page, exactly 20 records exist, only the videos needed to fill the cap are taken from that page, its remaining videos are dropped and no further page is requested |
| VideoFetcher.ChainEndStops | main.py:116-120 | a token chain that ends before the cap is reached is followed up to its end |
| VideoFetcher.ShortChainCollectsAll | main.py:111-120 | when the chain ends before 20 videos, every page is requested and every video is recorded |
| VideoFetcher.EmptyPageAddsNothing | main.py:77-78 | a page with no playlist items adds no video and no videos request, and its token is still followed while under the cap |
| VideoFetcher.OnePlaylistRequestPerPage | main.py:72 | the trace of n pages holds exactly n playlistItems requests |
| VideoFetcher.TraceShape | main.py:68-78 | the first request carries no page token, and no videos request is issued for an empty list of ids |
| VideoFetcher.EmptyTokenNotSent | main.py:68-69 | a token that is the empty string is followed, but the next request goes out without a page token, like the first one |

## Left out

- HTTP requests, `raise_for_status` and URL or query building (main.py:41-43, 66-74, 79-88) are network I/O. The page oracle takes their place, and a failed request is not modelled.
- `get_channel_id` (main.py:16-35) is a wrapper over the Google API client library and is not modelled.
- The `IndexError` on an empty channel lookup (main.py:46, 53) is a crash on foreign data and is not modelled.
- `.env` loading, `os.getenv`, `input()` and all `print` output are I/O and are not modelled.
- The date and time come from the system clock (main.py:59-60). The date is a string parameter of the model; the time is unused by the core.
- JSON and CSV writing (main.py:122-136) is file I/O and library serialisation. The CSV file is written only when `all_videos` is non-empty; this is not modelled.
- Totals: the `int()` conversion of the count strings (main.py:47-49) is not modelled; counts arrive as already-parsed optional integers.
- MakeRecord: a `KeyError` when a video lacks `snippet`, `title`, `id` or `statistics` is not modelled; every video is a well-formed `Video`. `statistics` is modelled as its three keys the code reads, each optional, not as an arbitrary map.
- FetchVideos: a `KeyError` when a playlist item lacks `contentDetails.videoId` is not modelled; a page is its list of ids.
- FetchVideos: a `nextPageToken` present with JSON `null` is not modelled. The token is either absent or a string. The empty string is modelled: it is followed, but not sent (`EmptyTokenNotSent`).
- PagesRequested: only finite token chains (`ValidChain`) are modelled. An API that never stops sending tokens while returning no videos would keep the source looping forever.
- FetchVideos: the comma-joined `id` parameter of the videos request is modelled as the list of ids itself.

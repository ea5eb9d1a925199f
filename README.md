# Chunked candle download — a Dafny model

`download_data.py` downloads 5-minute OHLCV candles for the instruments in
`SYMBOLS` (NIFTY and BANKNIFTY) over 2023-01-01 to 2024-12-31. For each
instrument it:

- walks the range in windows of at most 30 days, starting each window 5
  minutes after the previous one ended;
- asks the provider for each window and keeps the reply only when its status
  is true and its data is non-empty;
- concatenates the kept chunks, keeps the first row of each timestamp, sorts
  by timestamp and writes the series to a CSV file;
- when no chunk was kept, probes a fixed list of alternate (token, exchange)
  pairs over one test day, and reports the first pair that returns rows.

The model has seven modules:

- `Options`: the `Option` type for absent values.
- `Clock`: timestamps as whole minutes since 0001-01-01 00:00, using the
  proleptic Gregorian day count that Python's `datetime` ordinals use. Every
  moment the program builds is a whole minute, so `timedelta` arithmetic is
  exact integer arithmetic.
- `Candles`: rows, requests and replies, and `fetch_chunk`'s reduction of a
  reply to rows or nothing. A row is its timestamp plus an opaque payload `P`.
- `Chunking`: the window planner `Chunks` and the chunk loop `FetchRange`.
- `Consolidation`: the `concat` / `drop_duplicates` / `sort_values` pipeline.
- `Fallback`: the alternate-token probe.
- `Download`: the run for one instrument and the loop over all instruments.

The provider is a parameter `fetch: Request -> Response<P>`. Its replies are
a `Reply(status, data)`, or `Raised` for an exception anywhere in the `try`
block. Missing or null `data` is `Reply(_, None)`. The loops are methods, and
each is proved equal to a function that the lemmas are about.

## Model

| member | source | states |
|---|---|---|
| Candles.Classify | download_data.py:52-66 | rows come back exactly when the reply has a true status and data that is present and non-empty; those rows are the reply's data; a false status, missing or empty data, or an exception gives None |
| Chunking.Chunks | download_data.py:73-80 | no window is requested exactly when the start is not before the end; otherwise the first window starts at the start |
| Chunking.ChunksBounded | download_data.py:75-76 | every window starts in [start, end), ends at min(from + 30 days, end), is non-empty, ends no later than the end and lasts at most 30 days |
| Chunking.ChunksChain | download_data.py:76-80 | every window but the last is a full 30 days and the next starts 5 minutes after it ends; the last ends at the end, or is full and ends at most 5 minutes before the end |
| Chunking.ChunksDisjoint | download_data.py:76-80 | a later window starts after every earlier one starts and after it ends: no overlap, and starts strictly increase |
| Chunking.ChunksCount | download_data.py:75-80 | the i-th window starts i × (30 days + 5 minutes) after the start, and the number of windows is ceil((end − start) / (30 days + 5 minutes)), or 0 when start >= end |
| Chunking.ChunksCover | download_data.py:75-80 | every 5-minute mark in [start, end) lies inside some requested window |
| Chunking.TwoChunkExample | download_data.py:75-80 | the range 2023-01-01 to 2023-02-15 gives exactly [2023-01-01, 2023-01-31] and [2023-01-31 00:05, 2023-02-15] |
| Chunking.PlanRequests | download_data.py:75-77 | one request per window; each carries the instrument's token and exchange and the `FIVE_MINUTE` interval, starts in [start, end), ends at min(from + 30 days, end) after its start and no later than the end; a later request's window starts after an earlier one's ends, so no two requests are equal |
| Chunking.Kept | download_data.py:77-79 | `all_dfs` has at most one entry per request, and no entry is empty |
| Chunking.KeptInOrder | download_data.py:77-79 | `all_dfs` holds the rows of exactly the requests whose reply is kept, one entry each, in request order |
| Chunking.KeptEmpty | download_data.py:78-79 | `all_dfs` is empty exactly when every reply is an error, an exception or empty |
| Chunking.KeptSkipsFailures | download_data.py:77-79 | skipping a failed chunk gives the same rows, in the same order, as reading every failure as an empty chunk: a failure does not abort the loop or disturb later chunks |
| Chunking.FetchRange | download_data.py:72-80 | the loop sends exactly the planned requests, in order, and builds exactly the kept chunks |
| Consolidation.FirstIndex | download_data.py:83 | the first position holding a given timestamp: that position has the timestamp and no earlier one does |
| Consolidation.Dedup | download_data.py:83 | deduplication never adds rows |
| Consolidation.DedupKeys | download_data.py:83 | deduplication keeps every timestamp, leaves one row per timestamp, and leaves as many rows as there are distinct timestamps |
| Consolidation.DedupKeepsFirst | download_data.py:83 | a row survives deduplication exactly when it is the first row with its timestamp |
| Consolidation.SortByTs | download_data.py:83 | the sorted rows ascend by timestamp and are a permutation of the input |
| Consolidation.SortKeys | download_data.py:83 | sorting keeps the set of timestamps |
| Consolidation.SortStrict | download_data.py:83 | sorting rows with distinct timestamps makes them strictly ascending |
| Consolidation.StrictlySortedUnique | download_data.py:83 | two strictly ascending sequences with the same rows are equal |
| Consolidation.ConsolidateProperties | download_data.py:83 | the consolidated series is strictly ascending, has unique timestamps and exactly the timestamps of the concatenation, has for each timestamp the first row that had it, is a permutation of the deduplicated rows, and has one row per distinct timestamp, so no more rows than were fetched |
| Consolidation.ConsolidateDetermined | download_data.py:83 | any strictly ascending sequence of exactly those first rows is the consolidated series, so the result does not depend on the sorting algorithm |
| Consolidation.FirstRowEarliestChunk | download_data.py:83 | the first row of a timestamp in the concatenation is its first row in the earliest chunk that has that timestamp |
| Consolidation.ConcatRows | download_data.py:83 | every timestamp of every chunk reaches the concatenation, and every row of it comes from some chunk |
| Fallback.FirstWorking | download_data.py:95-103 | the position of the first pair that returns rows: all earlier pairs fail and, when it is inside the list, that pair works |
| Fallback.ProbeSpec | download_data.py:91-103 | nothing is reported exactly when no pair works; otherwise the first working pair in listed order is reported; the pairs are tried in order up to and including that one, or all of them when none works; every request is over 2024-01-02 09:15 to 15:30; a symbol without alternates probes nothing |
| Fallback.Probe | download_data.py:95-103 | the loop reports the pair and sends the requests described by ProbeSpec |
| Download.SavedIffSomeChunk | download_data.py:82-89 | a series is saved exactly when some chunk reply is kept, and then the probe does not run; otherwise the probe runs, and every request after the chunk requests is over the test day, so the full range is not fetched again |
| Download.SavedSeries | download_data.py:82-86 | the saved series is non-empty and strictly ascending, holds exactly the timestamps of the kept chunks, and holds for each one its first row in the request-ordered concatenation, which is its first row in the earliest kept chunk that has it |
| Download.SavedRowsFromKeptReplies | download_data.py:77-83 | every timestamp of every kept reply is in the saved series, and every row of the series comes from a kept reply |
| Download.DownloadSymbol | download_data.py:69-103 | the run for one instrument gives the modelled outcome and sends the modelled requests |
| Download.RunAllIndependent | download_data.py:68-72 | the outcome at each index of the run over all instruments is the outcome of a run of that instrument alone; that `all_dfs` and `current` start afresh for each instrument is built into `Run`, which takes no state from earlier instruments |
| Download.DownloadAll | download_data.py:68-103 | the loop over the instruments gives every instrument's outcome and requests, in order |
| Download.ConfiguredPlan | download_data.py:30-39 | each instrument's chunk plan over the configured range has 25 requests, all for that instrument's token and exchange |
| Download.ConfiguredRun | download_data.py:68-77 | the run over `SYMBOLS` gives two outcomes, NIFTY then BANKNIFTY, each the outcome of that instrument's run alone, with 25 chunk requests each for its own token and exchange |
| Download.ConfiguredRangeChunks | download_data.py:36-39 | the configured range 2023-01-01 to 2024-12-31 is fetched in 25 windows per instrument |

## Left out

- Authentication, credentials and `sys.exit` (download_data.py:10-27): foreign library calls and process exit. The model starts after a successful login.
- The network call `getCandleData` (download_data.py:54): the provider is the parameter `fetch`. It is a deterministic function of the request, so a provider whose answer changes over time is not modelled.
- `time.sleep(0.5)` (download_data.py:53): a delay with no effect on the result.
- `strftime` and `pd.to_datetime` (download_data.py:49-50, 58): a request carries its window ends and a row its timestamp as minutes. The minute precision of the request strings loses nothing, because every window end is a whole minute.
- `os.makedirs`, `to_csv` and every `print` (download_data.py:41, 59-65, 84-89, 96-102, 105): I/O. The saved series is the `saved` field of `Outcome`, and the reported pair is its `suggestion` field.
- The OHLCV values and the DataFrame's column layout (download_data.py:56-57): only carried along, so they are the opaque payload `P`.
- `sort_values` uses an unstable sort by default. The model sorts with an insertion sort. After deduplication the timestamps are distinct, so any sort gives the same result; `ConsolidateDetermined` proves this.
- Chunking.ChunksChain: does not claim that the last window ends exactly at the end. When the end falls after a full window but at most 5 minutes after it, the final window ends before the end, and the loop stops with a gap of at most 5 minutes. That gap holds no 5-minute mark of [start, end), as `ChunksCover` shows.
- Idempotence of a rerun and the file contents written by a previous run: each run writes its CSV file afresh, and the model has no file system.

# YouTube MP3 downloader backend — job registry model

This project models the in-memory download-job registry of the backend of a
self-hosted YouTube-to-MP3 web utility (`backend/main.py`). The backend keeps
three pieces of module-level state:

- the `downloads` dictionary from job id to job record;
- the `config` dictionary;
- the download directory, which is read from the configuration once at start-up.

Handlers and a background task read and change that state:

- `POST /download` strips the submitted URL, checks that it looks like a
  YouTube URL, and inserts a `queued` record under an id built from the
  clock in milliseconds.
- `GET /downloads/{id}` returns one record, or 404.
- `GET /downloads` returns every record, newest first by `created_at`.
- `DELETE /downloads/{id}` removes one record, or answers 404.
- `POST /config` merges the fields that were sent into the configuration.
- The background task `perform_download` marks the record `downloading`,
  builds the downloader's output template, feeds the downloader's progress
  events to `update_progress`, and records `completed` (with title and 100%)
  or `error` (with the message).

Modules:

- `Wrappers` (wrappers.dfy): `Option` and `Result`.
- `Text` (text.dfy): the Python string operations the code uses. These are
  `str.strip()`, the substring test `in`, the `<=` order on `str`, and `str()`
  of an integer.
- `YoutubeUrl` (url.dfy): `is_valid_youtube_url`.
- `Config` (config.dfy): configuration values, the `POST /config` body, and
  its `exclude_unset` dictionary.
- `Jobs` (jobs.dfy): the job record, progress events, the end of a run, job
  ids and the output template.
- `Listing` (listing.dfy): the stable newest-first sort of `list_downloads`.
- `Backend` (server.dfy): class `Server`, which holds the state and has one
  method or function per handler.
- `Scenarios` (server.dfy): three client methods that chain handlers.

The dictionary `downloads` is modelled as the map `jobs` together with `ids`,
its keys in insertion order. Python dictionaries keep insertion order, and the
listing's sort is stable, so records with equal timestamps are listed in that
order. The following are parameters rather than something the model computes:

- the clock (`millis`, `createdAt`, `at`, `dateFolder`);
- the downloader's run (a `Run`: its progress events, then `Success` with the
  optional title or `Failure` with the exception text).

Behaviour a job tracker might be expected to have but this code lacks. The model follows the code:

- `max_concurrent_downloads` is stored but never checked. There is no
  capacity error.
- Progress is neither clamped nor kept monotonic (`Jobs.ProgressCanDecrease`).
- Terminal states are not protected. `PerformDownload` accepts any record.
- Deleting a record cancels nothing.
- The output directory is the one fixed at start-up. A later `download_path`
  sent to `POST /config` changes the configuration dictionary but not where
  files go. Only `organize_by_date` is read afresh for every download.
- Job ids are not unique. Two submissions in the same millisecond share an
  id, and the second record replaces the first (`Backend.Server.DownloadYoutube`,
  `Jobs.DownloadIdInjective`).
- Records have no `output_path`. They gain a `completed_at` key at the end of
  a run, on success and on failure alike.

## Model

| member | source | states |
|---|---|---|
| `Text.Strip` | backend/main.py:87 | the stripped URL is the slice of the input with only whitespace (Python's `isspace`) around it, and it neither starts nor ends with whitespace |
| `Text.Contains` | backend/main.py:156 | `sub in s` holds exactly when `sub` occurs in `s` at some index |
| `Text.ContainsAny` | backend/main.py:156 | `any(d in s for d in ds)` holds exactly when some listed string is contained in `s` |
| `YoutubeUrl.IsValidYoutubeUrl` | backend/main.py:153-156 | a URL is accepted exactly when one of "youtube.com", "youtu.be", "www.youtube.com" occurs in it |
| `YoutubeUrl.WwwDomainRedundant` | backend/main.py:155-156 | acceptance is equivalent to "youtube.com" or "youtu.be" occurring; "www.youtube.com" adds nothing |
| `YoutubeUrl.AnyTextWithDomainAccepted` | backend/main.py:156 | any text around "youtu.be" is accepted: the check is a bare substring test |
| `YoutubeUrl.TextWithoutDotRejected` | backend/main.py:153-156 | a text without a dot, such as "not a url", is rejected |
| `Text.IntToDecimal` | backend/main.py:93 | `str()` of an integer is a non-empty digit string without leading zeros ("0" for zero) that parses back to it, preceded by "-" exactly when it is negative |
| `Jobs.DownloadId` | backend/main.py:93 | the id is "dl_" followed by the decimal text of the millisecond count, without leading zeros ("dl_0" for zero), which parses back to that count |
| `Jobs.DownloadIdInjective` | backend/main.py:93 | the ids `dl_<millis>` of two submissions are equal exactly when they were taken in the same millisecond |
| `Backend.Server.constructor` | backend/main.py:47-54 | start-up: the configuration is the loaded one, the download directory is its "download_path", and no downloads are tracked |
| `Backend.DefaultTemplate` | backend/main.py:29-34 | with the default configuration, a download without a custom name is written as "/downloads/%(title)s", whatever the date |
| `Config.UpdateData` | backend/main.py:77 | the update dictionary holds exactly the fields present in the request, a field sent as null mapping to null |
| `Backend.Server.UpdateConfig` | backend/main.py:74-80 | supplied keys take the new values, every other key keeps its value, the key set grows by the supplied keys, and the downloads are untouched; the new configuration is returned |
| `Config.UpdateSetsOrganizeByDate` | backend/main.py:168 | after an update that sends "organize_by_date", later downloads use exactly that setting |
| `Config.GetTruthy` | backend/main.py:168 | `config.get(key)` as a condition: a missing key or null reads false, a boolean reads as itself, an integer reads true exactly when non-zero, a string exactly when non-empty |
| `Jobs.NewJob` | backend/main.py:94-101 | a new record is "queued" at progress 0 with no title, no error and no "completed_at", and carries the given URL and timestamp |
| `Backend.Server.Put` | backend/main.py:94 | `downloads[id] = job`: the record is stored under the id and no other entry changes; a new id goes to the end of the insertion order, an existing id keeps its place |
| `Backend.Server.DownloadYoutube` | backend/main.py:82-109 | an invalid stripped URL gets 400 "Invalid YouTube URL" and changes nothing; a valid one puts a record under `dl_<millis>` that is queued, has progress 0, no title, no error, the stripped URL and the given timestamp; the record replaces any earlier one with that id, every other record stays as it was, a new id goes to the end of the order, and the reply carries the id, "queued" and the task to run |
| `Backend.Server.GetDownloadStatus` | backend/main.py:111-119 | the record is returned exactly when the id is present; otherwise 404 "Download not found" |
| `Backend.Server.ListDownloads` | backend/main.py:121-131 | the listing holds exactly the stored (id, record) pairs, one per id, ordered so that "created_at" never increases, with equal timestamps kept in insertion order |
| `Text.LexLeMeaning` | backend/main.py:126-130 | the order on "created_at" strings holds exactly when the first is a prefix of the second or has the smaller code point at the first index where they differ |
| `Listing.SortNewestFirst` | backend/main.py:126-130 | the sort returns a permutation of its input |
| `Listing.SortIsNewestFirst` | backend/main.py:126-130 | the sorted sequence is non-increasing in "created_at" (code-point order of strings) |
| `Listing.SortIsStable` | backend/main.py:126-130 | for every timestamp, the entries carrying it appear in the same relative order before and after sorting |
| `Backend.Server.ClearDownload` | backend/main.py:217-223 | a present id is removed (and only it), answering "Download cleared"; an absent id answers 404 and changes nothing; afterwards the id is absent |
| `Scenarios.ClearTwice` | backend/main.py:217-223 | clearing a present id twice succeeds once and then answers 404 |
| `Jobs.Percent` | backend/main.py:212 | the percentage is the truncated quotient: `p*total <= downloaded*100 < (p+1)*total` |
| `Jobs.PercentAtMost100` | backend/main.py:212 | with no more bytes downloaded than the total, the percentage is at most 100 |
| `Jobs.HookEvent` | backend/main.py:210-215 | the hook's dictionary is a "downloading" event (with its byte counts) exactly when its status is "downloading", a "finished" event exactly when it is "finished", and any other status otherwise |
| `Jobs.ProgressAfter` | backend/main.py:208-215 | a "downloading" event with a positive total sets the truncated percentage; a "downloading" event with no positive total leaves the progress alone; "finished" sets 100; any other status leaves it alone |
| `Backend.Server.UpdateProgress` | backend/main.py:208-215 | only the progress of the given record changes, as `ProgressAfter` says; all other fields and records stay as they were; an event that writes no progress needs no record, and for an absent id nothing changes |
| `Jobs.ProgressStaysPercentage` | backend/main.py:208-215 | starting from 0..100, progress stays within 0..100 over any events in which no "downloading" event with a positive total reports more bytes than that total; events with no positive total are unrestricted |
| `Jobs.FinishedThenQuietIs100` | backend/main.py:214-215 | after a "finished" event followed only by events that write no progress (other statuses, or "downloading" with no positive total), progress is 100 |
| `Jobs.ProgressCanDecrease` | backend/main.py:208-215 | a "downloading" event after "finished" lowers progress from 100 to 10: progress is not monotonic |
| `Jobs.Finish` | backend/main.py:188-206 | success sets "completed", progress 100, and the title or "Unknown", and keeps the error; failure sets "error" with the message and keeps progress and title; both stamp "completed_at" and keep url and "created_at" |
| `Jobs.FileName` | backend/main.py:181 | `custom_name or '%(title)s'`: a non-empty custom name is used as it is; a missing or empty one gives "%(title)s" |
| `Jobs.JoinPath` | backend/main.py:181 | `Path(dir) / name` ends with `name`; an absolute name or the empty dir gives `name`; a relative name after a dir ending in "/" gives `dir + name`, and after any other non-empty dir gives `dir + "/" + name` |
| `Jobs.OutputDir` | backend/main.py:165-170 | without date folders the output directory is the download path; with them it is `download_path/date_folder` for a relative date folder, and an absolute one replaces the download path |
| `Jobs.OutputTemplate` | backend/main.py:165-181 | the template ends with the custom name when one is non-empty and with "%(title)s" otherwise; for a relative file name under a download path without a trailing "/", it is exactly `download_path/name` without date folders and `download_path/date_folder/name` with them; whenever the names are relative it starts with the download path |
| `Jobs.AbsoluteCustomNameEscapes` | backend/main.py:181 | an absolute custom name is the whole template, whatever the download path |
| `Backend.Server.StartDownload` | backend/main.py:163 | the record's status becomes "downloading" and nothing else changes |
| `Backend.Server.ReportProgress` | backend/main.py:184-188 | the downloader's events reach the hook one by one in order: the record's progress becomes the fold of `ProgressAfter` over them, nothing else changes |
| `Backend.Server.FinishDownload` | backend/main.py:187-206 | the run's outcome is recorded as `Finish` says and nothing else changes |
| `Backend.Server.PerformDownload` | backend/main.py:158-206 | the template is built from the start-up download path, the current "organize_by_date" and the custom name; the record is marked "downloading" (`StartDownload`), takes the run's progress events in order (`ReportProgress`), then its outcome (`FinishDownload`); the order, the configuration and every other record are unchanged |
| `Scenarios.PollWhileDownloading` | backend/main.py:158-188 | a poll after the "downloading" mark and some progress events returns the record as "downloading" with the progress those events give, every other field as it was |
| `Scenarios.SubmitAndComplete` | backend/main.py:82-109 | a valid submission whose run succeeds, polled afterwards, is "completed" at 100 with the title, the stripped URL and no error; an invalid submission is answered with the 400 from the submission itself, and nothing is polled |

## Left out

- HTTP plumbing: FastAPI routing, CORS middleware and `HTTPException` are
  replaced by `Result` values carrying an `HttpError`. The trivial handlers
  `health_check` and `get_config` are not modelled.
- Request parsing: pydantic validation and coercion of request bodies is not
  modelled. The parsed `DownloadRequest` and `ConfigUpdate` are inputs.
- Background scheduling: `BackgroundTasks` is replaced by the `DownloadTask` in
  the reply. `PerformDownload` is a separate call that runs without
  interleaving with other handlers, so concurrency is not modelled. One
  consequence: a record deleted during a run makes the hook raise `KeyError`,
  and the error handler then raises again. That interleaving is not modelled.
  `PerformDownload` indexes the dictionary at once and so needs the id present.
  The hook indexes it only for a "downloading" event with a positive total
  and for "finished" (main.py:213 and 215), so `UpdateProgress` needs the id
  only for those events (`Jobs.SetsProgress`) and changes nothing for an
  absent id otherwise.
- The downloader: the `yt_dlp` call, its FFmpeg post-processor and the hook
  wiring are foreign library code. They are replaced by the `Run` parameter.
- Hook statuses: `Jobs.ProgressEvent` keeps the status string only for
  statuses other than "downloading" and "finished"; `OtherEvent` is meant
  to be built only by `Jobs.HookEvent`, which guarantees that.
- Malformed hook events: a hook dictionary without "total_bytes", or with
  `None` in it, makes the hook raise. This is not modelled; every
  "downloading" event carries both byte counts.
- Filesystem: `load_config`, `save_config`, the `mkdir` calls, and the `/files`
  walk and `stat` are I/O. The loaded configuration is the constructor's
  argument.
- Time and ids: `datetime.now()`, the ISO timestamps and the date folder are
  parameters. So is the millisecond count; its computation
  `int(timestamp * 1000)` in floating point is not modelled.
- Logging is not modelled.
- Configuration values: `Config.Value` has null, booleans, integers and
  strings only. A hand-edited configuration file can also hold floats,
  lists or objects, whose truthiness `config.get("organize_by_date")`
  would test; those values are not modelled.
- Titles: `Jobs.Outcome` cannot say that the extracted information had a
  "title" key holding `None`. The code would store `None` as the title;
  the model's `Success(None)` means the key is missing and gives "Unknown".
- `max_concurrent_downloads` and `organize_by_artist` are stored but never read
  by the code. Nothing beyond storing them is modelled.
- Jobs.Percent: exact integer arithmetic `downloaded*100/total` replaces
  Python's float `int(d / t * 100)`. The float result can be one lower. For
  example, 29 of 100 bytes gives 28 in floating point and 29 here.
- Backend.Server.UpdateProgress: inherits the integer percentage of
  `Jobs.Percent`.
- Jobs.JoinPath: pathlib's normalisation is modelled only for absolute names,
  the empty directory and a directory ending in a slash. An empty name gives
  `dir + "/"` here, where pathlib gives `dir`; the code never joins an empty
  name, since the file name falls back to "%(title)s" and the date folder is
  a formatted date. Collapsing repeated
  separators, dropping "." components and stripping trailing slashes are not
  modelled.
- Text.Strip: whitespace is the fixed set of characters for which Python's
  `str.isspace()` holds. Characters are Unicode scalar values, and no
  normalisation is applied.

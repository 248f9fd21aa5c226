/**
 * The backend's module-level state and its handlers: the `downloads`
 * dictionary of job records, the `config` dictionary, and the download
 * directory fixed at start-up, with the operations that read and change them.
 */
module Backend {
  import opened Wrappers
  import opened Text
  import opened YoutubeUrl
  import opened Config
  import opened Jobs
  import opened Listing

  /** An `HTTPException`: status code and detail text. */
  datatype HttpError = HttpError(statusCode: int, detail: string)

  const InvalidUrl := HttpError(400, "Invalid YouTube URL")
  const NotFound := HttpError(404, "Download not found")

  /** The body of `POST /download`. */
  datatype DownloadRequest = DownloadRequest(url: string, customName: Option<string>)

  /** The background task queued for a submission: `perform_download(download_id, url, custom_name)`. */
  datatype DownloadTask = DownloadTask(downloadId: string, url: string, customName: Option<string>)

  /** The reply to a successful submission, together with the task it queued. */
  datatype SubmitReply = SubmitReply(downloadId: string, status: Status, message: string, task: DownloadTask)

  /** One run of the downloader: the progress events it reports, in order, and how it ends. */
  datatype Run = Run(events: seq<ProgressEvent>, outcome: Outcome)

  /** `[x for x in ids if x != id]`. */
  function Without(ids: seq<string>, id: string): (r: seq<string>)
    ensures forall x :: x in r <==> x in ids && x != id
    ensures Distinct(ids) ==> Distinct(r)
  {
    if ids == [] then []
    else
      var rest := Without(ids[1..], id);
      assert Distinct(ids) ==> ids[0] !in ids[1..];
      (if ids[0] == id then [] else [ids[0]]) + rest
  }

  /** No id is listed twice. */
  predicate Distinct(ids: seq<string>) {
    forall i, j :: 0 <= i < j < |ids| ==> ids[i] != ids[j]
  }

  /** The entries of the dictionary, in insertion order. */
  function Items(ids: seq<string>, jobs: map<string, Job>): (r: seq<Item>)
    requires forall x :: x in ids ==> x in jobs
    ensures |r| == |ids|
    ensures forall i :: 0 <= i < |ids| ==> r[i] == (ids[i], jobs[ids[i]])
  {
    seq(|ids|, i requires 0 <= i < |ids| => (ids[i], jobs[ids[i]]))
  }

  class Server {
    /** The download directory, read from the configuration once at start-up. */
    const downloadPath: string
    /** The configuration dictionary. */
    var config: ConfigDict
    /** The keys of `downloads`, in the dictionary's insertion order. */
    var ids: seq<string>
    /** The `downloads` dictionary: job id to record. */
    var jobs: map<string, Job>

    /** `ids` lists each key of `jobs` exactly once. */
    ghost predicate Valid()
      reads this
    {
      && Distinct(ids)
      && (forall x :: x in jobs <==> x in ids)
    }

    /** Start-up, given the configuration that was loaded; the download path must be a string in it. */
    constructor (loaded: ConfigDict)
      requires DownloadPathKey in loaded && loaded[DownloadPathKey].Str?
      ensures Valid()
      ensures downloadPath == loaded[DownloadPathKey].s && config == loaded
      ensures ids == [] && jobs == map[]
    {
      downloadPath := loaded[DownloadPathKey].s;
      config := loaded;
      ids := [];
      jobs := map[];
    }

    /** `POST /config`: the fields present in the request overwrite their keys, every other key keeps its value. */
    method UpdateConfig(u: ConfigUpdate) returns (r: ConfigDict)
      modifies this
      ensures config == old(config) + UpdateData(u) && r == config
      ensures forall k :: k in UpdateData(u) ==> k in config && config[k] == UpdateData(u)[k]
      ensures forall k :: k in old(config) && k !in UpdateData(u) ==> k in config && config[k] == old(config)[k]
      ensures config.Keys == old(config).Keys + UpdateData(u).Keys
      ensures ids == old(ids) && jobs == old(jobs)
    {
      config := config + UpdateData(u);
      r := config;
    }

    /**
     * `POST /download`: the stripped URL is checked; a YouTube URL gets a
     * queued record under the id of this millisecond, replacing any record
     * already under that id, and a task is queued for it.
     */
    method DownloadYoutube(request: DownloadRequest, millis: int, createdAt: string)
      returns (r: Result<SubmitReply, HttpError>)
      requires Valid()
      modifies this
      ensures Valid() && config == old(config)
      ensures var url := Strip(request.url);
        !IsValidYoutubeUrl(url) ==> r == Err(InvalidUrl) && ids == old(ids) && jobs == old(jobs)
      ensures var url := Strip(request.url);
        var id := DownloadId(millis);
        IsValidYoutubeUrl(url) ==>
          && r == Ok(SubmitReply(id, Queued, "Download queued successfully", DownloadTask(id, url, request.customName)))
          && id in jobs
          && jobs[id] == Job(Jobs.Queued, url, 0, None, None, createdAt, None)
          && (forall k :: k != id ==> (k in jobs <==> k in old(jobs)))
          && (forall k :: k != id && k in old(jobs) ==> jobs[k] == old(jobs)[k])
          && ids == if id in old(jobs) then old(ids) else old(ids) + [id]
    {
      var url := Strip(request.url);
      if !IsValidYoutubeUrl(url) {
        return Err(InvalidUrl);
      }
      var id := DownloadId(millis);
      Put(id, NewJob(url, createdAt));
      r := Ok(SubmitReply(id, Queued, "Download queued successfully", DownloadTask(id, url, request.customName)));
    }

    /** `downloads[id] = job`: a new id goes to the end of the order, an existing one keeps its place. */
    method Put(id: string, job: Job)
      requires Valid()
      modifies this
      ensures Valid() && config == old(config)
      ensures jobs == old(jobs)[id := job]
      ensures ids == if id in old(jobs) then old(ids) else old(ids) + [id]
    {
      if id !in jobs {
        ids := ids + [id];
      }
      jobs := jobs[id := job];
    }

    /** `GET /downloads/{id}`: the record under `id`, or 404. */
    function GetDownloadStatus(id: string): (r: Result<Job, HttpError>)
      reads this
      ensures r.Ok? <==> id in jobs
      ensures r.Ok? ==> r.value == jobs[id]
      ensures r.Err? ==> r.error == NotFound
    {
      if id in jobs then Ok(jobs[id]) else Err(NotFound)
    }

    /**
     * `GET /downloads`: every id with its record, each exactly once, newest
     * first by "created_at", records with equal timestamps in insertion order.
     */
    function ListDownloads(): (r: seq<Item>)
      reads this
      requires Valid()
      ensures |r| == |ids|
      ensures forall p :: p in r <==> p.0 in jobs && p.1 == jobs[p.0]
      ensures forall i, j :: 0 <= i < j < |r| ==> r[i].0 != r[j].0
      ensures NewestFirst(r)
      ensures forall at :: CreatedAt(r, at) == CreatedAt(Items(ids, jobs), at)
    {
      var items := Items(ids, jobs);
      var r := SortNewestFirst(items);
      SortIsNewestFirst(items);
      forall at ensures CreatedAt(r, at) == CreatedAt(items, at) {
        SortIsStable(items, at);
      }
      SameEntries(ids, jobs, r);
      r
    }

    /** `DELETE /downloads/{id}`: removes the record under `id`, or answers 404 and changes nothing. */
    method ClearDownload(id: string) returns (r: Result<string, HttpError>)
      requires Valid()
      modifies this
      ensures Valid() && config == old(config)
      ensures id in old(jobs) ==>
        r == Ok("Download cleared") && jobs == old(jobs) - {id} && ids == Without(old(ids), id)
      ensures id !in old(jobs) ==> r == Err(NotFound) && jobs == old(jobs) && ids == old(ids)
      ensures GetDownloadStatus(id) == Err(NotFound)
    {
      if id in jobs {
        jobs := jobs - {id};
        ids := Without(ids, id);
        return Ok("Download cleared");
      }
      r := Err(NotFound);
    }

    /**
     * The progress hook: sets the record's progress from the event and
     * touches no other field and no other record.
     */
    method UpdateProgress(id: string, e: ProgressEvent)
      requires Valid() && (SetsProgress(e) ==> id in jobs)
      modifies this
      ensures Valid() && ids == old(ids) && config == old(config)
      ensures id in old(jobs) ==>
        jobs == old(jobs)[id := old(jobs)[id].(progress := ProgressAfter(old(jobs)[id].progress, e))]
      ensures id !in old(jobs) ==> jobs == old(jobs)
    {
      match e
      case DownloadingEvent(downloaded, total) =>
        if total > 0 {
          var progress := Percent(downloaded, total);
          jobs := jobs[id := jobs[id].(progress := progress)];
        }
      case FinishedEvent =>
        jobs := jobs[id := jobs[id].(progress := 100)];
      case OtherEvent(_) =>
    }

    /** The downloader calling the progress hook once for each event, in order. */
    method ReportProgress(id: string, events: seq<ProgressEvent>)
      requires Valid() && id in jobs
      modifies this
      ensures Valid() && ids == old(ids) && config == old(config)
      ensures jobs == old(jobs)[id := old(jobs)[id].(progress := ProgressAfterAll(old(jobs)[id].progress, events))]
    {
      ghost var before := jobs[id];
      var i := 0;
      while i < |events|
        invariant 0 <= i <= |events|
        invariant Valid() && ids == old(ids) && config == old(config)
        invariant jobs == old(jobs)[id := before.(progress := ProgressAfterAll(before.progress, events[..i]))]
      {
        UpdateProgress(id, events[i]);
        assert events[..i + 1][..i] == events[..i];
        i := i + 1;
      }
      assert events[..i] == events;
    }

    /** The first step of the background task: the record is marked "downloading". */
    method StartDownload(id: string)
      requires Valid() && id in jobs
      modifies this
      ensures Valid() && ids == old(ids) && config == old(config)
      ensures jobs == old(jobs)[id := old(jobs)[id].(status := Downloading)]
    {
      jobs := jobs[id := jobs[id].(status := Downloading)];
    }

    /** The last step of the background task: the run's outcome is recorded at time `at`. */
    method FinishDownload(id: string, outcome: Outcome, at: string)
      requires Valid() && id in jobs
      modifies this
      ensures Valid() && ids == old(ids) && config == old(config)
      ensures jobs == old(jobs)[id := Finish(old(jobs)[id], outcome, at)]
    {
      jobs := jobs[id := Finish(jobs[id], outcome, at)];
    }

    /**
     * The background task: marks the record "downloading", builds the output
     * template from the download path fixed at start-up and the current
     * "organize_by_date" setting, feeds the run's progress events to the hook,
     * and records the outcome at time `at`. Each step is a call of its own,
     * so the state between them is what a poll during the run would see.
     */
    method PerformDownload(task: DownloadTask, dateFolder: string, run: Run, at: string)
      returns (outtmpl: string)
      requires Valid() && task.downloadId in jobs
      modifies this
      ensures Valid() && ids == old(ids) && config == old(config)
      ensures outtmpl == OutputTemplate(downloadPath, OrganizeByDate(old(config)), dateFolder, task.customName)
      ensures var id := task.downloadId;
        var before := old(jobs)[id];
        jobs == old(jobs)[id := Finish(
          before.(status := Downloading, progress := ProgressAfterAll(before.progress, run.events)),
          run.outcome, at)]
    {
      var id := task.downloadId;
      StartDownload(id);
      var outputPath := OutputDir(downloadPath, OrganizeByDate(config), dateFolder);
      outtmpl := JoinPath(outputPath, FileName(task.customName));
      ReportProgress(id, run.events);
      FinishDownload(id, run.outcome, at);
    }
  }

  /** A server started with the default configuration writes each title as a file directly under "/downloads". */
  lemma DefaultTemplate(dateFolder: string)
    ensures DownloadPathKey in DefaultConfig && DefaultConfig[DownloadPathKey].Str?
    ensures OutputTemplate(DefaultConfig[DownloadPathKey].s, OrganizeByDate(DefaultConfig), dateFolder, None)
      == "/downloads/%(title)s"
  {
    assert Relative(FileName(None));
  }

  /** The sorted entries are those of the dictionary, each id once. */
  lemma SameEntries(ids: seq<string>, jobs: map<string, Job>, r: seq<Item>)
    requires Distinct(ids)
    requires forall x :: x in jobs <==> x in ids
    requires multiset(r) == multiset(Items(ids, jobs))
    ensures forall p :: p in r <==> p.0 in jobs && p.1 == jobs[p.0]
    ensures forall i, j :: 0 <= i < j < |r| ==> r[i].0 != r[j].0
  {
    var items := Items(ids, jobs);
    forall p
      ensures p in r <==> p.0 in jobs && p.1 == jobs[p.0]
    {
      assert p in r <==> p in multiset(r);
      assert p in items <==> p in multiset(items);
      if p.0 in jobs && p.1 == jobs[p.0] {
        var k :| 0 <= k < |ids| && ids[k] == p.0;
        assert items[k] == p;
      }
    }
    forall i, j | 0 <= i < j < |r|
      ensures r[i].0 != r[j].0
    {
      assert r[i] in r && r[j] in r;
      DistinctKeysOnce(items, r[i]);
      TwoPositions(r, i, j);
    }
  }

  /** In a sequence of entries with distinct ids, every entry occurs at most once. */
  lemma {:induction false} DistinctKeysOnce(s: seq<Item>, p: Item)
    requires forall i, j :: 0 <= i < j < |s| ==> s[i].0 != s[j].0
    ensures multiset(s)[p] <= 1
  {
    if s != [] {
      assert s == [s[0]] + s[1..];
      DistinctKeysOnce(s[1..], p);
      if s[0] == p {
        assert forall k :: 0 <= k < |s| - 1 ==> s[1..][k].0 != p.0;
        assert p !in s[1..];
      }
    }
  }

  /** An entry at two positions is counted at least twice. */
  lemma TwoPositions(s: seq<Item>, i: int, j: int)
    requires 0 <= i < j < |s|
    ensures s[i] == s[j] ==> multiset(s)[s[i]] >= 2
  {
    assert s == s[..j] + s[j..];
    assert s[..j][i] == s[i];
    assert s[j..][0] == s[j];
    assert multiset(s[..j])[s[i]] >= 1;
    assert multiset(s[j..])[s[j]] >= 1;
  }
}

/** Scenarios of the handlers, stated over `Backend.Server`. */
module Scenarios {
  import opened Wrappers
  import opened Jobs
  import opened Backend

  /** Clearing an id twice: the first call succeeds, the second answers 404. */
  method ClearTwice(s: Server, id: string) returns (first: Result<string, HttpError>, second: Result<string, HttpError>)
    requires s.Valid() && id in s.jobs
    modifies s
    ensures first == Ok("Download cleared") && second == Err(NotFound)
    ensures s.jobs == old(s.jobs) - {id}
  {
    first := s.ClearDownload(id);
    second := s.ClearDownload(id);
  }

  /**
   * Polling while the download runs: after the record is marked
   * "downloading" and the hook has seen some events, a poll returns the
   * record as "downloading" with the progress those events give.
   */
  method PollWhileDownloading(s: Server, id: string, events: seq<ProgressEvent>)
    returns (polled: Result<Job, HttpError>)
    requires s.Valid() && id in s.jobs
    modifies s
    ensures polled.Ok? && polled.value.status == Downloading
    ensures polled.value.progress == ProgressAfterAll(old(s.jobs)[id].progress, events)
    ensures polled.value == old(s.jobs)[id].(status := Downloading, progress := polled.value.progress)
  {
    s.StartDownload(id);
    s.ReportProgress(id, events);
    polled := s.GetDownloadStatus(id);
  }

  /**
   * A submission whose run succeeds: the record ends "completed" at 100
   * with the extracted title, and polling it returns that record.
   */
  method SubmitAndComplete(s: Server, request: DownloadRequest, millis: int, createdAt: string,
                           dateFolder: string, run: Run, at: string)
    returns (polled: Result<Job, HttpError>)
    requires s.Valid() && run.outcome.Success?
    modifies s
    ensures polled.Ok? <==> YoutubeUrl.IsValidYoutubeUrl(Text.Strip(request.url))
    ensures polled.Err? ==> polled.error == InvalidUrl
    ensures polled.Ok? ==>
      && polled.value.status == Completed && polled.value.progress == 100
      && polled.value.title == Some(run.outcome.title.GetOr(UnknownTitle))
      && polled.value.url == Text.Strip(request.url) && polled.value.error == None
  {
    var submitted := s.DownloadYoutube(request, millis, createdAt);
    if submitted.Err? {
      return Err(submitted.error);
    }
    var task := submitted.value.task;
    var _ := s.PerformDownload(task, dateFolder, run, at);
    polled := s.GetDownloadStatus(task.downloadId);
  }
}

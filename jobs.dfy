/**
 * The download-job record of backend/main.py and the pure steps that build
 * and change it: a new queued record, progress events, the end of a run,
 * the job id and the output template handed to the downloader.
 */
module Jobs {
  import opened Wrappers
  import opened Text

  /** The four values of a record's "status" field. */
  datatype Status = Queued | Downloading | Completed | Error

  /**
   * One record of the `downloads` dictionary. `completedAt` is the
   * "completed_at" key, which the record gains at the end of a run,
   * whether it succeeded or failed.
   */
  datatype Job = Job(
    status: Status,
    url: string,
    progress: int,
    title: Option<string>,
    error: Option<string>,
    createdAt: string,
    completedAt: Option<string>)

  /** The record a new submission starts with. */
  function NewJob(url: string, createdAt: string): (j: Job)
    ensures j.status == Queued && j.progress == 0
    ensures j.title == None && j.error == None && j.completedAt == None
    ensures j.url == url && j.createdAt == createdAt
  {
    Job(Queued, url, 0, None, None, createdAt, None)
  }

  /**
   * The dictionary the downloader passes to the progress hook, by its
   * "status" key: "downloading" with the two byte counts, "finished", or
   * any other status. `OtherEvent` stands only for statuses other than
   * "downloading" and "finished" (`IsOtherStatus`).
   */
  datatype ProgressEvent =
    | DownloadingEvent(downloadedBytes: nat, totalBytes: int)
    | FinishedEvent
    | OtherEvent(status: string)

  /** The status strings the hook does not act on. */
  predicate IsOtherStatus(status: string) {
    status != "downloading" && status != "finished"
  }

  /**
   * Reading the hook's dictionary by its "status" key: "downloading" takes
   * the two byte counts, "finished" carries nothing, and every other status
   * is kept as it is.
   */
  function HookEvent(status: string, downloadedBytes: nat, totalBytes: int): (e: ProgressEvent)
    ensures status == "downloading" <==> e.DownloadingEvent?
    ensures status == "finished" <==> e.FinishedEvent?
    ensures e.DownloadingEvent? ==> e.downloadedBytes == downloadedBytes && e.totalBytes == totalBytes
    ensures e.OtherEvent? ==> e.status == status && IsOtherStatus(e.status)
  {
    if status == "downloading" then DownloadingEvent(downloadedBytes, totalBytes)
    else if status == "finished" then FinishedEvent
    else OtherEvent(status)
  }

  /** The events for which the hook writes the record's progress, and so indexes the dictionary. */
  predicate SetsProgress(e: ProgressEvent) {
    (e.DownloadingEvent? && e.totalBytes > 0) || e.FinishedEvent?
  }

  /** `int(downloaded / total * 100)` for a positive total, in exact integer arithmetic. */
  function Percent(downloaded: nat, total: int): (p: nat)
    requires total > 0
    ensures p * total <= downloaded * 100 < (p + 1) * total
  {
    var p := downloaded * 100 / total;
    assert downloaded * 100 == p * total + downloaded * 100 % total;
    p
  }

  /** With no more bytes downloaded than the total, the percentage is at most 100. */
  lemma PercentAtMost100(downloaded: nat, total: int)
    requires 0 <= downloaded <= total && total > 0
    ensures Percent(downloaded, total) <= 100
  {
  }

  /** The progress value after one event, given the value before it. */
  function ProgressAfter(progress: int, e: ProgressEvent): (p: int)
    ensures e.DownloadingEvent? && e.totalBytes > 0 ==>
      p * e.totalBytes <= e.downloadedBytes * 100 < (p + 1) * e.totalBytes
    ensures e.DownloadingEvent? && e.totalBytes <= 0 ==> p == progress
    ensures e.FinishedEvent? ==> p == 100
    ensures e.OtherEvent? ==> p == progress
  {
    match e
    case DownloadingEvent(d, t) => if t > 0 then Percent(d, t) else progress
    case FinishedEvent => 100
    case OtherEvent(_) => progress
  }

  /** The progress value after a whole sequence of events, applied in order. */
  function ProgressAfterAll(progress: int, events: seq<ProgressEvent>): int {
    if events == [] then progress
    else ProgressAfter(ProgressAfterAll(progress, events[..|events| - 1]), events[|events| - 1])
  }

  /** An event that the hook acts on never reports more bytes downloaded than the total. */
  predicate Plausible(e: ProgressEvent) {
    e.DownloadingEvent? && e.totalBytes > 0 ==> e.downloadedBytes <= e.totalBytes
  }

  /** Progress stays a percentage as long as no event with a positive total reports more bytes than it. */
  lemma {:induction false} ProgressStaysPercentage(progress: int, events: seq<ProgressEvent>)
    requires 0 <= progress <= 100
    requires forall k :: 0 <= k < |events| ==> Plausible(events[k])
    ensures 0 <= ProgressAfterAll(progress, events) <= 100
  {
    if events != [] {
      var last := events[|events| - 1];
      ProgressStaysPercentage(progress, events[..|events| - 1]);
      assert Plausible(last);
      if last.DownloadingEvent? && last.totalBytes > 0 {
        PercentAtMost100(last.downloadedBytes, last.totalBytes);
      }
    }
  }

  /** A "finished" event followed only by events that write no progress leaves progress at 100. */
  lemma {:induction false} FinishedThenQuietIs100(progress: int, before: seq<ProgressEvent>, after: seq<ProgressEvent>)
    requires forall k :: 0 <= k < |after| ==> !SetsProgress(after[k])
    ensures ProgressAfterAll(progress, before + [FinishedEvent] + after) == 100
  {
    if after == [] {
      assert before + [FinishedEvent] + after == before + [FinishedEvent];
      assert (before + [FinishedEvent])[..|before|] == before;
    } else {
      var all := before + [FinishedEvent] + after;
      var shorter := after[..|after| - 1];
      assert all[..|all| - 1] == before + [FinishedEvent] + shorter;
      FinishedThenQuietIs100(progress, before, shorter);
    }
  }

  /** Progress is not kept monotonic: a later event may lower it. */
  lemma ProgressCanDecrease()
    ensures ProgressAfterAll(0, [FinishedEvent, DownloadingEvent(1, 10)]) == 10
  {
    assert [FinishedEvent, DownloadingEvent(1, 10)][..1] == [FinishedEvent];
  }

  /**
   * What the downloader's run produced: the extracted title, or the
   * exception's message. `Success(None)` stands for an info dictionary
   * without a "title" key; a "title" key holding `None` is not represented.
   */
  datatype Outcome = Success(title: Option<string>) | Failure(message: string)

  /** The title recorded when the extracted information has none. */
  const UnknownTitle := "Unknown"

  /** The record after the run has ended, at time `at`. */
  function Finish(j: Job, outcome: Outcome, at: string): (r: Job)
    ensures r.url == j.url && r.createdAt == j.createdAt && r.completedAt == Some(at)
    ensures outcome.Success? ==>
      r.status == Completed && r.progress == 100 && r.error == j.error
      && r.title == Some(outcome.title.GetOr(UnknownTitle))
    ensures outcome.Failure? ==>
      r.status == Error && r.progress == j.progress && r.title == j.title
      && r.error == Some(outcome.message)
  {
    match outcome
    case Success(t) => j.(status := Completed, title := Some(t.GetOr(UnknownTitle)), progress := 100, completedAt := Some(at))
    case Failure(m) => j.(status := Error, error := Some(m), completedAt := Some(at))
  }

  /**
   * The job id `f"dl_{millis}"` built from the clock in milliseconds: "dl_"
   * followed by the decimal digits of the count without leading zeros, with
   * a minus sign before them for a negative count.
   */
  function DownloadId(millis: int): (id: string)
    ensures |id| > 3 && id[..3] == "dl_"
    ensures millis >= 0 ==> AllDigits(id[3..]) && ParseDecimal(id[3..]) == millis
    ensures millis < 0 ==> |id| > 4 && id[3] == '-' && AllDigits(id[4..]) && ParseDecimal(id[4..]) == -millis
    ensures millis == 0 ==> id == "dl_0"
    ensures millis > 0 ==> id[3] != '0'
    ensures millis < 0 ==> id[4] != '0'
  {
    var digits := IntToDecimal(millis);
    assert ("dl_" + digits)[3..] == digits;
    "dl_" + digits
  }

  /** Ids taken at different milliseconds differ; two submissions within one millisecond share an id. */
  lemma DownloadIdInjective(a: int, b: int)
    ensures DownloadId(a) == DownloadId(b) <==> a == b
  {
    if DownloadId(a) == DownloadId(b) {
      assert DownloadId(a)[3..] == IntToDecimal(a);
      assert DownloadId(b)[3..] == IntToDecimal(b);
      IntToDecimalInjective(a, b);
    }
  }

  /** The file-name part of the template when no custom name is given. */
  const TitleTemplate := "%(title)s"

  /** `custom_name or '%(title)s'`: a missing or empty custom name falls back to the title placeholder. */
  function FileName(customName: Option<string>): (name: string)
    ensures name != []
    ensures customName.Some? && customName.value != "" ==> name == customName.value
    ensures customName.None? || customName.value == "" ==> name == TitleTemplate
  {
    if customName.Some? && customName.value != "" then customName.value else TitleTemplate
  }

  predicate IsSuffix(p: string, s: string) {
    |p| <= |s| && s[|s| - |p|..] == p
  }

  /** A path that does not start at the root. */
  predicate Relative(p: string) {
    p != [] && p[0] != '/'
  }

  /** A non-empty path that does not end in a separator. */
  predicate NoTrailingSlash(p: string) {
    p != [] && p[|p| - 1] != '/'
  }

  /**
   * `str(Path(dir) / name)`: an absolute `name` replaces `dir`, an empty
   * `dir` (the path ".") adds nothing, a `dir` ending in a separator is
   * followed directly by `name`, and otherwise one separator is placed
   * between the two.
   */
  function JoinPath(dir: string, name: string): (r: string)
    ensures IsSuffix(name, r)
    ensures (name != [] && name[0] == '/') || dir == [] ==> r == name
    ensures (name == [] || name[0] != '/') && dir != [] && dir[|dir| - 1] == '/' ==> r == dir + name
    ensures (name == [] || name[0] != '/') && NoTrailingSlash(dir) ==> r == dir + "/" + name
  {
    if (name != [] && name[0] == '/') || dir == [] then name
    else if dir[|dir| - 1] == '/' then dir + name
    else dir + "/" + name
  }

  /**
   * The directory a download is written to: the download path itself, or,
   * when organising by date, the date folder inside it.
   */
  function OutputDir(downloadPath: string, organizeByDate: bool, dateFolder: string): (dir: string)
    ensures !organizeByDate ==> dir == downloadPath
    ensures organizeByDate && Relative(dateFolder) && NoTrailingSlash(downloadPath) ==>
      dir == downloadPath + "/" + dateFolder
    ensures organizeByDate && dateFolder != [] && dateFolder[0] == '/' ==> dir == dateFolder
  {
    if organizeByDate then JoinPath(downloadPath, dateFolder) else downloadPath
  }

  /**
   * The "outtmpl" option handed to the downloader. It ends with the custom
   * name when one is given and with "%(title)s" otherwise. With relative
   * names under a download path without a trailing separator it is
   * download path / file name, or download path / date folder / file name
   * exactly when organising by date.
   */
  function OutputTemplate(downloadPath: string, organizeByDate: bool, dateFolder: string, customName: Option<string>): (t: string)
    ensures customName.Some? && customName.value != "" ==> IsSuffix(customName.value, t)
    ensures customName.None? || customName.value == "" ==> IsSuffix(TitleTemplate, t)
    ensures Relative(FileName(customName)) && NoTrailingSlash(downloadPath) && !organizeByDate ==>
      t == downloadPath + "/" + FileName(customName)
    ensures (Relative(FileName(customName)) && NoTrailingSlash(downloadPath) && organizeByDate &&
             Relative(dateFolder) && NoTrailingSlash(dateFolder)) ==>
      t == downloadPath + "/" + dateFolder + "/" + FileName(customName)
    ensures (Relative(FileName(customName)) && downloadPath != [] &&
             (organizeByDate ==> dateFolder == [] || dateFolder[0] != '/')) ==>
      downloadPath <= t
  {
    var dir := OutputDir(downloadPath, organizeByDate, dateFolder);
    var name := FileName(customName);
    PrefixThroughJoin(downloadPath, organizeByDate, dateFolder, name);
    JoinPath(dir, name)
  }

  /** The facts about prefixes and last characters the closed forms of `OutputTemplate` rest on. */
  lemma PrefixThroughJoin(downloadPath: string, organizeByDate: bool, dateFolder: string, name: string)
    ensures Relative(name) && downloadPath != [] && (organizeByDate ==> dateFolder == [] || dateFolder[0] != '/') ==>
      downloadPath <= OutputDir(downloadPath, organizeByDate, dateFolder) <= JoinPath(OutputDir(downloadPath, organizeByDate, dateFolder), name)
    ensures organizeByDate && Relative(dateFolder) && NoTrailingSlash(downloadPath) && NoTrailingSlash(dateFolder) ==>
      NoTrailingSlash(OutputDir(downloadPath, organizeByDate, dateFolder))
  {
    var dir := OutputDir(downloadPath, organizeByDate, dateFolder);
    if organizeByDate {
      assert dir == JoinPath(downloadPath, dateFolder);
      if dateFolder == [] || dateFolder[0] != '/' {
        JoinExtends(downloadPath, dateFolder);
      }
      if Relative(dateFolder) && NoTrailingSlash(downloadPath) && NoTrailingSlash(dateFolder) {
        JoinKeepsLast(downloadPath, dateFolder);
      }
    } else {
      assert dir == downloadPath;
    }
    if Relative(name) {
      JoinExtends(dir, name);
    }
  }

  /** Joining a name that is not absolute to a non-empty directory extends the directory. */
  lemma JoinExtends(dir: string, name: string)
    requires name == [] || name[0] != '/'
    ensures dir <= JoinPath(dir, name)
  {
    var r := JoinPath(dir, name);
    if dir == [] {
    } else if dir[|dir| - 1] == '/' {
      assert r == dir + name;
      assert r[..|dir|] == dir;
    } else {
      assert r == dir + "/" + name;
      assert r[..|dir|] == dir;
    }
  }

  /** Joining a relative name to a non-empty directory ends with the name's last character. */
  lemma JoinKeepsLast(dir: string, name: string)
    requires dir != [] && Relative(name)
    ensures var r := JoinPath(dir, name); r != [] && r[|r| - 1] == name[|name| - 1]
  {
    var r := JoinPath(dir, name);
    if dir[|dir| - 1] == '/' {
      assert r == dir + name;
    } else {
      assert r == dir + "/" + name;
    }
  }

  /** An absolute custom name ignores the download path altogether. */
  lemma AbsoluteCustomNameEscapes(downloadPath: string, organizeByDate: bool, dateFolder: string, name: string)
    requires name != [] && name[0] == '/'
    ensures OutputTemplate(downloadPath, organizeByDate, dateFolder, Some(name)) == name
  {
  }
}

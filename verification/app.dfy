/** The single-page client (ui/src/App.tsx): looking a video up, submitting the edited form,
    polling the task list while a task is pending, and what each task row shows and links to.
    Event handlers are functions from the state before to the state after and the request they
    send; the request's outcome arrives as a separate input. */
module App {
  import opened Common
  import opened Strings
  import opened ApiTypes
  import opened Api
  import opened UriCoding
  import CachedFetch

  const InvalidUrl := "URL is invalid"

  /** How long the task list waits before polling again. */
  const PollDelayMs := 1000

  /** `JSON.stringify("tasks")`: the cache key of the task list. */
  const TasksKey := "\"tasks\""

  /** The component's own state: the error messages by field, the previewed video, and whether
      a lookup is running. */
  datatype AppState = AppState(errors: map<string, string>, video: Option<GetVideoInfoRes>, isLoading: bool)

  const Initial := AppState(map[], None, false)

  /** What the lookup accepts as a video URL: non-empty and starting with "http". */
  predicate ValidVideoUrl(url: string) {
    |url| > 0 && StartsWith(url, "http")
  }

  /** The routes the client calls, under `/api`. */
  const InfoRoute := "/info"
  const FileRoute := "/get"

  /** The query of the download button's link. */
  const ForceDownloadQuery := "dl" + "=" + "true"

  /** The info request path as written: `encodeURI` leaves `&`, `+` and `#` of the video URL
      unescaped, so a `&` of the video URL stays in the query, and a URL made only of
      characters `encodeURI` keeps is sent verbatim. */
  function InfoPathAsWritten(url: string): (p: string)
    ensures '&' in url ==> '&' in p
    ensures (forall i :: 0 <= i < |url| ==> KeptByEncodeUri(url[i])) ==> p == InfoRoute + "?" + "url" + "=" + url
  {
    assert '&' in url ==> '&' in EncodeUri(url) by {
      if '&' in url { EncodeUriKeepsAmpersand(url); }
    }
    assert (forall i :: 0 <= i < |url| ==> KeptByEncodeUri(url[i])) ==> EncodeUri(url) == url by {
      if forall i :: 0 <= i < |url| ==> KeptByEncodeUri(url[i]) { EncodeKeepsAll(url, KeptByEncodeUri); }
    }
    InfoRoute + "?" + "url" + "=" + EncodeUri(url)
  }

  /** The info request path with the video URL escaped as a query component: whatever the
      URL, the path holds no `&` or `#`, and a URL of unreserved characters is sent verbatim. */
  function InfoPath(url: string): (p: string)
    ensures '&' !in p && '#' !in p
    ensures (forall i :: 0 <= i < |url| ==> UriUnreserved(url[i])) ==> p == InfoRoute + "?" + "url" + "=" + url
  {
    EncodeUriComponentHasNoDelimiters(url);
    assert (forall i :: 0 <= i < |url| ==> UriUnreserved(url[i])) ==> EncodeUriComponent(url) == url by {
      if forall i :: 0 <= i < |url| ==> UriUnreserved(url[i]) { EncodeKeepsAll(url, UriUnreserved); }
    }
    InfoPrefixPlain();
    InfoRoute + "?" + "url" + "=" + EncodeUriComponent(url)
  }

  /** The info request's fixed prefix holds no `&` or `#`. A literal fact, proved once here so
      the request functions do not unfold the literal themselves. */
  lemma InfoPrefixPlain()
    ensures var prefix := InfoRoute + "?" + "url" + "="; '&' !in prefix && '#' !in prefix
  {
    var prefix := InfoRoute + "?" + "url" + "=";
    assert forall i :: 0 <= i < |prefix| ==> prefix[i] == "/info?url="[i];
  }

  /** A handler's result: the state after its synchronous part and the request it sends. */
  datatype Find = Find(state: AppState, request: Option<string>)

  /** `onFindVideo` up to its `await`. It does nothing without a mounted form or while a
      lookup runs. Otherwise it clears the errors and the preview before looking at the URL: an
      invalid trimmed URL is then reported on the `url` field, and a valid one keeps loading on
      and sends the info request, built with `encodeURI`. */
  function FindVideo(s: AppState, formMounted: bool, rawUrl: string): (f: Find)
    ensures !formMounted || s.isLoading ==> f == Find(s, None)
    ensures f.request.Some? <==> formMounted && !s.isLoading && ValidVideoUrl(Trim(rawUrl))
    ensures f.request.Some? ==> f.request.value == InfoPathAsWritten(Trim(rawUrl)) && f.state == AppState(map[], None, true)
    ensures formMounted && !s.isLoading && f.request.None? ==>
      f.state == AppState(map["url" := InvalidUrl], None, false)
  {
    if !formMounted || s.isLoading then Find(s, None)
    else
      var url := Trim(rawUrl);
      if !ValidVideoUrl(url) then Find(AppState(map["url" := InvalidUrl], None, false), None)
      else Find(AppState(map[], None, true), Some(InfoPathAsWritten(url)))
  }

  /** The text shown for a caught error: its message, or "Unknown error" when that is empty. */
  function DisplayMessage(e: JsError): (m: string)
    ensures m != ""
    ensures e.message != "" ==> m == e.message
  {
    if e.message != "" then e.message else CachedFetch.UnknownError
  }

  /** The rest of `onFindVideo`: a resolved lookup becomes the preview (a JSON `null` clears
      it); a rejected one is reported on the `url` field. Loading ends either way. */
  function FindVideoDone(s: AppState, outcome: Settled<GetVideoInfoRes>): (s': AppState)
    ensures !s'.isLoading
    ensures outcome.Resolved? ==> s'.video == outcome.value && s'.errors == s.errors
    ensures outcome.Rejected? ==> s'.errors == map["url" := DisplayMessage(outcome.error)] && s'.video == s.video
  {
    match outcome
    case Resolved(v) => s.(video := v, isLoading := false)
    case Rejected(e) => s.(errors := map["url" := DisplayMessage(e)], isLoading := false)
  }

  /** A lookup that goes out leaves the component loading, and while it does a second lookup
      does nothing. */
  lemma LookupIsExclusive(s: AppState, rawUrl: string, again: string)
    requires FindVideo(s, true, rawUrl).request.Some?
    ensures FindVideo(FindVideo(s, true, rawUrl).state, true, again).request.None?
  {
  }

  /** Whitespace around a pasted URL is dropped before the check, and the trimmed URL is what
      the request carries. */
  lemma FindVideoTrimsPastedUrl(pre: string, url: string, post: string)
    requires forall k :: 0 <= k < |pre| ==> IsJsWhitespace(pre[k])
    requires forall k :: 0 <= k < |post| ==> IsJsWhitespace(post[k])
    requires ValidVideoUrl(url) && !IsJsWhitespace(url[|url| - 1])
    ensures FindVideo(Initial, true, pre + url + post).request == Some(InfoPathAsWritten(url))
  {
    assert url[0] == 'h';
    TrimPadded(pre, url, post);
  }

  /** A URL that does not start with "http" is refused without a request. */
  lemma FindVideoRefusesOtherSchemes()
    ensures FindVideo(Initial, true, "ftp://a") == Find(AppState(map["url" := InvalidUrl], None, false), None)
  {
    var raw := "ftp://a";
    TrimUnpadded(raw);
    assert raw[0] != "http"[0];
    assert !ValidVideoUrl(raw);
  }

  /** The check is a prefix test only: "httpx" passes it. */
  lemma FindVideoAcceptsAnyHttpPrefix()
    ensures FindVideo(Initial, true, "httpx").request == Some(InfoPathAsWritten("httpx"))
  {
    var raw := "httpx";
    TrimUnpadded(raw);
    assert raw[..4] == "http";
    assert ValidVideoUrl(raw);
  }

  /** The raw values of the form's four editable fields. */
  datatype Form = Form(title: string, slug: string, artist: string, album: string)

  /** A handler's result: the state afterwards and the body it posts. */
  datatype Submit = Submit(state: AppState, post: Option<CreateTaskBody>)

  /** `onSubmit` up to its `await`. It does nothing while a lookup runs; without a previewed
      video URL it reports an invalid URL; otherwise it posts the video's URL and thumbnail with
      the trimmed fields. It does not itself set the loading flag. */
  function SubmitForm(s: AppState, form: Form): (r: Submit)
    ensures s.isLoading ==> r == Submit(s, None)
    ensures r.post.Some? <==> !s.isLoading && s.video.Some? && s.video.value.url != ""
    ensures !s.isLoading && r.post.None? ==> r.state == s.(errors := map["url" := InvalidUrl])
    ensures r.post.Some? ==>
      && r.state == s.(errors := map[])
      && r.post.value.url == s.video.value.url && r.post.value.thumbnail == s.video.value.thumbnail
      && r.post.value.title == Trim(form.title) && r.post.value.slug == Trim(form.slug)
      && r.post.value.artist == Trim(form.artist) && r.post.value.album == Trim(form.album)
  {
    if s.isLoading then Submit(s, None)
    else if s.video.None? || s.video.value.url == "" then Submit(s.(errors := map["url" := InvalidUrl]), None)
    else
      var v := s.video.value;
      Submit(s.(errors := map[]),
             Some(CreateTaskBody(v.url, Trim(form.slug), v.thumbnail, Trim(form.title), Trim(form.artist), Trim(form.album))))
  }

  /** Nothing guards a submission in flight: submitting the same form twice posts twice. */
  lemma SubmitTwicePostsTwice(s: AppState, form: Form)
    requires SubmitForm(s, form).post.Some?
    ensures SubmitForm(SubmitForm(s, form).state, form) == SubmitForm(s, form)
  {
  }

  /** What the posted fields can look like: no leading or trailing whitespace. */
  lemma SubmittedFieldsAreTrimmed(s: AppState, form: Form)
    requires SubmitForm(s, form).post.Some?
    ensures var b := SubmitForm(s, form).post.value;
      && (|b.title| > 0 ==> !IsJsWhitespace(b.title[0]) && !IsJsWhitespace(b.title[|b.title| - 1]))
      && (|b.slug| > 0 ==> !IsJsWhitespace(b.slug[0]) && !IsJsWhitespace(b.slug[|b.slug| - 1]))
  {
  }

  /** The rest of `onSubmit`: on success the preview is dropped, the form reset and the task
      list refetched; on failure the message is reported under `result`. */
  datatype Submitted = Submitted(state: AppState, resetForm: bool, refetchTasks: bool)

  function SubmitDone<T>(s: AppState, outcome: Settled<T>): (r: Submitted)
    ensures r.resetForm <==> outcome.Resolved?
    ensures r.refetchTasks <==> outcome.Resolved?
    ensures outcome.Resolved? ==> r.state == s.(video := None)
    ensures outcome.Rejected? ==> r.state == s.(errors := map["result" := DisplayMessage(outcome.error)])
  {
    match outcome
    case Resolved(_) => Submitted(s.(video := None), true, true)
    case Rejected(e) => Submitted(s.(errors := map["result" := DisplayMessage(e)]), false, false)
  }

  /** A JSON value as the client sees the `error` field of a task. */
  datatype JsValue = JsNull | JsString(text: string) | JsObject

  /** JavaScript truthiness of those values. */
  predicate Truthy(v: JsValue) {
    match v
    case JsNull => false
    case JsString(t) => t != ""
    case JsObject => true
  }

  /** A task as the client reads it from the JSON list. */
  datatype TaskView = TaskView(
    url: string, slug: string, thumbnail: string, title: string, artist: string, album: string,
    isPending: bool, result: string, error: JsValue)

  /** `tasks.find((task) => task.is_pending)`: the first pending task. */
  function FindPending(ts: seq<TaskView>): (r: Option<TaskView>)
    ensures r.Some? ==>
      exists i :: 0 <= i < |ts| && ts[i] == r.value && ts[i].isPending && forall j :: 0 <= j < i ==> !ts[j].isPending
    ensures r.Some? ==> r.value.isPending
    ensures r.None? ==> forall i :: 0 <= i < |ts| ==> !ts[i].isPending
  {
    if |ts| == 0 then None
    else if ts[0].isPending then Some(ts[0])
    else
      var r := FindPending(ts[1..]);
      assert forall i :: 1 <= i < |ts| ==> ts[i] == ts[1..][i - 1];
      assert r.Some? ==> exists i :: 1 <= i < |ts| && ts[i] == r.value && ts[i].isPending && (forall j :: 0 <= j < i ==> !ts[j].isPending);
      r
  }

  /** Whether the effect on the task list arms the poll timer. */
  predicate SchedulesPoll(data: Option<seq<TaskView>>) {
    data.Some? && FindPending(data.value).Some?
  }

  /** The poll timer after the task list changes: armed for one more fetch, or idle. */
  datatype Poll = Idle | Armed(delayMs: nat)

  function PollAfter(data: Option<seq<TaskView>>): (p: Poll)
    ensures p.Armed? ==> p.delayMs == PollDelayMs
  {
    if SchedulesPoll(data) then Armed(PollDelayMs) else Idle
  }

  /** The list is polled again exactly when it holds a pending task. */
  lemma PollIffPending(data: Option<seq<TaskView>>)
    ensures PollAfter(data).Armed? <==>
      data.Some? && exists i :: 0 <= i < |data.value| && data.value[i].isPending
  {
  }

  /** A refresh that fails clears the list's data, so polling stops even if tasks are still
      pending on the server; only another refetch starts it again. */
  lemma FailedRefreshStopsPolling(t: CachedFetch.Trace<seq<TaskView>>, x: CachedFetch.Thrown)
    requires t.hook.inFlight
    ensures PollAfter(CachedFetch.Apply(t, CachedFetch.Reject(x)).hook.data) == Idle
  {
  }

  /** The link of a finished task: the last `/`-segment of its result under `/api/get/`, or ""
      while it is pending or has no result. */
  function DownloadUrl(t: TaskView): (u: string)
    ensures u != "" <==> !t.isPending && t.result != ""
    ensures u != "" ==> u == ApiBaseUrl + FileRoute + "/" + AfterLast(t.result, '/')
  {
    if !t.isPending && t.result != "" then
      LastSegmentIsAfterLast(t.result, '/');
      ApiBaseUrl + FileRoute + "/" + LastSegment(t.result, '/')
    else ""
  }

  /** The download button's link: the same file, asked for as an attachment. */
  function ForcedDownloadUrl(downloadUrl: string): (u: string)
    ensures StartsWith(u, downloadUrl) && u[|downloadUrl|..] == "?" + ForceDownloadQuery
  {
    downloadUrl + "?" + ForceDownloadQuery
  }

  /** What the status cell shows. */
  datatype Status = Spinner | ErrorLabel | Done

  /** `TaskStatus`: a spinner while pending, otherwise "Error!" for a truthy error and "Done"
      for any other. */
  function StatusOf(t: TaskView): (st: Status)
    ensures st == Spinner <==> t.isPending
    ensures st == ErrorLabel <==> !t.isPending && Truthy(t.error)
  {
    if t.isPending then Spinner else if Truthy(t.error) then ErrorLabel else Done
  }

  /** A text cell: the value, or "-" when it is empty. */
  function CellText(s: string): (c: string)
    ensures c != ""
    ensures s != "" ==> c == s
  {
    if s != "" then s else "-"
  }

  /** `Array.prototype.reverse` on a list. */
  function Reverse<T>(s: seq<T>): (r: seq<T>)
    ensures |r| == |s|
    ensures forall i :: 0 <= i < |s| ==> r[i] == s[|s| - 1 - i]
  {
    if |s| == 0 then []
    else
      var r := Reverse(s[1..]);
      r + [s[0]]
  }

  /** The order the table shows: `data?.reverse() ?? []`, newest first. */
  function DisplayOrder(data: Option<seq<TaskView>>): (rows: seq<TaskView>)
    ensures data.None? ==> rows == []
    ensures data.Some? ==> |rows| == |data.value|
    ensures data.Some? ==> forall i :: 0 <= i < |rows| ==> rows[i] == data.value[|rows| - 1 - i]
  {
    match data
    case None => []
    case Some(ts) => Reverse(ts)
  }

  /** The reverse is in place, on the array the cache also holds: reversing it a second time
      (a second render of the memo, or a remount that reads the cache) restores the server's
      oldest-first order. */
  lemma ReverseTwiceRestores<T>(s: seq<T>)
    ensures Reverse(Reverse(s)) == s
  {
  }
}

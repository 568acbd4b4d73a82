/** Properties that cross the wire: what the server's handlers receive from the links and
    requests the client builds, and what the client shows for the tasks the server lists. */
module EndToEnd {
  import opened Common
  import opened Strings
  import opened Urls
  import opened UriCoding
  import opened ApiTypes
  import opened Video
  import Api
  import App
  import Tasks
  import Server
  import Conversion

  /** A task as `json.Marshal` writes it and the client reads it back. How a non-nil Go
      `error` is written depends on its dynamic type, which is not part of this model; it is
      represented by an opaque truthy value, so only whether an error is present is recorded. */
  function TaskJson(t: Tasks.Task): (v: App.TaskView)
    ensures v.url == t.url && v.slug == t.slug && v.thumbnail == t.thumbnail
    ensures v.title == t.title && v.artist == t.artist && v.album == t.album
    ensures v.isPending == t.isPending && v.result == t.result
    ensures App.Truthy(v.error) <==> t.error.Some?
  {
    App.TaskView(t.url, t.slug, t.thumbnail, t.title, t.artist, t.album, t.isPending, t.result,
                 if t.error.Some? then App.JsObject else App.JsNull)
  }

  /** The status cell of a listed task follows the server's record: a spinner while pending,
      "Error!" for a recorded error, "Done" otherwise. */
  lemma StatusFollowsTask(t: Tasks.Task)
    ensures App.StatusOf(TaskJson(t)) ==
      (if t.isPending then App.Spinner else if t.error.Some? then App.ErrorLabel else App.Done)
  {
  }

  /** The rows the client renders for the registry's listing: newest first. */
  function Rows(r: Tasks.Registry): (rows: seq<App.TaskView>)
    requires Tasks.Valid(r)
    ensures |rows| == |r.history|
    ensures forall i :: 0 <= i < |rows| ==>
      r.history[|rows| - 1 - i] in r.store && rows[i] == TaskJson(r.store[r.history[|rows| - 1 - i]])
  {
    var ts := Server.ListTasksHandler(r);
    App.DisplayOrder(Some(seq(|ts|, i requires 0 <= i < |ts| => TaskJson(ts[i]))))
  }

  /** The characters of a file name the browser and Go's path handling carry through a link
      unchanged: no separator, query, fragment, escape, backslash or stripped control character. */
  predicate PathSafe(c: char) {
    c != '/' && c != '?' && c != '#' && c != '%' && c != '\\' && c != '\t' && c != '\n' && c != '\r'
  }

  /** The directory part of a file link: `/api/get`. */
  const FileDir := Api.ApiBaseUrl + App.FileRoute

  /** The link a finished task gets points at its file. */
  lemma {:induction false} DownloadUrlNamesFile(t: App.TaskView, outDir: string, slug: string)
    requires !t.isPending && t.result == Conversion.SlugPath(outDir, slug, "mp3")
    requires '/' !in slug
    ensures App.DownloadUrl(t) == FileDir + "/" + (slug + ".mp3")
  {
    Conversion.OutputNameIsSlug(outDir, slug);
    assert t.result != "";
  }

  /** The download button's query asks for an attachment. A fact about a string literal,
      proved once here so the lemmas that rely on it do not unfold the literal themselves. */
  lemma DownloadQuery()
    ensures QueryGet(App.ForceDownloadQuery, "dl") == "true"
    ensures '#' !in App.ForceDownloadQuery
  {
    QueryGetSinglePair("dl", "true");
  }

  /** The server's answer for a path naming a file it can open, without a query: served
      inline as audio. */
  lemma ServesNamedFileInline(path: string, name: string, open: string -> Option<string>)
    requires name != "" && AfterLast(path, '/') == name && open(name).None?
    ensures Server.FileHandler(Target(path, ""), open)
      == Server.Success(Server.ServedFile(name, [("Content-Type", "audio/mpeg")]))
  {
    QueryGetEmpty("dl");
    Server.ServesInline(Target(path, ""), open);
  }

  /** The same path with `dl=true`: served as an attachment under its name. */
  lemma ServesNamedFileAttached(path: string, name: string, open: string -> Option<string>)
    requires name != "" && AfterLast(path, '/') == name && open(name).None?
    ensures Server.FileHandler(Target(path, App.ForceDownloadQuery), open)
      == Server.Success(Server.ServedFile(name,
           [("Content-Type", "audio/mpeg"), ("Content-Disposition", "attachment; filename=" + name)]))
  {
    DownloadQuery();
    Server.ServesAttachment(Target(path, App.ForceDownloadQuery), open);
  }

  /** A file name the browser carries through unchanged, as a sequence predicate. */
  predicate PathSafeName(name: string) {
    forall i :: 0 <= i < |name| ==> PathSafe(name[i])
  }

  lemma PathSafeNameHasNoDelimiters(name: string)
    requires PathSafeName(name)
    ensures '/' !in name && '?' !in name && '#' !in name
  {
  }

  /** The path of a file's link holds no query or fragment delimiter and ends in its name. */
  lemma LinkPath(name: string)
    requires '/' !in name && '?' !in name && '#' !in name
    ensures '?' !in FileDir + "/" + name && '#' !in FileDir + "/" + name
    ensures AfterLast(FileDir + "/" + name, '/') == name
  {
    var link := FileDir + "/" + name;
    AfterLastSlash(FileDir, name);
    assert |FileDir| == 8;
    assert forall i :: 0 <= i < 8 ==> link[i] == FileDir[i];
    assert forall i :: 9 <= i < |link| ==> link[i] == name[i - 9];
  }

  /** Following a file's plain link requests its path with no query. */
  lemma PlainLinkTarget(name: string)
    requires '/' !in name && '?' !in name && '#' !in name
    ensures BrowserTarget(FileDir + "/" + name) == Target(FileDir + "/" + name, "")
  {
    LinkPath(name);
  }

  /** Following the download button's link requests the same path with `dl=true`. */
  lemma ForcedLinkTarget(name: string)
    requires '/' !in name && '?' !in name && '#' !in name
    ensures BrowserTarget(App.ForcedDownloadUrl(FileDir + "/" + name))
      == Target(FileDir + "/" + name, App.ForceDownloadQuery)
  {
    LinkPath(name);
    DownloadQuery();
    BrowserTargetSplitsAtQuestionMark(FileDir + "/" + name, App.ForceDownloadQuery);
  }

  /** A slug the browser carries through unchanged gives a file name it carries through too. */
  lemma SlugFileName(slug: string)
    requires PathSafeName(slug)
    ensures PathSafeName(slug + ".mp3") && slug + ".mp3" != ""
  {
    var name := slug + ".mp3";
    forall i | 0 <= i < |name|
      ensures PathSafe(name[i])
    {
      if i < |slug| { assert name[i] == slug[i]; }
    }
  }

  /** The link of a finished task, for a slug the browser carries through unchanged. */
  lemma FinishedTaskLink(t: App.TaskView, outDir: string, slug: string)
    requires !t.isPending && t.result == Conversion.SlugPath(outDir, slug, "mp3")
    requires PathSafeName(slug)
    ensures var name := slug + ".mp3";
      && App.DownloadUrl(t) == FileDir + "/" + name
      && name != "" && '/' !in name && '?' !in name && '#' !in name
      && AfterLast(FileDir + "/" + name, '/') == name
  {
    PathSafeNameHasNoDelimiters(slug);
    SlugFileName(slug);
    PathSafeNameHasNoDelimiters(slug + ".mp3");
    DownloadUrlNamesFile(t, outDir, slug);
    LinkPath(slug + ".mp3");
  }

  /** Following a finished task's link serves its MP3 by name, inline. */
  lemma DownloadLinkServesFile(
    t: App.TaskView, outDir: string, slug: string, open: string -> Option<string>)
    requires !t.isPending && t.result == Conversion.SlugPath(outDir, slug, "mp3")
    requires PathSafeName(slug)
    requires open(slug + ".mp3").None?
    ensures Server.FileHandler(BrowserTarget(App.DownloadUrl(t)), open)
      == Server.Success(Server.ServedFile(slug + ".mp3", [("Content-Type", "audio/mpeg")]))
  {
    var name := slug + ".mp3";
    FinishedTaskLink(t, outDir, slug);
    PlainLinkTarget(name);
    ServesNamedFileInline(FileDir + "/" + name, name, open);
  }

  /** Following the download button's link serves the same file as an attachment under its
      name. */
  lemma ForcedLinkServesAttachment(
    t: App.TaskView, outDir: string, slug: string, open: string -> Option<string>)
    requires !t.isPending && t.result == Conversion.SlugPath(outDir, slug, "mp3")
    requires PathSafeName(slug)
    requires open(slug + ".mp3").None?
    ensures Server.FileHandler(BrowserTarget(App.ForcedDownloadUrl(App.DownloadUrl(t))), open)
      == Server.Success(Server.ServedFile(slug + ".mp3",
           [("Content-Type", "audio/mpeg"), ("Content-Disposition", "attachment; filename=" + (slug + ".mp3"))]))
  {
    var name := slug + ".mp3";
    FinishedTaskLink(t, outDir, slug);
    ForcedLinkTarget(name);
    ServesNamedFileAttached(FileDir + "/" + name, name, open);
  }

  /** The server-side value of the `url` parameter of an info request. */
  function ReceivedVideoUrl(path: string): string {
    QueryGet(BrowserTarget(Api.ApiRequest(path, ()).url).rawQuery, "url")
  }

  /** The info route, `/api/info`. */
  const InfoDir := Api.ApiBaseUrl + App.InfoRoute

  /** The info route holds no query or fragment delimiter. A literal fact, proved once here
      so the request lemmas do not unfold the literal themselves. */
  lemma InfoDirIsPlain()
    ensures '?' !in InfoDir && '#' !in InfoDir
  {
    assert |InfoDir| == 9;
    assert forall i :: 0 <= i < 9 ==> InfoDir[i] == "/api/info"[i];
  }

  /** An info request for a query `q` without `#` reaches the info route with `q` as its
      query. */
  lemma InfoRequestTarget(path: string, q: string)
    requires path == App.InfoRoute + "?" + q && '#' !in q
    ensures BrowserTarget(Api.ApiRequest(path, ()).url) == Target(InfoDir, q)
  {
    InfoDirIsPlain();
    assert Api.ApiRequest(path, ()).url == InfoDir + "?" + q;
    BrowserTargetSplitsAtQuestionMark(InfoDir, q);
  }

  /** `url=` followed by a value without `#` holds no `#`. */
  lemma UrlQueryPlain(value: string)
    requires '#' !in value
    ensures '#' !in "url" + "=" + value
  {
    var q := "url" + "=" + value;
    assert forall i :: 0 <= i < 4 ==> q[i] == "url="[i];
    assert forall i :: 4 <= i < |q| ==> q[i] == value[i - 4];
  }

  /** The info request goes to the info route with the escaped URL as its only parameter. */
  lemma InfoTarget(url: string)
    ensures BrowserTarget(Api.ApiRequest(App.InfoPath(url), ()).url)
      == Target(InfoDir, "url" + "=" + EncodeUriComponent(url))
  {
    EncodeUriComponentHasNoDelimiters(url);
    UrlQueryPlain(EncodeUriComponent(url));
    InfoRequestTarget(App.InfoPath(url), "url" + "=" + EncodeUriComponent(url));
  }

  /** Go reads the escaped URL back as its UTF-8 bytes. */
  lemma InfoQueryValue(url: string)
    ensures QueryGet("url" + "=" + EncodeUriComponent(url), "url") == Utf8String(url)
  {
    EncodeUriComponentHasNoDelimiters(url);
    QueryGetPair("url", EncodeUriComponent(url));
    UnescapeEncodeUriComponent(url);
  }

  /** With the video URL escaped as a query component, the server receives exactly the URL the
      user entered, as UTF-8. */
  lemma InfoRequestCarriesUrl(url: string)
    ensures ReceivedVideoUrl(App.InfoPath(url)) == Utf8String(url)
  {
    InfoTarget(url);
    InfoQueryValue(url);
  }

  /** A URL that `encodeURI` leaves alone reaches the info route unchanged as the raw query. */
  lemma InfoTargetAsWritten(url: string)
    requires forall i :: 0 <= i < |url| ==> KeptByEncodeUri(url[i]) && url[i] != '#'
    ensures BrowserTarget(Api.ApiRequest(App.InfoPathAsWritten(url), ()).url)
      == Target(InfoDir, "url" + "=" + url)
  {
    EncodeKeepsAll(url, KeptByEncodeUri);
    UrlQueryPlain(url);
    InfoRequestTarget(App.InfoPathAsWritten(url), "url" + "=" + url);
  }

  /** The name of the info request's parameter needs no escaping. A literal fact, proved once
      here so the query lemmas do not unfold the literal themselves. */
  lemma UrlKeyIsPlain()
    ensures "url" != "" && '&' !in "url" && ';' !in "url" && '=' !in "url" && '%' !in "url" && '+' !in "url"
  {
  }

  /** Joining two strings `encodeURI` keeps with a `&` gives one it keeps. */
  lemma KeptAroundAmpersand(head: string, tail: string)
    requires forall i :: 0 <= i < |head| ==> KeptByEncodeUri(head[i]) && head[i] != '#'
    requires forall i :: 0 <= i < |tail| ==> KeptByEncodeUri(tail[i]) && tail[i] != '#'
    ensures var url := head + "&" + tail;
      forall i :: 0 <= i < |url| ==> KeptByEncodeUri(url[i]) && url[i] != '#'
  {
    var url := head + "&" + tail;
    assert forall i :: 0 <= i < |head| ==> url[i] == head[i];
    assert url[|head|] == '&';
    assert forall i :: |head| < i < |url| ==> url[i] == tail[i - |head| - 1];
  }

  /** As written, `encodeURI` leaves a `&` of the video URL in place, and the server receives
      the URL cut short at it: everything from the first `&` on is lost. */
  lemma InfoRequestAsWrittenTruncates(head: string, tail: string)
    requires forall i :: 0 <= i < |head| ==> KeptByEncodeUri(head[i]) && head[i] != '#'
    requires forall i :: 0 <= i < |tail| ==> KeptByEncodeUri(tail[i]) && tail[i] != '#'
    requires '&' !in head && ';' !in head && '%' !in head && '+' !in head
    ensures ReceivedVideoUrl(App.InfoPathAsWritten(head + "&" + tail)) == head
  {
    var url := head + "&" + tail;
    KeptAroundAmpersand(head, tail);
    InfoTargetAsWritten(url);
    UrlKeyIsPlain();
    QueryGetFirstPair("url", head, tail);
  }

  /** For instance, `http://a?b&c` arrives as `http://a?b`. */
  lemma InfoRequestAsWrittenExample()
    ensures ReceivedVideoUrl(App.InfoPathAsWritten("http://a?b" + "&" + "c")) == "http://a?b"
  {
    InfoRequestAsWrittenTruncates("http://a?b", "c");
  }

  /** A video URL the as-written request carries intact: every character is one `encodeURI`
      keeps, and none is a delimiter or escape Go's query parser acts on. */
  predicate SurvivesEncodeUri(url: string) {
    forall i :: 0 <= i < |url| ==>
      KeptByEncodeUri(url[i]) && url[i] != '#' && url[i] != '&' && url[i] != ';' && url[i] != '%' && url[i] != '+'
  }

  /** As written, such a URL reaches the server exactly as entered. */
  lemma InfoRequestAsWrittenIntact(url: string)
    requires SurvivesEncodeUri(url)
    ensures ReceivedVideoUrl(App.InfoPathAsWritten(url)) == url
  {
    InfoTargetAsWritten(url);
    UrlKeyIsPlain();
    assert '&' !in url && ';' !in url && '%' !in url && '+' !in url;
    QueryGetSinglePair("url", url);
  }

  /** The preview the info handler returns for the request the client sends echoes the URL,
      so the body the form posts carries the URL the user entered, provided the URL survives
      `encodeURI` (InfoRequestAsWrittenTruncates shows what happens to one with a `&`). */
  lemma PreviewEchoesEnteredUrl(
    url: string, lookup: string -> Result<VideoInfo, string>, makeSlug: string -> string)
    requires SurvivesEncodeUri(url)
    requires url != ""
    requires lookup(url).Ok?
    ensures var reply := Server.InfoHandler(BrowserTarget(Api.ApiRequest(App.InfoPathAsWritten(url), ()).url).rawQuery, lookup, makeSlug);
      reply.Success? && reply.body.url == url
  {
    InfoRequestAsWrittenIntact(url);
  }

  /** The lookup button end to end: a URL typed without surrounding whitespace that the
      client accepts and that survives `encodeURI` is sent by `onFindVideo` and arrives at the
      info handler unchanged. */
  lemma FoundVideoReachesServer(url: string)
    requires App.ValidVideoUrl(url) && !IsJsWhitespace(url[|url| - 1])
    requires SurvivesEncodeUri(url)
    ensures App.FindVideo(App.Initial, true, url).request == Some(App.InfoPathAsWritten(url))
    ensures ReceivedVideoUrl(App.InfoPathAsWritten(url)) == url
  {
    var none: string := [];
    App.FindVideoTrimsPastedUrl(none, url, none);
    assert none + url + none == url;
    InfoRequestAsWrittenIntact(url);
  }

  /** With the corrected request the same holds for every ASCII URL, `&` and all. */
  lemma PreviewEchoesEnteredUrlCorrected(
    url: string, lookup: string -> Result<VideoInfo, string>, makeSlug: string -> string)
    requires forall i :: 0 <= i < |url| ==> url[i] as int < 0x80
    requires url != ""
    requires lookup(url).Ok?
    ensures var reply := Server.InfoHandler(BrowserTarget(Api.ApiRequest(App.InfoPath(url), ()).url).rawQuery, lookup, makeSlug);
      reply.Success? && reply.body.url == url
  {
    InfoTarget(url);
    InfoQueryValue(url);
  }

  /** Submitting an unedited preview creates a task whose conversion, as written or corrected,
      tags the MP3 with the preview's title, artist and album. */
  lemma UneditedPreviewKeepsTags(info: VideoInfo, preview: GetVideoInfoRes, outDir: string, env: Conversion.Env)
    requires preview.title == info.title && preview.artist == EffectiveArtist(info) && preview.album == info.album
    ensures var o := Conversion.Options(outDir, preview.slug, preview.thumbnail, preview.title, preview.artist, preview.album);
      && Conversion.PlanFor(info, o, env) == Conversion.PlanAsWritten(info, o, env)
      && Conversion.PlanFor(info, o, env).title == preview.title
      && Conversion.PlanFor(info, o, env).artist == preview.artist
      && Conversion.PlanFor(info, o, env).album == preview.album
  {
    var o := Conversion.Options(outDir, preview.slug, preview.thumbnail, preview.title, preview.artist, preview.album);
    Conversion.PlansAgreeOnUneditedTags(info, o, env);
  }

  /** The whole life of one task: created from a posted body on an idle scheduler, converted
      without a failing effect, and listed. The newest row is "Done" and links to
      `/api/get/<slug>.mp3`. */
  lemma {:induction false} SubmittedTaskIsListedDone(
    r: Tasks.Registry, body: CreateTaskBody, info: VideoInfo, outDir: string,
    env: Conversion.Env, fx: Conversion.Effects)
    requires Tasks.Valid(r) && Tasks.PendingTasksUnfinished(r) && |r.queue| == 0
    requires body.url != "" && body.slug != "" && '/' !in body.slug
    requires fx.mkdir.None? && fx.video.None? && fx.convert.None?
    requires Conversion.FetchThumbnail(info.thumbnail, fx.thumb) != Conversion.ThumbPanicked
    ensures var created := Server.CreateTaskHandler(r, Ok(body));
      var r1 := created.0;
      var head := r1.store[r1.queue[0]];
      var o := Tasks.StepOutcome(head, Ok(info), outDir, env, fx);
      && o.Some?
      && var r2 := Tasks.Step(r1, o.value);
      && Tasks.Valid(r2)
      && |Rows(r2)| >= 1
      && App.StatusOf(Rows(r2)[0]) == App.Done
      && App.DownloadUrl(Rows(r2)[0]) == FileDir + "/" + (body.slug + ".mp3")
  {
    var created := Server.CreateTaskHandler(r, Ok(body));
    var c := Tasks.NewTask(r, Server.TaskFromBody(body));
    assert created.0 == c.registry;
    var r1 := c.registry;
    Tasks.NewTaskPreservesValid(r, Server.TaskFromBody(body));
    Tasks.NewTaskKeepsUnfinished(r, Server.TaskFromBody(body));
    assert r1.queue == [c.id];
    var head := r1.store[c.id];
    assert head == c.task;
    var options := Tasks.ConversionOptions(head, outDir);
    var plan := Conversion.PlanAsWritten(info, options, env);
    assert plan.slug == body.slug;
    var o := Tasks.StepOutcome(head, Ok(info), outDir, env, fx);
    assert o == Some(Tasks.Converted(plan.out, None));
    var r2 := Tasks.Step(r1, o.value);
    Tasks.StepPreservesValid(r1, o.value);
    Tasks.HistoryFacts(r2);
    var done := r2.store[c.id];
    assert !done.isPending && done.error.None? && done.result == plan.out;
    var rows := Rows(r2);
    assert r2.history[|r2.history| - 1] == c.id;
    assert rows[0] == TaskJson(done);
    DownloadUrlNamesFile(rows[0], outDir, body.slug);
  }
}

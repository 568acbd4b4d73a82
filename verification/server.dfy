/** The decisions of the HTTP handlers in main.go: which status and message a request gets,
    and what it does to the task registry. Lookups and file opening are given as outcomes. */
module Server {
  import opened Common
  import opened Strings
  import opened Urls
  import opened ApiTypes
  import opened Video
  import Tasks

  const StatusBadRequest := 400
  const StatusNotFound := 404
  const StatusInternalServerError := 500

  const NoVideoUrlProvided := "No video url provided"
  const NoFilenameProvided := "No filename provided"

  /** A handler's answer: an `http.Error` with its status and message, or a successful body. */
  datatype Reply<T> = Failure(status: nat, message: string) | Success(body: T)

  /** `GET /api/info/`: a missing `url` parameter is a 400 and no lookup happens; a failed
      lookup is a 500; otherwise the preview echoes the parameter and prefers the video's artist
      to its channel. */
  function InfoHandler(
    rawQuery: string, lookup: string -> Result<VideoInfo, string>, makeSlug: string -> string
  ): (r: Reply<GetVideoInfoRes>)
    ensures QueryGet(rawQuery, "url") == "" ==> r == Failure(StatusBadRequest, NoVideoUrlProvided)
    ensures QueryGet(rawQuery, "url") != "" && lookup(QueryGet(rawQuery, "url")).Err? ==>
      r == Failure(StatusInternalServerError, lookup(QueryGet(rawQuery, "url")).error)
    ensures r.Success? ==>
      var url := QueryGet(rawQuery, "url");
      var info := lookup(url).value;
      && url != "" && lookup(url).Ok?
      && r.body.url == url
      && r.body.artist == (if info.artist != "" then info.artist else info.channel)
      && r.body.title == info.title && r.body.album == info.album
      && r.body.thumbnail == info.thumbnail && r.body.slug == makeSlug(info.title)
  {
    var url := QueryGet(rawQuery, "url");
    if |url| == 0 then Failure(StatusBadRequest, NoVideoUrlProvided)
    else
      match lookup(url)
      case Err(e) => Failure(StatusInternalServerError, e)
      case Ok(info) =>
        Success(GetVideoInfoRes(url, makeSlug(info.title), info.thumbnail, info.title,
                                EffectiveArtist(info), info.album))
  }

  /** Without a `url` parameter the answer does not depend on the lookup at all. */
  lemma InfoWithoutUrlSkipsLookup(
    rawQuery: string, l1: string -> Result<VideoInfo, string>, l2: string -> Result<VideoInfo, string>,
    makeSlug: string -> string)
    requires QueryGet(rawQuery, "url") == ""
    ensures InfoHandler(rawQuery, l1, makeSlug) == InfoHandler(rawQuery, l2, makeSlug)
  {
  }

  /** The task a valid create request builds: the six body fields, nothing else. */
  function TaskFromBody(b: CreateTaskBody): (t: Tasks.Task)
    ensures t.url == b.url && t.slug == b.slug && t.thumbnail == b.thumbnail
    ensures t.title == b.title && t.artist == b.artist && t.album == b.album
    ensures t.result == "" && t.error.None?
  {
    Tasks.Task(b.url, b.slug, b.thumbnail, b.title, b.artist, b.album, false, "", None)
  }

  /** `POST /api/tasks/`: an undecodable body or an empty `url` is a 400 and creates nothing;
      otherwise the task is created from the body and returned pending. */
  function CreateTaskHandler(r: Tasks.Registry, body: Result<CreateTaskBody, string>)
    : (out: (Tasks.Registry, Reply<Tasks.Task>))
    ensures body.Err? ==> out == (r, Failure(StatusBadRequest, body.error))
    ensures body.Ok? && body.value.url == "" ==> out == (r, Failure(StatusBadRequest, NoVideoUrlProvided))
    ensures out.1.Success? <==> body.Ok? && body.value.url != ""
    ensures out.1.Success? ==>
      var created := Tasks.NewTask(r, TaskFromBody(body.value));
      && out.0 == created.registry
      && out.1.body == created.task
      && out.1.body.isPending
      && out.1.body.url == body.value.url && out.1.body.slug == body.value.slug
      && out.1.body.thumbnail == body.value.thumbnail && out.1.body.title == body.value.title
      && out.1.body.artist == body.value.artist && out.1.body.album == body.value.album
  {
    match body
    case Err(e) => (r, Failure(StatusBadRequest, e))
    case Ok(b) =>
      if |b.url| == 0 then (r, Failure(StatusBadRequest, NoVideoUrlProvided))
      else
        var created := Tasks.NewTask(r, TaskFromBody(b));
        (created.registry, Success(created.task))
  }

  /** Every state the handler leaves behind is valid, and its pending tasks carry no result
      and no error, whatever requests arrive. */
  lemma CreateTaskKeepsInvariants(r: Tasks.Registry, body: Result<CreateTaskBody, string>)
    requires Tasks.Valid(r) && Tasks.PendingTasksUnfinished(r)
    ensures Tasks.Valid(CreateTaskHandler(r, body).0)
    ensures Tasks.PendingTasksUnfinished(CreateTaskHandler(r, body).0)
  {
    if body.Ok? && body.value.url != "" {
      Tasks.NewTaskPreservesValid(r, TaskFromBody(body.value));
      Tasks.NewTaskKeepsUnfinished(r, TaskFromBody(body.value));
    }
  }

  /** `GET /api/tasks/`: the history, oldest first. */
  function ListTasksHandler(r: Tasks.Registry): (ts: seq<Tasks.Task>)
    requires Tasks.Valid(r)
    ensures |ts| == |r.history| <= Tasks.HistoryLimit
    ensures forall i :: 0 <= i < |ts| ==> r.history[i] in r.store && ts[i] == r.store[r.history[i]]
  {
    Tasks.HistoryFacts(r);
    Tasks.GetTasks(r)
  }

  /** A served file: its name and the response headers. */
  datatype ServedFile = ServedFile(name: string, headers: seq<(string, string)>)

  /** The value of the first header called `name`. */
  function Header(headers: seq<(string, string)>, name: string): (v: Option<string>)
    ensures v.Some? ==>
      (exists i :: 0 <= i < |headers| && headers[i] == (name, v.value)
         && forall j :: 0 <= j < i ==> headers[j].0 != name)
    ensures v.None? ==> forall i :: 0 <= i < |headers| ==> headers[i].0 != name
  {
    if |headers| == 0 then None
    else if headers[0].0 == name then Some(headers[0].1)
    else
      var v := Header(headers[1..], name);
      assert forall i :: 0 <= i < |headers| - 1 ==> headers[1..][i] == headers[i + 1];
      v
  }

  /** `GET /api/get/`: the file name is what follows the last `/` of the path; an empty name is
      a 400 and nothing is opened; an open failure is a 404; otherwise the file is served as
      audio, as an attachment exactly when the `dl` parameter is "true". `open` gives the
      outcome of opening the name under `OUT_DIR`. */
  function FileHandler(target: Target, open: string -> Option<string>): (r: Reply<ServedFile>)
    ensures AfterLast(target.path, '/') == "" ==> r == Failure(StatusBadRequest, NoFilenameProvided)
    ensures r.Success? ==>
      && r.body.name == AfterLast(target.path, '/')
      && r.body.name != "" && '/' !in r.body.name
      && open(r.body.name).None?
      && Header(r.body.headers, "Content-Type") == Some("audio/mpeg")
      && (Header(r.body.headers, "Content-Disposition").Some? <==> QueryGet(target.rawQuery, "dl") == "true")
      && (QueryGet(target.rawQuery, "dl") == "true" ==>
            Header(r.body.headers, "Content-Disposition") == Some("attachment; filename=" + r.body.name))
    ensures r.Failure? && AfterLast(target.path, '/') != "" ==>
      open(AfterLast(target.path, '/')).Some? && r == Failure(StatusNotFound, open(AfterLast(target.path, '/')).value)
  {
    var filename := AfterLast(target.path, '/');
    var isDownload := QueryGet(target.rawQuery, "dl") == "true";
    if |filename| == 0 then Failure(StatusBadRequest, NoFilenameProvided)
    else
      match open(filename)
      case Some(err) => Failure(StatusNotFound, err)
      case None =>
        var disposition := if isDownload then [("Content-Disposition", "attachment; filename=" + filename)] else [];
        Success(ServedFile(filename, [("Content-Type", "audio/mpeg")] + disposition))
  }

  /** With an empty file name the answer does not depend on the file system. */
  lemma FileWithoutNameSkipsOpen(target: Target, o1: string -> Option<string>, o2: string -> Option<string>)
    requires AfterLast(target.path, '/') == ""
    ensures FileHandler(target, o1) == FileHandler(target, o2)
  {
  }

  /** A named file that opens is served inline as audio when `dl` is not "true". */
  lemma ServesInline(target: Target, open: string -> Option<string>)
    requires AfterLast(target.path, '/') != "" && open(AfterLast(target.path, '/')).None?
    requires QueryGet(target.rawQuery, "dl") != "true"
    ensures FileHandler(target, open) ==
      Success(ServedFile(AfterLast(target.path, '/'), [("Content-Type", "audio/mpeg")]))
  {
    var ct := ("Content-Type", "audio/mpeg");
    var none: seq<(string, string)> := [];
    assert [ct] + none == [ct];
  }

  /** With `dl=true` it is served as an attachment under its name. */
  lemma ServesAttachment(target: Target, open: string -> Option<string>)
    requires AfterLast(target.path, '/') != "" && open(AfterLast(target.path, '/')).None?
    requires QueryGet(target.rawQuery, "dl") == "true"
    ensures var name := AfterLast(target.path, '/');
      FileHandler(target, open) == Success(ServedFile(name,
        [("Content-Type", "audio/mpeg"), ("Content-Disposition", "attachment; filename=" + name)]))
  {
    var name := AfterLast(target.path, '/');
    var ct := ("Content-Type", "audio/mpeg");
    var cd := ("Content-Disposition", "attachment; filename=" + name);
    assert [ct] + [cd] == [ct, cd];
  }
}

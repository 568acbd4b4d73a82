/** The decisions of `Yt2Mp3` and its helpers (lib/yt2mp3.go) with every effect -- directory
    creation, the video download, the thumbnail download and resize, the ffmpeg run -- given as
    an outcome. */
module Conversion {
  import opened Common
  import opened Strings
  import opened Video

  /** `Yt2Mp3Options`: where to write the MP3 and the task's user-supplied fields. */
  datatype Options = Options(
    outDir: string, slug: string, thumbnail: string, title: string, artist: string, album: string)

  /** What the conversion reads from outside the request: `TMP_DIR` and the slug library's
      `slug.Make`, whose source is not part of this model. */
  datatype Env = Env(tmpDir: string, makeSlug: string -> string)

  /** The names and tags a conversion settles on before any effect happens. */
  datatype Plan = Plan(
    slug: string, videoSrc: string, thumbnail: string, out: string,
    title: string, artist: string, album: string)

  const NoVideoFound := "no video found"
  const NoThumbnailFound := "no thumbnail found"

  /** `fmt.Sprintf("%s/%s.<ext>", dir, slug)`. */
  function SlugPath(dir: string, slug: string, ext: string): string {
    dir + "/" + slug + "." + ext
  }

  /** The slug a conversion uses: the requested one, or the slug of the title when none was given. */
  function ChooseSlug(requested: string, title: string, makeSlug: string -> string): string {
    if |requested| == 0 then makeSlug(title) else requested
  }

  /** The plan as the source computes it: the tags come from the video, never from the options. */
  function PlanAsWritten(info: VideoInfo, options: Options, env: Env): (p: Plan)
    ensures p.title == info.title && p.album == info.album
    ensures p.artist == (if info.artist != "" then info.artist else info.channel)
    ensures options.slug != "" ==> p.slug == options.slug
    ensures options.slug == "" ==> p.slug == env.makeSlug(info.title)
    ensures p.out == options.outDir + "/" + p.slug + ".mp3"
    ensures p.videoSrc == env.tmpDir + "/" + p.slug + ".mp4"
    ensures p.thumbnail == env.tmpDir + "/" + p.slug + ".jpg"
  {
    var slug := ChooseSlug(options.slug, info.title, env.makeSlug);
    Plan(slug, SlugPath(env.tmpDir, slug, "mp4"), SlugPath(env.tmpDir, slug, "jpg"),
         SlugPath(options.outDir, slug, "mp3"), info.title, EffectiveArtist(info), info.album)
  }

  /** The title, artist and album the user submitted never reach the as-written plan: two
      requests that differ only in those fields produce the same plan. */
  lemma AsWrittenIgnoresSubmittedTags(info: VideoInfo, o1: Options, o2: Options, env: Env)
    requires o1.outDir == o2.outDir && o1.slug == o2.slug
    ensures PlanAsWritten(info, o1, env) == PlanAsWritten(info, o2, env)
  {
  }

  /** A concrete case: the user retitles "Song Name" to "New Title!", and the MP3 is still tagged
      "Song Name". */
  lemma AsWrittenDropsEditedTitle(env: Env)
    ensures
      var info := VideoInfo("Song Name", "Channel", "", "", "https://i.ytimg.com/vi/abc/hq.jpg");
      var options := Options("/out", "new-title", "", "New Title!", "", "");
      PlanAsWritten(info, options, env).title == "Song Name" != options.title
  {
  }

  /** The tag a conversion writes: the submitted value when non-empty, the video's otherwise. */
  function Prefer(submitted: string, fromVideo: string): string {
    if submitted != "" then submitted else fromVideo
  }

  /** The plan with the submitted title, artist and album taking precedence over the video's
      own, as the preview form that lets the user edit them intends. */
  function PlanFor(info: VideoInfo, options: Options, env: Env): (p: Plan)
    ensures options.title != "" ==> p.title == options.title
    ensures options.title == "" ==> p.title == info.title
    ensures options.artist != "" ==> p.artist == options.artist
    ensures options.artist == "" ==> p.artist == EffectiveArtist(info)
    ensures options.album != "" ==> p.album == options.album
    ensures options.album == "" ==> p.album == info.album
    ensures options.slug != "" ==> p.slug == options.slug
    ensures options.slug == "" ==> p.slug == env.makeSlug(p.title)
    ensures p.out == options.outDir + "/" + p.slug + ".mp3"
    ensures p.videoSrc == env.tmpDir + "/" + p.slug + ".mp4"
    ensures p.thumbnail == env.tmpDir + "/" + p.slug + ".jpg"
  {
    var title := Prefer(options.title, info.title);
    var slug := ChooseSlug(options.slug, title, env.makeSlug);
    Plan(slug, SlugPath(env.tmpDir, slug, "mp4"), SlugPath(env.tmpDir, slug, "jpg"),
         SlugPath(options.outDir, slug, "mp3"), title,
         Prefer(options.artist, EffectiveArtist(info)), Prefer(options.album, info.album))
  }

  /** The two plans differ only where the user edited a tag: with each submitted tag empty or
      equal to the preview's suggestion, they are the same plan. */
  lemma PlansAgreeOnUneditedTags(info: VideoInfo, options: Options, env: Env)
    requires options.title == "" || options.title == info.title
    requires options.artist == "" || options.artist == EffectiveArtist(info)
    requires options.album == "" || options.album == info.album
    ensures PlanFor(info, options, env) == PlanAsWritten(info, options, env)
  {
  }

  /** Both plans agree on every file name whenever a slug was requested. */
  lemma PlansShareFiles(info: VideoInfo, options: Options, env: Env)
    requires options.slug != ""
    ensures var a := PlanAsWritten(info, options, env); var b := PlanFor(info, options, env);
      a.slug == b.slug && a.videoSrc == b.videoSrc && a.thumbnail == b.thumbnail && a.out == b.out
  {
  }

  /** The MP3 is named after the slug: when the slug holds no `/`, the last `/`-segment of the
      output path is `<slug>.mp3`, whatever the output directory. */
  lemma {:induction false} OutputNameIsSlug(outDir: string, slug: string)
    requires '/' !in slug
    ensures AfterLast(SlugPath(outDir, slug, "mp3"), '/') == slug + ".mp3"
  {
    var name := slug + ".mp3";
    assert SlugPath(outDir, slug, "mp3") == outDir + "/" + name;
    assert forall i :: 0 <= i < |slug| ==> name[i] == slug[i];
    assert forall i :: |slug| <= i < |name| ==> name[i] == ".mp3"[i - |slug|];
    AfterLastSlash(outDir, name);
  }

  /** The decoders `resizeImage` chooses between. */
  datatype Decoder = WebpDecoder | GenericDecoder

  /** `imgName[strings.LastIndex(imgName, "."):]`: the extension from the last `.` on, dot
      included. A name without a dot slices from -1, which panics; that is `None` here. */
  function Extension(name: string): (ext: Option<string>)
    ensures ext.None? <==> '.' !in name
    ensures ext.Some? ==> |ext.value| >= 1 && ext.value[0] == '.' && '.' !in ext.value[1..]
    ensures ext.Some? ==> EndsWith(name, ext.value)
  {
    var i := LastIndexOf(name, '.');
    if i < 0 then None else Some(name[i..])
  }

  /** The decoder choice as written: the extension is compared with "webp", without a dot, so
      an extension that carries its dot never selects WebP. */
  function DecoderAsWritten(ext: string): (d: Decoder)
    ensures '.' in ext ==> d == GenericDecoder
  {
    if ext == "webp" then WebpDecoder else GenericDecoder
  }

  /** Since every extension starts with `.`, the webp branch as written is never taken. */
  lemma WebpBranchUnreachable(name: string)
    requires '.' in name
    ensures DecoderAsWritten(Extension(name).value) == GenericDecoder
  {
  }

  /** The decoder choice the switch evidently intends: the webp decoder for a ".webp" extension. */
  function DecoderFor(ext: string): Decoder {
    if ext == ".webp" then WebpDecoder else GenericDecoder
  }

  /** With the corrected comparison a thumbnail name selects the webp decoder exactly when it
      ends in ".webp". */
  lemma DecoderForWebpNames(name: string)
    requires '.' in name
    ensures DecoderFor(Extension(name).value) == WebpDecoder <==> EndsWith(name, ".webp")
  {
    var ext := Extension(name).value;
    if EndsWith(name, ".webp") {
      var k := |name| - 5;
      assert name[k..] == ".webp";
      assert name[k] == '.';
      assert forall i :: k < i < |name| ==> name[i] != '.';
      assert LastIndexOf(name, '.') == k;
    }
  }

  /** The outcomes of the image work inside `resizeImage`: decoding with a given decoder and
      JPEG encoding. */
  datatype ImageEffects = ImageEffects(decode: Decoder -> Option<string>, encode: Option<string>)

  /** How `resizeImage` ends: written, failed with an error, or panicked. */
  datatype ResizeResult = Resized | ResizeFailed(err: string) | ResizePanicked

  /** What `resizeImage` returns once the decoder has run: its error, else the encoder's. */
  function AfterDecode(decoded: Option<string>, encode: Option<string>): ResizeResult {
    if decoded.Some? then ResizeFailed(decoded.value)
    else if encode.Some? then ResizeFailed(encode.value)
    else Resized
  }

  /** `resizeImage` as written: pick a decoder from the name's extension, decode, then encode
      the 512x512 fill. Whatever the name, the generic decoder is the one that runs. */
  function ResizeImage(name: string, fx: ImageEffects): (r: ResizeResult)
    ensures r == ResizePanicked <==> '.' !in name
    ensures '.' in name ==> r == AfterDecode(fx.decode(GenericDecoder), fx.encode)
  {
    match Extension(name)
    case None => ResizePanicked
    case Some(ext) => AfterDecode(fx.decode(DecoderAsWritten(ext)), fx.encode)
  }

  /** `resizeImage` with the corrected comparison: a ".webp" name is decoded as WebP, any
      other by the generic decoder. */
  function ResizeImageCorrected(name: string, fx: ImageEffects): (r: ResizeResult)
    ensures r == ResizePanicked <==> '.' !in name
    ensures '.' in name ==>
      r == AfterDecode(fx.decode(if EndsWith(name, ".webp") then WebpDecoder else GenericDecoder), fx.encode)
  {
    match Extension(name)
    case None => ResizePanicked
    case Some(ext) =>
      DecoderForWebpNames(name);
      AfterDecode(fx.decode(DecoderFor(ext)), fx.encode)
  }

  /** The two differ only on ".webp" names: any other thumbnail is resized the same way. */
  lemma ResizeVariantsAgreeOffWebp(name: string, fx: ImageEffects)
    requires !EndsWith(name, ".webp")
    ensures ResizeImage(name, fx) == ResizeImageCorrected(name, fx)
  {
  }

  /** The outcomes of `fetchThumbnail`'s effects: creating the file, the HTTP download, the image work. */
  datatype ThumbEffects = ThumbEffects(create: Option<string>, download: Option<string>, image: ImageEffects)

  /** How `fetchThumbnail` ends. */
  datatype ThumbResult = ThumbOk | ThumbFailed(err: string) | ThumbPanicked

  /** `fetchThumbnail`: a video without a thumbnail URL fails before any effect. */
  function FetchThumbnail(url: string, fx: ThumbEffects): (r: ThumbResult)
    ensures url == "" ==> r == ThumbFailed(NoThumbnailFound)
    ensures r == ThumbPanicked ==> url != "" && '.' !in url
  {
    if url == "" then ThumbFailed(NoThumbnailFound)
    else if fx.create.Some? then ThumbFailed(fx.create.value)
    else if fx.download.Some? then ThumbFailed(fx.download.value)
    else
      match ResizeImage(url, fx.image)
      case Resized => ThumbOk
      case ResizeFailed(err) => ThumbFailed(err)
      case ResizePanicked => ThumbPanicked
  }

  /** `ConvertOptions`: the ffmpeg job. */
  datatype ConvertOptions = ConvertOptions(
    video: string, thumbnail: string, title: string, artist: string, album: string, output: string)

  /** An ffmpeg input stream: the audio of a file or the picture of a file. */
  datatype Input = AudioOf(path: string) | PictureOf(path: string)

  /** The ffmpeg invocation `convertToMp3` builds. */
  datatype Ffmpeg = Ffmpeg(
    inputs: seq<Input>, output: string, format: string, id3v2Version: string,
    writeId3v1: string, metadata: seq<string>)

  /** `convertToMp3`'s command: the video's audio, the cover picture only when there is one, an
      MP3 with ID3v2.3 and ID3v1 tags carrying exactly title, artist and album, in that order. */
  function FfmpegCall(o: ConvertOptions): (f: Ffmpeg)
    ensures |f.inputs| >= 1 && f.inputs[0] == AudioOf(o.video)
    ensures |f.inputs| == 2 <==> o.thumbnail != ""
    ensures |f.inputs| == 2 ==> f.inputs[1] == PictureOf(o.thumbnail)
    ensures |f.inputs| <= 2
    ensures f.metadata == Tags(o.title, o.artist, o.album)
    ensures f.output == o.output && f.format == "mp3"
  {
    var inputs := [AudioOf(o.video)] + (if o.thumbnail != "" then [PictureOf(o.thumbnail)] else []);
    Ffmpeg(inputs, o.output, "mp3", "3", "1",
           ["title=" + o.title, "artist=" + o.artist, "album=" + o.album])
  }

  /** The job `Yt2Mp3` hands to the converter: the thumbnail path is dropped when the thumbnail
      could not be fetched. */
  function ConvertJob(plan: Plan, thumb: ThumbResult): (o: ConvertOptions)
    requires thumb != ThumbPanicked
    ensures o.thumbnail == (if thumb == ThumbOk then plan.thumbnail else "")
    ensures o.video == plan.videoSrc && o.output == plan.out
    ensures o.title == plan.title && o.artist == plan.artist && o.album == plan.album
  {
    ConvertOptions(plan.videoSrc, if thumb.ThumbFailed? then "" else plan.thumbnail,
                   plan.title, plan.artist, plan.album, plan.out)
  }

  /** A thumbnail failure costs the MP3 its cover and nothing else. */
  lemma ThumbnailFailureDropsCover(plan: Plan, err: string)
    ensures FfmpegCall(ConvertJob(plan, ThumbFailed(err))).inputs == [AudioOf(plan.videoSrc)]
    ensures plan.thumbnail != "" ==>
      FfmpegCall(ConvertJob(plan, ThumbOk)).inputs == [AudioOf(plan.videoSrc), PictureOf(plan.thumbnail)]
  {
  }

  /** The outcomes of every effect of one conversion. */
  datatype Effects = Effects(
    mkdir: Option<string>, video: Option<string>, thumb: ThumbEffects, convert: Option<string>)

  /** How a conversion ends: `Yt2Mp3`'s `(string, error)` together with the ffmpeg command it
      started, when it got that far, or the process dying from a panic in the thumbnail
      goroutine. */
  datatype RunResult = Finished(path: string, err: Option<string>, call: Option<Ffmpeg>) | Crashed

  /** The tags an ffmpeg command writes, in the order `convertToMp3` passes them. */
  function Tags(title: string, artist: string, album: string): seq<string> {
    ["title=" + title, "artist=" + artist, "album=" + album]
  }

  /** `Yt2Mp3` after the plan: create the output directory, download video and thumbnail side
      by side, then convert. ffmpeg is started exactly when the directory and the video are
      there and the thumbnail goroutine did not panic; it writes the plan's tags, and the cover
      only when the thumbnail was fetched. */
  function Run(plan: Plan, thumbUrl: string, fx: Effects): (r: RunResult)
    ensures fx.mkdir.Some? ==> r == Finished("", fx.mkdir, None)
    ensures fx.mkdir.None? && FetchThumbnail(thumbUrl, fx.thumb) == ThumbPanicked ==> r == Crashed
    ensures fx.mkdir.None? && FetchThumbnail(thumbUrl, fx.thumb) != ThumbPanicked && fx.video.Some? ==>
      r == Finished("", fx.video, None)
    ensures r.Finished? && r.call.Some? <==>
      fx.mkdir.None? && fx.video.None? && FetchThumbnail(thumbUrl, fx.thumb) != ThumbPanicked
    ensures r.Finished? && r.call.Some? ==> r.err == fx.convert
    ensures r.Finished? && r.err.None? ==> r.path == plan.out && r.call.Some? && r.call.value.output == plan.out
    ensures r.Finished? && r.err.Some? ==> r.path == ""
    ensures r.Finished? && r.call.Some? ==>
      r.call.value.metadata == Tags(plan.title, plan.artist, plan.album)
      && |r.call.value.inputs| >= 1 && r.call.value.inputs[0] == AudioOf(plan.videoSrc)
      && (|r.call.value.inputs| == 2 <==> plan.thumbnail != "" && FetchThumbnail(thumbUrl, fx.thumb) == ThumbOk)
  {
    if fx.mkdir.Some? then Finished("", fx.mkdir, None)
    else
      var thumb := FetchThumbnail(thumbUrl, fx.thumb);
      if thumb == ThumbPanicked then Crashed
      else if fx.video.Some? then Finished("", fx.video, None)
      else
        var call := FfmpegCall(ConvertJob(plan, thumb));
        if fx.convert.Some? then Finished("", fx.convert, Some(call)) else Finished(call.output, None, Some(call))
  }

  /** `Yt2Mp3`, for a video that may be nil: the plan as written, then the run. A conversion
      whose effects all succeed returns `<outDir>/<slug>.mp3`, the slug being the requested
      one or, when none was given, the slug of the video's own title. Whatever was submitted,
      the MP3 is tagged with the video's own title, artist and album. */
  function Yt2Mp3(video: Option<VideoInfo>, options: Options, env: Env, fx: Effects): (r: RunResult)
    ensures video.None? ==> r == Finished("", Some(NoVideoFound), None)
    ensures r.Finished? && r.err.None? ==>
      video.Some? && r.path == options.outDir + "/" + PlanAsWritten(video.value, options, env).slug + ".mp3"
    ensures r.Finished? && r.err.None? && options.slug == "" ==>
      r.path == options.outDir + "/" + env.makeSlug(video.value.title) + ".mp3"
    ensures (video.Some? && fx.mkdir.None? && fx.video.None? && fx.convert.None?
             && FetchThumbnail(video.value.thumbnail, fx.thumb) != ThumbPanicked) ==>
      (r.Finished? && r.err.None? && r.path == PlanAsWritten(video.value, options, env).out && r.call.Some?)
    ensures r.Finished? && r.call.Some? ==>
      video.Some? &&
      r.call.value.metadata == Tags(video.value.title, EffectiveArtist(video.value), video.value.album)
    ensures r.Finished? && r.call.Some? ==>
      (|r.call.value.inputs| == 2 <==> FetchThumbnail(video.value.thumbnail, fx.thumb) == ThumbOk)
  {
    match video
    case None => Finished("", Some(NoVideoFound), None)
    case Some(info) => Run(PlanAsWritten(info, options, env), info.thumbnail, fx)
  }

  /** `Yt2Mp3` with the submitted tags taking precedence (see PlanFor): the MP3 is tagged with
      each submitted value that is non-empty and the video's own value otherwise. */
  function Yt2Mp3Corrected(video: Option<VideoInfo>, options: Options, env: Env, fx: Effects): (r: RunResult)
    ensures video.None? ==> r == Finished("", Some(NoVideoFound), None)
    ensures r.Finished? && r.err.None? ==>
      video.Some? && r.path == options.outDir + "/" + PlanFor(video.value, options, env).slug + ".mp3"
    ensures r.Finished? && r.call.Some? ==>
      video.Some? &&
      r.call.value.metadata == Tags(
        if options.title != "" then options.title else video.value.title,
        if options.artist != "" then options.artist else EffectiveArtist(video.value),
        if options.album != "" then options.album else video.value.album)
  {
    match video
    case None => Finished("", Some(NoVideoFound), None)
    case Some(info) => Run(PlanFor(info, options, env), info.thumbnail, fx)
  }

  /** When the user left the preview's tags alone, the corrected conversion is the one the
      source performs: same path, same error, same ffmpeg command. */
  lemma CorrectedAgreesOnUneditedTags(info: VideoInfo, options: Options, env: Env, fx: Effects)
    requires options.title == "" || options.title == info.title
    requires options.artist == "" || options.artist == EffectiveArtist(info)
    requires options.album == "" || options.album == info.album
    ensures Yt2Mp3Corrected(Some(info), options, env, fx) == Yt2Mp3(Some(info), options, env, fx)
  {
    PlansAgreeOnUneditedTags(info, options, env);
  }

  /** Where the user edited the title and ffmpeg runs, the two conversions part: the source
      tags the MP3 with the video's title, the corrected one with the submitted title. */
  lemma {:induction false} EditedTitleSeparatesConversions(
    info: VideoInfo, options: Options, env: Env, fx: Effects)
    requires options.title != "" && options.title != info.title
    requires fx.mkdir.None? && fx.video.None?
    requires FetchThumbnail(info.thumbnail, fx.thumb) != ThumbPanicked
    ensures var r := Yt2Mp3(Some(info), options, env, fx);
      r.Finished? && r.call.Some? && r.call.value.metadata[0] == "title=" + info.title
    ensures var r := Yt2Mp3Corrected(Some(info), options, env, fx);
      r.Finished? && r.call.Some? && r.call.value.metadata[0] == "title=" + options.title
    ensures Yt2Mp3Corrected(Some(info), options, env, fx) != Yt2Mp3(Some(info), options, env, fx)
  {
    var prefix := "title=";
    assert (prefix + info.title)[|prefix|..] == info.title;
    assert (prefix + options.title)[|prefix|..] == options.title;
  }

  /** A video download failure is fatal whatever happened to the thumbnail, short of a panic:
      the error is returned and ffmpeg never starts. */
  lemma VideoFailureIsFatal(info: VideoInfo, options: Options, env: Env, fx: Effects)
    requires fx.mkdir.None? && fx.video.Some?
    requires FetchThumbnail(info.thumbnail, fx.thumb) != ThumbPanicked
    ensures Yt2Mp3(Some(info), options, env, fx) == Finished("", fx.video, None)
  {
  }

  /** A thumbnail failure is not: the conversion still writes the MP3, at the path the plan
      as written chose, when the rest succeeds, and the ffmpeg command it starts has the
      video's audio as its only input. */
  lemma ThumbnailFailureIsNotFatal(info: VideoInfo, options: Options, env: Env, fx: Effects)
    requires fx.mkdir.None? && fx.video.None? && fx.convert.None?
    requires FetchThumbnail(info.thumbnail, fx.thumb).ThumbFailed?
    ensures var r := Yt2Mp3(Some(info), options, env, fx);
      r.Finished? && r.err.None? && r.path == PlanAsWritten(info, options, env).out
    ensures var r := Yt2Mp3(Some(info), options, env, fx);
      r.Finished? && r.call.Some? && r.call.value.inputs == [AudioOf(PlanAsWritten(info, options, env).videoSrc)]
  {
  }
}

/** The part of a video lookup result (goutubedl's `Result.Info`) that the server reads. */
module Video {

  datatype VideoInfo = VideoInfo(
    title: string, channel: string, artist: string, album: string, thumbnail: string)

  /** The artist both the preview handler and the converter report: the video's `Artist`
      when it is non-empty, its `Channel` otherwise. */
  function EffectiveArtist(info: VideoInfo): (a: string)
    ensures info.artist != "" ==> a == info.artist
    ensures info.artist == "" ==> a == info.channel
  {
    if info.artist != "" then info.artist else info.channel
  }
}

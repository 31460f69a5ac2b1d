/** VideoService of api/apps/services/video_service.py: downloading a video
    with yt-dlp, fetching its thumbnail, extracting its audio with ffmpeg and
    storing all three as a YouTubeVideo row, with the temporary files removed
    once the row is attempted.

    yt-dlp, the thumbnail download and ffmpeg are parameters:
    ytdlp(format, url) is the downloaded file and its metadata or the message
    yt-dlp fails with, thumbnail(url) the image bytes saved for a thumbnail
    URL, and ffmpeg(invocation) the bytes ffmpeg writes to its output. */
module VideoService {
  import opened Wrappers
  import opened Errors
  import opened LocalFiles
  import opened PyStr
  import opened Decimal
  import opened Models
  import opened Paths

  /** The Settings row the service read when it was constructed. */
  datatype Service = Service(settings: SettingsRecord)

  /** VideoService(): fails when there is no Settings row. */
  function NewService(first: Option<SettingsRecord>): (r: Result<Service, Error>)
    ensures r.Err? <==> first.None?
    ensures r.Err? ==> r.error == ValidationError(SETTINGS_NOT_FOUND)
    ensures r.Ok? ==> r.value.settings == first.value
  {
    if first.None? then Err(ValidationError(SETTINGS_NOT_FOUND)) else Ok(Service(first.value))
  }

  // ---------------------------------------------------------------------
  // Derived strings

  /** The alternatives of the yt-dlp format selector, best first: the best
      video and audio streams no higher than maxHeight, the best single file
      no higher than that, and the best file. */
  function FormatAlternatives(maxHeight: int): seq<string> {
    var h := IntToString(maxHeight);
    ["bestvideo[height<=" + h + "]+bestaudio", "best[height<=" + h + "]", "best"]
  }

  /** The format option: the alternatives separated by '/'. */
  function FormatSelector(maxHeight: int): string {
    Join("/", FormatAlternatives(maxHeight))
  }

  /** yt-dlp reads exactly the three alternatives back out of the selector:
      no alternative contains the separator, whatever the height. */
  lemma FormatSelectorAlternatives(maxHeight: int)
    ensures Split(FormatSelector(maxHeight), "/") == FormatAlternatives(maxHeight)
  {
    var xs := FormatAlternatives(maxHeight);
    assert '/' !in IntToString(maxHeight);
    SplitJoin(xs, '/');
  }

  /** An entry of AUDIO_CODECS. */
  datatype AudioCodec = AudioCodec(codec: string, profile: Option<string>, bitrate: string)

  const AAC_HE_V2 := AudioCodec("libfdk_aac", Some("aac_he_v2"), "24k")
  const AAC := AudioCodec("aac", None, "128k")

  /** The codec _extract_audio uses for the use_he_aac_v2 setting. */
  function SelectCodec(useHeAacV2: bool): (c: AudioCodec)
    ensures useHeAacV2 ==> c.codec == "libfdk_aac" && c.bitrate == "24k"
    ensures !useHeAacV2 ==> c.codec == "aac" && c.bitrate == "128k"
  {
    if useHeAacV2 then AAC_HE_V2 else AAC
  }

  /** The words of the ffmpeg output options for audio extraction:
      overwrite, the codec, the bitrate, no video. */
  function AudioWords(c: AudioCodec): seq<string> {
    ["-y", "-c:a", c.codec, "-b:a", c.bitrate, "-vn"]
  }

  /** The ffmpeg output options: the words separated by spaces. */
  function AudioOptions(c: AudioCodec): string {
    Join(" ", AudioWords(c))
  }

  /** ffmpeg reads the six words back out of the options when neither the
      codec nor the bitrate holds a space; the profile is never among them. */
  lemma AudioOptionWords(c: AudioCodec)
    requires ' ' !in c.codec && ' ' !in c.bitrate
    ensures Split(AudioOptions(c), " ") == ["-y", "-c:a", c.codec, "-b:a", c.bitrate, "-vn"]
  {
    SplitJoin(AudioWords(c), ' ');
  }

  /** Both codec table entries give six-word options. */
  lemma SelectedAudioOptions(useHeAacV2: bool)
    ensures var c := SelectCodec(useHeAacV2);
            Split(AudioOptions(c), " ") == ["-y", "-c:a", c.codec, "-b:a", c.bitrate, "-vn"]
  {
    AudioOptionWords(SelectCodec(useHeAacV2));
  }

  // ---------------------------------------------------------------------
  // download_video and _process_video

  /** The "duration" entry of the metadata: absent, present but null (as for
      live content), or a number of seconds. */
  datatype DurationEntry = NoDuration | NullDuration | Seconds(seconds: nat)

  /** The metadata yt-dlp's extract_info reports that the service reads;
      None for a key that is absent or null. */
  datatype Info = Info(
    id: string,
    ext: string,
    duration: DurationEntry,
    width: Option<nat>,
    height: Option<nat>,
    title: Option<string>,
    thumbnail: Option<string>)

  /** What yt-dlp leaves behind: the metadata and the downloaded file. */
  datatype Download = Download(info: Info, video: Bytes)

  /** ydl.prepare_filename(info) for the template '%(id)s.%(ext)s'. */
  function DownloadPath(info: Info): string {
    info.id + "." + info.ext
  }

  /** The row YouTubeVideo.objects.create builds. The arguments are
      evaluated first, so a null duration raises TypeError in timedelta before
      any row is attempted; then a missing column that may not be null
      (width, height, title) is an IntegrityError. An absent duration is 0
      seconds. */
  function NewVideo(info: Info, thumbnailPath: string, video: Bytes, audio: Bytes): (v: Result<Video, Error>)
    ensures info.duration.NullDuration? ==> v == Err(TypeError)
    ensures !info.duration.NullDuration? ==>
              (v.Ok? <==> info.width.Some? && info.height.Some? && info.title.Some?)
    ensures !info.duration.NullDuration? && v.Err? ==> v.error == IntegrityError
    ensures v.Ok? ==> && v.value.videoId == info.id && v.value.title == info.title.value
                      && v.value.width == info.width.value && v.value.height == info.height.value
                      && v.value.thumbnail == "thumbnails/" + thumbnailPath
                      && v.value.duration == (if info.duration.Seconds? then info.duration.seconds else 0)
                      && v.value.originalVideo == video && v.value.audio == audio
  {
    if info.duration.NullDuration? then Err(TypeError)
    else if info.width.None? || info.height.None? || info.title.None? then Err(IntegrityError)
    else
      var duration := if info.duration.Seconds? then info.duration.seconds else 0;
      Ok(Video(info.id, "thumbnails/" + thumbnailPath, duration, info.width.value, info.height.value,
               info.title.value, video, audio))
  }

  /** The one ffmpeg run of a download. */
  function AudioInvocation(svc: Service, info: Info): (inv: Invocation)
    ensures inv.input == DownloadPath(info) && inv.output == AudioPath(info.id)
  {
    Invocation(DownloadPath(info), AudioPath(info.id), AudioOptions(SelectCodec(svc.settings.useHeAacV2)))
  }

  /** download_video: every failure becomes a VideoProcessingError and
      creates no row; success returns the video's id.  A failing thumbnail
      or audio step leaves the files already written in place; once the row
      is attempted the thumbnail, audio and video files are all removed,
      whether or not it was created.  ffmpeg runs at most once. */
  method DownloadVideo(svc: Service, db: Database, fs: FileSystem, url: string,
                       ytdlp: (string, string) -> Result<Download, string>,
                       thumbnail: Option<string> -> Result<Bytes, string>,
                       ffmpeg: Invocation -> Result<Bytes, string>)
    returns (r: Result<string, Error>, ffmpegRuns: seq<Invocation>)
    requires db.Valid()
    modifies db, fs
    ensures db.Valid()
    ensures db.settings == old(db.settings) && db.subtitles == old(db.subtitles)
    ensures r.Err? ==> r.error.VideoProcessingError? && db.videos == old(db.videos)
    ensures |ffmpegRuns| <= 1 && (r.Ok? ==> |ffmpegRuns| == 1)
    ensures var dl := ytdlp(FormatSelector(svc.settings.maxVideoHeight), url);
            match dl
            case Err(m) =>
              r == Err(VideoProcessingError(ExternalError("yt-dlp", m))) && fs.files == old(fs.files) && ffmpegRuns == []
            case Ok(d) =>
              var info := d.info;
              var written := old(fs.files)[DownloadPath(info) := d.video];
              match thumbnail(info.thumbnail)
              case Err(m) =>
                r == Err(VideoProcessingError(ExternalError("thumbnail", m))) && fs.files == written && ffmpegRuns == []
              case Ok(image) =>
                var inv := AudioInvocation(svc, info);
                && ffmpegRuns == [inv]
                && match ffmpeg(inv)
                   case Err(m) =>
                     r == Err(VideoProcessingError(ExternalError("ffmpeg", m)))
                     && fs.files == written[ThumbnailPath(info.id) := image]
                   case Ok(audio) =>
                     var files := written[ThumbnailPath(info.id) := image][AudioPath(info.id) := audio];
                     var row := NewVideo(info, ThumbnailPath(info.id), files[DownloadPath(info)], audio);
                     && fs.files == old(fs.files) - {ThumbnailPath(info.id), AudioPath(info.id), DownloadPath(info)}
                     && (r.Ok? <==> row.Ok? && forall id :: id in old(db.videos) ==> old(db.videos)[id].videoId != info.id)
                     && (row.Err? ==> r == Err(VideoProcessingError(row.error)))
                     && (row.Ok? && r.Err? ==> r == Err(VideoProcessingError(IntegrityError)))
                     && (r.Ok? ==> r.value == info.id && exists id: nat :: id !in old(db.videos) && db.videos == old(db.videos)[id := row.value])
  {
    ffmpegRuns := [];
    var dl := ytdlp(FormatSelector(svc.settings.maxVideoHeight), url);
    if dl.Err? {
      return Err(VideoProcessingError(ExternalError("yt-dlp", dl.error))), ffmpegRuns;
    }
    var info := dl.value.info;
    var videoPath := DownloadPath(info);
    fs.Write(videoPath, dl.value.video);
    var failure;
    failure, ffmpegRuns := ProcessVideo(svc, db, fs, info, videoPath, thumbnail, ffmpeg);
    if failure.Some? {
      return Err(VideoProcessingError(failure.value)), ffmpegRuns;
    }
    r := Ok(info.id);
  }

  /** The try/finally block of _process_video: YouTubeVideo.objects.create
      with the three files read, then the three files removed whatever
      happened. An argument that fails to evaluate raises before the insert,
      and a taken video_id is an IntegrityError. None when the row was
      inserted. */
  method StoreVideo(db: Database, fs: FileSystem, info: Info, thumbnailPath: string, audioPath: string,
                    videoPath: string)
    returns (failure: Option<Error>)
    requires db.Valid() && thumbnailPath in fs.files && audioPath in fs.files && videoPath in fs.files
    modifies db, fs
    ensures db.Valid()
    ensures db.settings == old(db.settings) && db.subtitles == old(db.subtitles)
    ensures fs.files == old(fs.files) - {thumbnailPath, audioPath, videoPath}
    ensures var row := NewVideo(info, thumbnailPath, old(fs.files)[videoPath], old(fs.files)[audioPath]);
            && (row.Err? ==> failure == Some(row.error))
            && (failure.None? <==> row.Ok? && forall id :: id in old(db.videos) ==> old(db.videos)[id].videoId != info.id)
            && (row.Ok? && failure.Some? ==> failure == Some(IntegrityError))
            && (failure.Some? ==> db.videos == old(db.videos))
            && (failure.None? ==> exists id: nat :: id !in old(db.videos) && db.videos == old(db.videos)[id := row.value])
  {
    var row := NewVideo(info, thumbnailPath, fs.files[videoPath], fs.files[audioPath]);
    if row.Err? {
      failure := Some(row.error);
    } else {
      var created := db.CreateVideo(row.value);
      failure := if created.Err? then Some(created.error) else None;
    }
    fs.RemoveEach([thumbnailPath, audioPath, videoPath]);
    assert (set p | p in [thumbnailPath, audioPath, videoPath]) == {thumbnailPath, audioPath, videoPath};
  }

  /** _process_video: thumbnail and audio first (their failures escape before
      any cleanup), then the row inside try/finally, with the three files
      removed in the finally block. */
  method ProcessVideo(svc: Service, db: Database, fs: FileSystem, info: Info, videoPath: string,
                      thumbnail: Option<string> -> Result<Bytes, string>,
                      ffmpeg: Invocation -> Result<Bytes, string>)
    returns (failure: Option<Error>, ffmpegRuns: seq<Invocation>)
    requires db.Valid() && videoPath == DownloadPath(info) && videoPath in fs.files
    modifies db, fs
    ensures db.Valid()
    ensures db.settings == old(db.settings) && db.subtitles == old(db.subtitles)
    ensures failure.Some? ==> db.videos == old(db.videos)
    ensures match thumbnail(info.thumbnail)
            case Err(m) =>
              failure == Some(ExternalError("thumbnail", m)) && fs.files == old(fs.files) && ffmpegRuns == []
            case Ok(image) =>
              var inv := AudioInvocation(svc, info);
              && ffmpegRuns == [inv]
              && match ffmpeg(inv)
                 case Err(m) =>
                   failure == Some(ExternalError("ffmpeg", m))
                   && fs.files == old(fs.files)[ThumbnailPath(info.id) := image]
                 case Ok(audio) =>
                   var files := old(fs.files)[ThumbnailPath(info.id) := image][AudioPath(info.id) := audio];
                   var row := NewVideo(info, ThumbnailPath(info.id), files[videoPath], audio);
                   && fs.files == old(fs.files) - {ThumbnailPath(info.id), AudioPath(info.id), videoPath}
                   && (row.Err? ==> failure == Some(row.error))
                   && (row.Ok? && failure.Some? ==> failure == Some(IntegrityError))
                   && (failure.None? <==> row.Ok? && forall id :: id in old(db.videos) ==> old(db.videos)[id].videoId != info.id)
                   && (failure.None? ==> exists id: nat :: id !in old(db.videos) && db.videos == old(db.videos)[id := row.value])
  {
    ffmpegRuns := [];
    // _download_thumbnail
    var image := thumbnail(info.thumbnail);
    if image.Err? {
      return Some(ExternalError("thumbnail", image.error)), ffmpegRuns;
    }
    var thumbnailPath := ThumbnailPath(info.id);
    fs.Write(thumbnailPath, image.value);
    // _extract_audio
    var audioPath := AudioPath(info.id);
    var inv := AudioInvocation(svc, info);
    ffmpegRuns := [inv];
    var audio := ffmpeg(inv);
    if audio.Err? {
      return Some(ExternalError("ffmpeg", audio.error)), ffmpegRuns;
    }
    fs.Write(audioPath, audio.value);
    failure := StoreVideo(db, fs, info, thumbnailPath, audioPath, videoPath);
    WritesThenRemoveThree(old(fs.files), thumbnailPath, image.value, audioPath, audio.value, videoPath);
  }
}

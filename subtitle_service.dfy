/** SubtitleService of api/apps/services/subtitle_service.py: transcribing a
    video's audio, translating a subtitle through the conversation, burning a
    subtitle into the video, and streaming the result while deleting it.

    The OpenAI transcription, the model's replies and ffmpeg are parameters:
    transcribe(audio) is what the transcription API returns for the uploaded
    audio, replies(k) the model's reply to the k-th request, and
    ffmpeg(invocation) the bytes ffmpeg writes to the output file, or the
    message it fails with. */
module SubtitleService {
  import opened Wrappers
  import opened Errors
  import opened LocalFiles
  import opened Decimal
  import opened Models
  import opened Paths
  import opened Conversation
  import opened PyStr

  /** TRANSCRIPTION_CHUNK_SIZE of api/apps/constants.py. */
  const TRANSCRIPTION_CHUNK_SIZE: nat := 1024 * 8

  const OPENAI_KEY_NOT_SET := "OpenAI API Key not set"

  /** The Settings row the service read when it was constructed. */
  datatype Service = Service(settings: SettingsRecord)

  /** SubtitleService(): fails when there is no Settings row. */
  function NewService(first: Option<SettingsRecord>): (r: Result<Service, Error>)
    ensures r.Err? <==> first.None?
    ensures r.Err? ==> r.error == ValidationError(SETTINGS_NOT_FOUND)
    ensures r.Ok? ==> r.value.settings == first.value
  {
    if first.None? then Err(ValidationError(SETTINGS_NOT_FOUND)) else Ok(Service(first.value))
  }

  // ---------------------------------------------------------------------
  // transcribe_video

  /** transcribe_video: without an OpenAI key nothing happens but the
      ValidationError; otherwise the audio is written to {video_id}.m4a, sent
      for transcription and stored as an English transcribed subtitle, every
      failure becomes a TranscriptionError, and the audio file is gone on
      every exit. */
  method TranscribeVideo(svc: Service, db: Database, fs: FileSystem, videoId: string,
                         transcribe: Bytes -> Result<string, string>)
    returns (r: Result<(), Error>)
    requires db.Valid()
    modifies db, fs
    ensures db.Valid()
    ensures db.settings == old(db.settings) && db.videos == old(db.videos)
    ensures !IsSet(svc.settings.openaiApiKey) ==>
              r == Err(ValidationError(OPENAI_KEY_NOT_SET))
              && fs.files == old(fs.files) && db.subtitles == old(db.subtitles)
    ensures IsSet(svc.settings.openaiApiKey) ==> fs.files == old(fs.files) - {AudioPath(videoId)}
    ensures IsSet(svc.settings.openaiApiKey) && old(db.VideoByVideoId(videoId)).None? ==>
              r == Err(TranscriptionError(NotFound))
    ensures r.Err? ==> db.subtitles == old(db.subtitles)
    ensures r.Err? && IsSet(svc.settings.openaiApiKey) ==> r.error.TranscriptionError?
    ensures IsSet(svc.settings.openaiApiKey) && old(db.VideoByVideoId(videoId)).Some? ==>
              var vid := old(db.VideoByVideoId(videoId)).value;
              match transcribe(old(db.videos)[vid].audio)
              case Err(m) => r == Err(TranscriptionError(ExternalError("openai", m)))
              case Ok(srt) =>
                if LanguageTaken(old(db.subtitles), vid, "English") then r == Err(TranscriptionError(IntegrityError))
                else r.Ok? && AddsOne(old(db.subtitles), db.subtitles, Subtitle(vid, "English", true, srt))
  {
    if !IsSet(svc.settings.openaiApiKey) {
      return Err(ValidationError(OPENAI_KEY_NOT_SET));
    }
    var audioPath := AudioPath(videoId);
    var failure: Option<Error> := None;
    var found := db.VideoByVideoId(videoId);
    if found.None? {
      failure := Some(NotFound);
    } else {
      var video := db.videos[found.value];
      fs.Write(audioPath, video.audio);
      var srtContent := transcribe(video.audio);
      if srtContent.Err? {
        failure := Some(ExternalError("openai", srtContent.error));
      } else {
        var created := db.CreateSubtitle(Subtitle(found.value, "English", true, srtContent.value));
        if created.Err? {
          failure := Some(created.error);
        }
      }
    }
    fs.RemoveIfExists(audioPath);
    if failure.Some? {
      return Err(TranscriptionError(failure.value));
    }
    r := Ok(());
  }

  // ---------------------------------------------------------------------
  // translate_subtitle

  /** _translate_subtitle_anthropic: reads the Settings row again, then
      converses with the caller's temperature and MAX_ITERATIONS rounds. */
  method TranslateSubtitleAnthropic(db: Database, source: Subtitle, targetLanguage: string,
                                    temperature: Option<real>, replies: nat -> Reply)
    returns (sent: seq<Request>, result: Result<string, Error>)
    ensures result == TranslationOutcome(db.FirstSettings(), source.content, MAX_ITERATIONS, replies)
    ensures TranslationRequests(db.FirstSettings(), source.content, targetLanguage,
                                temperature, MAX_ITERATIONS, replies, sent)
  {
    sent, result := Translate(db.FirstSettings(), source.content, targetLanguage, temperature, MAX_ITERATIONS, replies);
  }

  /** translate_subtitle: stores the translation as one new subtitle of the
      source's video in the target language, not transcribed; every failure
      (no such subtitle, the settings checks, the conversation, the
      uniqueness of the language) becomes a SubtitleError and stores
      nothing.  The source subtitle is never changed. */
  method TranslateSubtitle(svc: Service, db: Database, subtitleId: nat, targetLanguage: string,
                           temperature: Option<real>, replies: nat -> Reply)
    returns (sent: seq<Request>, r: Result<(), Error>)
    requires db.Valid()
    modifies db
    ensures db.Valid()
    ensures db.settings == old(db.settings) && db.videos == old(db.videos)
    ensures r.Err? ==> r.error.SubtitleError? && db.subtitles == old(db.subtitles)
    ensures subtitleId !in old(db.subtitles) ==> sent == [] && r == Err(SubtitleError(NotFound))
    ensures subtitleId in old(db.subtitles) ==>
              var source := old(db.subtitles)[subtitleId];
              var translated := TranslationOutcome(db.FirstSettings(), source.content, MAX_ITERATIONS, replies);
              && TranslationRequests(db.FirstSettings(), source.content, targetLanguage,
                                     temperature, MAX_ITERATIONS, replies, sent)
              && (translated.Err? ==> r == Err(SubtitleError(translated.error)))
              && (translated.Ok? && LanguageTaken(old(db.subtitles), source.video, targetLanguage) ==>
                    r == Err(SubtitleError(IntegrityError)))
              && (translated.Ok? && !LanguageTaken(old(db.subtitles), source.video, targetLanguage) ==>
                    r.Ok? && AddsOne(old(db.subtitles), db.subtitles, Subtitle(source.video, targetLanguage, false, translated.value)))
  {
    if subtitleId !in db.subtitles {
      return [], Err(SubtitleError(NotFound));
    }
    var source := db.subtitles[subtitleId];
    var translated;
    sent, translated := TranslateSubtitleAnthropic(db, source, targetLanguage, temperature, replies);
    if translated.Err? {
      return sent, Err(SubtitleError(translated.error));
    }
    var created := db.CreateSubtitle(Subtitle(source.video, targetLanguage, false, translated.value));
    if created.Err? {
      return sent, Err(SubtitleError(created.error));
    }
    r := Ok(());
  }

  // ---------------------------------------------------------------------
  // burn_subtitle

  /** start_seconds or 0: a missing or zero start means the beginning. */
  function TrimStart(startSeconds: Option<int>): (t: int)
    ensures startSeconds.None? || startSeconds == Some(0) ==> t == 0
    ensures startSeconds.Some? ==> t == startSeconds.value
  {
    if startSeconds.None? || startSeconds.value == 0 then 0 else startSeconds.value
  }

  /** end_seconds or duration: a missing or zero end means the whole video. */
  function TrimEnd(endSeconds: Option<int>, duration: nat): (t: int)
    ensures endSeconds.None? || endSeconds == Some(0) ==> t == duration
    ensures endSeconds.Some? && endSeconds.value != 0 ==> t == endSeconds.value
  {
    if endSeconds.None? || endSeconds.value == 0 then duration else endSeconds.value
  }

  /** The ffmpeg output options of a burn-in: copy the audio, draw the
      subtitle file with the fixed font, and trim to [start, end]. */
  function BurnOptions(subtitlePath: string, start: int, end: int): string {
    "-y -c:a copy -filter:v "
    + " subtitles=\"" + subtitlePath + ":force_style='FontName=BM Dohyeon,FontSize=22'\" "
    + " -ss " + IntToString(start) + " "
    + " -to " + IntToString(end)
  }

  /** The one ffmpeg run of a burn-in. */
  function BurnInvocation(video: Video, subtitleId: nat, startSeconds: Option<int>, endSeconds: Option<int>): (inv: Invocation)
    ensures inv.input == VideoPath(video.videoId) && inv.output == OutputPath(video.videoId, subtitleId)
  {
    Invocation(VideoPath(video.videoId), OutputPath(video.videoId, subtitleId),
               BurnOptions(SubtitlePath(video.videoId), TrimStart(startSeconds), TrimEnd(endSeconds, video.duration)))
  }

  /** burn_subtitle: a missing subtitle raises NotFound before anything is
      written; otherwise the video and the subtitle text are written to their
      temporary files, ffmpeg burns them into the output file, and the two
      temporary files are removed on every exit.  On success the response
      streams the output file; a failure of ffmpeg becomes a SubtitleError. */
  method BurnSubtitle(svc: Service, db: Database, fs: FileSystem, subtitleId: nat,
                      startSeconds: Option<int>, endSeconds: Option<int>,
                      ffmpeg: Invocation -> Result<Bytes, string>)
    returns (r: Result<StreamingResponse, Error>)
    requires db.Valid()
    modifies fs
    ensures subtitleId !in db.subtitles ==> r == Err(NotFound) && fs.files == old(fs.files)
    ensures subtitleId in db.subtitles ==>
              var id := db.videos[db.subtitles[subtitleId].video].videoId;
              var inv := BurnInvocation(db.videos[db.subtitles[subtitleId].video], subtitleId, startSeconds, endSeconds);
              var temporary := {VideoPath(id), SubtitlePath(id)};
              match ffmpeg(inv)
              case Err(m) => r == Err(SubtitleError(ExternalError("ffmpeg", m))) && fs.files == old(fs.files) - temporary
              case Ok(out) =>
                && fs.files == old(fs.files)[OutputPath(id, subtitleId) := out] - temporary
                && r.Ok? && fresh(r.value.body) && r.value.body.Valid() && r.value.body.fs == fs
                && r.value.body.path == OutputPath(id, subtitleId) && r.value.body.stage == NotStarted
                && r.value.contentType == "video/mp4" && r.value.contentLength == Some(|out|)
                && r.value.contentDisposition == "attachment; filename=\"" + Basename(OutputPath(id, subtitleId)) + "\""
  {
    if subtitleId !in db.subtitles {
      return Err(NotFound);
    }
    var subtitle := db.subtitles[subtitleId];
    var video := db.videos[subtitle.video];
    var videoPath := VideoPath(video.videoId);
    var subtitlePath := SubtitlePath(video.videoId);
    var outputPath := OutputPath(video.videoId, subtitleId);
    BurnPathsDistinct(video.videoId, subtitleId);
    ghost var before := fs.files;
    ghost var temporary := {videoPath, subtitlePath};
    fs.Write(videoPath, video.originalVideo);
    fs.Write(subtitlePath, EncodeText(subtitle.content));
    var run := ffmpeg(BurnInvocation(video, subtitleId, startSeconds, endSeconds));
    if run.Err? {
      r := Err(SubtitleError(ExternalError("ffmpeg", run.error)));
    } else {
      fs.Write(outputPath, run.value);
      var response := StreamVideoResponse(fs, outputPath);
      r := Ok(response);
    }
    fs.RemoveEach([subtitlePath, videoPath]);
    assert (set p | p in [subtitlePath, videoPath]) == temporary;
    if run.Err? {
      WritesThenRemove(before, videoPath, video.originalVideo, subtitlePath, EncodeText(subtitle.content));
    } else {
      WritesOutputThenRemove(before, videoPath, video.originalVideo, subtitlePath, EncodeText(subtitle.content),
                             outputPath, run.value);
    }
  }

  // ---------------------------------------------------------------------
  // _stream_video_response and its file_iterator

  datatype StreamingResponse = StreamingResponse(
    body: FileIterator,
    contentType: string,
    contentDisposition: string,
    contentLength: Option<nat>)

  /** _stream_video_response: the body reads the file in chunks and removes
      it; Content-Length is the file's size when it exists now. */
  method StreamVideoResponse(fs: FileSystem, videoPath: string) returns (resp: StreamingResponse)
    ensures fresh(resp.body) && resp.body.Valid() && resp.body.stage == NotStarted
    ensures resp.body.fs == fs && resp.body.path == videoPath
    ensures resp.contentType == "video/mp4"
    ensures resp.contentDisposition == "attachment; filename=\"" + Basename(videoPath) + "\""
    ensures resp.contentLength == if videoPath in fs.files then Some(|fs.files[videoPath]|) else None
  {
    var body := new FileIterator(fs, videoPath);
    var length := if videoPath in fs.files then Some(|fs.files[videoPath]|) else None;
    resp := StreamingResponse(body, "video/mp4", "attachment; filename=\"" + Basename(videoPath) + "\"", length);
  }

  /** The chunks f.read(size) returns in turn until the data is used up. */
  function ChunksOf(data: Bytes, size: nat): seq<Bytes>
    requires size > 0
    decreases |data|
  {
    if |data| == 0 then []
    else
      var m := if |data| < size then |data| else size;
      [data[..m]] + ChunksOf(data[m..], size)
  }

  function Flatten(chunks: seq<Bytes>): Bytes
    decreases |chunks|
  {
    if chunks == [] then [] else chunks[0] + Flatten(chunks[1..])
  }

  /** The chunks are non-empty, at most size long, and concatenate to the
      data. */
  lemma {:induction false} ChunksOfSpec(data: Bytes, size: nat)
    requires size > 0
    ensures Flatten(ChunksOf(data, size)) == data
    ensures forall i :: 0 <= i < |ChunksOf(data, size)| ==> 0 < |ChunksOf(data, size)[i]| <= size
    decreases |data|
  {
    if |data| > 0 {
      var m := if |data| < size then |data| else size;
      ChunksOfSpec(data[m..], size);
      var cs := ChunksOf(data, size);
      assert cs[1..] == ChunksOf(data[m..], size);
      assert data == data[..m] + data[m..];
    }
  }

  datatype Stage = NotStarted | Reading | Finished

  /** The generator file_iterator(): nothing runs before the first next();
      the first opens the file, each then returns the next chunk, and the one
      that finds no data left removes the file and stops.  Closing it while
      it reads also removes the file. */
  class FileIterator {
    const fs: FileSystem
    const path: string
    const chunkSize: nat
    var stage: Stage
    var data: Bytes
    var pos: nat
    ghost var yielded: seq<Bytes>

    ghost predicate Valid()
      reads this
    {
      && chunkSize > 0 && pos <= |data|
      && yielded + ChunksOf(data[pos..], chunkSize) == ChunksOf(data, chunkSize)
      && (stage == NotStarted ==> pos == 0 && yielded == [])
    }

    constructor (fs: FileSystem, path: string)
      ensures this.fs == fs && this.path == path && chunkSize == TRANSCRIPTION_CHUNK_SIZE
      ensures stage == NotStarted && yielded == []
      ensures Valid()
    {
      this.fs := fs;
      this.path := path;
      chunkSize := TRANSCRIPTION_CHUNK_SIZE;
      stage := NotStarted;
      data := [];
      pos := 0;
      yielded := [];
    }

    /** next(): Ok(None) is StopIteration; an error is the exception the
        generator raises. */
    method Next() returns (r: Result<Option<Bytes>, Error>)
      requires Valid()
      modifies this, fs
      ensures Valid()
      ensures old(stage) == Finished ==>
                r == Ok(None) && stage == Finished && fs.files == old(fs.files)
                && data == old(data) && pos == old(pos) && yielded == old(yielded)
      ensures old(stage) == NotStarted && path !in old(fs.files) ==>
                r == Err(FileNotFound(path)) && stage == Finished && fs.files == old(fs.files)
      ensures old(stage) == NotStarted && path in old(fs.files) ==> data == old(fs.files)[path]
      ensures old(stage) == Reading ==> data == old(data)
      ensures r.Err? ==> old(stage) == NotStarted && path !in old(fs.files)
      ensures r.Ok? && r.value.Some? ==>
                var start := if old(stage) == NotStarted then 0 else old(pos);
                && stage == Reading && 0 < |r.value.value| <= chunkSize
                && pos == start + |r.value.value| && r.value.value == data[start..pos]
                && yielded == old(yielded) + [r.value.value] && fs.files == old(fs.files)
      ensures r.Ok? && r.value.None? && old(stage) != Finished ==>
                stage == Finished && pos == |data| && yielded == old(yielded)
                && fs.files == old(fs.files) - {path}
    {
      if stage == Finished {
        return Ok(None);
      }
      if stage == NotStarted {
        if path !in fs.files {
          stage := Finished;
          return Err(FileNotFound(path));
        }
        data := fs.files[path];
        pos := 0;
        stage := Reading;
        assert data[0..] == data;
      }
      var end := if |data| - pos < chunkSize then |data| else pos + chunkSize;
      var chunk := data[pos..end];
      if |chunk| == 0 {
        fs.RemoveIfExists(path);
        stage := Finished;
        return Ok(None);
      }
      ReadNext(data, pos, chunkSize, yielded);
      pos := end;
      yielded := yielded + [chunk];
      r := Ok(Some(chunk));
    }

    /** close(): a generator suspended inside the try runs its finally block
        and removes the file; one that never started ends without running
        anything. */
    method Close()
      requires Valid()
      modifies this, fs
      ensures Valid() && stage == Finished
      ensures old(stage) == Reading ==> fs.files == old(fs.files) - {path}
      ensures old(stage) != Reading ==> fs.files == old(fs.files)
    {
      if stage == Reading {
        fs.RemoveIfExists(path);
      }
      stage := Finished;
    }

    /** Iterating the response body to the end, as the server does: the
        chunks concatenate to the file's bytes, each non-empty and at most
        TRANSCRIPTION_CHUNK_SIZE long, and the file is gone afterwards. */
    method Drain() returns (chunks: seq<Bytes>, r: Result<(), Error>)
      requires Valid() && stage == NotStarted
      modifies this, fs
      ensures path !in fs.files
      ensures path !in old(fs.files) ==> r == Err(FileNotFound(path)) && chunks == [] && fs.files == old(fs.files)
      ensures path in old(fs.files) ==>
                && r == Ok(()) && chunks == ChunksOf(old(fs.files)[path], chunkSize)
                && fs.files == old(fs.files) - {path}
    {
      chunks := [];
      var next := Next();
      if next.Err? {
        return chunks, Err(next.error);
      }
      while next.value.Some?
        invariant Valid() && next.Ok?
        invariant data == old(fs.files)[path]
        invariant next.value.Some? ==> stage == Reading && fs.files == old(fs.files)
        invariant next.value.None? ==> stage == Finished && pos == |data| && fs.files == old(fs.files) - {path}
        invariant next.value.Some? ==> chunks + [next.value.value] == yielded
        invariant next.value.None? ==> chunks == yielded
        decreases |data| - pos, if next.value.Some? then 1 else 0
      {
        chunks := chunks + [next.value.value];
        next := Next();
      }
      assert data[pos..] == [];
      assert ChunksOf(data[pos..], chunkSize) == [];
      r := Ok(());
    }
  }

  /** At offset pos the next chunk is data[pos..end] and the rest follows. */
  lemma ChunksOfHead(data: Bytes, pos: nat, size: nat)
    requires size > 0 && pos < |data|
    ensures var end := if |data| - pos < size then |data| else pos + size;
            ChunksOf(data[pos..], size) == [data[pos..end]] + ChunksOf(data[end..], size)
  {
    var end := if |data| - pos < size then |data| else pos + size;
    var d := data[pos..];
    assert d[..end - pos] == data[pos..end];
    assert d[end - pos..] == data[end..];
  }

  /** Reading the next chunk keeps the iterator's account: the chunks yielded
      so far followed by the chunks of what is left are the file's chunks. */
  lemma ReadNext(data: Bytes, pos: nat, size: nat, yielded: seq<Bytes>)
    requires size > 0 && pos < |data|
    requires yielded + ChunksOf(data[pos..], size) == ChunksOf(data, size)
    ensures var end := if |data| - pos < size then |data| else pos + size;
            && pos < end <= |data| && end - pos <= size
            && (yielded + [data[pos..end]]) + ChunksOf(data[end..], size) == ChunksOf(data, size)
  {
    var end := if |data| - pos < size then |data| else pos + size;
    ChunksOfHead(data, pos, size);
    AppendAssoc(yielded, [data[pos..end]], ChunksOf(data[end..], size));
  }
}

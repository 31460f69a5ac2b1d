/** The database of api/apps/models.py, kept in memory: the single Settings
    row, the downloaded videos and their subtitles, with the singleton rule of
    Settings.save and the table constraints (unique video_id, unique
    (video, language), subtitles deleted with their video). */
module Models {
  import opened Wrappers
  import opened Errors
  import opened LocalFiles

  /** The allowed values of max_video_height. */
  const VIDEO_HEIGHT_CHOICES: seq<int> := [240, 360, 480, 720, 1080]

  datatype SettingsRecord = SettingsRecord(
    openaiApiKey: Option<string>,
    anthropicApiKey: Option<string>,
    maxVideoHeight: int,
    useHeAacV2: bool)

  /** A Settings row created without arguments. */
  const DEFAULT_SETTINGS := SettingsRecord(None, None, 720, true)

  const ONLY_ONE_SETTINGS := "There can be only one Settings instance"

  /** Python's truth value of an optional key: neither None nor empty. */
  predicate IsSet(key: Option<string>) {
    key.Some? && key.value != ""
  }

  datatype SettingsRow = SettingsRow(id: nat, record: SettingsRecord)

  /** A YouTubeVideo row; thumbnail is the stored file name ("" for none). */
  datatype Video = Video(
    videoId: string,
    thumbnail: string,
    duration: nat,
    width: nat,
    height: nat,
    title: string,
    originalVideo: Bytes,
    audio: Bytes)

  /** str(video). */
  function VideoStr(v: Video): (r: string)
    ensures r == v.title
  {
    v.title
  }

  /** signed_thumbnail_url: None without a thumbnail, otherwise the storage's
      URL for the thumbnail's name; the storage is the url parameter. */
  function SignedThumbnailUrl(v: Video, url: string -> string): (r: Option<string>)
    ensures r.None? <==> v.thumbnail == ""
    ensures r.Some? ==> r.value == url(v.thumbnail)
  {
    if v.thumbnail == "" then None else Some(url(v.thumbnail))
  }

  /** A Subtitle row; video is the id of its YouTubeVideo row. */
  datatype Subtitle = Subtitle(video: nat, language: string, isTranscribed: bool, content: string)

  /** Subtitle.objects.create without is_transcribed: the field defaults to True. */
  function NewSubtitle(video: nat, language: string, content: string): (s: Subtitle)
    ensures s.isTranscribed
    ensures s.video == video && s.language == language && s.content == content
  {
    Subtitle(video, language, true, content)
  }

  class Database {
    var settings: Option<SettingsRow>
    var videos: map<nat, Video>
    var subtitles: map<nat, Subtitle>
    var nextId: nat

    /** The constraints every state of the tables satisfies. */
    ghost predicate Valid()
      reads this
    {
      && (settings.Some? ==> settings.value.id < nextId)
      && (forall id :: id in videos ==> id < nextId)
      && (forall id :: id in subtitles ==> id < nextId)
      && UniqueVideoIds(videos)
      && (forall id :: id in subtitles ==> subtitles[id].video in videos)
      && UniqueLanguages(subtitles)
    }

    constructor ()
      ensures Valid()
      ensures settings == None && videos == map[] && subtitles == map[]
    {
      settings := None;
      videos := map[];
      subtitles := map[];
      nextId := 0;
    }

    /** Settings.objects.first(). */
    function FirstSettings(): (r: Option<SettingsRecord>)
      reads this
      ensures r.Some? <==> settings.Some?
      ensures r.Some? ==> r.value == settings.value.record
    {
      if settings.None? then None else Some(settings.value.record)
    }

    /** Settings.save: a row without an id is rejected while a Settings row
        exists; otherwise it is inserted, and a row with an id overwrites
        that row.  Returns the row's id. */
    method SaveSettings(id: Option<nat>, rec: SettingsRecord) returns (r: Result<nat, Error>)
      requires Valid()
      requires id.Some? && settings.Some? ==> settings.value.id == id.value
      modifies this
      ensures Valid()
      ensures videos == old(videos) && subtitles == old(subtitles)
      ensures id.None? && old(settings).Some? ==>
                r == Err(ValidationError(ONLY_ONE_SETTINGS)) && settings == old(settings)
      ensures id.None? && old(settings).None? ==>
                r.Ok? && settings == Some(SettingsRow(r.value, rec))
      ensures id.Some? ==> r == Ok(id.value) && settings == Some(SettingsRow(id.value, rec))
    {
      if id.None? && settings.Some? {
        return Err(ValidationError(ONLY_ONE_SETTINGS));
      }
      var rowId: nat;
      if id.None? {
        rowId := nextId;
        nextId := nextId + 1;
      } else {
        rowId := id.value;
        if nextId <= rowId {
          nextId := rowId + 1;
        }
      }
      settings := Some(SettingsRow(rowId, rec));
      r := Ok(rowId);
    }

    /** The id of the video with this video_id, if there is one
        (YouTubeVideo.objects.get(video_id=...)). */
    function VideoByVideoId(videoId: string): (r: Option<nat>)
      requires UniqueVideoIds(videos)
      reads this
      ensures r.Some? ==> r.value in videos && videos[r.value].videoId == videoId
      ensures r.None? ==> forall id :: id in videos ==> videos[id].videoId != videoId
    {
      if exists id :: id in videos && videos[id].videoId == videoId then
        var id :| id in videos && videos[id].videoId == videoId; Some(id)
      else None
    }

    /** YouTubeVideo.objects.create: IntegrityError when the video_id is taken. */
    method CreateVideo(v: Video) returns (r: Result<nat, Error>)
      requires Valid()
      modifies this
      ensures Valid()
      ensures settings == old(settings) && subtitles == old(subtitles)
      ensures r.Err? <==> exists id :: id in old(videos) && old(videos)[id].videoId == v.videoId
      ensures r.Err? ==> r.error == IntegrityError && videos == old(videos)
      ensures r.Ok? ==> r.value !in old(videos) && videos == old(videos)[r.value := v]
    {
      if exists id :: id in videos && videos[id].videoId == v.videoId {
        return Err(IntegrityError);
      }
      var id := nextId;
      nextId := nextId + 1;
      videos := videos[id := v];
      r := Ok(id);
    }

    /** Subtitle.objects.create: IntegrityError when the video does not exist
        or already has a subtitle in that language. */
    method CreateSubtitle(s: Subtitle) returns (r: Result<nat, Error>)
      requires Valid()
      modifies this
      ensures Valid()
      ensures settings == old(settings) && videos == old(videos)
      ensures r.Err? <==> s.video !in videos || LanguageTaken(old(subtitles), s.video, s.language)
      ensures r.Err? ==> r.error == IntegrityError && subtitles == old(subtitles)
      ensures r.Ok? ==> r.value !in old(subtitles) && subtitles == old(subtitles)[r.value := s]
    {
      if s.video !in videos || LanguageTaken(subtitles, s.video, s.language) {
        return Err(IntegrityError);
      }
      var id := nextId;
      nextId := nextId + 1;
      subtitles := subtitles[id := s];
      r := Ok(id);
    }

    /** Deleting a video deletes its subtitles with it (on_delete=CASCADE). */
    method DeleteVideo(id: nat)
      requires Valid()
      modifies this
      ensures Valid()
      ensures settings == old(settings)
      ensures videos == old(videos) - {id}
      ensures subtitles == SubtitlesNotOf(old(subtitles), id)
    {
      subtitles := SubtitlesNotOf(subtitles, id);
      videos := videos - {id};
    }
  }

  predicate UniqueVideoIds(videos: map<nat, Video>) {
    forall a, b :: a in videos && b in videos && a != b ==> videos[a].videoId != videos[b].videoId
  }

  predicate UniqueLanguages(subtitles: map<nat, Subtitle>) {
    forall a, b :: a in subtitles && b in subtitles && a != b ==>
      subtitles[a].video != subtitles[b].video || subtitles[a].language != subtitles[b].language
  }

  predicate LanguageTaken(subtitles: map<nat, Subtitle>, video: nat, language: string) {
    exists id :: id in subtitles && subtitles[id].video == video && subtitles[id].language == language
  }

  /** after is before with one more subtitle s, under a new id. */
  ghost predicate AddsOne(before: map<nat, Subtitle>, after: map<nat, Subtitle>, s: Subtitle) {
    exists id: nat :: id !in before && after == before[id := s]
  }

  /** The subtitles that do not belong to the video. */
  function SubtitlesNotOf(subtitles: map<nat, Subtitle>, video: nat): (r: map<nat, Subtitle>)
    ensures forall id :: id in r <==> id in subtitles && subtitles[id].video != video
    ensures forall id :: id in r ==> r[id] == subtitles[id]
  {
    map id | id in subtitles && subtitles[id].video != video :: subtitles[id]
  }

  /** A subtitle in a language its video lacks can be added without breaking
      uniqueness, and one whose language is taken cannot. */
  lemma AddSubtitleUnique(subtitles: map<nat, Subtitle>, id: nat, s: Subtitle)
    requires UniqueLanguages(subtitles) && id !in subtitles
    ensures UniqueLanguages(subtitles[id := s]) <==> !LanguageTaken(subtitles, s.video, s.language)
  {
    var m := subtitles[id := s];
    if LanguageTaken(subtitles, s.video, s.language) {
      var other :| other in subtitles && subtitles[other].video == s.video && subtitles[other].language == s.language;
      assert m[other] == subtitles[other] && m[id] == s;
    }
  }

  /** Within a valid store, (video, language) picks at most one subtitle. */
  lemma AtMostOnePerLanguage(subtitles: map<nat, Subtitle>, a: nat, b: nat)
    requires UniqueLanguages(subtitles)
    requires a in subtitles && b in subtitles
    requires subtitles[a].video == subtitles[b].video && subtitles[a].language == subtitles[b].language
    ensures a == b
  {
  }

  /** After the cascade no subtitle refers to the deleted video. */
  lemma CascadeLeavesNoOrphans(subtitles: map<nat, Subtitle>, videos: map<nat, Video>, id: nat)
    requires forall s :: s in subtitles ==> subtitles[s].video in videos
    ensures var rest := SubtitlesNotOf(subtitles, id);
            forall s :: s in rest ==> rest[s].video in videos - {id}
  {
  }

  /** The default Settings row has no keys, the 720 height drawn from the
      ladder, and HE-AAC v2 enabled. */
  lemma DefaultSettingsValues()
    ensures DEFAULT_SETTINGS.maxVideoHeight in VIDEO_HEIGHT_CHOICES
    ensures !IsSet(DEFAULT_SETTINGS.openaiApiKey) && !IsSet(DEFAULT_SETTINGS.anthropicApiKey)
    ensures DEFAULT_SETTINGS.useHeAacV2
  {
  }
}
